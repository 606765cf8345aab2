/**
 * Catalog rules: how a category and a product get their slugs on save, the
 * check that a variant's image belongs to the variant's product, and how a
 * variant attribute prints.
 *
 * `slugify` is a library function; callers pass its result (`base`,
 * `nameSlug`) in.
 */
module CatalogModels {
  import opened Wrappers
  import opened Schema
  import Text

  /** `Category.save`: an empty slug becomes the slugified name; a given slug is kept. No suffix is added. */
  function CategorySlug(slug: string, nameSlug: string): (r: string)
    ensures slug != [] ==> r == slug
    ensures slug == [] ==> r == nameSlug
  {
    if slug == [] then nameSlug else slug
  }

  /**
   * `Category.save` on the table of category slugs (`pk` to slug): the slug
   * `CategorySlug` gives is stored, unless another category already has it,
   * which the unique constraint refuses. A given slug and a derived one are
   * checked alike: no suffix is tried for a category.
   */
  function SaveCategory(slugs: map<nat, string>, pk: nat, slug: string, nameSlug: string)
    : (r: Result<map<nat, string>, IntegrityError>)
  {
    var s := CategorySlug(slug, nameSlug);
    if s in OtherSlugs(slugs, pk) then Err(SlugTaken(s)) else Ok(slugs[pk := s])
  }

  /**
   * What `SaveCategory` promises: the save is refused exactly when another
   * category has the slug, a successful save changes only this category's
   * slug, and distinct slugs stay distinct.
   */
  lemma SaveCategoryKeepsDistinct(slugs: map<nat, string>, pk: nat, slug: string, nameSlug: string)
    ensures var r := SaveCategory(slugs, pk, slug, nameSlug);
      var s := CategorySlug(slug, nameSlug);
      && (r.Err? <==> exists k :: k in slugs && k != pk && slugs[k] == s)
      && (r.Err? ==> r.error == SlugTaken(s))
      && (r.Ok? ==> r.value.Keys == slugs.Keys + {pk} && r.value[pk] == s
                    && forall k :: k in slugs && k != pk ==> r.value[k] == slugs[k])
      && (r.Ok? && SlugsDistinct(slugs) ==> SlugsDistinct(r.value))
  {
    var r := SaveCategory(slugs, pk, slug, nameSlug);
    var s := CategorySlug(slug, nameSlug);
    if r.Ok? && SlugsDistinct(slugs) {
      forall i, j | i in r.value && j in r.value && i != j
        ensures r.value[i] != r.value[j]
      {
        if i == pk {
          assert slugs[j] in OtherSlugs(slugs, pk);
        } else if j == pk {
          assert slugs[i] in OtherSlugs(slugs, pk);
        }
      }
    }
  }

  /** Saving a category twice derives nothing new. */
  lemma CategorySlugStable(slug: string, nameSlug: string)
    ensures CategorySlug(CategorySlug(slug, nameSlug), nameSlug) == CategorySlug(slug, nameSlug)
  {
  }

  /** The `n`-th slug `Product.save` tries: `base` first, then `base-2`, `base-3`, … */
  function SlugCandidate(base: string, n: nat): string
    requires n >= 1
  {
    if n == 1 then base else base + "-" + Text.NatToString(n)
  }

  /** Different tries give different slugs, so the search never revisits a slug. */
  lemma SlugCandidateInjective(base: string, a: nat, b: nat)
    requires 1 <= a && 1 <= b && a != b
    ensures SlugCandidate(base, a) != SlugCandidate(base, b)
  {
    if a > 1 && b > 1 {
      var p := base + "-";
      var x, y := Text.NatToString(a), Text.NatToString(b);
      Text.NatToStringValue(a);
      Text.NatToStringValue(b);
      assert x != y;
      assert x == (p + x)[|p|..] && y == (p + y)[|p|..];
    }
  }

  /** The slugs of every product other than `pk`. */
  function OtherSlugs(slugs: map<nat, string>, pk: nat): (r: set<string>)
    ensures forall k :: k in slugs && k != pk ==> slugs[k] in r
    ensures forall s :: s in r ==> exists k :: k in slugs && k != pk && slugs[k] == s
  {
    set k | k in slugs && k != pk :: slugs[k]
  }

  /** No two products share a slug. */
  predicate SlugsDistinct(slugs: map<nat, string>) {
    forall i, j :: i in slugs && j in slugs && i != j ==> slugs[i] != slugs[j]
  }

  /** The slugs tried before the `n`-th: `SlugCandidate(base, j)` for `1 <= j < n`. */
  ghost function Candidates(base: string, n: nat): set<string> {
    set j | 1 <= j < n :: SlugCandidate(base, j)
  }

  /** One more try adds exactly its own slug, which is new. */
  lemma CandidatesNext(base: string, n: nat)
    requires n >= 1
    ensures Candidates(base, n + 1) == Candidates(base, n) + {SlugCandidate(base, n)}
    ensures SlugCandidate(base, n) !in Candidates(base, n)
  {
    forall j | 1 <= j < n
      ensures SlugCandidate(base, j) != SlugCandidate(base, n)
    {
      SlugCandidateInjective(base, j, n);
    }
  }

  /**
   * The search loop of `Product.save`: the first of `base`, `base-2`,
   * `base-3`, … that is not in `taken`. It ends because the tries are
   * pairwise different and `taken` is finite.
   */
  method FreeSlug(taken: set<string>, base: string) returns (s: string, ghost tries: nat)
    ensures tries >= 1 && s == SlugCandidate(base, tries) && s !in taken
    ensures forall j :: 1 <= j < tries ==> SlugCandidate(base, j) in taken
  {
    s := base;
    var i := 2;
    while s in taken
      invariant i >= 2 && s == SlugCandidate(base, i - 1)
      invariant Candidates(base, i - 1) <= taken
      decreases |taken - Candidates(base, i - 1)|
    {
      CandidatesNext(base, i - 1);
      assert taken - Candidates(base, i) == (taken - Candidates(base, i - 1)) - {s};
      s := base + "-" + Text.NatToString(i);
      i := i + 1;
    }
    tries := i - 1;
    assert forall j :: 1 <= j < tries ==> SlugCandidate(base, j) in Candidates(base, tries);
  }

  /** The `IntegrityError` the database raises when a save would give two rows of a table the same slug. */
  datatype IntegrityError = SlugTaken(slug: string)

  /**
   * `Product.save`: a product saved with an empty slug gets the first of
   * `base`, `base-2`, `base-3`, … that no other product uses; a non-empty slug
   * is stored as given, and the unique constraint on the column refuses it
   * when another product already has it.
   */
  method SaveProduct(db: Database, pk: nat, slug: string, base: string)
    returns (r: Result<string, IntegrityError>, ghost tries: nat)
    modifies db
    ensures slug != [] ==> (r.Ok? <==> slug !in OtherSlugs(old(db.productSlugs), pk))
    ensures slug != [] && r.Ok? ==> r.value == slug
    ensures r.Err? ==> r.error == SlugTaken(slug) && db.Snapshot() == old(db.Snapshot())
    ensures slug == [] ==>
      && r.Ok?
      && tries >= 1
      && r.value == SlugCandidate(base, tries)
      && r.value !in OtherSlugs(old(db.productSlugs), pk)
      && forall j :: 1 <= j < tries ==> SlugCandidate(base, j) in OtherSlugs(old(db.productSlugs), pk)
    ensures r.Ok? ==> db.Snapshot() == old(db.Snapshot()).(productSlugs := old(db.productSlugs)[pk := r.value])
    ensures SlugsDistinct(old(db.productSlugs)) ==> SlugsDistinct(db.productSlugs)
  {
    tries := 1;
    var saved := slug;
    if slug == [] {
      saved, tries := FreeSlug(OtherSlugs(db.productSlugs, pk), base);
    } else if slug in OtherSlugs(db.productSlugs, pk) {
      return Err(SlugTaken(slug)), tries;
    }
    db.productSlugs := db.productSlugs[pk := saved];
    r := Ok(saved);
  }

  /**
   * `Variant.clean`: a variant image is accepted only when it is absent or
   * belongs to the variant's own product (`imageProduct` is the image's product).
   */
  function CleanVariant(product: nat, imageProduct: Option<nat>): (ok: bool)
    ensures ok <==> (imageProduct.None? || imageProduct.value == product)
  {
    match imageProduct
    case None => true
    case Some(p) => p == product
  }

  /** `VariantAttribute.__str__`: `"name: value"`. */
  function AttributeText(a: Attribute): string {
    a.name + ": " + a.value
  }

  /** The printed attribute splits back at its first colon when the name has none. */
  lemma AttributeTextSplits(a: Attribute)
    requires ':' !in a.name
    ensures Text.BeforeFirst(AttributeText(a), ':') == a.name
    ensures Text.AfterFirst(AttributeText(a), ':') == " " + a.value
  {
    var t := AttributeText(a);
    assert t[|a.name|] == ':';
    assert forall i :: 0 <= i < |a.name| ==> t[i] == a.name[i];
    var k := Text.IndexOf(t, ':');
    assert forall i :: 0 <= i < |a.name| ==> t[i] != ':';
    assert k == Some(|a.name|);
    assert t[..|a.name|] == a.name;
    assert t[|a.name| + 1..] == " " + a.value;
  }

  /** The printed form of each attribute, in order. */
  function AttributeTexts(attrs: seq<Attribute>): (r: seq<string>)
    ensures |r| == |attrs| && forall i :: 0 <= i < |attrs| ==> r[i] == AttributeText(attrs[i])
  {
    seq(|attrs|, i requires 0 <= i < |attrs| => AttributeText(attrs[i]))
  }

  /** The printed attributes joined by `", "`, as variant labels and order-item descriptions show them. */
  function AttributesText(attrs: seq<Attribute>): string {
    Text.Join(", ", AttributeTexts(attrs))
  }

  /** One attribute prints alone; one more attribute adds `", "` and its text. */
  lemma {:induction false} AttributesTextSnoc(attrs: seq<Attribute>, a: Attribute)
    ensures AttributesText([a]) == a.name + ": " + a.value
    ensures attrs != [] ==> AttributesText(attrs + [a]) == AttributesText(attrs) + ", " + a.name + ": " + a.value
  {
    assert AttributeTexts([a]) == [AttributeText(a)];
    if attrs != [] {
      assert AttributeTexts(attrs + [a]) == AttributeTexts(attrs) + [AttributeText(a)];
      Text.JoinSnoc(", ", AttributeTexts(attrs), AttributeText(a));
    }
  }
}
