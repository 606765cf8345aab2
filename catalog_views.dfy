/**
 * The decisions the catalog pages make: reading optional price bounds, the
 * attribute filters of the product list, the sort order, the attribute
 * sidebar, the variant labels and the add-to-cart request of a product page.
 *
 * Decimal parsing is library code: callers pass in what `Decimal(str(v))`
 * produced (`None` for an `InvalidOperation`).
 */
module CatalogViews {
  import opened Wrappers
  import opened Schema
  import Text
  import CatalogModels
  import CartServices

  /** `_safe_decimal`: a missing or empty value, or one that does not parse, gives the default. */
  function SafeDecimal<D>(v: Option<string>, parsed: Option<D>, default: Option<D>): (r: Option<D>)
    ensures v.None? || v.value == "" ==> r == default
    ensures v.Some? && v.value != "" ==> r == (if parsed.Some? then parsed else default)
  {
    match v
    case None => default
    case Some(text) => if text == "" then default else if parsed.Some? then parsed else default
  }

  // ---------------------------------------------------------------------------
  // Attribute filters of the product list (`?attr_Color=Rojo`)

  /** A query parameter that filters: its key starts with `attr_` and its value is not empty. */
  predicate IsFilter(param: (string, string)) {
    Text.StartsWith(param.0, "attr_") && param.1 != ""
  }

  /** The attribute a filter key names: the key with every `attr_` taken out. */
  function AttrName(key: string): string {
    Text.RemoveAll(key, "attr_")
  }

  /**
   * The filters a sequence of query parameters (in order) makes; a later key
   * for the same name wins. Defined for any sequence of pairs, repeated keys
   * included.
   */
  function AttrFilters(params: seq<(string, string)>): map<string, string>
    decreases |params|
  {
    if params == [] then map[]
    else
      var filters := AttrFilters(params[..|params| - 1]);
      var p := params[|params| - 1];
      if IsFilter(p) then filters[AttrName(p.0) := p.1] else filters
  }

  /** No key appears twice: the pairs of `request.GET.items()`, which gives each key once, with its last value. */
  predicate DistinctKeys(params: seq<(string, string)>) {
    forall i, j :: 0 <= i < j < |params| ==> params[i].0 != params[j].0
  }

  /**
   * The loop of `product_list` that fills `attr_filters`, over the pairs of
   * `request.GET.items()`. Keys are distinct there, but two keys can still
   * name the same attribute (`attr_color` and `attr_attr_color`), and then the
   * later one wins.
   */
  method ExtractAttrFilters(params: seq<(string, string)>) returns (filters: map<string, string>)
    requires DistinctKeys(params)
    ensures filters == AttrFilters(params)
  {
    filters := map[];
    var i := 0;
    while i < |params|
      invariant 0 <= i <= |params|
      invariant filters == AttrFilters(params[..i])
    {
      var (key, value) := params[i];
      if Text.StartsWith(key, "attr_") && value != "" {
        filters := filters[Text.RemoveAll(key, "attr_") := value];
      }
      assert params[..i + 1][..i] == params[..i];
      i := i + 1;
    }
    assert params[..|params|] == params;
  }

  /** Whether the parameter is a filter on the attribute `name`. */
  predicate Names(param: (string, string), name: string) {
    IsFilter(param) && AttrName(param.0) == name
  }

  /**
   * A name is filtered on exactly when some filtering parameter names it, and
   * its value is that of the last such parameter.
   */
  lemma {:induction false} AttrFiltersLastWins(params: seq<(string, string)>, name: string)
    ensures name in AttrFilters(params) <==> exists i :: 0 <= i < |params| && Names(params[i], name)
    ensures name in AttrFilters(params) ==>
      exists i :: 0 <= i < |params| && Names(params[i], name)
        && AttrFilters(params)[name] == params[i].1
        && forall j :: i < j < |params| ==> !Names(params[j], name)
    decreases |params|
  {
    if params != [] {
      var n := |params| - 1;
      var init := params[..n];
      var p := params[n];
      AttrFiltersLastWins(init, name);
      assert forall i :: 0 <= i < n ==> init[i] == params[i];
      if Names(p, name) {
        assert Names(params[n], name) && AttrFilters(params)[name] == params[n].1;
      } else {
        assert name in AttrFilters(params) <==> name in AttrFilters(init);
        if name in AttrFilters(init) {
          var i :| 0 <= i < |init| && Names(init[i], name)
            && AttrFilters(init)[name] == init[i].1
            && forall j :: i < j < |init| ==> !Names(init[j], name);
          assert Names(params[i], name) && AttrFilters(params)[name] == params[i].1;
          assert forall j :: i < j < |params| ==> !Names(params[j], name);
        } else {
          assert forall i :: 0 <= i < |params| ==> !Names(params[i], name);
        }
      }
    }
  }

  /** The key `attr_X` filters on `X` itself, as long as `X` does not contain `attr_`. */
  lemma AttrNameOfKey(x: string)
    requires !Text.Contains(x, "attr_")
    ensures AttrName("attr_" + x) == x
  {
    Text.RemoveAllPrefix(x, "attr_");
  }

  // ---------------------------------------------------------------------------
  // Sort order

  /** `SORT_MAP`: the sort keys the list understands and the field each orders by. */
  const SortMap: map<string, string> := map["newest" := "-created_at", "name_asc" := "name", "name_desc" := "-name"]

  /** `(request.GET.get("sort") or "newest").strip()`. */
  function SortChoice(raw: Option<string>): (s: string)
    ensures raw.None? || raw.value == "" ==> s == "newest"
    ensures raw.Some? && raw.value != "" ==> s == Text.Strip(raw.value)
  {
    var chosen := if raw.None? || raw.value == "" then "newest" else raw.value;
    Text.StripUnchanged("newest");
    Text.Strip(chosen)
  }

  /** `SORT_MAP.get(sort, "-created_at")`. */
  function OrderField(sort: string): (f: string)
    ensures f in SortMap.Values
  {
    assert SortMap["newest"] == "-created_at";
    if sort in SortMap then SortMap[sort] else "-created_at"
  }

  /**
   * The list is ordered by name only for the two name keys; every other
   * choice, the default and any unknown key, is newest first.
   */
  lemma OrderFieldNewestUnlessName(sort: string)
    ensures OrderField(sort) == "-created_at" <==> sort != "name_asc" && sort != "name_desc"
    ensures sort == "name_asc" ==> OrderField(sort) == "name"
    ensures sort == "name_desc" ==> OrderField(sort) == "-name"
  {
  }

  /** Without a sort parameter the list is newest first. */
  lemma DefaultOrder()
    ensures OrderField(SortChoice(None)) == "-created_at"
  {
  }

  // ---------------------------------------------------------------------------
  // Attribute sidebar

  /** The sidebar: attribute names in first-seen order, and the values listed under each. */
  datatype Sidebar = Sidebar(names: seq<string>, values: map<string, seq<string>>)

  /** `raw_name.strip().capitalize()`. */
  function SidebarName(raw: string): string {
    Text.Capitalize(Text.Strip(raw))
  }

  /** A value listed under the cleaned name `n`: the name is added when new, the value when not yet listed. */
  function AddValue(sb: Sidebar, n: string, v: string): Sidebar {
    var known := if n in sb.values then sb.values[n] else [];
    Sidebar(if n in sb.values then sb.names else sb.names + [n],
            sb.values[n := if v in known then known else known + [v]])
  }

  /** One attribute row added to the sidebar: skipped when its name is empty. */
  function AddRow(sb: Sidebar, a: Attribute): Sidebar {
    if a.name == "" then sb else AddValue(sb, SidebarName(a.name), a.value)
  }

  /** The sidebar built from the attribute rows, in the order the query yields them. */
  function SidebarOf(attrs: seq<Attribute>): Sidebar
    decreases |attrs|
  {
    if attrs == [] then Sidebar([], map[])
    else AddRow(SidebarOf(attrs[..|attrs| - 1]), attrs[|attrs| - 1])
  }

  /** The body of the sidebar loop: `setdefault(n, [])`, then append the value unless it is listed. */
  method PutValue(names: seq<string>, values: map<string, seq<string>>, n: string, v: string)
    returns (names': seq<string>, values': map<string, seq<string>>)
    ensures Sidebar(names', values') == AddValue(Sidebar(names, values), n, v)
  {
    names', values' := names, values;
    if n !in values' {
      values' := values'[n := []];
      names' := names' + [n];
    }
    if v !in values'[n] {
      values' := values'[n := values'[n] + [v]];
    }
  }

  /** The sidebar loop of `product_list`: a dictionary of lists grown with a duplicate check. */
  method BuildSidebar(attrs: seq<Attribute>) returns (names: seq<string>, values: map<string, seq<string>>)
    ensures Sidebar(names, values) == SidebarOf(attrs)
  {
    names, values := [], map[];
    var i := 0;
    while i < |attrs|
      invariant 0 <= i <= |attrs|
      invariant Sidebar(names, values) == SidebarOf(attrs[..i])
    {
      var a := attrs[i];
      if a.name != "" {
        names, values := PutValue(names, values, Text.Capitalize(Text.Strip(a.name)), a.value);
      }
      assert attrs[..i + 1][..i] == attrs[..i];
      i := i + 1;
    }
    assert attrs[..|attrs|] == attrs;
  }

  predicate NoDuplicates<T(==)>(s: seq<T>) {
    forall i, j :: 0 <= i < j < |s| ==> s[i] != s[j]
  }

  /** Each name appears once, every listed name has a list, and no list repeats a value. */
  ghost predicate WellFormed(sb: Sidebar) {
    && NoDuplicates(sb.names)
    && (forall n :: n in sb.values <==> n in sb.names)
    && (forall n :: n in sb.values ==> NoDuplicates(sb.values[n]))
  }

  /** Adding a value keeps the sidebar well formed. */
  lemma AddValueWellFormed(sb: Sidebar, n: string, v: string)
    requires WellFormed(sb)
    ensures WellFormed(AddValue(sb, n, v))
  {
  }

  lemma {:induction false} SidebarWellFormed(attrs: seq<Attribute>)
    ensures WellFormed(SidebarOf(attrs))
    decreases |attrs|
  {
    if attrs != [] {
      SidebarWellFormed(attrs[..|attrs| - 1]);
      var a := attrs[|attrs| - 1];
      if a.name != "" {
        AddValueWellFormed(SidebarOf(attrs[..|attrs| - 1]), SidebarName(a.name), a.value);
      }
    }
  }

  /** Adding a value lists it under its name and nothing else. */
  lemma AddValueLists(sb: Sidebar, m: string, w: string, n: string, v: string)
    ensures (n in AddValue(sb, m, w).values && v in AddValue(sb, m, w).values[n]) <==>
      (n in sb.values && v in sb.values[n]) || (m == n && w == v)
  {
  }

  /** Whether the attribute row puts the value `v` under the name `n`. */
  predicate Shows(a: Attribute, n: string, v: string) {
    a.name != "" && SidebarName(a.name) == n && a.value == v
  }

  /** Some row among the first `k` puts `v` under `n`. */
  predicate ShownBefore(attrs: seq<Attribute>, k: nat, n: string, v: string)
    requires k <= |attrs|
  {
    exists i :: 0 <= i < k && Shows(attrs[i], n, v)
  }

  lemma ShownBeforeNext(attrs: seq<Attribute>, k: nat, n: string, v: string)
    requires k < |attrs|
    ensures ShownBefore(attrs, k + 1, n, v) <==> ShownBefore(attrs, k, n, v) || Shows(attrs[k], n, v)
  {
    if ShownBefore(attrs, k + 1, n, v) && !Shows(attrs[k], n, v) {
      var i :| 0 <= i < k + 1 && Shows(attrs[i], n, v);
      assert i < k;
    }
  }

  lemma ShownBeforePrefix(attrs: seq<Attribute>, k: nat, n: string, v: string)
    requires k <= |attrs|
    ensures ShownBefore(attrs[..k], k, n, v) <==> ShownBefore(attrs, k, n, v)
  {
    assert forall i :: 0 <= i < k ==> attrs[..k][i] == attrs[i];
  }

  /**
   * A value is listed under a name exactly when some attribute row with a
   * non-empty name cleans to that name and carries that value.
   */
  lemma {:induction false} SidebarListsSeenValues(attrs: seq<Attribute>, n: string, v: string)
    ensures (n in SidebarOf(attrs).values && v in SidebarOf(attrs).values[n]) <==>
      exists i :: 0 <= i < |attrs| && Shows(attrs[i], n, v)
    decreases |attrs|
  {
    if attrs != [] {
      var k := |attrs| - 1;
      var init := attrs[..k];
      var sb := SidebarOf(init);
      SidebarListsSeenValues(init, n, v);
      ShownBeforePrefix(attrs, k, n, v);
      ShownBeforeNext(attrs, k, n, v);
      assert ShownBefore(init, k, n, v) <==> (n in sb.values && v in sb.values[n]);
      if attrs[k].name != "" {
        AddValueLists(sb, SidebarName(attrs[k].name), attrs[k].value, n, v);
      }
      assert ShownBefore(attrs, |attrs|, n, v) <==> (n in SidebarOf(attrs).values && v in SidebarOf(attrs).values[n]);
    }
  }

  /**
   * A later row never reorders what is already listed: the names and every
   * list grow only at their end, so values stay in first-seen order.
   */
  lemma SidebarGrowsAtEnd(attrs: seq<Attribute>, a: Attribute)
    ensures var before, after := SidebarOf(attrs), SidebarOf(attrs + [a]);
      && before.names <= after.names
      && forall n :: n in before.values ==> n in after.values && before.values[n] <= after.values[n]
  {
    assert (attrs + [a])[..|attrs|] == attrs;
    assert SidebarOf(attrs + [a]) == AddRow(SidebarOf(attrs), a);
  }

  /** A name of white space only is not skipped: it is listed under the empty name. */
  lemma BlankNameListedAsEmpty(raw: string)
    requires raw != [] && forall i :: 0 <= i < |raw| ==> Text.IsSpace(raw[i])
    ensures SidebarName(raw) == ""
  {
    Text.StripFacts(raw);
  }

  // ---------------------------------------------------------------------------
  // Product page

  /** The label of a variant choice: `"Variante"` without attributes, else the attributes joined. */
  function VariantLabel(attrs: seq<Attribute>): (text: string)
    ensures attrs == [] ==> text == "Variante"
    ensures attrs != [] ==> text == CatalogModels.AttributesText(attrs)
  {
    if attrs == [] then "Variante" else CatalogModels.AttributesText(attrs)
  }

  /** A label lists the attributes one by one, `"name: value"`, separated by `", "`. */
  lemma VariantLabelLists(attrs: seq<Attribute>, a: Attribute)
    ensures VariantLabel([a]) == a.name + ": " + a.value
    ensures attrs != [] ==> VariantLabel(attrs + [a]) == VariantLabel(attrs) + ", " + a.name + ": " + a.value
  {
    CatalogModels.AttributesTextSnoc(attrs, a);
  }

  /** The posted quantity: `int(qty)` with `"1"` when absent, 1 when it does not parse, then at least 1. */
  function DetailQty(raw: Option<string>): (q: int)
    ensures q >= 1
    ensures raw.Some? && Text.ParseInt(raw.value).None? ==> q == 1
    ensures raw.Some? && Text.ParseInt(raw.value).Some? ==>
              q == if Text.ParseInt(raw.value).value < 1 then 1 else Text.ParseInt(raw.value).value
  {
    var parsed := Text.ParseInt(if raw.None? then "1" else raw.value);
    var n := if parsed.Some? then parsed.value else 1;
    if n < 1 then 1 else n
  }

  /**
   * A posted positive number is taken as it is; a missing, negative or zero
   * one, or one too long for `int()`, becomes 1.
   */
  lemma DetailQtyReads(n: nat)
    ensures DetailQty(None) == 1
    ensures n >= 1 && |Text.NatToString(n)| <= Text.MaxStrDigits ==> DetailQty(Some(Text.NatToString(n))) == n
    ensures |Text.NatToString(n)| > Text.MaxStrDigits ==> DetailQty(Some(Text.NatToString(n))) == 1
    ensures DetailQty(Some("-" + Text.NatToString(n))) == 1
  {
    if |Text.NatToString(n)| <= Text.MaxStrDigits {
      Text.ParseNatToString(n);
    } else {
      Text.ParseRefusesLongDigits(Text.NatToString(n));
    }
    Text.ParseNatToString(1);
    assert Text.NatToString(1) == "1";
  }

  /** What a product page does with an add-to-cart request. */
  datatype DetailOutcome =
    | NoVariants                              // the product has no active variant: the page renders, the form is ignored
    | NotFound                                // the posted variant is not an active variant of the product
    | OutOfStock                              // "Esta variante no tiene stock."
    | NotEnoughStock(available: nat)          // "Stock insuficiente. Disponible: …"
    | Raised(error: CartServices.CartError)   // `add_to_cart` raised; the view does not catch it
    | Added(item: nat)                        // the line the quantity went to

  /** An active variant of `product`. */
  predicate OffersVariant(variants: map<nat, Variant>, product: nat, v: nat) {
    v in variants && variants[v].product == product && variants[v].isActive
  }

  /**
   * What the end of the POST branch of `product_detail` does to the tables
   * `t`: the requester's cart is found or created, then `add_to_cart` runs on
   * it; the outcome, the new tables and the cart's key.
   */
  ghost function RequesterAddEffect(t: Tables, user: Option<nat>, sessionKey: string, variant: nat, q: int)
    : (DetailOutcome, Tables, nat)
    requires variant in t.variants
  {
    var (t1, c) := CartServices.ResolveCart(t, user, sessionKey);
    var (added, t2) := CartServices.AddEffect(t1, c, variant, q);
    (if added.Ok? then Added(added.value) else Raised(added.error), t2, c)
  }

  /**
   * The meaning of `RequesterAddEffect`: the cart is the requester's first
   * cart (or the new one), the add goes to that cart's line of the variant
   * exactly when the stock covers what that cart already holds plus `q`, and
   * when the add fails only the cart lookup's changes remain.
   */
  lemma RequesterAddEffectMeaning(t: Tables, user: Option<nat>, sessionKey: string, variant: nat, q: int)
    requires variant in t.variants
    requires forall k :: k in t.carts ==> k < t.nextCartId
    ensures var (r, t2, cart) := RequesterAddEffect(t, user, sessionKey, variant, q);
      var (t1, c) := CartServices.ResolveCart(t, user, sessionKey);
      var stock := t.variants[variant].stock;
      var held := CartServices.HeldQty(t1.cartItems, cart, variant);
      && cart == c
      && cart in t2.carts && CartServices.OwnedBy(t2.carts[cart], user, sessionKey)
      && (forall k :: k in t2.carts && k < cart ==> !CartServices.OwnedBy(t2.carts[k], user, sessionKey))
      && (r.Added? || r.Raised?)
      && (r.Added? <==> stock > 0 && held + CartServices.RequestedQty(q) <= stock)
      && (r.Raised? ==> t2 == t1 && r.error == if stock == 0 then CartServices.NoStock else CartServices.InsufficientStock(stock))
      && (r.Added? ==>
            && CartServices.IsLineOf(t2.cartItems, r.item, cart, variant)
            && t2.cartItems[r.item].quantity == held + CartServices.RequestedQty(q)
            && (forall k :: k in t.cartItems && k != r.item ==> k in t2.cartItems && t2.cartItems[k] == t.cartItems[k])
            && t2 == t1.(cartItems := t2.cartItems, nextItemId := t2.nextItemId))
  {
    CartServices.ResolveCartFacts(t, user, sessionKey);
    var (t1, c) := CartServices.ResolveCart(t, user, sessionKey);
    CartServices.AddEffectMeaning(t1, c, variant, q);
  }

  /**
   * On a product page the quantity was already checked against the stock, so
   * `add_to_cart` can only refuse because the cart already holds some of the
   * variant: the quantity in the cart plus the posted one exceeds the stock.
   */
  lemma DetailRaisesOnlyOnHeld(t: Tables, user: Option<nat>, sessionKey: string, variant: nat, q: int)
    requires variant in t.variants
    requires forall k :: k in t.carts ==> k < t.nextCartId
    requires 1 <= q <= t.variants[variant].stock
    ensures var (r, t2, cart) := RequesterAddEffect(t, user, sessionKey, variant, q);
      r.Raised? ==>
        && r.error == CartServices.InsufficientStock(t.variants[variant].stock)
        && CartServices.HeldQty(t2.cartItems, cart, variant) > 0
        && CartServices.HeldQty(t2.cartItems, cart, variant) + q > t.variants[variant].stock
  {
    RequesterAddEffectMeaning(t, user, sessionKey, variant, q);
  }

  /**
   * The POST branch of `product_detail`: parse and clamp the quantity, find
   * the variant, refuse it when it has no stock or less than the quantity,
   * otherwise add to the requester's cart (found or created). The cart service
   * checks the quantity already in the cart; its error reaches the caller.
   * `cart` is meaningful only when the add was attempted.
   */
  method ProductDetailAdd(db: Database, product: nat, variant: nat, rawQty: Option<string>,
                          user: Option<nat>, sessionKey: string)
    returns (r: DetailOutcome, cart: nat)
    requires db.Valid()
    modifies db
    ensures db.Valid()
    ensures var t := old(db.Snapshot());
      var q := DetailQty(rawQty);
      && ((!exists v :: OffersVariant(t.variants, product, v)) ==> r == NoVariants)
      && ((exists v :: OffersVariant(t.variants, product, v)) && !OffersVariant(t.variants, product, variant) ==> r == NotFound)
      && (r == NoVariants || r == NotFound || r.OutOfStock? || r.NotEnoughStock? ==> db.Snapshot() == t)
      && (OffersVariant(t.variants, product, variant) ==>
            var stock := t.variants[variant].stock;
            && (stock == 0 ==> r == OutOfStock)
            && (0 < stock < q ==> r == NotEnoughStock(stock))
            && (0 < stock && q <= stock ==> (r, db.Snapshot(), cart) == RequesterAddEffect(t, user, sessionKey, variant, q)))
  {
    cart := 0;
    if !exists v :: v in db.variants && OffersVariant(db.variants, product, v) {
      return NoVariants, cart;
    }
    var q := DetailQty(rawQty);
    if !OffersVariant(db.variants, product, variant) {
      return NotFound, cart;
    }
    var stock := db.variants[variant].stock;
    if stock <= 0 {
      return OutOfStock, cart;
    }
    if q > stock {
      return NotEnoughStock(stock), cart;
    }
    r, cart := AddToRequesterCart(db, user, sessionKey, variant, q);
  }

  /** The end of the POST branch of `product_detail`: `get_or_create_cart`, then `add_to_cart`. */
  method AddToRequesterCart(db: Database, user: Option<nat>, sessionKey: string, variant: nat, q: int)
    returns (r: DetailOutcome, cart: nat)
    requires db.Valid() && variant in db.variants
    modifies db
    ensures db.Valid()
    ensures (r, db.Snapshot(), cart) == RequesterAddEffect(old(db.Snapshot()), user, sessionKey, variant, q)
  {
    cart := CartServices.GetOrCreateCart(db, user, sessionKey);
    var added := CartServices.AddToCart(db, cart, variant, q);
    match added
    case Ok(item) => r := Added(item);
    case Err(e) => r := Raised(e);
  }
}
