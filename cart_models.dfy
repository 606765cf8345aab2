/**
 * The cart's derived values: a line's unit price and total, the list of a
 * cart's lines, and the cart subtotal.
 */
module CartModels {
  import opened Schema

  /** `CartItem.total`: unit price (the variant's current price) times quantity. */
  function LineTotal(price: int, quantity: nat): int {
    price * quantity
  }

  /**
   * The keys of the items of `cart` below `n`, in key order: what
   * `cart.items.all()` yields when every key is below `n`.
   */
  function LineIds(items: map<nat, CartItem>, cart: nat, n: nat): (ids: seq<nat>)
    ensures forall i :: 0 <= i < |ids| ==> ids[i] < n && ids[i] in items && items[ids[i]].cart == cart
    ensures forall i, j :: 0 <= i < j < |ids| ==> ids[i] < ids[j]
    ensures forall k: nat :: k < n && k in items && items[k].cart == cart ==> k in ids
  {
    if n == 0 then []
    else LineIds(items, cart, n - 1) + (if n - 1 in items && items[n - 1].cart == cart then [n - 1] else [])
  }

  /** The rows behind a list of item keys. */
  function Rows(items: map<nat, CartItem>, ids: seq<nat>): (lines: seq<CartItem>)
    requires forall i :: 0 <= i < |ids| ==> ids[i] in items
    ensures |lines| == |ids| && forall i :: 0 <= i < |ids| ==> lines[i] == items[ids[i]]
  {
    seq(|ids|, i requires 0 <= i < |ids| => items[ids[i]])
  }

  /** The lines of `cart`, in key order. */
  function CartLines(items: map<nat, CartItem>, cart: nat, n: nat): seq<CartItem> {
    Rows(items, LineIds(items, cart, n))
  }

  /** Every line names a variant that exists, so its price can be read. */
  predicate Priced(lines: seq<CartItem>, variants: map<nat, Variant>) {
    forall i :: 0 <= i < |lines| ==> lines[i].variant in variants
  }

  /** `Cart.subtotal`: the sum of the line totals (0 for an empty cart). */
  function Subtotal(lines: seq<CartItem>, variants: map<nat, Variant>): int
    requires Priced(lines, variants)
  {
    if lines == [] then 0
    else
      var last := lines[|lines| - 1];
      Subtotal(lines[..|lines| - 1], variants) + LineTotal(variants[last.variant].price, last.quantity)
  }

  /** The subtotal of two runs of lines is the sum of their subtotals. */
  lemma {:induction false} SubtotalAppend(a: seq<CartItem>, b: seq<CartItem>, variants: map<nat, Variant>)
    requires Priced(a, variants) && Priced(b, variants)
    ensures Priced(a + b, variants)
    ensures Subtotal(a + b, variants) == Subtotal(a, variants) + Subtotal(b, variants)
    decreases |b|
  {
    if b == [] {
      assert a + b == a;
    } else {
      assert (a + b)[..|a + b| - 1] == a + b[..|b| - 1];
      SubtotalAppend(a, b[..|b| - 1], variants);
    }
  }

  /** With prices that are not negative, the subtotal is not negative. */
  lemma {:induction false} SubtotalNonNegative(lines: seq<CartItem>, variants: map<nat, Variant>)
    requires Priced(lines, variants)
    requires forall v :: v in variants ==> variants[v].price >= 0
    ensures Subtotal(lines, variants) >= 0
  {
    if lines != [] {
      SubtotalNonNegative(lines[..|lines| - 1], variants);
    }
  }

  /**
   * Under the cart-line unique constraint, the lines of one cart name pairwise
   * different variants; all of them belong to that cart.
   */
  lemma CartLinesDistinct(items: map<nat, CartItem>, cart: nat, n: nat)
    requires OneLinePerVariant(items)
    ensures var lines := CartLines(items, cart, n);
      && (forall i :: 0 <= i < |lines| ==> lines[i].cart == cart)
      && (forall i, j :: 0 <= i < j < |lines| ==> lines[i].variant != lines[j].variant)
  {
    var ids := LineIds(items, cart, n);
    var lines := CartLines(items, cart, n);
    forall i, j | 0 <= i < j < |lines|
      ensures lines[i].variant != lines[j].variant
    {
      assert ids[i] != ids[j];
    }
  }

  /** When every line of the table names an existing variant, so does every line of a cart. */
  lemma CartLinesPriced(items: map<nat, CartItem>, variants: map<nat, Variant>, cart: nat, n: nat)
    requires forall k :: k in items ==> items[k].variant in variants
    ensures Priced(CartLines(items, cart, n), variants)
  {
  }
}
