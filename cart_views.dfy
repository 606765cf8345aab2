/**
 * The decisions the cart pages make: the item count and the checkout flag of
 * the JSON API, the target quantity computed from `qty` or `delta`, and the
 * quantity `cart_add` reads from the form.
 */
module CartViews {
  import opened Wrappers
  import opened Schema
  import Text
  import CartModels
  import CartServices

  /** `_cart_count`: the sum of the line quantities, 0 for an empty cart. */
  function CartCount(lines: seq<CartItem>): nat
    decreases |lines|
  {
    if lines == [] then 0 else CartCount(lines[..|lines| - 1]) + lines[|lines| - 1].quantity
  }

  /** The count of two runs of lines is the sum of their counts. */
  lemma {:induction false} CartCountAppend(a: seq<CartItem>, b: seq<CartItem>)
    ensures CartCount(a + b) == CartCount(a) + CartCount(b)
    decreases |b|
  {
    if b == [] {
      assert a + b == a;
    } else {
      assert (a + b)[..|a + b| - 1] == a + b[..|b| - 1];
      CartCountAppend(a, b[..|b| - 1]);
    }
  }

  /** The count is 0 exactly when every line holds quantity 0, and it bounds every line's quantity. */
  lemma {:induction false} CartCountBounds(lines: seq<CartItem>)
    ensures CartCount(lines) == 0 <==> forall i :: 0 <= i < |lines| ==> lines[i].quantity == 0
    ensures forall i :: 0 <= i < |lines| ==> lines[i].quantity <= CartCount(lines)
    decreases |lines|
  {
    if lines != [] {
      var init := lines[..|lines| - 1];
      CartCountBounds(init);
      assert forall i :: 0 <= i < |init| ==> lines[i] == init[i];
    }
  }

  /** `_can_checkout`: no line of the cart asks for more than its variant's stock. */
  function CanCheckout(lines: seq<CartItem>, variants: map<nat, Variant>): (ok: bool)
    requires CartModels.Priced(lines, variants)
    ensures ok <==> forall i :: 0 <= i < |lines| ==> lines[i].quantity <= variants[lines[i].variant].stock
    decreases |lines|
  {
    if lines == [] then true
    else
      var last := lines[|lines| - 1];
      CanCheckout(lines[..|lines| - 1], variants) && last.quantity <= variants[last.variant].stock
  }

  /**
   * The final quantity `cart_item_api` asks for: with a non-empty `delta`, the
   * current quantity plus `int(delta)`; otherwise `int(qty)`. `None` stands for
   * the `TypeError`/`ValueError` of a missing or malformed number.
   */
  function TargetQty(current: nat, qty: Option<string>, delta: Option<string>): (t: Option<int>)
    ensures delta.Some? && delta.value != "" ==>
      t == (match Text.ParseInt(delta.value) case Some(d) => Some(current + d) case None => None)
    ensures (delta.None? || delta.value == "") && qty.None? ==> t == None
    ensures (delta.None? || delta.value == "") && qty.Some? ==> t == Text.ParseInt(qty.value)
  {
    if delta.Some? && delta.value != "" then
      match Text.ParseInt(delta.value)
      case Some(d) => Some(current + d)
      case None => None
    else if qty.None? then None
    else Text.ParseInt(qty.value)
  }

  /**
   * The buttons send `delta=1` and `delta=-1`; a posted `qty` sets the
   * quantity outright, and a missing one is refused.
   */
  lemma TargetQtyReads(current: nat, n: nat, qty: Option<string>)
    requires |Text.NatToString(n)| <= Text.MaxStrDigits
    ensures TargetQty(current, qty, Some(Text.NatToString(n))) == Some(current + n)
    ensures TargetQty(current, qty, Some("-" + Text.NatToString(n))) == Some(current - n)
    ensures TargetQty(current, Some(Text.NatToString(n)), None) == Some(n)
    ensures TargetQty(current, Some(Text.NatToString(n)), Some("")) == Some(n)
    ensures TargetQty(current, None, None) == None
  {
    Text.ParseNatToString(n);
    assert "-" + Text.NatToString(n) != "";
  }

  /**
   * A delta or a quantity of more digits than `int()` accepts is a malformed
   * number: no target, so `cart_item_api` answers "invalid quantity" and
   * keeps the line.
   */
  lemma TargetQtyRefusesLong(current: nat, qty: Option<string>, digits: string)
    requires |digits| > Text.MaxStrDigits && forall i :: 0 <= i < |digits| ==> Text.IsDigit(digits[i])
    ensures TargetQty(current, qty, Some("-" + digits)) == None
    ensures TargetQty(current, qty, Some(digits)) == None
    ensures TargetQty(current, Some(digits), None) == None
  {
    Text.ParseRefusesLongDigits(digits);
  }

  /** The JSON answers of `cart_item_api`. */
  datatype ApiResponse =
    | NotFound                                   // 404 "Ítem no encontrado."
    | InvalidQty                                 // 400 "Cantidad inválida."
    | StockError(error: CartServices.CartError, stock: nat) // 400 with the message and the current stock
    | Deleted(subtotal: int, count: nat, canCheckout: bool, itemsLeft: nat)
    | Updated(itemQty: nat, itemTotal: int, subtotal: int, count: nat, canCheckout: bool, itemsLeft: nat, stock: nat)

  /** The lines of `cart` in the current table. */
  function LinesOf(t: Tables, cart: nat): seq<CartItem> {
    CartModels.CartLines(t.cartItems, cart, t.nextItemId)
  }

  /**
   * `cart_item_api`: find the line in the requester's cart, compute the target
   * quantity and hand it to `set_qty`; answer with the new line and cart
   * figures, or with the failure.
   */
  method CartItemApi(db: Database, user: Option<nat>, sessionKey: string, itemId: nat,
                     qty: Option<string>, delta: Option<string>)
    returns (resp: ApiResponse, cart: nat)
    requires db.Valid()
    modifies db
    ensures db.Valid()
    ensures var res := CartServices.ResolveCart(old(db.Snapshot()), user, sessionKey);
      var t1 := res.0;
      && cart == res.1
      && (!CartServices.InCart(t1.cartItems, itemId, cart) ==> resp == NotFound && db.Snapshot() == t1)
      && (CartServices.InCart(t1.cartItems, itemId, cart) ==>
            var line := t1.cartItems[itemId];
            var stock := t1.variants[line.variant].stock;
            var lines := LinesOf(db.Snapshot(), cart);
            CartModels.Priced(lines, db.variants) &&
            match TargetQty(line.quantity, qty, delta)
            case None =>
              resp == InvalidQty && db.Snapshot() == t1
            case Some(n) =>
              && (n <= 0 ==>
                    && db.Snapshot() == t1.(cartItems := t1.cartItems - {itemId})
                    && resp == Deleted(CartModels.Subtotal(lines, db.variants), CartCount(lines),
                                       CanCheckout(lines, db.variants), |lines|))
              && (n > stock ==>
                    resp == StockError(CartServices.InsufficientStock(stock), stock) && db.Snapshot() == t1)
              && (0 < n <= stock ==>
                    && db.Snapshot() == t1.(cartItems := t1.cartItems[itemId := line.(quantity := n)])
                    && resp == Updated(n, CartModels.LineTotal(db.variants[line.variant].price, n),
                                       CartModels.Subtotal(lines, db.variants), CartCount(lines),
                                       CanCheckout(lines, db.variants), |lines|, stock)))
  {
    cart := CartServices.GetOrCreateCart(db, user, sessionKey);
    if !CartServices.InCart(db.cartItems, itemId, cart) {
      return NotFound, cart;
    }
    var line := db.cartItems[itemId];
    var target := TargetQty(line.quantity, qty, delta);
    if target.None? {
      return InvalidQty, cart;
    }
    var r := CartServices.SetQty(db, cart, itemId, target.value);
    if r.Err? {
      return StockError(r.error, db.variants[line.variant].stock), cart;
    }
    var lines := CartModels.CartLines(db.cartItems, cart, db.nextItemId);
    CartModels.CartLinesPriced(db.cartItems, db.variants, cart, db.nextItemId);
    var subtotal := CartModels.Subtotal(lines, db.variants);
    var count := CartCount(lines);
    var canCheckout := CanCheckout(lines, db.variants);
    match r.value
    case None =>
      resp := Deleted(subtotal, count, canCheckout, |lines|);
    case Some(k) =>
      var updated := db.cartItems[k];
      var variant := db.variants[updated.variant];
      resp := Updated(updated.quantity, CartModels.LineTotal(variant.price, updated.quantity),
                      subtotal, count, canCheckout, |lines|, variant.stock);
  }

  /** The quantity `cart_add` reads: `int(qty)` with `"1"` when absent, and 1 when it does not parse. */
  function PostedQty(raw: Option<string>): (q: int)
    ensures raw.Some? && Text.ParseInt(raw.value).Some? ==> q == Text.ParseInt(raw.value).value
    ensures raw.Some? && Text.ParseInt(raw.value).None? ==> q == 1
  {
    match Text.ParseInt(if raw.None? then "1" else raw.value)
    case Some(n) => n
    case None => 1
  }

  /**
   * What `add_to_cart` then adds: a posted positive number as it is, and 1 for
   * a missing, malformed, zero or negative one, or one too long for `int()`.
   */
  lemma CartAddQuantity(n: nat, raw: string)
    ensures CartServices.RequestedQty(PostedQty(None)) == 1
    ensures n >= 1 && |Text.NatToString(n)| <= Text.MaxStrDigits ==>
              CartServices.RequestedQty(PostedQty(Some(Text.NatToString(n)))) == n
    ensures |Text.NatToString(n)| > Text.MaxStrDigits ==> CartServices.RequestedQty(PostedQty(Some(Text.NatToString(n)))) == 1
    ensures CartServices.RequestedQty(PostedQty(Some("-" + Text.NatToString(n)))) == 1
    ensures Text.ParseInt(raw).None? ==> CartServices.RequestedQty(PostedQty(Some(raw))) == 1
  {
    if |Text.NatToString(n)| <= Text.MaxStrDigits {
      Text.ParseNatToString(n);
    } else {
      Text.ParseRefusesLongDigits(Text.NatToString(n));
    }
    Text.ParseNatToString(1);
    assert Text.NatToString(1) == "1";
  }

  /** What `cart_add` reports. */
  datatype AddOutcome =
    | VariantNotFound                        // 404: no such active variant of an active product
    | Refused(error: CartServices.CartError) // the service's message is shown; nothing was added
    | AddedTo(item: nat)                     // "Producto agregado al carrito ✅"

  /**
   * `cart_add`: the requester's cart is found or created first, then the
   * variant is looked up, and the posted quantity is added; a refusal from the
   * service becomes a message.
   */
  method CartAdd(db: Database, user: Option<nat>, sessionKey: string, variant: nat, productActive: bool,
                 rawQty: Option<string>)
    returns (r: AddOutcome, cart: nat)
    requires db.Valid()
    modifies db
    ensures db.Valid()
    ensures var (t1, c) := CartServices.ResolveCart(old(db.Snapshot()), user, sessionKey);
      && cart == c
      && (r, db.Snapshot()) == AddPostedEffect(t1, cart, variant, productActive, rawQty)
  {
    cart := CartServices.GetOrCreateCart(db, user, sessionKey);
    r := AddPosted(db, cart, variant, productActive, rawQty);
  }

  /**
   * What `cart_add` does once it has the cart: the tables `t` are unchanged
   * when the variant is not an active variant of an active product, or when
   * `add_to_cart` refuses; otherwise the variant's line holds what it held
   * plus the posted quantity.
   */
  ghost function AddPostedEffect(t: Tables, cart: nat, variant: nat, productActive: bool, rawQty: Option<string>)
    : (AddOutcome, Tables)
  {
    if !(variant in t.variants && t.variants[variant].isActive && productActive) then (VariantNotFound, t)
    else
      var (added, t2) := CartServices.AddEffect(t, cart, variant, PostedQty(rawQty));
      (if added.Ok? then AddedTo(added.value) else Refused(added.error), t2)
  }

  /**
   * What `cart_add` promises once the cart is known: a 404 for an inactive or
   * unknown variant; otherwise the line is added to exactly when the stock
   * covers what the cart already holds plus the posted quantity, the new line
   * holds that sum, no other line changes, and a refusal changes nothing.
   */
  lemma AddPostedEffectMeaning(t: Tables, cart: nat, variant: nat, productActive: bool, rawQty: Option<string>)
    ensures var (r, t2) := AddPostedEffect(t, cart, variant, productActive, rawQty);
      && (r.VariantNotFound? <==> !(variant in t.variants && t.variants[variant].isActive && productActive))
      && (r.VariantNotFound? || r.Refused? ==> t2 == t)
      && (!r.VariantNotFound? ==>
            var q := CartServices.RequestedQty(PostedQty(rawQty));
            var stock := t.variants[variant].stock;
            var held := CartServices.HeldQty(t.cartItems, cart, variant);
            && (r.AddedTo? <==> stock > 0 && held + q <= stock)
            && (r.Refused? ==> r.error == if stock == 0 then CartServices.NoStock else CartServices.InsufficientStock(stock))
            && (r.AddedTo? ==>
                  && CartServices.IsLineOf(t2.cartItems, r.item, cart, variant)
                  && t2.cartItems[r.item].quantity == held + q
                  && (forall k :: k in t.cartItems && k != r.item ==> k in t2.cartItems && t2.cartItems[k] == t.cartItems[k])
                  && t2 == t.(cartItems := t2.cartItems, nextItemId := t2.nextItemId)))
  {
    if variant in t.variants {
      CartServices.AddEffectMeaning(t, cart, variant, PostedQty(rawQty));
    }
  }

  /** The variant lookup, the quantity parsing and `add_to_cart` of `cart_add`. */
  method AddPosted(db: Database, cart: nat, variant: nat, productActive: bool, rawQty: Option<string>)
    returns (r: AddOutcome)
    requires db.Valid() && cart in db.carts
    modifies db
    ensures db.Valid()
    ensures (r, db.Snapshot()) == AddPostedEffect(old(db.Snapshot()), cart, variant, productActive, rawQty)
  {
    if !(variant in db.variants && db.variants[variant].isActive && productActive) {
      return VariantNotFound;
    }
    var q := PostedQty(rawQty);
    var added := CartServices.AddToCart(db, cart, variant, q);
    match added
    case Ok(item) => r := AddedTo(item);
    case Err(e) => r := Refused(e);
  }
}
