/**
 * The cart services: find or create the requester's cart, add to a line, set a
 * line's quantity, remove a line and empty a cart. Each service is one atomic
 * transaction: when it fails, the database is exactly as it was before.
 */
module CartServices {
  import opened Wrappers
  import opened Schema
  import CartModels

  /** The failures the cart services raise. */
  datatype CartError =
    | NoStock                          // the variant has no stock at all
    | InsufficientStock(available: nat) // the wanted quantity exceeds the stock
    | ItemNotFound                     // no line with that key in that cart

  /**
   * The lookup key of a request's cart: an authenticated user owns the cart
   * stored with their user and an empty session key; an anonymous visitor owns
   * the cart stored with no user and their session key.
   */
  predicate OwnedBy(c: Cart, user: Option<nat>, sessionKey: string) {
    c.isActive && c.user == user && c.sessionKey == (if user.Some? then "" else sessionKey)
  }

  /** The row a new cart for the requester gets. */
  function NewCart(user: Option<nat>, sessionKey: string): (c: Cart)
    ensures OwnedBy(c, user, sessionKey)
  {
    Cart(user, if user.Some? then "" else sessionKey, true)
  }

  /** The lowest key in `[i, n)` of an active cart owned by the requester (`.first()`). */
  function FirstCart(carts: map<nat, Cart>, user: Option<nat>, sessionKey: string, i: nat, n: nat): (r: Option<nat>)
    ensures r.Some? ==> i <= r.value < n && r.value in carts && OwnedBy(carts[r.value], user, sessionKey)
    ensures r.Some? ==> forall k :: i <= k < r.value && k in carts ==> !OwnedBy(carts[k], user, sessionKey)
    ensures r.None? ==> forall k :: i <= k < n && k in carts ==> !OwnedBy(carts[k], user, sessionKey)
    decreases n - i
  {
    if i >= n then None
    else if i in carts && OwnedBy(carts[i], user, sessionKey) then Some(i)
    else FirstCart(carts, user, sessionKey, i + 1, n)
  }

  /**
   * Once a cart has been created for a requester who had none, the lookup
   * finds it: a second `get_or_create_cart` returns the same cart.
   */
  lemma CreatedCartIsFound(carts: map<nat, Cart>, user: Option<nat>, sessionKey: string, n: nat)
    requires forall k :: k in carts ==> k < n
    requires FirstCart(carts, user, sessionKey, 0, n).None?
    ensures FirstCart(carts[n := NewCart(user, sessionKey)], user, sessionKey, 0, n + 1) == Some(n)
  {
    var carts' := carts[n := NewCart(user, sessionKey)];
    var r := FirstCart(carts', user, sessionKey, 0, n + 1);
    assert forall k :: 0 <= k < n && k in carts' ==> !OwnedBy(carts'[k], user, sessionKey);
    assert n in carts' && OwnedBy(carts'[n], user, sessionKey);
  }

  /**
   * The tables after `get_or_create_cart`, and the key of the cart it returns:
   * the requester's first active cart, when there is one, with nothing
   * changed; otherwise a new cart under the next key.
   */
  function ResolveCart(t: Tables, user: Option<nat>, sessionKey: string): (Tables, nat) {
    match FirstCart(t.carts, user, sessionKey, 0, t.nextCartId)
    case Some(k) => (t, k)
    case None =>
      (t.(carts := t.carts[t.nextCartId := NewCart(user, sessionKey)], nextCartId := t.nextCartId + 1), t.nextCartId)
  }

  /**
   * The cart found or created is the requester's, and no cart with a lower
   * key is; only the cart table and its counter can change, and at most by
   * one new cart under the next key; the carts that were there stay as they
   * were.
   */
  lemma ResolveCartFacts(t: Tables, user: Option<nat>, sessionKey: string)
    requires forall k :: k in t.carts ==> k < t.nextCartId
    ensures var (t1, c) := ResolveCart(t, user, sessionKey);
      && c in t1.carts && OwnedBy(t1.carts[c], user, sessionKey)
      && (forall k :: k in t1.carts && k < c ==> !OwnedBy(t1.carts[k], user, sessionKey))
      && t1 == t.(carts := t1.carts, nextCartId := t1.nextCartId)
      && (forall k :: k in t.carts ==> k in t1.carts && t1.carts[k] == t.carts[k])
      && (|| t1 == t
          || (c == t.nextCartId && t1.nextCartId == c + 1 && t1.carts == t.carts[c := NewCart(user, sessionKey)]))
  {
  }

  /** A second `get_or_create_cart` returns the same cart and changes nothing. */
  lemma ResolveCartStable(t: Tables, user: Option<nat>, sessionKey: string)
    requires forall k :: k in t.carts ==> k < t.nextCartId
    ensures var (t1, c) := ResolveCart(t, user, sessionKey);
      ResolveCart(t1, user, sessionKey) == (t1, c)
  {
    if FirstCart(t.carts, user, sessionKey, 0, t.nextCartId).None? {
      CreatedCartIsFound(t.carts, user, sessionKey, t.nextCartId);
    }
  }

  /**
   * `get_or_create_cart`: the requester's first active cart, created when there
   * is none. The session key is the one the request already carries (creating a
   * session is left to the caller).
   */
  method GetOrCreateCart(db: Database, user: Option<nat>, sessionKey: string) returns (id: nat)
    requires db.Valid()
    modifies db
    ensures db.Valid()
    ensures (db.Snapshot(), id) == ResolveCart(old(db.Snapshot()), user, sessionKey)
  {
    var found := FirstCart(db.carts, user, sessionKey, 0, db.nextCartId);
    if found.Some? {
      id := found.value;
    } else {
      id := db.nextCartId;
      db.carts := db.carts[id := NewCart(user, sessionKey)];
      db.nextCartId := id + 1;
    }
  }

  /** `int(qty or 1)`, then anything below 1 becomes 1. */
  function RequestedQty(qty: int): (q: int)
    ensures q >= 1
    ensures qty >= 1 ==> q == qty
    ensures qty < 1 ==> q == 1
  {
    if qty == 0 then 1 else if qty < 1 then 1 else qty
  }

  /** Whether `k` is the line of `variant` in `cart`. */
  predicate IsLineOf(items: map<nat, CartItem>, k: nat, cart: nat, variant: nat) {
    k in items && items[k].cart == cart && items[k].variant == variant
  }

  /** The key of the line of `variant` in `cart`, if there is one (unique by the constraint). */
  ghost function FindLine(items: map<nat, CartItem>, cart: nat, variant: nat): (r: Option<nat>)
    ensures r.Some? ==> IsLineOf(items, r.value, cart, variant)
    ensures r.None? ==> forall k :: !IsLineOf(items, k, cart, variant)
  {
    if exists k :: IsLineOf(items, k, cart, variant) then
      var k :| IsLineOf(items, k, cart, variant); Some(k)
    else None
  }

  lemma FindLineUnique(items: map<nat, CartItem>, k: nat, cart: nat, variant: nat)
    requires OneLinePerVariant(items) && IsLineOf(items, k, cart, variant)
    ensures FindLine(items, cart, variant) == Some(k)
  {
  }

  /** The quantity already in the cart for `variant` (0 when there is no line). */
  ghost function HeldQty(items: map<nat, CartItem>, cart: nat, variant: nat): nat {
    match FindLine(items, cart, variant)
    case Some(k) => items[k].quantity
    case None => 0
  }

  /** The key of the line `add_to_cart` writes: the variant's line in the cart, else the next key. */
  ghost function LineKey(t: Tables, cart: nat, variant: nat): nat {
    match FindLine(t.cartItems, cart, variant)
    case Some(k) => k
    case None => t.nextItemId
  }

  /**
   * The tables after the variant's line of the cart is set to `n`: the line
   * is created under the next key when there is none.
   */
  ghost function WithLine(t: Tables, cart: nat, variant: nat, n: nat): Tables {
    t.(cartItems := t.cartItems[LineKey(t, cart, variant) := CartItem(cart, variant, n)],
       nextItemId := if FindLine(t.cartItems, cart, variant).Some? then t.nextItemId else t.nextItemId + 1)
  }

  /**
   * Setting the line writes the variant's line of the cart with quantity `n`
   * and changes no other line and no other table; a new line takes the next
   * key.
   */
  lemma WithLineFacts(t: Tables, cart: nat, variant: nat, n: nat)
    ensures var r := WithLine(t, cart, variant, n);
      && IsLineOf(r.cartItems, LineKey(t, cart, variant), cart, variant)
      && r.cartItems[LineKey(t, cart, variant)].quantity == n
      && r.cartItems.Keys == t.cartItems.Keys + {LineKey(t, cart, variant)}
      && (forall k :: k in t.cartItems && k != LineKey(t, cart, variant) ==> r.cartItems[k] == t.cartItems[k])
      && (FindLine(t.cartItems, cart, variant).None? ==> LineKey(t, cart, variant) == t.nextItemId)
      && r == t.(cartItems := r.cartItems, nextItemId := r.nextItemId)
  {
  }

  /**
   * Storing the line of `variant` in `cart` under `key` keeps the tables
   * consistent when `key` is that line's key or a fresh one and no other line
   * of the cart names the variant.
   */
  lemma PutLineConsistent(t: Tables, key: nat, cart: nat, variant: nat, n: nat, next: nat)
    requires Consistent(t) && cart in t.carts && variant in t.variants
    requires next >= t.nextItemId && key < next
    requires forall k :: k != key ==> !IsLineOf(t.cartItems, k, cart, variant)
    ensures Consistent(t.(cartItems := t.cartItems[key := CartItem(cart, variant, n)], nextItemId := next))
  {
    var items := t.cartItems[key := CartItem(cart, variant, n)];
    forall i, j | i in items && j in items && i != j
      ensures items[i].cart != items[j].cart || items[i].variant != items[j].variant
    {
      if i != key && j != key {
        assert items[i] == t.cartItems[i] && items[j] == t.cartItems[j];
      } else if i == key {
        assert !IsLineOf(t.cartItems, j, cart, variant);
      } else {
        assert !IsLineOf(t.cartItems, i, cart, variant);
      }
    }
  }

  /**
   * What `add_to_cart` does to the tables `t`, and what it returns: refused,
   * with nothing changed, when the variant has no stock or when the quantity
   * already in the cart plus the requested one would exceed the stock;
   * otherwise the variant's line of the cart (created when there is none)
   * holds that sum.
   */
  ghost function AddEffect(t: Tables, cart: nat, variant: nat, qty: int): (Result<nat, CartError>, Tables)
    requires variant in t.variants
  {
    var q := RequestedQty(qty);
    var stock := t.variants[variant].stock;
    var held := HeldQty(t.cartItems, cart, variant);
    if stock > 0 && held + q <= stock then (Ok(LineKey(t, cart, variant)), WithLine(t, cart, variant, held + q))
    else (Err(if stock == 0 then NoStock else InsufficientStock(stock)), t)
  }

  /**
   * The meaning of `AddEffect`: the add succeeds exactly when the stock
   * covers the cart's quantity plus the requested one; a refusal says which
   * check failed and changes nothing; a success leaves the sum on the
   * variant's line of this cart, keeps every other line, and touches no other
   * table.
   */
  lemma AddEffectMeaning(t: Tables, cart: nat, variant: nat, qty: int)
    requires variant in t.variants
    ensures var (r, t2) := AddEffect(t, cart, variant, qty);
      var q := RequestedQty(qty);
      var stock := t.variants[variant].stock;
      var held := HeldQty(t.cartItems, cart, variant);
      && (r.Ok? <==> stock > 0 && held + q <= stock)
      && (r.Err? ==> t2 == t)
      && (r.Err? ==> r.error == if stock == 0 then NoStock else InsufficientStock(stock))
      && (r.Ok? ==>
            && IsLineOf(t2.cartItems, r.value, cart, variant)
            && t2.cartItems[r.value].quantity == held + q
            && (FindLine(t.cartItems, cart, variant).None? ==> r.value == t.nextItemId)
            && (forall k :: k in t.cartItems && k != r.value ==> k in t2.cartItems && t2.cartItems[k] == t.cartItems[k])
            && t2 == t.(cartItems := t2.cartItems, nextItemId := t2.nextItemId))
  {
    WithLineFacts(t, cart, variant, HeldQty(t.cartItems, cart, variant) + RequestedQty(qty));
  }

  /**
   * `add_to_cart`: adds the requested quantity to the variant's line of the
   * cart, creating the line when there is none; refused when the variant has
   * no stock, or when the new line quantity would exceed the stock (then the
   * line created on the way is discarded with the rest of the transaction).
   */
  method AddToCart(db: Database, cart: nat, variant: nat, qty: int) returns (r: Result<nat, CartError>)
    requires db.Valid() && cart in db.carts && variant in db.variants
    modifies db
    ensures db.Valid()
    ensures (r, db.Snapshot()) == AddEffect(old(db.Snapshot()), cart, variant, qty)
  {
    ghost var start := db.Snapshot();
    var q := RequestedQty(qty);
    var stock := db.variants[variant].stock;
    if stock <= 0 {
      return Err(NoStock);
    }
    // The transaction's starting point, restored when it aborts.
    var savedItems, savedNext := db.cartItems, db.nextItemId;
    var key := GetOrCreateLine(db, cart, variant);
    var newQty := db.cartItems[key].quantity + q;
    if newQty > stock {
      db.cartItems, db.nextItemId := savedItems, savedNext;
      assert db.Snapshot() == start;
      return Err(InsufficientStock(stock));
    }
    ghost var held := HeldQty(start.cartItems, cart, variant);
    ghost var mid := db.Snapshot();
    WithLineFacts(start, cart, variant, held);
    assert newQty == held + q;
    db.cartItems := db.cartItems[key := CartItem(cart, variant, newQty)];
    assert db.Snapshot() == mid.(cartItems := mid.cartItems[key := CartItem(cart, variant, newQty)]);
    WithLineTwice(start, cart, variant, held, newQty);
    PutLineConsistent(start, key, cart, variant, newQty, db.nextItemId);
    r := Ok(key);
  }

  /**
   * `CartItem.objects.get_or_create(cart=cart, variant=variant, defaults={"quantity": 0})`:
   * the variant's line of the cart, created empty under the next key when
   * there is none.
   */
  method GetOrCreateLine(db: Database, cart: nat, variant: nat) returns (key: nat)
    requires db.Valid() && cart in db.carts && variant in db.variants
    modifies db
    ensures db.Valid()
    ensures key == LineKey(old(db.Snapshot()), cart, variant)
    ensures db.Snapshot() == WithLine(old(db.Snapshot()), cart, variant, HeldQty(old(db.Snapshot()).cartItems, cart, variant))
  {
    ghost var start := db.Snapshot();
    if k :| k in db.cartItems && IsLineOf(db.cartItems, k, cart, variant) {
      FindLineUnique(db.cartItems, k, cart, variant);
      key := k;
      assert db.cartItems == start.cartItems[key := CartItem(cart, variant, db.cartItems[k].quantity)];
    } else {
      key := db.nextItemId;
      db.cartItems := db.cartItems[key := CartItem(cart, variant, 0)];
      db.nextItemId := db.nextItemId + 1;
    }
    PutLineConsistent(start, key, cart, variant, HeldQty(start.cartItems, cart, variant), db.nextItemId);
  }

  /** Setting the line again after creating it is setting it once. */
  lemma WithLineTwice(t: Tables, cart: nat, variant: nat, a: nat, b: nat)
    ensures var t1 := WithLine(t, cart, variant, a);
      t1.(cartItems := t1.cartItems[LineKey(t, cart, variant) := CartItem(cart, variant, b)]) == WithLine(t, cart, variant, b)
  {
  }

  /** Whether `itemId` is a line of `cart` (`CartItem.objects.get(pk=item_id, cart=cart)`). */
  predicate InCart(items: map<nat, CartItem>, itemId: nat, cart: nat) {
    itemId in items && items[itemId].cart == cart
  }

  /**
   * `set_qty`: sets the final quantity of one line of the cart. A quantity of
   * 0 or less deletes the line and yields `None`; a quantity above the
   * variant's stock is refused; otherwise the line (and no other) gets exactly
   * that quantity.
   */
  method SetQty(db: Database, cart: nat, itemId: nat, qty: int) returns (r: Result<Option<nat>, CartError>)
    requires db.Valid()
    modifies db
    ensures db.Valid()
    ensures !InCart(old(db.cartItems), itemId, cart) ==>
      r == Err(ItemNotFound) && db.Snapshot() == old(db.Snapshot())
    ensures InCart(old(db.cartItems), itemId, cart) ==>
      var line := old(db.cartItems)[itemId];
      var stock := old(db.variants)[line.variant].stock;
      && (qty <= 0 ==>
            r == Ok(None) && db.Snapshot() == old(db.Snapshot()).(cartItems := old(db.cartItems) - {itemId}))
      && (qty > stock ==>
            r == Err(InsufficientStock(stock)) && db.Snapshot() == old(db.Snapshot()))
      && (0 < qty <= stock ==>
            && r == Ok(Some(itemId))
            && db.Snapshot() == old(db.Snapshot()).(cartItems := old(db.cartItems)[itemId := line.(quantity := qty)]))
  {
    if !InCart(db.cartItems, itemId, cart) {
      return Err(ItemNotFound);
    }
    var line := db.cartItems[itemId];
    if qty <= 0 {
      db.cartItems := db.cartItems - {itemId};
      return Ok(None);
    }
    var stock := db.variants[line.variant].stock;
    if qty > stock {
      return Err(InsufficientStock(stock));
    }
    db.cartItems := db.cartItems[itemId := line.(quantity := qty)];
    r := Ok(Some(itemId));
  }

  /** `remove_item`: deletes the line with that key in that cart; nothing happens when there is none. */
  method RemoveItem(db: Database, cart: nat, itemId: nat)
    requires db.Valid()
    modifies db
    ensures db.Valid()
    ensures InCart(old(db.cartItems), itemId, cart) ==>
      db.Snapshot() == old(db.Snapshot()).(cartItems := old(db.cartItems) - {itemId})
    ensures !InCart(old(db.cartItems), itemId, cart) ==> db.Snapshot() == old(db.Snapshot())
  {
    if InCart(db.cartItems, itemId, cart) {
      db.cartItems := db.cartItems - {itemId};
    }
  }

  /** The item table without the lines of `cart`. */
  function WithoutCart(items: map<nat, CartItem>, cart: nat): (r: map<nat, CartItem>)
    ensures forall k :: k in r <==> k in items && items[k].cart != cart
    ensures forall k :: k in r ==> r[k] == items[k]
  {
    map k | k in items && items[k].cart != cart :: items[k]
  }

  /** After emptying, the cart has no lines; other carts keep theirs. */
  lemma ClearedCartIsEmpty(items: map<nat, CartItem>, cart: nat, other: nat, n: nat)
    requires other != cart
    ensures CartModels.CartLines(WithoutCart(items, cart), cart, n) == []
    ensures CartModels.CartLines(WithoutCart(items, cart), other, n) == CartModels.CartLines(items, other, n)
  {
    var r := WithoutCart(items, cart);
    NoLines(r, cart, n);
    LineIdsAgree(items, r, other, n);
  }

  /** A table without lines of `cart` lists none for it. */
  lemma {:induction false} NoLines(items: map<nat, CartItem>, cart: nat, n: nat)
    requires forall k :: k in items ==> items[k].cart != cart
    ensures CartModels.LineIds(items, cart, n) == []
  {
    if n > 0 {
      NoLines(items, cart, n - 1);
    }
  }

  /** Two item tables that agree on which keys are lines of `cart` list the same keys for it. */
  lemma {:induction false} SameLineIds(a: map<nat, CartItem>, b: map<nat, CartItem>, cart: nat, n: nat)
    requires forall k :: (k in a && a[k].cart == cart) <==> (k in b && b[k].cart == cart)
    ensures CartModels.LineIds(a, cart, n) == CartModels.LineIds(b, cart, n)
  {
    if n == 0 {
      assert CartModels.LineIds(a, cart, n) == [];
      assert CartModels.LineIds(b, cart, n) == [];
    } else {
      var k := n - 1;
      SameLineIds(a, b, cart, k);
      var ia, ib := CartModels.LineIds(a, cart, k), CartModels.LineIds(b, cart, k);
      if k in a && a[k].cart == cart {
        assert k in b && b[k].cart == cart;
        assert CartModels.LineIds(a, cart, n) == ia + [k];
        assert CartModels.LineIds(b, cart, n) == ib + [k];
      } else {
        assert !(k in b && b[k].cart == cart);
        assert CartModels.LineIds(a, cart, n) == ia + [];
        assert CartModels.LineIds(b, cart, n) == ib + [];
      }
    }
  }

  /** Two item tables that agree on the lines of `cart` list the same lines for it. */
  lemma LineIdsAgree(a: map<nat, CartItem>, b: map<nat, CartItem>, cart: nat, n: nat)
    requires forall k :: (k in a && a[k].cart == cart) <==> (k in b && b[k].cart == cart)
    requires forall k :: k in a && a[k].cart == cart ==> b[k] == a[k]
    ensures CartModels.LineIds(a, cart, n) == CartModels.LineIds(b, cart, n)
    ensures CartModels.CartLines(a, cart, n) == CartModels.CartLines(b, cart, n)
  {
    SameLineIds(a, b, cart, n);
    var ids := CartModels.LineIds(a, cart, n);
    var ra, rb := CartModels.Rows(a, ids), CartModels.Rows(b, ids);
    assert forall i :: 0 <= i < |ids| ==> ra[i] == rb[i];
  }

  /** `clear_cart`: deletes every line of the cart and nothing else. */
  method ClearCart(db: Database, cart: nat)
    requires db.Valid()
    modifies db
    ensures db.Valid()
    ensures db.Snapshot() == old(db.Snapshot()).(cartItems := WithoutCart(old(db.cartItems), cart))
  {
    db.cartItems := WithoutCart(db.cartItems, cart);
  }
}
