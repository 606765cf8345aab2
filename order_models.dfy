/**
 * The order side of the stock: giving an order's quantities back to the
 * variants when it is cancelled, at most once per order.
 */
module OrderModels {
  import opened Wrappers
  import opened Schema

  /** The quantity the items give back to `v`: items whose variant was deleted give nothing. */
  function QtyFor(items: seq<OrderItem>, v: nat): nat
    decreases |items|
  {
    if items == [] then 0
    else QtyFor(items[..|items| - 1], v) + (if items[|items| - 1].variant == Some(v) then items[|items| - 1].quantity else 0)
  }

  /**
   * The variants after each item's quantity is added to the stock of its
   * variant, in item order; an item without a live variant is skipped, and
   * an update of a key that no longer exists changes nothing.
   */
  function Restocked(variants: map<nat, Variant>, items: seq<OrderItem>): map<nat, Variant>
    decreases |items|
  {
    if items == [] then variants
    else
      var vs := Restocked(variants, items[..|items| - 1]);
      var it := items[|items| - 1];
      if it.variant.Some? && it.variant.value in vs then
        vs[it.variant.value := vs[it.variant.value].(stock := vs[it.variant.value].stock + it.quantity)]
      else vs
  }

  /**
   * Restocking adds to each variant exactly the quantity its items name, and
   * changes nothing else: no variant appears or disappears, and no other field
   * moves.
   */
  lemma {:induction false} RestockedAddsExactly(variants: map<nat, Variant>, items: seq<OrderItem>, v: nat)
    ensures Restocked(variants, items).Keys == variants.Keys
    ensures v in variants ==>
      Restocked(variants, items)[v] == variants[v].(stock := variants[v].stock + QtyFor(items, v))
    decreases |items|
  {
    if items != [] {
      var init := items[..|items| - 1];
      RestockedAddsExactly(variants, init, v);
      var it := items[|items| - 1];
      if it.variant.Some? {
        RestockedAddsExactly(variants, init, it.variant.value);
      }
    }
  }

  /** An order whose items never name `v` leaves it as it was; no stock ever goes down. */
  lemma RestockMonotone(variants: map<nat, Variant>, items: seq<OrderItem>, v: nat)
    requires v in variants
    ensures v in Restocked(variants, items)
    ensures Restocked(variants, items)[v].stock >= variants[v].stock
    ensures (forall i :: 0 <= i < |items| ==> items[i].variant != Some(v)) ==>
      Restocked(variants, items)[v] == variants[v]
  {
    RestockedAddsExactly(variants, items, v);
    if forall i :: 0 <= i < |items| ==> items[i].variant != Some(v) {
      QtyForUnreferenced(items, v);
    }
  }

  lemma {:induction false} QtyForUnreferenced(items: seq<OrderItem>, v: nat)
    requires forall i :: 0 <= i < |items| ==> items[i].variant != Some(v)
    ensures QtyFor(items, v) == 0
    decreases |items|
  {
    if items != [] {
      QtyForUnreferenced(items[..|items| - 1], v);
    }
  }

  /**
   * What `restock_items` does to the tables and to the in-memory order `obj`
   * whose key is `pk`: nothing when `obj` says the stock was already given
   * back; otherwise `obj` is reloaded from the table (dropping its unsaved
   * edits) and, unless the stored row says so too, the items' quantities go
   * back to the variants and the stored flag is set.
   */
  function RestockEffect(t: Tables, pk: nat, obj: Order): (r: (Tables, Order))
    requires pk in t.orders && pk in t.orderItems
    ensures r.0.orders.Keys == t.orders.Keys && r.0.orders[pk].status == t.orders[pk].status
    ensures r.0.variants.Keys == t.variants.Keys
    ensures r.0 == t.(variants := r.0.variants, orders := r.0.orders)
    ensures r.0.variants == t.variants || r.0.variants == Restocked(t.variants, t.orderItems[pk])
    ensures r.0.orders == t.orders || r.0.orders == t.orders[pk := t.orders[pk].(stockReverted := true)]
    ensures !obj.stockReverted ==> r.1 == r.0.orders[pk] && r.1.stockReverted
  {
    RestockedAddsExactly(t.variants, t.orderItems[pk], 0);
    if obj.stockReverted then (t, obj)
    else
      var stored := t.orders[pk];
      if stored.stockReverted then (t, stored)
      else
        var after := stored.(stockReverted := true);
        (t.(variants := Restocked(t.variants, t.orderItems[pk]), orders := t.orders[pk := after]), after)
  }

  /**
   * Restock happens once: after a restock, restocking again with the
   * returned order, or with the order freshly read from the table, changes
   * nothing.
   */
  lemma RestockOnce(t: Tables, pk: nat, obj: Order)
    requires pk in t.orders && pk in t.orderItems
    requires !obj.stockReverted
    ensures var (t1, o1) := RestockEffect(t, pk, obj);
      && RestockEffect(t1, pk, o1) == (t1, o1)
      && RestockEffect(t1, pk, t1.orders[pk]) == (t1, t1.orders[pk])
  {
  }

  /** The first restock of an order gives back exactly its items' quantities. */
  lemma RestockGivesBack(t: Tables, pk: nat, obj: Order, v: nat)
    requires pk in t.orders && pk in t.orderItems && v in t.variants
    requires !obj.stockReverted && !t.orders[pk].stockReverted
    ensures var t1 := RestockEffect(t, pk, obj).0;
      && t1.variants[v] == t.variants[v].(stock := t.variants[v].stock + QtyFor(t.orderItems[pk], v))
      && t1.orders == t.orders[pk := t.orders[pk].(stockReverted := true)]
  {
    RestockedAddsExactly(t.variants, t.orderItems[pk], v);
  }

  /** `Order.restock_items`, run on the in-memory order `obj` with key `pk`; returns `obj` as it is afterwards. */
  method RestockItems(db: Database, pk: nat, obj: Order) returns (after: Order)
    requires db.Valid() && pk in db.orders
    modifies db
    ensures db.Valid()
    ensures (db.Snapshot(), after) == RestockEffect(old(db.Snapshot()), pk, obj)
  {
    if obj.stockReverted {
      return obj;
    }
    // refresh_from_db(): the in-memory order becomes the stored row.
    after := db.orders[pk];
    if after.stockReverted {
      return after;
    }
    var items := db.orderItems[pk];
    ghost var start := db.variants;
    var i := 0;
    while i < |items|
      invariant 0 <= i <= |items|
      invariant db.variants == Restocked(start, items[..i])
      invariant db.Snapshot() == old(db.Snapshot()).(variants := db.variants)
    {
      var it := items[i];
      assert items[..i + 1][..i] == items[..i];
      if it.variant.Some? && it.variant.value in db.variants {
        var v := it.variant.value;
        db.variants := db.variants[v := db.variants[v].(stock := db.variants[v].stock + it.quantity)];
      }
      i := i + 1;
    }
    assert items[..|items|] == items;
    RestockedAddsExactly(start, items, 0);
    after := after.(stockReverted := true);
    db.orders := db.orders[pk := after];
  }
}
