/**
 * The order admin: the status colour of the list, the bulk status actions,
 * the cancel action that gives stock back, and the save hook of the change
 * form.
 */
module OrderAdmin {
  import opened Wrappers
  import opened Schema
  import OrderModels

  /** The colour table of `status_colored`; `Confirmed` has no entry. */
  const StatusColors: map<Status, string> :=
    map[Pending := "orange", Preparing := "blue", Shipped := "purple", Delivered := "green", Cancelled := "red"]

  /** `status_colored`: the table's colour, `"black"` for any status without one. */
  function StatusColor(s: Status): string {
    if s in StatusColors then StatusColors[s] else "black"
  }

  /** Only `Confirmed` is shown in black, and no two statuses share a colour. */
  lemma StatusColorsDistinct(a: Status, b: Status)
    ensures StatusColor(a) == "black" <==> a == Confirmed
    ensures a != b ==> StatusColor(a) != StatusColor(b)
  {
  }

  /** The order table after `queryset.update(status=s)` on the orders `ids`. */
  function WithStatus(orders: map<nat, Order>, ids: set<nat>, s: Status): (r: map<nat, Order>)
    ensures r.Keys == orders.Keys
    ensures forall k :: k in orders && k in ids ==> r[k] == orders[k].(status := s)
    ensures forall k :: k in orders && k !in ids ==> r[k] == orders[k]
  {
    map k | k in orders :: if k in ids then orders[k].(status := s) else orders[k]
  }

  /**
   * `mark_preparing`, `mark_shipped` and `mark_delivered`: one bulk update of
   * the status of every selected order, whatever its status was; the stock
   * and the stock flag are not touched.
   */
  method MarkStatus(db: Database, ids: set<nat>, s: Status)
    requires db.Valid()
    modifies db
    ensures db.Valid()
    ensures db.Snapshot() == old(db.Snapshot()).(orders := WithStatus(old(db.orders), ids, s))
  {
    db.orders := WithStatus(db.orders, ids, s);
  }

  /** The orders tables agree on their keys (what `CancelOne` and `CancelAll` need). */
  predicate Keyed(t: Tables) {
    t.orderItems.Keys == t.orders.Keys
  }

  /**
   * One step of `mark_cancelled`: an order that is not cancelled yet has its
   * status saved as cancelled and is then restocked; a cancelled one is left
   * alone.
   */
  function CancelOne(t: Tables, pk: nat): (r: Tables)
    requires Keyed(t) && pk in t.orders
    ensures Keyed(r) && r.orders.Keys == t.orders.Keys && r.variants.Keys == t.variants.Keys
    ensures r == t.(variants := r.variants, orders := r.orders)
    ensures r.orders == t.orders[pk := r.orders[pk]]
    ensures r.orders[pk].status == Cancelled
    ensures t.orders[pk].status == Cancelled ==> r == t
    ensures t.orders[pk].status != Cancelled ==>
      && r.orders[pk] == t.orders[pk].(status := Cancelled, stockReverted := true)
      && r.variants == (if t.orders[pk].stockReverted then t.variants
                        else OrderModels.Restocked(t.variants, t.orderItems[pk]))
  {
    var o := t.orders[pk];
    if o.status == Cancelled then t
    else
      var o1 := o.(status := Cancelled);
      OrderModels.RestockEffect(t.(orders := t.orders[pk := o1]), pk, o1).0
  }

  /** `mark_cancelled` over the selected orders, in the order the queryset yields them. */
  function CancelAll(t: Tables, ids: seq<nat>): (r: Tables)
    requires Keyed(t) && forall i :: 0 <= i < |ids| ==> ids[i] in t.orders
    ensures Keyed(r) && r.orders.Keys == t.orders.Keys && r.variants.Keys == t.variants.Keys
    ensures r == t.(variants := r.variants, orders := r.orders)
    decreases |ids|
  {
    if ids == [] then t
    else CancelOne(CancelAll(t, ids[..|ids| - 1]), ids[|ids| - 1])
  }

  /**
   * After `mark_cancelled` every selected order is cancelled, and an order
   * that was not selected, or was cancelled already, is exactly as it was.
   */
  lemma {:induction false} CancelAllEffect(t: Tables, ids: seq<nat>, k: nat)
    requires Keyed(t) && forall i :: 0 <= i < |ids| ==> ids[i] in t.orders
    ensures k in ids ==> CancelAll(t, ids).orders[k].status == Cancelled
    ensures k in t.orders && k !in ids ==> CancelAll(t, ids).orders[k] == t.orders[k]
    ensures k in t.orders && t.orders[k].status == Cancelled ==> CancelAll(t, ids).orders[k] == t.orders[k]
    decreases |ids|
  {
    if ids != [] {
      var init := ids[..|ids| - 1];
      CancelAllEffect(t, init, k);
      assert forall i :: 0 <= i < |init| ==> init[i] == ids[i];
      assert k in ids ==> k in init || k == ids[|ids| - 1];
    }
  }

  predicate NoDuplicates(ids: seq<nat>) {
    forall i, j :: 0 <= i < j < |ids| ==> ids[i] != ids[j]
  }

  /**
   * The loop of `mark_cancelled` one order further: the next order is still
   * the row the queryset read, since no order is selected twice.
   */
  lemma CancelAllNext(t: Tables, ids: seq<nat>, i: nat)
    requires Keyed(t) && NoDuplicates(ids) && i < |ids| && forall j :: 0 <= j < |ids| ==> ids[j] in t.orders
    ensures CancelAll(t, ids[..i + 1]) == CancelOne(CancelAll(t, ids[..i]), ids[i])
    ensures CancelAll(t, ids[..i]).orders[ids[i]] == t.orders[ids[i]]
  {
    assert ids[..i + 1][..i] == ids[..i];
    assert ids[i] !in ids[..i];
    CancelAllEffect(t, ids[..i], ids[i]);
  }

  /**
   * One pass of the loop of `mark_cancelled` on the order `pk` as the
   * queryset read it (`order`, which is still the stored row).
   */
  method CancelStep(db: Database, pk: nat, order: Order)
    requires db.Valid() && pk in db.orders && db.orders[pk] == order
    modifies db
    ensures db.Valid()
    ensures db.Snapshot() == CancelOne(old(db.Snapshot()), pk)
  {
    if order.status != Cancelled {
      var cancelled := order.(status := Cancelled);
      db.orders := db.orders[pk := cancelled];
      var _ := OrderModels.RestockItems(db, pk, cancelled);
    }
  }

  /**
   * `mark_cancelled`: in one transaction, every selected order that is not
   * cancelled gets status cancelled (saved) and is restocked. The orders are
   * read once, when the queryset is first iterated.
   */
  method MarkCancelled(db: Database, ids: seq<nat>)
    requires db.Valid() && NoDuplicates(ids) && forall i :: 0 <= i < |ids| ==> ids[i] in db.orders
    modifies db
    ensures db.Valid()
    ensures db.Snapshot() == CancelAll(old(db.Snapshot()), ids)
  {
    var rows := db.orders;
    ghost var start := db.Snapshot();
    var i := 0;
    while i < |ids|
      invariant 0 <= i <= |ids|
      invariant db.Valid()
      invariant db.Snapshot() == CancelAll(start, ids[..i])
    {
      CancelAllNext(start, ids, i);
      CancelStep(db, ids[i], rows[ids[i]]);
      i := i + 1;
    }
    assert ids[..|ids|] == ids;
  }

  /**
   * Cancel, move to another status, cancel again: the stock comes back once.
   * The second cancel finds the stock flag still set.
   */
  lemma CancelMoveCancelRestocksOnce(t: Tables, pk: nat, s: Status)
    requires Keyed(t) && pk in t.orders
    requires t.orders[pk].status != Cancelled && !t.orders[pk].stockReverted && s != Cancelled
    ensures var t1 := CancelOne(t, pk);
      var t2 := t1.(orders := WithStatus(t1.orders, {pk}, s));
      var t3 := CancelOne(t2, pk);
      && t3.variants == t1.variants == OrderModels.Restocked(t.variants, t.orderItems[pk])
      && t3.orders[pk].status == Cancelled && t3.orders[pk].stockReverted
  {
  }

  // ---------------------------------------------------------------------------
  // The save hook of the change form

  /**
   * `save_model` for a change of the stored order `pk` into `obj` (the form's
   * edited copy), as written: the restock runs before the save, and its
   * reload replaces `obj` with the stored row, which the save then writes.
   */
  function SaveModelEffect(t: Tables, pk: nat, obj: Order): (r: Tables)
    requires Keyed(t) && pk in t.orders
    ensures Keyed(r) && r.orders.Keys == t.orders.Keys
    ensures r == t.(variants := r.variants, orders := r.orders)
    ensures r.orders == t.orders[pk := r.orders[pk]]
  {
    var stored := t.orders[pk];
    if stored.status != Cancelled && obj.status == Cancelled then
      var (t1, o1) := OrderModels.RestockEffect(t, pk, obj);
      t1.(orders := t1.orders[pk := o1])
    else t.(orders := t.orders[pk := obj])
  }

  /**
   * The save hook loses the cancellation: cancelling an order in the form
   * gives its stock back and sets the stock flag, but the stored status stays
   * what it was, and every other edit of the form is dropped as well.
   */
  lemma SaveModelLosesCancel(t: Tables, pk: nat, obj: Order)
    requires Keyed(t) && pk in t.orders
    requires t.orders[pk].status != Cancelled && !t.orders[pk].stockReverted
    requires obj.status == Cancelled && !obj.stockReverted
    ensures var r := SaveModelEffect(t, pk, obj);
      && r.orders[pk] == t.orders[pk].(stockReverted := true)
      && r.orders[pk].status != Cancelled
      && r.variants == OrderModels.Restocked(t.variants, t.orderItems[pk])
  {
  }

  /** `OrderAdmin.save_model` on a change, as written. */
  method SaveModel(db: Database, pk: nat, obj: Order)
    requires db.Valid() && pk in db.orders
    modifies db
    ensures db.Valid()
    ensures db.Snapshot() == SaveModelEffect(old(db.Snapshot()), pk, obj)
  {
    var edited := obj;
    var stored := db.orders[pk];
    if stored.status != Cancelled && edited.status == Cancelled {
      edited := OrderModels.RestockItems(db, pk, edited);
    }
    // super().save_model(): every field of the in-memory order is written.
    db.orders := db.orders[pk := edited];
  }

  /** The save hook with the save first and the restock after it. */
  function SaveModelFixedEffect(t: Tables, pk: nat, obj: Order): (r: Tables)
    requires Keyed(t) && pk in t.orders
    ensures Keyed(r) && r.orders.Keys == t.orders.Keys
    ensures r == t.(variants := r.variants, orders := r.orders)
  {
    var stored := t.orders[pk];
    var saved := t.(orders := t.orders[pk := obj]);
    if stored.status != Cancelled && obj.status == Cancelled then OrderModels.RestockEffect(saved, pk, obj).0
    else saved
  }

  /**
   * With the save first, cancelling in the form keeps the cancellation and
   * every other edit, and the stock comes back once; any other change is
   * saved as edited and leaves the stock alone.
   */
  lemma SaveModelFixedCancels(t: Tables, pk: nat, obj: Order)
    requires Keyed(t) && pk in t.orders
    ensures var r := SaveModelFixedEffect(t, pk, obj);
      && r.orders[pk].status == obj.status
      && (t.orders[pk].status != Cancelled && obj.status == Cancelled && !obj.stockReverted ==>
            && r.orders == t.orders[pk := obj.(stockReverted := true)]
            && r.variants == OrderModels.Restocked(t.variants, t.orderItems[pk]))
      && (!(t.orders[pk].status != Cancelled && obj.status == Cancelled) ==>
            r == t.(orders := t.orders[pk := obj]))
  {
  }

  /** `OrderAdmin.save_model` on a change, with `super().save_model` moved before the restock. */
  method SaveModelFixed(db: Database, pk: nat, obj: Order)
    requires db.Valid() && pk in db.orders
    modifies db
    ensures db.Valid()
    ensures db.Snapshot() == SaveModelFixedEffect(old(db.Snapshot()), pk, obj)
  {
    var stored := db.orders[pk];
    db.orders := db.orders[pk := obj];
    if stored.status != Cancelled && obj.status == Cancelled {
      var _ := OrderModels.RestockItems(db, pk, obj);
    }
  }
}
