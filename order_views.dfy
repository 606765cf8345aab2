/**
 * The checkout and the order pages: the shipping charge, the payment
 * instructions, the transaction that turns a cart into an order (stock check,
 * stock decrement, item snapshots, emptying the cart) and who may see an order.
 */
module OrderViews {
  import opened Wrappers
  import opened Schema
  import Text
  import CartModels
  import CartServices
  import CatalogModels
  import CartViews
  import OrderModels
  import OrderForms

  /** `_variant_desc`: the variant's attributes as `"name: value"` joined by `", "`, empty without any. */
  function VariantDesc(attrs: seq<Attribute>): (desc: string)
    ensures attrs == [] ==> desc == ""
    ensures |attrs| == 1 ==> desc == attrs[0].name + ": " + attrs[0].value
  {
    if attrs == [] then "" else CatalogModels.AttributesText(attrs)
  }

  /** The early return for an empty list is the join's own answer: the description is the join. */
  lemma VariantDescIsJoin(attrs: seq<Attribute>, a: Attribute)
    ensures VariantDesc(attrs) == CatalogModels.AttributesText(attrs)
    ensures attrs != [] ==> VariantDesc(attrs + [a]) == VariantDesc(attrs) + ", " + a.name + ": " + a.value
  {
    CatalogModels.AttributesTextSnoc(attrs, a);
    if attrs == [] {
      assert CatalogModels.AttributeTexts(attrs) == [];
    }
  }

  // ---------------------------------------------------------------------------
  // Shipping and payment

  /** What an order is charged for delivery. */
  datatype Shipping = Shipping(zone: Option<nat>, cost: int, total: int)

  /**
   * The delivery part of `checkout`: a pickup costs nothing and keeps no zone;
   * a delivery needs a zone and costs what the zone costs. `None` is the
   * "Selecciona una zona de envío." answer.
   */
  function ShippingAndTotal(isPickup: bool, zone: Option<Zone>, subtotal: int): (r: Option<Shipping>)
    ensures r.None? <==> !isPickup && zone.None?
    ensures r.Some? ==> r.value.total == subtotal + r.value.cost
    ensures r.Some? && isPickup ==> r.value.cost == 0 && r.value.zone.None?
    ensures r.Some? && !isPickup ==> r.value.cost == zone.value.cost && r.value.zone == Some(zone.value.id)
  {
    if isPickup then Some(Shipping(None, 0, subtotal))
    else if zone.None? then None
    else Some(Shipping(Some(zone.value.id), zone.value.cost, subtotal + zone.value.cost))
  }

  /** The shipping cost the checkout page shows before the order is placed. */
  function ShippingPreview(deliveryMode: string, zone: Option<Zone>): (cost: int)
    ensures deliveryMode != "delivery" || zone.None? ==> cost == 0
  {
    if deliveryMode == "delivery" && zone.Some? then zone.value.cost else 0
  }

  /** For either delivery choice, the previewed cost is the cost the order is then charged. */
  lemma PreviewIsCharged(deliveryMode: string, zone: Option<Zone>, subtotal: int)
    requires deliveryMode == "pickup" || deliveryMode == "delivery"
    ensures var r := ShippingAndTotal(deliveryMode == "pickup", zone, subtotal);
      r.Some? ==> r.value.cost == ShippingPreview(deliveryMode, zone)
  {
  }

  /**
   * `CheckoutForm.clean` and the view's own zone check agree: for a delivery
   * mode among the form's choices, the form's zone error is raised exactly
   * when the view would find no shipping. So after a valid form the view's
   * check never fires.
   */
  lemma CleanFormHasShipping(deliveryMode: string, zone: Option<Zone>, subtotal: int)
    requires OrderForms.IsDeliveryChoice(deliveryMode)
    ensures OrderForms.ZoneMissing(deliveryMode, zone) <==> ShippingAndTotal(deliveryMode == "pickup", zone, subtotal).None?
  {
  }

  const AgreeText := "Te contactaremos para coordinar el pago y la entrega."
  const CashText := "Pagas al recibir el pedido (aplica en envíos)."
  const PickupNote := " Si eliges retiro en tienda, el pago se coordina en el local."
  const TransferText := "Te enviaremos los datos para transferencia y confirmación del pago."

  /**
   * The payment instructions saved with an order, chosen by the first keyword
   * the lower-cased method contains: "acord", then "contra", then "transfer".
   */
  function PaymentInstructions(paymentMethod: string, isPickup: bool): (text: string)
    ensures var m := Text.Lower(paymentMethod);
      && (Text.Contains(m, "acord") ==> text == AgreeText)
      && (!Text.Contains(m, "acord") && Text.Contains(m, "contra") ==>
            text == if isPickup then CashText + PickupNote else CashText)
      && (!Text.Contains(m, "acord") && !Text.Contains(m, "contra") && Text.Contains(m, "transfer") ==>
            text == TransferText)
      && (text == "" <==> !Text.Contains(m, "acord") && !Text.Contains(m, "contra") && !Text.Contains(m, "transfer"))
  {
    var m := Text.Lower(paymentMethod);
    if Text.Contains(m, "acord") then AgreeText
    else if Text.Contains(m, "contra") then (if isPickup then CashText + PickupNote else CashText)
    else if Text.Contains(m, "transfer") then TransferText
    else ""
  }

  /** The form's "transferencia" asks for a transfer. */
  lemma PaymentByTransfer(m: string, isPickup: bool)
    requires m == "transferencia"
    ensures PaymentInstructions(m, isPickup) == TransferText
  {
    assert Text.Lower(m) == m;
    assert m[0..][..8] == "transfer";
    assert 'o' !in m;
    NotContains(m, "acord", 'o');
    NotContains(m, "contra", 'o');
  }

  /** The form's "contraentrega" is cash on delivery; with a pickup the note about paying in the shop is added. */
  lemma PaymentOnDelivery(m: string)
    requires m == "contraentrega"
    ensures PaymentInstructions(m, false) == CashText
    ensures PaymentInstructions(m, true) == CashText + PickupNote
  {
    assert Text.Lower(m) == m;
    assert m[0..][..6] == "contra";
    NotContains(m, "acord", 'd');
  }

  /**
   * Either payment choice of the checkout form gets non-empty instructions
   * other than the agreement text: the "acord" branch is reached only by the
   * model field's default, never by an order placed through checkout.
   */
  lemma CheckoutNeverAgrees(m: string, isPickup: bool)
    requires OrderForms.IsPaymentChoice(m)
    ensures PaymentInstructions(m, isPickup) != AgreeText && PaymentInstructions(m, isPickup) != ""
  {
    if m == "transferencia" {
      PaymentByTransfer(m, isPickup);
      assert |TransferText| != |AgreeText|;
    } else {
      PaymentOnDelivery(m);
      assert |CashText| != |AgreeText| && |CashText + PickupNote| != |AgreeText|;
    }
  }

  /**
   * The order's model default "Acordar" means agreeing on the payment. The
   * checkout form never sends it (see `CheckoutNeverAgrees`).
   */
  lemma PaymentByAgreement(isPickup: bool)
    ensures PaymentInstructions("Acordar", isPickup) == AgreeText
  {
    var m := Text.Lower("Acordar");
    assert m == "acordar";
    assert m[0..][..5] == "acord";
  }

  /** A text lacking one of the letters of `sub` does not contain `sub`. */
  lemma NotContains(s: string, sub: string, c: char)
    requires c in sub && c !in s
    ensures !Text.Contains(s, sub)
  {
    var k :| 0 <= k < |sub| && sub[k] == c;
    forall i | 0 <= i <= |s| - |sub|
      ensures s[i..][..|sub|] != sub
    {
      assert s[i..][..|sub|][k] == s[i + k] != c;
    }
  }

  // ---------------------------------------------------------------------------
  // Placing the order

  /** Why the checkout transaction was rolled back. */
  datatype CheckoutError =
    | Insufficient(productName: string, available: nat, requested: nat) // "Stock insuficiente para '…'. Disponible: …, solicitado: …."
    | RaceLost(productName: string)                                      // "… (el stock cambió mientras comprabas)."

  /** The order line a cart line becomes: a snapshot of the variant as read at checkout. */
  function ItemOf(v: nat, variant: Variant, quantity: nat): (item: OrderItem)
    ensures item.variant == Some(v) && item.quantity == quantity
    ensures item.lineTotal == item.unitPrice * item.quantity && item.unitPrice == variant.price
  {
    OrderItem(Some(v), variant.productName, VariantDesc(variant.attributes), variant.price, quantity,
              variant.price * quantity)
  }

  /** A line fits when it asks for no more than the stock read at checkout. */
  predicate Fits(snap: map<nat, Variant>, line: CartItem)
    requires line.variant in snap
  {
    line.quantity <= snap[line.variant].stock
  }

  /**
   * One pass of the checkout loop: the line is checked against the stock
   * `snap` read when the lines were fetched, then taken from the current
   * stock `cur` only if that still covers it (the conditional update), and
   * then recorded as an order item.
   */
  function Step(snap: map<nat, Variant>, cur: map<nat, Variant>, items: seq<OrderItem>, line: CartItem)
    : (r: Result<(map<nat, Variant>, seq<OrderItem>), CheckoutError>)
    requires line.variant in snap && line.variant in cur
    ensures r.Ok? ==> r.value.0.Keys == cur.Keys && |r.value.1| == |items| + 1
  {
    var v := line.variant;
    if !Fits(snap, line) then Err(Insufficient(snap[v].productName, snap[v].stock, line.quantity))
    else if cur[v].stock < line.quantity then Err(RaceLost(snap[v].productName))
    else Ok((cur[v := cur[v].(stock := cur[v].stock - line.quantity)], items + [ItemOf(v, snap[v], line.quantity)]))
  }

  /** The checkout loop over the cart lines, in order, starting from the stock `vs`. */
  function Place(snap: map<nat, Variant>, vs: map<nat, Variant>, lines: seq<CartItem>)
    : (r: Result<(map<nat, Variant>, seq<OrderItem>), CheckoutError>)
    requires CartModels.Priced(lines, snap) && CartModels.Priced(lines, vs)
    ensures r.Ok? ==> r.value.0.Keys == vs.Keys && |r.value.1| == |lines|
    decreases |lines|
  {
    if lines == [] then Ok((vs, []))
    else
      match Place(snap, vs, lines[..|lines| - 1])
      case Err(e) => Err(e)
      case Ok((cur, items)) => Step(snap, cur, items, lines[|lines| - 1])
  }

  /** A failure on some first lines is the failure of the whole checkout. */
  lemma {:induction false} PlaceErrSticks(snap: map<nat, Variant>, vs: map<nat, Variant>, lines: seq<CartItem>, k: nat)
    requires CartModels.Priced(lines, snap) && CartModels.Priced(lines, vs)
    requires k <= |lines| && Place(snap, vs, lines[..k]).Err?
    ensures Place(snap, vs, lines) == Place(snap, vs, lines[..k])
    decreases |lines|
  {
    if k == |lines| {
      assert lines[..k] == lines;
    } else {
      var init := lines[..|lines| - 1];
      assert init[..k] == lines[..k];
      PlaceErrSticks(snap, vs, init, k);
    }
  }

  /** The quantity the cart lines ask of variant `v`. */
  function QtyOf(lines: seq<CartItem>, v: nat): nat
    decreases |lines|
  {
    if lines == [] then 0
    else QtyOf(lines[..|lines| - 1], v) + (if lines[|lines| - 1].variant == v then lines[|lines| - 1].quantity else 0)
  }

  lemma {:induction false} QtyOfAbsent(lines: seq<CartItem>, v: nat)
    requires forall i :: 0 <= i < |lines| ==> lines[i].variant != v
    ensures QtyOf(lines, v) == 0
    decreases |lines|
  {
    if lines != [] {
      QtyOfAbsent(lines[..|lines| - 1], v);
    }
  }

  /** No two lines name the same variant (the cart-line unique constraint). */
  predicate DistinctVariants(lines: seq<CartItem>) {
    forall i, j :: 0 <= i < j < |lines| ==> lines[i].variant != lines[j].variant
  }

  /**
   * Checking out a cart whose lines name different variants, starting from the
   * stock it was checked against: it succeeds exactly when every line fits,
   * and then takes from each variant exactly what the lines ask of it and
   * changes nothing else; it fails on the first line that does not fit, naming
   * its product, the stock and the quantity asked for; the stock never changes
   * between the check and the update, so the race is never lost.
   */
  lemma {:induction false} PlaceEffect(snap: map<nat, Variant>, lines: seq<CartItem>, v: nat)
    requires CartModels.Priced(lines, snap) && DistinctVariants(lines)
    ensures var r := Place(snap, snap, lines);
      && (r.Ok? <==> forall i :: 0 <= i < |lines| ==> Fits(snap, lines[i]))
      && (r.Ok? && v in snap ==>
            r.value.0[v] == snap[v].(stock := r.value.0[v].stock) && r.value.0[v].stock + QtyOf(lines, v) == snap[v].stock)
      && (r.Err? ==> exists i :: 0 <= i < |lines| && !Fits(snap, lines[i])
                       && (forall j :: 0 <= j < i ==> Fits(snap, lines[j]))
                       && r.error == Insufficient(snap[lines[i].variant].productName,
                                                  snap[lines[i].variant].stock, lines[i].quantity))
    decreases |lines|
  {
    if lines != [] {
      var init := lines[..|lines| - 1];
      var line := lines[|lines| - 1];
      var w := line.variant;
      assert forall i :: 0 <= i < |init| ==> init[i] == lines[i];
      assert DistinctVariants(init);
      PlaceEffect(snap, init, v);
      PlaceEffect(snap, init, w);
      var r0 := Place(snap, snap, init);
      if r0.Err? {
        var i :| 0 <= i < |init| && !Fits(snap, init[i]) && (forall j :: 0 <= j < i ==> Fits(snap, init[j]))
          && r0.error == Insufficient(snap[init[i].variant].productName, snap[init[i].variant].stock, init[i].quantity);
        assert Place(snap, snap, lines) == r0;
        assert !Fits(snap, lines[i]) && forall j :: 0 <= j < i ==> Fits(snap, lines[j]);
      } else {
        QtyOfAbsent(init, w);
        if !Fits(snap, line) {
          assert Place(snap, snap, lines) == Err(Insufficient(snap[w].productName, snap[w].stock, line.quantity));
          assert forall j :: 0 <= j < |init| ==> Fits(snap, lines[j]);
        }
      }
    }
  }

  /** The stock part of `PlaceEffect` alone. */
  lemma PlaceStock(snap: map<nat, Variant>, lines: seq<CartItem>, v: nat)
    requires CartModels.Priced(lines, snap) && DistinctVariants(lines)
    requires Place(snap, snap, lines).Ok? && v in snap
    ensures var vs := Place(snap, snap, lines).value.0;
      vs[v] == snap[v].(stock := vs[v].stock) && vs[v].stock + QtyOf(lines, v) == snap[v].stock
  {
    PlaceEffect(snap, lines, v);
  }

  /** Checking out the cart this way succeeds exactly when `_can_checkout` says it may. */
  lemma PlaceIffCanCheckout(snap: map<nat, Variant>, lines: seq<CartItem>)
    requires CartModels.Priced(lines, snap) && DistinctVariants(lines)
    ensures Place(snap, snap, lines).Ok? <==> CartViews.CanCheckout(lines, snap)
  {
    PlaceEffect(snap, lines, 0);
  }

  /** The sum of the order lines' totals. */
  function ItemsTotal(items: seq<OrderItem>): int
    decreases |items|
  {
    if items == [] then 0 else ItemsTotal(items[..|items| - 1]) + items[|items| - 1].lineTotal
  }

  /**
   * The order's items copy the cart lines one for one: the variant, its product
   * name, description and price as read at checkout, and the quantity; the
   * line totals add up to the cart subtotal the order records.
   */
  lemma {:induction false} PlaceItems(snap: map<nat, Variant>, vs: map<nat, Variant>, lines: seq<CartItem>)
    requires CartModels.Priced(lines, snap) && CartModels.Priced(lines, vs)
    requires Place(snap, vs, lines).Ok?
    ensures var items := Place(snap, vs, lines).value.1;
      && (forall i :: 0 <= i < |lines| ==> items[i] == ItemOf(lines[i].variant, snap[lines[i].variant], lines[i].quantity))
      && ItemsTotal(items) == CartModels.Subtotal(lines, snap)
    decreases |lines|
  {
    if lines != [] {
      var init := lines[..|lines| - 1];
      PlaceItems(snap, vs, init);
      var items := Place(snap, vs, lines).value.1;
      var items0 := Place(snap, vs, init).value.1;
      assert items[..|items| - 1] == items0;
    }
  }

  /** The quantity the order items give back to `v` is the quantity the cart lines took from it. */
  lemma {:induction false} QtyForItems(snap: map<nat, Variant>, vs: map<nat, Variant>, lines: seq<CartItem>, v: nat)
    requires CartModels.Priced(lines, snap) && CartModels.Priced(lines, vs)
    requires Place(snap, vs, lines).Ok?
    ensures OrderModels.QtyFor(Place(snap, vs, lines).value.1, v) == QtyOf(lines, v)
    decreases |lines|
  {
    if lines != [] {
      var init := lines[..|lines| - 1];
      QtyForItems(snap, vs, init, v);
      var items := Place(snap, vs, lines).value.1;
      assert items[..|items| - 1] == Place(snap, vs, init).value.1;
    }
  }

  /** After checkout and restock, variant `v` holds its old row again. */
  lemma RestoresVariant(snap: map<nat, Variant>, lines: seq<CartItem>, v: nat)
    requires CartModels.Priced(lines, snap) && DistinctVariants(lines)
    requires Place(snap, snap, lines).Ok? && v in snap
    ensures var r := Place(snap, snap, lines).value;
      v in OrderModels.Restocked(r.0, r.1) && OrderModels.Restocked(r.0, r.1)[v] == snap[v]
  {
    var r := Place(snap, snap, lines).value;
    var vs, items := r.0, r.1;
    PlaceStock(snap, lines, v);
    QtyForItems(snap, snap, lines, v);
    OrderModels.RestockedAddsExactly(vs, items, v);
    var x := vs[v];
    assert x == snap[v].(stock := x.stock);
    assert OrderModels.Restocked(vs, items)[v] == x.(stock := snap[v].stock);
  }

  /**
   * Placing an order and then cancelling it gives every variant back exactly
   * the stock it had before the checkout.
   */
  lemma CheckoutThenRestockRestores(snap: map<nat, Variant>, lines: seq<CartItem>)
    requires CartModels.Priced(lines, snap) && DistinctVariants(lines)
    requires Place(snap, snap, lines).Ok?
    ensures var r := Place(snap, snap, lines).value;
      OrderModels.Restocked(r.0, r.1) == snap
  {
    var r := Place(snap, snap, lines).value;
    var back := OrderModels.Restocked(r.0, r.1);
    OrderModels.RestockedAddsExactly(r.0, r.1, 0);
    forall v | v in snap
      ensures back[v] == snap[v]
    {
      RestoresVariant(snap, lines, v);
    }
  }

  // ---------------------------------------------------------------------------
  // The checkout view

  /** The cleaned checkout form. */
  datatype CheckoutData = CheckoutData(
    customer: Customer,
    deliveryMode: string,
    zone: Option<Zone>,
    paymentMethod: string)

  /** Where `checkout` ends. */
  datatype CheckoutOutcome =
    | EmptyCart                    // "Tu carrito está vacío."
    | ZoneMissing                  // "Selecciona una zona de envío."
    | Failed(error: CheckoutError) // the transaction was rolled back
    | Placed(order: nat)           // "Pedido #… creado correctamente."

  /** The new order row as `checkout` creates it. */
  function NewOrder(user: Option<nat>, form: CheckoutData, ship: Shipping, subtotal: int): (o: Order)
    ensures o.status == DefaultStatus && !o.stockReverted
    ensures o.total == o.subtotal + o.shippingCost && o.isPickup == (form.deliveryMode == "pickup")
    requires ship.total == subtotal + ship.cost
  {
    var isPickup := form.deliveryMode == "pickup";
    Order(user, Pending, form.customer, isPickup, ship.zone, ship.cost, subtotal, ship.total,
          form.paymentMethod, PaymentInstructions(form.paymentMethod, isPickup), false)
  }

  /**
   * The loop of the checkout transaction: every line is checked against the
   * stock `snap` read when the loop starts, taken from the current stock and
   * recorded as an order item. The transaction keeps the intermediate stock
   * to itself, so it is held here in `vs` until the caller commits it.
   */
  method PlaceLines(snap: map<nat, Variant>, lines: seq<CartItem>)
    returns (r: Result<(map<nat, Variant>, seq<OrderItem>), CheckoutError>)
    requires CartModels.Priced(lines, snap)
    ensures r == Place(snap, snap, lines)
  {
    var vs := snap;
    var items: seq<OrderItem> := [];
    var i := 0;
    while i < |lines|
      invariant 0 <= i <= |lines|
      invariant Place(snap, snap, lines[..i]) == Ok((vs, items))
    {
      assert lines[..i + 1][..i] == lines[..i];
      var line := lines[i];
      var v := line.variant;
      if line.quantity > snap[v].stock {
        PlaceErrSticks(snap, snap, lines, i + 1);
        return Err(Insufficient(snap[v].productName, snap[v].stock, line.quantity));
      }
      if vs[v].stock < line.quantity {
        PlaceErrSticks(snap, snap, lines, i + 1);
        return Err(RaceLost(snap[v].productName));
      }
      vs := vs[v := vs[v].(stock := vs[v].stock - line.quantity)];
      items := items + [ItemOf(v, snap[v], line.quantity)];
      i := i + 1;
    }
    assert lines[..|lines|] == lines;
    r := Ok((vs, items));
  }

  /** Changing stock (not the set of variants) and one order's items keeps the tables consistent. */
  lemma KeepsConsistent(t: Tables, vs: map<nat, Variant>, id: nat, items: seq<OrderItem>)
    requires Consistent(t) && vs.Keys == t.variants.Keys && id in t.orderItems
    ensures Consistent(t.(variants := vs, orderItems := t.orderItems[id := items]))
  {
  }

  /** The tables after `Order.objects.create`: a new order without items under the next key. */
  function Created(t: Tables, order: Order): (r: Tables)
    ensures r.orders.Keys == t.orders.Keys + {t.nextOrderId}
  {
    t.(orders := t.orders[t.nextOrderId := order], orderItems := t.orderItems[t.nextOrderId := []],
       nextOrderId := t.nextOrderId + 1)
  }

  /** Creating an order keeps the tables consistent. */
  lemma CreatedConsistent(t: Tables, order: Order)
    requires Consistent(t)
    ensures Consistent(Created(t, order))
  {
  }

  /**
   * The tables after a successful checkout transaction: the order `order`
   * under the next key with `items`, the stock `vs`, and the cart emptied.
   */
  function Committed(t: Tables, cart: nat, order: Order, vs: map<nat, Variant>, items: seq<OrderItem>): (r: Tables)
    ensures r.orders.Keys == t.orders.Keys + {t.nextOrderId} && r.orders[t.nextOrderId] == order
    ensures r.orderItems.Keys == t.orderItems.Keys + {t.nextOrderId} && r.orderItems[t.nextOrderId] == items
  {
    t.(variants := vs,
       cartItems := CartServices.WithoutCart(t.cartItems, cart),
       orders := t.orders[t.nextOrderId := order],
       orderItems := t.orderItems[t.nextOrderId := items],
       nextOrderId := t.nextOrderId + 1)
  }

  /**
   * The `transaction.atomic()` block of `checkout`: create the order `order`,
   * place the cart's lines and empty the cart; on the first failure, undo
   * everything.
   */
  method PlaceOrder(db: Database, cart: nat, lines: seq<CartItem>, order: Order) returns (r: Result<nat, CheckoutError>)
    requires db.Valid() && CartModels.Priced(lines, db.variants)
    modifies db
    ensures db.Valid()
    ensures var p := Place(old(db.variants), old(db.variants), lines);
      && (p.Err? ==> r == Err(p.error) && db.Snapshot() == old(db.Snapshot()))
      && (p.Ok? ==>
            && r == Ok(old(db.nextOrderId))
            && db.Snapshot() == Committed(old(db.Snapshot()), cart, order, p.value.0, p.value.1))
  {
    ghost var start := db.Snapshot();
    var savedOrders, savedItems, savedNext := db.orders, db.orderItems, db.nextOrderId;
    var id := CreateOrder(db, order);
    var placed := PlaceLines(db.variants, lines);
    if placed.Err? {
      db.orders, db.orderItems, db.nextOrderId := savedOrders, savedItems, savedNext;
      assert db.Snapshot() == start;
      return Err(placed.error);
    }
    Commit(db, id, placed.value.0, placed.value.1, cart);
    r := Ok(id);
  }

  /** `Order.objects.create`: the new order, without items yet, under the next key. */
  method CreateOrder(db: Database, order: Order) returns (id: nat)
    requires db.Valid()
    modifies db
    ensures db.Valid()
    ensures id == old(db.nextOrderId) && db.Snapshot() == Created(old(db.Snapshot()), order)
  {
    id := db.nextOrderId;
    db.orders := db.orders[id := order];
    db.orderItems := db.orderItems[id := []];
    db.nextOrderId := id + 1;
    CreatedConsistent(old(db.Snapshot()), order);
  }

  /** The end of the transaction: the new stock and the order's items are kept, and the cart is emptied. */
  method Commit(db: Database, id: nat, vs: map<nat, Variant>, items: seq<OrderItem>, cart: nat)
    requires db.Valid() && id in db.orderItems && vs.Keys == db.variants.Keys
    modifies db
    ensures db.Valid()
    ensures db.Snapshot() == old(db.Snapshot()).(variants := vs, orderItems := old(db.orderItems)[id := items],
                                                 cartItems := CartServices.WithoutCart(old(db.cartItems), cart))
  {
    KeepsConsistent(db.Snapshot(), vs, id, items);
    db.variants := vs;
    db.orderItems := db.orderItems[id := items];
    CartServices.ClearCart(db, cart);
  }

  /**
   * `checkout` on a valid POST: find the requester's cart; refuse an empty one
   * and a delivery without a zone; otherwise place the order in one
   * transaction. A form that passed `CheckoutForm.clean` always has a zone for
   * a delivery, so the `ZoneMissing` branch is the view's own second guard and
   * is not reached after a valid form (`CleanFormHasShipping`); it is kept
   * because the view has it.
   */
  method Checkout(db: Database, user: Option<nat>, sessionKey: string, form: CheckoutData)
    returns (r: CheckoutOutcome, cart: nat)
    requires db.Valid()
    modifies db
    ensures db.Valid()
    ensures cart in db.carts && CartServices.OwnedBy(db.carts[cart], user, sessionKey)
    ensures var (t1, c) := CartServices.ResolveCart(old(db.Snapshot()), user, sessionKey);
      var lines := CartModels.CartLines(t1.cartItems, cart, t1.nextItemId);
      && cart == c
      && CartModels.Priced(lines, t1.variants) && DistinctVariants(lines)
      && (lines == [] ==> r == EmptyCart)
      && (OrderForms.IsDeliveryChoice(form.deliveryMode) && !OrderForms.ZoneMissing(form.deliveryMode, form.zone) ==> !r.ZoneMissing?)
      && (r.EmptyCart? || r.ZoneMissing? || r.Failed? ==> db.Snapshot() == t1)
      && (lines != [] ==>
            var isPickup := form.deliveryMode == "pickup";
            var subtotal := CartModels.Subtotal(lines, t1.variants);
            match ShippingAndTotal(isPickup, form.zone, subtotal)
            case None => r == ZoneMissing
            case Some(ship) =>
              match Place(t1.variants, t1.variants, lines)
              case Err(e) => r == Failed(e)
              case Ok((vs, items)) =>
                && r == Placed(t1.nextOrderId)
                && db.Snapshot() == Committed(t1, cart, NewOrder(user, form, ship, subtotal), vs, items))
  {
    cart := CartServices.GetOrCreateCart(db, user, sessionKey);
    CartServices.ResolveCartFacts(old(db.Snapshot()), user, sessionKey);
    var lines := CartModels.CartLines(db.cartItems, cart, db.nextItemId);
    CartModels.CartLinesPriced(db.cartItems, db.variants, cart, db.nextItemId);
    CartModels.CartLinesDistinct(db.cartItems, cart, db.nextItemId);
    if lines == [] {
      return EmptyCart, cart;
    }
    var isPickup := form.deliveryMode == "pickup";
    var subtotal := CartModels.Subtotal(lines, db.variants);
    var shipping := ShippingAndTotal(isPickup, form.zone, subtotal);
    if shipping.None? {
      return ZoneMissing, cart;
    }
    var placed := PlaceOrder(db, cart, lines, NewOrder(user, form, shipping.value, subtotal));
    match placed
    case Err(e) => r := Failed(e);
    case Ok(id) => r := Placed(id);
  }

  // ---------------------------------------------------------------------------
  // The order pages

  /**
   * The order `checkout` stores and then redirects to is shown to whoever
   * placed it. When that was a signed-in user, every other requester is
   * refused; an order placed without signing in is shown to anyone.
   */
  lemma PlacedOrderVisibility(t: Tables, cart: nat, user: Option<nat>, form: CheckoutData, ship: Shipping,
                              subtotal: int, vs: map<nat, Variant>, items: seq<OrderItem>, requester: Option<nat>)
    requires ship.total == subtotal + ship.cost
    ensures var o := Committed(t, cart, NewOrder(user, form, ship, subtotal), vs, items).orders[t.nextOrderId];
      && o.user == user
      && CanView(o.user, user)
      && (user.Some? ==> (CanView(o.user, requester) <==> requester == user))
      && (user.None? ==> CanView(o.user, requester))
  {
  }

  /**
   * `success` and `receipt`: an order placed by a signed-in user is shown only
   * to that user; an order placed without signing in is shown to anyone with
   * its number.
   */
  function CanView(orderUser: Option<nat>, requester: Option<nat>): (ok: bool)
    ensures orderUser.None? ==> ok
    ensures orderUser.Some? ==> (ok <==> requester == orderUser)
  {
    orderUser.None? || (requester.Some? && requester.value == orderUser.value)
  }
}
