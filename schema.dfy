/**
 * The rows of the storefront's tables and the database that holds them.
 *
 * Money fields are two-decimal amounts, held here as integer cents. Every table
 * is a map from primary key to row; a foreign key is the key of the referenced
 * row. The `Database` class is the single mutable store that the services,
 * views and admin actions read and update.
 */
module Schema {
  import opened Wrappers

  /** A `VariantAttribute` row: an extra name/value pair of a variant. */
  datatype Attribute = Attribute(name: string, value: string)

  /** A `Variant` row, with the name of its product (needed for order snapshots). */
  datatype Variant = Variant(
    product: nat,
    productName: string,
    price: int,
    stock: nat,
    isActive: bool,
    attributes: seq<Attribute>)

  /** A `Cart` row: owned by a user (with an empty session key) or by a session. */
  datatype Cart = Cart(user: Option<nat>, sessionKey: string, isActive: bool)

  /** A `CartItem` row: one line of a cart. */
  datatype CartItem = CartItem(cart: nat, variant: nat, quantity: nat)

  /** The six order states; a new order starts as `Pending`. */
  datatype Status = Pending | Confirmed | Preparing | Shipped | Delivered | Cancelled

  const DefaultStatus: Status := Pending

  /** A `ShippingZone` row as the checkout uses it: its key and its delivery cost. */
  datatype Zone = Zone(id: nat, cost: int)

  /** The customer fields an order copies from the checkout form. */
  datatype Customer = Customer(name: string, phone: string, email: string, address: string, notes: string)

  /** An `Order` row (its items live in their own table). */
  datatype Order = Order(
    user: Option<nat>,
    status: Status,
    customer: Customer,
    isPickup: bool,
    zone: Option<nat>,
    shippingCost: int,
    subtotal: int,
    total: int,
    paymentMethod: string,
    paymentInstructions: string,
    stockReverted: bool)

  /**
   * An `OrderItem` row: a snapshot of one cart line taken at checkout. The
   * variant reference is weak: it becomes `None` when the variant is deleted.
   */
  datatype OrderItem = OrderItem(
    variant: Option<nat>,
    productName: string,
    variantDescription: string,
    unitPrice: int,
    quantity: nat,
    lineTotal: int)

  /** The unique constraint on `CartItem`: no two lines of one cart name the same variant. */
  predicate OneLinePerVariant(items: map<nat, CartItem>) {
    forall i, j :: i in items && j in items && i != j ==>
      items[i].cart != items[j].cart || items[i].variant != items[j].variant
  }

  /** The contents of every table and key counter at one moment. */
  datatype Tables = Tables(
    variants: map<nat, Variant>,
    productSlugs: map<nat, string>,
    carts: map<nat, Cart>,
    cartItems: map<nat, CartItem>,
    orders: map<nat, Order>,
    orderItems: map<nat, seq<OrderItem>>,
    nextCartId: nat,
    nextItemId: nat,
    nextOrderId: nat)

  /** Keys below the counters, foreign keys that resolve, and the cart-line unique constraint. */
  predicate Consistent(t: Tables) {
    && (forall k :: k in t.carts ==> k < t.nextCartId)
    && (forall k :: k in t.cartItems ==> k < t.nextItemId)
    && (forall k :: k in t.orders ==> k < t.nextOrderId)
    && t.orderItems.Keys == t.orders.Keys
    && (forall k :: k in t.cartItems ==> t.cartItems[k].cart in t.carts && t.cartItems[k].variant in t.variants)
    && OneLinePerVariant(t.cartItems)
  }

  /**
   * The database. `orderItems` maps an order's key to its items in creation
   * order; the `next…` counters stand for the auto-increment primary keys.
   */
  class Database {
    var variants: map<nat, Variant>
    var productSlugs: map<nat, string>
    var carts: map<nat, Cart>
    var cartItems: map<nat, CartItem>
    var orders: map<nat, Order>
    var orderItems: map<nat, seq<OrderItem>>
    var nextCartId: nat
    var nextItemId: nat
    var nextOrderId: nat

    /** The current contents of the database. */
    function Snapshot(): Tables
      reads this
    {
      Tables(variants, productSlugs, carts, cartItems, orders, orderItems, nextCartId, nextItemId, nextOrderId)
    }

    ghost predicate Valid()
      reads this
    {
      Consistent(Snapshot())
    }
  }
}
