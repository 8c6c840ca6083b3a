/** The persistent records of the backend and the store that holds them.
    Each JPA repository becomes a map from generated id to record; the
    tracking-history table is kept as the sequence of entries in insertion
    order. A Java field that may be null and on which some branch depends is
    an `Option`. Dates are day numbers. */
module Entities {
  import opened Wrappers
  import opened Statuses

  datatype Product = Product(
    id: nat, name: string, description: string, price: real, stock: int, category: string)

  /** A line of an order: the product it names (possibly null) and a quantity. */
  datatype OrderLine = OrderLine(product: Option<nat>, quantity: int)

  datatype Order = Order(
    customer: Option<nat>,
    date: int,
    status: Option<OrderStatus>,
    lines: seq<OrderLine>,
    delivery: Option<nat>,
    payment: Option<nat>)

  datatype Delivery = Delivery(order: Option<nat>, carrier: Option<nat>, status: Option<DeliveryStatus>)

  datatype HistoryEntry = HistoryEntry(
    order: Option<nat>,
    orderStatus: Option<OrderStatus>,
    deliveryStatus: Option<DeliveryStatus>,
    description: string)

  datatype Store = Store(
    products: map<nat, Product>,
    orders: map<nat, Order>,
    deliveries: map<nat, Delivery>,
    history: seq<HistoryEntry>)

  /** No product has negative stock. */
  predicate NonNegativeStock(products: map<nat, Product>)
  {
    forall pid :: pid in products ==> products[pid].stock >= 0
  }

  /** Referential integrity, as the database's foreign keys guarantee it:
      an order's delivery and a delivery's order exist when they are set. */
  ghost predicate LinksResolve(st: Store)
  {
    && (forall o :: o in st.orders && st.orders[o].delivery.Some? ==> st.orders[o].delivery.value in st.deliveries)
    && (forall d :: d in st.deliveries && st.deliveries[d].order.Some? ==> st.deliveries[d].order.value in st.orders)
  }
}
