/** InventoryService: the stock views over the product table, the direct
    stock update, and the per-day stock movement of one product computed
    from the orders. The product table's listing order (what `findAll`
    returns) is given as a sequence. */
module Inventory {
  import opened Wrappers
  import opened Statuses
  import opened Entities
  import opened Seqs

  /** `getProductsWithLowStock`: the products whose stock is strictly below
      `threshold`, in listing order. */
  function LowStock(products: seq<Product>, threshold: int): (r: seq<Product>)
    ensures IsSubsequence(r, products)
    ensures forall p :: p in r <==> p in products && p.stock < threshold
    ensures forall p :: multiset(r)[p] == if p.stock < threshold then multiset(products)[p] else 0
  {
    Filter(products, (p: Product) => p.stock < threshold)
  }

  /** `getOutOfStockProducts`: the products whose stock is zero or less. */
  function OutOfStock(products: seq<Product>): (r: seq<Product>)
    ensures IsSubsequence(r, products)
    ensures forall p :: p in r <==> p in products && p.stock <= 0
    ensures forall p :: multiset(r)[p] == if p.stock <= 0 then multiset(products)[p] else 0
  {
    Filter(products, (p: Product) => p.stock <= 0)
  }

  /** With a threshold of at least one, an out-of-stock product is also a
      low-stock product, as often as it is listed. */
  lemma {:induction false} OutOfStockWithinLowStock(products: seq<Product>, threshold: int)
    requires threshold >= 1
    ensures multiset(OutOfStock(products)) <= multiset(LowStock(products, threshold))
  {
    var out := multiset(OutOfStock(products));
    var low := multiset(LowStock(products, threshold));
    forall p ensures out[p] <= low[p] {
      assert out[p] == if p.stock <= 0 then multiset(products)[p] else 0;
      assert low[p] == if p.stock < threshold then multiset(products)[p] else 0;
    }
  }

  /** `updateProductStock`: a negative stock is refused before the product is
      looked up; otherwise the product's stock is set and nothing else changes. */
  function UpdateProductStock(st: Store, productId: nat, newStock: int): (r: Result<Store>)
    ensures newStock < 0 ==> r == Err("Stock cannot be negative")
    ensures newStock >= 0 && productId !in st.products ==> r == Err("Product not found")
    ensures r.Ok? <==> newStock >= 0 && productId in st.products
    ensures r.Ok? ==>
      && r.value.products.Keys == st.products.Keys
      && r.value.products[productId] == st.products[productId].(stock := newStock)
      && (forall pid :: pid in st.products && pid != productId ==> r.value.products[pid] == st.products[pid])
      && r.value.orders == st.orders && r.value.deliveries == st.deliveries && r.value.history == st.history
    ensures r.Ok? && NonNegativeStock(st.products) ==> NonNegativeStock(r.value.products)
  {
    if newStock < 0 then Err("Stock cannot be negative")
    else if productId !in st.products then Err("Product not found")
    else Ok(st.(products := st.products[productId := st.products[productId].(stock := newStock)]))
  }

  // ----- Movement: the reference definition -----

  /** The stock effect of one line on `pid`: an order takes its quantity
      away, a CANCELLED order gives it back. */
  function LineEffect(order: Order, line: OrderLine, pid: nat): int
  {
    if line.product != Some(pid) then 0
    else if order.status == Some(OrderStatus.Cancelled) then line.quantity
    else -line.quantity
  }

  /** The stock effect of a whole order on `pid`. */
  function OrderEffect(order: Order, lines: seq<OrderLine>, pid: nat): int
  {
    if |lines| == 0 then 0 else LineEffect(order, lines[0], pid) + OrderEffect(order, lines[1..], pid)
  }

  ghost predicate Names(order: Order, pid: nat)
  {
    exists i :: 0 <= i < |order.lines| && order.lines[i].product == Some(pid)
  }

  /** Sum of the effects on `pid` of the orders dated `day`. */
  function DayEffect(orders: seq<Order>, pid: nat, day: int): int
  {
    if |orders| == 0 then 0
    else (if orders[0].date == day then OrderEffect(orders[0], orders[0].lines, pid) else 0)
         + DayEffect(orders[1..], pid, day)
  }

  /** The days on which some order names `pid`. */
  ghost function ActiveDays(orders: seq<Order>, pid: nat): set<int>
  {
    if |orders| == 0 then {}
    else (if Names(orders[0], pid) then {orders[0].date} else {}) + ActiveDays(orders[1..], pid)
  }

  predicate InRange(order: Order, startDate: int, endDate: int)
  {
    startDate <= order.date <= endDate
  }

  // ----- Movement: the computation as the service performs it -----

  function GetOrZero(m: map<int, int>, day: int): int
  {
    if day in m then m[day] else 0
  }

  /** The inner loop over one order's lines. */
  function AddLines(m: map<int, int>, order: Order, lines: seq<OrderLine>, pid: nat): (r: map<int, int>)
    ensures m.Keys <= r.Keys
    ensures forall day :: day != order.date ==> GetOrZero(r, day) == GetOrZero(m, day)
    decreases |lines|
  {
    if |lines| == 0 then m
    else
      var m' := if lines[0].product == Some(pid) then m[order.date := GetOrZero(m, order.date) + LineEffect(order, lines[0], pid)]
                else m;
      AddLines(m', order, lines[1..], pid)
  }

  /** The outer loop over the orders. */
  function AddOrders(m: map<int, int>, orders: seq<Order>, pid: nat): (r: map<int, int>)
    ensures m.Keys <= r.Keys
    ensures forall day :: (forall k :: 0 <= k < |orders| ==> orders[k].date != day) ==> GetOrZero(r, day) == GetOrZero(m, day)
    decreases |orders|
  {
    if |orders| == 0 then m else AddOrders(AddLines(m, orders[0], orders[0].lines, pid), orders[1..], pid)
  }

  /** The null dereferences of the loop: a line without a product, or a
      line for `pid` in an order without a status. */
  predicate Dereferences(orders: seq<Order>, pid: nat)
  {
    exists k, i :: 0 <= k < |orders| && 0 <= i < |orders[k].lines| &&
      (orders[k].lines[i].product.None? || (orders[k].lines[i].product == Some(pid) && orders[k].status.None?))
  }

  lemma {:induction false} AddLinesSpec(m: map<int, int>, order: Order, lines: seq<OrderLine>, pid: nat)
    ensures var r := AddLines(m, order, lines, pid);
      && r.Keys == m.Keys + (if exists i :: 0 <= i < |lines| && lines[i].product == Some(pid) then {order.date} else {})
      && forall day :: GetOrZero(r, day) == GetOrZero(m, day) + (if day == order.date then OrderEffect(order, lines, pid) else 0)
    decreases |lines|
  {
    if |lines| > 0 {
      var m' := if lines[0].product == Some(pid) then m[order.date := GetOrZero(m, order.date) + LineEffect(order, lines[0], pid)]
                else m;
      AddLinesSpec(m', order, lines[1..], pid);
      assert forall i :: 1 <= i < |lines| ==> lines[i] == lines[1..][i - 1];
      if lines[0].product != Some(pid) {
        assert (exists i :: 0 <= i < |lines| && lines[i].product == Some(pid))
           <==> (exists i :: 0 <= i < |lines[1..]| && lines[1..][i].product == Some(pid));
      }
    }
  }

  lemma {:induction false} AddOrdersSpec(m: map<int, int>, orders: seq<Order>, pid: nat)
    ensures var r := AddOrders(m, orders, pid);
      && r.Keys == m.Keys + ActiveDays(orders, pid)
      && forall day :: GetOrZero(r, day) == GetOrZero(m, day) + DayEffect(orders, pid, day)
    decreases |orders|
  {
    if |orders| > 0 {
      AddLinesSpec(m, orders[0], orders[0].lines, pid);
      AddOrdersSpec(AddLines(m, orders[0], orders[0].lines, pid), orders[1..], pid);
    }
  }

  /** `getProductMovement`: for an existing product, the stock movement per
      day over the orders dated within [startDate, endDate], both ends
      included. A day appears exactly when some such order names the
      product, and its value is the sum of the effects of those orders. */
  function ProductMovement(products: map<nat, Product>, orders: seq<Order>, productId: nat,
                           startDate: int, endDate: int): (r: Result<map<int, int>>)
    ensures productId !in products ==> r == Err("Product not found")
    ensures productId in products ==>
      (r.Ok? <==> !Dereferences(Filter(orders, (o: Order) => InRange(o, startDate, endDate)), productId))
    ensures r.Ok? ==>
      var selected := Filter(orders, (o: Order) => InRange(o, startDate, endDate));
      && r.value.Keys == ActiveDays(selected, productId)
      && forall day :: day in r.value ==> r.value[day] == DayEffect(selected, productId, day)
  {
    if productId !in products then Err("Product not found")
    else
      var selected := Filter(orders, (o: Order) => InRange(o, startDate, endDate));
      if Dereferences(selected, productId) then Err("NullPointerException")
      else
        AddOrdersSpec(map[], selected, productId);
        Ok(AddOrders(map[], selected, productId))
  }

  /** Only orders dated within the range count: an order dated one day past
      the end contributes nothing, one dated on the end day does. */
  lemma MovementRangeIsInclusive()
    ensures
      var oil := Product(1, "Olive Oil", "", 25.99, 10, "Grocery");
      var onEnd := Order(Some(4), 20, Some(OrderStatus.Pending), [OrderLine(Some(1), 2)], None, None);
      var after := Order(Some(4), 21, Some(OrderStatus.Cancelled), [OrderLine(Some(1), 5)], None, None);
      ProductMovement(map[1 := oil], [onEnd, after], 1, 10, 20) == Ok(map[20 := -2])
  {
    var onEnd := Order(Some(4), 20, Some(OrderStatus.Pending), [OrderLine(Some(1), 2)], None, None);
    var after := Order(Some(4), 21, Some(OrderStatus.Cancelled), [OrderLine(Some(1), 5)], None, None);
    var selected := Filter([onEnd, after], (o: Order) => InRange(o, 10, 20));
    assert selected == [onEnd];
    MovementOfOneLine(onEnd);
  }

  lemma {:induction false} MovementOfOneLine(o: Order)
    requires o.lines == [OrderLine(Some(1), 2)] && o.status == Some(OrderStatus.Pending)
    ensures !Dereferences([o], 1)
    ensures AddOrders(map[], [o], 1) == map[o.date := -2]
  {
    var empty: map<int, int> := map[];
    assert o.lines[1..] == [];
    assert [o][1..] == [];
    assert GetOrZero(empty, o.date) == 0;
    assert LineEffect(o, o.lines[0], 1) == -2;
    assert AddLines(empty, o, o.lines, 1) == AddLines(map[o.date := -2], o, [], 1);
    assert AddOrders(empty, [o], 1) == AddOrders(map[o.date := -2], [], 1);
  }
}
