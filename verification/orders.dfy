/** Stock accounting of OrderService: validating an order, consuming and
    restoring stock line by line, and the create / update / cancel
    operations built from them. Every operation is transactional: an `Err`
    means the exception rolled everything back. */
module Orders {
  import opened Wrappers
  import opened Statuses
  import opened Entities

  type Catalog = map<nat, Product>

  /** Total quantity the lines order of product `pid`. */
  function Ordered(lines: seq<OrderLine>, pid: nat): int
  {
    if |lines| == 0 then 0
    else (if lines[0].product == Some(pid) then lines[0].quantity else 0) + Ordered(lines[1..], pid)
  }

  /** Total quantity given back for `pid` by a restore: only lines naming a
      product with a positive quantity count. */
  function Restorable(lines: seq<OrderLine>, pid: nat): (r: int)
    ensures r >= 0
  {
    if |lines| == 0 then 0
    else (if lines[0].product == Some(pid) && lines[0].quantity > 0 then lines[0].quantity else 0)
         + Restorable(lines[1..], pid)
  }

  predicate PositiveQuantities(lines: seq<OrderLine>)
  {
    forall i :: 0 <= i < |lines| ==> lines[i].quantity > 0
  }

  lemma {:induction false} OrderedOfPositive(lines: seq<OrderLine>, pid: nat)
    ensures PositiveQuantities(lines) ==> 0 <= Ordered(lines, pid) == Restorable(lines, pid)
  {
    if |lines| > 0 {
      OrderedOfPositive(lines[1..], pid);
      assert PositiveQuantities(lines) ==> PositiveQuantities(lines[1..]) by {
        assert forall i :: 1 <= i < |lines| ==> lines[i] == lines[1..][i - 1];
      }
    }
  }

  /** A product a line does not name keeps its count at zero. */
  lemma {:induction false} OrderedOfUnnamed(lines: seq<OrderLine>, pid: nat)
    requires forall i :: 0 <= i < |lines| ==> lines[i].product != Some(pid)
    ensures Ordered(lines, pid) == 0 && Restorable(lines, pid) == 0
  {
    if |lines| > 0 {
      OrderedOfUnnamed(lines[1..], pid);
    }
  }

  /** What `validateOrder` accepts of a single line: it names a product
      that exists, with a positive quantity the product's current stock covers. */
  predicate LineAvailable(products: Catalog, line: OrderLine)
  {
    && line.product.Some?
    && line.quantity > 0
    && line.product.value in products
    && line.quantity <= products[line.product.value].stock
  }

  /** The per-line checks of `validateOrder`, reporting the first failure. */
  function ValidateLines(products: Catalog, lines: seq<OrderLine>): (r: Outcome)
    ensures r.Pass? <==> forall i :: 0 <= i < |lines| ==> LineAvailable(products, lines[i])
    ensures r.Fail? ==> r.error in {"Product is required for each order line", "Quantity must be greater than 0",
                                    "Product not found"}
                        || (exists pid :: pid in products && r.error == "Insufficient stock for product: " + products[pid].name)
  {
    if |lines| == 0 then Pass
    else
      var line := lines[0];
      if line.product.None? then Fail("Product is required for each order line")
      else if line.quantity <= 0 then Fail("Quantity must be greater than 0")
      else if line.product.value !in products then Fail("Product not found")
      else if products[line.product.value].stock < line.quantity then
        Fail("Insufficient stock for product: " + products[line.product.value].name)
      else
        var rest := ValidateLines(products, lines[1..]);
        assert forall i :: 1 <= i < |lines| ==> lines[i] == lines[1..][i - 1];
        rest
  }

  /** `validateOrder`: a customer, at least one line, and every line
      available on its own. Availability is checked line by line against the
      current stock, not against the running total of the order. */
  function ValidateOrder(products: Catalog, order: Order): (r: Outcome)
    ensures order.customer.None? ==> r == Fail("Customer is required")
    ensures order.customer.Some? && |order.lines| == 0 ==> r == Fail("Order must have at least one order line")
    ensures r.Pass? <==>
      && order.customer.Some?
      && |order.lines| > 0
      && forall i :: 0 <= i < |order.lines| ==> LineAvailable(products, order.lines[i])
  {
    if order.customer.None? then Fail("Customer is required")
    else if |order.lines| == 0 then Fail("Order must have at least one order line")
    else ValidateLines(products, order.lines)
  }

  /** Every product of `products` has kept all fields but its stock in `after`. */
  ghost predicate OnlyStockChanged(products: Catalog, after: Catalog)
  {
    && after.Keys == products.Keys
    && forall pid :: pid in products ==> after[pid] == products[pid].(stock := after[pid].stock)
  }

  /** `updateProductStock` of OrderService: take each line's quantity off its
      product in turn, failing as soon as one would go negative. */
  function Consume(products: Catalog, lines: seq<OrderLine>): (r: Result<Catalog>)
    requires forall i :: 0 <= i < |lines| ==> lines[i].product.Some?
    ensures r.Ok? ==> OnlyStockChanged(products, r.value)
    ensures r.Ok? ==> forall pid :: pid in products ==> r.value[pid].stock == products[pid].stock - Ordered(lines, pid)
    ensures r.Ok? ==> forall i :: 0 <= i < |lines| ==>
                        (lines[i].product.value in products && r.value[lines[i].product.value].stock >= 0)
    decreases |lines|
  {
    if |lines| == 0 then Ok(products)
    else
      var line := lines[0];
      var pid := line.product.value;
      if pid !in products then Err("Product not found")
      else
        var newStock := products[pid].stock - line.quantity;
        if newStock < 0 then
          Err("Insufficient stock for product: " + products[pid].name)
        else
          var products' := products[pid := products[pid].(stock := newStock)];
          assert forall i :: 1 <= i < |lines| ==> lines[i] == lines[1..][i - 1];
          var r := Consume(products', lines[1..]);
          ConsumeStepStock(products, products', lines, r);
          r
  }

  /** The bookkeeping step of `Consume`: the line just taken off, followed by
      the rest. */
  lemma {:induction false} ConsumeStepStock(products: Catalog, products': Catalog, lines: seq<OrderLine>, rest: Result<Catalog>)
    requires |lines| > 0 && (forall i :: 0 <= i < |lines| ==> lines[i].product.Some?)
    requires lines[0].product.value in products
    requires products' == products[lines[0].product.value := products[lines[0].product.value].(stock := products[lines[0].product.value].stock - lines[0].quantity)]
    requires products[lines[0].product.value].stock - lines[0].quantity >= 0
    requires forall i :: 1 <= i < |lines| ==> lines[i] == lines[1..][i - 1]
    requires rest.Ok? ==> OnlyStockChanged(products', rest.value)
    requires rest.Ok? ==> forall pid :: pid in products' ==> rest.value[pid].stock == products'[pid].stock - Ordered(lines[1..], pid)
    requires rest.Ok? ==> forall i :: 0 <= i < |lines[1..]| ==> lines[1..][i].product.value in products' && rest.value[lines[1..][i].product.value].stock >= 0
    ensures rest.Ok? ==> OnlyStockChanged(products, rest.value)
    ensures rest.Ok? ==> forall pid :: pid in products ==> rest.value[pid].stock == products[pid].stock - Ordered(lines, pid)
    ensures rest.Ok? ==> forall i :: 0 <= i < |lines| ==> lines[i].product.value in products && rest.value[lines[i].product.value].stock >= 0
  {
    if rest.Err? { return; }
    var after := rest.value;
    var pid0 := lines[0].product.value;
    if forall i :: 1 <= i < |lines| ==> lines[i].product != Some(pid0) {
      OrderedOfUnnamed(lines[1..], pid0);
    } else {
      var i :| 1 <= i < |lines| && lines[i].product == Some(pid0);
      assert lines[1..][i - 1].product.value == pid0;
    }
  }

  /** The stock a line of the order needs: everything the order asks of its product. */
  predicate CoversOrder(products: Catalog, lines: seq<OrderLine>)
    requires forall i :: 0 <= i < |lines| ==> lines[i].product.Some?
  {
    forall i :: 0 <= i < |lines| ==>
      && lines[i].product.value in products
      && Ordered(lines, lines[i].product.value) <= products[lines[i].product.value].stock
  }

  /** With positive quantities, consuming succeeds exactly when every product
      named by the order exists and has stock for the order's whole demand on
      it, which the per-line validation alone does not ensure. */
  lemma {:induction false} ConsumeSucceedsIff(products: Catalog, lines: seq<OrderLine>)
    requires forall i :: 0 <= i < |lines| ==> lines[i].product.Some?
    requires PositiveQuantities(lines)
    ensures Consume(products, lines).Ok? <==> CoversOrder(products, lines)
    decreases |lines|
  {
    if |lines| > 0 {
      var rest := lines[1..];
      var pid0 := lines[0].product.value;
      assert forall i :: 1 <= i < |lines| ==> lines[i] == rest[i - 1];
      if pid0 !in products {
        assert !CoversOrder(products, lines);
      } else if products[pid0].stock - lines[0].quantity < 0 {
        CoversNeedsFirstLine(products, lines);
      } else {
        var products' := products[pid0 := products[pid0].(stock := products[pid0].stock - lines[0].quantity)];
        ConsumeSucceedsIff(products', rest);
        CoversStep(products, lines);
      }
    }
  }

  lemma {:induction false} CoversNeedsFirstLine(products: Catalog, lines: seq<OrderLine>)
    requires |lines| > 0 && (forall i :: 0 <= i < |lines| ==> lines[i].product.Some?)
    requires PositiveQuantities(lines)
    requires lines[0].product.value in products
    requires products[lines[0].product.value].stock < lines[0].quantity
    ensures !CoversOrder(products, lines)
  {
    var pid0 := lines[0].product.value;
    assert forall i :: 1 <= i < |lines| ==> lines[i] == lines[1..][i - 1];
    OrderedOfPositive(lines[1..], pid0);
    assert Ordered(lines, pid0) >= lines[0].quantity;
  }

  /** Taking the first line off moves its quantity from the order's demand
      to the stock it is checked against. */
  lemma {:induction false} CoversStep(products: Catalog, lines: seq<OrderLine>)
    requires |lines| > 0 && (forall i :: 0 <= i < |lines| ==> lines[i].product.Some?)
    requires PositiveQuantities(lines)
    requires lines[0].product.value in products
    requires products[lines[0].product.value].stock >= lines[0].quantity
    ensures
      var pid0 := lines[0].product.value;
      var products' := products[pid0 := products[pid0].(stock := products[pid0].stock - lines[0].quantity)];
      CoversOrder(products, lines) <==> CoversOrder(products', lines[1..])
  {
    var rest := lines[1..];
    var pid0 := lines[0].product.value;
    var q0 := lines[0].quantity;
    var products' := products[pid0 := products[pid0].(stock := products[pid0].stock - q0)];
    assert forall i :: 1 <= i < |lines| ==> lines[i] == rest[i - 1];
    if CoversOrder(products, lines) {
      forall j | 0 <= j < |rest|
        ensures rest[j].product.value in products' && Ordered(rest, rest[j].product.value) <= products'[rest[j].product.value].stock
      {
        assert rest[j] == lines[j + 1];
        var pid := rest[j].product.value;
        assert Ordered(lines, pid) == (if pid == pid0 then q0 else 0) + Ordered(rest, pid);
      }
    }
    if CoversOrder(products', rest) {
      forall i | 0 <= i < |lines|
        ensures lines[i].product.value in products && Ordered(lines, lines[i].product.value) <= products[lines[i].product.value].stock
      {
        var pid := lines[i].product.value;
        assert Ordered(lines, pid) == (if pid == pid0 then q0 else 0) + Ordered(rest, pid);
        if i > 0 {
          assert lines[i] == rest[i - 1];
        } else if exists j :: 0 <= j < |rest| && rest[j].product == Some(pid0) {
          var j :| 0 <= j < |rest| && rest[j].product == Some(pid0);
        } else {
          OrderedOfUnnamed(rest, pid0);
        }
      }
    }
  }

  /** A successful consume leaves no product negative: a named product was
      checked on the way, an unnamed one keeps its stock. */
  lemma {:induction false} ConsumeKeepsNonNegative(products: Catalog, lines: seq<OrderLine>)
    requires forall i :: 0 <= i < |lines| ==> lines[i].product.Some?
    requires NonNegativeStock(products)
    ensures Consume(products, lines).Ok? ==> NonNegativeStock(Consume(products, lines).value)
  {
    var r := Consume(products, lines);
    if r.Ok? {
      forall pid | pid in r.value ensures r.value[pid].stock >= 0 {
        if exists i :: 0 <= i < |lines| && lines[i].product == Some(pid) {
          var i :| 0 <= i < |lines| && lines[i].product == Some(pid);
        } else {
          OrderedOfUnnamed(lines, pid);
        }
      }
    }
  }

  /** What `restoreProductStock` needs to succeed: every counted line names
      an existing product. */
  predicate RestoreFinds(products: Catalog, lines: seq<OrderLine>)
  {
    forall i :: 0 <= i < |lines| && lines[i].product.Some? && lines[i].quantity > 0 ==>
      lines[i].product.value in products
  }

  /** The catalog with every counted line given back. */
  function Restored(products: Catalog, lines: seq<OrderLine>): (r: Catalog)
    ensures r.Keys == products.Keys
    ensures forall pid :: pid in products ==> r[pid] == products[pid].(stock := products[pid].stock + Restorable(lines, pid))
  {
    map pid | pid in products :: products[pid].(stock := products[pid].stock + Restorable(lines, pid))
  }

  /** `restoreProductStock`: give back each line's quantity, skipping lines
      with no product or a non-positive quantity; a named product that does
      not exist aborts the restore. An order without lines restores nothing. */
  function Restore(products: Catalog, lines: seq<OrderLine>): (r: Result<Catalog>)
    ensures r.Ok? <==> forall i :: 0 <= i < |lines| && lines[i].product.Some? && lines[i].quantity > 0 ==>
                                   lines[i].product.value in products
    ensures r.Err? ==> r == Err("Product not found")
    ensures r.Ok? ==> OnlyStockChanged(products, r.value)
    ensures r.Ok? ==> forall pid :: pid in products ==> r.value[pid].stock == products[pid].stock + Restorable(lines, pid)
    ensures r.Ok? && NonNegativeStock(products) ==> NonNegativeStock(r.value)
    decreases |lines|
  {
    if |lines| == 0 then Ok(products)
    else
      var line := lines[0];
      assert forall i :: 1 <= i < |lines| ==> lines[i] == lines[1..][i - 1];
      if line.product.Some? && line.quantity > 0 then
        var pid := line.product.value;
        if pid !in products then Err("Product not found")
        else
          var products' := products[pid := products[pid].(stock := products[pid].stock + line.quantity)];
          Restore(products', lines[1..])
      else Restore(products, lines[1..])
  }

  /** A successful restore yields exactly the restored catalog. */
  lemma {:induction false} RestoreIsRestored(products: Catalog, lines: seq<OrderLine>)
    requires Restore(products, lines).Ok?
    ensures Restore(products, lines).value == Restored(products, lines)
  {
    var a := Restore(products, lines).value;
    var b := Restored(products, lines);
    assert forall pid :: pid in a ==> a[pid] == b[pid];
  }

  /** `createOrder`: validate, stamp the order PENDING with today's date, then
      consume its lines. `newId` is the identity the database generates. */
  function CreateOrder(st: Store, order: Order, newId: nat, today: int): (r: Result<Store>)
    requires newId !in st.orders
    ensures ValidateOrder(st.products, order).Fail? ==> r == Err(ValidateOrder(st.products, order).error)
    ensures r.Ok? <==> ValidateOrder(st.products, order).Pass? && CoversOrder(st.products, order.lines)
    ensures r.Ok? ==>
      && r.value.orders == st.orders[newId := order.(date := today, status := Some(OrderStatus.Pending))]
      && OnlyStockChanged(st.products, r.value.products)
      && (forall pid :: pid in st.products ==>
            r.value.products[pid].stock == st.products[pid].stock - Ordered(order.lines, pid))
      && (forall i :: 0 <= i < |order.lines| ==>
            order.lines[i].product.Some? && r.value.products[order.lines[i].product.value].stock >= 0)
      && r.value.deliveries == st.deliveries && r.value.history == st.history
  {
    var check := ValidateOrder(st.products, order);
    if check.Fail? then Err(check.error)
    else
      ConsumeSucceedsIff(st.products, order.lines);
      match Consume(st.products, order.lines)
      case Err(e) => Err(e)
      case Ok(products') =>
        Ok(st.(products := products',
               orders := st.orders[newId := order.(date := today, status := Some(OrderStatus.Pending))]))
  }

  /** `cancelOrder`: an order that is neither DELIVERED nor CANCELLED gives
      its stock back and becomes CANCELLED. */
  function CancelOrder(st: Store, id: nat): (r: Result<Store>)
    ensures id !in st.orders ==> r == Err("Order not found")
    ensures id in st.orders && st.orders[id].status in {Some(OrderStatus.Delivered), Some(OrderStatus.Cancelled)} ==>
      r == Err("Cannot cancel an order that is already delivered or canceled")
    ensures r.Ok? ==>
      && id in st.orders
      && st.orders[id].status !in {Some(OrderStatus.Delivered), Some(OrderStatus.Cancelled)}
      && r.value.orders == st.orders[id := st.orders[id].(status := Some(OrderStatus.Cancelled))]
      && OnlyStockChanged(st.products, r.value.products)
      && (forall pid :: pid in st.products ==>
            r.value.products[pid].stock == st.products[pid].stock + Restorable(st.orders[id].lines, pid))
      && r.value.deliveries == st.deliveries && r.value.history == st.history
    ensures r.Ok? && NonNegativeStock(st.products) ==> NonNegativeStock(r.value.products)
  {
    if id !in st.orders then Err("Order not found")
    else
      var order := st.orders[id];
      if order.status == Some(OrderStatus.Delivered) || order.status == Some(OrderStatus.Cancelled) then
        Err("Cannot cancel an order that is already delivered or canceled")
      else
        match Restore(st.products, order.lines)
        case Err(e) => Err(e)
        case Ok(products') =>
          Ok(st.(products := products', orders := st.orders[id := order.(status := Some(OrderStatus.Cancelled))]))
  }

  /** The line-replacing half of `updateOrder`: optionally give the old
      lines back, validate the order with its new lines against the stock
      that results, then take the new lines off unless the order is
      CANCELLED. `restoreOld` is the guard the caller computes. */
  function ReplaceLines(products: Catalog, oldLines: seq<OrderLine>, updated: Order, restoreOld: bool): (r: Result<Catalog>)
    requires |updated.lines| > 0
    ensures r.Ok? ==> updated.customer.Some? && PositiveQuantities(updated.lines)
    ensures r.Ok? ==> OnlyStockChanged(products, r.value)
    ensures r.Ok? ==> forall pid :: pid in products ==>
      r.value[pid].stock == products[pid].stock
                            + (if restoreOld then Restorable(oldLines, pid) else 0)
                            - (if updated.status != Some(OrderStatus.Cancelled) then Ordered(updated.lines, pid) else 0)
    ensures r.Ok? && NonNegativeStock(products) ==> NonNegativeStock(r.value)
  {
    var restored := if restoreOld then Restore(products, oldLines) else Ok(products);
    if restored.Err? then Err(restored.error)
    else
      var check := ValidateOrder(restored.value, updated);
      if check.Fail? then Err(check.error)
      else if updated.status != Some(OrderStatus.Cancelled) then
        if NonNegativeStock(products) then
          ConsumeKeepsNonNegative(restored.value, updated.lines);
          Consume(restored.value, updated.lines)
        else Consume(restored.value, updated.lines)
      else restored
  }

  /** What the new lines of an update must satisfy against the stock `base`
      they are checked on: a customer, every line available on its own, and
      unless the order is CANCELLED, stock for the order's whole demand. */
  predicate LinesAccepted(base: Catalog, order: Order)
  {
    && order.customer.Some?
    && (forall i :: 0 <= i < |order.lines| ==> LineAvailable(base, order.lines[i]))
    && (order.status != Some(OrderStatus.Cancelled) ==> CoversOrder(base, order.lines))
  }

  /** Replacing lines succeeds exactly when the optional restore finds its
      products and the new lines are accepted against the stock after it. */
  lemma {:induction false} ReplaceLinesSucceedsIff(products: Catalog, oldLines: seq<OrderLine>, updated: Order, restoreOld: bool)
    requires |updated.lines| > 0
    ensures ReplaceLines(products, oldLines, updated, restoreOld).Ok? <==>
      && (restoreOld ==> RestoreFinds(products, oldLines))
      && LinesAccepted(if restoreOld then Restored(products, oldLines) else products, updated)
  {
    if restoreOld && Restore(products, oldLines).Ok? {
      RestoreIsRestored(products, oldLines);
    }
    var base := if restoreOld then Restored(products, oldLines) else products;
    if ValidateOrder(base, updated).Pass? && updated.status != Some(OrderStatus.Cancelled) {
      ConsumeSucceedsIff(base, updated.lines);
    }
  }

  /** The fields `updateOrder` copies from the request onto the stored order. */
  function CopyFields(existing: Order, input: Order): (r: Order)
    ensures r.lines == existing.lines
    ensures r.(lines := input.lines) == input
  {
    existing.(customer := input.customer, date := input.date, status := input.status,
              delivery := input.delivery, payment := input.payment)
  }

  /** `updateOrder` as written. Moving a live order to CANCELLED gives its
      stock back first. With non-empty new lines, the old lines are given
      back when the order's status is not CANCELLED, but that status has
      already been overwritten by the requested one: a CANCELLED order that
      is reactivated gets its old lines back a second time. */
  function UpdateOrder(st: Store, id: nat, input: Order): (r: Result<Store>)
    ensures id !in st.orders ==> r == Err("Order not found")
    ensures r.Ok? && |input.lines| > 0 ==> input.customer.Some? && PositiveQuantities(input.lines)
    ensures r.Ok? ==>
      var existing := st.orders[id];
      && r.value.orders == st.orders[id := CopyFields(existing, input).(lines := if |input.lines| > 0 then input.lines else existing.lines)]
      && OnlyStockChanged(st.products, r.value.products)
      && r.value.deliveries == st.deliveries && r.value.history == st.history
    ensures r.Ok? ==>
      var existing := st.orders[id];
      forall pid :: pid in st.products ==>
        r.value.products[pid].stock ==
          if input.status == Some(OrderStatus.Cancelled) then
            st.products[pid].stock + (if existing.status != Some(OrderStatus.Cancelled) then Restorable(existing.lines, pid) else 0)
          else if |input.lines| > 0 then
            st.products[pid].stock + Restorable(existing.lines, pid) - Ordered(input.lines, pid)
          else st.products[pid].stock
    ensures r.Ok? && NonNegativeStock(st.products) ==> NonNegativeStock(r.value.products)
  {
    if id !in st.orders then Err("Order not found")
    else
      var existing := st.orders[id];
      var cancelling := input.status == Some(OrderStatus.Cancelled) && existing.status != Some(OrderStatus.Cancelled);
      var restored := if cancelling then Restore(st.products, existing.lines) else Ok(st.products);
      if restored.Err? then Err(restored.error)
      else
        var updated := CopyFields(existing, input);
        if |input.lines| == 0 then Ok(st.(products := restored.value, orders := st.orders[id := updated]))
        else
          // The guard reads `updated.status`, the requested status, not the stored one.
          var restoreOld := updated.status != Some(OrderStatus.Cancelled);
          match ReplaceLines(restored.value, existing.lines, updated.(lines := input.lines), restoreOld)
          case Err(e) => Err(e)
          case Ok(products') => Ok(st.(products := products', orders := st.orders[id := updated.(lines := input.lines)]))
  }

  /** `updateOrder` with the old lines given back exactly when they still
      hold stock: the stored order was not CANCELLED, and the cancellation
      branch has not already given them back. */
  function UpdateOrderCorrected(st: Store, id: nat, input: Order): (r: Result<Store>)
    ensures id !in st.orders ==> r == Err("Order not found")
    ensures r.Ok? && |input.lines| > 0 ==> input.customer.Some? && PositiveQuantities(input.lines)
    ensures r.Ok? ==>
      var existing := st.orders[id];
      && r.value.orders == st.orders[id := CopyFields(existing, input).(lines := if |input.lines| > 0 then input.lines else existing.lines)]
      && OnlyStockChanged(st.products, r.value.products)
      && r.value.deliveries == st.deliveries && r.value.history == st.history
    ensures r.Ok? && |input.lines| > 0 ==>
      var existing := st.orders[id];
      forall pid :: pid in st.products ==>
        r.value.products[pid].stock ==
          st.products[pid].stock
          + (if existing.status != Some(OrderStatus.Cancelled) then Restorable(existing.lines, pid) else 0)
          - (if input.status != Some(OrderStatus.Cancelled) then Ordered(input.lines, pid) else 0)
    ensures r.Ok? && NonNegativeStock(st.products) ==> NonNegativeStock(r.value.products)
  {
    if id !in st.orders then Err("Order not found")
    else
      var existing := st.orders[id];
      var cancelling := input.status == Some(OrderStatus.Cancelled) && existing.status != Some(OrderStatus.Cancelled);
      var restored := if cancelling then Restore(st.products, existing.lines) else Ok(st.products);
      if restored.Err? then Err(restored.error)
      else
        var updated := CopyFields(existing, input);
        if |input.lines| == 0 then Ok(st.(products := restored.value, orders := st.orders[id := updated]))
        else
          var restoreOld := existing.status != Some(OrderStatus.Cancelled) && input.status != Some(OrderStatus.Cancelled);
          match ReplaceLines(restored.value, existing.lines, updated.(lines := input.lines), restoreOld)
          case Err(e) => Err(e)
          case Ok(products') => Ok(st.(products := products', orders := st.orders[id := updated.(lines := input.lines)]))
  }

  /** `updateOrder` as written succeeds exactly when the order exists, the
      restore it performs finds its products, and the new lines (if any) are
      accepted against the stock after that restore. The old lines are given
      back on cancelling a live order without new lines, and with new lines
      whenever the order is not staying CANCELLED. */
  lemma {:induction false} UpdateOrderSucceedsIff(st: Store, id: nat, input: Order)
    ensures id !in st.orders ==> UpdateOrder(st, id, input).Err?
    ensures id in st.orders ==>
      var existing := st.orders[id];
      var restoring :=
        if |input.lines| == 0 then input.status == Some(OrderStatus.Cancelled) && existing.status != Some(OrderStatus.Cancelled)
        else input.status != Some(OrderStatus.Cancelled) || existing.status != Some(OrderStatus.Cancelled);
      var base := if restoring then Restored(st.products, existing.lines) else st.products;
      UpdateOrder(st, id, input).Ok? <==>
        && (restoring ==> RestoreFinds(st.products, existing.lines))
        && (|input.lines| > 0 ==> LinesAccepted(base, input))
  {
    if id in st.orders {
      var existing := st.orders[id];
      var cancelling := input.status == Some(OrderStatus.Cancelled) && existing.status != Some(OrderStatus.Cancelled);
      var restored := if cancelling then Restore(st.products, existing.lines) else Ok(st.products);
      if restored.Ok? && |input.lines| > 0 {
        if cancelling {
          RestoreIsRestored(st.products, existing.lines);
        }
        var updated := CopyFields(existing, input).(lines := input.lines);
        ReplaceLinesSucceedsIff(restored.value, existing.lines, updated, input.status != Some(OrderStatus.Cancelled));
      }
    }
  }

  /** The corrected update succeeds under the same conditions, except that
      with new lines the old lines are given back exactly when the stored
      order was not CANCELLED. */
  lemma {:induction false} UpdateOrderCorrectedSucceedsIff(st: Store, id: nat, input: Order)
    ensures id !in st.orders ==> UpdateOrderCorrected(st, id, input).Err?
    ensures id in st.orders ==>
      var existing := st.orders[id];
      var restoring :=
        if |input.lines| == 0 then input.status == Some(OrderStatus.Cancelled) && existing.status != Some(OrderStatus.Cancelled)
        else existing.status != Some(OrderStatus.Cancelled);
      var base := if restoring then Restored(st.products, existing.lines) else st.products;
      UpdateOrderCorrected(st, id, input).Ok? <==>
        && (restoring ==> RestoreFinds(st.products, existing.lines))
        && (|input.lines| > 0 ==> LinesAccepted(base, input))
  {
    if id in st.orders {
      var existing := st.orders[id];
      var cancelling := input.status == Some(OrderStatus.Cancelled) && existing.status != Some(OrderStatus.Cancelled);
      var restored := if cancelling then Restore(st.products, existing.lines) else Ok(st.products);
      if restored.Ok? && |input.lines| > 0 {
        if cancelling {
          RestoreIsRestored(st.products, existing.lines);
        }
        var updated := CopyFields(existing, input).(lines := input.lines);
        var restoreOld := existing.status != Some(OrderStatus.Cancelled) && input.status != Some(OrderStatus.Cancelled);
        ReplaceLinesSucceedsIff(restored.value, existing.lines, updated, restoreOld);
      }
    }
  }

  /** Reactivating a cancelled order with new lines: the stock of 10 went to
      7 when the order of 3 was created and back to 10 when it was
      cancelled; re-ordering 1 should leave 9, but as written leaves 12. */
  lemma ReactivationRestoresTwice()
    ensures
      var oil := Product(1, "Olive Oil", "", 25.99, 10, "Grocery");
      var cancelled := Order(Some(4), 0, Some(OrderStatus.Cancelled), [OrderLine(Some(1), 3)], None, None);
      var st := Store(map[1 := oil], map[5 := cancelled], map[], []);
      var input := Order(Some(4), 0, Some(OrderStatus.Pending), [OrderLine(Some(1), 1)], None, None);
      && UpdateOrder(st, 5, input).Ok?
      && UpdateOrder(st, 5, input).value.products[1].stock == 12
      && UpdateOrderCorrected(st, 5, input).Ok?
      && UpdateOrderCorrected(st, 5, input).value.products[1].stock == 9
  {
    var lines := [OrderLine(Some(1), 1)];
    assert lines[1..] == [];
    var oldLines := [OrderLine(Some(1), 3)];
    assert oldLines[1..] == [];
  }

  /** Two catalogs that differ only in stock and agree on every stock are equal. */
  lemma {:induction false} SameStockSameCatalog(a: Catalog, b: Catalog)
    requires OnlyStockChanged(a, b)
    requires forall pid :: pid in a ==> b[pid].stock == a[pid].stock
    ensures a == b
  {
    assert forall pid :: pid in a ==> b[pid] == a[pid];
  }

  /** A freshly created order can be cancelled... */
  lemma {:induction false} CreatedOrderCanBeCancelled(st: Store, order: Order, newId: nat, today: int)
    requires newId !in st.orders
    requires CreateOrder(st, order, newId, today).Ok?
    ensures CancelOrder(CreateOrder(st, order, newId, today).value, newId).Ok?
    ensures PositiveQuantities(order.lines)
  {
    var created := CreateOrder(st, order, newId, today).value;
    assert forall i :: 0 <= i < |order.lines| ==> LineAvailable(st.products, order.lines[i]);
    CancelSucceeds(created, newId);
  }

  /** Cancelling succeeds on a live order whose products all exist. */
  lemma {:induction false} CancelSucceeds(st: Store, id: nat)
    requires id in st.orders
    requires st.orders[id].status != Some(OrderStatus.Delivered) && st.orders[id].status != Some(OrderStatus.Cancelled)
    requires forall i :: 0 <= i < |st.orders[id].lines| && st.orders[id].lines[i].product.Some? ==>
      st.orders[id].lines[i].product.value in st.products
    ensures CancelOrder(st, id).Ok?
  {
  }

  /** ...and cancelling it gives every product back the stock it had before
      the order was created. */
  lemma {:induction false} CreateThenCancelRestoresStock(st: Store, order: Order, newId: nat, today: int)
    requires newId !in st.orders
    requires CreateOrder(st, order, newId, today).Ok?
    ensures CancelOrder(CreateOrder(st, order, newId, today).value, newId).Ok?
    ensures CancelOrder(CreateOrder(st, order, newId, today).value, newId).value.products == st.products
  {
    CreatedOrderCanBeCancelled(st, order, newId, today);
    var created := CreateOrder(st, order, newId, today).value;
    var lines := order.lines;
    assert created.orders[newId].lines == lines;
    var cancelled := CancelOrder(created, newId).value;
    forall pid | pid in st.products
      ensures cancelled.products[pid].stock == st.products[pid].stock
    {
      OrderedOfPositive(lines, pid);
    }
    SameStockSameCatalog(st.products, cancelled.products);
  }

  /** Availability is checked per line, so two lines of one product can each
      pass validation while together they exceed the stock; the decrement
      step then rejects the order and nothing changes. */
  lemma PerLineValidationIsNotCumulative()
    ensures
      var oil := Product(1, "Olive Oil", "", 25.99, 5, "Grocery");
      var st := Store(map[1 := oil], map[], map[], []);
      var order := Order(Some(9), 0, None, [OrderLine(Some(1), 3), OrderLine(Some(1), 3)], None, None);
      && ValidateOrder(st.products, order) == Pass
      && CreateOrder(st, order, 1, 0) == Err("Insufficient stock for product: Olive Oil")
  {
    var oil := Product(1, "Olive Oil", "", 25.99, 5, "Grocery");
    var lines := [OrderLine(Some(1), 3), OrderLine(Some(1), 3)];
    assert lines[1..] == [OrderLine(Some(1), 3)];
    assert Ordered(lines, 1) == 6;
  }
}
