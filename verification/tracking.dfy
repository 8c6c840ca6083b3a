/** The order and delivery lifecycles of OrderTrackingService: the two
    transition checks and the three status-changing operations. Every
    operation maps a store to a new store or to the exception message it
    throws; a thrown exception rolls the transaction back, so an `Err`
    leaves the caller with the store it had. */
module Tracking {
  import opened Wrappers
  import opened Statuses
  import opened Entities

  /** The happy path of an order, in order. */
  const OrderChain: seq<OrderStatus> :=
    [OrderStatus.Pending, OrderStatus.Confirmed, OrderStatus.Processing,
     OrderStatus.ReadyForDelivery, OrderStatus.InDelivery, OrderStatus.Delivered]

  /** The happy path of a delivery, in order. */
  const DeliveryChain: seq<DeliveryStatus> :=
    [DeliveryStatus.Pending, DeliveryStatus.Assigned, DeliveryStatus.PickedUp,
     DeliveryStatus.InTransit, DeliveryStatus.Delivered]

  /** `b` directly follows `a` in `chain`. */
  ghost predicate Follows<T>(chain: seq<T>, a: T, b: T)
  {
    exists i :: 0 <= i < |chain| - 1 && chain[i] == a && chain[i + 1] == b
  }

  /** The order lifecycle as a relation: one step along the chain, or
      cancellation from any state of the chain before its last one. */
  ghost predicate OrderStep(a: OrderStatus, b: OrderStatus)
  {
    || Follows(OrderChain, a, b)
    || (a in OrderChain[..|OrderChain| - 1] && b == OrderStatus.Cancelled)
  }

  /** The delivery lifecycle as a relation: one step along the chain, or
      failure while in transit. */
  ghost predicate DeliveryStep(a: DeliveryStatus, b: DeliveryStatus)
  {
    || Follows(DeliveryChain, a, b)
    || (a == DeliveryStatus.InTransit && b == DeliveryStatus.Failed)
  }

  function ValidateOrderTransition(current: Option<OrderStatus>, next: OrderStatus): (r: Outcome)
    ensures current.None? ==> r == Pass
    ensures current.Some? && current.value in {OrderStatus.Delivered, OrderStatus.Cancelled} ==>
      r == Fail("Cannot change status from " + OrderStatusName(current.value))
    ensures current.Some? && current.value !in {OrderStatus.Delivered, OrderStatus.Cancelled} && r.Fail? ==>
      r.error == "Invalid status transition from " + OrderStatusName(current.value)
  {
    match current
    case None => Pass
    case Some(cur) =>
      var allowed :=
        match cur
        case Pending => next == OrderStatus.Confirmed || next == OrderStatus.Cancelled
        case Confirmed => next == OrderStatus.Processing || next == OrderStatus.Cancelled
        case Processing => next == OrderStatus.ReadyForDelivery || next == OrderStatus.Cancelled
        case ReadyForDelivery => next == OrderStatus.InDelivery || next == OrderStatus.Cancelled
        case InDelivery => next == OrderStatus.Delivered || next == OrderStatus.Cancelled
        case Delivered => false
        case Cancelled => false;
      if cur == OrderStatus.Delivered || cur == OrderStatus.Cancelled then
        Fail("Cannot change status from " + OrderStatusName(cur))
      else if allowed then Pass
      else Fail("Invalid status transition from " + OrderStatusName(cur))
  }

  function ValidateDeliveryTransition(current: Option<DeliveryStatus>, next: DeliveryStatus): (r: Outcome)
    ensures current.None? ==> r == Pass
    ensures current.Some? && current.value in {DeliveryStatus.Delivered, DeliveryStatus.Failed} ==>
      r == Fail("Cannot change status from " + DeliveryStatusName(current.value))
    ensures current.Some? && current.value !in {DeliveryStatus.Delivered, DeliveryStatus.Failed} && r.Fail? ==>
      r.error == "Invalid status transition from " + DeliveryStatusName(current.value)
  {
    match current
    case None => Pass
    case Some(cur) =>
      var allowed :=
        match cur
        case Pending => next == DeliveryStatus.Assigned
        case Assigned => next == DeliveryStatus.PickedUp
        case PickedUp => next == DeliveryStatus.InTransit
        case InTransit => next == DeliveryStatus.Delivered || next == DeliveryStatus.Failed
        case Delivered => false
        case Failed => false;
      if cur == DeliveryStatus.Delivered || cur == DeliveryStatus.Failed then
        Fail("Cannot change status from " + DeliveryStatusName(cur))
      else if allowed then Pass
      else Fail("Invalid status transition from " + DeliveryStatusName(cur))
  }

  /** The order check accepts exactly the lifecycle relation: the successor
      on the chain or CANCELLED, from a non-terminal state. In particular no
      state may move to itself, and DELIVERED and CANCELLED accept nothing. */
  lemma {:induction false} OrderTransitionsFollowChain(a: OrderStatus, b: OrderStatus)
    ensures ValidateOrderTransition(Some(a), b).Pass? <==> OrderStep(a, b)
    ensures ValidateOrderTransition(Some(a), a).Fail?
  {
    if OrderStep(a, b) {
      OrderStepIsAccepted(a, b);
    }
    if ValidateOrderTransition(Some(a), b).Pass? {
      AcceptedOrderIsStep(a, b);
    }
  }

  lemma {:induction false} OrderStepIsAccepted(a: OrderStatus, b: OrderStatus)
    requires OrderStep(a, b)
    ensures ValidateOrderTransition(Some(a), b).Pass?
  {
    var c := OrderChain;
    if Follows(c, a, b) {
      var i :| 0 <= i < |c| - 1 && c[i] == a && c[i + 1] == b;
      if i == 0 {
        assert a == OrderStatus.Pending && b == OrderStatus.Confirmed;
      } else if i == 1 {
        assert a == OrderStatus.Confirmed && b == OrderStatus.Processing;
      } else if i == 2 {
        assert a == OrderStatus.Processing && b == OrderStatus.ReadyForDelivery;
      } else if i == 3 {
        assert a == OrderStatus.ReadyForDelivery && b == OrderStatus.InDelivery;
      } else {
        assert a == OrderStatus.InDelivery && b == OrderStatus.Delivered;
      }
    } else {
      assert c[..|c| - 1] == [OrderStatus.Pending, OrderStatus.Confirmed, OrderStatus.Processing,
                              OrderStatus.ReadyForDelivery, OrderStatus.InDelivery];
      assert a != OrderStatus.Delivered && a != OrderStatus.Cancelled && b == OrderStatus.Cancelled;
    }
  }

  lemma {:induction false} AcceptedOrderIsStep(a: OrderStatus, b: OrderStatus)
    requires ValidateOrderTransition(Some(a), b).Pass?
    ensures OrderStep(a, b)
  {
    var c := OrderChain;
    if b == OrderStatus.Cancelled {
      assert c[..|c| - 1] == [OrderStatus.Pending, OrderStatus.Confirmed, OrderStatus.Processing,
                              OrderStatus.ReadyForDelivery, OrderStatus.InDelivery];
    } else {
      match a
      case Pending => assert c[0] == a && c[1] == b;
      case Confirmed => assert c[1] == a && c[2] == b;
      case Processing => assert c[2] == a && c[3] == b;
      case ReadyForDelivery => assert c[3] == a && c[4] == b;
      case InDelivery => assert c[4] == a && c[5] == b;
    }
  }

  /** The delivery check accepts exactly the lifecycle relation
      PENDING, ASSIGNED, PICKED_UP, IN_TRANSIT, then DELIVERED or FAILED. */
  lemma {:induction false} DeliveryTransitionsFollowChain(a: DeliveryStatus, b: DeliveryStatus)
    ensures ValidateDeliveryTransition(Some(a), b).Pass? <==> DeliveryStep(a, b)
    ensures ValidateDeliveryTransition(Some(a), a).Fail?
  {
    if DeliveryStep(a, b) {
      DeliveryStepIsAccepted(a, b);
    }
    if ValidateDeliveryTransition(Some(a), b).Pass? {
      AcceptedDeliveryIsStep(a, b);
    }
  }

  lemma {:induction false} DeliveryStepIsAccepted(a: DeliveryStatus, b: DeliveryStatus)
    requires DeliveryStep(a, b)
    ensures ValidateDeliveryTransition(Some(a), b).Pass?
  {
    var c := DeliveryChain;
    if Follows(c, a, b) {
      var i :| 0 <= i < |c| - 1 && c[i] == a && c[i + 1] == b;
      if i == 0 {
        assert a == DeliveryStatus.Pending && b == DeliveryStatus.Assigned;
      } else if i == 1 {
        assert a == DeliveryStatus.Assigned && b == DeliveryStatus.PickedUp;
      } else if i == 2 {
        assert a == DeliveryStatus.PickedUp && b == DeliveryStatus.InTransit;
      } else {
        assert a == DeliveryStatus.InTransit && b == DeliveryStatus.Delivered;
      }
    }
  }

  lemma {:induction false} AcceptedDeliveryIsStep(a: DeliveryStatus, b: DeliveryStatus)
    requires ValidateDeliveryTransition(Some(a), b).Pass?
    ensures DeliveryStep(a, b)
  {
    var c := DeliveryChain;
    if b != DeliveryStatus.Failed {
      match a
      case Pending => assert c[0] == a && c[1] == b;
      case Assigned => assert c[1] == a && c[2] == b;
      case PickedUp => assert c[2] == a && c[3] == b;
      case InTransit => assert c[3] == a && c[4] == b;
    }
  }

  /** A status change of an order: checked against the lifecycle, recorded
      in the history, and, on the move to READY_FOR_DELIVERY, a PENDING
      delivery is attached if the order has none. `newDeliveryId` is the
      identity the database generates for that delivery. */
  function UpdateOrderStatus(st: Store, orderId: nat, newStatus: OrderStatus, newDeliveryId: nat): (r: Result<Store>)
    requires newDeliveryId !in st.deliveries
    ensures orderId !in st.orders ==> r == Err("Order not found")
    ensures orderId in st.orders ==>
      (r.Ok? <==> ValidateOrderTransition(st.orders[orderId].status, newStatus).Pass?)
    ensures orderId in st.orders && r.Err? ==>
      r == Err(ValidateOrderTransition(st.orders[orderId].status, newStatus).error)
    ensures r.Ok? ==>
      var old_ := st.orders[orderId];
      var attach := newStatus == OrderStatus.ReadyForDelivery && old_.delivery.None?;
      && r.value.products == st.products
      && r.value.history == st.history + [HistoryEntry(Some(orderId), Some(newStatus), None,
                                           "Order status updated to " + OrderStatusName(newStatus))]
      && r.value.orders.Keys == st.orders.Keys
      && (forall o :: o in st.orders && o != orderId ==> r.value.orders[o] == st.orders[o])
      && r.value.orders[orderId] == old_.(status := Some(newStatus),
                                           delivery := if attach then Some(newDeliveryId) else old_.delivery)
      && r.value.deliveries == if attach then st.deliveries[newDeliveryId := Delivery(Some(orderId), None, Some(DeliveryStatus.Pending))]
                               else st.deliveries
    ensures r.Ok? && LinksResolve(st) ==> LinksResolve(r.value)
  {
    if orderId !in st.orders then Err("Order not found")
    else
      var order := st.orders[orderId];
      var check := ValidateOrderTransition(order.status, newStatus);
      if check.Fail? then Err(check.error)
      else
        var entry := HistoryEntry(Some(orderId), Some(newStatus), None,
                                  "Order status updated to " + OrderStatusName(newStatus));
        var attach := newStatus == OrderStatus.ReadyForDelivery && order.delivery.None?;
        var order' := order.(status := Some(newStatus),
                             delivery := if attach then Some(newDeliveryId) else order.delivery);
        var deliveries' := if attach then st.deliveries[newDeliveryId := Delivery(Some(orderId), None, Some(DeliveryStatus.Pending))]
                           else st.deliveries;
        Ok(st.(orders := st.orders[orderId := order'], deliveries := deliveries', history := st.history + [entry]))
  }

  /** Assigning a carrier: only a PENDING delivery may be assigned; it becomes
      ASSIGNED with the given carrier. No history entry is written. */
  function AssignCarrier(st: Store, deliveryId: nat, carrierId: nat): (r: Result<Store>)
    ensures deliveryId !in st.deliveries ==> r == Err("Delivery not found")
    ensures deliveryId in st.deliveries && st.deliveries[deliveryId].status != Some(DeliveryStatus.Pending) ==>
      r == Err("Can only assign carrier to pending deliveries")
    ensures r.Ok? <==> deliveryId in st.deliveries && st.deliveries[deliveryId].status == Some(DeliveryStatus.Pending)
    ensures r.Ok? ==>
      && r.value.deliveries.Keys == st.deliveries.Keys
      && r.value.deliveries[deliveryId].status == Some(DeliveryStatus.Assigned)
      && r.value.deliveries[deliveryId].carrier == Some(carrierId)
      && r.value.deliveries[deliveryId].order == st.deliveries[deliveryId].order
      && (forall d :: d in st.deliveries && d != deliveryId ==> r.value.deliveries[d] == st.deliveries[d])
      && r.value.orders == st.orders && r.value.products == st.products && r.value.history == st.history
    ensures r.Ok? && LinksResolve(st) ==> LinksResolve(r.value)
  {
    if deliveryId !in st.deliveries then Err("Delivery not found")
    else
      var delivery := st.deliveries[deliveryId];
      if delivery.status != Some(DeliveryStatus.Pending) then Err("Can only assign carrier to pending deliveries")
      else
        var delivery' := delivery.(carrier := Some(carrierId), status := Some(DeliveryStatus.Assigned));
        Ok(st.(deliveries := st.deliveries[deliveryId := delivery']))
  }

  /** The order status a delivery status forces, if any. */
  function ForcedOrderStatus(s: DeliveryStatus): (r: Option<OrderStatus>)
    ensures r.Some? <==> s == DeliveryStatus.Delivered || s == DeliveryStatus.InTransit
    ensures r.Some? ==> r.value == OrderStatus.Delivered || r.value == OrderStatus.InDelivery
  {
    if s == DeliveryStatus.Delivered then Some(OrderStatus.Delivered)
    else if s == DeliveryStatus.InTransit then Some(OrderStatus.InDelivery)
    else None
  }

  /** A status change of a delivery: checked against the delivery lifecycle,
      recorded in the history, and pushed to the order on DELIVERED and
      IN_TRANSIT without consulting the order lifecycle. A delivery with no
      order fails with a null dereference in those two cases. */
  function UpdateDeliveryStatus(st: Store, deliveryId: nat, newStatus: DeliveryStatus): (r: Result<Store>)
    requires LinksResolve(st)
    ensures deliveryId !in st.deliveries ==> r == Err("Delivery not found")
    ensures deliveryId in st.deliveries ==>
      var d := st.deliveries[deliveryId];
      (r.Ok? <==> ValidateDeliveryTransition(d.status, newStatus).Pass?
                  && (ForcedOrderStatus(newStatus).Some? ==> d.order.Some?))
    ensures r.Ok? ==>
      var d := st.deliveries[deliveryId];
      && r.value.products == st.products
      && r.value.deliveries == st.deliveries[deliveryId := d.(status := Some(newStatus))]
      && r.value.history == st.history + [HistoryEntry(d.order, None, Some(newStatus),
                                           "Delivery status updated to " + DeliveryStatusName(newStatus))]
      && r.value.orders.Keys == st.orders.Keys
      && (forall o :: o in st.orders && Some(o) != d.order ==> r.value.orders[o] == st.orders[o])
      && (d.order.Some? ==>
            r.value.orders[d.order.value] ==
              var prior := st.orders[d.order.value];
              match ForcedOrderStatus(newStatus)
              case Some(forced) => prior.(status := Some(forced))
              case None => prior)
    ensures r.Ok? ==> LinksResolve(r.value)
  {
    if deliveryId !in st.deliveries then Err("Delivery not found")
    else
      var delivery := st.deliveries[deliveryId];
      var check := ValidateDeliveryTransition(delivery.status, newStatus);
      if check.Fail? then Err(check.error)
      else
        var entry := HistoryEntry(delivery.order, None, Some(newStatus),
                                  "Delivery status updated to " + DeliveryStatusName(newStatus));
        var st' := st.(deliveries := st.deliveries[deliveryId := delivery.(status := Some(newStatus))],
                       history := st.history + [entry]);
        match ForcedOrderStatus(newStatus)
        case None => Ok(st')
        case Some(forced) =>
          if delivery.order.None? then Err("NullPointerException")
          else
            var orderId := delivery.order.value;
            Ok(st'.(orders := st.orders[orderId := st.orders[orderId].(status := Some(forced))]))
  }

  /** The order status pushed by a delivery bypasses the order lifecycle:
      a CANCELLED order whose delivery is delivered becomes DELIVERED,
      a move the order check itself rejects. */
  lemma ForcedStatusBypassesOrderRules()
    ensures
      var order := Order(Some(1), 0, Some(OrderStatus.Cancelled), [], Some(7), None);
      var st := Store(map[], map[3 := order], map[7 := Delivery(Some(3), Some(2), Some(DeliveryStatus.InTransit))], []);
      && ValidateOrderTransition(Some(OrderStatus.Cancelled), OrderStatus.Delivered).Fail?
      && LinksResolve(st)
      && UpdateDeliveryStatus(st, 7, DeliveryStatus.Delivered).Ok?
      && UpdateDeliveryStatus(st, 7, DeliveryStatus.Delivered).value.orders[3].status == Some(OrderStatus.Delivered)
  {
  }
}
