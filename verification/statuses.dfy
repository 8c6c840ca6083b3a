/** The two lifecycle enumerations shared by the backend entities and the
    frontend types, with their wire names (the Java enum constant names,
    which are also the values of the TypeScript string enums). */
module Statuses {
  import opened Wrappers

  datatype OrderStatus =
    | Pending | Confirmed | Processing | ReadyForDelivery | InDelivery | Delivered | Cancelled

  datatype DeliveryStatus =
    | Pending | Assigned | PickedUp | InTransit | Delivered | Failed

  /** The enum constants in declaration order (`Object.values` of the TypeScript enum). */
  const AllOrderStatuses: seq<OrderStatus> :=
    [OrderStatus.Pending, OrderStatus.Confirmed, OrderStatus.Processing,
     OrderStatus.ReadyForDelivery, OrderStatus.InDelivery, OrderStatus.Delivered,
     OrderStatus.Cancelled]

  const AllDeliveryStatuses: seq<DeliveryStatus> :=
    [DeliveryStatus.Pending, DeliveryStatus.Assigned, DeliveryStatus.PickedUp,
     DeliveryStatus.InTransit, DeliveryStatus.Delivered, DeliveryStatus.Failed]

  function OrderStatusName(s: OrderStatus): string
  {
    match s
    case Pending => "PENDING"
    case Confirmed => "CONFIRMED"
    case Processing => "PROCESSING"
    case ReadyForDelivery => "READY_FOR_DELIVERY"
    case InDelivery => "IN_DELIVERY"
    case Delivered => "DELIVERED"
    case Cancelled => "CANCELLED"
  }

  function DeliveryStatusName(s: DeliveryStatus): string
  {
    match s
    case Pending => "PENDING"
    case Assigned => "ASSIGNED"
    case PickedUp => "PICKED_UP"
    case InTransit => "IN_TRANSIT"
    case Delivered => "DELIVERED"
    case Failed => "FAILED"
  }

  /** The constant whose wire name is `name`, if any. */
  function OrderStatusFromName(name: string): (r: Option<OrderStatus>)
    ensures r.Some? ==> OrderStatusName(r.value) == name
    ensures r.None? ==> forall s: OrderStatus :: OrderStatusName(s) != name
  {
    if name == "PENDING" then Some(OrderStatus.Pending)
    else if name == "CONFIRMED" then Some(OrderStatus.Confirmed)
    else if name == "PROCESSING" then Some(OrderStatus.Processing)
    else if name == "READY_FOR_DELIVERY" then Some(OrderStatus.ReadyForDelivery)
    else if name == "IN_DELIVERY" then Some(OrderStatus.InDelivery)
    else if name == "DELIVERED" then Some(OrderStatus.Delivered)
    else if name == "CANCELLED" then Some(OrderStatus.Cancelled)
    else None
  }

  function DeliveryStatusFromName(name: string): (r: Option<DeliveryStatus>)
    ensures r.Some? ==> DeliveryStatusName(r.value) == name
    ensures r.None? ==> forall s: DeliveryStatus :: DeliveryStatusName(s) != name
  {
    if name == "PENDING" then Some(DeliveryStatus.Pending)
    else if name == "ASSIGNED" then Some(DeliveryStatus.Assigned)
    else if name == "PICKED_UP" then Some(DeliveryStatus.PickedUp)
    else if name == "IN_TRANSIT" then Some(DeliveryStatus.InTransit)
    else if name == "DELIVERED" then Some(DeliveryStatus.Delivered)
    else if name == "FAILED" then Some(DeliveryStatus.Failed)
    else None
  }

  /** Every constant is listed. */
  lemma OrderStatusesListed()
    ensures forall s: OrderStatus :: s in AllOrderStatuses
  {
    forall s: OrderStatus ensures s in AllOrderStatuses {
      match s
      case Pending => assert AllOrderStatuses[0] == s;
      case Confirmed => assert AllOrderStatuses[1] == s;
      case Processing => assert AllOrderStatuses[2] == s;
      case ReadyForDelivery => assert AllOrderStatuses[3] == s;
      case InDelivery => assert AllOrderStatuses[4] == s;
      case Delivered => assert AllOrderStatuses[5] == s;
      case Cancelled => assert AllOrderStatuses[6] == s;
    }
  }

  lemma DeliveryStatusesListed()
    ensures forall s: DeliveryStatus :: s in AllDeliveryStatuses
  {
    forall s: DeliveryStatus ensures s in AllDeliveryStatuses {
      match s
      case Pending => assert AllDeliveryStatuses[0] == s;
      case Assigned => assert AllDeliveryStatuses[1] == s;
      case PickedUp => assert AllDeliveryStatuses[2] == s;
      case InTransit => assert AllDeliveryStatuses[3] == s;
      case Delivered => assert AllDeliveryStatuses[4] == s;
      case Failed => assert AllDeliveryStatuses[5] == s;
    }
  }

  /** `Object.values(OrderStatus).includes(name)`: some listed constant
      carries the name. */
  predicate ListedOrderName(name: string)
  {
    exists i :: 0 <= i < |AllOrderStatuses| && OrderStatusName(AllOrderStatuses[i]) == name
  }

  predicate ListedDeliveryName(name: string)
  {
    exists i :: 0 <= i < |AllDeliveryStatuses| && DeliveryStatusName(AllDeliveryStatuses[i]) == name
  }

  /** The list search and the name lookup agree on every string. */
  lemma {:induction false} ListedIffNamed(name: string)
    ensures ListedOrderName(name) <==> OrderStatusFromName(name).Some?
    ensures ListedDeliveryName(name) <==> DeliveryStatusFromName(name).Some?
  {
    var o := OrderStatusFromName(name);
    if o.Some? {
      OrderStatusesListed();
      assert o.value in AllOrderStatuses;
      var i :| 0 <= i < |AllOrderStatuses| && AllOrderStatuses[i] == o.value;
    }
    if ListedOrderName(name) {
      var i :| 0 <= i < |AllOrderStatuses| && OrderStatusName(AllOrderStatuses[i]) == name;
      OrderNamesRoundTrip(AllOrderStatuses[i]);
    }
    var d := DeliveryStatusFromName(name);
    if d.Some? {
      DeliveryStatusesListed();
      assert d.value in AllDeliveryStatuses;
      var i :| 0 <= i < |AllDeliveryStatuses| && AllDeliveryStatuses[i] == d.value;
    }
    if ListedDeliveryName(name) {
      var i :| 0 <= i < |AllDeliveryStatuses| && DeliveryStatusName(AllDeliveryStatuses[i]) == name;
      DeliveryNamesRoundTrip(AllDeliveryStatuses[i]);
    }
  }

  /** Every constant's wire name reads back to it. */
  lemma OrderNamesRoundTrip(s: OrderStatus)
    ensures OrderStatusFromName(OrderStatusName(s)) == Some(s)
  {
  }

  lemma DeliveryNamesRoundTrip(s: DeliveryStatus)
    ensures DeliveryStatusFromName(DeliveryStatusName(s)) == Some(s)
  {
  }
}
