/** The order tracking page: the check of the order id in the route, the
    normalisation of the tracking record and of the history entries the
    tracking client returns, the positions of the two steppers and the
    step labels. The values the client returns, and the current time used
    for missing dates, are inputs. */
module TrackingPage {
  import opened Wrappers
  import opened Seqs
  import opened Statuses
  import opened JsNumber
  import opened Json
  import opened ProductApi
  import Tracking

  // ----- The order id -----

  /** The message shown instead of fetching: a missing or empty id, or one
      that `Number` does not convert, is refused. */
  function OrderIdError(orderId: Option<string>): (r: Option<string>)
    ensures r.Some? ==> r.value == "Invalid order ID"
  {
    if orderId.None? || orderId.value == "" || NumberIsNaN(orderId.value) then Some("Invalid order ID")
    else None
  }

  /** The decimal numeral of any integer is accepted. */
  lemma {:induction false} NumeralIdAccepted(n: int)
    ensures OrderIdError(Some(IntToDecimal(n))) == None
  {
    DecimalIsNumber(n);
  }

  /** A numeral followed by letters is refused, although `parseInt` would
      read it. */
  lemma {:induction false} TrailingLettersRefused()
    ensures OrderIdError(Some("12abc")) == Some("Invalid order ID")
  {
    NumberRejectsTrailingCharacters();
  }

  /** An id of blanks is accepted: `Number` converts it to 0. */
  lemma {:induction false} BlankIdAccepted()
    ensures OrderIdError(Some(" ")) == None
  {
    assert TrimStart(" ") == TrimStart("");
  }

  // ----- Status normalisation -----

  /** A status read from the server: the enum constant if the value is one
      of the seven order status names, PENDING otherwise (absent values
      included). */
  function NormalizeOrderStatus(read: Option<Json>): (r: OrderStatus)
    ensures read.Some? && read.value.JStr? && OrderStatusFromName(read.value.s).Some? ==>
      OrderStatusName(r) == read.value.s
    ensures !(read.Some? && read.value.JStr? && OrderStatusFromName(read.value.s).Some?) ==> r == OrderStatus.Pending
  {
    if read.Some? && read.value.JStr? then
      match OrderStatusFromName(read.value.s)
      case Some(s) => s
      case None => OrderStatus.Pending
    else OrderStatus.Pending
  }

  /** The same for the six delivery status names. */
  function NormalizeDeliveryStatus(read: Option<Json>): (r: DeliveryStatus)
    ensures read.Some? && read.value.JStr? && DeliveryStatusFromName(read.value.s).Some? ==>
      DeliveryStatusName(r) == read.value.s
    ensures !(read.Some? && read.value.JStr? && DeliveryStatusFromName(read.value.s).Some?) ==> r == DeliveryStatus.Pending
  {
    if read.Some? && read.value.JStr? then
      match DeliveryStatusFromName(read.value.s)
      case Some(s) => s
      case None => DeliveryStatus.Pending
    else DeliveryStatus.Pending
  }

  /** A valid name is kept, so normalising a normalised status changes
      nothing. */
  lemma {:induction false} NormalizeKeepsNames(s: OrderStatus, d: DeliveryStatus)
    ensures NormalizeOrderStatus(Some(JStr(OrderStatusName(s)))) == s
    ensures NormalizeDeliveryStatus(Some(JStr(DeliveryStatusName(d)))) == d
  {
    OrderNamesRoundTrip(s);
    DeliveryNamesRoundTrip(d);
  }

  /** The normalisers decide as the page's `includes` tests over the
      enum values do: a string listed among the names is kept, and
      anything else becomes PENDING. */
  lemma {:induction false} NormalizeMirrorsIncludes(read: Option<Json>)
    ensures read.Some? && read.value.JStr? && ListedOrderName(read.value.s) ==>
      OrderStatusName(NormalizeOrderStatus(read)) == read.value.s
    ensures !(read.Some? && read.value.JStr? && ListedOrderName(read.value.s)) ==>
      NormalizeOrderStatus(read) == OrderStatus.Pending
    ensures read.Some? && read.value.JStr? && ListedDeliveryName(read.value.s) ==>
      DeliveryStatusName(NormalizeDeliveryStatus(read)) == read.value.s
    ensures !(read.Some? && read.value.JStr? && ListedDeliveryName(read.value.s)) ==>
      NormalizeDeliveryStatus(read) == DeliveryStatus.Pending
  {
    if read.Some? && read.value.JStr? {
      ListedIffNamed(read.value.s);
    }
  }

  // ----- The tracking record -----

  /** The properties the page writes over the spread of the record, in the
      order it writes them. */
  const InfoKeys: seq<string> := ["orderStatus", "deliveryStatus", "totalAmount", "orderDate",
                                  "customerName", "customerAddress", "carrierName", "carrierPhone"]

  /** Their values: the statuses normalised, a number or 0 for the total,
      and the server's value if truthy, else a default, for the rest. */
  function InfoValues(data: Json, now: string): (r: seq<Json>)
    requires !data.JNull?
    ensures |r| == |InfoKeys|
  {
    [JStr(OrderStatusName(NormalizeOrderStatus(Get(data, "orderStatus")))),
     JStr(DeliveryStatusName(NormalizeDeliveryStatus(Get(data, "deliveryStatus")))),
     JNum(NumberOrZero(Get(data, "totalAmount"))),
     OrElse(Get(data, "orderDate"), JStr(now)),
     OrElse(Get(data, "customerName"), JStr("N/A")),
     OrElse(Get(data, "customerAddress"), JStr("N/A")),
     OrElse(Get(data, "carrierName"), JStr("")),
     OrElse(Get(data, "carrierPhone"), JStr(""))]
  }

  function InfoProps(data: Json, now: string): (r: seq<(string, Json)>)
    requires !data.JNull?
    ensures Keys(r) == InfoKeys
  {
    Props(InfoKeys, InfoValues(data, now))
  }

  const NoTrackingData := "No tracking data received"
  const LoadFailure := "Failed to load order tracking information: "

  /** The record the page keeps: a copy of the server's record with the
      statuses normalised and the missing fields defaulted; an empty answer
      is an error. */
  function ProcessTrackingInfo(data: Json, now: string): (r: Result<seq<(string, Json)>>)
    ensures r.Err? <==> !Truthy(data)
    ensures r.Err? ==> r.error == NoTrackingData
  {
    if Truthy(data) then Ok(Assign(Spread(data), InfoProps(data, now)))
    else Err(NoTrackingData)
  }

  lemma InfoKeysDistinct()
    ensures Distinct(InfoKeys)
  {
    var k := InfoKeys;
    var tags := seq(8, i requires 0 <= i < 8 => (k[i][0], k[i][1], |k[i]|));
    assert tags == [('o', 'r', 11), ('d', 'e', 14), ('t', 'o', 11), ('o', 'r', 9),
                    ('c', 'u', 12), ('c', 'u', 15), ('c', 'a', 11), ('c', 'a', 12)];
    forall i, j | 0 <= i < j < 8 ensures k[i] != k[j] {
      assert tags[i] != tags[j];
    }
  }

  /** The order status of the kept record is an enum name: the server's
      if valid, PENDING otherwise. */
  lemma {:induction false} InfoOrderStatus(data: Json, now: string)
    requires Truthy(data)
    ensures Lookup(ProcessTrackingInfo(data, now).value, "orderStatus")
         == Some(JStr(OrderStatusName(NormalizeOrderStatus(Get(data, "orderStatus")))))
  {
    InfoReads(data, now, 0);
  }

  /** So is the delivery status, an absent one included. */
  lemma {:induction false} InfoDeliveryStatus(data: Json, now: string)
    requires Truthy(data)
    ensures Lookup(ProcessTrackingInfo(data, now).value, "deliveryStatus")
         == Some(JStr(DeliveryStatusName(NormalizeDeliveryStatus(Get(data, "deliveryStatus")))))
  {
    InfoReads(data, now, 1);
  }

  /** A total that is not a number reads 0; missing customer fields read
      'N/A' and missing carrier fields read ''. */
  lemma {:induction false} InfoDefaults(data: Json, now: string)
    requires Truthy(data)
    ensures var m := ProcessTrackingInfo(data, now).value;
      && Lookup(m, "totalAmount") == Some(JNum(NumberOrZero(Get(data, "totalAmount"))))
      && Lookup(m, "customerName") == Some(OrElse(Get(data, "customerName"), JStr("N/A")))
      && Lookup(m, "customerAddress") == Some(OrElse(Get(data, "customerAddress"), JStr("N/A")))
      && Lookup(m, "carrierName") == Some(OrElse(Get(data, "carrierName"), JStr("")))
      && Lookup(m, "carrierPhone") == Some(OrElse(Get(data, "carrierPhone"), JStr("")))
  {
    InfoReads(data, now, 2);
    InfoReads(data, now, 4);
    InfoReads(data, now, 5);
    InfoReads(data, now, 6);
    InfoReads(data, now, 7);
  }

  /** Each written property reads its value. */
  lemma {:induction false} InfoReads(data: Json, now: string, i: nat)
    requires Truthy(data) && i < |InfoKeys|
    ensures Lookup(ProcessTrackingInfo(data, now).value, InfoKeys[i]) == Some(InfoValues(data, now)[i])
  {
    var props := InfoProps(data, now);
    InfoKeysDistinct();
    AssignReads(Spread(data), props, i);
    assert props[i].0 == Keys(props)[i];
  }

  /** Every other field is copied from the server's record. */
  lemma {:induction false} InfoCopiesOthers(data: Json, now: string, key: string)
    requires Truthy(data) && key !in Keys(InfoProps(data, now))
    ensures Lookup(ProcessTrackingInfo(data, now).value, key) == Lookup(Spread(data), key)
  {
    AssignKeepsOthers(Spread(data), InfoProps(data, now), key);
  }

  // ----- The history -----

  function HistoryProps(item: Json, now: string): (r: seq<(string, Json)>)
    requires !item.JNull?
    ensures |r| == 4
  {
    [("orderStatus", JStr(OrderStatusName(NormalizeOrderStatus(Get(item, "orderStatus"))))),
     ("deliveryStatus", JStr(DeliveryStatusName(NormalizeDeliveryStatus(Get(item, "deliveryStatus"))))),
     ("timestamp", OrElse(Get(item, "timestamp"), JStr(now))),
     ("description", OrElse(Get(item, "description"), JStr("No description available")))]
  }

  /** One history entry as the page keeps it. */
  function HistoryEntry(item: Json, now: string): (r: seq<(string, Json)>)
    requires !item.JNull?
    ensures forall k :: k in Keys(Spread(item)) ==> k in Keys(r)
    ensures "orderStatus" in Keys(r) && "deliveryStatus" in Keys(r)
    ensures "timestamp" in Keys(r) && "description" in Keys(r)
  {
    var props := HistoryProps(item, now);
    assert Keys(props)[0] == "orderStatus" && Keys(props)[1] == "deliveryStatus";
    assert Keys(props)[2] == "timestamp" && Keys(props)[3] == "description";
    Assign(Spread(item), props)
  }

  /** The history the page keeps: nothing unless the answer is an array;
      a `null` entry makes the mapping throw, which also leaves nothing;
      otherwise one normalised entry per element, in order. */
  function ProcessHistory(data: Json, now: string): (r: seq<seq<(string, Json)>>)
    ensures !data.JArr? ==> r == []
    ensures data.JArr? && JNull in data.items ==> r == []
    ensures data.JArr? && JNull !in data.items ==>
      |r| == |data.items| && forall i :: 0 <= i < |r| ==> r[i] == HistoryEntry(data.items[i], now)
  {
    if !data.JArr? || JNull in data.items then []
    else seq(|data.items|, i requires 0 <= i < |data.items| => HistoryEntry(data.items[i], now))
  }

  /** Each kept entry has normalised statuses, and a timestamp and a
      description that are the server's if truthy: otherwise the current
      time and 'No description available'. */
  lemma {:induction false} HistoryEntryFields(item: Json, now: string)
    requires !item.JNull?
    ensures var m := HistoryEntry(item, now);
      && Lookup(m, "orderStatus") == Some(JStr(OrderStatusName(NormalizeOrderStatus(Get(item, "orderStatus")))))
      && Lookup(m, "deliveryStatus") == Some(JStr(DeliveryStatusName(NormalizeDeliveryStatus(Get(item, "deliveryStatus")))))
      && Lookup(m, "timestamp") == Some(OrElse(Get(item, "timestamp"), JStr(now)))
      && Lookup(m, "description") == Some(OrElse(Get(item, "description"), JStr("No description available")))
  {
    var props := HistoryProps(item, now);
    assert Keys(props) == ["orderStatus", "deliveryStatus", "timestamp", "description"];
    AssignReads(Spread(item), props, 0);
    AssignReads(Spread(item), props, 1);
    AssignReads(Spread(item), props, 2);
    AssignReads(Spread(item), props, 3);
  }

  // ----- The page -----

  /** What the page shows: the kept record, the history and the message. */
  datatype TrackingView = TrackingView(info: Option<seq<(string, Json)>>, history: seq<seq<(string, Json)>>, error: Option<string>)

  /** Loading the page: an invalid id fetches nothing; otherwise the record
      and the history are processed independently, and a missing record
      is reported. */
  function LoadTracking(orderId: Option<string>, infoData: Json, historyData: Json, now: string): (r: TrackingView)
    ensures OrderIdError(orderId).Some? ==> r == TrackingView(None, [], Some("Invalid order ID"))
    ensures OrderIdError(orderId).None? ==>
      && r.history == ProcessHistory(historyData, now)
      && (r.info.Some? <==> Truthy(infoData))
      && (r.error.Some? <==> !Truthy(infoData))
      && (r.error.Some? ==> r.error.value == LoadFailure + NoTrackingData)
  {
    if OrderIdError(orderId).Some? then TrackingView(None, [], OrderIdError(orderId))
    else
      var history := ProcessHistory(historyData, now);
      match ProcessTrackingInfo(infoData, now)
      case Ok(m) => TrackingView(Some(m), history, None)
      case Err(message) => TrackingView(None, history, Some(LoadFailure + message))
  }

  // ----- Steppers -----

  /** The position of the first `s` in `steps`. */
  function IndexOf<T(==)>(steps: seq<T>, s: T): (r: nat)
    requires s in steps
    ensures r < |steps| && steps[r] == s
    ensures forall j :: 0 <= j < r ==> steps[j] != s
  {
    if steps[0] == s then 0 else 1 + IndexOf(steps[1..], s)
  }

  /** The active step: the position of the status among the steps, or 0
      for a status that is not a step. */
  function StepIndex<T(==)>(steps: seq<T>, s: T): (r: nat)
    ensures s in steps ==> r < |steps| && steps[r] == s
    ensures s !in steps ==> r == 0
  {
    if s in steps then IndexOf(steps, s) else 0
  }

  /** The order stepper shows the six steps of the order chain. */
  function OrderStepIndex(s: OrderStatus): (r: nat)
    ensures r < |Tracking.OrderChain|
  {
    StepIndex(Tracking.OrderChain, s)
  }

  /** The delivery stepper shows the five steps of the delivery chain. */
  function DeliveryStepIndex(s: DeliveryStatus): (r: nat)
    ensures r < |Tracking.DeliveryChain|
  {
    StepIndex(Tracking.DeliveryChain, s)
  }

  /** Each chain status sits at its own position; CANCELLED is not a step
      and shows as the first one. */
  lemma {:induction false} OrderStepPositions(s: OrderStatus)
    ensures OrderStepIndex(s) == match s
      case Pending => 0 case Confirmed => 1 case Processing => 2 case ReadyForDelivery => 3
      case InDelivery => 4 case Delivered => 5 case Cancelled => 0
  {
    var c := Tracking.OrderChain;
    if s != OrderStatus.Cancelled {
      assert c[0] == OrderStatus.Pending && c[1] == OrderStatus.Confirmed && c[2] == OrderStatus.Processing;
      assert c[3] == OrderStatus.ReadyForDelivery && c[4] == OrderStatus.InDelivery && c[5] == OrderStatus.Delivered;
      assert s == c[0] || s == c[1] || s == c[2] || s == c[3] || s == c[4] || s == c[5];
    }
  }

  /** FAILED is not a step and shows as the first one. */
  lemma {:induction false} DeliveryStepPositions(s: DeliveryStatus)
    ensures DeliveryStepIndex(s) == match s
      case Pending => 0 case Assigned => 1 case PickedUp => 2 case InTransit => 3
      case Delivered => 4 case Failed => 0
  {
    var c := Tracking.DeliveryChain;
    if s != DeliveryStatus.Failed {
      assert c[0] == DeliveryStatus.Pending && c[1] == DeliveryStatus.Assigned && c[2] == DeliveryStatus.PickedUp;
      assert c[3] == DeliveryStatus.InTransit && c[4] == DeliveryStatus.Delivered;
      assert s == c[0] || s == c[1] || s == c[2] || s == c[3] || s == c[4];
    }
  }

  /** Two order statuses share a stepper position exactly when they are
      equal or are PENDING and CANCELLED. */
  lemma {:induction false} OrderStepsCollide(a: OrderStatus, b: OrderStatus)
    ensures OrderStepIndex(a) == OrderStepIndex(b) <==>
      a == b || (a in {OrderStatus.Pending, OrderStatus.Cancelled} && b in {OrderStatus.Pending, OrderStatus.Cancelled})
  {
    OrderStepPositions(a);
    OrderStepPositions(b);
  }

  // ----- Step labels -----

  /** `s.replace(c, d)` with a string pattern: only the first occurrence is
      replaced. */
  function ReplaceFirst(s: string, c: char, d: char): (r: string)
    ensures |r| == |s|
    ensures c !in s ==> r == s
  {
    if |s| == 0 then s
    else if s[0] == c then [d] + s[1..]
    else [s[0]] + ReplaceFirst(s[1..], c, d)
  }

  /** Character by character: the first occurrence of `c` becomes `d`,
      and every other character is kept. */
  lemma {:induction false} ReplaceFirstAt(s: string, c: char, d: char)
    ensures var r := ReplaceFirst(s, c, d);
      forall i :: 0 <= i < |s| ==> r[i] == if s[i] == c && c !in s[..i] then d else s[i]
    decreases |s|
  {
    if |s| > 0 && s[0] != c {
      var r := ReplaceFirst(s, c, d);
      ReplaceFirstAt(s[1..], c, d);
      forall i | 1 <= i < |s| ensures r[i] == if s[i] == c && c !in s[..i] then d else s[i] {
        assert s[..i] == [s[0]] + s[1..][..i-1];
      }
    }
  }

  /** Characters before the first occurrence are passed over. */
  lemma {:induction false} ReplaceFirstSkips(a: string, rest: string, c: char, d: char)
    requires c !in a
    ensures ReplaceFirst(a + rest, c, d) == a + ReplaceFirst(rest, c, d)
    decreases |a|
  {
    if |a| > 0 {
      assert (a + rest)[0] == a[0];
      assert (a + rest)[1..] == a[1..] + rest;
      ReplaceFirstSkips(a[1..], rest, c, d);
      assert a + ReplaceFirst(rest, c, d) == [a[0]] + (a[1..] + ReplaceFirst(rest, c, d));
    } else {
      assert a + rest == rest;
    }
  }

  /** Where `d` does not occur, replacing the first `d` of the result back
      by `c` restores the string. */
  lemma {:induction false} ReplaceFirstUndo(s: string, c: char, d: char)
    requires d !in s
    ensures ReplaceFirst(ReplaceFirst(s, c, d), d, c) == s
    decreases |s|
  {
    if |s| > 0 && s[0] != c {
      var rest := ReplaceFirst(s[1..], c, d);
      assert ([s[0]] + rest)[1..] == rest;
      ReplaceFirstUndo(s[1..], c, d);
      assert s == [s[0]] + s[1..];
    } else if |s| > 0 {
      assert ([d] + s[1..])[1..] == s[1..];
      assert s == [s[0]] + s[1..];
    }
  }

  /** `shown` is the label under a step for `name`: the name with its
      first underscore turned into a space and every other character
      kept. */
  predicate IsStepLabel(name: string, shown: string)
  {
    && |shown| == |name|
    && forall i :: 0 <= i < |name| ==> shown[i] == if name[i] == '_' && '_' !in name[..i] then ' ' else name[i]
  }

  /** The order stepper's shown for a status. */
  function StepLabel(s: OrderStatus): (r: string)
    ensures |r| == |OrderStatusName(s)|
    ensures '_' !in OrderStatusName(s) ==> r == OrderStatusName(s)
  {
    ReplaceFirst(OrderStatusName(s), '_', ' ')
  }

  /** The delivery stepper's shown for a status, by the same rule. */
  function DeliveryStepLabel(s: DeliveryStatus): (r: string)
    ensures |r| == |DeliveryStatusName(s)|
    ensures '_' !in DeliveryStatusName(s) ==> r == DeliveryStatusName(s)
  {
    ReplaceFirst(DeliveryStatusName(s), '_', ' ')
  }

  /** Both steppers' labels follow the rule character by character. */
  lemma {:induction false} StepLabelsAreLabels(s: OrderStatus, t: DeliveryStatus)
    ensures IsStepLabel(OrderStatusName(s), StepLabel(s))
    ensures IsStepLabel(DeliveryStatusName(t), DeliveryStepLabel(t))
  {
    ReplaceFirstAt(OrderStatusName(s), '_', ' ');
    ReplaceFirstAt(DeliveryStatusName(t), '_', ' ');
  }

  /** Names carry no spaces, so a label turns back into its name. */
  lemma {:induction false} StepLabelUndo(s: OrderStatus, t: DeliveryStatus)
    ensures ReplaceFirst(StepLabel(s), ' ', '_') == OrderStatusName(s)
    ensures ReplaceFirst(DeliveryStepLabel(t), ' ', '_') == DeliveryStatusName(t)
  {
    NamesHaveNoSpace(s, t);
    ReplaceFirstUndo(OrderStatusName(s), '_', ' ');
    ReplaceFirstUndo(DeliveryStatusName(t), '_', ' ');
  }

  /** No status name contains a space. */
  lemma {:induction false} NamesHaveNoSpace(s: OrderStatus, t: DeliveryStatus)
    ensures ' ' !in OrderStatusName(s) && ' ' !in DeliveryStatusName(t)
  {
  }


  /** Only the first underscore becomes a space. */
  lemma ReadyForDeliveryLabel()
    ensures StepLabel(OrderStatus.ReadyForDelivery) == "READY" + [' '] + "FOR_DELIVERY"
  {
    assert "READY" + "_FOR_DELIVERY" == "READY_FOR_DELIVERY";
    ReplaceFirstSkips("READY", "_FOR_DELIVERY", '_', ' ');
    assert "_FOR_DELIVERY"[1..] == "FOR_DELIVERY";
    assert ReplaceFirst("_FOR_DELIVERY", '_', ' ') == [' '] + "FOR_DELIVERY";
  }

  /** The two-word delivery statuses show with a space. */
  lemma PickedUpLabel()
    ensures DeliveryStepLabel(DeliveryStatus.PickedUp) == "PICKED" + [' '] + "UP"
  {
    assert "PICKED" + "_UP" == "PICKED_UP";
    ReplaceFirstSkips("PICKED", "_UP", '_', ' ');
    assert "_UP"[1..] == "UP";
  }

  lemma InTransitLabel()
    ensures DeliveryStepLabel(DeliveryStatus.InTransit) == "IN" + [' '] + "TRANSIT"
  {
    assert "IN" + "_TRANSIT" == "IN_TRANSIT";
    ReplaceFirstSkips("IN", "_TRANSIT", '_', ' ');
    assert "_TRANSIT"[1..] == "TRANSIT";
  }
}
