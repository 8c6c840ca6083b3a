/** The payment screen: payment records over a fixed mock list, the
    process and refund updates keyed by payment id, the status counts taken
    when the list is fetched, the action each status offers, and the
    status colour, method name and chip label shown for a payment. */
module Payments {
  import opened Wrappers
  import opened Seqs

  datatype PaymentStatus = Pending | Completed | Failed | Refunded

  datatype PaymentMethod = CreditCard | BankTransfer | PayPal | Cash

  /** A payment row; amounts are reals and the date is kept as its text. */
  datatype Payment = Payment(
    id: int,
    orderId: int,
    amount: real,
    status: PaymentStatus,
    via: PaymentMethod,
    date: string,
    customerName: string,
    reference: string)

  /** The status as the string union spells it. */
  function StatusName(s: PaymentStatus): string
  {
    match s
    case Pending => "pending"
    case Completed => "completed"
    case Failed => "failed"
    case Refunded => "refunded"
  }

  /** The five payments the screen loads in place of a server answer. */
  const MockPayments: seq<Payment> := [
    Payment(1, 1001, 245.99, Completed, CreditCard, "2025-05-20T14:30:00", "John Smith", "PAY-1001-XYZ"),
    Payment(2, 1002, 125.50, Pending, BankTransfer, "2025-05-21T09:15:00", "Sarah Johnson", "PAY-1002-ABC"),
    Payment(3, 1003, 78.25, Completed, PayPal, "2025-05-22T16:45:00", "Michael Brown", "PAY-1003-DEF"),
    Payment(4, 1004, 320.00, Failed, CreditCard, "2025-05-23T11:20:00", "Emily Wilson", "PAY-1004-GHI"),
    Payment(5, 1005, 95.75, Refunded, PayPal, "2025-05-19T13:10:00", "David Lee", "PAY-1005-JKL")
  ]

  // ----- Keyed status updates -----

  /** Every payment with id `id` gets status `s`; the list keeps its length
      and order, and every other payment and field is unchanged. */
  function SetStatus(ps: seq<Payment>, id: int, s: PaymentStatus): (r: seq<Payment>)
    ensures |r| == |ps|
    ensures forall i :: 0 <= i < |ps| ==> r[i].(status := ps[i].status) == ps[i]
    ensures forall i :: 0 <= i < |ps| ==> r[i].status == if ps[i].id == id then s else ps[i].status
  {
    seq(|ps|, i requires 0 <= i < |ps| => if ps[i].id == id then ps[i].(status := s) else ps[i])
  }

  /** `processPayment`: the payments with the id become completed. */
  function ProcessPayment(ps: seq<Payment>, id: int): (r: seq<Payment>)
    ensures |r| == |ps|
    ensures forall i :: 0 <= i < |ps| ==> r[i].(status := ps[i].status) == ps[i]
    ensures forall i :: 0 <= i < |ps| && ps[i].id == id ==> r[i].status == Completed
    ensures forall i :: 0 <= i < |ps| && ps[i].id != id ==> r[i] == ps[i]
  {
    SetStatus(ps, id, Completed)
  }

  /** `refundPayment`: the payments with the id become refunded. */
  function RefundPayment(ps: seq<Payment>, id: int): (r: seq<Payment>)
    ensures |r| == |ps|
    ensures forall i :: 0 <= i < |ps| ==> r[i].(status := ps[i].status) == ps[i]
    ensures forall i :: 0 <= i < |ps| && ps[i].id == id ==> r[i].status == Refunded
    ensures forall i :: 0 <= i < |ps| && ps[i].id != id ==> r[i] == ps[i]
  {
    SetStatus(ps, id, Refunded)
  }

  /** Updating an id that no payment carries changes nothing. */
  lemma {:induction false} SetStatusOfAbsentId(ps: seq<Payment>, id: int, s: PaymentStatus)
    requires forall i :: 0 <= i < |ps| ==> ps[i].id != id
    ensures SetStatus(ps, id, s) == ps
  {
    var r := SetStatus(ps, id, s);
    forall i | 0 <= i < |ps| ensures r[i] == ps[i] {
    }
  }

  /** A second update of the same id overrides the first: processing a
      payment twice is processing it once, and refunding after processing
      is refunding. */
  lemma {:induction false} SetStatusLastWins(ps: seq<Payment>, id: int, a: PaymentStatus, b: PaymentStatus)
    ensures SetStatus(SetStatus(ps, id, a), id, b) == SetStatus(ps, id, b)
  {
    var once := SetStatus(ps, id, a);
    var twice := SetStatus(once, id, b);
    var direct := SetStatus(ps, id, b);
    forall i | 0 <= i < |ps| ensures twice[i] == direct[i] {
      assert once[i].id == ps[i].id;
    }
  }

  // ----- Counts -----

  /** The filter test `p.status === s`. */
  function HasStatus(s: PaymentStatus): Payment -> bool
  {
    (p: Payment) => p.status == s
  }

  /** `data.filter(p => p.status === s).length`. */
  function Count(ps: seq<Payment>, s: PaymentStatus): (r: nat)
    ensures r <= |ps|
    ensures r == 0 <==> forall i :: 0 <= i < |ps| ==> ps[i].status != s
  {
    var kept := Filter(ps, HasStatus(s));
    assert forall i :: 0 <= i < |ps| && ps[i].status == s ==> ps[i] in kept;
    |kept|
  }

  /** 1 if the payment has status `s`, else 0. */
  function Tally(p: Payment, s: PaymentStatus): nat
  {
    if p.status == s then 1 else 0
  }

  /** The count of a non-empty list: its head's contribution plus the
      rest's. */
  lemma {:induction false} CountHead(ps: seq<Payment>, s: PaymentStatus)
    requires |ps| > 0
    ensures Count(ps, s) == Tally(ps[0], s) + Count(ps[1..], s)
  {
  }

  /** Every payment has exactly one of the four statuses, so the four
      counts add up to the number of payments. */
  lemma {:induction false} CountsSum(ps: seq<Payment>)
    ensures Count(ps, Completed) + Count(ps, Pending) + Count(ps, Failed) + Count(ps, Refunded) == |ps|
    decreases |ps|
  {
    if |ps| > 0 {
      CountHead(ps, Completed);
      CountHead(ps, Pending);
      CountHead(ps, Failed);
      CountHead(ps, Refunded);
      CountsSum(ps[1..]);
    }
  }

  /** The sum of the amounts (money as reals). */
  function TotalAmount(ps: seq<Payment>): real
  {
    if |ps| == 0 then 0.0 else ps[0].amount + TotalAmount(ps[1..])
  }

  /** The statistics cards. */
  datatype Stats = Stats(total: real, completed: nat, pending: nat, failed: nat, refunded: nat)

  /** The statistics of a list: its total amount and, per card, the number
      of payments with that card's status; the counts add up to the number
      of payments. */
  function StatsOf(ps: seq<Payment>): (r: Stats)
    ensures r.completed == Count(ps, Completed) && r.pending == Count(ps, Pending)
    ensures r.failed == Count(ps, Failed) && r.refunded == Count(ps, Refunded)
    ensures r.completed + r.pending + r.failed + r.refunded == |ps|
    ensures r.total == TotalAmount(ps)
  {
    CountsSum(ps);
    Stats(TotalAmount(ps), Count(ps, Completed), Count(ps, Pending), Count(ps, Failed), Count(ps, Refunded))
  }

  /** The screen's state: the listed payments and the cards. */
  datatype Page = Page(payments: seq<Payment>, stats: Stats)

  /** `fetchPayments`: the mock list, with the cards computed from it. */
  function FetchPayments(): (r: Page)
    ensures r.payments == MockPayments
    ensures r.stats == StatsOf(MockPayments)
  {
    Page(MockPayments, StatsOf(MockPayments))
  }

  /** The count over a list of five, payment by payment. */
  lemma {:induction false} CountOfFive(ps: seq<Payment>, s: PaymentStatus)
    requires |ps| == 5
    ensures Count(ps, s) == Tally(ps[0], s) + Tally(ps[1], s) + Tally(ps[2], s) + Tally(ps[3], s) + Tally(ps[4], s)
  {
    var a := ps[1..];
    var b := a[1..];
    var c := b[1..];
    var d := c[1..];
    assert a[0] == ps[1] && b[0] == ps[2] && c[0] == ps[3] && d[0] == ps[4];
    CountHead(d, s);
    assert Count(d[1..], s) == 0;
    CountHead(c, s);
    CountHead(b, s);
    CountHead(a, s);
    CountHead(ps, s);
  }

  /** A list whose ids and statuses are those of the mock list. */
  predicate MockShaped(ps: seq<Payment>)
  {
    && |ps| == 5
    && ps[0].id == 1 && ps[0].status == Completed
    && ps[1].id == 2 && ps[1].status == Pending
    && ps[2].id == 3 && ps[2].status == Completed
    && ps[3].id == 4 && ps[3].status == Failed
    && ps[4].id == 5 && ps[4].status == Refunded
  }

  /** The mock list has that shape. */
  lemma MockRows()
    ensures MockShaped(MockPayments)
  {
  }

  /** The cards of such a list: two completed, one pending, one failed
      and one refunded payment. */
  lemma {:induction false} MockShapedStats(ps: seq<Payment>)
    requires MockShaped(ps)
    ensures var st := StatsOf(ps);
      st.completed == 2 && st.pending == 1 && st.failed == 1 && st.refunded == 1
  {
    CountOfFive(ps, Completed);
    CountOfFive(ps, Pending);
    CountOfFive(ps, Failed);
    CountOfFive(ps, Refunded);
  }

  /** Processing payment 2 of such a list leaves no pending payment. */
  lemma {:induction false} MockShapedProcess(ps: seq<Payment>)
    requires MockShaped(ps)
    ensures Count(ProcessPayment(ps, 2), Pending) == 0
  {
    var after := ProcessPayment(ps, 2);
    assert after[0].status == Completed && after[1].status == Completed && after[2].status == Completed;
    assert after[3].status == Failed && after[4].status == Refunded;
    CountOfFive(after, Pending);
  }

  /** The mock list's cards. */
  lemma MockStats()
    ensures var st := FetchPayments().stats;
      st.completed == 2 && st.pending == 1 && st.failed == 1 && st.refunded == 1
  {
    MockRows();
    MockShapedStats(MockPayments);
  }

  // ----- Actions -----

  /** The buttons of a row. */
  datatype Action = Process | Refund | Retry

  /** The button a status offers: pending payments can be processed,
      completed ones refunded, failed ones retried, refunded ones nothing. */
  function OfferedAction(s: PaymentStatus): (r: Option<Action>)
    ensures r.None? <==> s == Refunded
  {
    match s
    case Pending => Some(Process)
    case Completed => Some(Refund)
    case Failed => Some(Retry)
    case Refunded => None
  }

  /** The status a button sets: Retry calls the same handler as Process. */
  function ActionTarget(a: Action): (r: PaymentStatus)
    ensures r == Completed || r == Refunded
  {
    match a
    case Process => Completed
    case Retry => Completed
    case Refund => Refunded
  }

  /** A status change a button on the screen can make. */
  predicate Move(from: PaymentStatus, to: PaymentStatus)
  {
    OfferedAction(from).Some? && ActionTarget(OfferedAction(from).value) == to
  }

  /** The moves are exactly pending to completed, failed to completed and
      completed to refunded. */
  lemma {:induction false} Moves(from: PaymentStatus, to: PaymentStatus)
    ensures Move(from, to) <==>
      || (from == Pending && to == Completed)
      || (from == Failed && to == Completed)
      || (from == Completed && to == Refunded)
  {
  }

  /** A refunded payment is final: no button moves it. */
  lemma {:induction false} RefundedIsFinal(to: PaymentStatus)
    ensures !Move(Refunded, to)
  {
  }

  /** Clicking the button of row `i`: its handler applied with the row's
      id, or nothing when the row offers no button. */
  function Click(ps: seq<Payment>, i: int): (r: seq<Payment>)
    requires 0 <= i < |ps|
    ensures |r| == |ps|
    ensures OfferedAction(ps[i].status).None? ==> r == ps
    ensures OfferedAction(ps[i].status).Some? ==> r[i].status == ActionTarget(OfferedAction(ps[i].status).value)
  {
    match OfferedAction(ps[i].status)
    case None => ps
    case Some(Process) => ProcessPayment(ps, ps[i].id)
    case Some(Retry) => ProcessPayment(ps, ps[i].id)
    case Some(Refund) => RefundPayment(ps, ps[i].id)
  }

  /** No two payments share an id. */
  predicate DistinctIds(ps: seq<Payment>)
  {
    forall i, j :: 0 <= i < j < |ps| ==> ps[i].id != ps[j].id
  }

  /** With distinct ids a click changes at most the clicked row, and only
      along a move. */
  lemma {:induction false} ClickFollowsMoves(ps: seq<Payment>, i: int, j: int)
    requires 0 <= i < |ps| && 0 <= j < |ps| && DistinctIds(ps)
    ensures j != i ==> Click(ps, i)[j] == ps[j]
    ensures Click(ps, i)[i].status != ps[i].status ==> Move(ps[i].status, Click(ps, i)[i].status)
    ensures Click(ps, i)[i].(status := ps[i].status) == ps[i]
  {
    assert j != i ==> ps[j].id != ps[i].id;
  }

  /** With a repeated id a click also reaches the other row: processing
      the pending payment 7 completes the refunded payment 7 as well, a
      change no button offers. */
  lemma SharedIdBypassesMoves()
    ensures
      var a := Payment(7, 1, 10.0, Pending, Cash, "", "", "");
      var b := Payment(7, 2, 20.0, Refunded, Cash, "", "", "");
      var r := Click([a, b], 0);
      r[1].status == Completed && !Move(Refunded, Completed)
  {
  }

  /** The cards keep the values of the fetch: after processing the
      pending mock payment the page still counts one pending payment,
      though none is left. */
  lemma StaleStatsAfterProcess()
    ensures
      var page := FetchPayments();
      var after := page.(payments := ProcessPayment(page.payments, 2));
      after.stats.pending == 1 && Count(after.payments, Pending) == 0
  {
    MockStats();
    MockRows();
    MockShapedProcess(MockPayments);
  }

  // ----- Display -----

  /** The chip colour of a status. */
  function StatusColor(s: PaymentStatus): (r: string)
    ensures r != "default"
  {
    match s
    case Completed => "success"
    case Pending => "warning"
    case Failed => "error"
    case Refunded => "info"
  }

  /** Distinct statuses get distinct colours. */
  lemma {:induction false} StatusColorInjective(a: PaymentStatus, b: PaymentStatus)
    ensures StatusColor(a) == StatusColor(b) ==> a == b
  {
    if a != b {
      assert StatusColor(a)[0] != StatusColor(b)[0];
    }
  }

  /** The method as the string union spells it. */
  function MethodName(m: PaymentMethod): string
  {
    match m
    case CreditCard => "credit_card"
    case BankTransfer => "bank_transfer"
    case PayPal => "paypal"
    case Cash => "cash"
  }

  /** The display name of a method; the raw-name fallback is never taken. */
  function MethodDisplay(m: PaymentMethod): (r: string)
    ensures r != MethodName(m)
  {
    match m
    case CreditCard => "Credit Card"
    case BankTransfer => "Bank Transfer"
    case PayPal => "PayPal"
    case Cash => "Cash"
  }

  /** Distinct methods get distinct display names. */
  lemma {:induction false} MethodDisplayInjective(a: PaymentMethod, b: PaymentMethod)
    ensures MethodDisplay(a) == MethodDisplay(b) ==> a == b
  {
    if a != b {
      assert MethodDisplay(a)[0] != MethodDisplay(b)[0] || |MethodDisplay(a)| != |MethodDisplay(b)|;
    }
  }

  /** `toUpperCase` on one character, for the ASCII letters of the status
      names. */
  function Upper(c: char): (r: char)
    ensures 'a' <= c <= 'z' ==> 'A' <= r <= 'Z' && r as int - c as int == 'A' as int - 'a' as int
    ensures !('a' <= c <= 'z') ==> r == c
  {
    if 'a' <= c <= 'z' then (c as int - 'a' as int + 'A' as int) as char else c
  }

  /** `s.charAt(0).toUpperCase() + s.slice(1)`: the first character
      upper-cased, the rest as it was; the empty string stays empty. */
  function Capitalize(s: string): (r: string)
    ensures |r| == |s|
    ensures |s| > 0 ==> r[0] == Upper(s[0]) && r[1..] == s[1..]
  {
    if |s| == 0 then "" else [Upper(s[0])] + s[1..]
  }

  /** Capitalizing twice is capitalizing once. */
  lemma {:induction false} CapitalizeIdempotent(s: string)
    ensures Capitalize(Capitalize(s)) == Capitalize(s)
  {
  }

  /** The chip label of a status. */
  function ChipLabel(s: PaymentStatus): (r: string)
    ensures |r| == |StatusName(s)|
    ensures 'A' <= r[0] <= 'Z'
  {
    Capitalize(StatusName(s))
  }

  /** The labels read Pending, Completed, Failed and Refunded, and tell
      the statuses apart. */
  lemma {:induction false} ChipLabels(a: PaymentStatus, b: PaymentStatus)
    ensures ChipLabel(Pending) == "Pending" && ChipLabel(Completed) == "Completed"
    ensures ChipLabel(Failed) == "Failed" && ChipLabel(Refunded) == "Refunded"
    ensures ChipLabel(a) == ChipLabel(b) ==> a == b
  {
    if a != b {
      assert ChipLabel(a)[0] != ChipLabel(b)[0] || |ChipLabel(a)| != |ChipLabel(b)|;
    }
  }
}
