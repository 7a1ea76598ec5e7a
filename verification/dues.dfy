/** What the pages share about monthly dues: a payment record, the payment
    statuses, the latest payment of a list, and the recency rule that turns
    the latest payment into paid, overdue or pending. */
module Dues {
  import opened Base
  import opened Calendar

  /** A `fund_payments` row with the employee's name and department joined in. */
  datatype Payment = Payment(id: string, employeeId: string, amount: int, date: Option<Date>,
                             monthsCovered: Option<seq<string>>, paymentMethod: Option<string>,
                             employeeName: Option<string>, employeeDepartment: Option<string>,
                             notes: Option<string>)

  /** The status shown for an employee's current month. */
  datatype Status = Paid | Pending | Overdue | Completed | Inactive

  /** How good a status is: paid above pending above the rest. */
  function Rank(s: Status): int {
    match s
    case Paid => 2
    case Pending => 1
    case _ => 0
  }

  /** The date `new Date(payment_date)` denotes: a missing date is the epoch. */
  function DateOf(p: Payment): Date {
    p.date.GetOr(Epoch)
  }

  function Day(p: Payment): int {
    DayNumber(DateOf(p))
  }

  /** The payments recorded for the employee with this id. */
  function OwnedBy(employeeId: string): Payment -> bool {
    (p: Payment) => p.employeeId == employeeId
  }

  /** The payments of one employee, in list order. */
  function PaymentsOf(ps: seq<Payment>, employeeId: string): (r: seq<Payment>)
    ensures forall p :: p in r <==> p in ps && p.employeeId == employeeId
    ensures Subseq(r, ps)
  {
    Filter(ps, OwnedBy(employeeId))
  }

  /** The first element of the list sorted newest first: the latest payment,
      and of several on the same latest day the earliest in the list (the sort
      is stable). */
  function Latest(ps: seq<Payment>): (r: Option<nat>)
    ensures r.None? <==> |ps| == 0
    ensures r.Some? ==> r.value < |ps|
    ensures r.Some? ==> forall j :: 0 <= j < |ps| ==> Day(ps[j]) <= Day(ps[r.value])
    ensures r.Some? ==> forall j :: 0 <= j < r.value ==> Day(ps[j]) < Day(ps[r.value])
    decreases |ps|
  {
    if |ps| == 0 then None
    else
      match Latest(ps[1..])
      case None => Some(0)
      case Some(k) =>
        assert forall j :: 1 <= j < |ps| ==> ps[j] == ps[1..][j - 1];
        if Day(ps[k + 1]) > Day(ps[0]) then Some(k + 1) else Some(0)
  }

  /** The latest payment itself. */
  function LatestPayment(ps: seq<Payment>): (r: Option<Payment>)
    ensures r.None? <==> |ps| == 0
    ensures r.Some? ==> r.value in ps && forall q :: q in ps ==> Day(q) <= Day(r.value)
  {
    match Latest(ps)
    case None => None
    case Some(k) => Some(ps[k])
  }

  /** Without a payment in the current month, the latest payment decides: one
      dated after now counts as paid, one more than 45 days old as overdue,
      anything else (also no payment at all) as pending. */
  function Recency(latest: Option<Payment>, now: Now): (s: Status)
    ensures s == Paid || s == Pending || s == Overdue
    ensures latest.None? ==> s == Pending
    ensures latest.Some? ==>
      (s == Paid <==> Day(latest.value) > DayNumber(now.date))
      && (s == Overdue <==> DayNumber(now.date) - Day(latest.value) > 45)
  {
    match latest
    case None => Pending
    case Some(p) =>
      IsAfterIffLaterDay(DateOf(p), now);
      if IsAfter(DateOf(p), now) then Paid
      else if DaysSince(now, DateOf(p)) > 45 then Overdue
      else Pending
  }

  /** A later latest payment never makes the status worse: overdue can only
      become pending or paid, pending only paid. */
  lemma RecencyMonotone(p: Payment, q: Payment, now: Now)
    requires Day(p) <= Day(q)
    ensures Recency(Some(p), now) == Paid ==> Recency(Some(q), now) == Paid
    ensures Recency(Some(q), now) == Overdue ==> Recency(Some(p), now) == Overdue
  {
  }
}
