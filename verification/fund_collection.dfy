/** The fund-collection page: each employee's status for the current month, the
    collected totals without double counting leavers, the headline figures, the
    six-month trend, the split by payment method and the payment-list filters. */
module FundCollection {
  import opened Base
  import opened Text
  import opened Calendar
  import opened Dues

  /** An `employees` row as the page reads it; `totalPaid` is `None` when the
      stored value reads as 0 or as no number. */
  datatype Employee = Employee(id: string, name: string, department: string,
                               leaveDate: Option<Date>, totalPaid: Option<int>)

  predicate HasLeft(e: Employee) {
    e.leaveDate.Some?
  }

  predicate Stays(e: Employee) {
    !HasLeft(e)
  }

  // ---------------------------------------------------------------------------
  // Status of the current month

  /** The employee with the status shown for the current month and the date
      shown as their last payment. */
  datatype Row = Row(employee: Employee, status: Status, lastPaymentDate: Option<Date>)

  /** The `YYYY-MM` key of the current month. */
  function CurrentKey(now: Now): string {
    MonthKey(now.date.year, now.date.month)
  }

  /** The payment lists `key` among the months it covers. */
  predicate Covers(p: Payment, key: string) {
    p.monthsCovered.Some? && key in p.monthsCovered.value
  }

  /** A leaver is completed, shown with their leave date. Anyone else is paid
      when one of their payments covers the current month or is dated after
      today, overdue when they have payments and every one is more than 45
      days old without covering the current month, and pending otherwise
      (also when they have no payment at all). The date shown is that of a
      latest payment. */
  function Classify(e: Employee, ps: seq<Payment>, now: Now): (r: Row)
    ensures r.employee == e
    ensures r.status == Completed <==> HasLeft(e)
    ensures HasLeft(e) ==> r.lastPaymentDate == e.leaveDate
    ensures !HasLeft(e) ==> r.status == Paid || r.status == Pending || r.status == Overdue
    ensures !HasLeft(e) ==>
      (r.status == Paid <==>
        exists p :: p in ps && p.employeeId == e.id && (Covers(p, CurrentKey(now)) || Day(p) > DayNumber(now.date)))
    ensures !HasLeft(e) ==>
      (r.status == Overdue <==>
        (exists p :: p in ps && p.employeeId == e.id)
        && forall p :: p in ps && p.employeeId == e.id ==>
             !Covers(p, CurrentKey(now)) && DayNumber(now.date) - Day(p) > 45)
    ensures !HasLeft(e) && r.lastPaymentDate.Some? ==>
      exists p :: p in ps && p.employeeId == e.id && p.date == r.lastPaymentDate
        && forall q :: q in ps && q.employeeId == e.id ==> Day(q) <= Day(p)
    ensures !HasLeft(e) && (forall p :: p in ps ==> p.employeeId != e.id) ==>
      r.status == Pending && r.lastPaymentDate.None?
    ensures !HasLeft(e) && r.lastPaymentDate.None? ==>
      (forall p :: p in ps ==> p.employeeId != e.id)
      || exists p :: p in ps && p.employeeId == e.id && p.date.None?
           && forall q :: q in ps && q.employeeId == e.id ==> Day(q) <= Day(p)
  {
    if HasLeft(e) then Row(e, Completed, e.leaveDate)
    else
      var mine := PaymentsOf(ps, e.id);
      var latest := LatestPayment(mine);
      var covered := exists p | p in mine :: Covers(p, CurrentKey(now));
      var status := if covered then Paid else Recency(latest, now);
      var shown := match latest { case None => None case Some(p) => p.date };
      StatusFacts(ps, e.id, now, latest, covered, status);
      ShownDateFacts(ps, e.id, latest, shown);
      Row(e, status, shown)
  }

  /** The status of someone who has not left, in terms of all payments. */
  lemma StatusFacts(ps: seq<Payment>, id: string, now: Now, latest: Option<Payment>, covered: bool, status: Status)
    requires latest == LatestPayment(PaymentsOf(ps, id))
    requires covered == exists p | p in PaymentsOf(ps, id) :: Covers(p, CurrentKey(now))
    requires status == if covered then Paid else Recency(latest, now)
    ensures status == Paid || status == Pending || status == Overdue
    ensures status == Paid <==>
      exists p :: p in ps && p.employeeId == id && (Covers(p, CurrentKey(now)) || Day(p) > DayNumber(now.date))
    ensures status == Overdue <==>
      (exists p :: p in ps && p.employeeId == id)
      && forall p :: p in ps && p.employeeId == id ==> !Covers(p, CurrentKey(now)) && DayNumber(now.date) - Day(p) > 45
    ensures (forall p :: p in ps ==> p.employeeId != id) ==> status == Pending
  {
  }

  /** The date shown for someone who has not left: that of a latest payment
      of theirs, missing when they have none or a latest one has no date. */
  lemma ShownDateFacts(ps: seq<Payment>, id: string, latest: Option<Payment>, shown: Option<Date>)
    requires latest == LatestPayment(PaymentsOf(ps, id))
    requires shown == match latest { case None => None case Some(p) => p.date }
    ensures shown.Some? ==>
      exists p :: p in ps && p.employeeId == id && p.date == shown
        && forall q :: q in ps && q.employeeId == id ==> Day(q) <= Day(p)
    ensures (forall p :: p in ps ==> p.employeeId != id) ==> shown.None?
    ensures shown.None? ==>
      (forall p :: p in ps ==> p.employeeId != id)
      || exists p :: p in ps && p.employeeId == id && p.date.None?
           && forall q :: q in ps && q.employeeId == id ==> Day(q) <= Day(p)
  {
  }

  /** Once an employee has a payment, recording another never worsens their
      status. (Without one they are pending, and a first payment more than 45
      days old makes them overdue.) */
  lemma NewPaymentNeverWorsens(e: Employee, ps: seq<Payment>, p: Payment, now: Now)
    requires !HasLeft(e)
    requires exists q :: q in ps && q.employeeId == e.id
    ensures Rank(Classify(e, ps + [p], now).status) >= Rank(Classify(e, ps, now).status)
  {
    var before := Classify(e, ps, now);
    var after := Classify(e, ps + [p], now);
    if before.status == Paid {
      var q :| q in ps && q.employeeId == e.id && (Covers(q, CurrentKey(now)) || Day(q) > DayNumber(now.date));
      assert q in ps + [p];
    } else if after.status == Overdue {
      assert forall q :: q in ps ==> q in ps + [p];
    }
  }

  /** The rows of the employee table, one per employee, in order. */
  function Rows(es: seq<Employee>, ps: seq<Payment>, now: Now): (rs: seq<Row>)
    ensures |rs| == |es|
    ensures forall i :: 0 <= i < |es| ==> rs[i] == Classify(es[i], ps, now)
  {
    seq(|es|, i requires 0 <= i < |es| => Classify(es[i], ps, now))
  }

  // ---------------------------------------------------------------------------
  // Collected totals

  /** What a leaver paid in total (`total_paid || 0`). */
  function RecordedTotal(e: Employee): int {
    e.totalPaid.GetOr(0)
  }

  function Amount(p: Payment): int {
    p.amount
  }

  /** Some employee with this id has left. */
  predicate PaidByLeaver(es: seq<Employee>, id: string) {
    exists e | e in es :: HasLeft(e) && e.id == id
  }

  /** Payments whose employee has not left. */
  function NotFromLeaver(es: seq<Employee>): Payment -> bool {
    (p: Payment) => !PaidByLeaver(es, p.employeeId)
  }

  /** Leavers count with their recorded totals; everyone else with the payments
      recorded for them. With nobody gone, that is every payment. */
  function TotalCollected(es: seq<Employee>, ps: seq<Payment>): (t: int)
    ensures (forall e :: e in es ==> !HasLeft(e)) ==> t == SumBy(ps, Amount)
  {
    assert (forall e :: e in es ==> !HasLeft(e)) ==>
      SumWhere(es, HasLeft, RecordedTotal) == 0 && SumWhere(ps, NotFromLeaver(es), Amount) == SumBy(ps, Amount) by {
      if forall e :: e in es ==> !HasLeft(e) {
        NoLeaverSums(es, ps);
      }
    }
    SumWhere(es, HasLeft, RecordedTotal) + SumWhere(ps, NotFromLeaver(es), Amount)
  }

  /** Recording a payment adds its amount to the total, unless it belongs to a
      leaver, whose recorded total already includes it. */
  lemma CollectedOnNewPayment(es: seq<Employee>, ps: seq<Payment>, p: Payment)
    ensures TotalCollected(es, ps + [p]) ==
      TotalCollected(es, ps) + (if PaidByLeaver(es, p.employeeId) then 0 else p.amount)
  {
    var keep := NotFromLeaver(es);
    SumWhereMasked(ps + [p], keep, Amount);
    SumWhereMasked(ps, keep, Amount);
    SumByAppend(ps, [p], Mask(keep, Amount));
  }

  /** With nobody gone, no recorded total is added and no payment is held back. */
  lemma NoLeaverSums(es: seq<Employee>, ps: seq<Payment>)
    requires forall e :: e in es ==> !HasLeft(e)
    ensures SumWhere(es, HasLeft, RecordedTotal) == 0
    ensures SumWhere(ps, NotFromLeaver(es), Amount) == SumBy(ps, Amount)
  {
    SumWhereNone(es, HasLeft, RecordedTotal);
    SumWhereMasked(ps, NotFromLeaver(es), Amount);
    SumByPointwise(ps, Mask(NotFromLeaver(es), Amount), Amount);
  }

  /** Months since year 0 of a payment's date, a missing date being the epoch's. */
  function MonthOrEpoch(p: Payment): Option<int> {
    Some(MonthIndex(DateOf(p)))
  }

  /** The payments dated in the month with index `k`, added up. */
  function MonthCollected(ps: seq<Payment>, k: int): int {
    SumWhere(ps, KeyIs(MonthOrEpoch, k), Amount)
  }

  /** Payments dated in the current calendar month and year. */
  function InCurrentMonth(now: Now): Payment -> bool {
    (p: Payment) => InMonth(DateOf(p), now.date.year, now.date.month)
  }

  /** This month's collection, which is the bucket of the current month index. */
  function CurrentMonthCollected(ps: seq<Payment>, now: Now): (r: int)
    ensures r == MonthCollected(ps, MonthIndex(now.date))
  {
    CurrentMonthIsBucket(ps, now);
    SumWhere(ps, InCurrentMonth(now), Amount)
  }

  /** A payment falls in the current calendar month exactly when its month
      index is the current one, so both filters add up the same payments. */
  lemma CurrentMonthIsBucket(ps: seq<Payment>, now: Now)
    ensures SumWhere(ps, InCurrentMonth(now), Amount) == MonthCollected(ps, MonthIndex(now.date))
  {
    var k := MonthIndex(now.date);
    SumWhereMasked(ps, InCurrentMonth(now), Amount);
    SumWhereMasked(ps, KeyIs(MonthOrEpoch, k), Amount);
    forall i | 0 <= i < |ps|
      ensures Mask(InCurrentMonth(now), Amount)(ps[i]) == Mask(KeyIs(MonthOrEpoch, k), Amount)(ps[i])
    {
      var d := DateOf(ps[i]);
      assert InCurrentMonth(now)(ps[i]) == InMonth(d, now.date.year, now.date.month);
      assert KeyIs(MonthOrEpoch, k)(ps[i]) == (MonthOrEpoch(ps[i]) == Some(k));
      assert MonthIndex(d) == k <==> InMonth(d, now.date.year, now.date.month) by {
        assert MonthIndex(d) / 12 == d.year && MonthIndex(d) % 12 + 1 == d.month;
        assert k / 12 == now.date.year && k % 12 + 1 == now.date.month;
      }
    }
    SumByPointwise(ps, Mask(InCurrentMonth(now), Amount), Mask(KeyIs(MonthOrEpoch, k), Amount));
  }

  // ---------------------------------------------------------------------------
  // Headline figures

  predicate IsActiveRow(r: Row) {
    !HasLeft(r.employee)
  }

  predicate IsPaid(r: Row) {
    r.status == Paid
  }

  predicate IsPending(r: Row) {
    r.status == Pending
  }

  predicate IsOverdue(r: Row) {
    r.status == Overdue
  }

  predicate IsCompleted(r: Row) {
    r.status == Completed
  }

  /** The amount expected from each active employee every month. */
  const ExpectedPerEmployee: int := 100000

  datatype Summary = Summary(totalCollected: int, currentMonthCollected: int,
                             active: nat, paid: nat, pending: nat, overdue: nat, completed: nat,
                             expectedMonthly: int, collectionRate: real, averagePayment: real,
                             outstanding: int)

  /** A staying employee whose row shows status `st`. */
  function StaysWith(ps: seq<Payment>, now: Now, st: Status): Employee -> bool {
    (e: Employee) => Stays(e) && Classify(e, ps, now).status == st
  }

  /** The page's figures. The counts are taken over the employees who have not
      left: how many there are, and how many of them show paid, pending and
      overdue; every leaver is completed. What is outstanding plus what the
      paid ones brought in is what is expected; the collection rate is a
      percentage. */
  function Summarize(es: seq<Employee>, ps: seq<Payment>, now: Now): (s: Summary)
    ensures s.active == CountBy(es, Stays)
    ensures s.paid == CountBy(es, StaysWith(ps, now, Paid))
    ensures s.pending == CountBy(es, StaysWith(ps, now, Pending))
    ensures s.overdue == CountBy(es, StaysWith(ps, now, Overdue))
    ensures s.paid + s.pending + s.overdue == s.active
    ensures s.active + s.completed == |es|
    ensures s.completed == CountBy(es, HasLeft)
    ensures s.expectedMonthly == s.active * ExpectedPerEmployee
    ensures s.outstanding + s.paid * ExpectedPerEmployee == s.expectedMonthly
    ensures s.collectionRate == Percent(s.paid, s.active) && 0.0 <= s.collectionRate <= 100.0
    ensures s.averagePayment == Average(s.totalCollected, |ps|)
    ensures s.totalCollected == TotalCollected(es, ps)
    ensures s.currentMonthCollected == MonthCollected(ps, MonthIndex(now.date))
  {
    var rows := Rows(es, ps, now);
    var active := Filter(rows, IsActiveRow);
    var paid := CountBy(active, IsPaid);
    var pending := CountBy(active, IsPending);
    var overdue := CountBy(active, IsOverdue);
    var completed := CountBy(rows, IsCompleted);
    var total := TotalCollected(es, ps);
    CountsAddUp(es, ps, now);
    StatusCounts(es, ps, now);
    Summary(total, CurrentMonthCollected(ps, now), |active|, paid, pending, overdue, completed,
            |active| * ExpectedPerEmployee, Percent(paid, |active|), Average(total, |ps|),
            pending * ExpectedPerEmployee + overdue * ExpectedPerEmployee)
  }

  /** `whole > 0 ? part / whole * 100 : 0`. */
  function Percent(part: int, whole: int): (r: real)
    ensures whole <= 0 ==> r == 0.0
    ensures whole > 0 ==> r * whole as real == part as real * 100.0
    ensures 0 <= part <= whole ==> 0.0 <= r <= 100.0
  {
    if whole > 0 then
      var q := part as real / whole as real;
      assert q * whole as real == part as real;
      assert 0 <= part <= whole ==> 0.0 <= q <= 1.0;
      q * 100.0
    else 0.0
  }

  /** `n > 0 ? total / n : 0`. */
  function Average(total: int, n: nat): (r: real)
    ensures n == 0 ==> r == 0.0
    ensures n > 0 ==> r * n as real == total as real
  {
    if n > 0 then total as real / n as real else 0.0
  }

  /** The status counts partition the employees. */
  lemma CountsAddUp(es: seq<Employee>, ps: seq<Payment>, now: Now)
    ensures var rows := Rows(es, ps, now);
      var active := Filter(rows, IsActiveRow);
      CountBy(active, IsPaid) + CountBy(active, IsPending) + CountBy(active, IsOverdue) == |active|
      && |active| + CountBy(rows, IsCompleted) == |es|
      && CountBy(rows, IsCompleted) == CountBy(es, HasLeft)
  {
    var rows := Rows(es, ps, now);
    var active := Filter(rows, IsActiveRow);
    forall i | 0 <= i < |active|
      ensures IsPaid(active[i]) || IsPending(active[i]) || IsOverdue(active[i])
    {
      assert active[i] in rows;
    }
    CountPartition(active, IsPaid, IsPending, IsOverdue);
    CountSplit(rows, IsActiveRow, IsCompleted);
    CountsMatch(es, rows, ps, now);
  }

  /** The page's counts over the rows of staying employees are counts over the
      employees themselves. */
  lemma StatusCounts(es: seq<Employee>, ps: seq<Payment>, now: Now)
    ensures var active := Filter(Rows(es, ps, now), IsActiveRow);
      && |active| == CountBy(es, Stays)
      && CountBy(active, IsPaid) == CountBy(es, StaysWith(ps, now, Paid))
      && CountBy(active, IsPending) == CountBy(es, StaysWith(ps, now, Pending))
      && CountBy(active, IsOverdue) == CountBy(es, StaysWith(ps, now, Overdue))
  {
    var rows := Rows(es, ps, now);
    CountRowsAs(es, rows, ps, now, IsActiveRow, Stays);
    CountFilter(rows, IsActiveRow, IsPaid);
    CountRowsAs(es, rows, ps, now, Both(IsActiveRow, IsPaid), StaysWith(ps, now, Paid));
    CountFilter(rows, IsActiveRow, IsPending);
    CountRowsAs(es, rows, ps, now, Both(IsActiveRow, IsPending), StaysWith(ps, now, Pending));
    CountFilter(rows, IsActiveRow, IsOverdue);
    CountRowsAs(es, rows, ps, now, Both(IsActiveRow, IsOverdue), StaysWith(ps, now, Overdue));
  }

  /** Counting rows with `pr` is counting the employees with `pe`, when `pe`
      holds of an employee exactly when `pr` holds of its row. */
  lemma {:induction false} CountRowsAs(es: seq<Employee>, rows: seq<Row>, ps: seq<Payment>, now: Now,
                                       pr: Row -> bool, pe: Employee -> bool)
    requires |rows| == |es|
    requires forall i :: 0 <= i < |es| ==> rows[i] == Classify(es[i], ps, now)
    requires forall e :: pe(e) == pr(Classify(e, ps, now))
    ensures CountBy(rows, pr) == CountBy(es, pe)
    decreases |es|
  {
    if |es| > 0 {
      CountRowsAs(es[1..], rows[1..], ps, now, pr, pe);
    }
  }

  lemma {:induction false} CountsMatch(es: seq<Employee>, rows: seq<Row>, ps: seq<Payment>, now: Now)
    requires |rows| == |es|
    requires forall i :: 0 <= i < |es| ==> rows[i] == Classify(es[i], ps, now)
    ensures CountBy(rows, IsCompleted) == CountBy(es, HasLeft)
    decreases |es|
  {
    if |es| > 0 {
      CountsMatch(es[1..], rows[1..], ps, now);
    }
  }

  // ---------------------------------------------------------------------------
  // Six-month trend

  /** One point of the trend: a month index and what was collected in it. */
  datatype TrendPoint = TrendPoint(month: int, collected: int)

  function Collected(t: TrendPoint): int {
    t.collected
  }

  function Point(ps: seq<Payment>, k: int): (t: TrendPoint) {
    TrendPoint(k, MonthCollected(ps, k))
  }

  /** The month `date.setMonth(date.getMonth() - i)` reaches from today: the
      day of the month is kept, so a day the target month lacks (the 31st in a
      30-day month, say) spills over into the following month. */
  function SetMonthBack(today: Date, i: int): (k: int)
    ensures k == MonthIndex(today) - i || k == MonthIndex(today) - i + 1
    ensures today.day <= 28 ==> k == MonthIndex(today) - i
  {
    var target := MonthIndex(today) - i;
    if today.day <= DaysInMonth(target / 12, target % 12 + 1) then target else target + 1
  }

  /** The points for `n - 1`, ..., 1, 0 months back, in that order. */
  function PointsBack(ps: seq<Payment>, today: Date, n: nat): (t: seq<TrendPoint>)
    ensures |t| == n
    ensures forall j :: 0 <= j < n ==> t[j] == Point(ps, SetMonthBack(today, n - 1 - j))
  {
    if n == 0 then [] else [Point(ps, SetMonthBack(today, n - 1))] + PointsBack(ps, today, n - 1)
  }

  /** The trend as the page computes it, oldest point first. */
  function TrendAsWritten(ps: seq<Payment>, now: Now): (t: seq<TrendPoint>)
    ensures |t| == 6
    ensures forall j :: 0 <= j < 6 ==> t[j] == Point(ps, SetMonthBack(now.date, 5 - j))
  {
    PointsBack(ps, now.date, 6)
  }

  /** On 31 October 2025 the page shows October twice and July twice, and
      September and June not at all. */
  lemma TrendAsWrittenSkipsMonths(ps: seq<Payment>)
    ensures var now: Now := Instant(CivilDate(2025, 10, 31), 0);
      var t := TrendAsWritten(ps, now);
      var october := MonthIndex(now.date);
      t[5].month == october && t[4].month == october
      && t[2].month == october - 3 && t[1].month == october - 3
      && forall j :: 0 <= j < 6 ==> t[j].month != october - 1 && t[j].month != october - 4
  {
    var now: Now := Instant(CivilDate(2025, 10, 31), 0);
    var october := MonthIndex(now.date);
    assert SetMonthBack(now.date, 0) == october;
    assert SetMonthBack(now.date, 1) == october;
    assert SetMonthBack(now.date, 2) == october - 2;
    assert SetMonthBack(now.date, 3) == october - 3;
    assert SetMonthBack(now.date, 4) == october - 3;
    assert SetMonthBack(now.date, 5) == october - 5;
  }

  /** The last six calendar months, oldest first, each with its collection:
      the month arithmetic is done on month indices, so no month is skipped. */
  function Trend(ps: seq<Payment>, now: Now): (t: seq<TrendPoint>)
    ensures |t| == 6
    ensures forall j :: 0 <= j < 6 ==> t[j] == Point(ps, MonthIndex(now.date) - 5 + j)
    ensures t[5].collected == CurrentMonthCollected(ps, now)
  {
    seq(6, j requires 0 <= j < 6 => Point(ps, MonthIndex(now.date) - 5 + j))
  }

  /** The months of the trend are six consecutive distinct months ending with
      the current one. */
  lemma TrendMonths(ps: seq<Payment>, now: Now)
    ensures forall j :: 0 <= j < 5 ==> Trend(ps, now)[j + 1].month == Trend(ps, now)[j].month + 1
    ensures Trend(ps, now)[5].month == MonthIndex(now.date)
    ensures forall i, j :: 0 <= i < j < 6 ==> Trend(ps, now)[i].month < Trend(ps, now)[j].month
  {
  }

  /** Before the 29th the page's trend is the intended one. */
  lemma TrendAsWrittenAgreesEarlyInMonth(ps: seq<Payment>, now: Now)
    requires now.date.day <= 28
    ensures TrendAsWritten(ps, now) == Trend(ps, now)
  {
  }

  /** The trend adds up to every payment dated in the six months it shows,
      each counted once. */
  lemma TrendTotal(ps: seq<Payment>, now: Now)
    ensures SumBy(Trend(ps, now), Collected)
         == SumWhere(ps, KeyIn(MonthOrEpoch, MonthIndex(now.date) - 5, 6), Amount)
  {
    var t := Trend(ps, now);
    SumOverKeysSeq(t, Collected, ps, MonthOrEpoch, Amount, MonthIndex(now.date) - 5, 6);
    assert t[..6] == t;
    SumOverKeysWindow(ps, MonthOrEpoch, Amount, MonthIndex(now.date) - 5, 6);
  }

  // ---------------------------------------------------------------------------
  // Payment methods

  function ViaMethod(m: string): Payment -> bool {
    (p: Payment) => p.paymentMethod == Some(m)
  }

  datatype MethodStats = MethodStats(cash: int, bankTransfer: int, eWallet: int)

  /** The amounts paid by cash, by bank transfer and by e-wallet. A payment
      naming none of the three is in none of the figures, so with no negative
      amount the figures never add up to more than all payments. */
  function MethodStatsOf(ps: seq<Payment>): (m: MethodStats)
    ensures (forall p :: p in ps ==> p.paymentMethod !in {Some("cash"), Some("bank_transfer"), Some("e_wallet")}) ==>
      m == MethodStats(0, 0, 0)
    ensures (forall p :: p in ps ==> p.amount >= 0) ==> m.cash + m.bankTransfer + m.eWallet <= SumBy(ps, Amount)
  {
    MethodSums(ps);
    MethodStats(SumWhere(ps, ViaMethod("cash"), Amount),
                SumWhere(ps, ViaMethod("bank_transfer"), Amount),
                SumWhere(ps, ViaMethod("e_wallet"), Amount))
  }

  /** The three method sums: zero when no payment names a method, and within
      the sum of all payments when no amount is negative. */
  lemma MethodSums(ps: seq<Payment>)
    ensures var c, b, w := ViaMethod("cash"), ViaMethod("bank_transfer"), ViaMethod("e_wallet");
      (forall p :: p in ps ==> p.paymentMethod !in {Some("cash"), Some("bank_transfer"), Some("e_wallet")}) ==>
        SumWhere(ps, c, Amount) == 0 && SumWhere(ps, b, Amount) == 0 && SumWhere(ps, w, Amount) == 0
    ensures var c, b, w := ViaMethod("cash"), ViaMethod("bank_transfer"), ViaMethod("e_wallet");
      (forall p :: p in ps ==> p.amount >= 0) ==>
        SumWhere(ps, c, Amount) + SumWhere(ps, b, Amount) + SumWhere(ps, w, Amount) <= SumBy(ps, Amount)
  {
    var c, b, w := ViaMethod("cash"), ViaMethod("bank_transfer"), ViaMethod("e_wallet");
    if forall p :: p in ps ==> p.paymentMethod !in {Some("cash"), Some("bank_transfer"), Some("e_wallet")} {
      forall i | 0 <= i < |ps| ensures !c(ps[i]) && !b(ps[i]) && !w(ps[i]) {
        assert ps[i] in ps;
      }
      SumWhereNone(ps, c, Amount);
      SumWhereNone(ps, b, Amount);
      SumWhereNone(ps, w, Amount);
    }
    if forall p :: p in ps ==> p.amount >= 0 {
      SumWhereMasked(ps, c, Amount);
      SumWhereMasked(ps, b, Amount);
      SumWhereMasked(ps, w, Amount);
      var cb := (p: Payment) => Mask(c, Amount)(p) + Mask(b, Amount)(p);
      var cbw := (p: Payment) => cb(p) + Mask(w, Amount)(p);
      SumByAdd(ps, Mask(c, Amount), Mask(b, Amount), cb);
      SumByAdd(ps, cb, Mask(w, Amount), cbw);
      forall i | 0 <= i < |ps| ensures cbw(ps[i]) <= Amount(ps[i]) {
        assert ps[i] in ps;
      }
      SumByMono(ps, cbw, Amount);
    }
  }

  /** Recording a payment adds its amount to the figure of the method it names
      and leaves the other two alone. */
  lemma MethodStatsOnNewPayment(ps: seq<Payment>, p: Payment)
    ensures var before, after := MethodStatsOf(ps), MethodStatsOf(ps + [p]);
      after.cash == before.cash + (if p.paymentMethod == Some("cash") then p.amount else 0) &&
      after.bankTransfer == before.bankTransfer + (if p.paymentMethod == Some("bank_transfer") then p.amount else 0) &&
      after.eWallet == before.eWallet + (if p.paymentMethod == Some("e_wallet") then p.amount else 0)
  {
    SumWhereSnoc(ps, p, ViaMethod("cash"), Amount);
    SumWhereSnoc(ps, p, ViaMethod("bank_transfer"), Amount);
    SumWhereSnoc(ps, p, ViaMethod("e_wallet"), Amount);
  }

  /** When every payment names one of the three methods, the three figures
      add up to all payments. */
  lemma MethodStatsCoverAll(ps: seq<Payment>)
    requires forall p :: p in ps ==> p.paymentMethod in {Some("cash"), Some("bank_transfer"), Some("e_wallet")}
    ensures var m := MethodStatsOf(ps); m.cash + m.bankTransfer + m.eWallet == SumBy(ps, Amount)
  {
    var c, b, w := ViaMethod("cash"), ViaMethod("bank_transfer"), ViaMethod("e_wallet");
    SumWhereMasked(ps, c, Amount);
    SumWhereMasked(ps, b, Amount);
    SumWhereMasked(ps, w, Amount);
    var cb := (p: Payment) => Mask(c, Amount)(p) + Mask(b, Amount)(p);
    SumByAdd(ps, Mask(c, Amount), Mask(b, Amount), cb);
    forall i | 0 <= i < |ps| ensures Amount(ps[i]) == cb(ps[i]) + Mask(w, Amount)(ps[i]) {
      assert ps[i] in ps;
    }
    SumByAdd(ps, cb, Mask(w, Amount), Amount);
  }

  // ---------------------------------------------------------------------------
  // Payment-list filters

  /** The employee table's search: name or department contains the search
      text, ignoring case. */
  function NameOrDepartmentHas(term: string): Employee -> bool {
    (e: Employee) => ContainsIgnoringCase(e.name, term) || ContainsIgnoringCase(e.department, term)
  }

  function FilterEmployees(es: seq<Employee>, term: string): (r: seq<Employee>)
    ensures forall e :: e in r <==> e in es && (ContainsIgnoringCase(e.name, term) || ContainsIgnoringCase(e.department, term))
    ensures Subseq(r, es)
  {
    Filter(es, NameOrDepartmentHas(term))
  }

  /** An empty search lists every employee, in order. */
  lemma EmptySearchListsAll(es: seq<Employee>)
    ensures FilterEmployees(es, "") == es
  {
    forall i | 0 <= i < |es| ensures NameOrDepartmentHas("")(es[i]) {
      EmptyContained(Lower(es[i].name));
    }
    FilterAll(es, NameOrDepartmentHas(""));
  }

  /** The list's filter controls: search text, method (`all` or a method),
      employee (`None` for all), date range (`all`, `today`, `week`, `month`)
      and month (`all` or `T1` … `T12`). */
  datatype Filters = Filters(search: string, paymentMethod: string, employeeId: Option<string>,
                             dateRange: string, month: string)

  /** Name, department or notes contain the search text, ignoring case; the
      name and department read `Unknown` when missing. */
  predicate MatchesSearch(p: Payment, term: string) {
    term == ""
    || ContainsIgnoringCase(TextOr(p.employeeName, "Unknown"), term)
    || ContainsIgnoringCase(TextOr(p.employeeDepartment, "Unknown"), term)
    || ContainsIgnoringCase(p.notes.GetOr(""), term)
  }

  /** A payment without a date passes; otherwise `today` keeps today's date,
      `week` and `month` keep dates no earlier than 7 and 30 days before now,
      and any other range keeps everything. */
  predicate MatchesDate(p: Payment, range: string, now: Now) {
    match p.date
    case None => true
    case Some(d) =>
      if range == "all" then true
      else if range == "today" then d == now.date
      else if range == "week" then DateMs(d) >= NowMs(now) - 7 * MsPerDay
      else if range == "month" then DateMs(d) >= NowMs(now) - 30 * MsPerDay
      else true
  }

  /** A payment without a date passes; otherwise its month must equal the
      number read from the filter with its first `T` dropped. */
  predicate MatchesMonth(p: Payment, month: string) {
    match p.date
    case None => true
    case Some(d) => month == "all" || ParseInt(DropFirst(month, 'T')) == Some(d.month)
  }

  predicate Matches(f: Filters, now: Now, p: Payment) {
    && MatchesSearch(p, f.search)
    && (f.paymentMethod == "all" || p.paymentMethod.GetOr("") == f.paymentMethod)
    && (f.employeeId.None? || p.employeeId == f.employeeId.value)
    && MatchesDate(p, f.dateRange, now)
    && MatchesMonth(p, f.month)
  }

  function Keeps(f: Filters, now: Now): Option<Payment> -> bool {
    (o: Option<Payment>) => o.Some? && Matches(f, now, o.value)
  }

  /** The payments listed: holes in the list are dropped, and what remains
      keeps its order. */
  function FilterPayments(ps: seq<Option<Payment>>, f: Filters, now: Now): (r: seq<Option<Payment>>)
    ensures forall o :: o in r <==> o in ps && o.Some? && Matches(f, now, o.value)
    ensures Subseq(r, ps)
  {
    Filter(ps, Keeps(f, now))
  }

  const NoFilters: Filters := Filters("", "all", None, "all", "all")

  /** With no filter set, every payment is listed. */
  lemma NoFiltersKeepAll(ps: seq<Option<Payment>>, now: Now)
    ensures forall o :: o in FilterPayments(ps, NoFilters, now) <==> o in ps && o.Some?
  {
  }

  /** Choosing month `Tn` lists the payments dated in month n (and those
      without a date). */
  lemma MonthFilterSelects(ps: seq<Option<Payment>>, now: Now, n: nat)
    requires 1 <= n <= 12
    ensures forall o :: o in FilterPayments(ps, NoFilters.(month := "T" + NatToString(n)), now) <==>
      o in ps && o.Some? && (o.value.date.None? || o.value.date.value.month == n)
  {
    var f := NoFilters.(month := "T" + NatToString(n));
    forall p: Payment ensures Matches(f, now, p) <==> p.date.None? || p.date.value.month == n {
      MonthKeyMatches(p, n);
    }
  }

  /** The month filter `Tn` keeps a payment exactly when it is dated in month n
      or has no date. */
  lemma MonthKeyMatches(p: Payment, n: nat)
    requires 1 <= n <= 12
    ensures MatchesMonth(p, "T" + NatToString(n)) <==> p.date.None? || p.date.value.month == n
  {
    DropLeading('T', NatToString(n));
    ParseIntNatToString(n);
    assert ("T" + NatToString(n)) == ['T'] + NatToString(n);
    assert "T" + NatToString(n) != "all";
  }

  /** The `week` range reaches back to the day seven days before today only
      at exactly midnight; otherwise it keeps today, the six days before and
      any later date. */
  lemma WeekRange(p: Payment, now: Now)
    requires p.date.Some?
    ensures MatchesDate(p, "week", now) <==>
      DayNumber(now.date) - DayNumber(p.date.value) <= 6
      || (DayNumber(now.date) - DayNumber(p.date.value) == 7 && now.msOfDay == 0)
  {
  }

  /** Likewise the `month` range covers 30 days back, the 30th only at midnight. */
  lemma MonthRange(p: Payment, now: Now)
    requires p.date.Some?
    ensures MatchesDate(p, "month", now) <==>
      DayNumber(now.date) - DayNumber(p.date.value) <= 29
      || (DayNumber(now.date) - DayNumber(p.date.value) == 30 && now.msOfDay == 0)
  {
  }
}
