/** The home dashboard: money collected and spent, the balance, the status
    counts, the twelve monthly buckets of the current year, the spending per
    category and the recent-activity list. */
module Dashboard {
  import opened Base
  import opened Text
  import opened Calendar
  import opened Dues
  import FundCollection
  import ExpenseLedger

  type Employee = FundCollection.Employee
  type RawExpense = ExpenseLedger.RawExpense

  // ---------------------------------------------------------------------------
  // Money in and out

  /** Everything collected: the recorded totals of all employees, leavers or
      not, so the leavers' part and the others' part together. */
  function Collected(es: seq<Employee>): (c: int)
    ensures c == SumWhere(es, FundCollection.HasLeft, FundCollection.RecordedTotal)
               + SumWhere(es, FundCollection.Stays, FundCollection.RecordedTotal)
    ensures (forall e :: e in es ==> FundCollection.RecordedTotal(e) >= 0) ==> c >= 0
  {
    LeaversAndStayers(es);
    SumBy(es, FundCollection.RecordedTotal)
  }

  /** Every employee has either left or not, so the recorded totals split into
      the two groups' sums; none negative, none of the sums is. */
  lemma LeaversAndStayers(es: seq<Employee>)
    ensures var total := FundCollection.RecordedTotal;
      SumBy(es, total) == SumWhere(es, FundCollection.HasLeft, total) + SumWhere(es, FundCollection.Stays, total)
    ensures (forall e :: e in es ==> FundCollection.RecordedTotal(e) >= 0) ==> SumBy(es, FundCollection.RecordedTotal) >= 0
  {
    var total := FundCollection.RecordedTotal;
    SumWhereMasked(es, FundCollection.HasLeft, total);
    SumWhereMasked(es, FundCollection.Stays, total);
    SumByAdd(es, Mask(FundCollection.HasLeft, total), Mask(FundCollection.Stays, total), total);
    if forall e :: e in es ==> total(e) >= 0 {
      assert forall i :: 0 <= i < |es| ==> es[i] in es;
      SumByNonNeg(es, total);
    }
  }

  /** `(net_amount ?? amount) || 0`. */
  function NetSpentOn(x: RawExpense): int {
    match x.net
    case Some(v) => v
    case None => x.amount.GetOr(0)
  }

  /** What was spent, which is the expenses page's net total. */
  function NetSpent(xs: seq<RawExpense>): (n: int)
    ensures n == ExpenseLedger.NetTotal(ExpenseLedger.NormalizeAll(xs))
  {
    NetSpentIsLedgerNet(xs);
    SumBy(xs, NetSpentOn)
  }

  /** Reading each row's net amount as the dashboard does gives the net
      amount of the row as the expenses page keeps it. */
  lemma {:induction false} NetSpentIsLedgerNet(xs: seq<RawExpense>)
    ensures SumBy(xs, NetSpentOn) == ExpenseLedger.NetTotal(ExpenseLedger.NormalizeAll(xs))
    decreases |xs|
  {
    if |xs| > 0 {
      NetSpentIsLedgerNet(xs[1..]);
      assert ExpenseLedger.NormalizeAll(xs)[1..] == ExpenseLedger.NormalizeAll(xs[1..]);
    }
  }

  /** The headline figures. */
  datatype Stats = Stats(totalCollected: int, totalExpenses: int, currentBalance: int,
                         activeEmployees: nat, paidThisMonth: nat, overdue: nat, pending: nat, completed: nat,
                         expectedMonthly: int, collectionRate: real, expenseRate: real)

  /** The balance is what came in less what went out; the status counts are
      those of the fund-collection page, taken over the employees who have not
      left; the expense rate is the share of the collected money spent, 0
      while nothing is collected. */
  function ComputeStats(es: seq<Employee>, ps: seq<Payment>, xs: seq<RawExpense>, now: Now): (s: Stats)
    ensures s.totalCollected == Collected(es) && s.totalExpenses == NetSpent(xs)
    ensures s.currentBalance == s.totalCollected - s.totalExpenses
    ensures var f := FundCollection.Summarize(es, ps, now);
      s.activeEmployees == f.active && s.paidThisMonth == f.paid && s.pending == f.pending
      && s.overdue == f.overdue && s.completed == f.completed
    ensures s.activeEmployees == CountBy(es, FundCollection.Stays)
    ensures s.paidThisMonth == CountBy(es, FundCollection.StaysWith(ps, now, Paid))
    ensures s.pending == CountBy(es, FundCollection.StaysWith(ps, now, Pending))
    ensures s.overdue == CountBy(es, FundCollection.StaysWith(ps, now, Overdue))
    ensures s.completed == CountBy(es, FundCollection.HasLeft)
    ensures s.paidThisMonth + s.pending + s.overdue == s.activeEmployees
    ensures s.activeEmployees + s.completed == |es|
    ensures s.expectedMonthly == s.activeEmployees * FundCollection.ExpectedPerEmployee
    ensures s.collectionRate == FundCollection.Percent(s.paidThisMonth, s.activeEmployees)
    ensures 0.0 <= s.collectionRate <= 100.0
    ensures s.expenseRate == FundCollection.Percent(s.totalExpenses, s.totalCollected)
  {
    var f := FundCollection.Summarize(es, ps, now);
    var collected := Collected(es);
    var spent := NetSpent(xs);
    Stats(collected, spent, collected - spent, f.active, f.paid, f.overdue, f.pending, f.completed,
          f.expectedMonthly, f.collectionRate, FundCollection.Percent(spent, collected))
  }

  // ---------------------------------------------------------------------------
  // The two pages' collected totals

  function IdsOf(es: seq<Employee>): (ids: seq<string>)
    ensures |ids| == |es|
    ensures forall i :: 0 <= i < |es| ==> ids[i] == es[i].id
  {
    seq(|es|, i requires 0 <= i < |es| => es[i].id)
  }

  /** What an employee's own payments add up to. */
  function OwnPayments(ps: seq<Payment>): Employee -> int {
    (e: Employee) => SumWhere(ps, OwnedBy(e.id), FundCollection.Amount)
  }

  /** Payments whose employee is among those in `es` who have not left. */
  function OwnerStays(es: seq<Employee>): Payment -> bool {
    (p: Payment) => exists e | e in es :: FundCollection.Stays(e) && e.id == p.employeeId
  }

  /** Adding up each staying employee's own payments adds up every payment
      made by a staying employee, once: ids are distinct. */
  lemma {:induction false} Regroup(es: seq<Employee>, ps: seq<Payment>)
    requires NoDups(IdsOf(es))
    ensures SumBy(es, Mask(FundCollection.Stays, OwnPayments(ps)))
         == SumWhere(ps, OwnerStays(es), FundCollection.Amount)
    decreases |es|
  {
    if |es| == 0 {
      SumWhereNone(ps, OwnerStays(es), FundCollection.Amount);
    } else {
      DistinctTail(es);
      Regroup(es[1..], ps);
      OwnersSplit(es, ps);
    }
  }

  /** Dropping the first employee keeps ids distinct, and nobody after it
      shares its id. */
  lemma DistinctTail(es: seq<Employee>)
    requires |es| > 0 && NoDups(IdsOf(es))
    ensures NoDups(IdsOf(es[1..]))
    ensures forall e :: e in es[1..] ==> e.id != es[0].id
  {
    var rest := es[1..];
    assert IdsOf(es)[1..] == IdsOf(rest);
    forall i, j | 0 <= i < j < |rest| ensures IdsOf(rest)[i] != IdsOf(rest)[j] {
      assert IdsOf(es)[i + 1] != IdsOf(es)[j + 1];
    }
    forall e | e in rest ensures e.id != es[0].id {
      var k :| 0 <= k < |rest| && rest[k] == e;
      assert IdsOf(es)[0] != IdsOf(es)[k + 1];
    }
  }

  /** The payments of staying employees are the first employee's own, if it
      stays, and those of the staying employees after it. */
  lemma OwnersSplit(es: seq<Employee>, ps: seq<Payment>)
    requires |es| > 0
    requires forall e :: e in es[1..] ==> e.id != es[0].id
    ensures SumWhere(ps, OwnerStays(es), FundCollection.Amount)
         == Mask(FundCollection.Stays, OwnPayments(ps))(es[0]) + SumWhere(ps, OwnerStays(es[1..]), FundCollection.Amount)
  {
    var e0, rest := es[0], es[1..];
    var f := FundCollection.Amount;
    SumWhereMasked(ps, OwnerStays(es), f);
    SumWhereMasked(ps, OwnerStays(rest), f);
    if FundCollection.Stays(e0) {
      SumWhereMasked(ps, OwnedBy(e0.id), f);
      forall i | 0 <= i < |ps|
        ensures Mask(OwnerStays(es), f)(ps[i]) == Mask(OwnedBy(e0.id), f)(ps[i]) + Mask(OwnerStays(rest), f)(ps[i])
      {
        var p := ps[i];
        assert OwnerStays(es)(p) <==> OwnedBy(e0.id)(p) || OwnerStays(rest)(p) by {
          assert forall e :: e in es <==> e == e0 || e in rest;
        }
      }
      SumByAdd(ps, Mask(OwnedBy(e0.id), f), Mask(OwnerStays(rest), f), Mask(OwnerStays(es), f));
    } else {
      forall i | 0 <= i < |ps|
        ensures Mask(OwnerStays(es), f)(ps[i]) == Mask(OwnerStays(rest), f)(ps[i])
      {
        var p := ps[i];
        assert OwnerStays(es)(p) <==> OwnerStays(rest)(p) by {
          assert forall e :: e in es <==> e == e0 || e in rest;
        }
      }
      SumByPointwise(ps, Mask(OwnerStays(es), f), Mask(OwnerStays(rest), f));
    }
  }

  /** When each staying employee's recorded total is the sum of their own
      payments, every payment belongs to a listed employee and ids are
      distinct, the dashboard's collected money is the fund-collection page's
      total. */
  lemma CollectedAgreesWithFundPage(es: seq<Employee>, ps: seq<Payment>)
    requires NoDups(IdsOf(es))
    requires forall e :: e in es && FundCollection.Stays(e) ==>
      FundCollection.RecordedTotal(e) == SumBy(PaymentsOf(ps, e.id), FundCollection.Amount)
    requires forall p :: p in ps ==> p.employeeId in IdsOf(es)
    ensures Collected(es) == FundCollection.TotalCollected(es, ps)
  {
    var total := FundCollection.RecordedTotal;
    SumWhereMasked(es, FundCollection.HasLeft, total);
    SumByAdd(es, Mask(FundCollection.HasLeft, total), Mask(FundCollection.Stays, total), total);
    forall i | 0 <= i < |es|
      ensures Mask(FundCollection.Stays, total)(es[i]) == Mask(FundCollection.Stays, OwnPayments(ps))(es[i])
    {
      assert es[i] in es;
    }
    SumByPointwise(es, Mask(FundCollection.Stays, total), Mask(FundCollection.Stays, OwnPayments(ps)));
    Regroup(es, ps);
    OwnerStaysAsFundPage(es, ps);
  }

  /** With distinct ids and every payment owned by a listed employee, "its
      owner stays" and the fund page's "not from a leaver" pick the same
      payments. */
  lemma OwnerStaysAsFundPage(es: seq<Employee>, ps: seq<Payment>)
    requires NoDups(IdsOf(es))
    requires forall p :: p in ps ==> p.employeeId in IdsOf(es)
    ensures SumWhere(ps, OwnerStays(es), FundCollection.Amount)
         == SumWhere(ps, FundCollection.NotFromLeaver(es), FundCollection.Amount)
  {
    forall i | 0 <= i < |ps|
      ensures OwnerStays(es)(ps[i]) == FundCollection.NotFromLeaver(es)(ps[i])
    {
      var p := ps[i];
      assert p in ps;
      var k :| 0 <= k < |es| && IdsOf(es)[k] == p.employeeId;
      assert forall e :: e in es && e.id == p.employeeId ==> e == es[k] by {
        forall e | e in es && e.id == p.employeeId ensures e == es[k] {
          var j :| 0 <= j < |es| && es[j] == e;
          assert IdsOf(es)[j] == IdsOf(es)[k];
        }
      }
    }
    SumWhereCongruent(ps, OwnerStays(es), FundCollection.NotFromLeaver(es), FundCollection.Amount);
  }

  // ---------------------------------------------------------------------------
  // The monthly chart

  /** One bar pair of the chart. */
  datatype ChartPoint = ChartPoint(month: string, collected: int, expenses: int)

  /** Payments that have a date in month `m` of year `y`. */
  function PaidIn(y: int, m: int): Payment -> bool {
    (p: Payment) => p.date.Some? && p.date.value.month == m && p.date.value.year == y
  }

  /** Expenses that have a date in month `m` of year `y`. */
  function SpentIn(y: int, m: int): RawExpense -> bool {
    (x: RawExpense) => x.expenseDate.Some? && x.expenseDate.value.month == m && x.expenseDate.value.year == y
  }

  /** Twelve points `T1` … `T12` for the months of the current year, each
      with the payments and the net spending dated in that month. */
  function MonthlyChart(ps: seq<Payment>, xs: seq<RawExpense>, now: Now): (c: seq<ChartPoint>)
    ensures |c| == 12
    ensures forall i :: 0 <= i < 12 ==> c[i].month == "T" + NatToString(i + 1)
    ensures forall i :: 0 <= i < 12 ==> c[i].collected == SumWhere(ps, PaidIn(now.date.year, i + 1), FundCollection.Amount)
    ensures forall i :: 0 <= i < 12 ==> c[i].expenses == SumWhere(xs, SpentIn(now.date.year, i + 1), NetSpentOn)
  {
    seq(12, i requires 0 <= i < 12 => MonthPoint(ps, xs, now.date.year, i + 1))
  }

  /** The point of month `m` of year `y`. */
  function MonthPoint(ps: seq<Payment>, xs: seq<RawExpense>, y: int, m: nat): (p: ChartPoint)
    ensures p.month == "T" + NatToString(m)
    ensures p.collected == SumWhere(ps, PaidIn(y, m), FundCollection.Amount)
    ensures p.expenses == SumWhere(xs, SpentIn(y, m), NetSpentOn)
  {
    ChartPoint("T" + NatToString(m), SumWhere(ps, PaidIn(y, m), FundCollection.Amount),
               SumWhere(xs, SpentIn(y, m), NetSpentOn))
  }

  /** The chart's labels read back as the month numbers 1 to 12 in order. */
  lemma ChartLabels(ps: seq<Payment>, xs: seq<RawExpense>, now: Now)
    ensures forall i :: 0 <= i < 12 ==>
      MonthlyChart(ps, xs, now)[i].month[0] == 'T'
      && ParseInt(MonthlyChart(ps, xs, now)[i].month[1..]) == Some(i + 1)
  {
    var c := MonthlyChart(ps, xs, now);
    forall i | 0 <= i < 12
      ensures c[i].month[0] == 'T' && ParseInt(c[i].month[1..]) == Some(i + 1)
    {
      LabelReadsBack(i + 1);
    }
  }

  /** `T` followed by a number reads back as that number after the `T`. */
  lemma LabelReadsBack(n: nat)
    ensures ("T" + NatToString(n))[0] == 'T'
    ensures ParseInt(("T" + NatToString(n))[1..]) == Some(n)
  {
    assert ("T" + NatToString(n))[1..] == NatToString(n);
    ParseIntNatToString(n);
  }

  /** The month index of a dated payment or expense. */
  function PaymentMonth(p: Payment): Option<int> {
    match p.date
    case Some(d) => Some(MonthIndex(d))
    case None => None
  }

  function ExpenseMonth(x: RawExpense): Option<int> {
    match x.expenseDate
    case Some(d) => Some(MonthIndex(d))
    case None => None
  }

  function CollectedOf(c: ChartPoint): int {
    c.collected
  }

  function ExpensesOf(c: ChartPoint): int {
    c.expenses
  }

  /** A date is in month `m` of year `y` exactly when its month index is `y * 12 + m - 1`. */
  lemma MonthIndexOfMonth(d: Date, y: int, m: int)
    requires 1 <= m <= 12
    ensures (d.month == m && d.year == y) <==> MonthIndex(d) == y * 12 + m - 1
  {
    var k := MonthIndex(d);
    assert k / 12 == d.year && k % 12 + 1 == d.month;
    var k' := y * 12 + m - 1;
    assert k' / 12 == y && k' % 12 + 1 == m;
  }

  lemma PaidInIsBucket(p: Payment, y: int, m: int)
    requires 1 <= m <= 12
    ensures PaidIn(y, m)(p) == KeyIs(PaymentMonth, y * 12 + m - 1)(p)
  {
    assert PaidIn(y, m)(p) == (p.date.Some? && p.date.value.month == m && p.date.value.year == y);
    assert KeyIs(PaymentMonth, y * 12 + m - 1)(p) == (PaymentMonth(p) == Some(y * 12 + m - 1));
    if p.date.Some? {
      MonthIndexOfMonth(p.date.value, y, m);
    }
  }

  lemma SpentInIsBucket(x: RawExpense, y: int, m: int)
    requires 1 <= m <= 12
    ensures SpentIn(y, m)(x) == KeyIs(ExpenseMonth, y * 12 + m - 1)(x)
  {
    assert SpentIn(y, m)(x) == (x.expenseDate.Some? && x.expenseDate.value.month == m && x.expenseDate.value.year == y);
    assert KeyIs(ExpenseMonth, y * 12 + m - 1)(x) == (ExpenseMonth(x) == Some(y * 12 + m - 1));
    if x.expenseDate.Some? {
      MonthIndexOfMonth(x.expenseDate.value, y, m);
    }
  }

  /** Each collected bar adds up the payments of one month: the bucket of
      its month index. */
  lemma ChartCollectedBuckets(ps: seq<Payment>, xs: seq<RawExpense>, now: Now)
    ensures forall i :: 0 <= i < 12 ==>
      MonthlyChart(ps, xs, now)[i].collected == SumWhere(ps, KeyIs(PaymentMonth, now.date.year * 12 + i), FundCollection.Amount)
  {
    var y := now.date.year;
    forall i | 0 <= i < 12
      ensures MonthlyChart(ps, xs, now)[i].collected == SumWhere(ps, KeyIs(PaymentMonth, y * 12 + i), FundCollection.Amount)
    {
      forall j | 0 <= j < |ps| ensures PaidIn(y, i + 1)(ps[j]) == KeyIs(PaymentMonth, y * 12 + i)(ps[j]) {
        PaidInIsBucket(ps[j], y, i + 1);
      }
      SumWhereCongruent(ps, PaidIn(y, i + 1), KeyIs(PaymentMonth, y * 12 + i), FundCollection.Amount);
    }
  }

  /** Each expense bar adds up the net spending of one month: the bucket of
      its month index. */
  lemma ChartSpentBuckets(ps: seq<Payment>, xs: seq<RawExpense>, now: Now)
    ensures forall i :: 0 <= i < 12 ==>
      MonthlyChart(ps, xs, now)[i].expenses == SumWhere(xs, KeyIs(ExpenseMonth, now.date.year * 12 + i), NetSpentOn)
  {
    var y := now.date.year;
    forall i | 0 <= i < 12
      ensures MonthlyChart(ps, xs, now)[i].expenses == SumWhere(xs, KeyIs(ExpenseMonth, y * 12 + i), NetSpentOn)
    {
      forall j | 0 <= j < |xs| ensures SpentIn(y, i + 1)(xs[j]) == KeyIs(ExpenseMonth, y * 12 + i)(xs[j]) {
        SpentInIsBucket(xs[j], y, i + 1);
      }
      SumWhereCongruent(xs, SpentIn(y, i + 1), KeyIs(ExpenseMonth, y * 12 + i), NetSpentOn);
    }
  }

  /** The collected bars add up to everything paid on dates in the current
      year; undated payments are in no bar. */
  lemma ChartYearCollected(ps: seq<Payment>, xs: seq<RawExpense>, now: Now)
    ensures SumBy(MonthlyChart(ps, xs, now), CollectedOf)
         == SumWhere(ps, KeyIn(PaymentMonth, now.date.year * 12, 12), FundCollection.Amount)
  {
    var c := MonthlyChart(ps, xs, now);
    ChartCollectedBuckets(ps, xs, now);
    SumOverWindow(c, CollectedOf, ps, PaymentMonth, FundCollection.Amount, now.date.year * 12);
  }

  /** The expense bars add up to the net spending on dates in the current
      year. */
  lemma ChartYearSpent(ps: seq<Payment>, xs: seq<RawExpense>, now: Now)
    ensures SumBy(MonthlyChart(ps, xs, now), ExpensesOf)
         == SumWhere(xs, KeyIn(ExpenseMonth, now.date.year * 12, 12), NetSpentOn)
  {
    var c := MonthlyChart(ps, xs, now);
    ChartSpentBuckets(ps, xs, now);
    SumOverWindow(c, ExpensesOf, xs, ExpenseMonth, NetSpentOn, now.date.year * 12);
  }

  // ---------------------------------------------------------------------------
  // Spending per category

  /** One category with the net spending in it. */
  datatype Entry = Entry(category: string, total: int)

  /** An expense's category, `other` when missing. */
  function CategoryOf(x: RawExpense): string {
    TextOr(x.category, "other")
  }

  function CategoryIs(k: string): RawExpense -> bool {
    (x: RawExpense) => CategoryOf(x) == k
  }

  function Keys(acc: seq<Entry>): (ks: seq<string>)
    ensures |ks| == |acc|
    ensures forall i :: 0 <= i < |acc| ==> ks[i] == acc[i].category
  {
    seq(|acc|, i requires 0 <= i < |acc| => acc[i].category)
  }

  function TotalOf(e: Entry): int {
    e.total
  }

  function KeyIndex(acc: seq<Entry>, k: string): (i: nat)
    requires k in Keys(acc)
    ensures i < |acc| && acc[i].category == k
    decreases |acc|
  {
    if acc[0].category == k then 0
    else
      assert Keys(acc)[1..] == Keys(acc[1..]);
      1 + KeyIndex(acc[1..], k)
  }

  /** `acc[k] = (acc[k] || 0) + v`: a known key is added to in place, a new
      one appended. */
  function AddTo(acc: seq<Entry>, k: string, v: int): (r: seq<Entry>)
    ensures Keys(r) == if k in Keys(acc) then Keys(acc) else Keys(acc) + [k]
    ensures SumBy(r, TotalOf) == SumBy(acc, TotalOf) + v
    ensures NoDups(Keys(acc)) ==> forall i :: 0 <= i < |acc| ==> r[i].total == acc[i].total + (if acc[i].category == k then v else 0)
    ensures k !in Keys(acc) ==> r[|acc|] == Entry(k, v)
  {
    if k in Keys(acc) then
      var i := KeyIndex(acc, k);
      var r := acc[i := Entry(k, acc[i].total + v)];
      SumByUpdate(acc, i, Entry(k, acc[i].total + v), TotalOf);
      assert Keys(r) == Keys(acc);
      r
    else
      var r := acc + [Entry(k, v)];
      SumByAppend(acc, [Entry(k, v)], TotalOf);
      assert Keys(r) == Keys(acc) + [k];
      r
  }

  /** The per-category totals, built one expense at a time in list order:
      distinct categories, exactly those of some expense, each holding the net
      spending in it, all together the whole net spending. */
  function Categories(xs: seq<RawExpense>): (r: seq<Entry>)
    ensures NoDups(Keys(r))
    ensures forall k :: k in Keys(r) <==> exists i :: 0 <= i < |xs| && CategoryOf(xs[i]) == k
    ensures forall j :: 0 <= j < |r| ==> r[j].total == SumWhere(xs, CategoryIs(r[j].category), NetSpentOn)
    ensures SumBy(r, TotalOf) == SumBy(xs, NetSpentOn)
    decreases |xs|
  {
    if |xs| == 0 then []
    else
      var init, x := xs[..|xs| - 1], xs[|xs| - 1];
      assert xs == init + [x];
      var acc := Categories(init);
      var k := CategoryOf(x);
      var r := AddTo(acc, k, NetSpentOn(x));
      StepTotals(init, x, acc, r);
      StepKeys(init, x, acc, r);
      StepSum(init, x, acc, r);
      r
  }

  /** One step of the fold adds the expense's net amount to the whole. */
  lemma StepSum(init: seq<RawExpense>, x: RawExpense, acc: seq<Entry>, r: seq<Entry>)
    requires SumBy(acc, TotalOf) == SumBy(init, NetSpentOn)
    requires r == AddTo(acc, CategoryOf(x), NetSpentOn(x))
    ensures SumBy(r, TotalOf) == SumBy(init + [x], NetSpentOn)
  {
    SumByAppend(init, [x], NetSpentOn);
  }

  /** After the step every entry holds the net spending in its category. */
  lemma StepTotals(init: seq<RawExpense>, x: RawExpense, acc: seq<Entry>, r: seq<Entry>)
    requires NoDups(Keys(acc))
    requires forall k :: k in Keys(acc) <==> exists i :: 0 <= i < |init| && CategoryOf(init[i]) == k
    requires forall j :: 0 <= j < |acc| ==> acc[j].total == SumWhere(init, CategoryIs(acc[j].category), NetSpentOn)
    requires r == AddTo(acc, CategoryOf(x), NetSpentOn(x))
    ensures forall j :: 0 <= j < |r| ==> r[j].total == SumWhere(init + [x], CategoryIs(r[j].category), NetSpentOn)
  {
    var k := CategoryOf(x);
    forall j | 0 <= j < |r| ensures r[j].total == SumWhere(init + [x], CategoryIs(r[j].category), NetSpentOn) {
      var c := r[j].category;
      SumWhereSnoc(init, x, CategoryIs(c), NetSpentOn);
      if j < |acc| {
        assert Keys(r)[j] == Keys(acc)[j];
      } else {
        assert c == k && k !in Keys(acc);
        AbsentCategory(init, c);
      }
    }
  }

  /** A category no expense has holds nothing. */
  lemma AbsentCategory(xs: seq<RawExpense>, c: string)
    requires !exists i :: 0 <= i < |xs| && CategoryOf(xs[i]) == c
    ensures SumWhere(xs, CategoryIs(c), NetSpentOn) == 0
  {
    forall i | 0 <= i < |xs| ensures !CategoryIs(c)(xs[i]) {
      assert CategoryIs(c)(xs[i]) == (CategoryOf(xs[i]) == c);
    }
    SumWhereNone(xs, CategoryIs(c), NetSpentOn);
  }

  /** After the step the keys are the categories of the longer list. */
  lemma StepKeys(init: seq<RawExpense>, x: RawExpense, acc: seq<Entry>, r: seq<Entry>)
    requires forall k :: k in Keys(acc) <==> exists i :: 0 <= i < |init| && CategoryOf(init[i]) == k
    requires r == AddTo(acc, CategoryOf(x), NetSpentOn(x))
    ensures forall k :: k in Keys(r) <==> exists i :: 0 <= i < |init + [x]| && CategoryOf((init + [x])[i]) == k
  {
    var xs := init + [x];
    forall c ensures c in Keys(r) <==> exists i :: 0 <= i < |xs| && CategoryOf(xs[i]) == c {
      if exists i :: 0 <= i < |xs| && CategoryOf(xs[i]) == c {
        var i :| 0 <= i < |xs| && CategoryOf(xs[i]) == c;
        if i < |init| {
          assert CategoryOf(init[i]) == c;
        }
      }
      if c in Keys(acc) {
        var i :| 0 <= i < |init| && CategoryOf(init[i]) == c;
        assert CategoryOf(xs[i]) == c;
      }
      assert CategoryOf(xs[|init|]) == CategoryOf(x);
    }
  }

  /** Every category's total is the net spending in that category. */
  lemma CategoryTotal(xs: seq<RawExpense>, k: string)
    requires k in Keys(Categories(xs))
    ensures Categories(xs)[KeyIndex(Categories(xs), k)].total == SumWhere(xs, CategoryIs(k), NetSpentOn)
  {
  }

  // ---------------------------------------------------------------------------
  // Recent activity

  /** A recent payment as read with its employee's name; `None` is `null`. */
  datatype RecentPayment = RecentPayment(id: Option<string>, employeeName: Option<string>, amount: Option<int>)

  datatype Kind = PaymentEntry | ExpenseEntry

  datatype Activity = Activity(id: string, kind: Kind, description: string, amount: int)

  /** `<name or Unknown Employee> nộp quỹ`, the payment's id or the time stamp. */
  function PaymentActivity(p: RecentPayment, stamp: string): (a: Activity)
    ensures a.kind == PaymentEntry && a.amount == p.amount.GetOr(0)
  {
    Activity(TextOr(p.id, stamp), PaymentEntry, TextOr(p.employeeName, "Unknown Employee") + " nộp quỹ",
             p.amount.GetOr(0))
  }

  /** The expense's description or `No description`, its gross amount. */
  function ExpenseActivity(x: RawExpense, stamp: string): (a: Activity)
    ensures a.kind == ExpenseEntry && a.amount == x.amount.GetOr(0)
  {
    Activity(if x.id == "" then stamp else x.id, ExpenseEntry, TextOr(x.description, "No description"),
             x.amount.GetOr(0))
  }

  function PaymentActivities(ps: seq<RecentPayment>, stamp: string): (r: seq<Activity>)
    ensures |r| == |ps|
    ensures forall i :: 0 <= i < |ps| ==> r[i] == PaymentActivity(ps[i], stamp)
    ensures forall a :: a in r ==> a.kind == PaymentEntry && exists p :: p in ps && a == PaymentActivity(p, stamp)
  {
    var r := seq(|ps|, i requires 0 <= i < |ps| => PaymentActivity(ps[i], stamp));
    assert forall i :: 0 <= i < |ps| ==> r[i] == PaymentActivity(ps[i], stamp) && ps[i] in ps;
    r
  }

  function ExpenseActivities(xs: seq<RawExpense>, stamp: string): (r: seq<Activity>)
    ensures |r| == |xs|
    ensures forall i :: 0 <= i < |xs| ==> r[i] == ExpenseActivity(xs[i], stamp)
    ensures forall a :: a in r ==> a.kind == ExpenseEntry && exists x :: x in xs && a == ExpenseActivity(x, stamp)
  {
    var r := seq(|xs|, i requires 0 <= i < |xs| => ExpenseActivity(xs[i], stamp));
    assert forall i :: 0 <= i < |xs| ==> r[i] == ExpenseActivity(xs[i], stamp) && xs[i] in xs;
    r
  }

  function Min(a: int, b: int): int {
    if a <= b then a else b
  }

  /** The first three recent payments, then the first two expenses, each
      `null` entry skipped; `stamp` stands for the time used as a missing id.
      The present entries of each prefix appear in their own order, payments
      first, and nothing else does. */
  function RecentActivities(recent: seq<Option<RecentPayment>>, expenses: seq<Option<RawExpense>>, stamp: string): (r: seq<Activity>)
    ensures var ps, xs := Present(recent[..Min(3, |recent|)]), Present(expenses[..Min(2, |expenses|)]);
      && |ps| <= 3 && |xs| <= 2
      && |r| == |ps| + |xs|
      && (forall i :: 0 <= i < |ps| ==> r[i] == PaymentActivity(ps[i], stamp))
      && (forall j :: 0 <= j < |xs| ==> r[|ps| + j] == ExpenseActivity(xs[j], stamp))
  {
    var ps, xs := Present(recent[..Min(3, |recent|)]), Present(expenses[..Min(2, |expenses|)]);
    var pa, xa := PaymentActivities(ps, stamp), ExpenseActivities(xs, stamp);
    pa + xa
  }

  /** With no `null` entries, the list is the first three payments in order
      followed by the first two expenses in order. */
  lemma RecentInOrder(recent: seq<Option<RecentPayment>>, expenses: seq<Option<RawExpense>>, stamp: string)
    requires forall i :: 0 <= i < |recent| ==> recent[i].Some?
    requires forall i :: 0 <= i < |expenses| ==> expenses[i].Some?
    ensures var r, n := RecentActivities(recent, expenses, stamp), Min(3, |recent|);
      && |r| == n + Min(2, |expenses|)
      && (forall i :: 0 <= i < n ==> r[i] == PaymentActivity(recent[i].value, stamp))
      && (forall j :: 0 <= j < Min(2, |expenses|) ==> r[n + j] == ExpenseActivity(expenses[j].value, stamp))
  {
    PresentPrefix(recent, Min(3, |recent|));
    PresentPrefix(expenses, Min(2, |expenses|));
  }

  /** The values of the first `n` entries, when none is `null`. */
  lemma PresentPrefix<T(!new)>(os: seq<Option<T>>, n: nat)
    requires n <= |os|
    requires forall i :: 0 <= i < |os| ==> os[i].Some?
    ensures |Present(os[..n])| == n && forall i :: 0 <= i < n ==> Present(os[..n])[i] == os[i].value
  {
    assert forall i :: 0 <= i < n ==> os[..n][i] == os[i];
  }

  /** A `null` entry among the first three payments is skipped without
      disturbing the others: the list is what the entries before and after it
      give, joined. */
  lemma RecentSkipsNull(before: seq<Option<RecentPayment>>, after: seq<Option<RecentPayment>>,
                        expenses: seq<Option<RawExpense>>, stamp: string)
    requires |before| + 1 + |after| <= 3
    ensures RecentActivities(before + [None] + after, expenses, stamp)
         == PaymentActivities(Present(before) + Present(after), stamp)
            + ExpenseActivities(Present(expenses[..Min(2, |expenses|)]), stamp)
  {
    var recent := before + [None] + after;
    assert recent[..Min(3, |recent|)] == recent;
    PresentAppend(before, [None]);
    PresentAppend(before + [None], after);
  }
}
