/** The employees page: the months each employee has paid for, the status
    shown for the current month, the search and status filter, the summary
    figures, and the rows written when an employee is saved. */
module EmployeeList {
  import opened Base
  import opened Text
  import opened Calendar
  import opened Dues
  import EmployeeForm

  /** An `employees` row as the page keeps it; the amounts are read with
      `Number`, which reads a missing value as 0. */
  datatype Employee = Employee(id: string, name: string, email: string, department: string,
                               status: string, monthly: int, totalPaid: int)

  // ---------------------------------------------------------------------------
  // Months paid

  /** `Math.round(total_paid / monthly_contribution_amount)`: the nearest
      whole number to the quotient, halves rounded up, that is
      `floor(total / monthly + 1/2)`; `None` when the quotient is not a
      finite number (a zero monthly amount). */
  function MonthsPaid(total: int, monthly: int): (r: Option<int>)
    ensures r.None? <==> monthly == 0
    ensures monthly > 0 ==> 2 * r.value * monthly - monthly <= 2 * total < 2 * r.value * monthly + monthly
    ensures monthly < 0 ==> 2 * r.value * monthly + monthly < 2 * total <= 2 * r.value * monthly - monthly
  {
    if monthly == 0 then None
    else
      var n := if monthly > 0 then 2 * total + monthly else -2 * total - monthly;
      var d := if monthly > 0 then 2 * monthly else -2 * monthly;
      var k := n / d;
      assert d * k <= n < d * k + d;
      Some(k)
  }

  /** The quotient is the one whole number whose multiples bracket `n`. */
  lemma DivUnique(n: int, d: int, k: int)
    requires d > 0 && d * k <= n < d * k + d
    ensures n / d == k
  {
    var r := n / d;
    assert d * r + n % d == n && 0 <= n % d < d;
    if r < k {
      NonNegProduct(d, k - r - 1);
    } else if r > k {
      NonNegProduct(d, r - k - 1);
    }
  }

  lemma NonNegProduct(a: int, b: int)
    requires a >= 0 && b >= 0
    ensures a * b >= 0
  {
  }

  /** Paying exactly k monthly amounts shows k months. */
  lemma MonthsPaidExact(k: int, monthly: int)
    requires monthly != 0
    ensures MonthsPaid(k * monthly, monthly) == Some(k)
  {
    if monthly > 0 {
      DivUnique(2 * (k * monthly) + monthly, 2 * monthly, k);
    } else {
      DivUnique(-2 * (k * monthly) - monthly, -2 * monthly, k);
    }
  }

  // ---------------------------------------------------------------------------
  // Status of the current month

  /** The payment is dated in the current calendar month (`new Date(null)` is
      the epoch). */
  predicate InCurrentMonth(p: Payment, now: Now) {
    InMonth(DateOf(p), now.date.year, now.date.month)
  }

  /** A date in the current month is at most 30 days old. */
  lemma CurrentMonthIsRecent(d: Date, now: Now)
    requires InMonth(d, now.date.year, now.date.month)
    ensures DayNumber(now.date) - DayNumber(d) <= 30
  {
    DayInMonth(d);
    DayInMonth(now.date);
  }

  /** The employee with the months paid and the status shown. */
  datatype Row = Row(employee: Employee, monthsPaid: Option<int>, status: Status)

  /** Anyone marked inactive is inactive. Anyone else is paid when one of
      their payments is dated in the current month or after today, overdue
      when they have payments and every one is more than 45 days old, and
      pending otherwise (also without any payment). */
  function ClassifyListed(e: Employee, ps: seq<Payment>, now: Now): (r: Row)
    ensures r.employee == e && r.monthsPaid == MonthsPaid(e.totalPaid, e.monthly)
    ensures r.status == Inactive <==> e.status == "inactive"
    ensures r.status != Completed
    ensures e.status != "inactive" ==>
      (r.status == Paid <==>
        exists p :: p in ps && p.employeeId == e.id && (InCurrentMonth(p, now) || Day(p) > DayNumber(now.date)))
    ensures e.status != "inactive" ==>
      (r.status == Overdue <==>
        (exists p :: p in ps && p.employeeId == e.id)
        && forall p :: p in ps && p.employeeId == e.id ==> DayNumber(now.date) - Day(p) > 45)
  {
    if e.status == "inactive" then Row(e, MonthsPaid(e.totalPaid, e.monthly), Inactive)
    else
      var mine := PaymentsOf(ps, e.id);
      var status :=
        if exists p | p in mine :: InCurrentMonth(p, now) then Paid
        else Recency(LatestPayment(mine), now);
      StatusMeaning(e, ps, now, mine, status);
      Row(e, MonthsPaid(e.totalPaid, e.monthly), status)
  }

  lemma StatusMeaning(e: Employee, ps: seq<Payment>, now: Now, mine: seq<Payment>, status: Status)
    requires mine == PaymentsOf(ps, e.id)
    requires e.status != "inactive"
    requires status == if exists p | p in mine :: InCurrentMonth(p, now) then Paid
                       else Recency(LatestPayment(mine), now)
    ensures status == Paid <==>
      exists p :: p in ps && p.employeeId == e.id && (InCurrentMonth(p, now) || Day(p) > DayNumber(now.date))
    ensures status == Overdue <==>
      (exists p :: p in ps && p.employeeId == e.id)
      && forall p :: p in ps && p.employeeId == e.id ==> DayNumber(now.date) - Day(p) > 45
  {
    var today := DayNumber(now.date);
    if exists p | p in mine :: InCurrentMonth(p, now) {
      var p :| p in mine && InCurrentMonth(p, now);
      CurrentMonthIsRecent(DateOf(p), now);
    } else {
      var latest := LatestPayment(mine);
      if latest.Some? {
        var l := latest.value;
        if status == Paid {
          assert l in ps && l.employeeId == e.id;
        }
        if (exists p :: p in ps && p.employeeId == e.id && (InCurrentMonth(p, now) || Day(p) > today)) {
          var p :| p in ps && p.employeeId == e.id && (InCurrentMonth(p, now) || Day(p) > today);
          assert p in mine;
        }
        if status == Overdue {
          assert l in ps && l.employeeId == e.id;
        }
        if (exists p :: p in ps && p.employeeId == e.id)
          && forall p :: p in ps && p.employeeId == e.id ==> today - Day(p) > 45 {
          assert l in ps && l.employeeId == e.id;
        }
      } else {
        assert forall p :: p in ps && p.employeeId == e.id ==> p in mine;
      }
    }
  }

  /** Once an employee has a payment, recording another never worsens the
      status shown. */
  lemma NewPaymentNeverWorsens(e: Employee, ps: seq<Payment>, p: Payment, now: Now)
    requires exists q :: q in ps && q.employeeId == e.id
    ensures Rank(ClassifyListed(e, ps + [p], now).status) >= Rank(ClassifyListed(e, ps, now).status)
  {
    var before := ClassifyListed(e, ps, now);
    var after := ClassifyListed(e, ps + [p], now);
    if e.status != "inactive" {
      if before.status == Paid {
        var q :| q in ps && q.employeeId == e.id && (InCurrentMonth(q, now) || Day(q) > DayNumber(now.date));
        assert q in ps + [p];
      } else if after.status == Overdue {
        assert forall q :: q in ps ==> q in ps + [p];
      }
    }
  }

  function Rows(es: seq<Employee>, ps: seq<Payment>, now: Now): (rs: seq<Row>)
    ensures |rs| == |es|
    ensures forall i :: 0 <= i < |es| ==> rs[i] == ClassifyListed(es[i], ps, now)
  {
    seq(|es|, i requires 0 <= i < |es| => ClassifyListed(es[i], ps, now))
  }

  // ---------------------------------------------------------------------------
  // Search and status filter

  /** The search text occurs, ignoring case, in the name, the e-mail address
      or the department. */
  predicate MatchesSearch(e: Employee, search: string) {
    ContainsIgnoringCase(e.name, search) || ContainsIgnoringCase(e.email, search)
    || ContainsIgnoringCase(e.department, search)
  }

  predicate MatchesStatus(e: Employee, filter: string) {
    filter == "all" || e.status == filter
  }

  function Shown(search: string, filter: string): Row -> bool {
    (r: Row) => MatchesSearch(r.employee, search) && MatchesStatus(r.employee, filter)
  }

  /** The rows listed: those matching the search and the status filter, in order. */
  function FilterRows(rows: seq<Row>, search: string, filter: string): (r: seq<Row>)
    ensures forall x :: x in r <==> x in rows && MatchesSearch(x.employee, search) && MatchesStatus(x.employee, filter)
    ensures Subseq(r, rows)
  {
    Filter(rows, Shown(search, filter))
  }

  /** An empty search with the `all` filter lists every row. */
  lemma NoFilterListsAll(rows: seq<Row>)
    ensures FilterRows(rows, "", "all") == rows
  {
    forall i | 0 <= i < |rows| ensures Shown("", "all")(rows[i]) {
      EmptyContained(Lower(rows[i].employee.name));
    }
    FilterAll(rows, Shown("", "all"));
  }

  // ---------------------------------------------------------------------------
  // Summary

  predicate IsActive(r: Row) {
    r.employee.status == "active"
  }

  predicate IsMarkedInactive(r: Row) {
    r.employee.status == "inactive"
  }

  predicate IsPaid(r: Row) {
    r.status == Paid
  }

  predicate IsOverdue(r: Row) {
    r.status == Overdue
  }

  predicate IsNeither(r: Row) {
    !IsPaid(r) && !IsOverdue(r)
  }

  function TotalPaidOf(r: Row): int {
    r.employee.totalPaid
  }

  datatype Summary = Summary(totalEmployees: nat, totalCollected: int, paidThisMonth: nat, overdueCount: nat)

  /** The active count counts status `active`, the collected money adds up
      every row's `total_paid`; the paid and overdue counts are taken over all
      rows, and nobody marked inactive is among them. */
  function Summarize(rows: seq<Row>): (s: Summary)
    requires forall i :: 0 <= i < |rows| ==> (rows[i].status == Inactive <==> IsMarkedInactive(rows[i]))
    ensures s.totalEmployees == CountBy(rows, IsActive)
    ensures s.totalCollected == SumBy(rows, TotalPaidOf)
    ensures s.paidThisMonth == CountBy(rows, IsPaid) && s.overdueCount == CountBy(rows, IsOverdue)
    ensures s.paidThisMonth + s.overdueCount + CountBy(rows, IsMarkedInactive) <= |rows|
    ensures s.totalEmployees + CountBy(rows, IsMarkedInactive) <= |rows|
  {
    var paid, overdue := CountBy(rows, IsPaid), CountBy(rows, IsOverdue);
    CountPartition(rows, IsPaid, IsOverdue, IsNeither);
    CountMono(rows, IsMarkedInactive, IsNeither);
    CountSplit(rows, IsMarkedInactive, (r: Row) => !IsMarkedInactive(r));
    CountMono(rows, IsActive, (r: Row) => !IsMarkedInactive(r));
    Summary(CountBy(rows, IsActive), SumBy(rows, TotalPaidOf), paid, overdue)
  }

  /** The page's rows always meet the summary's requirement. */
  lemma RowsSummarize(es: seq<Employee>, ps: seq<Payment>, now: Now)
    ensures var rows := Rows(es, ps, now);
      forall i :: 0 <= i < |rows| ==> (rows[i].status == Inactive <==> IsMarkedInactive(rows[i]))
  {
  }

  // ---------------------------------------------------------------------------
  // Saving

  /** The columns written; `None` is an absent key. */
  datatype Payload = Payload(name: string, email: string, phone: string, department: string, monthly: int,
                             joinDate: Option<Date>, status: string, leaveDate: Option<Date>, totalPaid: Option<int>)

  datatype Write = UpdateEmployee(id: string, payload: Payload) | InsertEmployee(payload: Payload)

  /** The seven form columns; a leave date only when one is given; on update
      `total_paid` only when the form computed it, on insert always, 0 when
      it did not. */
  function Save(s: EmployeeForm.Submission, editing: Option<string>): (w: Write)
    ensures w.UpdateEmployee? <==> editing.Some?
    ensures w.UpdateEmployee? ==> w.id == editing.value
    ensures var f, p := s.form, w.payload;
      p.name == f.name && p.email == f.email && p.phone == f.phone && p.department == f.department
      && p.monthly == f.monthly && p.joinDate == f.joinDate && p.status == f.status
    ensures w.payload.leaveDate == s.form.leaveDate
    ensures editing.Some? ==> w.payload.totalPaid == s.totalPaid
    ensures editing.None? ==> w.payload.totalPaid == Some(s.totalPaid.GetOr(0))
  {
    var f := s.form;
    var base := Payload(f.name, f.email, f.phone, f.department, f.monthly, f.joinDate, f.status, f.leaveDate, None);
    match editing
    case Some(id) => UpdateEmployee(id, base.(totalPaid := s.totalPaid))
    case None => InsertEmployee(base.(totalPaid := Some(s.totalPaid.GetOr(0))))
  }

  /** An invalid form is never saved. Saving a valid form with a leave date
      writes the employee as inactive with the contribution for their months,
      at least one monthly amount; without one, an update leaves `total_paid`
      as it was and an insert starts it at 0. */
  lemma SaveSettlesLeavers(f: EmployeeForm.Form, editing: Option<string>)
    ensures EmployeeForm.Submit(f).None? <==> !EmployeeForm.IsValid(f)
    ensures var s := EmployeeForm.Submit(f);
      s.Some? && f.leaveDate.Some? ==>
        var w := Save(s.value, editing);
        w.payload.status == "inactive" && w.payload.totalPaid == Some(EmployeeForm.Contribution(f))
        && EmployeeForm.Contribution(f) >= f.monthly > 0
    ensures var s := EmployeeForm.Submit(f);
      s.Some? && f.leaveDate.None? ==>
        var w := Save(s.value, editing);
        w.payload.status == f.status && w.payload.leaveDate.None?
        && w.payload.totalPaid == (if editing.Some? then None else Some(0))
  {
    if EmployeeForm.IsValid(f) && f.leaveDate.Some? {
      EmployeeForm.ValidLeaverOwes(f);
    }
  }

  /** The row read back from what was written. */
  function ReadBack(id: string, p: Payload): Employee {
    Employee(id, p.name, p.email, p.department, p.status, p.monthly, p.totalPaid.GetOr(0))
  }

  /** A leaver saved through the form is listed as inactive whatever their
      payments, with their contribution, at least one monthly amount, as
      their total paid. */
  lemma SavedLeaverListedInactive(f: EmployeeForm.Form, editing: Option<string>, id: string, ps: seq<Payment>, now: Now)
    requires f.leaveDate.Some?
    ensures var s := EmployeeForm.Submit(f);
      s.Some? ==>
        var e := ReadBack(id, Save(s.value, editing).payload);
        ClassifyListed(e, ps, now).status == Inactive
        && e.totalPaid == EmployeeForm.Contribution(f) && e.totalPaid >= f.monthly > 0
  {
    if EmployeeForm.IsValid(f) {
      EmployeeForm.ValidLeaverOwes(f);
    }
  }
}
