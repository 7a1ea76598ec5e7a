/** The add/edit employee form: the inclusive month count between joining and
    leaving, the contribution owed for it, the field checks, and the data
    handed on when the form is submitted. */
module EmployeeForm {
  import opened Base
  import opened Text
  import opened Calendar

  /** The form's fields. The monthly amount comes from a number input; an empty
      input is 0, which every check treats like an empty field. */
  datatype Form = Form(name: string, email: string, phone: string, department: string,
                       monthly: int, joinDate: Option<Date>, leaveDate: Option<Date>, status: string)

  /** Months from the start month to the end month, both counted: the days
      are moved to the 1st before comparing. */
  function MonthsBetween(start: Date, end: Date): (n: int)
    ensures n == MonthIndex(end) - MonthIndex(start) + 1
  {
    (end.year - start.year) * 12 + (end.month - start.month) + 1
  }

  /** Only the months matter: any two dates in the same months give the same count. */
  lemma MonthsIgnoreDay(a: Date, b: Date, a': Date, b': Date)
    requires a.year == a'.year && a.month == a'.month
    requires b.year == b'.year && b.month == b'.month
    ensures MonthsBetween(a, b) == MonthsBetween(a', b')
  {
  }

  /** Counts chain: the month where two spans meet is counted in both. */
  lemma MonthsChain(a: Date, b: Date, c: Date)
    ensures MonthsBetween(a, b) + MonthsBetween(b, c) == MonthsBetween(a, c) + 1
  {
  }

  /** A later date is never in an earlier month, so the count is at least one,
      and exactly one within a single month. */
  lemma MonthsPositive(a: Date, b: Date)
    requires DayNumber(a) <= DayNumber(b)
    ensures MonthsBetween(a, b) >= 1
    ensures MonthsBetween(a, b) == 1 <==> a.year == b.year && a.month == b.month
  {
    DayNumberOrder(a, b);
    DayNumberOrder(b, a);
  }

  /** The contribution for a leaver: months times the monthly amount, never a
      negative number of months, and 0 unless both dates and an amount are present. */
  function Contribution(f: Form): (r: int)
    ensures f.joinDate.None? || f.leaveDate.None? || f.monthly == 0 ==> r == 0
    ensures f.monthly > 0 ==> r >= 0
    ensures f.joinDate.Some? && f.leaveDate.Some? && MonthsBetween(f.joinDate.value, f.leaveDate.value) <= 0 ==> r == 0
    ensures f.joinDate.Some? && f.leaveDate.Some? && MonthsBetween(f.joinDate.value, f.leaveDate.value) >= 1 && f.monthly > 0 ==>
      r >= f.monthly
    ensures f.joinDate.Some? && f.leaveDate.Some? && f.monthly != 0 ==>
      var span := MonthIndex(f.leaveDate.value) - MonthIndex(f.joinDate.value) + 1;
      r == (if span > 0 then span else 0) * f.monthly
  {
    if f.joinDate.Some? && f.leaveDate.Some? && f.monthly != 0 then
      var months := MonthsBetween(f.joinDate.value, f.leaveDate.value);
      var k: nat := if months > 0 then months else 0;
      assert k >= 1 && f.monthly > 0 ==> k * f.monthly >= f.monthly;
      k * f.monthly
    else
      0
  }

  /** Leaving one month later adds exactly one monthly amount. */
  lemma ContributionPerMonth(f: Form, later: Date)
    requires f.joinDate.Some? && f.leaveDate.Some?
    requires MonthIndex(later) == MonthIndex(f.leaveDate.value) + 1
    requires MonthsBetween(f.joinDate.value, f.leaveDate.value) >= 0
    ensures Contribution(f.(leaveDate := Some(later))) == Contribution(f) + f.monthly
  {
    var k := MonthsBetween(f.joinDate.value, f.leaveDate.value);
    assert (k + 1) * f.monthly == k * f.monthly + f.monthly;
  }

  // ---------------------------------------------------------------------------
  // The e-mail pattern

  /** `/\S+@\S+\.\S+/.test(s)`: somewhere in `s` a non-space character, `@`,
      one or more non-space characters, `.`, and a non-space character follow
      one another. */
  predicate EmailLike(s: string) {
    exists at, dot | 0 <= at < |s| && 0 <= dot < |s| :: MatchAt(s, at, dot)
  }

  /** No whitespace strictly between positions `i` and `j`. */
  predicate NoSpaceBetween(s: string, i: int, j: int)
    requires -1 <= i && j <= |s|
  {
    forall k :: i < k < j ==> !IsSpace(s[k])
  }

  /** Non-space before `@` at `at`, non-space from there to the `.` at `dot`,
      and non-space after it. */
  predicate MatchAt(s: string, at: int, dot: int) {
    0 < at && at + 1 < dot && dot + 1 < |s|
    && s[at] == '@' && s[dot] == '.'
    && !IsSpace(s[at - 1]) && !IsSpace(s[dot + 1])
    && NoSpaceBetween(s, at, dot)
  }

  /** One left-to-right scan: within the current run of non-space characters,
      remember the first `@` that has a character before it, and accept at a
      `.` that lies two or more places after it and is followed by a non-space
      character. */
  method MatchEmail(s: string) returns (ok: bool)
    ensures ok <==> EmailLike(s)
  {
    var runStart := 0;
    var firstAt := -1;
    var i := 0;
    while i < |s|
      invariant 0 <= runStart <= i <= |s|
      invariant runStart > 0 ==> IsSpace(s[runStart - 1])
      invariant NoSpaceBetween(s, runStart - 1, i)
      invariant firstAt == -1 ==> forall k :: runStart < k < i ==> s[k] != '@'
      invariant firstAt != -1 ==> runStart < firstAt < i && s[firstAt] == '@'
      invariant firstAt != -1 ==> forall k :: runStart < k < firstAt ==> s[k] != '@'
      invariant forall at, dot :: dot < i ==> !MatchAt(s, at, dot)
    {
      if IsSpace(s[i]) {
        runStart := i + 1;
        firstAt := -1;
      } else if s[i] == '.' && firstAt != -1 && i >= firstAt + 2 && i + 1 < |s| && !IsSpace(s[i + 1]) {
        assert MatchAt(s, firstAt, i);
        return true;
      } else {
        if s[i] == '@' && firstAt == -1 && i > runStart {
          firstAt := i;
        }
      }
      i := i + 1;
    }
    return false;
  }

  // ---------------------------------------------------------------------------
  // Validation

  /** Why a field was rejected. */
  datatype Problem = Missing | Malformed | NotPositive | NotAfterJoin

  /** The error map, one entry per field that can carry an error; `None` is
      an absent key. */
  datatype Errors = Errors(name: Option<Problem>, email: Option<Problem>, phone: Option<Problem>,
                           department: Option<Problem>, monthly: Option<Problem>,
                           joinDate: Option<Problem>, leaveDate: Option<Problem>)

  /** `Object.keys(errors).length === 0`. */
  predicate NoErrors(e: Errors) {
    e.name.None? && e.email.None? && e.phone.None? && e.department.None?
    && e.monthly.None? && e.joinDate.None? && e.leaveDate.None?
  }

  /** The form's checks: blank name, phone or e-mail, an e-mail without the
      `x@y.z` shape, no department, a monthly amount that is not positive, no
      join date, or a leave date not after the join date. */
  function Validate(f: Form): (e: Errors)
    ensures e.name.Some? <==> IsBlank(f.name)
    ensures e.email.Some? <==> IsBlank(f.email) || !EmailLike(f.email)
    ensures e.email.Some? ==> (e.email.value == Missing <==> IsBlank(f.email))
    ensures e.phone.Some? <==> IsBlank(f.phone)
    ensures e.department.Some? <==> f.department == ""
    ensures e.monthly.Some? <==> f.monthly <= 0
    ensures e.joinDate.Some? <==> f.joinDate.None?
    ensures e.leaveDate.Some? <==>
      f.joinDate.Some? && f.leaveDate.Some? && DayNumber(f.leaveDate.value) <= DayNumber(f.joinDate.value)
  {
    Errors(
      if IsBlank(f.name) then Some(Missing) else None,
      if IsBlank(f.email) then Some(Missing) else if !EmailLike(f.email) then Some(Malformed) else None,
      if IsBlank(f.phone) then Some(Missing) else None,
      if f.department == "" then Some(Missing) else None,
      if f.monthly <= 0 then Some(NotPositive) else None,
      if f.joinDate.None? then Some(Missing) else None,
      if f.leaveDate.Some? && f.joinDate.Some? && DayNumber(f.leaveDate.value) <= DayNumber(f.joinDate.value)
      then Some(NotAfterJoin) else None)
  }

  predicate IsValid(f: Form) {
    NoErrors(Validate(f))
  }

  /** A valid form names someone with an e-mail address, a phone, a department,
      a positive monthly amount and a join date; a leave date, if any, is later. */
  lemma ValidMeans(f: Form)
    ensures IsValid(f) <==>
      && !IsBlank(f.name) && !IsBlank(f.email) && EmailLike(f.email) && !IsBlank(f.phone)
      && f.department != "" && f.monthly > 0 && f.joinDate.Some?
      && (f.leaveDate.Some? ==> DayNumber(f.joinDate.value) < DayNumber(f.leaveDate.value))
  {
  }

  /** On a valid form with a leave date, at least one month is counted and the
      contribution is at least one monthly amount. */
  lemma ValidLeaverOwes(f: Form)
    requires IsValid(f) && f.leaveDate.Some?
    ensures MonthsBetween(f.joinDate.value, f.leaveDate.value) >= 1
    ensures Contribution(f) >= f.monthly > 0
  {
    ValidMeans(f);
    MonthsPositive(f.joinDate.value, f.leaveDate.value);
  }

  // ---------------------------------------------------------------------------
  // Submission

  /** What is handed on: the form, plus `total_paid` when a leave date is set. */
  datatype Submission = Submission(form: Form, totalPaid: Option<int>)

  /** Nothing is handed on while a check fails; otherwise a leave date marks
      the employee inactive and fixes what they paid. */
  function Submit(f: Form): (s: Option<Submission>)
    ensures s.Some? <==> IsValid(f)
    ensures s.Some? && f.leaveDate.Some? ==>
      s.value.form == f.(status := "inactive") && s.value.totalPaid == Some(Contribution(f))
    ensures s.Some? && f.leaveDate.None? ==> s.value.form == f && s.value.totalPaid.None?
  {
    if !IsValid(f) then None
    else if f.leaveDate.Some? then Some(Submission(f.(status := "inactive"), Some(Contribution(f))))
    else Some(Submission(f, None))
  }
}
