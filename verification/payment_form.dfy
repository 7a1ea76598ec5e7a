/** The record-a-payment form: the amount field's sanitiser, the months-covered
    picker, the seven month options around today, the checks and the
    suggested amount. */
module PaymentForm {
  import opened Base
  import opened Text
  import opened StringOrder
  import opened Calendar

  /** The form's fields. Dates come from a date input: `None` is an empty one. */
  datatype Form = Form(employeeId: string, amount: string, paymentDate: Option<Date>,
                       monthsCovered: seq<string>, paymentMethod: string, notes: string)

  /** The form as it opens: nothing chosen, paid today in cash. */
  function Blank(today: Date): (f: Form)
    ensures f.employeeId == "" && f.amount == "" && f.monthsCovered == []
    ensures f.paymentDate == Some(today) && f.paymentMethod == "cash" && f.notes == ""
  {
    Form("", "", Some(today), [], "cash", "")
  }

  /** Typing in the amount field keeps only the digits typed, every one of
      them, in order. */
  function AmountChange(f: Form, typed: string): (g: Form)
    ensures forall i :: 0 <= i < |g.amount| ==> IsDigit(g.amount[i])
    ensures Subseq(g.amount, typed)
    ensures |g.amount| == CountBy(typed, IsDigit)
    ensures g == f.(amount := g.amount)
  {
    f.(amount := KeepDigits(typed))
  }

  // ---------------------------------------------------------------------------
  // Months covered

  /** A month list as the picker keeps it: sorted and without repeats. */
  predicate WellKept(months: seq<string>) {
    Sorted(months) && NoDups(months)
  }

  /** Ticking a month: a ticked month is filtered out, an unticked one is
      appended and the list re-sorted. */
  function ToggleMonth(months: seq<string>, m: string): (r: seq<string>)
    ensures m in r <==> m !in months
    ensures forall x :: x != m ==> (x in r <==> x in months)
    ensures m in months ==> Subseq(r, months)
    ensures WellKept(months) ==> WellKept(r)
  {
    if m in months then
      RemoveKeepsSorted(months, m);
      Remove(months, m)
    else
      var r := Sort(months + [m]);
      assert forall x :: x in r <==> x in multiset(months + [m]);
      InsertKeepsDistinct(months, m);
      r
  }

  lemma RemoveKeepsSorted(months: seq<string>, m: string)
    ensures Sorted(months) ==> Sorted(Remove(months, m))
  {
    if Sorted(months) {
      SubseqSorted(Remove(months, m), months);
    }
  }

  lemma InsertKeepsDistinct(months: seq<string>, m: string)
    requires m !in months
    ensures NoDups(months) ==> NoDups(Sort(months + [m]))
  {
    if NoDups(months) {
      var s := months + [m];
      assert NoDups(s) by {
        forall i, j | 0 <= i < j < |s| ensures s[i] != s[j] {
          assert s[i] == months[i];
          if j < |months| {
            assert s[j] == months[j];
          }
        }
      }
      NoDupsPermutation(s, Sort(s));
    }
  }

  /** Ticking the same month twice gives back the list it started from. */
  lemma ToggleMonthTwice(months: seq<string>, m: string)
    requires WellKept(months)
    ensures ToggleMonth(ToggleMonth(months, m), m) == months
  {
    var once := ToggleMonth(months, m);
    var twice := ToggleMonth(once, m);
    if m in months {
      RemoveMultiset(months, m);
      NoDupsCount(months, m);
      assert multiset(twice) == multiset(once + [m]);
      assert multiset(months)[m] == 1;
      assert multiset(twice) == multiset(months)[m := 0] + multiset{m};
      assert multiset(twice) == multiset(months);
    } else {
      RemoveMultiset(once, m);
      assert multiset(once) == multiset(months) + multiset{m};
      assert multiset(months)[m] == 0;
      assert multiset(twice) == multiset(months);
    }
    SortedUnique(twice, months);
  }

  /** Ticking a new month adds one entry; unticking one removes one. */
  lemma ToggleMonthLength(months: seq<string>, m: string)
    requires NoDups(months)
    ensures |ToggleMonth(months, m)| == if m in months then |months| - 1 else |months| + 1
  {
    if m in months {
      RemoveMultiset(months, m);
      NoDupsCount(months, m);
      assert multiset(months)[m] == 1;
      var r := Remove(months, m);
      assert |multiset(r)| == |multiset(months)| - 1 by {
        assert multiset(months) == multiset(r) + multiset{m};
      }
    } else {
      assert |multiset(ToggleMonth(months, m))| == |multiset(months + [m])|;
    }
  }

  // ---------------------------------------------------------------------------
  // Month options

  /** The seven `YYYY-MM` options: the keys of the three months before the
      current one, the current one and the three after, rolling over year ends. */
  function MonthOptions(today: Date): (r: seq<string>)
    ensures |r| == 7
    ensures forall i :: 0 <= i < 7 ==> r[i] == MonthKeyOf(MonthIndex(today) + i - 3)
  {
    seq(7, (i: int) => OptionAt(today, i))
  }

  /** The option `i` places from the first: the month `i - 3` months away. */
  function OptionAt(today: Date, i: int): (key: string)
    ensures key == MonthKeyOf(MonthIndex(today) + i - 3)
  {
    var ym := ShiftMonth(today.year, today.month, i - 3);
    MonthKey(ym.0, ym.1)
  }

  /** The middle option is the current month. */
  lemma CurrentMonthInMiddle(today: Date)
    ensures MonthOptions(today)[3] == MonthKey(today.year, today.month)
  {
    var k := MonthIndex(today);
    assert k / 12 == today.year && k % 12 + 1 == today.month;
  }

  /** Between years 1000 and 9999, the options are in strictly increasing
      string order, so they are sorted and distinct. */
  lemma OptionsIncrease(today: Date)
    requires 1001 <= today.year <= 9998
    ensures forall i, j :: 0 <= i < j < 7 ==> LexLess(MonthOptions(today)[i], MonthOptions(today)[j])
    ensures WellKept(MonthOptions(today))
  {
    var r := MonthOptions(today);
    KeysIncrease(r, MonthIndex(today));
    assert Sorted(r);
    assert NoDups(r);
  }

  /** Seven consecutive month keys around month `k` strictly increase. */
  lemma KeysIncrease(r: seq<string>, k: int)
    requires 12003 <= k < 119997
    requires |r| == 7 && forall i :: 0 <= i < 7 ==> r[i] == MonthKeyOf(k + i - 3)
    ensures forall i, j :: 0 <= i < j < 7 ==> LexLess(r[i], r[j]) && !LexLess(r[j], r[i]) && r[i] != r[j]
  {
    forall i, j | 0 <= i < j < 7 ensures LexLess(r[i], r[j]) && !LexLess(r[j], r[i]) && r[i] != r[j] {
      KeyPair(k + i - 3, k + j - 3);
    }
  }

  /** An earlier month's key sorts strictly before a later one's. */
  lemma KeyPair(a: int, b: int)
    requires 12000 <= a < b < 120000
    ensures LexLess(MonthKeyOf(a), MonthKeyOf(b)) && !LexLess(MonthKeyOf(b), MonthKeyOf(a))
    ensures MonthKeyOf(a) != MonthKeyOf(b)
  {
    MonthKeyOfOrder(a, b);
    MonthKeyOfOrder(b, a);
  }

  // ---------------------------------------------------------------------------
  // Checks, submission and the suggested amount

  /** The error map: `true` marks a field with an error. */
  datatype Errors = Errors(employee: bool, amount: bool, paymentDate: bool, monthsCovered: bool)

  predicate NoErrors(e: Errors) {
    !e.employee && !e.amount && !e.paymentDate && !e.monthsCovered
  }

  /** An amount is rejected when empty or when it reads as a number that is
      not positive; text that reads as no number at all slips through. */
  function Validate(f: Form): (e: Errors)
    ensures e.employee <==> f.employeeId == ""
    ensures e.amount <==> f.amount == "" || (ParseInt(f.amount).Some? && ParseInt(f.amount).value <= 0)
    ensures e.paymentDate <==> f.paymentDate.None?
    ensures e.monthsCovered <==> |f.monthsCovered| == 0
  {
    Errors(f.employeeId == "",
           f.amount == "" || match ParseInt(f.amount) { case None => false case Some(v) => v <= 0 },
           f.paymentDate.None?,
           |f.monthsCovered| == 0)
  }

  /** For an amount the sanitiser produced, the check means exactly: a
      positive number was typed. */
  lemma SanitisedAmountCheck(f: Form, typed: string)
    ensures var g := AmountChange(f, typed);
      !Validate(g).amount <==> |g.amount| > 0 && DigitsValue(g.amount) > 0
  {
    var g := AmountChange(f, typed);
    if |g.amount| > 0 {
      ParseIntOfDigits(g.amount);
    }
  }

  /** What is handed on: the form with the amount read as an integer
      (`None` for `NaN`). */
  datatype Submission = Submission(form: Form, amount: Option<int>)

  function Submit(f: Form): (s: Option<Submission>)
    ensures s.Some? <==> NoErrors(Validate(f))
    ensures s.Some? ==> s.value.form == f && s.value.amount == ParseInt(f.amount)
    ensures s.Some? && s.value.amount.Some? ==> s.value.amount.value > 0
  {
    if NoErrors(Validate(f)) then Some(Submission(f, ParseInt(f.amount))) else None
  }

  /** A valid form whose amount came through the sanitiser submits a positive
      whole number of dong, the value of the digits typed. */
  lemma SubmitSanitised(f: Form, typed: string)
    requires Submit(AmountChange(f, typed)).Some?
    ensures Submit(AmountChange(f, typed)).value.amount == Some(DigitsValue(KeepDigits(typed)))
    ensures DigitsValue(KeepDigits(typed)) > 0
  {
    SanitisedAmountCheck(f, typed);
    ParseIntOfDigits(KeepDigits(typed));
  }

  datatype Employee = Employee(id: string, monthly: Option<int>)

  /** The chosen employee's monthly amount, 100000 when unset or zero: the
      amount of the first employee with the id, as `find` returns. */
  function MonthlyRate(employees: seq<Employee>, id: string): (rate: int)
    ensures (forall e :: e in employees ==> e.id != id) ==> rate == 100000
    ensures rate != 100000 ==> exists e :: e in employees && e.id == id && e.monthly == Some(rate) && rate != 0
    ensures forall i :: 0 <= i < |employees| && employees[i].id == id && (forall j :: 0 <= j < i ==> employees[j].id != id) ==>
      rate == (if employees[i].monthly.Some? && employees[i].monthly.value != 0 then employees[i].monthly.value else 100000)
    decreases |employees|
  {
    if |employees| == 0 then 100000
    else if employees[0].id == id then
      (match employees[0].monthly { case Some(v) => if v != 0 then v else 100000 case None => 100000 })
    else
      assert forall e :: e in employees[1..] ==> e in employees;
      assert forall i :: 0 < i < |employees| ==> employees[i] == employees[1..][i - 1];
      MonthlyRate(employees[1..], id)
  }

  /** Every ticked month at the same rate. */
  function EachMonth(rate: int): string -> int {
    _ => rate
  }

  /** The suggested amount: each ticked month adds the employee's monthly
      amount, 100000 when the employee is not on the list. */
  function SuggestedAmount(f: Form, employees: seq<Employee>): (r: int)
    ensures r == SumBy(f.monthsCovered, EachMonth(MonthlyRate(employees, f.employeeId)))
    ensures (forall e :: e in employees ==> e.id != f.employeeId) ==> r == |f.monthsCovered| * 100000
  {
    var rate := MonthlyRate(employees, f.employeeId);
    SumByConst(f.monthsCovered, EachMonth(rate), rate);
    |f.monthsCovered| * rate
  }

  /** Each month ticked on adds one monthly amount to the suggestion, and each
      ticked off takes one away. */
  lemma SuggestionPerMonth(f: Form, employees: seq<Employee>, m: string)
    requires NoDups(f.monthsCovered)
    ensures var g := f.(monthsCovered := ToggleMonth(f.monthsCovered, m));
      SuggestedAmount(g, employees) == SuggestedAmount(f, employees)
        + (if m in f.monthsCovered then -1 else 1) * MonthlyRate(employees, f.employeeId)
  {
    var g := f.(monthsCovered := ToggleMonth(f.monthsCovered, m));
    var rate := MonthlyRate(employees, f.employeeId);
    var d := if m in f.monthsCovered then -1 else 1;
    ToggleMonthLength(f.monthsCovered, m);
    assert |g.monthsCovered| == |f.monthsCovered| + d;
    MulStep(|f.monthsCovered|, d, rate);
  }

  /** Moving a count by `d` moves the product by `d` times the factor. */
  lemma MulStep(n: int, d: int, rate: int)
    ensures (n + d) * rate == n * rate + d * rate
  {
  }
}
