/** The expenses page: the defaults filled into stored expenses, the gross and
    net totals, the sharing-status badge and the record written on save. */
module ExpenseLedger {
  import opened Base
  import opened Text
  import opened Calendar
  import ExpenseForm

  /** An `expenses` row; `None` is a `null` column. */
  datatype RawExpense = RawExpense(id: string, amount: Option<int>, reimbursed: Option<int>, net: Option<int>,
                                   sharingStatus: Option<string>, category: Option<string>,
                                   description: Option<string>, expenseDate: Option<Date>, notes: Option<string>)

  /** A row as the page keeps it: the four defaulted columns are present. */
  predicate IsNormal(x: RawExpense) {
    x.amount.Some? && x.reimbursed.Some? && x.net.Some? && x.sharingStatus.Some? && x.sharingStatus.value != ""
  }

  type Expense = x: RawExpense | IsNormal(x)
    witness RawExpense("", Some(0), Some(0), Some(0), Some("not_shared"), None, None, None, None)

  /** Missing amounts read as 0, a missing net amount as the amount, a
      missing sharing status as `not_shared`; every other column is kept. */
  function Normalize(x: RawExpense): (n: Expense)
    ensures n.(amount := x.amount, reimbursed := x.reimbursed, net := x.net, sharingStatus := x.sharingStatus) == x
    ensures n.amount == Some(x.amount.GetOr(0)) && n.reimbursed == Some(x.reimbursed.GetOr(0))
    ensures x.net.Some? ==> n.net == x.net
    ensures x.net.None? ==> n.net == n.amount
    ensures x.sharingStatus.Some? && x.sharingStatus.value != "" ==> n.sharingStatus == x.sharingStatus
    ensures x.sharingStatus.None? || x.sharingStatus.value == "" ==> n.sharingStatus == Some("not_shared")
  {
    var amount := x.amount.GetOr(0);
    x.(amount := Some(amount),
       reimbursed := Some(x.reimbursed.GetOr(0)),
       net := Some(match x.net { case Some(v) => v case None => amount }),
       sharingStatus := Some(TextOr(x.sharingStatus, "not_shared")))
  }

  /** A row already in the kept form is left as it is, so normalising twice
      is normalising once. */
  lemma NormalizeIdempotent(x: RawExpense)
    ensures Normalize(Normalize(x)) == Normalize(x)
    ensures IsNormal(x) ==> Normalize(x) == x
  {
  }

  function NormalizeAll(xs: seq<RawExpense>): (es: seq<Expense>)
    ensures |es| == |xs|
    ensures forall i :: 0 <= i < |xs| ==> es[i] == Normalize(xs[i])
  {
    seq(|xs|, i requires 0 <= i < |xs| => Normalize(xs[i]))
  }

  function AmountOf(e: Expense): int {
    e.amount.value
  }

  function NetOf(e: Expense): int {
    e.net.value
  }

  function ReimbursedOf(e: Expense): int {
    e.reimbursed.value
  }

  /** The total of the amounts spent. */
  function GrossTotal(es: seq<Expense>): (g: int)
    ensures (forall e :: e in es ==> AmountOf(e) >= 0) ==> g >= 0
  {
    if forall e :: e in es ==> AmountOf(e) >= 0 then
      assert forall i :: 0 <= i < |es| ==> es[i] in es;
      SumByNonNeg(es, AmountOf);
      SumBy(es, AmountOf)
    else
      SumBy(es, AmountOf)
  }

  /** The total of the net amounts, shown as the net spending. */
  function NetTotal(es: seq<Expense>): (n: int)
    ensures (forall e :: e in es ==> NetOf(e) <= AmountOf(e)) ==> n <= SumBy(es, AmountOf)
  {
    if forall e :: e in es ==> NetOf(e) <= AmountOf(e) then
      assert forall i :: 0 <= i < |es| ==> es[i] in es;
      SumByMono(es, NetOf, AmountOf);
      SumBy(es, NetOf)
    else
      SumBy(es, NetOf)
  }

  /** Recording an expense adds its amount to the gross total and its net
      amount to the net total. */
  lemma TotalsOnNewExpense(es: seq<Expense>, e: Expense)
    ensures GrossTotal(es + [e]) == GrossTotal(es) + AmountOf(e)
    ensures NetTotal(es + [e]) == NetTotal(es) + NetOf(e)
  {
    SumByAppend(es, [e], AmountOf);
    SumByAppend(es, [e], NetOf);
  }

  /** With no net amount stored anywhere, net and gross totals coincide. */
  lemma NetIsGrossWithoutNetAmounts(xs: seq<RawExpense>)
    requires forall x :: x in xs ==> x.net.None?
    ensures NetTotal(NormalizeAll(xs)) == GrossTotal(NormalizeAll(xs))
  {
    var es := NormalizeAll(xs);
    forall i | 0 <= i < |es| ensures NetOf(es[i]) == AmountOf(es[i]) {
      assert xs[i] in xs;
    }
    SumByPointwise(es, NetOf, AmountOf);
  }

  /** When every stored net amount is the amount less what was reimbursed,
      the net total is the gross total less all reimbursements. */
  lemma NetIsGrossLessReimbursed(xs: seq<RawExpense>)
    requires forall x :: x in xs ==> x.net.Some? && x.net.value == x.amount.GetOr(0) - x.reimbursed.GetOr(0)
    ensures NetTotal(NormalizeAll(xs)) == GrossTotal(NormalizeAll(xs)) - SumBy(NormalizeAll(xs), ReimbursedOf)
  {
    var es := NormalizeAll(xs);
    var minus := (e: Expense) => -ReimbursedOf(e);
    forall i | 0 <= i < |es| ensures NetOf(es[i]) == AmountOf(es[i]) + minus(es[i]) {
      assert xs[i] in xs;
    }
    SumByAdd(es, AmountOf, minus, NetOf);
    NegatedSum(es, ReimbursedOf, minus);
  }

  lemma {:induction false} NegatedSum<T>(s: seq<T>, f: T -> int, g: T -> int)
    requires forall i :: 0 <= i < |s| ==> g(s[i]) == -f(s[i])
    ensures SumBy(s, g) == -SumBy(s, f)
    decreases |s|
  {
    if |s| > 0 {
      assert forall i :: 0 <= i < |s[1..]| ==> s[1..][i] == s[i + 1];
      NegatedSum(s[1..], f, g);
    }
  }

  // ---------------------------------------------------------------------------
  // The sharing-status badge

  const SharingStatuses: seq<string> := ["shared", "partially_reimbursed", "fully_reimbursed", "not_shared"]

  /** The status whose style and text the badge shows: an unknown status
      shows as `not_shared`. */
  function BadgeStatus(status: string): (b: string)
    ensures b in SharingStatuses
    ensures status in SharingStatuses <==> b == status
  {
    if status in SharingStatuses then status else "not_shared"
  }

  lemma BadgeStatusIdempotent(status: string)
    ensures BadgeStatus(BadgeStatus(status)) == BadgeStatus(status)
  {
  }

  // ---------------------------------------------------------------------------
  // Saving

  /** What the form hands over. */
  datatype ExpenseData = ExpenseData(amount: Option<int>, category: string, description: string,
                                     expenseDate: string, notes: string, receiptUrl: Option<string>)

  /** The columns written; `None` for `notes` is `null`, for `receiptUrl` an
      absent key. */
  datatype Payload = Payload(amount: int, category: string, description: string, expenseDate: string,
                             notes: Option<string>, receiptUrl: Option<string>)

  datatype Write = UpdateExpense(id: string, payload: Payload) | InsertExpense(payload: Payload)

  /** Exactly the five columns, empty notes as `null`, and a receipt URL only
      when one was given. */
  function BuildPayload(d: ExpenseData): (p: Payload)
    ensures p.amount == d.amount.GetOr(0)
    ensures p.category == d.category && p.description == d.description && p.expenseDate == d.expenseDate
    ensures p.notes.None? <==> d.notes == ""
    ensures p.notes.Some? ==> p.notes.value == d.notes
    ensures p.receiptUrl.Some? <==> d.receiptUrl.Some? && d.receiptUrl.value != ""
    ensures p.receiptUrl.Some? ==> p.receiptUrl == d.receiptUrl
  {
    Payload(d.amount.GetOr(0), d.category, d.description, d.expenseDate,
            if d.notes == "" then None else Some(d.notes),
            if d.receiptUrl.Some? && d.receiptUrl.value != "" then d.receiptUrl else None)
  }

  /** An update of the edited expense's row, or an insert. */
  function Save(d: ExpenseData, editing: Option<string>): (w: Write)
    ensures w.payload == BuildPayload(d)
    ensures w.UpdateExpense? <==> editing.Some?
    ensures w.UpdateExpense? ==> w.id == editing.value
  {
    match editing
    case Some(id) => UpdateExpense(id, BuildPayload(d))
    case None => InsertExpense(BuildPayload(d))
  }

  /** The form's submission as handed over: it carries a file, never a URL. */
  function FromForm(s: ExpenseForm.Submission): (d: ExpenseData)
    ensures d.receiptUrl.None?
    ensures d.amount == s.amount && d.notes == s.form.notes
  {
    ExpenseData(s.amount, s.form.category, s.form.description, s.form.expenseDate, s.form.notes, None)
  }

  /** A saved form writes a positive amount and never a receipt URL. */
  lemma FormWritesPositiveAmount(f: ExpenseForm.Form, editing: Option<string>)
    requires ExpenseForm.Submit(f).Some?
    ensures var w := Save(FromForm(ExpenseForm.Submit(f).value), editing);
      w.payload.receiptUrl.None? && (ParseInt(f.amount).Some? ==> w.payload.amount > 0)
  {
  }

  /** The row as read back for editing. */
  function StoredOf(p: Payload): ExpenseForm.Stored {
    ExpenseForm.Stored(Some(p.amount), Some(p.category), Some(p.description), Some(p.expenseDate), p.notes)
  }

  /** Opening a saved expense for editing and saving it untouched writes the
      same columns again. */
  lemma EditUntouchedRoundTrip(p: Payload, today: Date, id: string)
    requires p.amount > 0 && p.category != "" && !IsBlank(p.description)
    requires p.expenseDate != "" && 'T' !in p.expenseDate
    requires p.notes != Some("") && p.receiptUrl.None?
    ensures var f := ExpenseForm.Populate(StoredOf(p), today);
      ExpenseForm.Submit(f).Some?
      && Save(FromForm(ExpenseForm.Submit(f).value), Some(id)) == UpdateExpense(id, p)
  {
    var f := ExpenseForm.Populate(StoredOf(p), today);
    assert f.expenseDate == p.expenseDate;
    assert f.description == p.description;
  }
}
