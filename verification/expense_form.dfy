/** The add/edit expense form: how it is filled when it opens, the amount
    sanitiser, the receipt-file check, the field checks and the data handed on. */
module ExpenseForm {
  import opened Base
  import opened Text
  import opened Calendar

  /** A chosen file: its size in bytes and its MIME type. */
  datatype File = File(size: int, mimeType: string)

  /** The form's fields; `expenseDate` is the text of a date input. */
  datatype Form = Form(amount: string, category: string, description: string,
                       expenseDate: string, receipt: Option<File>, notes: string)

  datatype FileProblem = TooLarge | NotAllowedType

  /** The error map: `true` marks a field check that failed; the receipt
      entry carries why the last file was refused. */
  datatype Errors = Errors(amount: bool, description: bool, expenseDate: bool,
                           receipt: Option<FileProblem>)

  const NoErrorsYet: Errors := Errors(false, false, false, None)

  predicate NoErrors(e: Errors) {
    e == NoErrorsYet
  }

  datatype State = State(form: Form, errors: Errors)

  /** An expense as stored, for editing; missing columns are `None`. */
  datatype Stored = Stored(amount: Option<int>, category: Option<string>, description: Option<string>,
                           expenseDate: Option<string>, notes: Option<string>)

  /** A fresh form: no amount, the `events` category, dated today. */
  function Blank(today: Date): (f: Form)
    ensures f.amount == "" && f.description == "" && f.notes == "" && f.receipt.None?
    ensures f.category == "events" && f.expenseDate == IsoDate(today)
  {
    Form("", "events", "", IsoDate(today), None, "")
  }

  /** The form filled from a stored expense: the amount printed in decimal,
      the category `events` when missing, the date cut at its `T`, today when
      missing, a missing description or note as empty text; no file. */
  function Populate(x: Stored, today: Date): (f: Form)
    ensures f.receipt.None?
    ensures 'T' !in f.expenseDate
    ensures x.amount.Some? ==> ParseInt(f.amount) == x.amount
    ensures x.amount.None? ==> f.amount == ""
    ensures x.category.Some? && x.category.value != "" ==> f.category == x.category.value
    ensures x.category.None? || x.category.value == "" ==> f.category == "events"
    ensures f.category != ""
    ensures x.description.Some? ==> f.description == x.description.value
    ensures x.description.None? ==> f.description == ""
    ensures x.notes.Some? ==> f.notes == x.notes.value
    ensures x.notes.None? ==> f.notes == ""
    ensures x.expenseDate.Some? && x.expenseDate.value != "" ==>
      var s := x.expenseDate.value;
      |f.expenseDate| <= |s| && f.expenseDate == s[..|f.expenseDate|]
      && (|f.expenseDate| < |s| ==> s[|f.expenseDate|] == 'T')
    ensures x.expenseDate.None? || x.expenseDate.value == "" ==> f.expenseDate == IsoDate(today)
  {
    var date := if x.expenseDate.Some? && x.expenseDate.value != "" then CutAt(x.expenseDate.value, 'T') else IsoDate(today);
    var amount := match x.amount { case Some(v) => ParseIntIntToString(v); IntToString(v) case None => "" };
    Form(amount, TextOr(x.category, "events"), x.description.GetOr(""), date, None, x.notes.GetOr(""))
  }

  /** Opening the form: nothing happens while it is closed; otherwise it is
      filled from the expense being edited, or reset, and the errors cleared. */
  function Open(st: State, isOpen: bool, isEditing: bool, expense: Option<Stored>, today: Date): (r: State)
    ensures !isOpen ==> r == st
    ensures isOpen ==> NoErrors(r.errors)
    ensures isOpen && isEditing && expense.Some? ==> r.form == Populate(expense.value, today)
    ensures isOpen && !(isEditing && expense.Some?) ==> r.form == Blank(today)
  {
    if !isOpen then st
    else if isEditing && expense.Some? then State(Populate(expense.value, today), NoErrorsYet)
    else State(Blank(today), NoErrorsYet)
  }

  /** Typing in the amount field keeps only the digits typed, every one of
      them, in order. */
  function AmountChange(st: State, typed: string): (r: State)
    ensures forall i :: 0 <= i < |r.form.amount| ==> IsDigit(r.form.amount[i])
    ensures Subseq(r.form.amount, typed)
    ensures |r.form.amount| == CountBy(typed, IsDigit)
    ensures r == st.(form := st.form.(amount := r.form.amount))
  {
    st.(form := st.form.(amount := KeepDigits(typed)))
  }

  /** Typing twice the same text gives the same amount as typing it once
      into an amount the sanitiser already produced. */
  lemma AmountChangeIdempotent(st: State, typed: string)
    ensures AmountChange(AmountChange(st, typed), AmountChange(st, typed).form.amount) == AmountChange(st, typed)
  {
    KeepDigitsIdempotent(typed);
  }

  const MaxReceiptBytes: int := 5 * 1024 * 1024

  const AllowedTypes: seq<string> := ["image/jpeg", "image/png", "image/gif", "application/pdf"]

  /** Choosing a file: nothing chosen changes nothing; a file over 5 MB or of
      another type is refused with an error and the form kept; otherwise it
      becomes the receipt and the receipt error is cleared. */
  function FileChange(st: State, chosen: Option<File>): (r: State)
    ensures chosen.None? ==> r == st
    ensures chosen.Some? ==>
      (r.errors.receipt.None? <==> chosen.value.size <= MaxReceiptBytes && chosen.value.mimeType in AllowedTypes)
    ensures chosen.Some? && r.errors.receipt.None? ==> r.form == st.form.(receipt := chosen)
    ensures chosen.Some? && r.errors.receipt.Some? ==> r.form == st.form
    ensures r.errors == st.errors.(receipt := r.errors.receipt)
    ensures chosen.Some? ==> (r.errors.receipt == Some(TooLarge) <==> chosen.value.size > MaxReceiptBytes)
  {
    match chosen
    case None => st
    case Some(f) =>
      if f.size > MaxReceiptBytes then st.(errors := st.errors.(receipt := Some(TooLarge)))
      else if f.mimeType !in AllowedTypes then st.(errors := st.errors.(receipt := Some(NotAllowedType)))
      else State(st.form.(receipt := chosen), st.errors.(receipt := None))
  }

  /** A file the check accepts replaces whatever was chosen before, and a
      refusal before it leaves no trace; choosing the same file twice is
      choosing it once. */
  lemma FileChoiceOverrides(st: State, first: Option<File>, second: File)
    requires second.size <= MaxReceiptBytes && second.mimeType in AllowedTypes
    ensures FileChange(FileChange(st, first), Some(second)) == FileChange(st, Some(second))
    ensures FileChange(FileChange(st, first), first) == FileChange(st, first)
  {
  }

  /** The field checks, replacing every earlier error: an empty amount or one
      that reads as a number that is not positive, a blank description, no date. */
  function Validate(f: Form): (e: Errors)
    ensures e.amount <==> f.amount == "" || (ParseInt(f.amount).Some? && ParseInt(f.amount).value <= 0)
    ensures e.description <==> IsBlank(f.description)
    ensures e.expenseDate <==> f.expenseDate == ""
    ensures e.receipt.None?
  {
    Errors(f.amount == "" || match ParseInt(f.amount) { case None => false case Some(v) => v <= 0 },
           IsBlank(f.description), f.expenseDate == "", None)
  }

  /** What is handed on: the form with the amount read as an integer (`None`
      for `NaN`). */
  datatype Submission = Submission(form: Form, amount: Option<int>)

  function Submit(f: Form): (s: Option<Submission>)
    ensures s.Some? <==> NoErrors(Validate(f))
    ensures s.Some? ==> s.value.form == f && s.value.amount == ParseInt(f.amount)
    ensures s.Some? && s.value.amount.Some? ==> s.value.amount.value > 0
  {
    if NoErrors(Validate(f)) then Some(Submission(f, ParseInt(f.amount))) else None
  }

  /** A form that passes whose amount came through the sanitiser submits the
      positive value of the digits typed. */
  lemma SubmitSanitised(st: State, typed: string)
    requires Submit(AmountChange(st, typed).form).Some?
    ensures Submit(AmountChange(st, typed).form).value.amount == Some(DigitsValue(KeepDigits(typed)))
    ensures DigitsValue(KeepDigits(typed)) > 0
  {
    var ds := KeepDigits(typed);
    ParseIntOfDigits(ds);
  }

  /** Editing a stored positive amount and submitting it unchanged hands back
      the stored amount. */
  lemma EditRoundTrip(x: Stored, today: Date)
    requires x.amount.Some? && x.amount.value > 0
    requires Submit(Populate(x, today)).Some?
    ensures Submit(Populate(x, today)).value.amount == x.amount
  {
  }
}
