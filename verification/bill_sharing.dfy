/** The bill-sharing calculator: which expenses and employees are selected,
    who is celebrated, how the selected total is split, the rows written when a
    sharing is created, and the paid/pending switch on a participant. */
module BillSharing {
  import opened Base
  import opened Calendar

  type Id = string

  /** A JavaScript `Set` of ids: insertion-ordered, each id at most once. */
  type IdSet = s: seq<Id> | NoDups(s) witness []

  /** `participates_in_fund` as stored: a boolean, or anything else (null, missing). */
  datatype FundFlag = Flag(b: bool) | NotBoolean

  /** An employee row as read from the `employees` table. */
  datatype Employee = Employee(id: Id, name: string, status: string, leaveDate: Option<Date>, fund: FundFlag)

  /** An employee after the fund flag is normalised to a boolean. */
  datatype Member = Member(id: Id, name: string, status: string, leaveDate: Option<Date>, inFund: bool)

  /** A non-boolean fund flag counts as taking part in the fund. */
  function Normalize(e: Employee): (m: Member)
    ensures m.id == e.id && m.name == e.name && m.status == e.status && m.leaveDate == e.leaveDate
    ensures m.inFund <==> e.fund != Flag(false)
  {
    Member(e.id, e.name, e.status, e.leaveDate, if e.fund.Flag? then e.fund.b else true)
  }

  /** The row a member reads back from: its fund flag stored as that boolean. */
  function Stored(m: Member): Employee {
    Employee(m.id, m.name, m.status, m.leaveDate, Flag(m.inFund))
  }

  /** Normalising is lossless on boolean flags and a no-op on the row a member
      is stored as; any other stored flag reads as `true`. */
  lemma NormalizeRoundTrip(m: Member, e: Employee)
    ensures Normalize(Stored(m)) == m
    ensures e.fund.Flag? ==> Stored(Normalize(e)) == e
    ensures e.fund.NotBoolean? ==> Stored(Normalize(e)) == e.(fund := Flag(true))
  {
  }

  function NormalizeAll(es: seq<Employee>): (ms: seq<Member>)
    ensures |ms| == |es|
    ensures forall i :: 0 <= i < |es| ==> ms[i] == Normalize(es[i])
  {
    seq(|es|, i requires 0 <= i < |es| => Normalize(es[i]))
  }

  /** Selected by default: active and without a leave date. */
  predicate IsDefault(m: Member) {
    m.status == "active" && m.leaveDate.None?
  }

  /** The ids of the employees selected by default, in list order. */
  function DefaultIds(ms: seq<Member>): (r: seq<Id>)
    ensures forall id :: id in r <==> exists m :: m in ms && m.id == id && IsDefault(m)
    decreases |ms|
  {
    if |ms| == 0 then []
    else
      var rest := DefaultIds(ms[1..]);
      assert forall m :: m in ms[1..] ==> m in ms;
      assert forall m :: m in ms && m != ms[0] ==> m in ms[1..];
      if IsDefault(ms[0]) then [ms[0].id] + rest else rest
  }

  /** The initial participants, `new Set(...)` of the default ids: exactly the
      active employees without a leave date, each once, in list order. */
  function DefaultParticipants(ms: seq<Member>): (r: IdSet)
    ensures forall id :: id in r <==> exists m :: m in ms && m.id == id && IsDefault(m)
    ensures Subseq(r, DefaultIds(ms))
    ensures DistinctIds(ms) ==> r == DefaultIds(ms)
  {
    if DistinctIds(ms) then DistinctDefaultIds(ms); Dedup(DefaultIds(ms))
    else Dedup(DefaultIds(ms))
  }

  /** With distinct employee ids the default ids are already distinct. */
  lemma {:induction false} DistinctDefaultIds(ms: seq<Member>)
    requires DistinctIds(ms)
    ensures NoDups(DefaultIds(ms))
    decreases |ms|
  {
    if |ms| > 0 {
      DistinctDefaultIds(ms[1..]);
      var rest := DefaultIds(ms[1..]);
      if IsDefault(ms[0]) {
        assert ms[0].id !in rest by {
          if ms[0].id in rest {
            var m :| m in ms[1..] && m.id == ms[0].id && IsDefault(m);
            IdSetOfMembers(ms[1..]);
          }
        }
        var r := [ms[0].id] + rest;
        forall i, j | 0 <= i < j < |r| ensures r[i] != r[j] {
          assert r[j] == rest[j - 1] && r[j] in rest;
          if i > 0 {
            assert r[i] == rest[i - 1];
          }
        }
      }
    }
  }

  // ---------------------------------------------------------------------------
  // Selection state

  datatype Selection = Selection(expenses: IdSet, participants: IdSet, honorees: IdSet)

  /** Every celebrated person is a participant. */
  predicate HonoreesParticipate(sel: Selection) {
    forall h :: h in sel.honorees ==> h in sel.participants
  }

  /** The selection once the employees are loaded: no expense, no honoree, the
      default participants. */
  function InitialSelection(ms: seq<Member>): (sel: Selection)
    ensures sel.expenses == [] && sel.honorees == []
    ensures forall id :: id in sel.participants <==> exists m :: m in ms && m.id == id && IsDefault(m)
    ensures HonoreesParticipate(sel)
  {
    Selection([], DefaultParticipants(ms), [])
  }

  /** Ticking an expense adds it to, or removes it from, the selection. */
  function ToggleExpense(sel: Selection, id: Id): (r: Selection)
    ensures id in r.expenses <==> id !in sel.expenses
    ensures forall x :: x != id ==> (x in r.expenses <==> x in sel.expenses)
    ensures r.participants == sel.participants && r.honorees == sel.honorees
  {
    sel.(expenses := Toggle(sel.expenses, id))
  }

  /** Ticking an employee; deselecting also drops their honoree mark. */
  function ToggleParticipant(sel: Selection, id: Id): (r: Selection)
    ensures id in r.participants <==> id !in sel.participants
    ensures forall x :: x != id ==> (x in r.participants <==> x in sel.participants)
    ensures id in sel.participants ==> id !in r.honorees
    ensures forall x :: x != id ==> (x in r.honorees <==> x in sel.honorees)
    ensures id !in sel.participants ==> r.honorees == sel.honorees
    ensures r.expenses == sel.expenses
    ensures HonoreesParticipate(sel) ==> HonoreesParticipate(r)
  {
    if id in sel.participants then
      sel.(participants := Remove(sel.participants, id), honorees := Remove(sel.honorees, id))
    else
      sel.(participants := Add(sel.participants, id))
  }

  /** Ticking the birthday box; ignored for someone who is not a participant. */
  function ToggleHonoree(sel: Selection, id: Id): (r: Selection)
    ensures id !in sel.participants ==> r == sel
    ensures id in sel.participants ==> (id in r.honorees <==> id !in sel.honorees)
    ensures forall x :: x != id ==> (x in r.honorees <==> x in sel.honorees)
    ensures r.expenses == sel.expenses && r.participants == sel.participants
    ensures HonoreesParticipate(sel) ==> HonoreesParticipate(r)
  {
    if id !in sel.participants then sel
    else sel.(honorees := Toggle(sel.honorees, id))
  }

  /** Ticking an expense twice restores the selection (as a set). */
  lemma ExpenseToggleInvolution(sel: Selection, id: Id)
    ensures Elems(ToggleExpense(ToggleExpense(sel, id), id).expenses) == Elems(sel.expenses)
    ensures id !in sel.expenses ==> ToggleExpense(ToggleExpense(sel, id), id) == sel
  {
    ToggleTwice(sel.expenses, id);
  }

  // ---------------------------------------------------------------------------
  // The calculation

  datatype Expense = Expense(id: Id, amount: int)

  /** `expenses.find(e => e.id === id)?.amount`: the amount of the first
      expense with the id. */
  function FindAmount(es: seq<Expense>, id: Id): (r: Option<int>)
    ensures r.Some? <==> exists e :: e in es && e.id == id
    ensures r.Some? ==> exists i :: 0 <= i < |es| && es[i].id == id && es[i].amount == r.value
                                    && forall j :: 0 <= j < i ==> es[j].id != id
    decreases |es|
  {
    if |es| == 0 then None
    else if es[0].id == id then Some(es[0].amount)
    else
      assert forall e :: e in es[1..] ==> e in es;
      assert forall e :: e in es && e != es[0] ==> e in es[1..];
      var r := FindAmount(es[1..], id);
      assert r.Some? ==> exists i :: 0 <= i < |es| && es[i].id == id && es[i].amount == r.value
                                     && forall j :: 0 <= j < i ==> es[j].id != id
      by {
        if r.Some? {
          var i :| 0 <= i < |es[1..]| && es[1..][i].id == id && es[1..][i].amount == r.value
                   && forall j :: 0 <= j < i ==> es[1..][j].id != id;
          forall j | 0 <= j < i + 1 ensures es[j].id != id {
            if j > 0 {
              assert es[j] == es[1..][j - 1];
            }
          }
          assert es[i + 1] == es[1..][i];
        }
      }
      r
  }

  /** Amount an id contributes to the total: its expense's amount, or 0 if none. */
  function AmountOf(es: seq<Expense>, id: Id): int {
    FindAmount(es, id).GetOr(0)
  }

  function AmountsOf(es: seq<Expense>): Id -> int {
    id => AmountOf(es, id)
  }

  /** Sum of the selected expenses' amounts: nothing when no selected id has
      an expense behind it, and never negative when no expense is. */
  function TotalSelected(es: seq<Expense>, ids: seq<Id>): (t: int)
    ensures (forall id :: id in ids ==> FindAmount(es, id).None?) ==> t == 0
    ensures (forall e :: e in es ==> e.amount >= 0) ==> t >= 0
  {
    SelectedSums(es, ids);
    SumBy(ids, AmountsOf(es))
  }

  lemma SelectedSums(es: seq<Expense>, ids: seq<Id>)
    ensures (forall id :: id in ids ==> FindAmount(es, id).None?) ==> SumBy(ids, AmountsOf(es)) == 0
    ensures (forall e :: e in es ==> e.amount >= 0) ==> SumBy(ids, AmountsOf(es)) >= 0
  {
    if forall id :: id in ids ==> FindAmount(es, id).None? {
      forall i | 0 <= i < |ids| ensures AmountsOf(es)(ids[i]) == 0 {
        assert ids[i] in ids;
      }
      SumByConst(ids, AmountsOf(es), 0);
    }
    if forall e :: e in es ==> e.amount >= 0 {
      forall i | 0 <= i < |ids| ensures AmountsOf(es)(ids[i]) >= 0 {
        var r := FindAmount(es, ids[i]);
        if r.Some? {
          var k :| 0 <= k < |es| && es[k].id == ids[i] && es[k].amount == r.value;
          assert es[k] in es;
        }
      }
      SumByNonNeg(ids, AmountsOf(es));
    }
  }

  /** Ticking an expense in adds its amount to the total, ticking it out
      subtracts it; an id with no expense behind it changes nothing. */
  lemma ToggleExpenseTotal(es: seq<Expense>, sel: Selection, id: Id)
    ensures TotalSelected(es, ToggleExpense(sel, id).expenses)
         == TotalSelected(es, sel.expenses) + (if id in sel.expenses then -AmountOf(es, id) else AmountOf(es, id))
  {
    var f := AmountsOf(es);
    if id in sel.expenses {
      SumByRemove(sel.expenses, id, f);
    } else {
      SumByAppend(sel.expenses, [id], f);
    }
  }

  datatype Method = Fund | Direct

  function MethodOf(m: Member): (r: Method)
    ensures r == Fund <==> m.inFund
  {
    if m.inFund then Fund else Direct
  }

  /** Participants who are not celebrated, in selection order. */
  function Payers(sel: Selection): (r: seq<Id>)
    ensures forall x :: x in r <==> x in sel.participants && x !in sel.honorees
    ensures NoDups(r)
  {
    FilterNoDups(sel.participants, p => p !in sel.honorees);
    Filter(sel.participants, p => p !in sel.honorees)
  }

  /** What a participant owes. With more than one honoree the honorees share the
      whole total and everybody else owes nothing; otherwise the payers share it
      and the honoree (if any) owes nothing. */
  function Owed(sel: Selection, total: int, id: Id): real {
    if |sel.honorees| > 1 then
      (if id in sel.honorees then total as real / |sel.honorees| as real else 0.0)
    else
      var payers := Payers(sel);
      if id in payers then total as real / |payers| as real else 0.0
  }

  /** One line of the breakdown: the employee, what they owe and how they pay. */
  datatype Share = Share(member: Member, amountOwed: real, via: Method)

  /** Whether an employee's id is among `ids`. */
  function ListedIn(ids: seq<Id>): Member -> bool {
    (m: Member) => m.id in ids
  }

  /** A line for each employee whose id is in `ids`, owing `owed` of it, in
      employee-list order. */
  function Rows(ms: seq<Member>, ids: seq<Id>, owed: Id -> real): (r: seq<Share>)
    ensures var ls := Filter(ms, ListedIn(ids));
      |r| == |ls| && forall i :: 0 <= i < |r| ==> r[i] == Share(ls[i], owed(ls[i].id), MethodOf(ls[i]))
    ensures |r| == CountIn(ms, ids)
    decreases |ms|
  {
    if |ms| == 0 then []
    else
      var rest := Rows(ms[1..], ids, owed);
      var m := ms[0];
      if m.id in ids then
        var r := [Share(m, owed(m.id), MethodOf(m))] + rest;
        assert Filter(ms, ListedIn(ids)) == [m] + Filter(ms[1..], ListedIn(ids));
        assert forall i :: 0 < i < |r| ==> r[i] == rest[i - 1];
        r
      else
        assert Filter(ms, ListedIn(ids)) == Filter(ms[1..], ListedIn(ids));
        rest
  }

  /** The breakdown: a line for each participating employee. */
  function Breakdown(ms: seq<Member>, sel: Selection, total: int): (r: seq<Share>)
    ensures var ls := Filter(ms, ListedIn(sel.participants));
      |r| == |ls| && forall i :: 0 <= i < |r| ==> r[i] == Share(ls[i], Owed(sel, total, ls[i].id), MethodOf(ls[i]))
    ensures |r| == CountIn(ms, sel.participants)
    ensures forall s :: s in r ==> s.member in ms && s.member.id in sel.participants
    ensures forall s :: s in r ==> s.amountOwed == Owed(sel, total, s.member.id) && s.via == MethodOf(s.member)
    ensures forall m :: m in ms && m.id in sel.participants ==> Share(m, Owed(sel, total, m.id), MethodOf(m)) in r
  {
    var r := Rows(ms, sel.participants, OwedBy(sel, total));
    LinesInOrder(ms, sel.participants, OwedBy(sel, total), r);
    r
  }

  /** Lines laid out one per listed employee, in list order, are exactly the
      listed employees' lines. */
  lemma LinesInOrder(ms: seq<Member>, ids: seq<Id>, owed: Id -> real, r: seq<Share>)
    requires var ls := Filter(ms, ListedIn(ids));
      |r| == |ls| && forall i :: 0 <= i < |r| ==> r[i] == Share(ls[i], owed(ls[i].id), MethodOf(ls[i]))
    ensures forall s :: s in r ==> s.member in ms && s.member.id in ids
    ensures forall s :: s in r ==> s.amountOwed == owed(s.member.id) && s.via == MethodOf(s.member)
    ensures forall m :: m in ms && m.id in ids ==> Share(m, owed(m.id), MethodOf(m)) in r
  {
    var ls := Filter(ms, ListedIn(ids));
    forall s | s in r ensures s.member in ms && s.member.id in ids {
      var i :| 0 <= i < |r| && r[i] == s;
      assert ls[i] in ls;
    }
    forall m | m in ms && m.id in ids ensures Share(m, owed(m.id), MethodOf(m)) in r {
      assert ListedIn(ids)(m);
      var i :| 0 <= i < |ls| && ls[i] == m;
      assert r[i] == Share(m, owed(m.id), MethodOf(m));
    }
  }

  function OwedBy(sel: Selection, total: int): Id -> real {
    id => Owed(sel, total, id)
  }

  function SumOwed(r: seq<Share>): real {
    SumByReal(r, (s: Share) => s.amountOwed)
  }

  function SumOwedBy(r: seq<Share>, via: Method): real {
    SumByReal(r, (s: Share) => if s.via == via then s.amountOwed else 0.0)
  }

  /** The calculator's outputs: total, amount per person, fund and direct totals, breakdown. */
  datatype Calculation = Calculation(total: int, perPerson: real, fundTotal: real, directTotal: real, breakdown: seq<Share>)

  /** The calculation effect. `shownPerPerson` is the amount per person on screen
      before it runs: with more than one honoree it is not recomputed. */
  function Calculate(es: seq<Expense>, ms: seq<Member>, sel: Selection, shownPerPerson: real): (c: Calculation)
    ensures c.total == TotalSelected(es, sel.expenses)
    ensures c.total == 0 || |sel.participants| == 0 ==>
      c.perPerson == 0.0 && c.fundTotal == 0.0 && c.directTotal == 0.0 && c.breakdown == []
    ensures c.total != 0 && |sel.participants| != 0 ==> c.breakdown == Breakdown(ms, sel, c.total)
    ensures c.total != 0 && |sel.participants| != 0 ==>
      c.perPerson == (if |sel.honorees| > 1 then shownPerPerson
                      else if |Payers(sel)| > 0 then c.total as real / |Payers(sel)| as real
                      else 0.0)
    ensures c.fundTotal == SumOwedBy(c.breakdown, Fund) && c.directTotal == SumOwedBy(c.breakdown, Direct)
    ensures c.fundTotal + c.directTotal == SumOwed(c.breakdown)
  {
    var total := TotalSelected(es, sel.expenses);
    if total == 0 || |sel.participants| == 0 then
      Calculation(total, 0.0, 0.0, 0.0, [])
    else
      var rows := Breakdown(ms, sel, total);
      FundPlusDirect(rows);
      var payers := Payers(sel);
      var perPerson :=
        if |sel.honorees| > 1 then shownPerPerson
        else if |payers| > 0 then total as real / |payers| as real
        else 0.0;
      Calculation(total, perPerson, SumOwedBy(rows, Fund), SumOwedBy(rows, Direct), rows)
  }

  lemma {:induction false} FundPlusDirect(r: seq<Share>)
    ensures SumOwedBy(r, Fund) + SumOwedBy(r, Direct) == SumOwed(r)
    decreases |r|
  {
    if |r| > 0 {
      FundPlusDirect(r[1..]);
    }
  }

  // ---------------------------------------------------------------------------
  // Counting participants among the employees

  function IdSetOf(ms: seq<Member>): set<Id>
    decreases |ms|
  {
    if |ms| == 0 then {} else {ms[0].id} + IdSetOf(ms[1..])
  }

  /** No two employees share an id. */
  predicate DistinctIds(ms: seq<Member>)
    decreases |ms|
  {
    |ms| == 0 || (ms[0].id !in IdSetOf(ms[1..]) && DistinctIds(ms[1..]))
  }

  /** Number of employees whose id is in `s`. */
  function CountIn(ms: seq<Member>, s: seq<Id>): nat
    decreases |ms|
  {
    if |ms| == 0 then 0 else (if ms[0].id in s then 1 else 0) + CountIn(ms[1..], s)
  }

  lemma {:induction false} CountInIsCard(ms: seq<Member>, s: seq<Id>)
    requires DistinctIds(ms)
    ensures CountIn(ms, s) == |IdSetOf(ms) * Elems(s)|
    decreases |ms|
  {
    if |ms| > 0 {
      CountInIsCard(ms[1..], s);
      var rest := IdSetOf(ms[1..]) * Elems(s);
      if ms[0].id in s {
        assert IdSetOf(ms) * Elems(s) == {ms[0].id} + rest;
      } else {
        assert IdSetOf(ms) * Elems(s) == rest;
      }
    }
  }

  lemma IdSetOfMembers(ms: seq<Member>)
    ensures forall m :: m in ms ==> m.id in IdSetOf(ms)
    ensures forall id :: id in IdSetOf(ms) ==> exists m :: m in ms && m.id == id
  {
    IdSetOfMembersRec(ms);
  }

  lemma {:induction false} IdSetOfMembersRec(ms: seq<Member>)
    ensures forall m :: m in ms ==> m.id in IdSetOf(ms)
    ensures forall id :: id in IdSetOf(ms) ==> exists m :: m in ms && m.id == id
    decreases |ms|
  {
    if |ms| > 0 {
      IdSetOfMembersRec(ms[1..]);
      assert forall m :: m in ms[1..] ==> m in ms;
      assert forall m :: m in ms && m != ms[0] ==> m in ms[1..];
    }
  }

  /** When every participant is on the employee list and ids are distinct, the
      breakdown has exactly one line per participant. */
  lemma BreakdownOnePerParticipant(ms: seq<Member>, sel: Selection, total: int)
    requires DistinctIds(ms)
    requires forall id :: id in sel.participants ==> id in IdSetOf(ms)
    ensures |Breakdown(ms, sel, total)| == |sel.participants|
  {
    CountInCovered(ms, sel.participants);
  }

  /** Before any box is ticked, every active employee without a leave date has
      a line, and each participant owes an equal share of the total. */
  lemma DefaultBreakdown(ms: seq<Member>, total: int)
    ensures var sel := InitialSelection(ms);
      forall m :: m in ms && IsDefault(m) ==> Share(m, Owed(sel, total, m.id), MethodOf(m)) in Breakdown(ms, sel, total)
    ensures var sel := InitialSelection(ms);
      forall id :: id in sel.participants ==> Owed(sel, total, id) == total as real / |sel.participants| as real
  {
    var sel := InitialSelection(ms);
    FilterAll(sel.participants, p => p !in sel.honorees);
    assert Payers(sel) == sel.participants;
  }

  /** When every id of `s` belongs to an employee, exactly |s| employees are in `s`. */
  lemma CountInCovered(ms: seq<Member>, s: seq<Id>)
    requires DistinctIds(ms) && NoDups(s)
    requires forall id :: id in s ==> id in IdSetOf(ms)
    ensures CountIn(ms, s) == |s|
  {
    CountInIsCard(ms, s);
    assert IdSetOf(ms) * Elems(s) == Elems(s);
    NoDupsCard(s);
  }

  /** `n` copies of `c` added up. */
  function Times(c: real, n: nat): real {
    if n == 0 then 0.0 else c + Times(c, n - 1)
  }

  lemma {:induction false} TimesIsProduct(c: real, n: nat)
    ensures Times(c, n) == c * n as real
  {
    if n > 0 {
      TimesIsProduct(c, n - 1);
    }
  }

  /** `n` equal shares of `t` add back up to `t`. */
  lemma SharesAddUp(t: real, n: nat)
    requires n > 0
    ensures Times(t / n as real, n) == t
  {
    TimesIsProduct(t / n as real, n);
  }

  /** When everyone in `s` owes `c` and every other listed id owes nothing,
      the rows add up to `c` once for each employee in `s`. */
  lemma {:induction false} SumOwedUniform(ms: seq<Member>, ids: seq<Id>, owed: Id -> real, s: seq<Id>, c: real)
    requires forall id :: id in s ==> id in ids
    requires forall id :: id in ids ==> owed(id) == (if id in s then c else 0.0)
    ensures SumOwed(Rows(ms, ids, owed)) == Times(c, CountIn(ms, s))
    decreases |ms|
  {
    if |ms| > 0 {
      var k := CountIn(ms[1..], s);
      SumOwedUniform(ms[1..], ids, owed, s, c);
      assert CountIn(ms, s) == (if ms[0].id in s then k + 1 else k);
    }
  }

  // ---------------------------------------------------------------------------
  // Properties of the split

  /** With at most one honoree and at least one payer, each payer owes an equal
      share of the total, the honoree nothing; when the participants are all on
      the employee list, the shares add up to the total. */
  lemma EvenSplit(es: seq<Expense>, ms: seq<Member>, sel: Selection, shown: real)
    requires |sel.honorees| <= 1
    requires |Payers(sel)| >= 1
    ensures var c := Calculate(es, ms, sel, shown);
      c.total != 0 ==>
        && c.perPerson == c.total as real / |Payers(sel)| as real
        && forall s :: s in c.breakdown ==>
             s.amountOwed == (if s.member.id in sel.honorees then 0.0 else c.perPerson)
    ensures var c := Calculate(es, ms, sel, shown);
      DistinctIds(ms) && (forall id :: id in sel.participants ==> id in IdSetOf(ms)) ==>
        SumOwed(c.breakdown) == c.total as real
  {
    var c := Calculate(es, ms, sel, shown);
    var payers := Payers(sel);
    if c.total != 0 && DistinctIds(ms) && (forall id :: id in sel.participants ==> id in IdSetOf(ms)) {
      var share := c.total as real / |payers| as real;
      assert forall id :: id in sel.participants ==> Owed(sel, c.total, id) == (if id in payers then share else 0.0);
      SumOwedUniform(ms, sel.participants, OwedBy(sel, c.total), payers, share);
      CountInCovered(ms, payers);
      SharesAddUp(c.total as real, |payers|);
      assert payers[0] in sel.participants;
      assert c.breakdown == Rows(ms, sel.participants, OwedBy(sel, c.total));
      assert SumOwed(c.breakdown) == Times(share, |payers|);
    } else if c.total == 0 {
      assert c.breakdown == [];
    }
  }

  /** With at most one honoree and nobody else, everybody owes nothing. */
  lemma NoPayers(es: seq<Expense>, ms: seq<Member>, sel: Selection, shown: real)
    requires |sel.honorees| <= 1
    requires |Payers(sel)| == 0
    ensures var c := Calculate(es, ms, sel, shown);
      c.perPerson == 0.0 && c.fundTotal == 0.0 && c.directTotal == 0.0
      && forall s :: s in c.breakdown ==> s.amountOwed == 0.0
  {
    var c := Calculate(es, ms, sel, shown);
    if c.total != 0 && |sel.participants| != 0 {
      SumOwedUniform(ms, sel.participants, OwedBy(sel, c.total), [], 0.0);
      ZeroOwedSplit(c.breakdown);
    }
  }

  lemma {:induction false} ZeroOwedSplit(r: seq<Share>)
    requires forall s :: s in r ==> s.amountOwed == 0.0
    ensures SumOwedBy(r, Fund) == 0.0 && SumOwedBy(r, Direct) == 0.0
    decreases |r|
  {
    if |r| > 0 {
      assert forall s :: s in r[1..] ==> s in r;
      ZeroOwedSplit(r[1..]);
    }
  }

  /** With several honorees, the honorees share the total and the others owe
      nothing; when the honorees are participants on the employee list, the
      shares add up to the total. */
  lemma HonoreesSplit(es: seq<Expense>, ms: seq<Member>, sel: Selection, shown: real)
    requires |sel.honorees| > 1
    ensures var c := Calculate(es, ms, sel, shown);
      c.total != 0 && |sel.participants| != 0 ==>
        && c.perPerson == shown
        && forall s :: s in c.breakdown ==>
             s.amountOwed == (if s.member.id in sel.honorees then c.total as real / |sel.honorees| as real else 0.0)
    ensures var c := Calculate(es, ms, sel, shown);
      HonoreesParticipate(sel) && DistinctIds(ms) && (forall id :: id in sel.participants ==> id in IdSetOf(ms)) ==>
        SumOwed(c.breakdown) == c.total as real
  {
    var c := Calculate(es, ms, sel, shown);
    if c.total != 0 && HonoreesParticipate(sel) && DistinctIds(ms) && (forall id :: id in sel.participants ==> id in IdSetOf(ms)) {
      var cost := c.total as real / |sel.honorees| as real;
      SumOwedUniform(ms, sel.participants, OwedBy(sel, c.total), sel.honorees, cost);
      CountInCovered(ms, sel.honorees);
      SharesAddUp(c.total as real, |sel.honorees|);
      assert c.breakdown == Breakdown(ms, sel, c.total);
    }
  }

  /** An amount counts toward the fund total exactly when its employee takes
      part in the fund, and toward the direct total otherwise. */
  lemma FundSplit(r: seq<Share>)
    requires forall s :: s in r ==> s.via == MethodOf(s.member)
    ensures SumOwedBy(r, Fund) == SumByReal(r, (s: Share) => if s.member.inFund then s.amountOwed else 0.0)
    ensures SumOwedBy(r, Direct) == SumByReal(r, (s: Share) => if s.member.inFund then 0.0 else s.amountOwed)
  {
    FundSplitRec(r);
  }

  lemma {:induction false} FundSplitRec(r: seq<Share>)
    requires forall s :: s in r ==> s.via == MethodOf(s.member)
    ensures SumOwedBy(r, Fund) == SumByReal(r, (s: Share) => if s.member.inFund then s.amountOwed else 0.0)
    ensures SumOwedBy(r, Direct) == SumByReal(r, (s: Share) => if s.member.inFund then 0.0 else s.amountOwed)
    decreases |r|
  {
    if |r| > 0 {
      assert forall s :: s in r[1..] ==> s in r;
      FundSplitRec(r[1..]);
    }
  }

  // ---------------------------------------------------------------------------
  // Creating a sharing record

  datatype PaymentStatus = Paid | Pending

  /** A `bill_sharing_expenses` row: the expense and its amount at link time. */
  datatype ExpenseLink = ExpenseLink(sharingId: Id, expenseId: Id, amount: int)

  /** A `bill_sharing_participants` row. */
  datatype ParticipantRow = ParticipantRow(sharingId: Id, employeeId: Id, amountOwed: real,
                                           isBirthdayPerson: bool, via: Method, status: PaymentStatus)

  /** The links for the selected expenses, in selection order; `None` when a
      selected id has no expense any more (the `.find(...).amount` throws). */
  function BuildLinks(sharingId: Id, ids: seq<Id>, es: seq<Expense>): (r: Option<seq<ExpenseLink>>)
    ensures r.Some? <==> forall id :: id in ids ==> FindAmount(es, id).Some?
    ensures r.Some? ==> |r.value| == |ids| && forall i :: 0 <= i < |ids| ==>
      r.value[i] == ExpenseLink(sharingId, ids[i], AmountOf(es, ids[i]))
    decreases |ids|
  {
    if |ids| == 0 then Some([])
    else if FindAmount(es, ids[0]).None? then
      assert ids[0] in ids;
      None
    else
      assert forall id :: id in ids[1..] ==> id in ids;
      assert forall id :: id in ids && id != ids[0] ==> id in ids[1..];
      match BuildLinks(sharingId, ids[1..], es)
      case None =>
        None
      case Some(rest) =>
        Some([ExpenseLink(sharingId, ids[0], AmountOf(es, ids[0]))] + rest)
  }

  /** A participant row for every line of the breakdown; nothing owed means paid. */
  function BuildParticipants(sharingId: Id, rows: seq<Share>, honorees: IdSet): (r: seq<ParticipantRow>)
    ensures |r| == |rows|
    ensures forall i :: 0 <= i < |rows| ==>
      && r[i].sharingId == sharingId
      && r[i].employeeId == rows[i].member.id
      && r[i].amountOwed == rows[i].amountOwed
      && r[i].via == rows[i].via
      && (r[i].status == Paid <==> rows[i].amountOwed == 0.0)
      && (r[i].isBirthdayPerson <==> rows[i].member.id in honorees)
  {
    seq(|rows|, i requires 0 <= i < |rows| =>
      ParticipantRow(sharingId, rows[i].member.id, rows[i].amountOwed,
                     rows[i].member.id in honorees, rows[i].via,
                     if rows[i].amountOwed == 0.0 then Paid else Pending))
  }

  /** What pressing "Create" writes: the sharing record is inserted first, so a
      missing expense leaves it behind without links or participants. */
  datatype CreateOutcome =
    | Created(totalAmount: int, sharingDate: Date, links: seq<ExpenseLink>, participants: seq<ParticipantRow>)
    | LinksFailed(totalAmount: int, sharingDate: Date)

  function CreateSharing(sharingId: Id, today: Date, es: seq<Expense>, sel: Selection, plan: Calculation): (r: CreateOutcome)
    ensures r.totalAmount == plan.total && r.sharingDate == today
    ensures r.Created? <==> forall id :: id in sel.expenses ==> FindAmount(es, id).Some?
    ensures r.Created? ==> BuildLinks(sharingId, sel.expenses, es) == Some(r.links)
    ensures r.Created? ==> r.participants == BuildParticipants(sharingId, plan.breakdown, sel.honorees)
  {
    match BuildLinks(sharingId, sel.expenses, es)
    case None => LinksFailed(plan.total, today)
    case Some(links) => Created(plan.total, today, links, BuildParticipants(sharingId, plan.breakdown, sel.honorees))
  }

  /** The selection after "Create": cleared on success, kept on failure. */
  function AfterCreate(sel: Selection, r: CreateOutcome): (s: Selection)
    ensures r.Created? ==> s.expenses == [] && s.participants == [] && s.honorees == []
    ensures r.LinksFailed? ==> s == sel
  {
    if r.Created? then Selection([], [], []) else sel
  }

  function LinksTotal(links: seq<ExpenseLink>): int {
    SumBy(links, (l: ExpenseLink) => l.amount)
  }

  /** The recorded total is the sum of the amounts snapshotted in the links,
      when the calculation was made from the same expenses and selection. */
  lemma CreatedTotalMatchesLinks(sharingId: Id, today: Date, es: seq<Expense>, ms: seq<Member>, sel: Selection, shown: real)
    ensures var r := CreateSharing(sharingId, today, es, sel, Calculate(es, ms, sel, shown));
      r.Created? ==> r.totalAmount == LinksTotal(r.links)
  {
    var r := CreateSharing(sharingId, today, es, sel, Calculate(es, ms, sel, shown));
    if r.Created? {
      LinksSum(sharingId, sel.expenses, es);
    }
  }

  lemma {:induction false} LinksSum(sharingId: Id, ids: seq<Id>, es: seq<Expense>)
    requires BuildLinks(sharingId, ids, es).Some?
    ensures LinksTotal(BuildLinks(sharingId, ids, es).value) == TotalSelected(es, ids)
    decreases |ids|
  {
    if |ids| > 0 {
      LinksSum(sharingId, ids[1..], es);
    }
  }

  // ---------------------------------------------------------------------------
  // Marking a participant paid or pending

  datatype HistoryRow = HistoryRow(id: Id, employeeName: string, amountOwed: real, status: PaymentStatus)
  datatype Sharing = Sharing(id: Id, totalAmount: int, status: string, participants: seq<HistoryRow>)

  /** The database update: the new status, and the moment of payment iff paid. */
  datatype StatusUpdate = StatusUpdate(participantId: Id, status: PaymentStatus, paymentDate: Option<Now>)

  function Flip(s: PaymentStatus): (r: PaymentStatus)
    ensures r != s
  {
    if s == Paid then Pending else Paid
  }

  /** The optimistic display: the targeted participant shows the new status. */
  function SetStatus(history: seq<Sharing>, participantId: Id, status: PaymentStatus): (r: seq<Sharing>)
    ensures |r| == |history|
    ensures forall i :: 0 <= i < |history| ==>
      && r[i].id == history[i].id && r[i].totalAmount == history[i].totalAmount
      && r[i].status == history[i].status
      && |r[i].participants| == |history[i].participants|
      && forall j :: 0 <= j < |history[i].participants| ==>
           var p, q := history[i].participants[j], r[i].participants[j];
           q == (if p.id == participantId then p.(status := status) else p)
  {
    seq(|history|, i requires 0 <= i < |history| =>
      history[i].(participants := seq(|history[i].participants|, j requires 0 <= j < |history[i].participants| =>
        var p := history[i].participants[j];
        if p.id == participantId then p.(status := status) else p)))
  }

  /** Pressing the status button: the update sent, and what is displayed once
      the database has answered (the previous history again if it failed). */
  function TogglePaymentStatus(history: seq<Sharing>, participantId: Id, current: PaymentStatus,
                               now: Now, failed: bool): (r: (seq<Sharing>, StatusUpdate))
    ensures r.1.participantId == participantId && r.1.status == Flip(current)
    ensures r.1.paymentDate.Some? <==> r.1.status == Paid
    ensures r.1.paymentDate.Some? ==> r.1.paymentDate.value == now
    ensures failed ==> r.0 == history
    ensures !failed ==> r.0 == SetStatus(history, participantId, Flip(current))
  {
    var status := Flip(current);
    var update := StatusUpdate(participantId, status, if status == Paid then Some(now) else None);
    (if failed then history else SetStatus(history, participantId, status), update)
  }

  /** Toggling a participant twice, both times successfully and from the status
      on display, brings every participant back to their status. */
  lemma ToggleStatusTwice(history: seq<Sharing>, participantId: Id, current: PaymentStatus, now: Now, later: Now)
    requires forall sh, p :: sh in history && p in sh.participants && p.id == participantId ==> p.status == current
    ensures var once := TogglePaymentStatus(history, participantId, current, now, false).0;
      TogglePaymentStatus(once, participantId, Flip(current), later, false).0 == history
  {
    var once := SetStatus(history, participantId, Flip(current));
    var twice := SetStatus(once, participantId, Flip(Flip(current)));
    assert Flip(Flip(current)) == current;
    forall i | 0 <= i < |history| ensures twice[i] == history[i] {
      forall j | 0 <= j < |history[i].participants|
        ensures twice[i].participants[j] == history[i].participants[j]
      {
        var p := history[i].participants[j];
        assert p in history[i].participants;
      }
      assert twice[i].participants == history[i].participants;
    }
  }
}
