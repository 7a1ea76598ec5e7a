/** The order of JavaScript's default `Array.prototype.sort` on strings, taken
    character by character with a proper prefix sorting first. Characters are
    compared by code point, which agrees with JavaScript's UTF-16 code-unit
    order on text with no character above U+FFFF. */
module StringOrder {
  import opened Base
  import opened Text

  /** `a < b` on strings, by code point. */
  predicate LexLess(a: string, b: string)
    decreases |a|
  {
    if |a| == 0 then |b| > 0
    else |b| > 0 && (a[0] < b[0] || (a[0] == b[0] && LexLess(a[1..], b[1..])))
  }

  lemma {:induction false} LexIrreflexive(a: string)
    ensures !LexLess(a, a)
    decreases |a|
  {
    if |a| > 0 {
      LexIrreflexive(a[1..]);
    }
  }

  lemma {:induction false} LexTransitive(a: string, b: string, c: string)
    requires LexLess(a, b) && LexLess(b, c)
    ensures LexLess(a, c)
    decreases |a|
  {
    if |a| > 0 && a[0] == b[0] && b[0] == c[0] {
      LexTransitive(a[1..], b[1..], c[1..]);
    }
  }

  lemma {:induction false} LexTotal(a: string, b: string)
    requires a != b
    ensures LexLess(a, b) || LexLess(b, a)
    decreases |a|
  {
    if |a| > 0 && |b| > 0 && a[0] == b[0] {
      LexTotal(a[1..], b[1..]);
    }
  }

  lemma LexAsymmetric(a: string, b: string)
    requires LexLess(a, b)
    ensures !LexLess(b, a)
  {
    if LexLess(b, a) {
      LexTransitive(a, b, a);
      LexIrreflexive(a);
    }
  }

  /** Comparing equal-length heads first: the order of `x + y` against `x' + y'`
      is decided by the heads, and by the tails when the heads agree. */
  lemma {:induction false} LexConcat(x: string, y: string, x': string, y': string)
    requires |x| == |x'|
    ensures LexLess(x + y, x' + y') <==> LexLess(x, x') || (x == x' && LexLess(y, y'))
    decreases |x|
  {
    if |x| == 0 {
      assert x + y == y && x' + y' == y';
    } else {
      assert (x + y)[0] == x[0] && (x' + y')[0] == x'[0];
      assert (x + y)[1..] == x[1..] + y && (x' + y')[1..] == x'[1..] + y';
      LexConcat(x[1..], y, x'[1..], y');
      if x[0] == x'[0] && x[1..] == x'[1..] {
        assert x == [x[0]] + x[1..] && x' == [x'[0]] + x'[1..];
      }
      if x == x' {
        assert x[1..] == x'[1..];
      }
    }
  }

  lemma {:induction false} DigitsInjective(a: nat, b: nat, k: nat)
    requires a < Pow10(k) && b < Pow10(k)
    ensures Digits(a, k) == Digits(b, k) <==> a == b
  {
    if Digits(a, k) == Digits(b, k) {
      DigitsValueOfDigits(a, k);
      DigitsValueOfDigits(b, k);
    }
  }

  /** Zero-padded numbers of the same width sort as strings exactly as they
      sort as numbers. */
  lemma {:induction false} DigitsOrder(a: nat, b: nat, k: nat)
    requires a < Pow10(k) && b < Pow10(k)
    ensures LexLess(Digits(a, k), Digits(b, k)) <==> a < b
    decreases k
  {
    if k > 0 {
      var da, db := Digits(a / 10, k - 1), Digits(b / 10, k - 1);
      DigitsOrder(a / 10, b / 10, k - 1);
      DigitsInjective(a / 10, b / 10, k - 1);
      LexConcat(da, [DigitChar(a % 10)], db, [DigitChar(b % 10)]);
      assert LexLess([DigitChar(a % 10)], [DigitChar(b % 10)]) <==> a % 10 < b % 10 by {
        assert [DigitChar(a % 10)][1..] == [] && [DigitChar(b % 10)][1..] == [];
      }
    }
  }

  /** Non-decreasing: no later element sorts before an earlier one. */
  predicate Sorted(s: seq<string>) {
    forall i, j :: 0 <= i < j < |s| ==> !LexLess(s[j], s[i])
  }

  /** Places `x` before the first element that sorts after it. */
  function Insert(s: seq<string>, x: string): (r: seq<string>)
    ensures multiset(r) == multiset(s) + multiset{x}
    ensures Sorted(s) ==> Sorted(r)
    decreases |s|
  {
    if |s| == 0 then [x]
    else if LexLess(x, s[0]) then
      ConsSmaller(x, s);
      [x] + s
    else
      var t := Insert(s[1..], x);
      ConsInserted(s, x, t);
      [s[0]] + t
  }

  lemma SortedTail(s: seq<string>)
    requires Sorted(s) && |s| > 0
    ensures Sorted(s[1..])
  {
    forall i, j | 0 <= i < j < |s[1..]| ensures !LexLess(s[1..][j], s[1..][i]) {
      assert s[1..][i] == s[i + 1] && s[1..][j] == s[j + 1];
    }
  }

  /** A string sorting before the head of a sorted list can go in front. */
  lemma ConsSmaller(x: string, s: seq<string>)
    requires |s| > 0 && LexLess(x, s[0])
    ensures multiset([x] + s) == multiset(s) + multiset{x}
    ensures Sorted(s) ==> Sorted([x] + s)
  {
    var r := [x] + s;
    if Sorted(s) {
      forall i, j | 0 <= i < j < |r| ensures !LexLess(r[j], r[i]) {
        if i == 0 {
          assert r[j] == s[j - 1];
          NotBeforeHead(s, j - 1);
          if LexLess(s[j - 1], x) {
            LexTransitive(s[j - 1], x, s[0]);
          }
        } else {
          assert r[i] == s[i - 1] && r[j] == s[j - 1];
        }
      }
    }
  }

  /** The head of a sorted list goes in front of the rest with `x` inserted,
      when `x` does not sort before it. */
  lemma ConsInserted(s: seq<string>, x: string, t: seq<string>)
    requires |s| > 0 && !LexLess(x, s[0])
    requires multiset(t) == multiset(s[1..]) + multiset{x}
    requires Sorted(s[1..]) ==> Sorted(t)
    ensures multiset([s[0]] + t) == multiset(s) + multiset{x}
    ensures Sorted(s) ==> Sorted([s[0]] + t)
  {
    assert s == [s[0]] + s[1..];
    if Sorted(s) {
      SortedTail(s);
      HeadFirst(s, x, t);
      ConsSorted(s[0], t);
    }
  }

  /** A string no element of a sorted list sorts before can go in front. */
  lemma ConsSorted(h: string, t: seq<string>)
    requires Sorted(t)
    requires forall k :: 0 <= k < |t| ==> !LexLess(t[k], h)
    ensures Sorted([h] + t)
  {
    var r := [h] + t;
    forall i, j | 0 <= i < j < |r| ensures !LexLess(r[j], r[i]) {
      assert r[j] == t[j - 1];
      if i > 0 {
        assert r[i] == t[i - 1];
      }
    }
  }

  /** Nothing in the tail with `x` inserted sorts before the head. */
  lemma HeadFirst(s: seq<string>, x: string, t: seq<string>)
    requires Sorted(s) && |s| > 0 && !LexLess(x, s[0])
    requires multiset(t) == multiset(s[1..]) + multiset{x}
    ensures forall k :: 0 <= k < |t| ==> !LexLess(t[k], s[0])
  {
    forall k | 0 <= k < |t| ensures !LexLess(t[k], s[0]) {
      assert t[k] in multiset(t);
      if t[k] != x {
        assert t[k] in multiset(s[1..]);
        var m :| 0 <= m < |s[1..]| && s[1..][m] == t[k];
        NotBeforeHead(s, m + 1);
      }
    }
  }

  /** Insertion sort; any correct sort returns the same sequence, because equal
      strings are indistinguishable. */
  function Sort(s: seq<string>): (r: seq<string>)
    ensures Sorted(r)
    ensures multiset(r) == multiset(s)
    decreases |s|
  {
    if |s| == 0 then []
    else
      assert s == s[..|s| - 1] + [s[|s| - 1]];
      Insert(Sort(s[..|s| - 1]), s[|s| - 1])
  }

  /** Inserting an element no earlier element sorts after appends it. */
  lemma {:induction false} InsertLast(s: seq<string>, x: string)
    requires forall k :: 0 <= k < |s| ==> !LexLess(x, s[k])
    ensures Insert(s, x) == s + [x]
    decreases |s|
  {
    if |s| > 0 {
      InsertLast(s[1..], x);
      assert s == [s[0]] + s[1..];
    }
  }

  /** Sorting an already sorted sequence changes nothing. */
  lemma {:induction false} SortSorted(s: seq<string>)
    requires Sorted(s)
    ensures Sort(s) == s
    decreases |s|
  {
    if |s| > 0 {
      var p, x := s[..|s| - 1], s[|s| - 1];
      SortedLast(s);
      forall k | 0 <= k < |p| ensures !LexLess(x, p[k]) {
        assert p[k] == s[k];
      }
      SortSorted(p);
      InsertLast(p, x);
      assert p + [x] == s;
    }
  }

  /** Dropping the last element keeps a list sorted. */
  lemma SortedLast(s: seq<string>)
    requires Sorted(s) && |s| > 0
    ensures Sorted(s[..|s| - 1])
  {
    var p := s[..|s| - 1];
    forall i, j | 0 <= i < j < |p| ensures !LexLess(p[j], p[i]) {
      assert p[i] == s[i] && p[j] == s[j];
    }
  }

  /** A sub-sequence of a sorted sequence is sorted. */
  lemma {:induction false} SubseqSorted(r: seq<string>, s: seq<string>)
    requires Subseq(r, s) && Sorted(s)
    ensures Sorted(r)
    decreases |s|
  {
    if |r| > 0 {
      assert Sorted(s[1..]);
      if r[0] == s[0] && Subseq(r[1..], s[1..]) {
        SubseqSorted(r[1..], s[1..]);
        SubseqMembers(r[1..], s[1..]);
        forall i, j | 0 <= i < j < |r| ensures !LexLess(r[j], r[i]) {
          if i == 0 {
            assert r[j] == r[1..][j - 1];
            assert r[j] in s[1..];
            var k :| 0 <= k < |s[1..]| && s[1..][k] == r[j];
            assert s[k + 1] == r[j];
          } else {
            assert r[i] == r[1..][i - 1] && r[j] == r[1..][j - 1];
          }
        }
      } else {
        SubseqSorted(r, s[1..]);
      }
    }
  }

  lemma {:induction false} SubseqMembers<T>(r: seq<T>, s: seq<T>)
    requires Subseq(r, s)
    ensures forall x :: x in r ==> x in s
    decreases |s|
  {
    if |r| > 0 {
      if r[0] == s[0] && Subseq(r[1..], s[1..]) {
        SubseqMembers(r[1..], s[1..]);
        assert forall x :: x in r ==> x == r[0] || x in r[1..];
      } else {
        SubseqMembers(r, s[1..]);
      }
    }
  }

  /** Sorting is unique: two sorted arrangements of the same strings are equal. */
  lemma {:induction false} SortedUnique(a: seq<string>, b: seq<string>)
    requires Sorted(a) && Sorted(b) && multiset(a) == multiset(b)
    ensures a == b
    decreases |a|
  {
    if |a| == 0 {
      assert |b| == |multiset(b)| == 0;
    } else {
      assert |b| == |multiset(b)| == |multiset(a)| == |a|;
      SameHead(a, b);
      TailMultiset(a, b);
      SortedUnique(a[1..], b[1..]);
      assert a == [a[0]] + a[1..] && b == [b[0]] + b[1..];
    }
  }

  /** Two sorted arrangements of the same strings start alike. */
  lemma SameHead(a: seq<string>, b: seq<string>)
    requires Sorted(a) && Sorted(b) && multiset(a) == multiset(b) && |a| > 0 && |b| > 0
    ensures a[0] == b[0]
  {
    assert a[0] in multiset(b) && b[0] in multiset(a);
    var i :| 0 <= i < |b| && b[i] == a[0];
    var j :| 0 <= j < |a| && a[j] == b[0];
    NotBeforeHead(b, i);
    NotBeforeHead(a, j);
    LexTotalOrEqual(a[0], b[0]);
  }

  /** No element of a sorted list sorts before its head. */
  lemma NotBeforeHead(s: seq<string>, k: nat)
    requires Sorted(s) && k < |s|
    ensures !LexLess(s[k], s[0])
  {
    if k == 0 {
      LexIrreflexive(s[0]);
    }
  }

  lemma LexTotalOrEqual(a: string, b: string)
    ensures a == b || LexLess(a, b) || LexLess(b, a)
  {
    if a != b {
      LexTotal(a, b);
    }
  }

  /** Equal multisets with equal heads have equal tails. */
  lemma TailMultiset(a: seq<string>, b: seq<string>)
    requires multiset(a) == multiset(b) && |a| > 0 && |b| > 0 && a[0] == b[0]
    ensures multiset(a[1..]) == multiset(b[1..])
  {
    assert a == [a[0]] + a[1..];
    assert b == [b[0]] + b[1..];
    assert multiset(a) == multiset{a[0]} + multiset(a[1..]);
    assert multiset(b) == multiset{b[0]} + multiset(b[1..]);
    assert multiset(a[1..]) == multiset(a) - multiset{a[0]};
    assert multiset(b[1..]) == multiset(b) - multiset{b[0]};
  }
}
