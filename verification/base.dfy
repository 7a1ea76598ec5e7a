/** Shared building blocks: an optional value, duplicate-free sequences standing
    for JavaScript's insertion-ordered `Set`, and folds over sequences. */
module Base {

  /** A value that may be absent (`null` / `undefined` in the dashboard). */
  datatype Option<+T> = None | Some(value: T) {
    /** The value, or `default` when absent (the `x || default` and `x ?? default` idiom). */
    function GetOr(default: T): T {
      match this
      case Some(v) => v
      case None => default
    }
  }

  /** No element occurs twice. */
  predicate NoDups<T(==)>(s: seq<T>) {
    forall i, j :: 0 <= i < j < |s| ==> s[i] != s[j]
  }

  /** The elements of a sequence as a mathematical set. */
  function Elems<T>(s: seq<T>): set<T> {
    set x | x in s
  }

  /** `r` is `s` with some elements dropped, the rest kept in order. */
  predicate Subseq<T(==)>(r: seq<T>, s: seq<T>)
    decreases |s|
  {
    if |r| == 0 then true
    else if |s| == 0 then false
    else (r[0] == s[0] && Subseq(r[1..], s[1..])) || Subseq(r, s[1..])
  }

  lemma {:induction false} SubseqRefl<T>(s: seq<T>)
    ensures Subseq(s, s)
    decreases |s|
  {
    if |s| > 0 {
      SubseqRefl(s[1..]);
    }
  }

  /** Keeps the elements satisfying `p`, in order (`Array.prototype.filter`). */
  function Filter<T(!new)>(s: seq<T>, p: T -> bool): (r: seq<T>)
    ensures |r| <= |s|
    ensures |r| == CountBy(s, p)
    ensures forall x :: x in r <==> x in s && p(x)
    ensures Subseq(r, s)
    decreases |s|
  {
    if |s| == 0 then []
    else if p(s[0]) then
      var t := Filter(s[1..], p);
      assert s[0] == s[0] && Subseq(t, s[1..]);
      [s[0]] + t
    else
      var t := Filter(s[1..], p);
      assert forall x :: x in s[1..] ==> x in s;
      assert forall x :: x in s && x != s[0] ==> x in s[1..];
      if |t| == 0 then t
      else
        assert Subseq(t, s[1..]);
        t
  }

  /** Sum of `f` over a sequence (a `reduce((sum, x) => sum + f(x), 0)`). */
  function SumBy<T>(s: seq<T>, f: T -> int): int
    decreases |s|
  {
    if |s| == 0 then 0 else f(s[0]) + SumBy(s[1..], f)
  }

  lemma {:induction false} SumByAppend<T>(a: seq<T>, b: seq<T>, f: T -> int)
    ensures SumBy(a + b, f) == SumBy(a, f) + SumBy(b, f)
    decreases |a|
  {
    if |a| == 0 {
      assert a + b == b;
    } else {
      assert (a + b)[1..] == a[1..] + b;
      SumByAppend(a[1..], b, f);
    }
  }

  /** Sum of `f` over the elements satisfying `p` (`filter(p).reduce(...)`). */
  function SumWhere<T(!new)>(s: seq<T>, p: T -> bool, f: T -> int): int {
    SumBy(Filter(s, p), f)
  }

  /** `f` where `p` holds and 0 elsewhere. */
  function Mask<T>(p: T -> bool, f: T -> int): T -> int {
    x => if p(x) then f(x) else 0
  }

  /** Summing the filtered elements is summing the masked summand. */
  lemma {:induction false} SumWhereMasked<T(!new)>(s: seq<T>, p: T -> bool, f: T -> int)
    ensures SumWhere(s, p, f) == SumBy(s, Mask(p, f))
    decreases |s|
  {
    if |s| > 0 {
      SumWhereMasked(s[1..], p, f);
    }
  }

  /** Sums agree when the summands agree on every element. */
  lemma {:induction false} SumByPointwise<T>(s: seq<T>, f: T -> int, g: T -> int)
    requires forall i :: 0 <= i < |s| ==> f(s[i]) == g(s[i])
    ensures SumBy(s, f) == SumBy(s, g)
    decreases |s|
  {
    if |s| > 0 {
      assert forall i :: 0 <= i < |s[1..]| ==> s[1..][i] == s[i + 1];
      SumByPointwise(s[1..], f, g);
    }
  }

  /** A sum of two summands is the sum of the two sums. */
  lemma {:induction false} SumByAdd<T>(s: seq<T>, f: T -> int, g: T -> int, h: T -> int)
    requires forall i :: 0 <= i < |s| ==> h(s[i]) == f(s[i]) + g(s[i])
    ensures SumBy(s, h) == SumBy(s, f) + SumBy(s, g)
    decreases |s|
  {
    if |s| > 0 {
      assert forall i :: 0 <= i < |s[1..]| ==> s[1..][i] == s[i + 1];
      SumByAdd(s[1..], f, g, h);
    }
  }

  /** A summand no larger on every element gives a sum no larger. */
  lemma {:induction false} SumByMono<T>(s: seq<T>, f: T -> int, g: T -> int)
    requires forall i :: 0 <= i < |s| ==> f(s[i]) <= g(s[i])
    ensures SumBy(s, f) <= SumBy(s, g)
    decreases |s|
  {
    if |s| > 0 {
      assert forall i :: 0 <= i < |s[1..]| ==> s[1..][i] == s[i + 1];
      SumByMono(s[1..], f, g);
    }
  }

  /** A sum of summands none of which is negative is not negative. */
  lemma {:induction false} SumByNonNeg<T>(s: seq<T>, f: T -> int)
    requires forall i :: 0 <= i < |s| ==> f(s[i]) >= 0
    ensures SumBy(s, f) >= 0
    decreases |s|
  {
    if |s| > 0 {
      assert forall i :: 0 <= i < |s[1..]| ==> s[1..][i] == s[i + 1];
      SumByNonNeg(s[1..], f);
    }
  }

  /** A summand that is the same on every element adds up to that many times it. */
  lemma {:induction false} SumByConst<T>(s: seq<T>, f: T -> int, c: int)
    requires forall i :: 0 <= i < |s| ==> f(s[i]) == c
    ensures SumBy(s, f) == |s| * c
    decreases |s|
  {
    if |s| > 0 {
      assert forall i :: 0 <= i < |s[1..]| ==> s[1..][i] == s[i + 1];
      SumByConst(s[1..], f, c);
      assert |s| * c == c + (|s| - 1) * c;
    }
  }

  /** Three exclusive cases that cover every element split the length. */
  lemma {:induction false} CountPartition<T(!new)>(s: seq<T>, p: T -> bool, q: T -> bool, r: T -> bool)
    requires forall i :: 0 <= i < |s| ==>
      (p(s[i]) || q(s[i]) || r(s[i])) && !(p(s[i]) && q(s[i])) && !(p(s[i]) && r(s[i])) && !(q(s[i]) && r(s[i]))
    ensures CountBy(s, p) + CountBy(s, q) + CountBy(s, r) == |s|
    decreases |s|
  {
    if |s| > 0 {
      assert forall i :: 0 <= i < |s[1..]| ==> s[1..][i] == s[i + 1];
      CountPartition(s[1..], p, q, r);
    }
  }

  /** Two exclusive cases that cover every element split the length. */
  lemma {:induction false} CountSplit<T(!new)>(s: seq<T>, p: T -> bool, q: T -> bool)
    requires forall i :: 0 <= i < |s| ==> p(s[i]) != q(s[i])
    ensures CountBy(s, p) + CountBy(s, q) == |s|
    decreases |s|
  {
    if |s| > 0 {
      assert forall i :: 0 <= i < |s[1..]| ==> s[1..][i] == s[i + 1];
      CountSplit(s[1..], p, q);
    }
  }

  // ---------------------------------------------------------------------------
  // Sums bucketed by an integer key (a month index, say)

  /** The elements whose key is `k`; a missing key matches nothing. */
  function KeyIs<T>(key: T -> Option<int>, k: int): T -> bool {
    x => key(x) == Some(k)
  }

  /** The elements whose key lies in `lo .. lo + n - 1`. */
  function KeyIn<T>(key: T -> Option<int>, lo: int, n: nat): T -> bool {
    x => key(x).Some? && lo <= key(x).value < lo + n
  }

  /** The bucket sums for the keys `lo .. lo + n - 1`, added up. */
  function SumOverKeys<T(!new)>(s: seq<T>, key: T -> Option<int>, f: T -> int, lo: int, n: nat): int
    decreases n
  {
    if n == 0 then 0 else SumOverKeys(s, key, f, lo, n - 1) + SumWhere(s, KeyIs(key, lo + n - 1), f)
  }

  /** Filtering with a predicate nothing satisfies leaves nothing to add. */
  lemma SumWhereNone<T(!new)>(s: seq<T>, p: T -> bool, f: T -> int)
    requires forall i :: 0 <= i < |s| ==> !p(s[i])
    ensures SumWhere(s, p, f) == 0
  {
    var r := Filter(s, p);
    assert forall i :: 0 <= i < |r| ==> r[i] in r;
  }

  /** Adding the buckets of consecutive keys gives the sum over every element
      whose key falls in the window: nothing is counted twice or missed. */
  lemma {:induction false} SumOverKeysWindow<T(!new)>(s: seq<T>, key: T -> Option<int>, f: T -> int, lo: int, n: nat)
    ensures SumOverKeys(s, key, f, lo, n) == SumWhere(s, KeyIn(key, lo, n), f)
    decreases n
  {
    if n == 0 {
      SumWhereNone(s, KeyIn(key, lo, 0), f);
    } else {
      SumOverKeysWindow(s, key, f, lo, n - 1);
      SumWhereMasked(s, KeyIn(key, lo, n), f);
      SumWhereMasked(s, KeyIn(key, lo, n - 1), f);
      SumWhereMasked(s, KeyIs(key, lo + n - 1), f);
      SumByAdd(s, Mask(KeyIn(key, lo, n - 1), f), Mask(KeyIs(key, lo + n - 1), f), Mask(KeyIn(key, lo, n), f));
    }
  }

  /** Summing the buckets through a sequence of points whose `g` is the
      bucket of consecutive keys. */
  lemma {:induction false} SumOverKeysSeq<T(!new), U>(us: seq<U>, g: U -> int, s: seq<T>, key: T -> Option<int>,
                                                       f: T -> int, lo: int, n: nat)
    requires n <= |us|
    requires forall j :: 0 <= j < n ==> g(us[j]) == SumWhere(s, KeyIs(key, lo + j), f)
    ensures SumBy(us[..n], g) == SumOverKeys(s, key, f, lo, n)
    decreases n
  {
    if n > 0 {
      SumOverKeysSeq(us, g, s, key, f, lo, n - 1);
      assert us[..n] == us[..n - 1] + [us[n - 1]];
      SumByAppend(us[..n - 1], [us[n - 1]], g);
    }
  }

  /** A sequence of points, one per key from `lo` on, each holding its
      bucket, adds up to the sum over that window of keys. */
  lemma SumOverWindow<T(!new), U>(us: seq<U>, g: U -> int, s: seq<T>, key: T -> Option<int>, f: T -> int, lo: int)
    requires forall j :: 0 <= j < |us| ==> g(us[j]) == SumWhere(s, KeyIs(key, lo + j), f)
    ensures SumBy(us, g) == SumWhere(s, KeyIn(key, lo, |us|), f)
  {
    SumOverKeysSeq(us, g, s, key, f, lo, |us|);
    assert us[..|us|] == us;
    SumOverKeysWindow(s, key, f, lo, |us|);
  }

  /** Filters that agree on every element give the same sum. */
  lemma SumWhereCongruent<T(!new)>(s: seq<T>, p: T -> bool, q: T -> bool, f: T -> int)
    requires forall i :: 0 <= i < |s| ==> p(s[i]) == q(s[i])
    ensures SumWhere(s, p, f) == SumWhere(s, q, f)
  {
    SumWhereMasked(s, p, f);
    SumWhereMasked(s, q, f);
    SumByPointwise(s, Mask(p, f), Mask(q, f));
  }

  /** Filtering one more element adds its summand when it passes. */
  lemma SumWhereSnoc<T(!new)>(s: seq<T>, x: T, p: T -> bool, f: T -> int)
    ensures SumWhere(s + [x], p, f) == SumWhere(s, p, f) + (if p(x) then f(x) else 0)
  {
    SumWhereMasked(s + [x], p, f);
    SumWhereMasked(s, p, f);
    SumByAppend(s, [x], Mask(p, f));
  }

  /** Replacing one element changes the sum by the difference of the summands. */
  lemma {:induction false} SumByUpdate<T>(s: seq<T>, i: nat, y: T, f: T -> int)
    requires i < |s|
    ensures SumBy(s[i := y], f) == SumBy(s, f) - f(s[i]) + f(y)
    decreases |s|
  {
    if i > 0 {
      assert s[i := y][1..] == s[1..][i - 1 := y];
      SumByUpdate(s[1..], i - 1, y, f);
    } else {
      assert s[i := y][1..] == s[1..];
    }
  }

  /** The values present in a sequence of optional values, in order
      (skipping `null` entries). */
  function Present<T(!new)>(os: seq<Option<T>>): (r: seq<T>)
    ensures |r| <= |os|
    ensures forall x :: x in r <==> Some(x) in os
    ensures (forall i :: 0 <= i < |os| ==> os[i].Some?) ==>
      |r| == |os| && forall i :: 0 <= i < |os| ==> r[i] == os[i].value
    decreases |os|
  {
    if |os| == 0 then []
    else
      var rest := Present(os[1..]);
      assert forall o :: o in os <==> o == os[0] || o in os[1..];
      assert forall i :: 0 < i < |os| ==> os[i] == os[1..][i - 1];
      match os[0]
      case Some(v) => [v] + rest
      case None => rest
  }

  /** Skipping absent entries commutes with concatenation, so the present
      values keep the order of their entries. */
  lemma {:induction false} PresentAppend<T(!new)>(a: seq<Option<T>>, b: seq<Option<T>>)
    ensures Present(a + b) == Present(a) + Present(b)
    decreases |a|
  {
    if |a| == 0 {
      assert a + b == b;
    } else {
      assert (a + b)[1..] == a[1..] + b;
      PresentAppend(a[1..], b);
    }
  }

  /** Sum of `f` over a sequence, for exact rational amounts. */
  function SumByReal<T>(s: seq<T>, f: T -> real): real
    decreases |s|
  {
    if |s| == 0 then 0.0 else f(s[0]) + SumByReal(s[1..], f)
  }

  /** Number of elements satisfying `p`. */
  function CountBy<T(!new)>(s: seq<T>, p: T -> bool): (n: nat)
    ensures n <= |s|
    decreases |s|
  {
    if |s| == 0 then 0 else (if p(s[0]) then 1 else 0) + CountBy(s[1..], p)
  }

  /** Both predicates hold. */
  function Both<T>(p: T -> bool, q: T -> bool): T -> bool {
    x => p(x) && q(x)
  }

  /** Counting among the filtered elements is counting where both hold. */
  lemma {:induction false} CountFilter<T(!new)>(s: seq<T>, p: T -> bool, q: T -> bool)
    ensures CountBy(Filter(s, p), q) == CountBy(s, Both(p, q))
    decreases |s|
  {
    if |s| > 0 {
      CountFilter(s[1..], p, q);
      if p(s[0]) {
        assert Filter(s, p)[1..] == Filter(s[1..], p);
      }
    }
  }

  /** A filter every element passes keeps the whole sequence. */
  lemma {:induction false} FilterAll<T(!new)>(s: seq<T>, p: T -> bool)
    requires forall i :: 0 <= i < |s| ==> p(s[i])
    ensures Filter(s, p) == s
    decreases |s|
  {
    if |s| > 0 {
      FilterAll(s[1..], p);
    }
  }

  /** A weaker predicate counts at least as many elements. */
  lemma {:induction false} CountMono<T(!new)>(s: seq<T>, p: T -> bool, q: T -> bool)
    requires forall i :: 0 <= i < |s| ==> p(s[i]) ==> q(s[i])
    ensures CountBy(s, p) <= CountBy(s, q)
    decreases |s|
  {
    if |s| > 0 {
      CountMono(s[1..], p, q);
    }
  }

  /** Removes `x` from a duplicate-free sequence, keeping the order of the rest
      (`Set.prototype.delete`, `Array.prototype.filter(m => m !== x)`). */
  function Remove<T(==,!new)>(s: seq<T>, x: T): (r: seq<T>)
    ensures x !in r
    ensures forall y :: y != x ==> (y in r <==> y in s)
    ensures Subseq(r, s)
    ensures NoDups(s) ==> NoDups(r)
    ensures x !in s ==> r == s
  {
    var r := Filter(s, y => y != x);
    if x !in s then
      RemoveAbsent(s, x);
      r
    else if NoDups(s) then
      FilterNoDups(s, y => y != x);
      r
    else
      r
  }

  /** Removing a present element from a duplicate-free sequence takes its
      value out of the sum exactly once. */
  lemma {:induction false} SumByRemove<T(!new)>(s: seq<T>, x: T, f: T -> int)
    requires NoDups(s) && x in s
    ensures SumBy(Remove(s, x), f) == SumBy(s, f) - f(x)
    decreases |s|
  {
    assert NoDups(s[1..]) by {
      forall i, j | 0 <= i < j < |s[1..]| ensures s[1..][i] != s[1..][j] {
        assert s[1..][i] == s[i + 1] && s[1..][j] == s[j + 1];
      }
    }
    if s[0] == x {
      assert x !in s[1..] by {
        forall k | 0 <= k < |s[1..]| ensures s[1..][k] != x {
          assert s[1..][k] == s[k + 1];
        }
      }
      RemoveAbsent(s[1..], x);
    } else {
      SumByRemove(s[1..], x, f);
    }
  }

  lemma {:induction false} RemoveAbsent<T(!new)>(s: seq<T>, x: T)
    requires x !in s
    ensures Filter(s, y => y != x) == s
    decreases |s|
  {
    if |s| > 0 {
      assert x !in s[1..];
      RemoveAbsent(s[1..], x);
    }
  }

  lemma {:induction false} FilterNoDups<T(!new)>(s: seq<T>, p: T -> bool)
    requires NoDups(s)
    ensures NoDups(Filter(s, p))
    decreases |s|
  {
    if |s| > 0 {
      assert NoDups(s[1..]) by {
        forall i, j | 0 <= i < j < |s[1..]| ensures s[1..][i] != s[1..][j] {
          assert s[1..][i] == s[i + 1] && s[1..][j] == s[j + 1];
        }
      }
      FilterNoDups(s[1..], p);
      if p(s[0]) {
        var t := Filter(s[1..], p);
        assert s[0] !in s[1..] by {
          forall k | 0 <= k < |s[1..]| ensures s[1..][k] != s[0] {
            assert s[1..][k] == s[k + 1];
          }
        }
        assert s[0] !in t;
        var r := [s[0]] + t;
        forall i, j | 0 <= i < j < |r| ensures r[i] != r[j] {
          if i == 0 {
            assert r[j] == t[j - 1];
            assert r[j] in t;
          } else {
            assert r[i] == t[i - 1] && r[j] == t[j - 1];
          }
        }
      }
    }
  }

  /** The distinct elements in order of first occurrence (`new Set(array)`). */
  function Dedup<T(==,!new)>(s: seq<T>): (r: seq<T>)
    ensures NoDups(r)
    ensures forall x :: x in r <==> x in s
    ensures Subseq(r, s)
    ensures NoDups(s) ==> r == s
  {
    DedupAfter(s, [])
  }

  /** The elements of `s` not in `seen`, each at its first occurrence. */
  function DedupAfter<T(==,!new)>(s: seq<T>, seen: seq<T>): (r: seq<T>)
    ensures NoDups(r)
    ensures forall x :: x in r <==> x in s && x !in seen
    ensures Subseq(r, s)
    ensures NoDups(s) && (forall x :: x in s ==> x !in seen) ==> r == s
    decreases |s|
  {
    if |s| == 0 then []
    else
      assert forall x :: x in s <==> x == s[0] || x in s[1..];
      if s[0] in seen then
        var t := DedupAfter(s[1..], seen);
        if |t| == 0 then t else assert Subseq(t, s[1..]); t
      else
        var t := DedupAfter(s[1..], seen + [s[0]]);
        assert NoDups(s) ==> s[0] !in s[1..] && NoDups(s[1..]) by {
          if NoDups(s) {
            forall i, j | 0 <= i < j < |s[1..]| ensures s[1..][i] != s[1..][j] {
              assert s[1..][i] == s[i + 1] && s[1..][j] == s[j + 1];
            }
            forall k | 0 <= k < |s[1..]| ensures s[1..][k] != s[0] {
              assert s[1..][k] == s[k + 1];
            }
          }
        }
        var r := [s[0]] + t;
        assert s[0] !in t;
        forall i, j | 0 <= i < j < |r| ensures r[i] != r[j] {
          if i == 0 {
            assert r[j] == t[j - 1] && r[j] in t;
          } else {
            assert r[i] == t[i - 1] && r[j] == t[j - 1];
          }
        }
        assert s[0] == s[0] && Subseq(t, s[1..]);
        r
  }

  /** Adds `x` at the end unless present (`Set.prototype.add`). */
  function Add<T(==,!new)>(s: seq<T>, x: T): (r: seq<T>)
    ensures x in r
    ensures forall y :: y != x ==> (y in r <==> y in s)
    ensures NoDups(s) ==> NoDups(r)
  {
    if x in s then s
    else
      var r := s + [x];
      assert forall i :: 0 <= i < |s| ==> r[i] == s[i];
      r
  }

  /** Flips membership of `x`: deleted when present, appended when absent. */
  function Toggle<T(==,!new)>(s: seq<T>, x: T): (r: seq<T>)
    ensures x in r <==> x !in s
    ensures forall y :: y != x ==> (y in r <==> y in s)
    ensures NoDups(s) ==> NoDups(r)
  {
    if x in s then Remove(s, x) else Add(s, x)
  }

  /** Toggling twice restores membership, and restores the very sequence when
      the element was absent to begin with. */
  lemma ToggleTwice<T(!new)>(s: seq<T>, x: T)
    requires NoDups(s)
    ensures Elems(Toggle(Toggle(s, x), x)) == Elems(s)
    ensures x !in s ==> Toggle(Toggle(s, x), x) == s
  {
    if x !in s {
      var t := s + [x];
      assert Toggle(s, x) == t;
      FilterAppendDrop(s, x);
    }
  }

  lemma {:induction false} FilterAppendDrop<T(!new)>(s: seq<T>, x: T)
    requires x !in s
    ensures Filter(s + [x], y => y != x) == s
    decreases |s|
  {
    if |s| == 0 {
      assert s + [x] == [x];
    } else {
      assert (s + [x])[1..] == s[1..] + [x];
      assert x !in s[1..];
      FilterAppendDrop(s[1..], x);
    }
  }

  /** Removing `x` drops every copy of it and nothing else. */
  lemma {:induction false} RemoveMultiset<T(!new)>(s: seq<T>, x: T)
    ensures multiset(Remove(s, x)) == multiset(s)[x := 0]
    decreases |s|
  {
    if |s| == 0 {
    } else {
      RemoveMultiset(s[1..], x);
      assert s == [s[0]] + s[1..];
      assert multiset(s) == multiset{s[0]} + multiset(s[1..]);
    }
  }

  /** In a duplicate-free sequence every element occurs once. */
  lemma {:induction false} NoDupsCount<T>(s: seq<T>, x: T)
    requires NoDups(s)
    ensures multiset(s)[x] <= 1
    decreases |s|
  {
    if |s| > 0 {
      assert NoDups(s[1..]) by {
        forall i, j | 0 <= i < j < |s[1..]| ensures s[1..][i] != s[1..][j] {
          assert s[1..][i] == s[i + 1] && s[1..][j] == s[j + 1];
        }
      }
      NoDupsCount(s[1..], x);
      assert s == [s[0]] + s[1..];
      assert multiset(s) == multiset{s[0]} + multiset(s[1..]);
      if s[0] == x {
        assert x !in s[1..] by {
          forall k | 0 <= k < |s[1..]| ensures s[1..][k] != s[0] {
            assert s[1..][k] == s[k + 1];
          }
        }
      }
    }
  }

  /** A rearrangement of a duplicate-free sequence is duplicate-free. */
  lemma NoDupsPermutation<T>(a: seq<T>, b: seq<T>)
    requires NoDups(a) && multiset(a) == multiset(b)
    ensures NoDups(b)
  {
    forall i, j | 0 <= i < j < |b| ensures b[i] != b[j] {
      NoDupsCount(a, b[i]);
      assert b == b[..j] + b[j..];
      assert multiset(b) == multiset(b[..j]) + multiset(b[j..]);
      assert b[i] in b[..j];
    }
  }

  /** Cardinality of a duplicate-free sequence's element set. */
  lemma {:induction false} NoDupsCard<T>(s: seq<T>)
    requires NoDups(s)
    ensures |Elems(s)| == |s|
    decreases |s|
  {
    if |s| > 0 {
      assert NoDups(s[1..]) by {
        forall i, j | 0 <= i < j < |s[1..]| ensures s[1..][i] != s[1..][j] {
          assert s[1..][i] == s[i + 1] && s[1..][j] == s[j + 1];
        }
      }
      NoDupsCard(s[1..]);
      assert s[0] !in s[1..] by {
        forall k | 0 <= k < |s[1..]| ensures s[1..][k] != s[0] {
          assert s[1..][k] == s[k + 1];
        }
      }
      assert Elems(s) == {s[0]} + Elems(s[1..]) by {
        forall y ensures y in Elems(s) <==> y in {s[0]} + Elems(s[1..]) {
          if y in s && y != s[0] {
            var k :| 0 <= k < |s| && s[k] == y;
            assert s[1..][k - 1] == y;
          }
        }
      }
    }
  }
}
