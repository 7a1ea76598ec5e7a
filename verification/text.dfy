/** The string operations the forms and filters rely on: JavaScript's
    `String.prototype.trim`, `toLowerCase`, `includes`, the `/[^\d]/g`
    sanitiser, `parseInt` and decimal printing. */
module Text {
  import opened Base

  /** JavaScript's `WhiteSpace` and `LineTerminator` characters, which `trim`
      strips and the regular-expression class `\s` matches. */
  predicate IsSpace(c: char) {
    c == ' ' || c == '\t' || c == '\n' || c == '\r' || c == '\U{000B}' || c == '\U{000C}'
    || c == '\U{00A0}' || c == '\U{1680}' || ('\U{2000}' <= c <= '\U{200A}')
    || c == '\U{2028}' || c == '\U{2029}' || c == '\U{202F}' || c == '\U{205F}'
    || c == '\U{3000}' || c == '\U{FEFF}'
  }

  /** The regular-expression class `\d` (ASCII digits only, without the `u` flag). */
  predicate IsDigit(c: char) {
    '0' <= c <= '9'
  }

  function DigitValue(c: char): (d: nat)
    requires IsDigit(c)
    ensures d < 10
  {
    (c as int - '0' as int) as nat
  }

  function DigitChar(d: nat): (c: char)
    requires d < 10
    ensures IsDigit(c) && DigitValue(c) == d
  {
    ('0' as int + d) as char
  }

  /** Drops leading whitespace. */
  function TrimStart(s: string): (r: string)
    ensures |r| <= |s| && r == s[|s| - |r|..]
    ensures forall i :: 0 <= i < |s| - |r| ==> IsSpace(s[i])
    ensures |r| > 0 ==> !IsSpace(r[0])
    decreases |s|
  {
    if |s| > 0 && IsSpace(s[0]) then TrimStart(s[1..]) else s
  }

  /** Drops trailing whitespace. */
  function TrimEnd(s: string): (r: string)
    ensures |r| <= |s| && r == s[..|r|]
    ensures forall i :: |r| <= i < |s| ==> IsSpace(s[i])
    ensures |r| > 0 ==> !IsSpace(r[|r| - 1])
    decreases |s|
  {
    if |s| > 0 && IsSpace(s[|s| - 1]) then TrimEnd(s[..|s| - 1]) else s
  }

  /** `String.prototype.trim`. */
  function Trim(s: string): string {
    TrimEnd(TrimStart(s))
  }

  /** `!s.trim()`: nothing but whitespace. */
  predicate IsBlank(s: string) {
    Trim(s) == ""
  }

  /** A string is blank exactly when every character is whitespace. */
  lemma BlankIffAllSpace(s: string)
    ensures IsBlank(s) <==> forall i :: 0 <= i < |s| ==> IsSpace(s[i])
  {
    var t := TrimStart(s);
    if |t| > 0 {
      assert t[0] == s[|s| - |t|];
    }
  }

  /** ASCII case folding of one character (`toLowerCase` on the Latin letters). */
  function LowerChar(c: char): (r: char)
    ensures 'A' <= c <= 'Z' ==> r as int == c as int + 32
    ensures !('A' <= c <= 'Z') ==> r == c
  {
    if 'A' <= c <= 'Z' then (c as int + 32) as char else c
  }

  function Lower(s: string): (r: string)
    ensures |r| == |s|
    ensures forall i :: 0 <= i < |s| ==> r[i] == LowerChar(s[i])
  {
    seq(|s|, i requires 0 <= i < |s| => LowerChar(s[i]))
  }

  /** `hay.includes(needle)`: `needle` occurs as a contiguous piece of `hay`. */
  predicate Contains(hay: string, needle: string) {
    exists i :: 0 <= i <= |hay| && needle <= hay[i..]
  }

  /** `a.toLowerCase().includes(b.toLowerCase())`. */
  predicate ContainsIgnoringCase(hay: string, needle: string) {
    Contains(Lower(hay), Lower(needle))
  }

  lemma EmptyContained(hay: string)
    ensures Contains(hay, "")
  {
    assert "" <= hay[0..];
  }

  /** `value.replace(/[^\d]/g, '')`: keeps only the decimal digits, in order. */
  function KeepDigits(s: string): (r: string)
    ensures forall i :: 0 <= i < |r| ==> IsDigit(r[i])
    ensures Subseq(r, s)
    ensures (forall i :: 0 <= i < |s| ==> IsDigit(s[i])) ==> r == s
    ensures |r| == CountBy(s, IsDigit)
    decreases |s|
  {
    if |s| == 0 then ""
    else
      var t := KeepDigits(s[1..]);
      if IsDigit(s[0]) then
        assert s[0] == s[0] && Subseq(t, s[1..]);
        [s[0]] + t
      else if |t| == 0 then t
      else
        assert Subseq(t, s[1..]);
        t
  }

  /** The sanitiser is idempotent: a sanitised amount is left alone. */
  lemma KeepDigitsIdempotent(s: string)
    ensures KeepDigits(KeepDigits(s)) == KeepDigits(s)
  {
  }

  /** Numeric value of a string of decimal digits. */
  function DigitsValue(ds: string): (v: nat)
    requires forall i :: 0 <= i < |ds| ==> IsDigit(ds[i])
    decreases |ds|
  {
    if |ds| == 0 then 0 else DigitsValue(ds[..|ds| - 1]) * 10 + DigitValue(ds[|ds| - 1])
  }

  /** Length of the longest all-digit prefix. */
  function DigitRun(s: string): (n: nat)
    ensures n <= |s|
    ensures forall i :: 0 <= i < n ==> IsDigit(s[i])
    ensures n < |s| ==> !IsDigit(s[n])
    decreases |s|
  {
    if |s| > 0 && IsDigit(s[0]) then 1 + DigitRun(s[1..]) else 0
  }

  /** The text after leading whitespace and an optional sign. */
  function Unsigned(s: string): string {
    var t := TrimStart(s);
    if |t| > 0 && (t[0] == '+' || t[0] == '-') then t[1..] else t
  }

  /** A minus sign follows the leading whitespace. */
  predicate IsNegative(s: string) {
    var t := TrimStart(s);
    |t| > 0 && t[0] == '-'
  }

  /** `parseInt(s)` read in base 10: leading whitespace, an optional sign,
      then the longest run of digits; `None` stands for `NaN` (no digit
      found). Without a radix JavaScript reads a `0x` prefix as hexadecimal;
      that case is not modelled, since every caller passes digits only or a
      month number. */
  function ParseInt(s: string): (r: Option<int>)
    ensures r.None? <==> DigitRun(Unsigned(s)) == 0
    ensures r.Some? ==> (if IsNegative(s) then r.value <= 0 else r.value >= 0)
  {
    var neg := IsNegative(s);
    var u := Unsigned(s);
    var n := DigitRun(u);
    if n == 0 then None
    else
      var v: int := DigitsValue(u[..n]);
      Some(if neg then -v else v)
  }

  /** Decimal printing of a natural number, without padding (`String(n)`). */
  function NatToString(n: nat): (r: string)
    ensures |r| > 0
    ensures forall i :: 0 <= i < |r| ==> IsDigit(r[i])
    decreases n
  {
    if n < 10 then [DigitChar(n)] else NatToString(n / 10) + [DigitChar(n % 10)]
  }

  /** `String(n)` for an integer: a leading minus for a negative one. */
  function IntToString(n: int): (r: string)
    ensures n >= 0 ==> r == NatToString(n)
    ensures n < 0 ==> r == "-" + NatToString(-n)
  {
    if n >= 0 then NatToString(n) else "-" + NatToString(-n)
  }

  /** Printing then reading back a number gives the number. */
  lemma {:induction false} DigitsValueOfNatToString(n: nat)
    ensures DigitsValue(NatToString(n)) == n
    decreases n
  {
    var r := NatToString(n);
    if n >= 10 {
      assert r[..|r| - 1] == NatToString(n / 10);
      DigitsValueOfNatToString(n / 10);
    }
  }

  lemma {:induction false} DigitRunAll(s: string)
    requires forall i :: 0 <= i < |s| ==> IsDigit(s[i])
    ensures DigitRun(s) == |s|
    decreases |s|
  {
    if |s| > 0 {
      DigitRunAll(s[1..]);
    }
  }

  /** `parseInt(String(n)) === n`. */
  lemma ParseIntNatToString(n: nat)
    ensures ParseInt(NatToString(n)) == Some(n)
  {
    ParseIntOfDigits(NatToString(n));
    DigitsValueOfNatToString(n);
  }

  /** `parseInt(String(n)) === n` for every integer. */
  lemma ParseIntIntToString(n: int)
    ensures ParseInt(IntToString(n)) == Some(n)
  {
    if n >= 0 {
      ParseIntNatToString(n);
    } else {
      var s := IntToString(n);
      var ds := NatToString(-n);
      assert s == "-" + ds;
      assert s[0] == '-' && !IsSpace(s[0]);
      assert TrimStart(s) == s;
      assert s[1..] == ds;
      DigitRunAll(ds);
      assert ds[..|ds|] == ds;
      DigitsValueOfNatToString(-n);
    }
  }

  /** A non-empty sanitised amount always parses, to the value of its digits. */
  lemma ParseIntOfDigits(s: string)
    requires |s| > 0
    requires forall i :: 0 <= i < |s| ==> IsDigit(s[i])
    ensures ParseInt(s) == Some(DigitsValue(s))
  {
    assert !IsSpace(s[0]);
    assert TrimStart(s) == s;
    assert Unsigned(s) == s;
    assert !IsNegative(s);
    DigitRunAll(s);
    assert s[..|s|] == s;
  }

  function Pow10(k: nat): (p: nat)
    ensures p >= 1
  {
    if k == 0 then 1 else 10 * Pow10(k - 1)
  }

  /** The last `k` decimal digits of `v`, zero-padded (`padStart(k, '0')`). */
  function Digits(v: nat, k: nat): (r: string)
    ensures |r| == k
    ensures forall i :: 0 <= i < |r| ==> IsDigit(r[i])
  {
    if k == 0 then "" else Digits(v / 10, k - 1) + [DigitChar(v % 10)]
  }

  /** For a number of exactly `k` digits, unpadded printing is the `k`-digit form. */
  lemma {:induction false} NatToStringIsDigits(v: nat, k: nat)
    requires k >= 1 && Pow10(k - 1) <= v < Pow10(k)
    ensures NatToString(v) == Digits(v, k)
    decreases k
  {
    if k > 1 {
      assert v >= 10;
      assert Pow10(k - 2) <= v / 10 < Pow10(k - 1);
      NatToStringIsDigits(v / 10, k - 1);
    }
  }

  /** Padding a number below 10^k loses nothing: `Digits` reads back as the number. */
  lemma {:induction false} DigitsValueOfDigits(v: nat, k: nat)
    requires v < Pow10(k)
    ensures DigitsValue(Digits(v, k)) == v
    decreases k
  {
    if k > 0 {
      var r := Digits(v, k);
      assert r[..k - 1] == Digits(v / 10, k - 1);
      DigitsValueOfDigits(v / 10, k - 1);
    }
  }

  /** `s.split(c)[0]`: everything before the first `c`. */
  function CutAt(s: string, c: char): (r: string)
    ensures |r| <= |s| && r == s[..|r|]
    ensures c !in r
    ensures |r| < |s| ==> s[|r|] == c
  {
    if c !in s then s
    else
      var k := FirstIndex(s, c);
      s[..k]
  }

  function FirstIndex(s: string, c: char): (k: nat)
    requires c in s
    ensures k < |s| && s[k] == c && c !in s[..k]
    decreases |s|
  {
    if s[0] == c then 0
    else
      var k := FirstIndex(s[1..], c);
      assert s[1..][..k] == s[1..k + 1];
      1 + k
  }

  /** `s.replace(c, '')` with a one-character string pattern: only the first
      occurrence of `c` is removed. */
  function DropFirst(s: string, c: char): (r: string)
    ensures c !in s ==> r == s
    ensures c in s ==> |r| == |s| - 1 && r == CutAt(s, c) + s[|CutAt(s, c)| + 1..]
  {
    var head := CutAt(s, c);
    if |head| < |s| then head + s[|head| + 1..] else s
  }

  /** A leading `c` is what goes. */
  lemma DropLeading(c: char, rest: string)
    ensures DropFirst([c] + rest, c) == rest
  {
    assert ([c] + rest)[0] == c;
    assert CutAt([c] + rest, c) == [];
  }

  /** `s || fallback` for a string that may be missing: a missing or empty
      string gives way to the fallback. */
  function TextOr(s: Option<string>, fallback: string): (r: string)
    ensures r == fallback || (s.Some? && r == s.value)
    ensures r == "" ==> fallback == ""
  {
    match s
    case Some(v) => if v != "" then v else fallback
    case None => fallback
  }
}
