/** The parts of Go's `strings` and `strconv` packages that the service calls,
    stated for ASCII text, where every character is one byte and a byte offset
    is a sequence index. */
module GoStrings {
  import opened Wrappers

  const MinInt64: int := -0x8000_0000_0000_0000
  const MaxInt64: int := 0x7FFF_FFFF_FFFF_FFFF

  /** The ASCII white space that `strings.Fields` splits on. */
  predicate IsAsciiSpace(c: char) {
    c == ' ' || c == '\t' || c == '\n' || c == '\r' || c == '\U{B}' || c == '\U{C}'
  }

  predicate NoSpace(w: string) {
    forall k :: 0 <= k < |w| ==> !IsAsciiSpace(w[k])
  }

  predicate AllSpace(s: string) {
    forall k :: 0 <= k < |s| ==> IsAsciiSpace(s[k])
  }

  // ---------------------------------------------------------------------------
  // strings.Fields

  /** The end of the word that starts at `p`: the first white space at or after
      `p`, or the end of `s`. */
  function WordEnd(s: string, p: nat): (e: nat)
    requires p <= |s|
    ensures p <= e <= |s|
    ensures e < |s| ==> IsAsciiSpace(s[e])
    ensures forall k :: p <= k < e ==> !IsAsciiSpace(s[k])
    decreases |s| - p
  {
    if p == |s| || IsAsciiSpace(s[p]) then p else WordEnd(s, p + 1)
  }

  /** The fields of `s[p..]`, where `p` is not inside a word. */
  function FieldsFrom(s: string, p: nat): (fs: seq<string>)
    requires p <= |s|
    ensures forall i :: 0 <= i < |fs| ==> |fs[i]| > 0 && NoSpace(fs[i])
    decreases |s| - p
  {
    if p == |s| then []
    else if IsAsciiSpace(s[p]) then FieldsFrom(s, p + 1)
    else
      var e := WordEnd(s, p);
      [s[p..e]] + FieldsFrom(s, e)
  }

  /** `strings.Fields(s)`: the maximal runs of non-space characters, in order,
      the last one included whether or not white space follows it. */
  function Fields(s: string): seq<string> {
    FieldsFrom(s, 0)
  }

  lemma {:induction false} FieldsFromEmptyIff(s: string, p: nat)
    requires p <= |s|
    ensures FieldsFrom(s, p) == [] <==> AllSpace(s[p..])
    decreases |s| - p
  {
    if p < |s| {
      if IsAsciiSpace(s[p]) {
        FieldsFromEmptyIff(s, p + 1);
        assert s[p..] == [s[p]] + s[p + 1..];
      } else {
        assert !IsAsciiSpace(s[p..][0]);
      }
    }
  }

  /** A string has no fields exactly when it is all white space (or empty). */
  lemma FieldsEmptyIff(s: string)
    ensures Fields(s) == [] <==> AllSpace(s)
  {
    FieldsFromEmptyIff(s, 0);
    assert s[0..] == s;
  }

  /** A single word is its own only field. */
  lemma FieldsOfWord(w: string)
    requires |w| > 0 && NoSpace(w)
    ensures Fields(w) == [w]
  {
    WordEndAt(w, 0, |w|);
    assert w[0..|w|] == w;
    assert FieldsFrom(w, |w|) == [];
  }

  /** Two words separated by one blank are two fields. */
  lemma FieldsOfTwoWords(a: string, b: string)
    requires |a| > 0 && NoSpace(a) && |b| > 0 && NoSpace(b)
    ensures Fields(a + " " + b) == [a, b]
  {
    var s := a + " " + b;
    assert forall k :: 0 <= k < |a| ==> s[k] == a[k];
    assert s[|a|] == ' ';
    assert WordEnd(s, 0) == |a| by { WordEndAt(s, 0, |a|); }
    assert s[0..|a|] == a;
    assert forall k :: |a| + 1 <= k < |s| ==> s[k] == b[k - |a| - 1];
    assert WordEnd(s, |a| + 1) == |s| by { WordEndAt(s, |a| + 1, |s|); }
    assert s[|a| + 1..|s|] == b;
    assert FieldsFrom(s, |a|) == FieldsFrom(s, |a| + 1);
    assert FieldsFrom(s, |s|) == [];
    assert FieldsFrom(s, |a| + 1) == [b] + FieldsFrom(s, |s|);
  }

  /** `WordEnd` stops at the first white space. */
  lemma {:induction false} WordEndAt(s: string, p: nat, e: nat)
    requires p <= e <= |s|
    requires forall k :: p <= k < e ==> !IsAsciiSpace(s[k])
    requires e == |s| || IsAsciiSpace(s[e])
    ensures WordEnd(s, p) == e
    decreases e - p
  {
    if p < e {
      WordEndAt(s, p + 1, e);
    }
  }

  // ---------------------------------------------------------------------------
  // strings.Index

  predicate OccursAt(s: string, sub: string, k: int) {
    0 <= k && k + |sub| <= |s| && s[k..k + |sub|] == sub
  }

  function IndexFrom(s: string, sub: string, p: nat): (r: int)
    ensures r == -1 || (p <= r && OccursAt(s, sub, r))
    ensures forall k :: p <= k && (r == -1 || k < r) ==> !OccursAt(s, sub, k)
    decreases |s| - p
  {
    if p + |sub| > |s| then -1
    else if s[p..p + |sub|] == sub then p
    else IndexFrom(s, sub, p + 1)
  }

  /** `strings.Index(s, sub)`: the offset of the leftmost occurrence of `sub`
      in `s`, or -1 when there is none. */
  function Index(s: string, sub: string): int {
    IndexFrom(s, sub, 0)
  }

  // ---------------------------------------------------------------------------
  // strings.ToLower and strings.HasPrefix

  function LowerChar(c: char): char {
    if 'A' <= c <= 'Z' then (c as int + 32) as char else c
  }

  /** `strings.ToLower` on ASCII text. */
  function ToLower(s: string): (r: string)
    ensures |r| == |s|
    ensures forall k :: 0 <= k < |s| ==> r[k] == LowerChar(s[k])
  {
    seq(|s|, k requires 0 <= k < |s| => LowerChar(s[k]))
  }

  /** `strings.HasPrefix(s, pre)`. */
  predicate HasPrefix(s: string, pre: string) {
    pre <= s
  }

  // ---------------------------------------------------------------------------
  // strconv.Atoi and decimal digits

  predicate IsDigit(c: char) {
    '0' <= c <= '9'
  }

  predicate AllDigits(s: string) {
    forall k :: 0 <= k < |s| ==> IsDigit(s[k])
  }

  function DigitValue(c: char): nat
    requires IsDigit(c)
  {
    c as int - '0' as int
  }

  /** The value of a string of decimal digits, most significant first. */
  function DigitsValue(ds: string): nat
    requires AllDigits(ds)
  {
    if |ds| == 0 then 0 else DigitsValue(ds[..|ds| - 1]) * 10 + DigitValue(ds[|ds| - 1])
  }

  /** `strconv.Atoi(s)` for a 64-bit `int`: an optional sign followed by at least
      one decimal digit, and a value that fits; `None` is a non-nil error
      (a syntax error or a range error). */
  function Atoi(s: string): Option<int> {
    var signed := |s| > 0 && (s[0] == '-' || s[0] == '+');
    var digits := if signed then s[1..] else s;
    if |digits| == 0 || !AllDigits(digits) then None
    else
      var v: int := if signed && s[0] == '-' then -(DigitsValue(digits) as int) else DigitsValue(digits);
      if MinInt64 <= v <= MaxInt64 then Some(v) else None
  }

  function DigitChar(d: nat): char
    requires d < 10
  {
    ('0' as int + d) as char
  }

  /** The decimal rendering of `n`, without leading zeros. */
  function Decimal(n: nat): (r: string)
    ensures |r| > 0 && AllDigits(r)
  {
    if n < 10 then [DigitChar(n)] else Decimal(n / 10) + [DigitChar(n % 10)]
  }

  lemma {:induction false} DecimalValue(n: nat)
    ensures DigitsValue(Decimal(n)) == n
  {
    var r := Decimal(n);
    if n >= 10 {
      DecimalValue(n / 10);
      assert r[..|r| - 1] == Decimal(n / 10);
    } else {
      assert r[..0] == [];
    }
  }

  /** `strconv.Atoi` reads back the decimal rendering of every `int` it can hold. */
  lemma AtoiDecimal(n: nat)
    requires n <= MaxInt64
    ensures Atoi(Decimal(n)) == Some(n)
  {
    DecimalValue(n);
  }

  lemma DecimalNoSpace(n: nat)
    ensures NoSpace(Decimal(n))
  {
  }

  /** `strconv.Itoa(n)`: a minus sign before the decimal rendering of a
      negative number. */
  function Itoa(n: int): (r: string)
    ensures |r| > 0 && NoSpace(r)
  {
    DecimalNoSpace(if n < 0 then -n else n);
    if n < 0 then "-" + Decimal(-n) else Decimal(n)
  }

  /** `strconv.Atoi` reads back the rendering of every 64-bit `int`, negative
      ones included. */
  lemma AtoiItoa(n: int)
    requires MinInt64 <= n <= MaxInt64
    ensures Atoi(Itoa(n)) == Some(n)
  {
    if n < 0 {
      DecimalValue(-n);
      assert Itoa(n)[1..] == Decimal(-n);
    } else {
      AtoiDecimal(n);
    }
  }
}
