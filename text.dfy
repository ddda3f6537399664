/** The few string operations the two scripts rely on: single-character
    `str.replace`, `str.upper` and the integer parser `int(...)`. */
module Text {
  import opened Wrappers

  /** Python's `s.replace(target, replacement)` for one-character arguments. */
  function Replace(s: string, target: char, replacement: char): (r: string)
    ensures |r| == |s|
    ensures forall i :: 0 <= i < |s| ==> r[i] == if s[i] == target then replacement else s[i]
  {
    if s == [] then []
    else [if s[0] == target then replacement else s[0]] + Replace(s[1..], target, replacement)
  }

  predicate IsLower(c: char) { 'a' <= c <= 'z' }

  /** Upper-casing of one character, restricted to ASCII letters. */
  function UpperChar(c: char): char {
    if IsLower(c) then (c as int - 'a' as int + 'A' as int) as char else c
  }

  /** Python's `s.upper()` on ASCII text. */
  function Upper(s: string): (r: string)
    ensures |r| == |s|
    ensures forall i :: 0 <= i < |s| ==> r[i] == UpperChar(s[i])
  {
    if s == [] then [] else [UpperChar(s[0])] + Upper(s[1..])
  }

  predicate IsDigit(c: char) { '0' <= c <= '9' }

  /** A non-empty run of decimal digits. */
  predicate IsDigits(s: string) {
    |s| > 0 && forall i :: 0 <= i < |s| ==> IsDigit(s[i])
  }

  /** A '+' followed by decimal digits. */
  predicate IsPlusLiteral(s: string) {
    |s| > 1 && s[0] == '+' && IsDigits(s[1..])
  }

  /** A '-' followed by decimal digits. */
  predicate IsMinusLiteral(s: string) {
    |s| > 1 && s[0] == '-' && IsDigits(s[1..])
  }

  /** The text `int(...)` accepts: an optional sign followed by decimal digits. */
  predicate IsIntLiteral(s: string) {
    IsDigits(s) || IsPlusLiteral(s) || IsMinusLiteral(s)
  }

  function DigitValue(c: char): nat
    requires IsDigit(c)
  {
    c as int - '0' as int
  }

  function DigitChar(d: nat): char
    requires d < 10
  {
    ('0' as int + d) as char
  }

  /** The value of a run of digits, most significant first. */
  function DigitsValue(s: string): nat
    requires forall i :: 0 <= i < |s| ==> IsDigit(s[i])
  {
    if s == [] then 0 else DigitsValue(s[..|s| - 1]) * 10 + DigitValue(s[|s| - 1])
  }

  /** Python's `int(s)`: `None` stands for the `ValueError` it raises. */
  function ParseInt(s: string): (r: Option<int>)
    ensures r.Some? <==> IsIntLiteral(s)
    ensures s == "" ==> r == None
    ensures IsDigits(s) ==> r == Some(DigitsValue(s))
    ensures IsPlusLiteral(s) ==> r == Some(DigitsValue(s[1..]))
    ensures IsMinusLiteral(s) ==> r == Some(-(DigitsValue(s[1..]) as int))
  {
    if IsDigits(s) then Some(DigitsValue(s))
    else if IsPlusLiteral(s) then Some(DigitsValue(s[1..]))
    else if IsMinusLiteral(s) then Some(-(DigitsValue(s[1..]) as int))
    else None
  }

  /** Decimal rendering of a natural number, without leading zeros. */
  function NatToString(n: nat): (s: string)
    ensures IsDigits(s)
    decreases n
  {
    if n < 10 then [DigitChar(n)] else NatToString(n / 10) + [DigitChar(n % 10)]
  }

  /** Decimal rendering of an integer, with a leading '-' when negative. */
  function IntToString(n: int): (s: string) {
    if n < 0 then "-" + NatToString(-n) else NatToString(n)
  }

  lemma {:induction false} DigitsRoundTrip(n: nat)
    ensures DigitsValue(NatToString(n)) == n
    decreases n
  {
    if n >= 10 {
      var s := NatToString(n);
      assert s[..|s| - 1] == NatToString(n / 10);
      DigitsRoundTrip(n / 10);
    }
  }

  /** Every integer's decimal rendering is read back by `int(...)` as that integer. */
  lemma ParseIntRoundTrip(n: int)
    ensures ParseInt(IntToString(n)) == Some(n)
  {
    if n < 0 {
      var s := IntToString(n);
      assert s[1..] == NatToString(-n);
      assert !IsDigits(s) by { assert !IsDigit(s[0]); }
      DigitsRoundTrip(-n);
    } else {
      DigitsRoundTrip(n);
    }
  }
}
