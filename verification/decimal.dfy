/**
 * Decimal text of integers: what printf's %d writes and what strtoll(…, 10)
 * reads back, with strtoll's whitespace skipping, optional sign and
 * saturation at the bounds of a 64-bit long long.
 */
module Decimal {

  const LLONG_MIN: int := -0x8000_0000_0000_0000
  const LLONG_MAX: int := 0x7FFF_FFFF_FFFF_FFFF

  predicate IsDigit(c: char) {
    '0' <= c <= '9'
  }

  /** isspace in the C locale. */
  predicate IsSpace(c: char) {
    c == ' ' || c == '\t' || c == '\n' || c == '\U{0B}' || c == '\U{0C}' || c == '\r'
  }

  predicate AllDigits(s: string) {
    forall i | 0 <= i < |s| :: IsDigit(s[i])
  }

  function DigitValue(c: char): (d: nat)
    requires IsDigit(c)
    ensures d < 10
  {
    (c as int) - ('0' as int)
  }

  function DigitChar(d: nat): (c: char)
    requires d < 10
    ensures IsDigit(c) && DigitValue(c) == d
  {
    (('0' as int) + d) as char
  }

  /** The decimal digits of n, most significant first, without leading zeros. */
  function Digits(n: nat): (s: string)
    ensures |s| > 0 && AllDigits(s)
    ensures n > 0 ==> s[0] != '0'
    decreases n
  {
    if n < 10 then [DigitChar(n)]
    else Digits(n / 10) + [DigitChar(n % 10)]
  }

  /** The number a run of decimal digits denotes. */
  function DigitsValue(s: string): nat
    requires AllDigits(s)
    decreases |s|
  {
    if |s| == 0 then 0
    else 10 * DigitsValue(s[..|s| - 1]) + DigitValue(s[|s| - 1])
  }

  /** Reading the digits of n gives n back. */
  lemma {:induction false} DigitsRoundTrip(n: nat)
    ensures DigitsValue(Digits(n)) == n
    decreases n
  {
    if n >= 10 {
      var s := Digits(n / 10);
      DigitsRoundTrip(n / 10);
      assert (s + [DigitChar(n % 10)])[..|s|] == s;
    }
  }

  /** Numbers below 10, 100 and 1000 have at most one, two and three digits. */
  lemma {:induction false} DigitsLength(n: nat)
    ensures n < 10 ==> |Digits(n)| == 1
    ensures n < 100 ==> |Digits(n)| <= 2
    ensures n < 1000 ==> |Digits(n)| <= 3
  {
    if n >= 10 {
      DigitsLength(n / 10);
    }
  }

  /** printf("%d", i). */
  function IntText(i: int): (s: string)
    ensures |s| > 0 && (s[0] == '-' || IsDigit(s[0]))
  {
    if i < 0 then "-" + Digits(-i) else Digits(i)
  }

  /** The number of leading characters of s that satisfy isspace. */
  function SpaceRun(s: string): (n: nat)
    ensures n <= |s|
    ensures forall i | 0 <= i < n :: IsSpace(s[i])
    ensures n < |s| ==> !IsSpace(s[n])
    decreases |s|
  {
    if |s| == 0 || !IsSpace(s[0]) then 0 else 1 + SpaceRun(s[1..])
  }

  /** The number of leading decimal digits of s. */
  function DigitRun(s: string): (n: nat)
    ensures n <= |s|
    ensures AllDigits(s[..n])
    ensures n < |s| ==> !IsDigit(s[n])
    decreases |s|
  {
    if |s| == 0 || !IsDigit(s[0]) then 0
    else
      var m := DigitRun(s[1..]);
      assert s[..1 + m] == [s[0]] + s[1..][..m];
      1 + m
  }

  /** A long long keeps values within its range; strtoll saturates at the bounds. */
  function Saturate(x: int): (r: int)
    ensures LLONG_MIN <= r <= LLONG_MAX
    ensures LLONG_MIN <= x <= LLONG_MAX ==> r == x
  {
    if x < LLONG_MIN then LLONG_MIN else if x > LLONG_MAX then LLONG_MAX else x
  }

  /** What strtoll returns, and the index its end pointer is left at. */
  datatype Parsed = Parsed(value: int, end: nat)

  /**
   * strtoll(s, &end, 10): leading whitespace, an optional sign, then the
   * longest run of digits.  Without any digit, the value is 0 and the end
   * pointer is the start of the text.
   */
  function Strtoll(s: string): (r: Parsed)
    ensures r.end <= |s|
    ensures LLONG_MIN <= r.value <= LLONG_MAX
    ensures r.end == 0 ==> r.value == 0
    ensures r.end > 0 ==> IsDigit(s[r.end - 1])
  {
    var ws := SpaceRun(s);
    var signed := ws < |s| && (s[ws] == '+' || s[ws] == '-');
    var start := if signed then ws + 1 else ws;
    var n := DigitRun(s[start..]);
    if n == 0 then Parsed(0, 0)
    else
      var magnitude: int := DigitsValue(s[start..][..n]);
      assert s[start + n - 1] == s[start..][..n][n - 1];
      Parsed(Saturate(if signed && s[ws] == '-' then -magnitude else magnitude), start + n)
  }

  /** strtoll reads back every long long printf writes, consuming the whole text. */
  lemma StrtollReadsIntText(i: int)
    requires LLONG_MIN <= i <= LLONG_MAX
    ensures Strtoll(IntText(i)) == Parsed(i, |IntText(i)|)
  {
    if i < 0 {
      StrtollReadsNegative(-i);
    } else {
      StrtollReadsDigits(i);
    }
  }

  lemma StrtollReadsDigits(n: nat)
    requires n <= LLONG_MAX
    ensures Strtoll(Digits(n)) == Parsed(n, |Digits(n)|)
  {
    var d := Digits(n);
    assert !IsSpace(d[0]) && SpaceRun(d) == 0;
    assert d[0..] == d;
    DigitRunOfDigits(d);
    assert d[..|d|] == d;
    DigitsRoundTrip(n);
  }

  lemma StrtollReadsNegative(n: nat)
    requires 0 < n <= -LLONG_MIN
    ensures Strtoll("-" + Digits(n)) == Parsed(0 - n, 1 + |Digits(n)|)
  {
    var s := "-" + Digits(n);
    var d := Digits(n);
    assert !IsSpace(s[0]) && SpaceRun(s) == 0;
    assert s[1..] == d;
    DigitRunOfDigits(d);
    assert d[..|d|] == d;
    DigitsRoundTrip(n);
  }

  lemma DigitRunOfDigits(s: string)
    requires AllDigits(s)
    ensures DigitRun(s) == |s|
  {
  }
}
