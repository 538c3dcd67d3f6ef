/** Decimal rendering of integers, as Java's string concatenation `"…" + n` does
    for an `int` operand: an optional minus sign followed by the digits of the
    magnitude, without leading zeros. Parsing the rendering back recovers the
    number, so the rendering is injective. */
module Decimal {

  predicate IsDigit(c: char) {
    '0' <= c <= '9'
  }

  predicate AllDigits(s: string) {
    forall i :: 0 <= i < |s| ==> IsDigit(s[i])
  }

  function DigitChar(d: nat): (c: char)
    requires d < 10
    ensures IsDigit(c)
    ensures (c as int) - ('0' as int) == d
  {
    "0123456789"[d]
  }

  function DigitValue(c: char): nat
    requires IsDigit(c)
  {
    (c as int) - ('0' as int)
  }

  /** The digits of `n`, most significant first. */
  function NatToString(n: nat): (s: string)
    ensures 1 <= |s|
    ensures AllDigits(s)
    ensures |s| > 1 ==> s[0] != '0'
    decreases n
  {
    if n < 10 then [DigitChar(n)] else NatToString(n / 10) + [DigitChar(n % 10)]
  }

  /** Java's `Integer.toString`, the form `"…" + v` produces. */
  function IntToString(v: int): (s: string)
    ensures 1 <= |s|
    ensures v < 0 <==> s[0] == '-'
    ensures forall i :: 0 <= i < |s| ==> s[i] == '-' || IsDigit(s[i])
  {
    if v < 0 then "-" + NatToString(-v) else NatToString(v)
  }

  /** The value of a string of decimal digits (the empty string reads as zero). */
  function ParseNat(s: string): nat
    requires AllDigits(s)
  {
    if |s| == 0 then 0 else 10 * ParseNat(s[..|s| - 1]) + DigitValue(s[|s| - 1])
  }

  function ParseInt(s: string): int
    requires 1 <= |s|
    requires forall i :: 0 <= i < |s| ==> s[i] == '-' || IsDigit(s[i])
    requires AllDigits(s[1..])
  {
    if s[0] == '-' then -(ParseNat(s[1..]) as int) else ParseNat(s)
  }

  lemma {:induction false} ParseNatToString(n: nat)
    ensures ParseNat(NatToString(n)) == n
    decreases n
  {
    var s := NatToString(n);
    if n >= 10 {
      var prefix := NatToString(n / 10);
      assert s[..|s| - 1] == prefix;
      ParseNatToString(n / 10);
    }
  }

  lemma ParseIntToString(v: int)
    ensures AllDigits(IntToString(v)[1..])
    ensures ParseInt(IntToString(v)) == v
  {
    var s := IntToString(v);
    if v < 0 {
      var d := NatToString(-v);
      assert s == "-" + d;
      assert s[1..] == d;
      ParseNatToString(-v);
    } else {
      var d := NatToString(v);
      assert s == d;
      assert forall i :: 0 <= i < |d| - 1 ==> d[1..][i] == d[i + 1];
      ParseNatToString(v);
    }
  }

  /** Distinct integers render to distinct strings. */
  lemma IntToStringInjective(a: int, b: int)
    ensures IntToString(a) == IntToString(b) ==> a == b
  {
    ParseIntToString(a);
    ParseIntToString(b);
  }
}
