/** JavaScript's `String(n)` for the integers the date keys are built from
    (years and month numbers), and `padStart(2, '0')`. */
module Decimal {

  predicate IsDigit(c: char) {
    '0' <= c <= '9'
  }

  function DigitChar(d: nat): (c: char)
    requires d < 10
    ensures IsDigit(c)
  {
    "0123456789"[d]
  }

  function DigitValue(c: char): nat {
    if IsDigit(c) then (c as int) - ('0' as int) else 0
  }

  lemma {:induction false} DigitRoundTrip(d: nat)
    requires d < 10
    ensures DigitValue(DigitChar(d)) == d
  {
  }

  /** Decimal digits of `n`, most significant first, with no leading zero. */
  function NatToString(n: nat): (s: string)
    ensures |s| >= 1
    ensures forall i :: 0 <= i < |s| ==> IsDigit(s[i])
    decreases n
  {
    if n < 10 then [DigitChar(n)] else NatToString(n / 10) + [DigitChar(n % 10)]
  }

  /** The number a string of digits denotes (the partner of `NatToString`). */
  function DigitsValue(s: string): nat
    decreases |s|
  {
    if |s| == 0 then 0 else DigitsValue(s[..|s| - 1]) * 10 + DigitValue(s[|s| - 1])
  }

  lemma {:induction false} NatRoundTrip(n: nat)
    ensures DigitsValue(NatToString(n)) == n
    decreases n
  {
    var s := NatToString(n);
    if n < 10 {
      DigitRoundTrip(n);
    } else {
      NatRoundTrip(n / 10);
      DigitRoundTrip(n % 10);
      assert s[..|s| - 1] == NatToString(n / 10);
    }
  }

  /** `String(i)` for an integer `i`. */
  function IntToString(i: int): string {
    if i < 0 then "-" + NatToString(-i) else NatToString(i)
  }

  function ParseInt(s: string): int {
    if |s| > 0 && s[0] == '-' then -(DigitsValue(s[1..]) as int) else DigitsValue(s)
  }

  lemma {:induction false} IntRoundTrip(i: int)
    ensures ParseInt(IntToString(i)) == i
  {
    if i < 0 {
      NegativeRoundTrip(i);
    } else {
      NatRoundTrip(i);
      var s := NatToString(i);
      assert IntToString(i) == s;
      assert IsDigit(s[0]);
      assert ParseInt(s) == DigitsValue(s);
    }
  }

  lemma {:induction false} NegativeRoundTrip(i: int)
    requires i < 0
    ensures ParseInt(IntToString(i)) == i
  {
    var n: nat := -i;
    var s := "-" + NatToString(n);
    NatRoundTrip(n);
    assert IntToString(i) == s;
    assert s[0] == '-' && s[1..] == NatToString(n);
    assert ParseInt(s) == -(DigitsValue(NatToString(n)) as int);
  }

  /** Different integers print differently. */
  lemma {:induction false} IntToStringInjective(a: int, b: int)
    ensures IntToString(a) == IntToString(b) <==> a == b
  {
    IntRoundTrip(a);
    IntRoundTrip(b);
  }

  /** `s.padStart(2, '0')`. */
  function PadStart2(s: string): string {
    if |s| >= 2 then s else seq(2 - |s|, _ => '0') + s
  }

  lemma {:induction false} LeadingZero(s: string)
    ensures DigitsValue("0" + s) == DigitsValue(s)
    decreases |s|
  {
    if |s| > 0 {
      var s' := s[..|s| - 1];
      assert ("0" + s)[..|s|] == "0" + s';
      LeadingZero(s');
    }
  }

  /** The zero-padded form of a month number is two digits and still denotes
      the month. */
  lemma {:induction false} PaddedMonth(m: int)
    requires 1 <= m <= 12
    ensures |PadStart2(IntToString(m))| == 2
    ensures forall i :: 0 <= i < 2 ==> IsDigit(PadStart2(IntToString(m))[i])
    ensures DigitsValue(PadStart2(IntToString(m))) == m
  {
    NatRoundTrip(m);
    if m < 10 {
      assert PadStart2(IntToString(m)) == "0" + NatToString(m);
      LeadingZero(NatToString(m));
    } else {
      assert NatToString(m) == NatToString(m / 10) + [DigitChar(m % 10)];
    }
  }
}
