/**
 * The display number of a new proposal (App.tsx, createNewProposal):
 * "RMX-" followed by String(count + 1) left-padded with '0' to five characters.
 */
module Numbering {

  predicate IsDigit(c: char)
  {
    '0' <= c <= '9'
  }

  predicate AllDigits(s: string)
  {
    forall i :: 0 <= i < |s| ==> IsDigit(s[i])
  }

  function DigitChar(d: nat): (c: char)
    requires d < 10
    ensures IsDigit(c) && c as int - '0' as int == d
  {
    ('0' as int + d) as char
  }

  function DigitValue(c: char): nat
    requires IsDigit(c)
  {
    c as int - '0' as int
  }

  /** String(n) for a natural number. */
  function DecimalString(n: nat): (s: string)
    ensures |s| >= 1
  {
    if n < 10 then [DigitChar(n)] else DecimalString(n / 10) + [DigitChar(n % 10)]
  }

  /** String(n) is made of decimal digits and has no leading zero. */
  lemma {:induction false} DecimalStringDigits(n: nat)
    ensures AllDigits(DecimalString(n))
    ensures |DecimalString(n)| > 1 ==> DecimalString(n)[0] != '0'
  {
    if n >= 10 {
      DecimalStringDigits(n / 10);
      assert DecimalString(n)[0] == DecimalString(n / 10)[0];
    }
  }

  /** The number a string of decimal digits denotes (leading zeros allowed). */
  function DecimalValue(s: string): nat
    requires AllDigits(s)
  {
    if s == [] then 0 else 10 * DecimalValue(s[..|s| - 1]) + DigitValue(s[|s| - 1])
  }

  /** String.prototype.padStart with a one-character filler. */
  function PadStart(s: string, width: nat, fill: char): (r: string)
    ensures |r| == if |s| >= width then |s| else width
  {
    if |s| >= width then s else [fill] + PadStart(s, width - 1, fill)
  }

  /** n copies of the character c. */
  function Filler(c: char, n: nat): (r: string)
    ensures |r| == n && forall i :: 0 <= i < n ==> r[i] == c
  {
    seq(n, _ => c)
  }

  /** padStart never truncates: the result is filler followed by the whole input. */
  lemma {:induction false} PadStartShape(s: string, width: nat, fill: char)
    ensures PadStart(s, width, fill) == Filler(fill, |PadStart(s, width, fill)| - |s|) + s
  {
    if |s| < width {
      var k := width - |s|;
      PadStartShape(s, width - 1, fill);
      assert Filler(fill, k) == [fill] + Filler(fill, k - 1);
    }
  }

  /** The number shown for the proposal created when `count` proposals are listed. */
  function DisplayNumber(count: nat): string
  {
    "RMX-" + PadStart(DecimalString(count + 1), 5, '0')
  }

  /** Reading the digits back gives the number written. */
  lemma {:induction false} DecimalRoundTrip(n: nat)
    ensures AllDigits(DecimalString(n)) && DecimalValue(DecimalString(n)) == n
  {
    DecimalStringDigits(n);
    if n >= 10 {
      var s := DecimalString(n);
      assert s[..|s| - 1] == DecimalString(n / 10);
      DecimalRoundTrip(n / 10);
    }
  }

  lemma {:induction false} ZerosValue(z: string)
    requires forall i :: 0 <= i < |z| ==> z[i] == '0'
    ensures AllDigits(z) && DecimalValue(z) == 0
  {
    if z != [] {
      ZerosValue(z[..|z| - 1]);
    }
  }

  /** Leading zeros do not change the value. */
  lemma {:induction false} LeadingZerosValue(z: string, s: string)
    requires forall i :: 0 <= i < |z| ==> z[i] == '0'
    requires AllDigits(s)
    ensures AllDigits(z + s) && DecimalValue(z + s) == DecimalValue(s)
  {
    if s == [] {
      assert z + s == z;
      ZerosValue(z);
    } else {
      var t := z + s;
      assert t[..|t| - 1] == z + s[..|s| - 1];
      LeadingZerosValue(z, s[..|s| - 1]);
    }
  }

  /** The padded part of a display number denotes count + 1. */
  lemma DisplayNumberRoundTrip(count: nat)
    ensures DisplayNumber(count)[..4] == "RMX-"
    ensures AllDigits(DisplayNumber(count)[4..])
    ensures DecimalValue(DisplayNumber(count)[4..]) == count + 1
  {
    var s := DecimalString(count + 1);
    var padded := PadStart(s, 5, '0');
    DecimalStringDigits(count + 1);
    PadStartShape(s, 5, '0');
    var z := Filler('0', |padded| - |s|);
    assert DisplayNumber(count)[4..] == padded;
    LeadingZerosValue(z, s);
    DecimalRoundTrip(count + 1);
  }

  /** Different counts give different display numbers. */
  lemma DisplayNumberInjective(a: nat, b: nat)
    requires DisplayNumber(a) == DisplayNumber(b)
    ensures a == b
  {
    DisplayNumberRoundTrip(a);
    DisplayNumberRoundTrip(b);
  }

  function Pow10(k: nat): nat
  {
    if k == 0 then 1 else 10 * Pow10(k - 1)
  }

  lemma {:induction false} Pow10AtLeastTen(k: nat)
    requires k >= 1
    ensures Pow10(k) >= 10
  {
    if k > 1 {
      Pow10AtLeastTen(k - 1);
    }
  }

  /** String(n) has at most k digits exactly when n < 10^k. */
  lemma {:induction false} DecimalStringLength(n: nat, k: nat)
    requires k >= 1
    ensures |DecimalString(n)| <= k <==> n < Pow10(k)
  {
    Pow10AtLeastTen(k);
    if n >= 10 {
      if k >= 2 {
        DecimalStringLength(n / 10, k - 1);
      } else {
        assert |DecimalString(n)| == |DecimalString(n / 10)| + 1;
      }
    }
  }

  /** Up to 99999 the number is padded to five digits; from 100000 on it appears unpadded. */
  lemma DisplayNumberWidth(count: nat)
    ensures count + 1 < 100000 ==> |DisplayNumber(count)| == 9
    ensures count + 1 >= 100000 ==> DisplayNumber(count) == "RMX-" + DecimalString(count + 1)
  {
    DecimalStringLength(count + 1, 5);
  }
}
