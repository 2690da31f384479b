/** Decimal text of integers as `String.format("%d")`, `"%02d"` and Kotlin
    string templates print them, with the parser that inverts it. */
module Decimal {
  import opened PhoneNumber

  function DigitChar(d: int): (c: char)
    requires 0 <= d < 10
    ensures IsDigit(c)
  {
    '0' + d as char
  }

  function DigitValue(c: char): (d: int)
    requires IsDigit(c)
    ensures 0 <= d < 10
  {
    (c - '0') as int
  }

  lemma DigitRoundTrip(d: int)
    requires 0 <= d < 10
    ensures DigitValue(DigitChar(d)) == d
  {
  }

  /** The decimal digits of `n`, most significant first, without leading
      zeros. */
  function NatToString(n: nat): (s: string)
    ensures |s| >= 1 && AllDigits(s)
    ensures |s| > 1 ==> s[0] != '0'
    decreases n
  {
    if n < 10 then [DigitChar(n)]
    else
      NatToString(n / 10) + [DigitChar(n % 10)]
  }

  /** The value of a string of decimal digits. */
  function ParseNat(s: string): (n: nat)
    requires AllDigits(s)
    decreases |s|
  {
    if |s| == 0 then 0 else ParseNat(s[..|s| - 1]) * 10 + DigitValue(s[|s| - 1])
  }

  /** Printing and then parsing gives the number back, so distinct numbers
      print differently. */
  lemma {:induction false} ParseNatToString(n: nat)
    ensures ParseNat(NatToString(n)) == n
    decreases n
  {
    var s := NatToString(n);
    if n < 10 {
      DigitRoundTrip(n);
    } else {
      ParseNatToString(n / 10);
      assert s[..|s| - 1] == NatToString(n / 10);
      DigitRoundTrip(n % 10);
    }
  }

  lemma NatToStringInjective(a: nat, b: nat)
    requires NatToString(a) == NatToString(b)
    ensures a == b
  {
    ParseNatToString(a);
    ParseNatToString(b);
  }

  /** `"%d"`: a minus sign before the digits of a negative number. */
  function IntToString(i: int): (s: string)
    ensures i >= 0 ==> s == NatToString(i)
    ensures i < 0 ==> |s| >= 2 && s[0] == '-' && s[1..] == NatToString(-i)
  {
    if i >= 0 then NatToString(i) else "-" + NatToString(-i)
  }

  /** `"%02d"`: at least two characters, zero-filled after any sign. */
  function Pad2(i: int): (s: string)
    ensures |s| >= 2
    ensures 0 <= i < 10 ==> s == ['0', DigitChar(i)]
    ensures 10 <= i < 100 ==> |s| == 2 && AllDigits(s)
    ensures i >= 0 ==> AllDigits(s) && ParseNat(s) == i
  {
    if 0 <= i < 10 then
      var s := "0" + NatToString(i);
      assert s == ['0', DigitChar(i)];
      assert ParseNat(s[..1]) == 0 by {
        assert s[..1] == ['0'] && s[..1][..0] == [];
      }
      DigitRoundTrip(i);
      s
    else
      assert i >= 10 ==> |NatToString(i)| >= 2 by {
        if i >= 10 {
          assert NatToString(i) == NatToString(i / 10) + [DigitChar(i % 10)];
        }
      }
      assert 10 <= i < 100 ==> |NatToString(i)| == 2 by {
        if 10 <= i < 100 {
          assert NatToString(i / 10) == [DigitChar(i / 10)];
        }
      }
      assert i >= 0 ==> ParseNat(NatToString(i)) == i by {
        if i >= 0 {
          ParseNatToString(i);
        }
      }
      IntToString(i)
  }
}
