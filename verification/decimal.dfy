/** Decimal digit strings: rendering a natural number and reading one back. */
module Decimal {

  predicate IsDigit(c: char) {
    '0' <= c <= '9'
  }

  predicate AllDigits(s: string) {
    forall i :: 0 <= i < |s| ==> IsDigit(s[i])
  }

  function DigitChar(d: nat): (c: char)
    requires d < 10
    ensures IsDigit(c)
  {
    (48 + d) as char
  }

  function DigitValue(c: char): (d: nat)
    requires IsDigit(c)
    ensures d < 10 && DigitChar(d) == c
  {
    c as int - 48
  }

  /** The shortest decimal rendering of `n` (no leading zeros, "0" for zero). */
  function NatToText(n: nat): (s: string)
    ensures 1 <= |s| && AllDigits(s)
    ensures n < 10 <==> |s| == 1
    ensures 10 <= n < 100 ==> |s| == 2
    decreases n
  {
    if n < 10 then [DigitChar(n)] else NatToText(n / 10) + [DigitChar(n % 10)]
  }

  /** The value of a digit string; leading zeros are allowed. */
  function TextToNat(s: string): nat
    requires AllDigits(s)
    decreases |s|
  {
    if s == [] then 0 else TextToNat(s[..|s| - 1]) * 10 + DigitValue(s[|s| - 1])
  }

  /** `k` zero characters. */
  function Zeros(k: nat): (z: string)
    ensures |z| == k && AllDigits(z)
  {
    seq(k, _ => '0')
  }

  /** Left-pads `s` with zeros to at least `width` characters. */
  function PadLeft(s: string, width: nat): (r: string)
    ensures |r| == if |s| < width then width else |s|
    ensures r == Zeros(|r| - |s|) + s
  {
    if |s| < width then Zeros(width - |s|) + s else s
  }

  /** Reading back a rendered number gives the number. */
  lemma {:induction false} NatTextRoundTrip(n: nat)
    ensures TextToNat(NatToText(n)) == n
    decreases n
  {
    if n >= 10 {
      var s := NatToText(n);
      assert s[..|s| - 1] == NatToText(n / 10);
      NatTextRoundTrip(n / 10);
    }
  }

  /** Leading zeros do not change the value of a digit string. */
  lemma {:induction false} LeadingZeros(k: nat, s: string)
    requires AllDigits(s)
    ensures TextToNat(Zeros(k) + s) == TextToNat(s)
    decreases |s| + k
  {
    var t := Zeros(k) + s;
    if s == [] {
      assert t == Zeros(k);
      if k > 0 {
        assert t[..|t| - 1] == Zeros(k - 1) + [];
        LeadingZeros(k - 1, []);
      }
    } else {
      assert t[..|t| - 1] == Zeros(k) + s[..|s| - 1];
      LeadingZeros(k, s[..|s| - 1]);
    }
  }

  /** Reading back a zero-padded rendering gives the number. */
  lemma PaddedRoundTrip(n: nat, width: nat)
    ensures AllDigits(PadLeft(NatToText(n), width))
    ensures TextToNat(PadLeft(NatToText(n), width)) == n
  {
    var s := NatToText(n);
    LeadingZeros(|PadLeft(s, width)| - |s|, s);
    NatTextRoundTrip(n);
  }
}
