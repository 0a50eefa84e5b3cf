/**
 * Ruby's `"%04x" % n` and `"%X" % n` on non-negative integers, and the
 * reading of a hex string back into its value.
 */
module HexFormat {

  predicate IsHexDigit(c: char)
  {
    ('0' <= c <= '9') || ('a' <= c <= 'f') || ('A' <= c <= 'F')
  }

  predicate IsLowerHexDigit(c: char)
  {
    ('0' <= c <= '9') || ('a' <= c <= 'f')
  }

  predicate IsUpperHexDigit(c: char)
  {
    ('0' <= c <= '9') || ('A' <= c <= 'F')
  }

  function DigitChar(d: nat, upper: bool): (c: char)
    requires d < 16
  {
    if d < 10 then ('0' as int + d) as char
    else if upper then ('A' as int + d - 10) as char
    else ('a' as int + d - 10) as char
  }

  function DigitValue(c: char): nat
    requires IsHexDigit(c)
  {
    if '0' <= c <= '9' then c as int - '0' as int
    else if 'a' <= c <= 'f' then c as int - 'a' as int + 10
    else c as int - 'A' as int + 10
  }

  /** The shortest hex representation of n ("0" for zero). */
  function Digits(n: nat, upper: bool): string
    decreases n
  {
    if n < 16 then [DigitChar(n, upper)]
    else Digits(n / 16, upper) + [DigitChar(n % 16, upper)]
  }

  function Zeros(k: nat): string
  {
    seq(k, _ => '0')
  }

  /** `"%X" % n` */
  function FormatUpper(n: nat): string
  {
    Digits(n, true)
  }

  /** `"%04x" % n`: lower-case digits, zero-padded on the left to at least 4. */
  function Format04(n: nat): string
  {
    var s := Digits(n, false);
    if |s| < 4 then Zeros(4 - |s|) + s else s
  }

  /** The value of a string of hex digits, in either case. */
  function HexValue(s: string): nat
    requires forall i :: 0 <= i < |s| ==> IsHexDigit(s[i])
  {
    if s == [] then 0 else 16 * HexValue(s[..|s| - 1]) + DigitValue(s[|s| - 1])
  }

  function Pow16(k: nat): (r: nat)
    ensures r >= 1
  {
    if k == 0 then 1 else 16 * Pow16(k - 1)
  }

  lemma {:induction false} DigitCharValue(d: nat, upper: bool)
    requires d < 16
    ensures IsHexDigit(DigitChar(d, upper)) && DigitValue(DigitChar(d, upper)) == d
    ensures !upper ==> IsLowerHexDigit(DigitChar(d, upper))
    ensures upper ==> IsUpperHexDigit(DigitChar(d, upper))
  {
  }

  /** Digits(n) is made of digits of the requested case and reads back as n. */
  lemma {:induction false} DigitsRoundTrip(n: nat, upper: bool)
    ensures |Digits(n, upper)| >= 1
    ensures forall i :: 0 <= i < |Digits(n, upper)| ==> IsHexDigit(Digits(n, upper)[i])
    ensures !upper ==> forall i :: 0 <= i < |Digits(n, upper)| ==> IsLowerHexDigit(Digits(n, upper)[i])
    ensures upper ==> forall i :: 0 <= i < |Digits(n, upper)| ==> IsUpperHexDigit(Digits(n, upper)[i])
    ensures HexValue(Digits(n, upper)) == n
    decreases n
  {
    var s := Digits(n, upper);
    if n < 16 {
      DigitCharValue(n, upper);
      assert s[..0] == [];
    } else {
      DigitsRoundTrip(n / 16, upper);
      DigitCharValue(n % 16, upper);
      assert s[..|s| - 1] == Digits(n / 16, upper);
    }
  }

  /** A value below 16^k needs at most k digits. */
  lemma {:induction false} DigitsLength(n: nat, upper: bool, k: nat)
    requires k >= 1 && n < Pow16(k)
    ensures |Digits(n, upper)| <= k
    decreases n
  {
    if n >= 16 {
      DigitsLength(n / 16, upper, k - 1);
    }
  }

  lemma {:induction false} ZerosValue(k: nat, s: string)
    requires forall i :: 0 <= i < |s| ==> IsHexDigit(s[i])
    ensures forall i :: 0 <= i < |Zeros(k) + s| ==> IsHexDigit((Zeros(k) + s)[i])
    ensures HexValue(Zeros(k) + s) == HexValue(s)
    decreases |s|, k
  {
    var t := Zeros(k) + s;
    if s == [] {
      assert t == Zeros(k);
      if k > 0 {
        assert t[..|t| - 1] == Zeros(k - 1) + [];
        ZerosValue(k - 1, []);
      }
    } else {
      assert t[..|t| - 1] == Zeros(k) + s[..|s| - 1];
      ZerosValue(k, s[..|s| - 1]);
    }
  }

  /** A code below 0x10000 prints as exactly 4 lower-case hex digits that read back as it. */
  lemma {:induction false} Format04RoundTrip(n: nat)
    requires n < 0x10000
    ensures |Format04(n)| == 4
    ensures forall i :: 0 <= i < 4 ==> IsLowerHexDigit(Format04(n)[i])
    ensures forall i :: 0 <= i < |Format04(n)| ==> IsHexDigit(Format04(n)[i])
    ensures HexValue(Format04(n)) == n
  {
    var s := Digits(n, false);
    DigitsRoundTrip(n, false);
    assert Pow16(4) == 0x10000;
    DigitsLength(n, false, 4);
    if |s| < 4 {
      ZerosValue(4 - |s|, s);
    }
    forall i | 0 <= i < 4
      ensures IsLowerHexDigit(Format04(n)[i])
    {
      if i < 4 - |s| {
        assert Format04(n)[i] == '0';
      } else {
        assert Format04(n)[i] == s[i - (4 - |s|)];
      }
    }
  }

  /** Equal 4-digit codes come from equal values. */
  lemma {:induction false} Format04Injective(m: nat, n: nat)
    requires m < 0x10000 && n < 0x10000
    requires Format04(m) == Format04(n)
    ensures m == n
  {
    Format04RoundTrip(m);
    Format04RoundTrip(n);
  }
}
