/**
 * Pin readings and their 16-bit codes.
 *
 * A bank byte read from an expander is unpacked into 8 booleans, `true`
 * where the pin reads low (pulled down through a wire); the two banks of a
 * device give a 16-boolean vector, pins 0-15. A vector is folded into an
 * integer code by reversing it and then shifting left and adding each bit,
 * so vector index i carries weight 2^i.
 */
module Readings {
  import opened Expander

  type Vector = seq<bool>

  /** One probe's readback: the vectors of the west and of the east unit. */
  datatype Reading = Reading(west: Vector, east: Vector)

  /** result[unit][pin]: the reading taken while that pin of that unit was driven. */
  type ScanResult = seq<seq<Reading>>

  /** The shape a scan always has: 2 units, 16 pins each, 16-line vectors. */
  ghost predicate WellShaped(result: ScanResult)
  {
    && |result| == 2
    && forall u :: 0 <= u < 2 ==>
         && |result[u]| == 16
         && forall p :: 0 <= p < 16 ==> |result[u][p].west| == 16 && |result[u][p].east| == 16
  }

  function Pow2(k: nat): (r: nat)
    ensures r >= 1
  {
    if k == 0 then 1 else 2 * Pow2(k - 1)
  }

  /** Bit k of n, that is (n >> k) & 1. */
  function Bit(n: nat, k: nat): (b: nat)
    ensures b < 2
  {
    if k == 0 then n % 2 else Bit(n / 2, k - 1)
  }

  /** `value_to_array`: element i is `value & (1 << i) == 0`. */
  function ValueToArray(value: Byte): Vector
  {
    seq(8, i requires 0 <= i < 8 => Bit(value, i) == 0)
  }

  /** `get_value` once the two banks have been read: bank A's 8 then bank B's 8. */
  function BanksToVector(banks: BankPair): Vector
  {
    ValueToArray(banks.low) + ValueToArray(banks.high)
  }

  /** `inject(0) { |sum, bit| (sum << 1) + (bit ? 1 : 0) }`, left to right. */
  function ShiftAdd(bits: Vector): nat
  {
    if bits == [] then 0
    else 2 * ShiftAdd(bits[..|bits| - 1]) + (if bits[|bits| - 1] then 1 else 0)
  }

  function Reverse(v: Vector): Vector
  {
    if v == [] then [] else Reverse(v[1..]) + [v[0]]
  }

  /** The code of one destination vector: `dst_unit.reverse.inject(0) ...`. */
  function Code(v: Vector): nat
  {
    ShiftAdd(Reverse(v))
  }

  /** Reference reading of a vector as a binary number: sum of 2^i over true v[i]. */
  function Weight(v: Vector): nat
  {
    if v == [] then 0 else (if v[0] then 1 else 0) + 2 * Weight(v[1..])
  }

  /** The vector whose only true element is at index k. */
  function OneHot(k: nat, n: nat): Vector
  {
    seq(n, i requires 0 <= i < n => i == k)
  }

  /** The first `width` bits of n as a vector, bit 0 first. */
  function Unpack(n: nat, width: nat): Vector
  {
    seq(width, i requires 0 <= i < width => Bit(n, i) == 1)
  }

  lemma {:induction false} ShiftAddSnoc(s: Vector, b: bool)
    ensures ShiftAdd(s + [b]) == 2 * ShiftAdd(s) + (if b then 1 else 0)
  {
    assert (s + [b])[..|s|] == s;
  }

  /** The reverse-then-shift fold gives index i the weight 2^i. */
  lemma {:induction false} CodeIsWeight(v: Vector)
    ensures Code(v) == Weight(v)
  {
    if v != [] {
      CodeIsWeight(v[1..]);
      ShiftAddSnoc(Reverse(v[1..]), v[0]);
    }
  }

  lemma {:induction false} WeightBound(v: Vector)
    ensures Weight(v) < Pow2(|v|)
  {
    if v != [] {
      WeightBound(v[1..]);
    }
  }

  /** Every code of an n-line vector fits in n bits; 16 lines give a code below 0x10000. */
  lemma {:induction false} CodeBound(v: Vector)
    ensures Code(v) < Pow2(|v|)
    ensures |v| == 16 ==> Code(v) < 0x10000
  {
    CodeIsWeight(v);
    WeightBound(v);
    if |v| == 16 {
      assert Pow2(8) == 0x100;
      assert Pow2(16) == 0x10000;
    }
  }

  lemma DoubleSum(a: int, p: int, w: int)
    ensures 2 * (a + p * w) == 2 * a + (2 * p) * w
  {
  }

  lemma {:induction false} WeightAppend(x: Vector, y: Vector)
    ensures Weight(x + y) == Weight(x) + Pow2(|x|) * Weight(y)
  {
    if x != [] {
      assert (x + y)[1..] == x[1..] + y;
      WeightAppend(x[1..], y);
      var b, rest, p, w := if x[0] then 1 else 0, Weight(x[1..]), Pow2(|x| - 1), Weight(y);
      assert Weight(x + y) == b + 2 * (rest + p * w);
      assert Pow2(|x|) == 2 * p;
      DoubleSum(rest, p, w);
    } else {
      assert x + y == y;
    }
  }

  lemma {:induction false} WeightBit(v: Vector, i: nat)
    requires i < |v|
    ensures Bit(Weight(v), i) == (if v[i] then 1 else 0)
  {
    if i > 0 {
      WeightBit(v[1..], i - 1);
    }
  }

  /** Bit i of a vector's code is the vector's element i. */
  lemma {:induction false} CodeBit(v: Vector, i: nat)
    requires i < |v|
    ensures Bit(Code(v), i) == 1 <==> v[i]
  {
    CodeIsWeight(v);
    WeightBit(v, i);
  }

  /** Unpacking a code recovers the vector it was folded from. */
  lemma {:induction false} UnpackCode(v: Vector)
    ensures Unpack(Code(v), |v|) == v
  {
    forall i | 0 <= i < |v|
      ensures Unpack(Code(v), |v|)[i] == v[i]
    {
      CodeBit(v, i);
    }
  }

  /** A single wire on line k gives the code 2^k. */
  lemma {:induction false} OneHotCode(k: nat, n: nat)
    requires k < n
    ensures Code(OneHot(k, n)) == Pow2(k)
  {
    CodeIsWeight(OneHot(k, n));
    OneHotWeight(k, n);
  }

  lemma {:induction false} ZeroWeight(n: nat)
    ensures Weight(seq(n, i requires 0 <= i < n => false)) == 0
  {
    if n > 0 {
      assert seq(n, i requires 0 <= i < n => false)[1..] == seq(n - 1, i requires 0 <= i < n - 1 => false);
      ZeroWeight(n - 1);
    }
  }

  lemma {:induction false} OneHotWeight(k: nat, n: nat)
    requires k < n
    ensures Weight(OneHot(k, n)) == Pow2(k)
  {
    if k == 0 {
      assert OneHot(0, n)[1..] == seq(n - 1, i requires 0 <= i < n - 1 => false);
      ZeroWeight(n - 1);
    } else {
      assert OneHot(k, n)[1..] == OneHot(k - 1, n - 1);
      OneHotWeight(k - 1, n - 1);
    }
  }

  /** The pins-low vector of a value below 2^n weighs 2^n - 1 - a. */
  lemma {:induction false} InvertedWeight(a: nat, n: nat)
    requires a < Pow2(n)
    ensures Weight(seq(n, i requires 0 <= i < n => Bit(a, i) == 0)) == Pow2(n) - 1 - a
  {
    if n > 0 {
      var s := seq(n, i requires 0 <= i < n => Bit(a, i) == 0);
      assert s[1..] == seq(n - 1, i requires 0 <= i < n - 1 => Bit(a / 2, i) == 0);
      InvertedWeight(a / 2, n - 1);
    }
  }

  lemma {:induction false} ValueToArrayWeight(value: Byte)
    ensures |ValueToArray(value)| == 8
    ensures Weight(ValueToArray(value)) == 0xff - value
  {
    assert Pow2(8) == 0x100;
    InvertedWeight(value, 8);
  }

  /** Decode then fold: the code of a device's readback is 0xFFFF - a - 256 b,
      so a pin reading high contributes nothing and a pin reading low its 2^i. */
  lemma {:induction false} DecodeThenFold(banks: BankPair)
    ensures |BanksToVector(banks)| == 16
    ensures Code(BanksToVector(banks)) == 0xffff - banks.low - 0x100 * banks.high
  {
    ValueToArrayWeight(banks.low);
    ValueToArrayWeight(banks.high);
    CodeIsWeight(BanksToVector(banks));
    WeightAppend(ValueToArray(banks.low), ValueToArray(banks.high));
    assert Pow2(8) == 0x100;
  }

  /** Element i of a readback vector is true exactly when pin i reads low. */
  lemma {:induction false} BanksToVectorPins(banks: BankPair, i: nat)
    requires i < 16
    ensures |BanksToVector(banks)| == 16
    ensures BanksToVector(banks)[i] <==> if i < 8 then Bit(banks.low, i) == 0 else Bit(banks.high, i - 8) == 0
  {
  }
}
