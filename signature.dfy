/**
 * `result_to_signature`: a scan result as a catalog key.
 *
 * For each unit (west, then east), for each source pin, the two destination
 * vectors (west, then east) are folded into codes; the unit's codes, in that
 * flattened order, are printed as `%04x` and concatenated, and the two units
 * are joined by one space. With 16 pins and 2 destinations a half holds 32
 * codes, 128 hex digits.
 */
module SignatureCodec {
  import opened Readings
  import opened HexFormat
  import opened Blocks

  /** Destination vector d of a reading: 0 is the west unit's, 1 the east unit's. */
  function Dest(src: Reading, d: nat): Vector
  {
    if d == 0 then src.west else src.east
  }

  /** `unit.map { |src| src.map { fold } }.flatten`: two codes per source pin. */
  function UnitCodeList(unit: seq<Reading>): seq<nat>
  {
    if unit == [] then [] else [Code(unit[0].west), Code(unit[0].east)] + UnitCodeList(unit[1..])
  }

  /** `map { |i| "%04x" % i }` */
  function FormatAll(codes: seq<nat>): seq<string>
  {
    seq(|codes|, i requires 0 <= i < |codes| => Format04(codes[i]))
  }

  /** Ruby's `join` with no separator. */
  function Concat(parts: seq<string>): string
  {
    if parts == [] then "" else Concat(parts[..|parts| - 1]) + parts[|parts| - 1]
  }

  /** One unit's half of the signature. */
  function UnitCodes(unit: seq<Reading>): string
  {
    Concat(FormatAll(UnitCodeList(unit)))
  }

  /** Ruby's `join(" ")`. */
  function JoinSpace(parts: seq<string>): string
  {
    if |parts| == 0 then ""
    else if |parts| == 1 then parts[0]
    else JoinSpace(parts[..|parts| - 1]) + " " + parts[|parts| - 1]
  }

  /** `result_to_signature` */
  function ResultToSignature(result: ScanResult): string
  {
    JoinSpace(seq(|result|, u requires 0 <= u < |result| => UnitCodes(result[u])))
  }

  /** The k-th 4-character code of a half. */
  function CodeAt(half: string, k: nat): string
    requires 4 * k + 4 <= |half|
  {
    half[4 * k..4 * k + 4]
  }

  ghost predicate Lines16(unit: seq<Reading>)
  {
    forall p :: 0 <= p < |unit| ==> |unit[p].west| == 16 && |unit[p].east| == 16
  }

  /** A string shaped like a signature: 128 hex digits, a space, 128 hex digits. */
  ghost predicate IsSignatureShape(s: string)
  {
    |s| == 257 && s[128] == ' ' && forall i :: 0 <= i < 257 && i != 128 ==> IsHexDigit(s[i])
  }

  /** Reading a half back into the unit's readings: each code unpacked into 16 lines. */
  function DecodeHalf(half: string): seq<Reading>
    requires |half| == 128 && forall i :: 0 <= i < 128 ==> IsHexDigit(half[i])
  {
    seq(16, p requires 0 <= p < 16 =>
      Reading(Unpack(HexValue(CodeAt(half, 2 * p)), 16), Unpack(HexValue(CodeAt(half, 2 * p + 1)), 16)))
  }

  /** The inverse of ResultToSignature on well-shaped results. */
  function Decode(s: string): ScanResult
    requires IsSignatureShape(s)
  {
    [DecodeHalf(s[..128]), DecodeHalf(s[129..])]
  }

  /** Element 2p + d of a unit's code list is the code of pin p's destination-d vector. */
  lemma {:induction false} UnitCodeListAt(unit: seq<Reading>)
    ensures |UnitCodeList(unit)| == 2 * |unit|
    ensures forall p :: 0 <= p < |unit| ==> UnitCodeList(unit)[2 * p] == Code(unit[p].west)
    ensures forall p :: 0 <= p < |unit| ==> UnitCodeList(unit)[2 * p + 1] == Code(unit[p].east)
  {
    if unit != [] {
      var tail := unit[1..];
      UnitCodeListAt(tail);
      var rest := UnitCodeList(tail);
      assert UnitCodeList(unit) == [Code(unit[0].west), Code(unit[0].east)] + rest;
      forall p | 1 <= p < |unit|
        ensures UnitCodeList(unit)[2 * p] == Code(unit[p].west)
        ensures UnitCodeList(unit)[2 * p + 1] == Code(unit[p].east)
      {
        assert tail[p - 1] == unit[p];
        assert UnitCodeList(unit)[2 * p] == rest[2 * (p - 1)];
        assert UnitCodeList(unit)[2 * p + 1] == rest[2 * (p - 1) + 1];
      }
    }
  }

  lemma {:induction false} AllBelowAppend(a: seq<nat>, b: seq<nat>, bound: nat)
    requires forall i :: 0 <= i < |a| ==> a[i] < bound
    requires forall i :: 0 <= i < |b| ==> b[i] < bound
    ensures forall i :: 0 <= i < |a + b| ==> (a + b)[i] < bound
  {
    forall i | 0 <= i < |a + b|
      ensures (a + b)[i] < bound
    {
      if i >= |a| {
        assert (a + b)[i] == b[i - |a|];
      }
    }
  }

  /** Every code of a unit with 16-line vectors fits in four hex digits. */
  lemma {:induction false} UnitCodeBounds(unit: seq<Reading>)
    requires Lines16(unit)
    ensures forall i :: 0 <= i < |UnitCodeList(unit)| ==> UnitCodeList(unit)[i] < 0x10000
  {
    if unit != [] {
      var tail := unit[1..];
      assert Lines16(tail) by {
        forall p | 0 <= p < |tail|
          ensures |tail[p].west| == 16 && |tail[p].east| == 16
        {
          assert tail[p] == unit[p + 1];
        }
      }
      UnitCodeBounds(tail);
      CodeBound(unit[0].west);
      CodeBound(unit[0].east);
      var head := [Code(unit[0].west), Code(unit[0].east)];
      assert UnitCodeList(unit) == head + UnitCodeList(tail);
      AllBelowAppend(head, UnitCodeList(tail), 0x10000);
    }
  }

  /** Concatenating 4-character blocks puts block k at offset 4k. */
  lemma {:induction false} ConcatBlocks(parts: seq<string>)
    requires forall i :: 0 <= i < |parts| ==> |parts[i]| == 4
    ensures |Concat(parts)| == 4 * |parts|
    ensures forall k :: 0 <= k < |parts| ==> CodeAt(Concat(parts), k) == parts[k]
  {
    if parts != [] {
      var init := parts[..|parts| - 1];
      ConcatBlocks(init);
      forall k | 0 <= k < |parts|
        ensures CodeAt(Concat(parts), k) == parts[k]
      {
        if k < |init| {
          assert CodeAt(Concat(parts), k) == CodeAt(Concat(init), k);
        }
      }
    }
  }

  /** Concatenated lower-case hex blocks are lower-case hex throughout. */
  lemma {:induction false} ConcatLowerHex(parts: seq<string>)
    requires forall i, j :: 0 <= i < |parts| && 0 <= j < |parts[i]| ==> IsLowerHexDigit(parts[i][j])
    ensures forall j :: 0 <= j < |Concat(parts)| ==> IsLowerHexDigit(Concat(parts)[j])
  {
    if parts != [] {
      var init := parts[..|parts| - 1];
      ConcatLowerHex(init);
      var last := parts[|parts| - 1];
      assert forall j :: |Concat(init)| <= j < |Concat(parts)| ==> Concat(parts)[j] == last[j - |Concat(init)|];
    }
  }

  lemma {:induction false} FormatAllCodes(codes: seq<nat>)
    requires forall i :: 0 <= i < |codes| ==> codes[i] < 0x10000
    ensures forall i :: 0 <= i < |codes| ==> |FormatAll(codes)[i]| == 4
    ensures forall i, j :: 0 <= i < |codes| && 0 <= j < |FormatAll(codes)[i]| ==> IsLowerHexDigit(FormatAll(codes)[i][j])
  {
    forall i | 0 <= i < |codes|
      ensures |FormatAll(codes)[i]| == 4
      ensures forall j :: 0 <= j < 4 ==> IsLowerHexDigit(FormatAll(codes)[i][j])
    {
      Format04RoundTrip(codes[i]);
    }
  }

  /** A unit's half: 8 lower-case hex digits per source pin. */
  lemma {:induction false} UnitCodesShape(unit: seq<Reading>)
    requires Lines16(unit)
    ensures |UnitCodes(unit)| == 8 * |unit|
    ensures forall j :: 0 <= j < |UnitCodes(unit)| ==> IsLowerHexDigit(UnitCodes(unit)[j])
  {
    var codes := UnitCodeList(unit);
    UnitCodeListAt(unit);
    UnitCodeBounds(unit);
    FormatAllCodes(codes);
    ConcatBlocks(FormatAll(codes));
    ConcatLowerHex(FormatAll(codes));
  }

  /** Every printed code of a unit with 16-line vectors is four characters long. */
  lemma {:induction false} UnitPartsLength(unit: seq<Reading>)
    requires Lines16(unit)
    ensures |FormatAll(UnitCodeList(unit))| == 2 * |unit|
    ensures forall i :: 0 <= i < 2 * |unit| ==> |FormatAll(UnitCodeList(unit))[i]| == 4
  {
    UnitCodeListAt(unit);
    UnitCodeBounds(unit);
    FormatAllCodes(UnitCodeList(unit));
  }

  /** The code at list position 2p + d belongs to pin p, destination d. */
  lemma {:induction false} UnitCodeAt(unit: seq<Reading>, p: nat, d: nat)
    requires p < |unit| && d < 2
    ensures |UnitCodeList(unit)| == 2 * |unit|
    ensures UnitCodeList(unit)[2 * p + d] == Code(Dest(unit[p], d))
  {
    UnitCodeListAt(unit);
    if d == 0 {
      assert UnitCodeList(unit)[2 * p] == Code(unit[p].west);
    } else {
      assert UnitCodeList(unit)[2 * p + 1] == Code(unit[p].east);
    }
  }

  lemma {:induction false} UnitCodesLength(unit: seq<Reading>)
    requires Lines16(unit)
    ensures |UnitCodes(unit)| == 8 * |unit|
  {
    UnitPartsLength(unit);
    ConcatBlocks(FormatAll(UnitCodeList(unit)));
  }

  /** The code of pin p's destination-d vector sits at code position 2p + d
      of the unit's half (offset 8p + 4d). */
  lemma {:induction false} UnitCodeWindow(unit: seq<Reading>, p: nat, d: nat)
    requires Lines16(unit) && p < |unit| && d < 2
    ensures |UnitCodes(unit)| == 8 * |unit|
    ensures CodeAt(UnitCodes(unit), 2 * p + d) == Format04(Code(Dest(unit[p], d)))
  {
    var parts := FormatAll(UnitCodeList(unit));
    UnitPartsLength(unit);
    ConcatBlocks(parts);
    UnitCodeAt(unit, p, d);
    assert parts[2 * p + d] == Format04(UnitCodeList(unit)[2 * p + d]);
  }

  lemma {:induction false} UnitCodesAt(unit: seq<Reading>)
    requires Lines16(unit)
    ensures |UnitCodes(unit)| == 8 * |unit|
    ensures forall p, d :: 0 <= p < |unit| && 0 <= d < 2 ==>
      CodeAt(UnitCodes(unit), 2 * p + d) == Format04(Code(Dest(unit[p], d)))
  {
    UnitCodesLength(unit);
    forall p, d | 0 <= p < |unit| && 0 <= d < 2
      ensures CodeAt(UnitCodes(unit), 2 * p + d) == Format04(Code(Dest(unit[p], d)))
    {
      UnitCodeWindow(unit, p, d);
    }
  }

  lemma {:induction false} UnitCodesLayout(unit: seq<Reading>)
    requires Lines16(unit)
    ensures |UnitCodes(unit)| == 8 * |unit|
    ensures forall j :: 0 <= j < |UnitCodes(unit)| ==> IsLowerHexDigit(UnitCodes(unit)[j])
    ensures forall p, d :: 0 <= p < |unit| && 0 <= d < 2 ==>
      CodeAt(UnitCodes(unit), 2 * p + d) == Format04(Code(Dest(unit[p], d)))
  {
    UnitCodesShape(unit);
    UnitCodesAt(unit);
  }

  /** The signature of a two-unit result is the west half, one space, the east half. */
  lemma {:induction false} SignatureHalves(result: ScanResult)
    requires |result| == 2
    ensures ResultToSignature(result) == UnitCodes(result[0]) + " " + UnitCodes(result[1])
  {
    var parts := seq(|result|, u requires 0 <= u < |result| => UnitCodes(result[u]));
    var h0, h1 := UnitCodes(result[0]), UnitCodes(result[1]);
    assert parts == [h0, h1];
    assert parts[..1] == [h0];
    assert JoinSpace(parts[..1]) == h0;
  }

  /** Where the characters of each half sit in the joined string. */
  lemma {:induction false} JoinedHalves(h0: string, h1: string)
    requires |h0| == 128 && |h1| == 128
    ensures |h0 + " " + h1| == 257 && (h0 + " " + h1)[128] == ' '
    ensures (h0 + " " + h1)[..128] == h0 && (h0 + " " + h1)[129..] == h1
    ensures forall i :: 0 <= i < 128 ==> (h0 + " " + h1)[i] == h0[i] && (h0 + " " + h1)[129 + i] == h1[i]
  {
    var s := h0 + " " + h1;
    assert s[..128] == h0;
    assert s[129..] == h1;
  }

  /** A four-character window at offset off of half u of the joined string. */
  lemma {:induction false} JoinedWindow(h0: string, h1: string, u: nat, off: nat)
    requires |h0| == 128 && |h1| == 128 && u < 2 && off + 4 <= 128
    ensures (h0 + " " + h1)[129 * u + off..129 * u + off + 4] == (if u == 0 then h0 else h1)[off..off + 4]
  {
    if u == 0 {
      SliceOfFront(h0 + " ", h1, off, off + 4);
      SliceOfFront(h0, " ", off, off + 4);
    } else {
      SliceOfRight(h0 + " ", h1, off, off + 4);
    }
  }

  /** The code of (unit u, source pin p, destination d) sits at offset 8p + 4d of half u. */
  lemma {:induction false} SignatureCodeAt(result: ScanResult, u: nat, p: nat, d: nat)
    requires WellShaped(result) && u < 2 && p < 16 && d < 2
    ensures |ResultToSignature(result)| == 257
    ensures ResultToSignature(result)[129 * u + 8 * p + 4 * d..129 * u + 8 * p + 4 * d + 4]
        == Format04(Code(Dest(result[u][p], d)))
  {
    var h0, h1 := UnitCodes(result[0]), UnitCodes(result[1]);
    var h := UnitCodes(result[u]);
    assert h == if u == 0 then h0 else h1;
    assert Lines16(result[0]) && Lines16(result[1]) && Lines16(result[u]);
    UnitCodesLength(result[0]);
    UnitCodesLength(result[1]);
    UnitCodeWindow(result[u], p, d);
    SignatureHalves(result);
    var k := 2 * p + d;
    assert 8 * p + 4 * d == 4 * k;
    JoinedWindow(h0, h1, u, 4 * k);
    assert h[4 * k..4 * k + 4] == CodeAt(h, k);
  }

  /** Layout of a signature: 257 characters, two halves of 128 lower-case hex
      digits around one space, and the code of (unit u, source pin p,
      destination d) at offset 8p + 4d of half u. */
  lemma {:induction false} SignatureLayout(result: ScanResult)
    requires WellShaped(result)
    ensures |ResultToSignature(result)| == 257
    ensures ResultToSignature(result)[128] == ' '
    ensures ResultToSignature(result)[..128] == UnitCodes(result[0])
    ensures ResultToSignature(result)[129..] == UnitCodes(result[1])
    ensures forall i :: 0 <= i < 257 && i != 128 ==> IsLowerHexDigit(ResultToSignature(result)[i])
    ensures forall u, p, d :: 0 <= u < 2 && 0 <= p < 16 && 0 <= d < 2 ==>
      ResultToSignature(result)[129 * u + 8 * p + 4 * d..129 * u + 8 * p + 4 * d + 4]
        == Format04(Code(Dest(result[u][p], d)))
  {
    var h0, h1 := UnitCodes(result[0]), UnitCodes(result[1]);
    SignatureHalves(result);
    UnitCodesShape(result[0]);
    UnitCodesShape(result[1]);
    JoinedHalves(h0, h1);
    var s := ResultToSignature(result);
    forall i | 0 <= i < 257 && i != 128
      ensures IsLowerHexDigit(s[i])
    {
      if i > 128 {
        assert s[129 + (i - 129)] == h1[i - 129];
      }
    }
    forall u, p, d | 0 <= u < 2 && 0 <= p < 16 && 0 <= d < 2
      ensures s[129 * u + 8 * p + 4 * d..129 * u + 8 * p + 4 * d + 4] == Format04(Code(Dest(result[u][p], d)))
    {
      SignatureCodeAt(result, u, p, d);
    }
  }

  /** A printed 16-line code unpacks to the vector it came from. */
  lemma {:induction false} DecodeCode(code: string, v: Vector)
    requires |v| == 16 && code == Format04(Code(v))
    ensures |code| == 4 && forall i :: 0 <= i < 4 ==> IsHexDigit(code[i])
    ensures Unpack(HexValue(code), 16) == v
  {
    CodeBound(v);
    Format04RoundTrip(Code(v));
    UnpackCode(v);
  }

  /** Pin p of a decoded half, given the two codes printed for it. */
  lemma {:induction false} DecodePin(half: string, r: Reading, p: nat)
    requires |half| == 128 && forall i :: 0 <= i < 128 ==> IsHexDigit(half[i])
    requires p < 16 && |r.west| == 16 && |r.east| == 16
    requires CodeAt(half, 2 * p) == Format04(Code(r.west))
    requires CodeAt(half, 2 * p + 1) == Format04(Code(r.east))
    ensures DecodeHalf(half)[p] == r
  {
    DecodeCode(CodeAt(half, 2 * p), r.west);
    DecodeCode(CodeAt(half, 2 * p + 1), r.east);
  }

  lemma {:induction false} DecodeUnitCodes(unit: seq<Reading>)
    requires |unit| == 16 && Lines16(unit)
    ensures |UnitCodes(unit)| == 128
    ensures forall i :: 0 <= i < 128 ==> IsHexDigit(UnitCodes(unit)[i])
    ensures DecodeHalf(UnitCodes(unit)) == unit
  {
    UnitCodesLayout(unit);
    var half := UnitCodes(unit);
    forall p | 0 <= p < 16
      ensures DecodeHalf(half)[p] == unit[p]
    {
      assert CodeAt(half, 2 * p + 0) == Format04(Code(Dest(unit[p], 0)));
      assert CodeAt(half, 2 * p + 1) == Format04(Code(Dest(unit[p], 1)));
      DecodePin(half, unit[p], p);
    }
  }

  /** Decoding a signature gives back the scan result it was computed from. */
  lemma {:induction false} SignatureRoundTrip(result: ScanResult)
    requires WellShaped(result)
    ensures IsSignatureShape(ResultToSignature(result))
    ensures Decode(ResultToSignature(result)) == result
  {
    SignatureLayout(result);
    DecodeUnitCodes(result[0]);
    DecodeUnitCodes(result[1]);
  }

  /** Distinct scan results have distinct signatures. */
  lemma {:induction false} SignatureInjective(r1: ScanResult, r2: ScanResult)
    requires WellShaped(r1) && WellShaped(r2)
    requires ResultToSignature(r1) == ResultToSignature(r2)
    ensures r1 == r2
  {
    SignatureRoundTrip(r1);
    SignatureRoundTrip(r2);
  }

  /** A source pin wired to line k of destination d, and nothing else there,
      shows the code 2^k at its place in the signature. */
  lemma {:induction false} SingleWireCode(result: ScanResult, u: nat, p: nat, d: nat, k: nat)
    requires WellShaped(result) && u < 2 && p < 16 && d < 2 && k < 16
    requires Dest(result[u][p], d) == OneHot(k, 16)
    ensures |ResultToSignature(result)| == 257
    ensures ResultToSignature(result)[129 * u + 8 * p + 4 * d..129 * u + 8 * p + 4 * d + 4] == Format04(Pow2(k))
  {
    SignatureLayout(result);
    OneHotCode(k, 16);
  }
}
