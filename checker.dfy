/**
 * `WireConnectionChecker`: probing one pin at a time and scanning all 32.
 *
 * To probe pin p of a unit, that unit is made active: its pull-up and
 * direction registers get a mask with only bit p cleared, so that pin alone
 * is a driven output (low) without pull-up. The other unit is passive: all
 * pull-ups on, all pins inputs. Every probe starts with one reset pulse,
 * writes the pull-ups (active, then passive) before the directions (active,
 * then passive), and ends by reading the live levels of the west unit, then
 * of the east unit, whichever was active.
 */
module Checker {
  import opened Wrappers
  import opened Expander
  import opened Readings
  import opened Blocks

  const WEST: int := 0x20
  const EAST: int := 0x21

  /** The passive unit's setting for both banks: pull-ups on, pins inputs. */
  const AllInputs: BankPair := BankPair(0xff, 0xff)

  datatype Error = InvalidPin(pin: int)

  lemma {:induction false} Pow2Below(k: nat, n: nat)
    requires k < n
    ensures Pow2(k) < Pow2(n)
  {
    if k + 1 < n {
      Pow2Below(k, n - 1);
    }
  }

  /** The two bank masks of a probe: all ones but the bit of `pin`. */
  function Masks(pin: int): Result<BankPair, Error>
  {
    if 0 <= pin <= 7 then
      Pow2Below(pin, 8);
      Success(BankPair(0xff - Pow2(pin), 0xff))
    else if 8 <= pin <= 15 then
      Pow2Below(pin - 8, 8);
      Success(BankPair(0xff, 0xff - Pow2(pin - 8)))
    else
      Failure(InvalidPin(pin))
  }

  function PinMasks(pin: int): BankPair
    requires 0 <= pin < 16
  {
    Masks(pin).value
  }

  function ActiveDevice(unit: int): int
  {
    if unit == 0 then WEST else EAST
  }

  function PassiveDevice(unit: int): int
  {
    if unit == 0 then EAST else WEST
  }

  /** The bus traffic of one probe up to the readback. */
  function ProbeWrites(unit: int, m: BankPair): seq<Event>
  {
    [Reset]
    + [Write(ActiveDevice(unit), GPPUA, m.low), Write(ActiveDevice(unit), GPPUB, m.high)]
    + [Write(PassiveDevice(unit), GPPUA, 0xff), Write(PassiveDevice(unit), GPPUB, 0xff)]
    + [Write(ActiveDevice(unit), IODIRA, m.low), Write(ActiveDevice(unit), IODIRB, m.high)]
    + [Write(PassiveDevice(unit), IODIRA, 0xff), Write(PassiveDevice(unit), IODIRB, 0xff)]
  }

  /** The whole bus traffic of one probe: configuration, then west and east readback. */
  function ProbeEvents(unit: int, m: BankPair): seq<Event>
  {
    ProbeWrites(unit, m) + [Read(WEST, GPIOA, 2), Read(EAST, GPIOA, 2)]
  }

  /** What one probe returns, given the journal before it and the wiring oracle. */
  function ProbeReading(sense: (int, seq<Event>) -> BankPair, log: seq<Event>, unit: int, m: BankPair): Reading
  {
    var configured := log + ProbeWrites(unit, m);
    Reading(BanksToVector(sense(WEST, configured)), BanksToVector(sense(EAST, configured + [Read(WEST, GPIOA, 2)])))
  }

  /** A register file after its pull-ups and then its directions are set to `m`. */
  function Configured(regs: map<int, Byte>, m: BankPair): map<int, Byte>
  {
    Store(Store(Store(Store(regs, GPPUA, Some(m.low)), GPPUB, Some(m.high)), IODIRA, Some(m.low)), IODIRB, Some(m.high))
  }

  /** Configuring twice leaves only the second configuration: both write the same four registers. */
  lemma {:induction false} ConfiguredTwice(regs: map<int, Byte>, a: BankPair, b: BankPair)
    ensures Configured(Configured(regs, a), b) == Configured(regs, b)
  {
    var once, twice := Configured(Configured(regs, a), b), Configured(regs, b);
    assert once.Keys == twice.Keys;
    forall r | r in once
      ensures once[r] == twice[r]
    {
    }
  }

  /** A device's register file after the first `count` probes of one unit's scan:
      untouched before the first, then the latest probe's configuration, the
      pin's masks when the device is the active one and all inputs when not. */
  function ScanConfigured(regs: map<int, Byte>, active: bool, count: nat): map<int, Byte>
    requires count <= 16
  {
    if count == 0 then regs else Configured(regs, if active then PinMasks(count - 1) else AllInputs)
  }

  /** One more probe leaves only that probe's configuration. */
  lemma {:induction false} ScanConfiguredStep(regs: map<int, Byte>, active: bool, pin: nat, before: map<int, Byte>, after: map<int, Byte>)
    requires pin < 16 && before == ScanConfigured(regs, active, pin)
    requires after == Configured(before, if active then PinMasks(pin) else AllInputs)
    ensures after == ScanConfigured(regs, active, pin + 1)
  {
    if pin > 0 {
      ConfiguredTwice(regs, if active then PinMasks(pin - 1) else AllInputs, if active then PinMasks(pin) else AllInputs);
    }
  }

  /** The j-th probe of a scan: unit j / 16, pin j % 16. */
  function ProbeOf(j: nat): seq<Event>
    requires j < 32
  {
    if j < 16 then ProbeEvents(0, PinMasks(j)) else ProbeEvents(1, PinMasks(j - 16))
  }

  /** The probes of a scan, in order, up to the k-th. */
  function Probes(k: nat): seq<seq<Event>>
    requires k <= 32
  {
    seq(k, j requires 0 <= j < k => ProbeOf(j))
  }

  /** The bus traffic of the first k probes of a scan. */
  function ScanEvents(k: nat): seq<Event>
    requires k <= 32
  {
    Flatten(Probes(k))
  }

  predicate IsPullupWrite(e: Event)
  {
    e.Write? && (e.register == GPPUA || e.register == GPPUB)
  }

  predicate IsDirectionWrite(e: Event)
  {
    e.Write? && (e.register == IODIRA || e.register == IODIRB)
  }

  predicate IsGpioWrite(e: Event)
  {
    e.Write? && (e.register == GPIOA || e.register == GPIOB)
  }

  lemma {:induction false} Halves(y: nat, b: nat)
    requires b < 2
    ensures (2 * y + b) / 2 == y && (2 * y + b) % 2 == b
  {
  }

  lemma {:induction false} AllOnesBit(n: nat, i: nat)
    requires i < n
    ensures Bit(Pow2(n) - 1, i) == 1
  {
    Halves(Pow2(n - 1) - 1, 1);
    if i > 0 {
      AllOnesBit(n - 1, i - 1);
    }
  }

  /** 2^n - 1 - 2^k has every bit below n set except bit k. */
  lemma {:induction false} ClearedBit(n: nat, k: nat, i: nat)
    requires k < n && i < n
    ensures Pow2(k) < Pow2(n)
    ensures Bit(Pow2(n) - 1 - Pow2(k), i) == if i == k then 0 else 1
  {
    Pow2Below(k, n);
    var x := Pow2(n) - 1 - Pow2(k);
    if k == 0 {
      assert x == 2 * (Pow2(n - 1) - 1) + 0;
      Halves(Pow2(n - 1) - 1, 0);
      if i > 0 {
        AllOnesBit(n - 1, i - 1);
      }
    } else {
      Pow2Below(k - 1, n - 1);
      assert x == 2 * (Pow2(n - 1) - 1 - Pow2(k - 1)) + 1;
      Halves(Pow2(n - 1) - 1 - Pow2(k - 1), 1);
      if i > 0 {
        ClearedBit(n - 1, k - 1, i - 1);
      }
    }
  }

  lemma {:induction false} ClearedByte(k: nat)
    requires k < 8
    ensures 0xff - Pow2(k) >= 0
    ensures ValueToArray(0xff - Pow2(k)) == OneHot(k, 8)
  {
    assert Pow2(8) == 0x100;
    Pow2Below(k, 8);
    forall i | 0 <= i < 8
      ensures ValueToArray(0xff - Pow2(k))[i] == OneHot(k, 8)[i]
    {
      ClearedBit(8, k, i);
    }
  }

  lemma {:induction false} FullByte()
    ensures ValueToArray(0xff) == seq(8, i requires 0 <= i < 8 => false)
  {
    assert Pow2(8) == 0x100;
    forall i | 0 <= i < 8
      ensures ValueToArray(0xff)[i] == false
    {
      AllOnesBit(8, i);
    }
  }

  /** Pins 0-15 are accepted and any other pin is an InvalidPin error; the masks
      of an accepted pin have exactly one cleared bit among the 16, the pin's
      own: read back as pin levels they single out that pin alone. */
  lemma {:induction false} MasksSelectPin(pin: int)
    ensures Masks(pin).Success? <==> 0 <= pin < 16
    ensures Masks(pin).Failure? ==> Masks(pin).error == InvalidPin(pin)
    ensures 0 <= pin < 16 ==> BanksToVector(Masks(pin).value) == OneHot(pin, 16)
  {
    if 0 <= pin < 8 {
      ClearedByte(pin);
      FullByte();
    } else if 8 <= pin < 16 {
      ClearedByte(pin - 8);
      FullByte();
    }
  }

  /** A probe pulses reset exactly once, before anything else. */
  lemma {:induction false} ProbeResetFirst(unit: int, m: BankPair)
    ensures |ProbeEvents(unit, m)| == 11
    ensures ProbeEvents(unit, m)[0] == Reset
    ensures forall i :: 0 < i < 11 ==> ProbeEvents(unit, m)[i] != Reset
    ensures multiset(ProbeEvents(unit, m))[Reset] == 1
  {
    var e := ProbeEvents(unit, m);
    assert e == [Reset] + e[1..];
    assert Reset !in e[1..];
  }

  /** Every pull-up write of a probe comes before every direction write, and all
      writes come before the readback. */
  lemma {:induction false} ProbeOrder(unit: int, m: BankPair)
    ensures forall i, j :: 0 <= i < j < |ProbeEvents(unit, m)| ==>
      !(IsDirectionWrite(ProbeEvents(unit, m)[i]) && IsPullupWrite(ProbeEvents(unit, m)[j]))
    ensures forall i, j :: 0 <= i < j < |ProbeEvents(unit, m)| ==>
      !(ProbeEvents(unit, m)[i].Read? && ProbeEvents(unit, m)[j].Write?)
  {
    var e := ProbeEvents(unit, m);
    assert |e| == 11;
    assert forall i :: 0 <= i < 5 ==> !IsDirectionWrite(e[i]);
    assert forall j :: 5 <= j < 11 ==> !IsPullupWrite(e[j]);
    assert forall i :: 0 <= i < 9 ==> !e[i].Read?;
    assert forall j :: 9 <= j < 11 ==> !e[j].Write?;
  }

  /** A probe never writes the GPIO registers. */
  lemma {:induction false} ProbeNoGpioWrite(unit: int, m: BankPair)
    ensures forall i :: 0 <= i < |ProbeEvents(unit, m)| ==> !IsGpioWrite(ProbeEvents(unit, m)[i])
  {
  }

  lemma {:induction false} ReplayAppend(regs: map<int, Byte>, device: int, a: seq<Event>, b: seq<Event>)
    ensures Replay(regs, device, a + b) == Replay(Replay(regs, device, a), device, b)
    decreases |b|
  {
    if b == [] {
      assert a + b == a;
    } else {
      var b' := b[..|b| - 1];
      assert (a + b)[..|a + b| - 1] == a + b';
      ReplayAppend(regs, device, a, b');
    }
  }

  lemma {:induction false} ReplayOne(regs: map<int, Byte>, device: int, e: Event)
    ensures Replay(regs, device, [e]) == match e
      case Write(d, r, v) => if d == device then regs[r := v] else regs
      case _ => regs
  {
    assert [e][..0] == [];
  }

  lemma {:induction false} ReplayTwo(regs: map<int, Byte>, device: int, x: Event, y: Event)
    ensures Replay(regs, device, [x, y]) == Replay(Replay(regs, device, [x]), device, [y])
  {
    assert [x, y] == [x] + [y];
    ReplayAppend(regs, device, [x], [y]);
  }

  /** Replaying one probe on one of the two devices. */
  lemma {:induction false} ProbeReplay(regs: map<int, Byte>, device: int, unit: int, m: BankPair)
    requires device == ActiveDevice(unit) || device == PassiveDevice(unit)
    ensures Replay(regs, device, ProbeEvents(unit, m))
         == Configured(regs, if device == ActiveDevice(unit) then m else AllInputs)
  {
    var a, p := ActiveDevice(unit), PassiveDevice(unit);
    var p0 := [Reset];
    var p1 := [Write(a, GPPUA, m.low), Write(a, GPPUB, m.high)];
    var p2 := [Write(p, GPPUA, 0xff), Write(p, GPPUB, 0xff)];
    var p3 := [Write(a, IODIRA, m.low), Write(a, IODIRB, m.high)];
    var p4 := [Write(p, IODIRA, 0xff), Write(p, IODIRB, 0xff)];
    var p5 := [Read(WEST, GPIOA, 2), Read(EAST, GPIOA, 2)];
    assert ProbeEvents(unit, m) == p0 + p1 + p2 + p3 + p4 + p5;
    ReplayAppend(regs, device, p0 + p1 + p2 + p3 + p4, p5);
    ReplayAppend(regs, device, p0 + p1 + p2 + p3, p4);
    ReplayAppend(regs, device, p0 + p1 + p2, p3);
    ReplayAppend(regs, device, p0 + p1, p2);
    ReplayAppend(regs, device, p0, p1);
    ReplayOne(regs, device, Reset);
    var r1 := Replay(regs, device, p0 + p1);
    var r2 := Replay(regs, device, p0 + p1 + p2);
    var r3 := Replay(regs, device, p0 + p1 + p2 + p3);
    var r4 := Replay(regs, device, p0 + p1 + p2 + p3 + p4);
    ReplayTwo(regs, device, p1[0], p1[1]);
    ReplayOne(regs, device, p1[0]);
    ReplayOne(Replay(regs, device, [p1[0]]), device, p1[1]);
    ReplayTwo(r1, device, p2[0], p2[1]);
    ReplayOne(r1, device, p2[0]);
    ReplayOne(Replay(r1, device, [p2[0]]), device, p2[1]);
    ReplayTwo(r2, device, p3[0], p3[1]);
    ReplayOne(r2, device, p3[0]);
    ReplayOne(Replay(r2, device, [p3[0]]), device, p3[1]);
    ReplayTwo(r3, device, p4[0], p4[1]);
    ReplayOne(r3, device, p4[0]);
    ReplayOne(Replay(r3, device, [p4[0]]), device, p4[1]);
    ReplayTwo(r4, device, p5[0], p5[1]);
    ReplayOne(r4, device, p5[0]);
    ReplayOne(r4, device, p5[1]);
  }

  /** Replaying a probe's bus traffic leaves the active device configured with the
      masks and the passive device with all pull-ups on and all pins inputs. */
  lemma {:induction false} ProbeConfigures(regs: map<int, Byte>, unit: int, m: BankPair)
    ensures Replay(regs, ActiveDevice(unit), ProbeEvents(unit, m)) == Configured(regs, m)
    ensures Replay(regs, PassiveDevice(unit), ProbeEvents(unit, m)) == Configured(regs, AllInputs)
  {
    ProbeReplay(regs, ActiveDevice(unit), unit, m);
    ProbeReplay(regs, PassiveDevice(unit), unit, m);
  }

  lemma {:induction false} ProbeOfShape(j: nat)
    requires j < 32
    ensures |ProbeOf(j)| == 11 && multiset(ProbeOf(j))[Reset] == 1
  {
    if j < 16 {
      ProbeResetFirst(0, PinMasks(j));
    } else {
      ProbeResetFirst(1, PinMasks(j - 16));
    }
  }

  lemma {:induction false} ScanSnoc(k: nat)
    requires 0 < k <= 32
    ensures ScanEvents(k) == ScanEvents(k - 1) + ProbeOf(k - 1)
  {
    assert Probes(k)[..k - 1] == Probes(k - 1);
  }

  lemma {:induction false} ScanCount(k: nat)
    requires k <= 32
    ensures |ScanEvents(k)| == 11 * k
    ensures multiset(ScanEvents(k))[Reset] == k
  {
    forall i | 0 <= i < k
      ensures |Probes(k)[i]| == 11 && multiset(Probes(k)[i])[Reset] == 1
    {
      ProbeOfShape(i);
    }
    FlattenBlocks(Probes(k), 11);
    FlattenCount(Probes(k), Reset);
  }

  lemma {:induction false} ScanLayout(k: nat)
    requires k <= 32
    ensures |ScanEvents(k)| == 11 * k
    ensures forall j {:trigger ProbeOf(j)} :: 0 <= j < k ==> ScanEvents(k)[11 * j..11 * j + 11] == ProbeOf(j)
  {
    forall i | 0 <= i < k
      ensures |Probes(k)[i]| == 11
    {
      ProbeOfShape(i);
    }
    FlattenBlocks(Probes(k), 11);
    forall j | 0 <= j < k
      ensures ScanEvents(k)[11 * j..11 * j + 11] == ProbeOf(j)
    {
      assert Probes(k)[j] == ProbeOf(j);
    }
  }

  /** A scan is 32 probes, unit 0 pins 0-15 then unit 1 pins 0-15, each with its
      own reset pulse. */
  lemma {:induction false} ScanOrder()
    ensures |ScanEvents(32)| == 352
    ensures forall u, p :: 0 <= u < 2 && 0 <= p < 16 ==>
      ScanEvents(32)[11 * (16 * u + p)..11 * (16 * u + p) + 11] == ProbeEvents(u, PinMasks(p))
    ensures multiset(ScanEvents(32))[Reset] == 32
  {
    ScanCount(32);
    forall u, p | 0 <= u < 2 && 0 <= p < 16
      ensures ScanEvents(32)[11 * (16 * u + p)..11 * (16 * u + p) + 11] == ProbeEvents(u, PinMasks(p))
    {
      ScanProbe(u, p);
    }
  }

  lemma {:induction false} ScanProbe(u: nat, p: nat)
    requires u < 2 && p < 16
    ensures |ScanEvents(32)| == 352
    ensures ScanEvents(32)[11 * (16 * u + p)..11 * (16 * u + p) + 11] == ProbeEvents(u, PinMasks(p))
  {
    ScanLayout(32);
    ProbeAt(u, p);
  }

  lemma {:induction false} ProbeAt(u: nat, p: nat)
    requires u < 2 && p < 16
    ensures ProbeOf(16 * u + p) == ProbeEvents(u, PinMasks(p))
  {
  }

  lemma {:induction false} ScanStep(start: seq<Event>, u: nat, p: nat)
    requires u < 2 && p < 16
    ensures start + ScanEvents(16 * u + p + 1) == (start + ScanEvents(16 * u + p)) + ProbeEvents(u, PinMasks(p))
  {
    ScanSnoc(16 * u + p + 1);
    ProbeAt(u, p);
  }

  /** The reading the probe of pin p of unit u returns within a scan started on `start`. */
  function ScanReading(sense: (int, seq<Event>) -> BankPair, start: seq<Event>, u: nat, p: nat): Reading
    requires u < 2 && p < 16
  {
    ProbeReading(sense, start + ScanEvents(16 * u + p), u, PinMasks(p))
  }

  lemma {:induction false} RowStep(row: seq<Reading>, x: Reading, sense: (int, seq<Event>) -> BankPair, start: seq<Event>, unit: nat, pin: nat)
    requires unit < 2 && pin < 16 && |row| == pin
    requires forall p :: 0 <= p < pin ==> row[p] == ScanReading(sense, start, unit, p)
    requires x == ScanReading(sense, start, unit, pin)
    ensures forall p :: 0 <= p < pin + 1 ==> (row + [x])[p] == ScanReading(sense, start, unit, p)
  {
  }

  /** One probe of a unit's row: the journal advances by one probe and the
      reading is the scan's reading for that pin. */
  lemma {:induction false} ScanPinStep(sense: (int, seq<Event>) -> BankPair, start: seq<Event>, unit: nat, pin: nat,
                                       row: seq<Reading>, x: Reading, before: seq<Event>, after: seq<Event>)
    requires unit < 2 && pin < 16 && |row| == pin
    requires before == start + ScanEvents(16 * unit + pin)
    requires after == before + ProbeEvents(unit, PinMasks(pin))
    requires x == ProbeReading(sense, before, unit, PinMasks(pin))
    requires forall p :: 0 <= p < pin ==> row[p] == ScanReading(sense, start, unit, p)
    ensures after == start + ScanEvents(16 * unit + pin + 1)
    ensures forall p :: 0 <= p < pin + 1 ==> (row + [x])[p] == ScanReading(sense, start, unit, p)
  {
    ScanStep(start, unit, pin);
    RowStep(row, x, sense, start, unit, pin);
  }

  lemma {:induction false} ScanStepRows(result: ScanResult, row: seq<Reading>, sense: (int, seq<Event>) -> BankPair, start: seq<Event>, unit: nat)
    requires unit < 2 && |result| == unit && |row| == 16
    requires forall u :: 0 <= u < unit ==> |result[u]| == 16
    requires forall u, p :: 0 <= u < unit && 0 <= p < 16 ==> result[u][p] == ScanReading(sense, start, u, p)
    requires forall p :: 0 <= p < 16 ==> row[p] == ScanReading(sense, start, unit, p)
    ensures forall u :: 0 <= u < unit + 1 ==> |(result + [row])[u]| == 16
    ensures forall u, p :: 0 <= u < unit + 1 && 0 <= p < 16 ==> (result + [row])[u][p] == ScanReading(sense, start, u, p)
  {
    forall u, p | 0 <= u < unit + 1 && 0 <= p < 16
      ensures (result + [row])[u][p] == ScanReading(sense, start, u, p)
    {
      if u < unit {
        assert (result + [row])[u] == result[u];
      } else {
        assert (result + [row])[u] == row;
      }
    }
  }

  lemma {:induction false} ScanShape(result: ScanResult, sense: (int, seq<Event>) -> BankPair, start: seq<Event>)
    requires |result| == 2
    requires forall u :: 0 <= u < 2 ==> |result[u]| == 16
    requires forall u, p :: 0 <= u < 2 && 0 <= p < 16 ==> result[u][p] == ScanReading(sense, start, u, p)
    ensures WellShaped(result)
  {
    forall u, p | 0 <= u < 2 && 0 <= p < 16
      ensures |result[u][p].west| == 16 && |result[u][p].east| == 16
    {
      var configured := start + ScanEvents(16 * u + p) + ProbeWrites(u, PinMasks(p));
      BanksToVectorPins(sense(WEST, configured), 0);
      BanksToVectorPins(sense(EAST, configured + [Read(WEST, GPIOA, 2)]), 0);
    }
  }

  /** The tester: the west (0x20) and east (0x21) expanders on one bus with its resetter. */
  class WireConnectionChecker {
    const west: MCP23017
    const east: MCP23017
    const bus: Bus

    ghost predicate Valid()
    {
      west != east && west.bus == bus && east.bus == bus && west.address == WEST && east.address == EAST
    }

    constructor (bus: Bus)
      ensures Valid() && this.bus == bus
      ensures fresh(west) && fresh(east) && west.regs == map[] && east.regs == map[]
    {
      west := new MCP23017(WEST, bus);
      east := new MCP23017(EAST, bus);
      this.bus := bus;
    }

    method Reset()
      modifies bus
      ensures bus.log == old(bus.log) + [Event.Reset]
    {
      bus.PulseReset();
    }

    /** `get_value`: the 16 pin levels of one expander, true where a pin is low. */
    method GetValue(x: MCP23017) returns (v: Vector)
      requires x.bus == bus
      modifies bus
      ensures v == BanksToVector(bus.sense(x.address, old(bus.log)))
      ensures bus.log == old(bus.log) + [Event.Read(x.address, GPIOA, 2)]
    {
      var banks := x.Read();
      v := BanksToVector(banks);
    }

    /** The configuring half of `check`: pulse the resetter line, then set the
        active unit's pull-ups and directions to `m` and the passive unit's to
        all inputs with pull-ups. */
    method Configure(unit: int, m: BankPair)
      requires Valid()
      modifies west, east, bus
      ensures bus.log == old(bus.log) + ProbeWrites(unit, m)
      ensures unit == 0 ==> west.regs == Configured(old(west.regs), m) && east.regs == Configured(old(east.regs), AllInputs)
      ensures unit != 0 ==> east.regs == Configured(old(east.regs), m) && west.regs == Configured(old(west.regs), AllInputs)
    {
      var active, passive := west, east;
      if unit != 0 {
        active, passive := east, west;
      }
      Reset();
      active.SetPullup(Some(m.low), Some(m.high));
      passive.SetPullup(Some(0xff), Some(0xff));
      active.SetDirection(Some(m.low), Some(m.high));
      passive.SetDirection(Some(0xff), Some(0xff));
    }

    /** `check`: probe one pin of one unit. */
    method Check(unit: int, pin: int) returns (r: Result<Reading, Error>)
      requires Valid()
      modifies west, east, bus
      ensures Masks(pin).Failure? ==>
        && r == Failure(InvalidPin(pin))
        && bus.log == old(bus.log) && west.regs == old(west.regs) && east.regs == old(east.regs)
      ensures Masks(pin).Success? ==>
        && r == Success(ProbeReading(bus.sense, old(bus.log), unit, Masks(pin).value))
        && bus.log == old(bus.log) + ProbeEvents(unit, Masks(pin).value)
      ensures Masks(pin).Success? && unit == 0 ==>
        && west.regs == Configured(old(west.regs), Masks(pin).value)
        && east.regs == Configured(old(east.regs), AllInputs)
      ensures Masks(pin).Success? && unit != 0 ==>
        && east.regs == Configured(old(east.regs), Masks(pin).value)
        && west.regs == Configured(old(west.regs), AllInputs)
    {
      var masked := Masks(pin);
      if masked.Failure? {
        return Failure(masked.error);
      }
      var m := masked.value;
      Configure(unit, m);
      var w := GetValue(west);
      var e := GetValue(east);
      r := Success(Reading(w, e));
    }

    /** One unit's row of `get`: probe its pins 0-15 in order, the scan having
        started on the journal `start`. */
    method ScanUnit(unit: nat, ghost start: seq<Event>) returns (row: seq<Reading>)
      requires Valid() && unit < 2
      requires bus.log == start + ScanEvents(16 * unit)
      modifies west, east, bus
      ensures bus.log == start + ScanEvents(16 * unit + 16)
      ensures |row| == 16
      ensures forall p :: 0 <= p < 16 ==> row[p] == ScanReading(bus.sense, start, unit, p)
      ensures west.regs == Configured(old(west.regs), if unit == 0 then PinMasks(15) else AllInputs)
      ensures east.regs == Configured(old(east.regs), if unit == 0 then AllInputs else PinMasks(15))
    {
      row := [];
      var pin := 0;
      while pin < 16
        invariant 0 <= pin <= 16 && |row| == pin
        invariant bus.log == start + ScanEvents(16 * unit + pin)
        invariant forall p :: 0 <= p < pin ==> row[p] == ScanReading(bus.sense, start, unit, p)
        invariant west.regs == ScanConfigured(old(west.regs), unit == 0, pin)
        invariant east.regs == ScanConfigured(old(east.regs), unit != 0, pin)
      {
        ghost var before := bus.log;
        ghost var westBefore, eastBefore := west.regs, east.regs;
        var r := Check(unit, pin);
        ScanPinStep(bus.sense, start, unit, pin, row, r.value, before, bus.log);
        ScanConfiguredStep(old(west.regs), unit == 0, pin, westBefore, west.regs);
        ScanConfiguredStep(old(east.regs), unit != 0, pin, eastBefore, east.regs);
        row := row + [r.value];
        pin := pin + 1;
      }
    }

    /** `get`: probe every pin of unit 0, then every pin of unit 1. */
    method Get() returns (result: ScanResult)
      requires Valid()
      modifies west, east, bus
      ensures WellShaped(result)
      ensures bus.log == old(bus.log) + ScanEvents(32)
      ensures forall u, p :: 0 <= u < 2 && 0 <= p < 16 ==>
        result[u][p] == ScanReading(bus.sense, old(bus.log), u, p)
      ensures west.regs == Configured(old(west.regs), AllInputs)
      ensures east.regs == Configured(old(east.regs), PinMasks(15))
    {
      result := [];
      var unit := 0;
      while unit < 2
        invariant 0 <= unit <= 2 && |result| == unit
        invariant bus.log == old(bus.log) + ScanEvents(16 * unit)
        invariant forall u :: 0 <= u < unit ==> |result[u]| == 16
        invariant forall u, p :: 0 <= u < unit && 0 <= p < 16 ==> result[u][p] == ScanReading(bus.sense, old(bus.log), u, p)
        invariant unit == 0 ==> west.regs == old(west.regs) && east.regs == old(east.regs)
        invariant unit == 1 ==>
          west.regs == Configured(old(west.regs), PinMasks(15)) && east.regs == Configured(old(east.regs), AllInputs)
        invariant unit == 2 ==>
          west.regs == Configured(old(west.regs), AllInputs) && east.regs == Configured(old(east.regs), PinMasks(15))
      {
        if unit == 1 {
          ConfiguredTwice(old(west.regs), PinMasks(15), AllInputs);
          ConfiguredTwice(old(east.regs), AllInputs, PinMasks(15));
        }
        var row := ScanUnit(unit, old(bus.log));
        ScanStepRows(result, row, bus.sense, old(bus.log), unit);
        result := result + [row];
        unit := unit + 1;
      }
      ScanShape(result, bus.sense, old(bus.log));
    }
  }
}
