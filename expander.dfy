/**
 * The MCP23017 16-line I/O expander as the tester drives it.
 *
 * Both expanders sit on one I2C bus. The bus is modelled as a journal of
 * everything the tester does to the hardware, in order: reset pulses,
 * register writes and register reads. What a read returns is the live level
 * of the pins, which depends on the wiring under test; it is an oracle,
 * `sense`, that is given the device address and the journal so far.
 * Each expander keeps a register file: the value last written to each
 * register address (an address never written is absent from the map).
 */
module Expander {
  import opened Wrappers

  type Byte = x: int | 0 <= x < 0x100

  /** The two 8-bit banks of one expander: bank A is pins 0-7, bank B pins 8-15. */
  datatype BankPair = BankPair(low: Byte, high: Byte)

  // Register addresses (IOCON.BANK = 0 layout).
  const IODIRA: int := 0x00  // direction, bank A: 0 output, 1 input
  const IODIRB: int := 0x01
  const GPPUA: int := 0x0c   // pull-up enable, bank A: 0 disabled, 1 enabled
  const GPPUB: int := 0x0d
  const GPIOA: int := 0x12   // port value, bank A: 0 low, 1 high
  const GPIOB: int := 0x13

  datatype Event =
    | Reset
    | Write(device: int, register: int, value: Byte)
    | Read(device: int, register: int, count: nat)

  /** Register file after an optional write: `nil` writes nothing. */
  function Store(regs: map<int, Byte>, register: int, value: Option<Byte>): map<int, Byte>
  {
    match value
    case None => regs
    case Some(v) => regs[register := v]
  }

  /** The bus traffic of an optional write. */
  function StoreEvents(device: int, register: int, value: Option<Byte>): seq<Event>
  {
    match value
    case None => []
    case Some(v) => [Write(device, register, v)]
  }

  /** The register file of `device` after `events`: each write to it, in order. */
  function Replay(regs: map<int, Byte>, device: int, events: seq<Event>): map<int, Byte>
  {
    if events == [] then regs
    else
      var before := Replay(regs, device, events[..|events| - 1]);
      match events[|events| - 1]
      case Write(d, r, v) => if d == device then before[r := v] else before
      case _ => before
  }

  /** The shared I2C bus, with the reset line, as a journal of hardware events. */
  class Bus {
    var log: seq<Event>
    const sense: (int, seq<Event>) -> BankPair

    constructor (sense: (int, seq<Event>) -> BankPair)
      ensures log == [] && this.sense == sense
    {
      log := [];
      this.sense := sense;
    }

    /** One reset pulse of the tester's resetter. */
    method PulseReset()
      modifies this
      ensures log == old(log) + [Reset]
    {
      log := log + [Reset];
    }

    method WriteRegister(device: int, register: int, value: Byte)
      modifies this
      ensures log == old(log) + [Write(device, register, value)]
    {
      log := log + [Write(device, register, value)];
    }

    /** Reads two consecutive registers; the bytes are the live pin levels. */
    method ReadRegisters(device: int, register: int) returns (banks: BankPair)
      modifies this
      ensures banks == sense(device, old(log))
      ensures log == old(log) + [Read(device, register, 2)]
    {
      banks := sense(device, log);
      log := log + [Read(device, register, 2)];
    }
  }

  class MCP23017 {
    const address: int
    const bus: Bus
    var regs: map<int, Byte>

    constructor (address: int, bus: Bus)
      ensures this.address == address && this.bus == bus && regs == map[]
    {
      this.address := address;
      this.bus := bus;
      regs := map[];
    }

    /** `@i2c.write(@address, register, value) if value` */
    method WriteIf(register: int, value: Option<Byte>)
      modifies this, bus
      ensures regs == Store(old(regs), register, value)
      ensures bus.log == old(bus.log) + StoreEvents(address, register, value)
    {
      if value.Some? {
        bus.WriteRegister(address, register, value.value);
        regs := regs[register := value.value];
      }
    }

    /** Writes the given banks of one register pair, bank A first. */
    method WritePair(registerA: int, registerB: int, a: Option<Byte>, b: Option<Byte>)
      requires registerA != registerB
      modifies this, bus
      ensures regs == Store(Store(old(regs), registerA, a), registerB, b)
      ensures bus.log == old(bus.log) + StoreEvents(address, registerA, a) + StoreEvents(address, registerB, b)
      ensures forall r :: r != registerA && r != registerB ==>
        (r in regs <==> r in old(regs)) && (r in regs ==> regs[r] == old(regs)[r])
    {
      WriteIf(registerA, a);
      WriteIf(registerB, b);
    }

    method SetPullup(a: Option<Byte>, b: Option<Byte>)
      modifies this, bus
      ensures regs == Store(Store(old(regs), GPPUA, a), GPPUB, b)
      ensures bus.log == old(bus.log) + StoreEvents(address, GPPUA, a) + StoreEvents(address, GPPUB, b)
      ensures forall r :: r != GPPUA && r != GPPUB ==>
        (r in regs <==> r in old(regs)) && (r in regs ==> regs[r] == old(regs)[r])
    {
      WritePair(GPPUA, GPPUB, a, b);
    }

    method SetDirection(a: Option<Byte>, b: Option<Byte>)
      modifies this, bus
      ensures regs == Store(Store(old(regs), IODIRA, a), IODIRB, b)
      ensures bus.log == old(bus.log) + StoreEvents(address, IODIRA, a) + StoreEvents(address, IODIRB, b)
      ensures forall r :: r != IODIRA && r != IODIRB ==>
        (r in regs <==> r in old(regs)) && (r in regs ==> regs[r] == old(regs)[r])
    {
      WritePair(IODIRA, IODIRB, a, b);
    }

    method SetGpio(a: Option<Byte>, b: Option<Byte>)
      modifies this, bus
      ensures regs == Store(Store(old(regs), GPIOA, a), GPIOB, b)
      ensures bus.log == old(bus.log) + StoreEvents(address, GPIOA, a) + StoreEvents(address, GPIOB, b)
      ensures forall r :: r != GPIOA && r != GPIOB ==>
        (r in regs <==> r in old(regs)) && (r in regs ==> regs[r] == old(regs)[r])
    {
      WritePair(GPIOA, GPIOB, a, b);
    }

    /** The live levels of both banks; the register file is not consulted. */
    method Read() returns (banks: BankPair)
      modifies bus
      ensures banks == bus.sense(address, old(bus.log))
      ensures bus.log == old(bus.log) + [Event.Read(address, GPIOA, 2)]
    {
      banks := bus.ReadRegisters(address, GPIOA);
    }
  }

  /** Writing a register pair through the bus leaves the register file equal to
      replaying the writes it put on the bus: the two views agree. */
  lemma {:induction false} StoreMatchesReplay(regs: map<int, Byte>, device: int, registerA: int, registerB: int,
                                              a: Option<Byte>, b: Option<Byte>, before: seq<Event>)
    ensures Replay(regs, device, before + StoreEvents(device, registerA, a) + StoreEvents(device, registerB, b))
         == Store(Store(Replay(regs, device, before), registerA, a), registerB, b)
  {
    var first := before + StoreEvents(device, registerA, a);
    if a.Some? {
      assert first[..|first| - 1] == before;
    } else {
      assert first == before;
    }
    if b.Some? {
      var all := first + StoreEvents(device, registerB, b);
      assert all[..|all| - 1] == first;
    } else {
      assert first + StoreEvents(device, registerB, b) == first;
    }
  }
}
