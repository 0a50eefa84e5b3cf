# Wire connection tester, modelled in Dafny

The tester checks a wiring harness with two MCP23017 16-line I/O expanders on
one I2C bus: the west unit at address 0x20 and the east unit at 0x21. Each of
the 32 lines is probed in turn. The probed line is driven low and every other
line is left as a pulled-up input. The tester then reads which lines of both
units went low. The 32 readings make a scan result. The result is encoded as a
257-character signature, which is looked up in a catalog of known harnesses.
The names of the matching harnesses are printed; when none matches, the
result is printed as a text diagram, followed by the signature.

The model follows `pi/wire_connection_tester.rb`:

- `wrappers.dfy` (`Wrappers`): `Option` and `Result`.
- `expander.dfy` (`Expander`): the I2C bus and reset line as a `Bus` class.
  - The bus keeps a journal of every reset pulse, register write and register read.
  - What a read returns is an oracle, `sense`, because it depends on the harness under test.
  - The `MCP23017` class keeps a register file (address to last byte written).
  - It has `set_pullup`, `set_direction`, `set_gpio` and `read`.
  - `Replay` rebuilds a device's register file from the journal.
- `readings.dfy` (`Readings`): `value_to_array`, `get_value`, and the
  reverse-then-shift fold that turns a 16-line vector into a code.
- `hexformat.dfy` (`HexFormat`): `"%04x"` and `"%X"`, and reading hex back.
- `signature.dfy` (`SignatureCodec`): `result_to_signature`, with a decoder
  that proves it lossless.
- `diagram.dfy` (`Diagram`): `result_to_matrix` as a method with nested loops,
  specified by a line-by-line function.
- `checker.dfy` (`Checker`): the pin masks, `check` and `get` in the class
  `WireConnectionChecker`, and the exact journal of one probe and of a whole scan.
- `catalog.dfy` (`Catalog`): `WireConnectionSignatureList` as `SignatureList`.
  - `load` is a loop over the lines `gets` returns; `chomp!` is modelled.
  - The catalog pattern `\A([0-9a-f]+\s[0-9a-f]+)\s+(.+)` (case-insensitive) is written out as the match the backtracking engine reports.
  - `search` is a loop.

Three facts about the code shape the model:

- The fold reverses the vector before shifting, so vector index i weighs 2^i
  and index 0 is the least significant bit.
- Each pin contributes two codes, one per destination unit. Each half of the
  signature is therefore 32 codes, 128 hex digits, and the whole signature is
  257 characters.
- `load` stores the matched signature exactly as written in the file, with no
  case normalisation. `search` compares strings exactly.

## Model

| member | source | states |
|---|---|---|
| Expander.MCP23017.constructor | pi/wire_connection_tester.rb:82-86 | a new expander has the given address on the given bus and no register written |
| Expander.MCP23017.WriteIf | pi/wire_connection_tester.rb:90-91 | an optional write: `nil` writes nothing; any byte, 0 included, is stored and journalled once |
| Expander.MCP23017.WritePair | pi/wire_connection_tester.rb:88-92 | bank A's register then bank B's are written, each only when given; every other register is unchanged |
| Expander.MCP23017.SetPullup | pi/wire_connection_tester.rb:88-92 | writes GPPUA (0x0c) then GPPUB (0x0d) for the banks given; the journal gains exactly those writes; no other register changes |
| Expander.MCP23017.SetDirection | pi/wire_connection_tester.rb:94-98 | writes IODIRA (0x00) then IODIRB (0x01) for the banks given; the journal gains exactly those writes; no other register changes |
| Expander.MCP23017.SetGpio | pi/wire_connection_tester.rb:100-104 | writes GPIOA (0x12) then GPIOB (0x13) for the banks given; the journal gains exactly those writes; no other register changes |
| Expander.MCP23017.Read | pi/wire_connection_tester.rb:106-108 | one two-byte read from GPIOA; returns the live pin levels of both banks as the wiring gives them at that point of the journal |
| Expander.Bus.constructor | pi/wire_connection_tester.rb:85 | the bus starts with an empty journal and the given wiring oracle |
| Expander.Bus.PulseReset | pi/wire_connection_tester.rb:129-131 | a reset pulse is journalled once |
| Expander.Bus.WriteRegister | pi/wire_connection_tester.rb:90 | one register write is journalled with device, register and byte |
| Expander.Bus.ReadRegisters | pi/wire_connection_tester.rb:107 | a read returns what the wiring gives for the journal so far and is journalled |
| Expander.StoreMatchesReplay | pi/wire_connection_tester.rb:88-104 | a setter's effect on the register file equals replaying the writes it journals: the register view and the journal view agree |
| Readings.ValueToArray | pi/wire_connection_tester.rb:133-135 | `value_to_array` as a function; `Readings.ValueToArrayWeight` states its meaning: 8 elements, element i true exactly when bit i of the byte is 0 |
| Readings.ValueToArrayWeight | pi/wire_connection_tester.rb:133-135 | `value_to_array(v)` is 8 elements whose weighted sum is 0xff - v: element i is true exactly when bit i of v is 0 |
| Readings.BanksToVector | pi/wire_connection_tester.rb:137-139 | `get_value` after the read, as a function; `Readings.BanksToVectorPins` and `Readings.DecodeThenFold` state its meaning: 16 elements, pin i low exactly when element i is true |
| Readings.BanksToVectorPins | pi/wire_connection_tester.rb:137-139 | `get_value` is 16 elements; element i is true exactly when pin i (bank A for 0-7, bank B for 8-15) reads low |
| Readings.Code | pi/wire_connection_tester.rb:193-196 | the reverse-then-shift-add fold as a function; `Readings.CodeIsWeight`, `Readings.CodeBit` and `Readings.UnpackCode` state its meaning: element i weighs 2^i and the fold loses nothing |
| Readings.CodeIsWeight | pi/wire_connection_tester.rb:193-196 | the reverse-then-shift-add fold equals the sum of 2^i over the true elements: index 0 is the least significant bit |
| Readings.CodeBit | pi/wire_connection_tester.rb:193-196 | bit i of a vector's code is 1 exactly when element i of the vector is true |
| Readings.UnpackCode | pi/wire_connection_tester.rb:193-196 | unpacking a code into as many bits as the vector had gives the vector back: the fold loses nothing |
| Readings.CodeBound | pi/wire_connection_tester.rb:193-196 | a code of an n-line vector is below 2^n; a 16-line code is below 0x10000 |
| Readings.OneHotCode | pi/wire_connection_tester.rb:193-196 | a vector with only line k true folds to 2^k |
| Readings.DecodeThenFold | pi/wire_connection_tester.rb:133-139 | folding `get_value` of banks (a, b) gives 0xffff - a - 256 b |
| HexFormat.Format04 | pi/wire_connection_tester.rb:199 | `"%04x"` as a function; `HexFormat.Format04RoundTrip` and `HexFormat.Format04Injective` state its meaning: 4 lower-case digits below 0x10000 that read back as the number |
| HexFormat.Format04RoundTrip | pi/wire_connection_tester.rb:199 | `"%04x"` of a code below 0x10000 is exactly 4 lower-case hex digits that read back as the code |
| HexFormat.Format04Injective | pi/wire_connection_tester.rb:199 | two codes below 0x10000 with the same `"%04x"` text are equal |
| HexFormat.FormatUpper | pi/wire_connection_tester.rb:179 | `"%X"` as a function; `HexFormat.DigitsRoundTrip` states its meaning: upper-case hex digits that read back as the number |
| HexFormat.DigitsRoundTrip | pi/wire_connection_tester.rb:179 | the digits are at least one, all from '0'-'9' and 'A'-'F' for `"%X"` (upper case) or from '0'-'9' and 'a'-'f' for lower case, and read back as the number |
| SignatureCodec.UnitCodeListAt | pi/wire_connection_tester.rb:190-198 | a unit's flattened code list has two codes per source pin, the west destination's code then the east one's |
| SignatureCodec.UnitCodesLayout | pi/wire_connection_tester.rb:190-199 | a unit's half has 8 lower-case hex digits per pin, with the code of pin p's destination d at offset 8p + 4d |
| SignatureCodec.ResultToSignature | pi/wire_connection_tester.rb:189-201 | `result_to_signature` as a function; `SignatureCodec.SignatureLayout`, `SignatureCodec.SignatureRoundTrip` and `SignatureCodec.SignatureInjective` state its layout and that it is lossless |
| SignatureCodec.SignatureLayout | pi/wire_connection_tester.rb:189-201 | a scan's signature has 257 characters: two 128-digit lower-case hex halves around one space, the code of (u, p, d) at offset 129u + 8p + 4d |
| SignatureCodec.DecodeCode | pi/wire_connection_tester.rb:193-199 | a printed 16-line code unpacks to its vector |
| SignatureCodec.DecodeUnitCodes | pi/wire_connection_tester.rb:190-199 | decoding a unit's half gives back that unit's readings |
| SignatureCodec.SignatureRoundTrip | pi/wire_connection_tester.rb:189-201 | decoding a scan's signature gives back the scan result |
| SignatureCodec.SignatureInjective | pi/wire_connection_tester.rb:189-201 | distinct scan results have distinct signatures |
| SignatureCodec.SingleWireCode | pi/wire_connection_tester.rb:191-199 | a pin wired to line k of one destination, and nothing else there, shows `"%04x"` of 2^k at its offset |
| Diagram.ResultToMatrix | pi/wire_connection_tester.rb:171-187 | the text built by appending is the header line, then per unit each row and a blank line, each followed by a line break |
| Diagram.DiagramShape | pi/wire_connection_tester.rb:172-186 | the diagram has 35 lines: the header, row i of unit u at line 1 + 17u + i, blank lines at 17 and 34 |
| Diagram.DiagramBreaks | pi/wire_connection_tester.rb:171-187 | the diagram text `ResultToMatrix` builds contains exactly 35 line breaks |
| Diagram.BodyLinesShape | pi/wire_connection_tester.rb:174-185 | each unit gives 16 rows then one blank line |
| Diagram.HeaderNoBreak | pi/wire_connection_tester.rb:173 | the header line is 69 characters with no line break inside |
| Diagram.Row | pi/wire_connection_tester.rb:177-182 | one row of the diagram as a function; `Diagram.RowLayout`, `Diagram.RowCells` and `Diagram.RowGlyphs` state its layout and which marks it shows |
| Diagram.RowLayout | pi/wire_connection_tester.rb:178-182 | a row is the pin's upper-case hex digit, two spaces, 32 west characters, two spaces, 32 east characters: 69 characters, as long as the header |
| Diagram.RowCells | pi/wire_connection_tester.rb:177-182 | cell j of a row sits at 3 + 2j (west) and 37 + 2j (east) and is two spaces for a high line or the row's mark for a low line |
| Diagram.CellsLayout | pi/wire_connection_tester.rb:180-181 | the cells of a vector are two characters per line, cell j at offset 2j |
| Diagram.CellsGlyphs | pi/wire_connection_tester.rb:180-181 | the cells of a vector show the glyph once per true line and no other non-space character |
| Diagram.RowGlyphs | pi/wire_connection_tester.rb:177-182 | a row with exactly one low line across both units shows one '-' and no '*'; any other row shows no '-' and one '*' per low line; an all-high row shows neither |
| Checker.Masks | pi/wire_connection_tester.rb:142-150 | the pin masks as a function; `Checker.MasksSelectPin` states which pins are accepted and which bit is cleared |
| Checker.MasksSelectPin | pi/wire_connection_tester.rb:142-150 | pins 0-15 are accepted and any other pin is an InvalidPin error; the masks of a pin have exactly one of 16 bits cleared, the pin's own |
| Checker.ProbeEvents | pi/wire_connection_tester.rb:152-160 | the bus traffic of one probe as a function; `Checker.ProbeResetFirst`, `Checker.ProbeOrder`, `Checker.ProbeNoGpioWrite` and `Checker.ProbeConfigures` state its order and effect |
| Checker.ProbeResetFirst | pi/wire_connection_tester.rb:152-160 | a probe is 11 bus events with exactly one reset, the first one |
| Checker.ProbeOrder | pi/wire_connection_tester.rb:154-160 | in a probe every pull-up write precedes every direction write, and every write precedes the readback |
| Checker.ProbeNoGpioWrite | pi/wire_connection_tester.rb:152-160 | a probe never writes GPIOA or GPIOB |
| Checker.ProbeReplay | pi/wire_connection_tester.rb:152-158 | replaying a probe's journal on the active or on the passive device gives that device's configured register file |
| Checker.ProbeConfigures | pi/wire_connection_tester.rb:152-158 | after a probe's journal the active device's pull-ups and directions hold the masks and the passive device's hold 0xff |
| Checker.ScanLayout | pi/wire_connection_tester.rb:163-169 | the journal of the first k probes of a scan is 11k events with probe j at offset 11j |
| Checker.ScanCount | pi/wire_connection_tester.rb:163-169 | the first k probes of a scan hold 11k events and exactly k resets |
| Checker.ScanOrder | pi/wire_connection_tester.rb:163-169 | a scan is 352 events in which 32 probes run unit 0 pins 0-15 then unit 1 pins 0-15, with 32 resets |
| Checker.WireConnectionChecker.constructor | pi/wire_connection_tester.rb:122-127 | the tester owns two distinct expanders at 0x20 (west) and 0x21 (east) on one bus, with no register written yet |
| Checker.WireConnectionChecker.Reset | pi/wire_connection_tester.rb:129-131 | one reset pulse is journalled |
| Checker.WireConnectionChecker.GetValue | pi/wire_connection_tester.rb:137-139 | the 16 levels of one expander from one two-byte GPIO read, true where a pin reads low |
| Checker.WireConnectionChecker.Configure | pi/wire_connection_tester.rb:152-158 | the journal gains a reset and then exactly the probe's eight register writes; unit 0 makes west active and any other unit east; the active unit's pull-ups and directions hold the masks and the passive unit's hold 0xff |
| Checker.WireConnectionChecker.Check | pi/wire_connection_tester.rb:141-161 | an invalid pin fails with no reset, write or read; otherwise the journal gains exactly the probe's events, unit 0 makes west active and any other unit east, the active registers hold the masks and the passive ones 0xff, and the reading is west's then east's levels |
| Checker.WireConnectionChecker.ScanUnit | pi/wire_connection_tester.rb:165-167 | probing pins 0-15 of one unit in order yields 16 readings, each the probe of that pin at its place in the scan; afterwards the unit's pull-ups and directions hold pin 15's masks and the other unit's hold 0xff |
| Checker.WireConnectionChecker.Get | pi/wire_connection_tester.rb:163-169 | a scan is well shaped (2 x 16 readings of 16 lines each); it journals the 32 probes in order; result[u][p] is what check(u, p) returns at that point; afterwards west's pull-ups and directions hold 0xff and east's hold pin 15's masks |
| Catalog.Chomp | pi/wire_connection_tester.rb:217 | `chomp!` removes only a line break: what it drops is "", "\n", "\r" or "\r\n" at the end; it drops "\r\n" whole, and drops something whenever the line ends in "\n" or "\r"; what is left has no line break |
| Catalog.HexRunEnd | pi/wire_connection_tester.rb:218 | a greedy `[0-9a-f]+` (either case) stops just before the first character that is not a hex digit |
| Catalog.SpaceRunEnd | pi/wire_connection_tester.rb:218 | a greedy `\s+` stops just before the first character that is not whitespace |
| Catalog.SplitRuns | pi/wire_connection_tester.rb:218 | in any way the pattern can match, the two hex runs are the maximal ones and the whitespace run is no longer than the maximal one |
| Catalog.HexRunCovers | pi/wire_connection_tester.rb:218 | a greedy hex run reaches at least as far as any run of hex digits from the same start |
| Catalog.ParseLine | pi/wire_connection_tester.rb:218-219 | the catalog pattern on one line, as a function; `Catalog.ParseLineMatches` states that it accepts exactly the lines the pattern matches and which groups it keeps |
| Catalog.ParseLineMatches | pi/wire_connection_tester.rb:218-219 | a line is accepted exactly when the pattern can match it; the signature is the same in every match, and the stored name is that of a match leaving no shorter name |
| Catalog.ParseAll | pi/wire_connection_tester.rb:213-226 | `load` over a list of lines, as a function; `Catalog.ParseAllFromLines`, `Catalog.ParseAllKeepsLines` and `Catalog.ParseAllAppend` state that it keeps the accepted lines, in order, and nothing else |
| Catalog.ParseAllFromLines | pi/wire_connection_tester.rb:213-226 | every loaded entry comes from one line of the file; there are no more entries than lines |
| Catalog.ParseAllKeepsLines | pi/wire_connection_tester.rb:213-226 | every accepted line's entry is loaded |
| Catalog.ParseAllAppend | pi/wire_connection_tester.rb:213-226 | loading is line by line: the entries of two files one after the other are the entries of each, in order |
| Catalog.Lookup | pi/wire_connection_tester.rb:228-234 | `search` as a function; `Catalog.LookupMembership` and `Catalog.LookupAppend` state which names it finds and in what order |
| Catalog.LookupMembership | pi/wire_connection_tester.rb:228-234 | a name is found exactly when an entry pairs it with the target signature; there are no more names than entries |
| Catalog.LookupAppend | pi/wire_connection_tester.rb:228-234 | searching a catalog in two parts gives the first part's names then the second's, so duplicates and file order are kept |
| Catalog.RecordedLine | pi/wire_connection_tester.rb:218-219 | a scan's signature followed by a space and a name is accepted as exactly that signature and that name |
| Catalog.RecordedLookup | pi/wire_connection_tester.rb:213-234 | a catalog holding a scan's recorded line finds that line's name, once, for the scan's signature |
| Catalog.SignatureList.constructor | pi/wire_connection_tester.rb:208-211 | a new catalog has the given path and no entries |
| Catalog.SignatureList.Load | pi/wire_connection_tester.rb:213-226 | loading discards what was loaded before and keeps the entry of every accepted line, in file order; loading the same lines twice gives the same data |
| Catalog.SignatureList.Search | pi/wire_connection_tester.rb:228-234 | the names of the entries whose signature equals the target exactly, in catalog order with duplicates; empty when none; the catalog is unchanged |

## Left out

- `GPIOResetter` and `EasyI2CResetter` (the sysfs GPIO line, the I2C resetter's flags and its polling loop) are hardware I/O with timing. A reset is one abstract journal event.
- The I2C transport (`I2C.create`, the device path) is left out. Bus traffic is journalled, and pin levels come from the oracle `sense` given the journal. They are not derived from the registers, since they depend on the harness. The modelled bus never fails; in Ruby a failing I2C transfer raises out of `check` or `get` in the middle of a scan (pi/wire_connection_tester.rb:90, 107).
- `MCP23017#x`, the register dump for debugging, is left out.
- `sleep 0.010` in `check` is real-time waiting with no logical content.
- Opening the catalog file is left out. `Load` is given the lines `gets` returns, each with at most a final line break.
- The command-line driver (option parsing, printing, the loop mode) is orchestration I/O.
- The wiring oracle is one fixed function for the life of the bus. A harness that changes during a scan is not modelled.
- `Checker.WireConnectionChecker.Check`: the pin is an integer. In Ruby a Float or Rational pin inside 0..7 or inside 8..15 passes the `case` range test, and `<<` truncates it with `to_int`, so `check(0, 3.5)` probes pin 3. A pin strictly between 7 and 8, such as 7.5, matches neither range and raises ArgumentError like any other invalid pin. That conversion is not modelled.
- The reset in `check` goes through whatever resetter the tester was given. The case where none was given is not modelled; in Ruby that raises a NoMethodError.
- `Catalog.ParseLine`: only the one catalog pattern is modelled, not Ruby's regex engine. Lines are Unicode code points, and `\s` is its six ASCII characters.
- `Catalog.RecordedLookup`: a recorded name must not end in '\r', because `chomp!` would remove it together with the line break.
