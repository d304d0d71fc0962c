/** onewire.c: the family dispatch of `onewire_measure` and the command sequences of
    the DS1820/DS18B20 and DS2438 readouts it dispatches to.  The file repeats the
    CRC and byte transfers of ds18b20.c word for word; those are the ones in the
    OneWireBus and Crc modules.

    Each operation is specified as a function of the line before it: a `Line` holds
    the slots generated so far and the levels the slaves will still show, so a
    sequence of bus operations is a composition of functions on lines. */
module OneWire {
  import opened OneWireBus
  import opened Crc

  const SkipRomCommand: bv8 := 0xCC
  const ReadRomCommand: bv8 := 0x33
  const ConvertTCommand: bv8 := 0x44
  const ConvertVCommand: bv8 := 0xB4
  const RecallPageCommand: bv8 := 0xB8
  const ReadScratchPadCommand: bv8 := 0xBE
  const WriteScratchPadCommand: bv8 := 0x4E

  /** DS2438 configuration byte values: the A/D input is VAD, or VDD (AD bit set). */
  const SelectVad: bv8 := 0x00
  const SelectVdd: bv8 := 0x08

  /** Family codes `onewire_measure` recognises. */
  const FamilyDs1820: bv8 := 0x10
  const FamilyDs2438: bv8 := 0x26
  const FamilyDs18b20: bv8 := 0x28

  /** The settling wait of `ds2438_measure`. */
  const SettleMs: nat := 20
  /** Bytes in a scratchpad page: eight of data, then their CRC. */
  const PadLength: nat := 9
  /** Script samples one scratchpad read consumes. */
  const PadSamples: nat := 72

  // ---------------------------------------------------------------------------
  // The line as a value

  /** What has happened on the line, and what the slaves will show next. */
  datatype Line = Line(trace: seq<Event>, script: seq<bool>)

  ghost function LineOf(bus: Bus): Line
    reads bus
  {
    Line(bus.trace, bus.script)
  }

  /** Whether a reset on this line sees a presence pulse. */
  predicate Present(l: Line) {
    !Level(l.script, 0)
  }

  function AfterReset(l: Line): Line {
    Line(l.trace + [Reset(Present(l))], Drop(l.script, 1))
  }

  function AfterWrites(l: Line, bytes: seq<bv8>): Line {
    Line(l.trace + Writes(bytes), l.script)
  }

  function AfterWait(l: Line, ms: nat): Line {
    Line(l.trace + [Wait(ms)], l.script)
  }

  /** The byte the next eight read slots assemble. */
  function NextByte(l: Line): bv8 {
    ByteFrom(l.script)
  }

  function AfterByte(l: Line): Line {
    Line(l.trace + ReadEvents(NextByte(l)), Drop(l.script, 8))
  }

  /** The nine bytes the next 72 read slots assemble. */
  function NextPad(l: Line): (pad: seq<bv8>)
    ensures |pad| == PadLength
  {
    BytesFrom(l.script, PadLength)
  }

  function AfterPad(l: Line): Line {
    Line(l.trace + Reads(NextPad(l)), Drop(l.script, PadSamples))
  }

  /** The check both scratchpad reads make: byte 8 is the CRC of bytes 0 .. 7. */
  predicate PadCrcValid(pad: seq<bv8>)
    requires |pad| == PadLength
  {
    Crc8(pad[..8]) == pad[8]
  }

  // ---------------------------------------------------------------------------
  // Specification

  /** A scratchpad read: whether it succeeded, the nine bytes read (empty when a
      reset failed before any was read) and the line after it. */
  datatype PadRead = PadRead(ok: bool, pad: seq<bv8>, after: Line)

  /** What `onewire_measure` leaves in `output`.  The two float formats are not
      rendered: a reading carries the integers they are computed from. */
  datatype Report =
    | Unwritten                                              // output as the caller left it
    | Text(text: string)                                     // "NONE\r\n" or the unknown-family line
    | Temperature(bits: nat, raw: bv16)                      // `(buffer[1] << 8) | buffer[0]`
    | Humidity(vad: nat, vdd: nat, tempInteger: nat, tempFrac: nat)

  datatype Measurement = Measurement(report: Report, after: Line)

  /** `ds2438_read(io, page, buffer)`. */
  function Ds2438Read(l: Line, page: bv8): (r: PadRead)
    ensures r.ok ==> |r.pad| == PadLength
  {
    if !Present(l) then PadRead(false, [], AfterReset(l))
    else
      var l1 := AfterWrites(AfterReset(l), [SkipRomCommand, RecallPageCommand, page]);
      if !Present(l1) then PadRead(false, [], AfterReset(l1))
      else
        var l2 := AfterWrites(AfterReset(l1), [SkipRomCommand, ReadScratchPadCommand, page]);
        PadRead(PadCrcValid(NextPad(l2)), NextPad(l2), AfterPad(l2))
  }

  /** `ds1820_read(io, buffer)`. */
  function Ds1820Read(l: Line): (r: PadRead)
    ensures r.ok ==> |r.pad| == PadLength
  {
    if !Present(l) then PadRead(false, [], AfterReset(l))
    else
      var l1 := AfterWrites(AfterReset(l), [SkipRomCommand, ReadScratchPadCommand]);
      PadRead(PadCrcValid(NextPad(l1)), NextPad(l1), AfterPad(l1))
  }

  /** A DS2438 voltage register, `((buffer[4] << 8) | buffer[3]) * 10`, stored in a
      `uint16_t` (so reduced modulo 2^16). */
  function Voltage(pad: seq<bv8>): (v: nat)
    requires |pad| == PadLength
    ensures v < 0x1_0000
  {
    (pad[4] as nat * 256 + pad[3] as nat) * 10 % 0x1_0000
  }

  /** `(buffer[1] >> 3) * 32`: the five fraction bits of the DS2438 temperature (the
      shift of an unsigned byte is a division by 8). */
  function TempFrac(pad: seq<bv8>): nat
    requires |pad| == PadLength
  {
    pad[1] as nat / 8 * 32
  }

  /** The raw DS1820/DS18B20 reading, `(buffer[1] << 8) | buffer[0]`. */
  function Raw(pad: seq<bv8>): bv16
    requires |pad| == PadLength
  {
    (pad[1] as bv16 << 8) | pad[0] as bv16
  }

  /** `ds1820_measure(io, output, bits)`. */
  function Ds1820Measure(l: Line, bits: nat): Measurement {
    if !Present(l) then Measurement(Unwritten, AfterReset(l))
    else
      var r := Ds1820Read(AfterWrites(AfterReset(l), [SkipRomCommand, ConvertTCommand]));
      if !r.ok then Measurement(Unwritten, r.after)
      else Measurement(Temperature(bits, Raw(r.pad)), r.after)
  }

  /** The first half of `ds2438_measure`: select VAD, convert temperature and
      voltage, read page 0. */
  function Ds2438Vad(l: Line): PadRead {
    if !Present(l) then PadRead(false, [], AfterReset(l))
    else
      var l1 := AfterWait(AfterWrites(AfterReset(l), [SkipRomCommand, WriteScratchPadCommand, 0x00, SelectVad]), SettleMs);
      if !Present(l1) then PadRead(false, [], AfterReset(l1))
      else
        var l2 := AfterWait(AfterWrites(AfterReset(l1), [SkipRomCommand, ConvertTCommand]), SettleMs);
        if !Present(l2) then PadRead(false, [], AfterReset(l2))
        else
          var l3 := AfterWait(AfterWrites(AfterReset(l2), [SkipRomCommand, ConvertVCommand]), SettleMs);
          Ds2438Read(l3, 0)
  }

  /** The second half of `ds2438_measure`, after the first page read: select VDD,
      convert voltage, read page 0 again. */
  function Ds2438Vdd(l: Line): PadRead {
    var l0 := AfterWait(l, SettleMs);
    if !Present(l0) then PadRead(false, [], AfterReset(l0))
    else
      var l1 := AfterWrites(AfterReset(l0), [SkipRomCommand, WriteScratchPadCommand, 0x00, SelectVdd]);
      if !Present(l1) then PadRead(false, [], AfterReset(l1))
      else
        var l2 := AfterWait(AfterWrites(AfterReset(l1), [SkipRomCommand, ConvertVCommand]), SettleMs);
        if !Present(l2) then PadRead(false, [], AfterReset(l2))
        else Ds2438Read(AfterReset(l2), 0)
  }

  /** `ds2438_measure(io, output)`. */
  function Ds2438Measure(l: Line): Measurement {
    var first := Ds2438Vad(l);
    if !first.ok then Measurement(Unwritten, first.after)
    else
      var second := Ds2438Vdd(first.after);
      if !second.ok then Measurement(Unwritten, second.after)
      else
        var pad := second.pad;
        Measurement(Humidity(Voltage(first.pad), Voltage(pad), pad[2] as nat, TempFrac(pad)), second.after)
  }

  /** The line `UNKNOWN;0x%02X\r\n` prints for a family code. */
  function UnknownText(family: bv8): string {
    "UNKNOWN;0x" + Hex2(family) + "\r\n"
  }

  /** `onewire_measure(io, output)`. */
  function Dispatch(l: Line): Measurement {
    if !Present(l) then Measurement(Text("NONE\r\n"), AfterReset(l))
    else
      var l1 := AfterWrites(AfterReset(l), [ReadRomCommand]);
      var family := NextByte(l1);
      var l2 := AfterByte(l1);
      if family == FamilyDs1820 then Ds1820Measure(l2, 9)
      else if family == FamilyDs2438 then Ds2438Measure(l2)
      else if family == FamilyDs18b20 then Ds1820Measure(l2, 12)
      else Measurement(Text(UnknownText(family)), l2)
  }

  // ---------------------------------------------------------------------------
  // `%02X`

  /** The digit of the low nibble of n. */
  function HexDigit(n: nat): (c: char)
    ensures IsHexDigit(c) && HexDigitValue(c) == n % 16
  {
    var d := n % 16;
    if d < 10 then ('0' as int + d) as char else ('A' as int + d - 10) as char
  }

  /** An upper-case hexadecimal digit. */
  predicate IsHexDigit(c: char) {
    '0' <= c <= '9' || 'A' <= c <= 'F'
  }

  function HexDigitValue(c: char): nat
    requires IsHexDigit(c)
  {
    if c <= '9' then c as int - '0' as int else c as int - 'A' as int + 10
  }

  /** A byte as two upper-case hexadecimal digits, high nibble first. */
  function Hex2(b: bv8): (s: string)
    ensures |s| == 2 && IsHexDigit(s[0]) && IsHexDigit(s[1])
  {
    [HexDigit(b as nat / 16), HexDigit(b as nat)]
  }

  // ---------------------------------------------------------------------------
  // Properties

  /** `ds2438_read` succeeds exactly when both resets see a presence pulse and the
      page it reads passes the CRC check, and then its slots are those of the
      two commands and the nine reads. */
  lemma Ds2438ReadSequence(l: Line, page: bv8)
    ensures var r := Ds2438Read(l, page);
      && (r.ok <==> !Level(l.script, 0) && !Level(l.script, 1) && PadCrcValid(BytesFrom(Drop(l.script, 2), PadLength)))
      && (r.ok ==>
           && r.pad == BytesFrom(Drop(l.script, 2), PadLength)
           && r.after.trace == l.trace + [Reset(true)] + Writes([SkipRomCommand, RecallPageCommand, page])
                                       + [Reset(true)] + Writes([SkipRomCommand, ReadScratchPadCommand, page])
                                       + Reads(r.pad)
           && r.after.script == Drop(l.script, 2 + PadSamples))
  {
    LevelDrop(l.script, 1, 0);
    DropDrop(l.script, 1, 1);
    DropDrop(l.script, 2, PadSamples);
  }

  /** `ds1820_read`: one reset, Skip ROM, Read Scratchpad, nine reads; it succeeds
      exactly when the reset sees a presence pulse and the CRC check passes. */
  lemma Ds1820ReadSequence(l: Line)
    ensures var r := Ds1820Read(l);
      && (r.ok <==> !Level(l.script, 0) && PadCrcValid(BytesFrom(Drop(l.script, 1), PadLength)))
      && (r.ok ==>
           && r.pad == BytesFrom(Drop(l.script, 1), PadLength)
           && r.after.trace == l.trace + [Reset(true)] + Writes([SkipRomCommand, ReadScratchPadCommand]) + Reads(r.pad)
           && r.after.script == Drop(l.script, 1 + PadSamples))
  {
    DropDrop(l.script, 1, PadSamples);
  }

  /** `ds1820_measure` reads the scratchpad straight after Convert T: there is no
      wait between the two, unlike the 750 ms `ds18b20_measure` waits out. */
  lemma Ds1820MeasureSequence(l: Line, bits: nat)
    ensures var m := Ds1820Measure(l, bits);
      && (m.report != Unwritten <==>
            !Level(l.script, 0) && !Level(l.script, 1) && PadCrcValid(BytesFrom(Drop(l.script, 2), PadLength)))
      && (m.report != Unwritten ==>
           var pad := BytesFrom(Drop(l.script, 2), PadLength);
           && m.report == Temperature(bits, Raw(pad))
           && m.after.trace == l.trace + [Reset(true)] + Writes([SkipRomCommand, ConvertTCommand])
                                       + [Reset(true)] + Writes([SkipRomCommand, ReadScratchPadCommand]) + Reads(pad)
           && m.after.script == Drop(l.script, 2 + PadSamples))
  {
    if Present(l) {
      var l1 := AfterWrites(AfterReset(l), [SkipRomCommand, ConvertTCommand]);
      Ds1820ReadSequence(l1);
      LevelDrop(l.script, 1, 0);
      DropDrop(l.script, 1, 1);
      DropDrop(l.script, 1, 1 + PadSamples);
    }
  }

  /** The first half of a DS2438 measurement selects VAD (configuration byte 0x00)
      before any conversion. */
  lemma Ds2438VadSequence(l: Line)
    ensures var r := Ds2438Vad(l);
      r.ok ==>
        var pad := BytesFrom(Drop(l.script, 5), PadLength);
        && r.pad == pad
        && r.after.trace == l.trace
             + [Reset(true)] + Writes([SkipRomCommand, WriteScratchPadCommand, 0x00, SelectVad]) + [Wait(SettleMs)]
             + [Reset(true)] + Writes([SkipRomCommand, ConvertTCommand]) + [Wait(SettleMs)]
             + [Reset(true)] + Writes([SkipRomCommand, ConvertVCommand]) + [Wait(SettleMs)]
             + [Reset(true)] + Writes([SkipRomCommand, RecallPageCommand, 0x00])
             + [Reset(true)] + Writes([SkipRomCommand, ReadScratchPadCommand, 0x00]) + Reads(pad)
        && r.after.script == Drop(l.script, 5 + PadSamples)
  {
    var r := Ds2438Vad(l);
    if r.ok {
      var l1 := AfterWait(AfterWrites(AfterReset(l), [SkipRomCommand, WriteScratchPadCommand, 0x00, SelectVad]), SettleMs);
      var l2 := AfterWait(AfterWrites(AfterReset(l1), [SkipRomCommand, ConvertTCommand]), SettleMs);
      var l3 := AfterWait(AfterWrites(AfterReset(l2), [SkipRomCommand, ConvertVCommand]), SettleMs);
      DropDrop(l.script, 1, 1);
      DropDrop(l.script, 2, 1);
      assert l3.script == Drop(l.script, 3);
      Ds2438ReadSequence(l3, 0);
      DropDrop(l.script, 3, 2);
      DropDrop(l.script, 3, 2 + PadSamples);
    }
  }

  /** The second half selects VDD (configuration byte 0x08) before its conversion;
      its page read starts with two resets in a row (main sequence, then the one
      inside `ds2438_read`). */
  lemma Ds2438VddSequence(l: Line)
    ensures var r := Ds2438Vdd(l);
      r.ok ==>
        var pad := BytesFrom(Drop(l.script, 5), PadLength);
        && r.pad == pad
        && r.after.trace == l.trace + [Wait(SettleMs)]
             + [Reset(true)] + Writes([SkipRomCommand, WriteScratchPadCommand, 0x00, SelectVdd])
             + [Reset(true)] + Writes([SkipRomCommand, ConvertVCommand]) + [Wait(SettleMs)]
             + [Reset(true)]
             + [Reset(true)] + Writes([SkipRomCommand, RecallPageCommand, 0x00])
             + [Reset(true)] + Writes([SkipRomCommand, ReadScratchPadCommand, 0x00]) + Reads(pad)
        && r.after.script == Drop(l.script, 5 + PadSamples)
  {
    var r := Ds2438Vdd(l);
    if r.ok {
      var l0 := AfterWait(l, SettleMs);
      var l1 := AfterWrites(AfterReset(l0), [SkipRomCommand, WriteScratchPadCommand, 0x00, SelectVdd]);
      var l2 := AfterWait(AfterWrites(AfterReset(l1), [SkipRomCommand, ConvertVCommand]), SettleMs);
      DropDrop(l.script, 1, 1);
      DropDrop(l.script, 2, 1);
      assert AfterReset(l2).script == Drop(l.script, 3);
      Ds2438ReadSequence(AfterReset(l2), 0);
      DropDrop(l.script, 3, 2);
      DropDrop(l.script, 3, 2 + PadSamples);
    }
  }

  /** A DS2438 measurement reports the voltages of the two page reads (VAD first,
      then VDD) and the temperature bytes of the second; the output is written only
      when every reset and both CRC checks succeeded. */
  lemma Ds2438MeasureReport(l: Line)
    ensures var m := Ds2438Measure(l);
      var first := Ds2438Vad(l);
      var second := Ds2438Vdd(first.after);
      && (m.report != Unwritten <==> first.ok && second.ok)
      && (m.report != Unwritten ==>
           var pad := BytesFrom(Drop(l.script, 10 + PadSamples), PadLength);
           && m.report == Humidity(Voltage(BytesFrom(Drop(l.script, 5), PadLength)), Voltage(pad), pad[2] as nat, TempFrac(pad))
           && m.after.script == Drop(l.script, 10 + 2 * PadSamples))
  {
    var first := Ds2438Vad(l);
    if first.ok {
      Ds2438VadSequence(l);
      Ds2438VddSequence(first.after);
      DropDrop(l.script, 5 + PadSamples, 5);
      DropDrop(l.script, 5 + PadSamples, 5 + PadSamples);
    }
  }

  /** A 10-bit voltage register (the DS2438's range) times ten fits in 16 bits, so
      the `uint16_t` holds it exactly. */
  lemma VoltageExact(pad: seq<bv8>)
    requires |pad| == PadLength && pad[4] < 4
    ensures Voltage(pad) == (pad[4] as nat * 256 + pad[3] as nat) * 10
  {
  }

  /** The decoded fraction, read as thousandths, stays below one degree. */
  lemma TempFracRange(pad: seq<bv8>)
    requires |pad| == PadLength
    ensures TempFrac(pad) % 32 == 0 && TempFrac(pad) <= 992
  {
  }

  /** With no presence pulse the output is "NONE\r\n" after one reset; otherwise the
      family byte read after Read ROM chooses the readout. */
  lemma DispatchFamily(l: Line)
    ensures var m := Dispatch(l);
      var family := ByteFrom(Drop(l.script, 1));
      var l2 := Line(l.trace + [Reset(true)] + Writes([ReadRomCommand]) + ReadEvents(family), Drop(l.script, 9));
      && (Level(l.script, 0) ==> m == Measurement(Text("NONE\r\n"), Line(l.trace + [Reset(false)], Drop(l.script, 1))))
      && (!Level(l.script, 0) ==>
           m == if family == FamilyDs1820 then Ds1820Measure(l2, 9)
                else if family == FamilyDs2438 then Ds2438Measure(l2)
                else if family == FamilyDs18b20 then Ds1820Measure(l2, 12)
                else Measurement(Text(UnknownText(family)), l2))
  {
    DropDrop(l.script, 1, 8);
  }

  /** `onewire_measure` leaves the output unwritten only when it recognised the
      family and that readout failed: its return value is ignored. */
  lemma UnwrittenOnlyOnFailedReadout(l: Line)
    ensures var m := Dispatch(l);
      var l2 := AfterByte(AfterWrites(AfterReset(l), [ReadRomCommand]));
      var family := NextByte(AfterWrites(AfterReset(l), [ReadRomCommand]));
      m.report == Unwritten <==>
        && Present(l)
        && ((family == FamilyDs1820 && Ds1820Measure(l2, 9).report == Unwritten)
            || (family == FamilyDs2438 && Ds2438Measure(l2).report == Unwritten)
            || (family == FamilyDs18b20 && Ds1820Measure(l2, 12).report == Unwritten))
  {
  }

  /** The unknown-family line shows the family code in hexadecimal, which reads
      back as the code. */
  lemma HexRoundTrip(b: bv8)
    ensures var s := Hex2(b); HexDigitValue(s[0]) * 16 + HexDigitValue(s[1]) == b as int
  {
    var n := b as nat;
    assert n < 256;
    assert (n / 16) % 16 == n / 16;
  }

  // ---------------------------------------------------------------------------
  // The code

  /** A run of consecutive `onewire_write` calls. */
  method WriteBytes(bus: Bus, bytes: seq<bv8>)
    modifies bus`trace
    ensures LineOf(bus) == AfterWrites(old(LineOf(bus)), bytes)
  {
    var i := 0;
    while i < |bytes|
      invariant i <= |bytes|
      invariant bus.trace == old(bus.trace) + Writes(bytes[..i])
    {
      bus.WriteByte(bytes[i]);
      assert bytes[..i + 1][..i] == bytes[..i];
      i := i + 1;
    }
    assert bytes[..|bytes|] == bytes;
  }

  method ResetLine(bus: Bus) returns (presence: bool)
    modifies bus
    ensures presence == Present(old(LineOf(bus))) && LineOf(bus) == AfterReset(old(LineOf(bus)))
  {
    presence := bus.ResetPulse();
  }

  method Delay(bus: Bus, ms: nat)
    modifies bus`trace
    ensures LineOf(bus) == AfterWait(old(LineOf(bus)), ms)
  {
    bus.DelayMs(ms);
  }

  /** The nine `onewire_read` calls and the `crc8(buffer, 8) != buffer[8]` test. */
  method ReadPad(bus: Bus, buffer: array<bv8>) returns (ok: bool)
    requires buffer.Length == PadLength
    modifies bus, buffer
    ensures buffer[..] == NextPad(old(LineOf(bus))) && ok == PadCrcValid(buffer[..])
    ensures LineOf(bus) == AfterPad(old(LineOf(bus)))
  {
    ReadInto(bus, buffer);
    var crc := ComputeCrc8(buffer, 8);
    ok := crc == buffer[8];
  }

  /** `ds2438_read(io, page, buffer)`. */
  method Ds2438ReadPage(bus: Bus, page: bv8, buffer: array<bv8>) returns (ok: bool)
    requires buffer.Length == PadLength
    modifies bus, buffer
    ensures var r := Ds2438Read(old(LineOf(bus)), page);
      ok == r.ok && LineOf(bus) == r.after && (ok ==> buffer[..] == r.pad)
  {
    var presence := ResetLine(bus);
    if !presence {
      return false;
    }
    WriteBytes(bus, [SkipRomCommand, RecallPageCommand, page]);
    presence := ResetLine(bus);
    if !presence {
      return false;
    }
    WriteBytes(bus, [SkipRomCommand, ReadScratchPadCommand, page]);
    ok := ReadPad(bus, buffer);
  }

  /** `ds1820_read(io, buffer)`. */
  method Ds1820ReadPad(bus: Bus, buffer: array<bv8>) returns (ok: bool)
    requires buffer.Length == PadLength
    modifies bus, buffer
    ensures var r := Ds1820Read(old(LineOf(bus)));
      ok == r.ok && LineOf(bus) == r.after && (ok ==> buffer[..] == r.pad)
  {
    var presence := ResetLine(bus);
    if !presence {
      return false;
    }
    WriteBytes(bus, [SkipRomCommand, ReadScratchPadCommand]);
    ok := ReadPad(bus, buffer);
  }

  /** `ds1820_measure(io, output, bits)`: its result is true exactly when the report
      is written. */
  method Ds1820Measuring(bus: Bus, bits: nat) returns (report: Report)
    modifies bus
    ensures var m := Ds1820Measure(old(LineOf(bus)), bits);
      report == m.report && LineOf(bus) == m.after
  {
    var buffer := new bv8[PadLength];
    var presence := ResetLine(bus);
    if !presence {
      return Unwritten;
    }
    WriteBytes(bus, [SkipRomCommand, ConvertTCommand]);
    var ok := Ds1820ReadPad(bus, buffer);
    if !ok {
      return Unwritten;
    }
    report := Temperature(bits, (buffer[1] as bv16 << 8) | buffer[0] as bv16);
  }

  /** Lines 168-194 of `ds2438_measure`. */
  method Ds2438VadPhase(bus: Bus, buffer: array<bv8>) returns (ok: bool)
    requires buffer.Length == PadLength
    modifies bus, buffer
    ensures var r := Ds2438Vad(old(LineOf(bus)));
      ok == r.ok && LineOf(bus) == r.after && (ok ==> buffer[..] == r.pad)
  {
    var presence := ResetLine(bus);
    if !presence {
      return false;
    }
    WriteBytes(bus, [SkipRomCommand, WriteScratchPadCommand, 0x00, SelectVad]);
    Delay(bus, SettleMs);
    presence := ResetLine(bus);
    if !presence {
      return false;
    }
    WriteBytes(bus, [SkipRomCommand, ConvertTCommand]);
    Delay(bus, SettleMs);
    presence := ResetLine(bus);
    if !presence {
      return false;
    }
    WriteBytes(bus, [SkipRomCommand, ConvertVCommand]);
    Delay(bus, SettleMs);
    ok := Ds2438ReadPage(bus, 0, buffer);
  }

  /** Lines 198-220 of `ds2438_measure`. */
  method Ds2438VddPhase(bus: Bus, buffer: array<bv8>) returns (ok: bool)
    requires buffer.Length == PadLength
    modifies bus, buffer
    ensures var r := Ds2438Vdd(old(LineOf(bus)));
      ok == r.ok && LineOf(bus) == r.after && (ok ==> buffer[..] == r.pad)
  {
    Delay(bus, SettleMs);
    var presence := ResetLine(bus);
    if !presence {
      return false;
    }
    WriteBytes(bus, [SkipRomCommand, WriteScratchPadCommand, 0x00, SelectVdd]);
    presence := ResetLine(bus);
    if !presence {
      return false;
    }
    WriteBytes(bus, [SkipRomCommand, ConvertVCommand]);
    Delay(bus, SettleMs);
    presence := ResetLine(bus);
    if !presence {
      return false;
    }
    ok := Ds2438ReadPage(bus, 0, buffer);
  }

  /** `ds2438_measure(io, output)`, up to the float formulas: the report carries the
      integers they take. */
  method Ds2438Measuring(bus: Bus) returns (report: Report)
    modifies bus
    ensures var m := Ds2438Measure(old(LineOf(bus)));
      report == m.report && LineOf(bus) == m.after
  {
    var buffer := new bv8[PadLength];
    var ok := Ds2438VadPhase(bus, buffer);
    if !ok {
      return Unwritten;
    }
    var vad := Voltage(buffer[..]);
    ok := Ds2438VddPhase(bus, buffer);
    if !ok {
      return Unwritten;
    }
    var vdd := Voltage(buffer[..]);
    var tempInteger := buffer[2] as nat;
    var tempFrac := TempFrac(buffer[..]);
    report := Humidity(vad, vdd, tempInteger, tempFrac);
  }

  /** `onewire_measure(io, output)`. */
  method OnewireMeasure(bus: Bus) returns (report: Report)
    modifies bus
    ensures var m := Dispatch(old(LineOf(bus)));
      report == m.report && LineOf(bus) == m.after
  {
    var presence := ResetLine(bus);
    if !presence {
      return Text("NONE\r\n");
    }
    WriteBytes(bus, [ReadRomCommand]);
    var family := bus.ReadByte();
    match family {
      case 0x10 => report := Ds1820Measuring(bus, 9);
      case 0x26 => report := Ds2438Measuring(bus);
      case 0x28 => report := Ds1820Measuring(bus, 12);
      case _ => report := Text("UNKNOWN;0x" + Hex2(family) + "\r\n");
    }
  }
}
