/** The device layer of ds18b20.c: the ROM CRC check, `ds18b20_search` collecting
    the CRC-valid addresses a search finds into a caller buffer, and
    `ds18b20_measure`, which converts, reads the scratchpad of one addressed
    thermometer and prints the raw reading as decimal text. */
module Ds18b20 {
  import opened OneWireBus
  import opened Crc
  import opened RomSearch
  import opened DecimalText

  const MatchRomCommand: bv8 := 0x55
  const SkipRomCommand: bv8 := 0xCC
  const ConvertCommand: bv8 := 0x44
  const ReadScratchPadCommand: bv8 := 0xBE

  /** Sentinel results of `ds18b20_read_slave`. */
  const DeviceNotFound: bv16 := 0xA800
  const CrcCheckFailed: bv16 := 0x5000

  /** Bytes in the scratchpad: eight of data, then their CRC. */
  const ScratchPadLength: nat := 9
  /** The worst-case 12-bit conversion time `ds18b20_measure` waits out. */
  const ConversionMs: nat := 750
  /** Characters in the `output` buffer of `ds18b20_measure`. */
  const OutputLength: nat := 10

  // ---------------------------------------------------------------------------
  // Scratchpad and slave reads

  /** What `ds18b20_readScratchPad` returns for the nine bytes it read. */
  function ScratchResult(pad: seq<bv8>): (r: bv16)
    requires |pad| == 9
    ensures Crc8(pad[..8]) != pad[8] ==> r == CrcCheckFailed
    ensures Crc8(pad[..8]) == pad[8] ==> (r >> 8) as bv8 == pad[1] && (r & 0xFF) as bv8 == pad[0]
  {
    if Crc8(pad[..8]) != pad[8] then CrcCheckFailed else (pad[1] as bv16 << 8) | pad[0] as bv16
  }

  /** A result and the bus activity that produced it. */
  datatype Transfer = Transfer(value: bv16, events: seq<Event>, consumed: nat)

  /** `ds18b20_read_slave(io, address)` on a bus that answers with `script`. */
  function Slave(script: seq<bool>, address: Address): Transfer {
    if Level(script, 0) then Transfer(DeviceNotFound, [Reset(false)], 1)
    else
      var pad := BytesFrom(Drop(script, 1), ScratchPadLength);
      Transfer(ScratchResult(pad),
               [Reset(true)] + (WriteEvents(MatchRomCommand) + Writes(address) + WriteEvents(ReadScratchPadCommand) + Reads(pad)),
               1 + 8 * ScratchPadLength)
  }

  /** `onewire_check_rom_crc`: byte 7 of the address is the CRC of bytes 0 .. 6. */
  method CheckRomCrc(state: SearchState) returns (ok: bool)
    requires state.Valid()
    ensures ok == RomCrcValid(state.address[..])
  {
    var crc := ComputeCrc8(state.address, 7);
    ok := state.address[7] == crc;
  }

  /** `onewire_match_rom`: the Match ROM command, then the eight address bytes. */
  method MatchRom(bus: Bus, address: array<bv8>)
    requires address.Length == 8
    modifies bus`trace
    ensures bus.trace == old(bus.trace) + WriteEvents(MatchRomCommand) + Writes(address[..])
  {
    bus.WriteByte(MatchRomCommand);
    ghost var t1 := bus.trace;
    var i := 0;
    while i < 8
      invariant i <= 8
      invariant bus.trace == t1 + Writes(address[..i])
    {
      bus.WriteByte(address[i]);
      assert address[..i + 1][..i] == address[..i];
      Concat3(t1, Writes(address[..i]), WriteEvents(address[i]));
      i := i + 1;
    }
    assert address[..8] == address[..];
  }

  /** `onewire_skiprom`: the Skip ROM command, addressing every device. */
  method SkipRom(bus: Bus)
    modifies bus`trace
    ensures bus.trace == old(bus.trace) + WriteEvents(SkipRomCommand)
  {
    bus.WriteByte(SkipRomCommand);
  }

  /** `ds18b20_convert`: Skip ROM, then Convert T; nothing is read back. */
  method Convert(bus: Bus)
    modifies bus`trace
    ensures bus.trace == old(bus.trace) + WriteEvents(SkipRomCommand) + WriteEvents(ConvertCommand)
  {
    SkipRom(bus);
    bus.WriteByte(ConvertCommand);
  }

  /** `ds18b20_readScratchPad`: nine byte reads, then the CRC check. */
  method ReadScratchPad(bus: Bus) returns (value: bv16)
    modifies bus
    ensures value == ScratchResult(BytesFrom(old(bus.script), ScratchPadLength))
    ensures bus.trace == old(bus.trace) + Reads(BytesFrom(old(bus.script), ScratchPadLength))
    ensures bus.script == Drop(old(bus.script), 8 * ScratchPadLength)
  {
    var buffer := new bv8[ScratchPadLength];
    ReadInto(bus, buffer);
    assert buffer[..][..8] == buffer[..8];
    var crc := ComputeCrc8(buffer, 8);
    if crc != buffer[8] {
      return CrcCheckFailed;
    }
    return (buffer[1] as bv16 << 8) | buffer[0] as bv16;
  }

  /** `ds18b20_read_slave`: a reset that no device answers gives the not-found
      sentinel; otherwise Match ROM, Read Scratchpad and the scratchpad read. */
  method ReadSlave(bus: Bus, address: array<bv8>) returns (value: bv16)
    requires address.Length == 8
    modifies bus
    ensures var t := Slave(old(bus.script), address[..]);
      value == t.value && bus.trace == old(bus.trace) + t.events && bus.script == Drop(old(bus.script), t.consumed)
  {
    var presence := bus.ResetPulse();
    if !presence {
      return DeviceNotFound;
    }
    ghost var t1 := bus.trace;
    ghost var s1 := bus.script;
    MatchRom(bus, address);
    bus.WriteByte(ReadScratchPadCommand);
    value := ReadScratchPad(bus);
    DropDrop(old(bus.script), 1, 8 * ScratchPadLength);
    ghost var pad := BytesFrom(s1, ScratchPadLength);
    Concat4(t1, WriteEvents(MatchRomCommand) + Writes(address[..]), WriteEvents(ReadScratchPadCommand), Reads(pad));
    Concat3(old(bus.trace), [Reset(true)], WriteEvents(MatchRomCommand) + Writes(address[..]) + WriteEvents(ReadScratchPadCommand) + Reads(pad));
  }

  /** A genuine reading whose bytes spell a sentinel cannot be told from a failure:
      the scratchpad below carries a valid CRC and the raw value 0x5000. */
  lemma SentinelIsAmbiguous(pad: seq<bv8>)
    requires |pad| == 9 && pad[0] == 0x00 && pad[1] == 0x50 && pad[8] == Crc8(pad[..8])
    ensures ScratchResult(pad) == CrcCheckFailed
  {
  }

  // ---------------------------------------------------------------------------
  // Printing a reading

  /** The four fractional digits of a reading: "0000" for zero, otherwise the
      numeral of the value with one '0' in front of it when it is below 1000. */
  function Fraction(frac: nat): string {
    if frac == 0 then "0000" else if frac < 1000 then "0" + Digits(frac) else Digits(frac)
  }

  /** The whole part of a reading: the raw value shifted right four places as an
      unsigned 16-bit value, so a negative temperature prints as a value up to 4095. */
  function WholePart(reading: bv16): nat {
    (reading >> 4) as nat
  }

  /** The fraction of a reading in ten-thousandths: sixteenths times 625. */
  function FractionPart(reading: bv16): nat {
    (reading & 0xF) as nat * 625
  }

  /** The text `ds18b20_measure` prints for a reading. */
  function ReadingText(reading: bv16): (s: string)
    ensures |s| <= 9
  {
    FractionDigits(reading);
    DigitsAtMost(WholePart(reading), 4);
    PointText(WholePart(reading), FractionPart(reading))
  }

  /** A whole part, a point, and a fraction in ten-thousandths. */
  function PointText(whole: nat, frac: nat): string {
    Digits(whole) + "." + Fraction(frac)
  }

  /** n copies of c. */
  function Fill(c: char, n: nat): (r: string)
    ensures |r| == n && forall i | 0 <= i < n :: r[i] == c
  {
    if n == 0 then [] else Fill(c, n - 1) + [c]
  }

  /** Text in a buffer of w characters, the rest of it NUL. */
  function Terminated(s: string, w: nat): (r: string)
    requires |s| <= w
    ensures |r| == w
  {
    s + Fill('\0', w - |s|)
  }

  /** A buffer with s written over it from index `at`. */
  function Splice(buf: seq<char>, at: nat, s: string): (r: seq<char>)
    requires at + |s| <= |buf|
    ensures |r| == |buf|
  {
    buf[..at] + s + buf[at + |s|..]
  }

  /** A sixteenth is 625 ten-thousandths: the fractional part has exactly four digits
      and all of them are significant. */
  lemma FractionDigits(reading: bv16)
    ensures |Fraction(FractionPart(reading))| == 4 && AllDigits(Fraction(FractionPart(reading)))
    ensures Value(Fraction(FractionPart(reading))) == FractionPart(reading)
  {
    var f := FractionPart(reading);
    if f == 0 {
      assert Fraction(f) == Zeros(4);
      ZerosValue(4);
    } else if f < 1000 {
      assert f == 625;
      DigitCount(f, 3);
      DigitsRoundTrip(f);
      assert Fraction(f) == Zeros(1) + Digits(f);
      LeadingZeros(1, Digits(f));
    } else {
      DigitCount(f, 4);
      DigitsRoundTrip(f);
    }
  }

  /** The printed text is the reading divided by 16, exactly: its digits before the
      point and its four digits after it spell whole * 10000 + fraction = reading * 625. */
  lemma ReadingTextValue(reading: bv16)
    ensures var s := ReadingText(reading);
      var p := |Digits(WholePart(reading))|;
      && p < |s| <= 9 && s[p] == '.'
      && AllDigits(s[..p]) && AllDigits(s[p + 1..]) && |s[p + 1..]| == 4
      && Value(s[..p]) * 10000 + Value(s[p + 1..]) == reading as nat * 625
  {
    var w := WholePart(reading);
    FractionDigits(reading);
    PointTextValue(w, FractionPart(reading));
    ShiftSplit(reading);
    Sixteenths(w, (reading & 0xF) as nat);
  }

  lemma PointTextValue(whole: nat, frac: nat)
    requires whole < 10000 && |Fraction(frac)| == 4 && AllDigits(Fraction(frac)) && Value(Fraction(frac)) == frac
    ensures var s := PointText(whole, frac);
      var p := |Digits(whole)|;
      && p < |s| <= 9 && s[p] == '.'
      && AllDigits(s[..p]) && AllDigits(s[p + 1..]) && |s[p + 1..]| == 4
      && Value(s[..p]) * 10000 + Value(s[p + 1..]) == whole * 10000 + frac
  {
    var s := PointText(whole, frac);
    var d := Digits(whole);
    var p := |d|;
    DigitsRoundTrip(whole);
    DigitsAtMost(whole, 4);
    assert s[..p] == d;
    assert s[p + 1..] == Fraction(frac);
  }

  lemma Sixteenths(w: nat, low: nat)
    ensures (16 * w + low) * 625 == w * 10000 + low * 625
  {
  }

  lemma ShiftSplit(reading: bv16)
    ensures reading as nat == 16 * (reading >> 4) as nat + (reading & 0xF) as nat
  {
  }

  /** The reading the documentation of the DS18B20 gives for 85 degrees. */
  lemma PowerOnReading()
    ensures ReadingText(0x0550) == "85.0000"
  {
    assert WholePart(0x0550) == 85;
    assert Digits(85) == "85";
  }

  /** -10.125 degrees (0xFF5E in two's complement) prints as 4085.8750. */
  lemma NegativeReading()
    ensures ReadingText(0xFF5E) == "4085.8750"
  {
    assert WholePart(0xFF5E) == 4085;
    assert FractionPart(0xFF5E) == 8750;
    assert Digits(4085) == "4085";
    assert Digits(8750) == "8750";
  }

  lemma FillConcat(c: char, m: nat, n: nat)
    ensures Fill(c, m) + Fill(c, n) == Fill(c, m + n)
  {
    assert forall i | 0 <= i < m + n :: (Fill(c, m) + Fill(c, n))[i] == c;
  }

  /** Writing s and k NULs just after the text of a NUL-terminated buffer extends
      the text by s. */
  lemma SpliceTerminated(p: string, s: string, k: nat, w: nat)
    requires |p| + |s| + k <= w
    ensures Splice(Terminated(p, w), |p|, s + Fill('\0', k)) == Terminated(p + s, w)
  {
    var t := Terminated(p, w);
    var rest := w - |p| - |s| - k;
    assert t[..|p|] == p;
    assert t[|p| + |s| + k..] == Fill('\0', rest);
    FillConcat('\0', k, rest);
    assert p + (s + Fill('\0', k)) + Fill('\0', rest) == p + s + (Fill('\0', k) + Fill('\0', rest));
  }

  /** `memset(output + at, c, n)`. */
  method Memset(output: array<char>, at: nat, c: char, n: nat)
    requires at + n <= output.Length
    modifies output
    ensures output[..] == Splice(old(output[..]), at, Fill(c, n))
  {
    var k := 0;
    while k < n
      invariant k <= n
      invariant forall i | 0 <= i < output.Length ::
        output[i] == if at <= i < at + k then c else old(output[i])
    {
      output[at + k] := c;
      k := k + 1;
    }
    assert forall i | 0 <= i < output.Length :: output[..][i] == Splice(old(output[..]), at, Fill(c, n))[i];
  }

  /** avr-libc `itoa(n, output + at, 10)`: the numeral of n, then a NUL. */
  method Itoa(n: nat, output: array<char>, at: nat)
    requires at + |Digits(n)| < output.Length
    modifies output
    ensures output[..] == Splice(old(output[..]), at, Digits(n) + Fill('\0', 1))
  {
    var d := Digits(n) + Fill('\0', 1);
    var k := 0;
    while k < |d|
      invariant k <= |d|
      invariant forall i | 0 <= i < output.Length ::
        output[i] == if at <= i < at + k then d[i - at] else old(output[i])
    {
      output[at + k] := d[k];
      k := k + 1;
    }
    assert forall i | 0 <= i < output.Length :: output[..][i] == Splice(old(output[..]), at, d)[i];
  }

  /** `strlen(output)`: the index of the first NUL. */
  method Strlen(output: array<char>) returns (n: nat)
    requires exists k | 0 <= k < output.Length :: output[k] == '\0'
    ensures n < output.Length && output[n] == '\0'
    ensures forall k | 0 <= k < n :: output[k] != '\0'
  {
    n := 0;
    while output[n] != '\0'
      invariant n < output.Length
      invariant forall k | 0 <= k < n :: output[k] != '\0'
      invariant exists k | n <= k < output.Length :: output[k] == '\0'
      decreases output.Length - n
    {
      n := n + 1;
    }
  }

  /** Lines 408-414 of `ds18b20_measure`: clear the buffer, print the whole part and
      find its end. */
  method PrintWhole(integer: nat, output: array<char>) returns (at: nat)
    requires output.Length == OutputLength && integer < 10000
    modifies output
    ensures at == |Digits(integer)| < OutputLength
    ensures output[..] == Terminated(Digits(integer), OutputLength)
  {
    var whole := Digits(integer);
    DigitsAtMost(integer, 4);
    Memset(output, 0, '\0', OutputLength);
    assert output[..] == Terminated([], OutputLength);
    Itoa(integer, output, 0);
    SpliceTerminated([], whole, 1, OutputLength);
    assert output[..] == Terminated(whole, OutputLength);
    assert output[|whole|] == '\0';
    at := Strlen(output);
  }

  /** `(*output++) = c` just past the text of a NUL-terminated buffer. */
  method PutChar(output: array<char>, at: nat, c: char, ghost text: string)
    requires at == |text| < output.Length && output[..] == Terminated(text, output.Length)
    modifies output
    ensures output[..] == Terminated(text + [c], output.Length)
  {
    output[at] := c;
    SpliceTerminated(text, [c], 0, output.Length);
    assert output[..] == Splice(Terminated(text, output.Length), at, [c] + Fill('\0', 0));
  }

  /** Lines 417-425 of `ds18b20_measure`: the four fractional digits. */
  method PrintFraction(frac: nat, output: array<char>, at: nat, ghost text: string)
    requires at == |text| && at + 4 < output.Length && output[..] == Terminated(text, output.Length)
    requires frac < 10000 && (frac == 0 || 100 <= frac) && |Fraction(frac)| == 4
    modifies output
    ensures output[..] == Terminated(text + Fraction(frac), output.Length)
  {
    if frac == 0 {
      Memset(output, at, '0', 4);
      SpliceTerminated(text, "0000", 0, output.Length);
      assert Fill('0', 4) + Fill('\0', 0) == "0000";
      return;
    }
    var at := at;
    ghost var text := text;
    if frac < 1000 {
      PutChar(output, at, '0', text);
      at := at + 1;
      text := text + "0";
      DigitCount(frac, 3);
    } else {
      DigitCount(frac, 4);
    }
    Itoa(frac, output, at);
    SpliceTerminated(text, Digits(frac), 1, output.Length);
  }

  /** Lines 408-426 of `ds18b20_measure`: the whole part, a point and four
      fractional digits, NUL-terminated. */
  method FormatReading(reading: bv16, output: array<char>)
    requires output.Length == OutputLength
    modifies output
    ensures output[..] == Terminated(ReadingText(reading), OutputLength)
  {
    var integer := (reading >> 4) as nat;
    var frac := (reading & 0xF) as nat * 625;
    FractionDigits(reading);
    DigitsAtMost(integer, 4);
    var at := PrintWhole(integer, output);
    PutChar(output, at, '.', Digits(integer));
    PrintFraction(frac, output, at + 1, Digits(integer) + ".");
  }

  /** `ds18b20_measure`: a reset whose answer is ignored, a broadcast conversion, a
      750 ms wait, then the read of the addressed thermometer.  Either sentinel is
      reported as failure and leaves `output` as it was; a reading is printed into
      it as NUL-terminated decimal text. */
  method Measure(bus: Bus, address: array<bv8>, output: array<char>) returns (ok: bool)
    requires address.Length == 8 && output.Length == OutputLength
    modifies bus, output
    ensures var t := Slave(Drop(old(bus.script), 1), address[..]);
      && ok == (t.value != CrcCheckFailed && t.value != DeviceNotFound)
      && bus.trace == old(bus.trace) + [Reset(!Level(old(bus.script), 0))] + WriteEvents(SkipRomCommand)
                      + WriteEvents(ConvertCommand) + [Wait(ConversionMs)] + t.events
      && bus.script == Drop(old(bus.script), 1 + t.consumed)
      && output[..] == if ok then Terminated(ReadingText(t.value), OutputLength) else old(output[..])
  {
    var _ := bus.ResetPulse();
    Convert(bus);
    bus.DelayMs(ConversionMs);
    ghost var s1 := bus.script;
    var reading := ReadSlave(bus, address);
    DropDrop(old(bus.script), 1, Slave(s1, address[..]).consumed);
    if reading == CrcCheckFailed {
      return false;
    }
    if reading == DeviceNotFound {
      return false;
    }
    FormatReading(reading, output);
    return true;
  }

  // ---------------------------------------------------------------------------
  // Collecting addresses

  /** Block j of a buffer: bytes 8j .. 8j+7. */
  function Block(buf: seq<bv8>, j: nat): Address
    requires 8 * j + 8 <= |buf|
  {
    buf[8 * j..8 * j + 8]
  }

  /** A buffer with an address copied over block j. */
  function Put(buf: seq<bv8>, j: nat, a: Address): (r: seq<bv8>)
    requires 8 * j + 8 <= |buf|
    ensures |r| == |buf|
    ensures forall k | 0 <= k < |buf| && !(8 * j <= k < 8 * j + 8) :: r[k] == buf[k]
  {
    buf[..8 * j] + a + buf[8 * j + 8..]
  }

  /** What the collection loop ends with: the count, the buffer, the slots it
      generated and the levels it sampled. */
  datatype Gathered = Gathered(found: nat, buf: seq<bv8>, events: seq<Event>, consumed: nat)

  /** One search from what is left of the bus script and the search state. */
  type Searcher = (seq<bool>, View) -> Outcome

  /** A search that finds an address has sampled the bus. */
  ghost predicate Shrinks(search: Searcher) {
    forall script: seq<bool>, v: View ::
      search(script, v).found ==> |Drop(script, search(script, v).consumed)| < |script|
  }

  /** `onewire_search` with the given replay rule. */
  function OnewireSearches(rule: ReplayRule): (search: Searcher)
    ensures Shrinks(search)
  {
    var search := (script: seq<bool>, v: View) => SearchStep(rule, SearchRom, script, v);
    assert Shrinks(search) by {
      forall script: seq<bool>, v: View
        ensures search(script, v).found ==> |Drop(script, search(script, v).consumed)| < |script|
      {
        FoundConsumes(rule, SearchRom, script, v);
      }
    }
    search
  }

  /** The loop of `ds18b20_search` from search state v, with i addresses copied so
      far and buffer contents buf: search first, stop when the search finds
      nothing or block i would end past len, copy the address to block i and count
      it (the 8-bit count wraps) only when its CRC is valid. */
  function Collect(search: Searcher, script: seq<bool>, v: View, i: nat, len: nat, buf: seq<bv8>): (g: Gathered)
    requires Shrinks(search) && len <= |buf|
    ensures |g.buf| == |buf|
    decreases |script|
  {
    var s := search(script, v);
    if !s.found || len < 8 * (i + 1) then Gathered(i, buf, s.events, s.consumed)
    else
      var valid := RomCrcValid(s.state.address);
      var g := Collect(search, Drop(script, s.consumed), s.state,
                       if valid then (i + 1) % 256 else i, len,
                       if valid then Put(buf, i, s.state.address) else buf);
      g.(events := s.events + g.events, consumed := s.consumed + g.consumed)
  }

  /** `memcpy(&buf[8 * j], address, 8)`. */
  method CopyAddress(buf: array<bv8>, j: nat, address: array<bv8>)
    requires address.Length == 8 && 8 * j + 8 <= buf.Length && buf != address
    modifies buf
    ensures buf[..] == Put(old(buf[..]), j, address[..])
  {
    forall k | 0 <= k < 8 {
      buf[8 * j + k] := address[k];
    }
    assert forall n | 0 <= n < buf.Length :: buf[..][n] == Put(old(buf[..]), j, address[..])[n];
  }

  /** The loop of `Search` has produced `t` and `s` from `t0` and `s0` and will end
      with `goal` once `rest` is done. */
  ghost predicate Pending(goal: Gathered, rest: Gathered, t0: seq<Event>, t: seq<Event>, s0: seq<bool>, s: seq<bool>) {
    && goal.found == rest.found && goal.buf == rest.buf
    && t0 + goal.events == t + rest.events
    && Drop(s0, goal.consumed) == Drop(s, rest.consumed)
  }

  /** The tail of a pass that found an address with room for it: a valid address is
      copied to block i and counted. */
  method KeepValid(state: SearchState, buf: array<bv8>, i: nat) returns (next: nat)
    requires i < 256 && 8 * i + 8 <= buf.Length && state.Valid() && state.address != buf
    modifies buf
    ensures var valid := RomCrcValid(state.address[..]);
      && next == (if valid then (i + 1) % 256 else i)
      && buf[..] == if valid then Put(old(buf[..]), i, state.address[..]) else old(buf[..])
  {
    next := i;
    var ok := CheckRomCrc(state);
    if ok {
      CopyAddress(buf, i, state.address);
      next := (i + 1) % 256;
    }
  }

  /** One pass of the loop of `ds18b20_search`: the search, the capacity test, and
      for a valid address the copy and the count.  `stop` says the loop ends here. */
  method CollectRound(bus: Bus, state: SearchState, buf: array<bv8>, i: nat, len: nat, rule: ReplayRule,
                      ghost search: Searcher) returns (stop: bool, next: nat)
    requires search == OnewireSearches(rule) && i < 256 && len <= buf.Length
    requires state.Valid() && state.address != buf
    modifies bus, state, state.address, buf
    ensures next < 256
    ensures var g := Collect(search, old(bus.script), old(state.Snapshot()), i, len, old(buf[..]));
      if stop then
        && next == i && g.found == i && g.buf == buf[..]
        && old(bus.trace) + g.events == bus.trace && Drop(old(bus.script), g.consumed) == bus.script
      else
        && |bus.script| < |old(bus.script)|
        && Pending(g, Collect(search, bus.script, state.Snapshot(), next, len, buf[..]),
                   old(bus.trace), bus.trace, old(bus.script), bus.script)
  {
    ghost var v := state.Snapshot();
    ghost var r := SearchStep(rule, SearchRom, bus.script, v);
    assert search(bus.script, v) == r;
    FoundConsumes(rule, SearchRom, bus.script, v);
    var more := OnewireSearch(bus, state, rule);
    if !more || len < 8 * (i + 1) {
      return true, i;
    }
    next := KeepValid(state, buf, i);
    ghost var g1 := Collect(search, bus.script, state.Snapshot(), next, len, buf[..]);
    assert Collect(search, old(bus.script), v, i, len, old(buf[..]))
        == g1.(events := r.events + g1.events, consumed := r.consumed + g1.consumed);
    DropDrop(old(bus.script), r.consumed, g1.consumed);
    Concat3(old(bus.trace), r.events, g1.events);
    stop := false;
  }

  /** `ds18b20_search`: a fresh search state, then searches until one finds nothing
      or the next block would not fit in len bytes.  The `uint8_t` count is a nat
      below 256 whose increment wraps explicitly. */
  method Search(bus: Bus, buf: array<bv8>, len: nat, rule: ReplayRule) returns (found: nat)
    requires len <= buf.Length
    modifies bus, buf
    ensures var g := Collect(OnewireSearches(rule), old(bus.script), View(-1, false, [0, 0, 0, 0, 0, 0, 0, 0]), 0, len, old(buf[..]));
      && found < 256 && found == g.found && buf[..] == g.buf
      && bus.trace == old(bus.trace) + g.events && bus.script == Drop(old(bus.script), g.consumed)
  {
    var state := new SearchState();
    var i: nat := 0;  // uint8_t in the source: the increment wraps
    ghost var search := OnewireSearches(rule);
    ghost var goal := Collect(search, bus.script, state.Snapshot(), 0, len, buf[..]);
    while true
      invariant i < 256 && state.Valid() && fresh(state.address)
      invariant Pending(goal, Collect(search, bus.script, state.Snapshot(), i, len, buf[..]),
                        old(bus.trace), bus.trace, old(bus.script), bus.script)
      decreases |bus.script|
    {
      var stop;
      stop, i := CollectRound(bus, state, buf, i, len, rule, search);
      if stop {
        found := i;
        return;
      }
    }
  }

  lemma PutBlock(buf: seq<bv8>, i: nat, a: Address, j: nat)
    requires 8 * i + 8 <= |buf| && 8 * j + 8 <= |buf|
    ensures Block(Put(buf, i, a), j) == if j == i then a else Block(buf, j)
  {
    var r := Put(buf, i, a);
    if j < i {
      assert r[8 * j..8 * j + 8] == buf[..8 * i][8 * j..8 * j + 8];
    } else if i < j {
      assert r[8 * j..8 * j + 8] == buf[8 * i + 8..][8 * (j - i - 1)..8 * (j - i)];
    } else {
      assert r[8 * j..8 * j + 8] == a;
    }
  }

  /** With len below 2048 the 8-bit count never wraps: the count only grows, and
      the blocks it counts all fit in len bytes. */
  lemma {:induction false} CollectBound(search: Searcher, script: seq<bool>, v: View, i: nat, len: nat, buf: seq<bv8>)
    requires Shrinks(search) && len <= |buf| && len < 2048 && 8 * i <= len
    ensures var g := Collect(search, script, v, i, len, buf);
      i <= g.found && 8 * g.found <= len
    decreases |script|
  {
    var s := search(script, v);
    if s.found && 8 * (i + 1) <= len {
      var valid := RomCrcValid(s.state.address);
      var i' := if valid then (i + 1) % 256 else i;
      assert i' == if valid then i + 1 else i;
      CollectBound(search, Drop(script, s.consumed), s.state, i', len,
                   if valid then Put(buf, i, s.state.address) else buf);
    }
  }

  /** Every block the count covers holds an address whose CRC is valid. */
  lemma {:induction false} CollectValid(search: Searcher, script: seq<bool>, v: View, i: nat, len: nat, buf: seq<bv8>)
    requires Shrinks(search) && len <= |buf| && len < 2048 && 8 * i <= len
    requires forall j | 0 <= j < i :: RomCrcValid(Block(buf, j))
    ensures var g := Collect(search, script, v, i, len, buf);
      8 * g.found <= len && forall j | 0 <= j < g.found :: RomCrcValid(Block(g.buf, j))
    decreases |script|
  {
    var s := search(script, v);
    if s.found && 8 * (i + 1) <= len {
      var a := s.state.address;
      if RomCrcValid(a) {
        assert (i + 1) % 256 == i + 1;
        PutValid(buf, i, a);
        CollectValid(search, Drop(script, s.consumed), s.state, i + 1, len, Put(buf, i, a));
      } else {
        CollectValid(search, Drop(script, s.consumed), s.state, i, len, buf);
      }
    }
  }

  lemma PutValid(buf: seq<bv8>, i: nat, a: Address)
    requires 8 * i + 8 <= |buf| && RomCrcValid(a)
    requires forall j | 0 <= j < i :: RomCrcValid(Block(buf, j))
    ensures forall j | 0 <= j < i + 1 :: RomCrcValid(Block(Put(buf, i, a), j))
  {
    forall j | 0 <= j < i + 1
      ensures RomCrcValid(Block(Put(buf, i, a), j))
    {
      PutBlock(buf, i, a, j);
    }
  }

  /** The blocks copied before the call are kept, and nothing from the end of the
      last counted block on is written. */
  lemma {:induction false} CollectKeeps(search: Searcher, script: seq<bool>, v: View, i: nat, len: nat, buf: seq<bv8>)
    requires Shrinks(search) && len <= |buf| && len < 2048 && 8 * i <= len
    ensures var g := Collect(search, script, v, i, len, buf);
      forall k | 0 <= k < |buf| && (k < 8 * i || 8 * g.found <= k) :: g.buf[k] == buf[k]
    decreases |script|
  {
    var s := search(script, v);
    if s.found && 8 * (i + 1) <= len {
      var a := s.state.address;
      if RomCrcValid(a) {
        assert (i + 1) % 256 == i + 1;
        CollectKeeps(search, Drop(script, s.consumed), s.state, i + 1, len, Put(buf, i, a));
        CollectBound(search, Drop(script, s.consumed), s.state, i + 1, len, Put(buf, i, a));
      } else {
        CollectKeeps(search, Drop(script, s.consumed), s.state, i, len, buf);
        CollectBound(search, Drop(script, s.consumed), s.state, i, len, buf);
      }
    }
  }

  /** The capacity test comes after the search: a search is made, and its slots are
      on the bus, even when the buffer has no room for what it finds. */
  lemma FullBufferStillSearches(search: Searcher, script: seq<bool>, v: View, i: nat, len: nat, buf: seq<bv8>)
    requires Shrinks(search) && len <= |buf| && len < 8 * (i + 1)
    ensures var g := Collect(search, script, v, i, len, buf);
      var s := search(script, v);
      g.found == i && g.buf == buf && g.events == s.events && g.consumed == s.consumed
  {
  }
}
