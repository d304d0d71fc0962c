/** The foreground half of main.c as values: the EEPROM slot map, the command
    language `loop()` understands, the replies it prints, and the accumulation of
    received bytes into command lines.  The Controller module's methods are proved
    to perform these functions. */
module Commands {
  import opened Stepper
  import opened DecimalText

  /** `DOWNSAMPLE_BITS`: positions are kept in sixteenths of a reported step. */
  const DownsampleBits: nat := 4
  const Scale: nat := 16

  /** `sizeof(command_buffer)`. */
  const Capacity: nat := 16

  /** The size of the `output` buffer `snprintf` formats the status into. */
  const OutputSize: nat := 128

  const Ack: string := "$\r\n"
  const Nak: string := "?\r\n"

  /** A channel number, as the first character of a command names it. */
  type ChannelId = c: nat | c == 1 || c == 2 witness 1

  // ---------------------------------------------------------------------------
  // EEPROM

  /** The EEPROM as a map from byte address to the `int32_t` stored there as a
      dword.  An address never written holds the erased pattern 0xFFFFFFFF, which
      reads back as -1. */
  type Eeprom = map<nat, int>

  /** The address `update_eeprom`/`read_eeprom` use for a channel. */
  function SlotOf(channel: ChannelId): nat {
    if channel == 1 then 0 else 4
  }

  /** `read_eeprom(channel)`. */
  function ReadSlot(e: Eeprom, channel: ChannelId): int {
    if SlotOf(channel) in e then e[SlotOf(channel)] else -1
  }

  /** `update_eeprom(channel, target)`. */
  function UpdateSlot(e: Eeprom, channel: ChannelId, target: int): (r: Eeprom)
    ensures ReadSlot(r, channel) == target
    ensures forall a | a in e && a != SlotOf(channel) :: a in r && r[a] == e[a]
  {
    e[SlotOf(channel) := target]
  }

  /** The two slots are distinct, so updating one channel's leaves the other's. */
  lemma SlotsApart(e: Eeprom, channel: ChannelId, other: ChannelId, target: int)
    requires channel != other
    ensures ReadSlot(UpdateSlot(e, channel, target), other) == ReadSlot(e, other)
  {
  }

  // ---------------------------------------------------------------------------
  // The state the foreground sees

  /** Both channels, the EEPROM and everything printed so far. */
  datatype Host = Host(ch1: Channel, ch2: Channel, eeprom: Eeprom, replies: seq<string>)

  function Axis(h: Host, channel: ChannelId): Channel {
    if channel == 1 then h.ch1 else h.ch2
  }

  function WithAxis(h: Host, channel: ChannelId, c: Channel): Host {
    if channel == 1 then h.(ch1 := c) else h.(ch2 := c)
  }

  /** The `[12]S` critical section: target := current, persisted. */
  function Stopped(h: Host, channel: ChannelId): Host {
    var c := Axis(h, channel);
    WithAxis(h, channel, c.(target := c.current)).(eeprom := UpdateSlot(h.eeprom, channel, c.current))
  }

  /** The `[12]Z` critical section: target := current := 0, persisted. */
  function Zeroed(h: Host, channel: ChannelId): Host {
    var c := Axis(h, channel);
    WithAxis(h, channel, c.(target := 0, current := 0)).(eeprom := UpdateSlot(h.eeprom, channel, 0))
  }

  /** The `[12][+-]digits` critical section: a new target, persisted. */
  function Retargeted(h: Host, channel: ChannelId, target: int): Host {
    var c := Axis(h, channel);
    WithAxis(h, channel, c.(target := target)).(eeprom := UpdateSlot(h.eeprom, channel, target))
  }

  function Replied(h: Host, text: string): Host {
    h.(replies := h.replies + [text])
  }

  // ---------------------------------------------------------------------------
  // Commands

  datatype Command =
    | Status                                  // ?
    | Stop(channel: ChannelId)                // 1S, 2S
    | Zero(channel: ChannelId)                // 1Z, 2Z
    | Move(channel: ChannelId, value: int)    // 1+123, 2-0042, ...
    | Malformed                               // answered with "?\r\n"
    | Unanswered                              // a 1/2 command of no known form

  /** How the branches of `loop()` classify a non-empty command line. */
  function Parse(line: string): Command
    requires 0 < |line|
  {
    if |line| == 1 && line[0] == '?' then Status
    else if line[0] == '1' || line[0] == '2' then
      var channel: ChannelId := if line[0] == '1' then 1 else 2;
      if |line| == 2 && line[1] == 'S' then Stop(channel)
      else if |line| == 2 && line[1] == 'Z' then Zero(channel)
      else if |line| > 2 && (line[1] == '+' || line[1] == '-') then
        if |line| <= 9 && AllDigits(line[2..]) then Move(channel, SignedValue(line[1..])) else Malformed
      else Unanswered
    else Malformed
  }

  /** The status line: both targets and positions, shifted right by four bits (an
      arithmetic shift, so rounded toward minus infinity), each as `%+07ld`. */
  function StatusText(h: Host): string {
    "T1=" + SignedField(h.ch1.target / Scale) + ",C1=" + SignedField(h.ch1.current / Scale)
      + ",T2=" + SignedField(h.ch2.target / Scale) + ",C2=" + SignedField(h.ch2.current / Scale) + "\r\n"
  }

  /** What `loop()` does with a complete command line. */
  function Respond(h: Host, line: string): Host
    requires 0 < |line|
  {
    match Parse(line)
    case Status => Replied(h, StatusText(h))
    case Stop(channel) => Replied(Stopped(h, channel), Ack)
    case Zero(channel) => Replied(Zeroed(h, channel), Ack)
    case Move(channel, value) => Replied(Retargeted(h, channel, value * Scale), Ack)
    case Malformed => Replied(h, Nak)
    case Unanswered => h
  }

  // ---------------------------------------------------------------------------
  // Line accumulation

  /** What `usb_read` returns: a received byte, or a negative value for none. */
  type UsbValue = v: int | v < 256

  /** The foreground state: the host side plus the line received so far,
      `command_buffer[0 .. command_length)`. */
  datatype Foreground = Foreground(host: Host, line: string)

  /** One pass of the `loop()` body for a received character: CR or LF ends a
      non-empty line; any other character, or CR/LF on an empty line, is stored
      while there is room (the corrected store, see `StoreAsWritten`). */
  function Receive(f: Foreground, c: char): Foreground {
    if |f.line| > 0 && (c == '\r' || c == '\n') then Foreground(Respond(f.host, f.line), [])
    else if |f.line| < Capacity then f.(line := f.line + [c])
    else f
  }

  /** `loop()`: the available values in order, until one is negative. */
  function Feed(f: Foreground, input: seq<UsbValue>): Foreground
    decreases |input|
  {
    if input == [] || input[0] < 0 then f
    else Feed(Receive(f, input[0] as char), input[1..])
  }

  /** The characters of a line with no CR or LF in it. */
  predicate Plain(text: seq<UsbValue>) {
    forall i | 0 <= i < |text| :: 0 <= text[i] && text[i] != '\r' as int && text[i] != '\n' as int
  }

  function Chars(text: seq<UsbValue>): (s: string)
    requires forall i | 0 <= i < |text| :: 0 <= text[i]
    ensures |s| == |text|
  {
    if text == [] then [] else Chars(text[..|text| - 1]) + [text[|text| - 1] as char]
  }

  // ---------------------------------------------------------------------------
  // The store at line 174 as written

  /** Memory around `command_buffer` as line 174 writes it: cells from 0 on, where
      cell 16 is already past the 16-byte array. */
  datatype Memory = Memory(cells: map<nat, char>, length: nat)

  /** `command_buffer[command_length] = value; if (command_length < 16) command_length++;` */
  function StoreAsWritten(m: Memory, c: char): Memory {
    Memory(m.cells[m.length := c], if m.length < Capacity then m.length + 1 else m.length)
  }

  function StoreAllAsWritten(m: Memory, text: string): Memory
    decreases |text|
  {
    if text == [] then m else StoreAllAsWritten(StoreAsWritten(m, text[0]), text[1..])
  }

  // ---------------------------------------------------------------------------
  // Properties of the command language

  /** `[12][+-]...` is a move exactly when it has at most 9 characters and digits
      from index 2 on; otherwise it is answered with "?\r\n". */
  lemma MoveForm(line: string)
    requires 2 < |line| && (line[0] == '1' || line[0] == '2') && (line[1] == '+' || line[1] == '-')
    ensures Parse(line).Move? <==> |line| <= 9 && AllDigits(line[2..])
    ensures !Parse(line).Move? ==> Parse(line) == Malformed
  {
  }

  /** An accepted move has at most seven digits, so `target << DOWNSAMPLE_BITS`
      cannot overflow an `int32_t`. */
  lemma MoveInRange(line: string)
    requires 0 < |line| && Parse(line).Move?
    ensures -10_000_000 < Parse(line).value < 10_000_000
    ensures Int32(Parse(line).value * Scale)
  {
    var digits := line[2..];
    ValueBelow(digits);
    Pow10Monotone(|digits|, 7);
    assert line[1..][1..] == digits;
  }

  /** The text of a move command for a value of at most seven digits. */
  function MoveLine(channel: ChannelId, value: int): string {
    [if channel == 1 then '1' else '2'] + (if value < 0 then "-" else "+") + Digits(if value < 0 then -value else value)
  }

  /** Every value of at most seven digits can be commanded: its move line parses
      back to it. */
  lemma MoveRoundTrip(channel: ChannelId, value: int)
    requires -10_000_000 < value < 10_000_000
    ensures Parse(MoveLine(channel, value)) == Move(channel, value)
  {
    var m := if value < 0 then -value else value;
    var line := MoveLine(channel, value);
    DigitsAtMost(m, 7);
    DigitsRoundTrip(m);
    assert line[2..] == Digits(m);
    assert line[1..][1..] == Digits(m);
  }

  /** After a move, the status line reports the commanded value as the target, and
      that field reads back through `atol` as the value. */
  lemma MoveThenStatus(h: Host, channel: ChannelId, value: int)
    ensures var h' := Respond(h, MoveLine(channel, value));
      -10_000_000 < value < 10_000_000 ==>
        && Axis(h', channel).target / Scale == value
        && SignedValue(SignedField(Axis(h', channel).target / Scale)) == value
  {
    if -10_000_000 < value < 10_000_000 {
      MoveRoundTrip(channel, value);
      SignedFieldRoundTrip(value);
    }
  }

  /** A `%+07ld` field of a value below 10^9 in magnitude has at most ten characters. */
  lemma FieldWidth(v: int)
    requires -1_000_000_000 < v < 1_000_000_000
    ensures |SignedField(v)| <= 10
  {
    DigitsAtMost(if v < 0 then -v else v, 9);
  }

  /** The status line of 32-bit positions fits the 128-byte `output` buffer, so
      `snprintf` never truncates it. */
  lemma StatusFits(h: Host)
    requires Int32(h.ch1.target) && Int32(h.ch1.current) && Int32(h.ch2.target) && Int32(h.ch2.current)
    ensures |StatusText(h)| < OutputSize
  {
    FieldWidth(h.ch1.target / Scale);
    FieldWidth(h.ch1.current / Scale);
    FieldWidth(h.ch2.target / Scale);
    FieldWidth(h.ch2.current / Scale);
  }

  /** Each channel's EEPROM slot holds its target. */
  predicate Persisted(h: Host) {
    ReadSlot(h.eeprom, 1) == h.ch1.target && ReadSlot(h.eeprom, 2) == h.ch2.target
  }

  /** Every command that changes a target writes the same value to the channel's
      slot, so the slots keep holding the targets. */
  lemma RespondPersists(h: Host, line: string)
    requires 0 < |line| && Persisted(h)
    ensures Persisted(Respond(h, line))
  {
  }

  /** ... and so do whole runs of received bytes. */
  lemma {:induction false} FeedPersists(f: Foreground, input: seq<UsbValue>)
    requires Persisted(f.host)
    ensures Persisted(Feed(f, input).host)
    decreases |input|
  {
    if input != [] && input[0] >= 0 {
      var c := input[0] as char;
      if |f.line| > 0 && (c == '\r' || c == '\n') {
        RespondPersists(f.host, f.line);
      }
      FeedPersists(Receive(f, c), input[1..]);
    }
  }

  /** `read_eeprom` returns a dword read back as `int32_t`, so every stored value an
      EEPROM can hand the firmware is a 32-bit value. */
  predicate Dwords(e: Eeprom) {
    forall a | a in e :: Int32(e[a])
  }

  /** The four positions are `int32_t` values and the slots hold dwords. */
  predicate HostInRange(h: Host) {
    && Int32(h.ch1.target) && Int32(h.ch1.current)
    && Int32(h.ch2.target) && Int32(h.ch2.current)
    && Dwords(h.eeprom)
  }

  /** No command takes a position or a slot out of `int32_t`: a stop copies a position,
      a zero writes 0, and a move's scaled target is bounded by its eight digits. */
  lemma RespondInRange(h: Host, line: string)
    requires 0 < |line| && HostInRange(h)
    ensures HostInRange(Respond(h, line))
  {
    if Parse(line).Move? {
      MoveInRange(line);
    }
  }

  /** ... nor does any run of received bytes. */
  lemma {:induction false} FeedInRange(f: Foreground, input: seq<UsbValue>)
    requires HostInRange(f.host)
    ensures HostInRange(Feed(f, input).host)
    decreases |input|
  {
    if input != [] && input[0] >= 0 {
      var c := input[0] as char;
      if |f.line| > 0 && (c == '\r' || c == '\n') {
        RespondInRange(f.host, f.line);
      }
      FeedInRange(Receive(f, c), input[1..]);
    }
  }

  /** Only replies and the two channels' targets, positions and slots change. */
  lemma RespondKeepsPins(h: Host, line: string)
    requires 0 < |line|
    ensures var h' := Respond(h, line);
      && h'.ch1.stepPin == h.ch1.stepPin && h'.ch1.dirPin == h.ch1.dirPin
      && h'.ch2.stepPin == h.ch2.stepPin && h'.ch2.dirPin == h.ch2.dirPin
  {
  }

  /** A reply is printed unless the line is a `1`/`2` command of no known form. */
  lemma Replies(h: Host, line: string)
    requires 0 < |line|
    ensures var h' := Respond(h, line);
      (|h'.replies| == |h.replies| + 1) <==> Parse(line) != Unanswered
    ensures Parse(line) == Unanswered ==> Respond(h, line) == h
  {
  }

  // ---------------------------------------------------------------------------
  // Properties of line accumulation

  /** A CR LF pair ends a line with the CR; the LF then arrives on an empty buffer and
      is stored, so the next command starts with '\n' and is refused. */
  lemma CrLfLeavesNewline(h: Host)
    ensures var f := Feed(Foreground(h, []), ['?' as int, '\r' as int, '\n' as int]);
      && f.line == "\n" && f.host == Replied(h, StatusText(h))
      && Feed(f, ['1' as int, 'S' as int, '\r' as int]).host == Replied(f.host, Nak)
  {
    FeedThree(Foreground(h, []), '?', '\r', '\n');
    StatusThenNewline(h);
    var f := Foreground(Replied(h, StatusText(h)), "\n");
    FeedThree(f, '1', 'S', '\r');
    NewlineLineRefused(f.host);
  }

  /** The same for any line: with CR LF endings a command of up to sixteen plain
      characters is answered at its CR, and the LF is left as the next line's first
      character. */
  lemma CrLfAfterLine(h: Host, text: seq<UsbValue>)
    requires 0 < |text| <= Capacity && Plain(text)
    ensures Feed(Foreground(h, []), text + ['\r' as int, '\n' as int])
         == Foreground(Respond(h, Chars(text)), "\n")
  {
    var f := Foreground(h, []);
    var ending: seq<UsbValue> := ['\r' as int, '\n' as int];
    FeedConcat(f, text, ending);
    FeedPlain(f, text);
    var g := Foreground(h, Chars(text));
    assert Feed(f, text) == g by {
      assert f.line + Chars(text) == Chars(text);
    }
    assert ending[1..] == ['\n' as int] && ending[1..][1..] == [];
    var g1 := Receive(g, '\r');
    assert g1 == Foreground(Respond(h, Chars(text)), []);
    assert Feed(g, ending) == Feed(g1, ending[1..]);
    assert Feed(g1, ending[1..]) == Feed(Receive(g1, '\n'), []);
  }

  /** A line that starts with LF is refused, whatever follows: so with CR LF endings
      every command after the first is answered "?". */
  lemma NewlineFirstRefused(h: Host, line: string)
    requires 0 < |line| && line[0] == '\n'
    ensures Respond(h, line) == Replied(h, Nak)
  {
  }

  lemma {:induction false} FeedConcat(f: Foreground, a: seq<UsbValue>, b: seq<UsbValue>)
    requires forall i | 0 <= i < |a| :: 0 <= a[i]
    ensures Feed(f, a + b) == Feed(Feed(f, a), b)
    decreases |a|
  {
    if a == [] {
      assert a + b == b;
    } else {
      assert (a + b)[0] == a[0] && (a + b)[1..] == a[1..] + b;
      FeedConcat(Receive(f, a[0] as char), a[1..], b);
    }
  }

  lemma StatusThenNewline(h: Host)
    ensures Receive(Receive(Receive(Foreground(h, []), '?'), '\r'), '\n')
         == Foreground(Replied(h, StatusText(h)), "\n")
  {
    var f1 := Receive(Foreground(h, []), '?');
    assert f1.line == "?";
    assert Respond(h, "?") == Replied(h, StatusText(h));
  }

  lemma NewlineLineRefused(h: Host)
    ensures Receive(Receive(Receive(Foreground(h, "\n"), '1'), 'S'), '\r').host == Replied(h, Nak)
  {
    var g2 := Receive(Receive(Foreground(h, "\n"), '1'), 'S');
    assert g2.line == "\n1S";
    assert Parse(g2.line) == Malformed;
  }

  lemma FeedThree(f: Foreground, a: char, b: char, c: char)
    requires a as int < 256 && b as int < 256 && c as int < 256
    ensures Feed(f, [a as int, b as int, c as int]) == Receive(Receive(Receive(f, a), b), c)
  {
    var input: seq<UsbValue> := [a as int, b as int, c as int];
    assert (a as int) as char == a && (b as int) as char == b && (c as int) as char == c;
    var f1 := Receive(f, a);
    var f2 := Receive(f1, b);
    assert input[1..] == [b as int, c as int];
    assert Feed(f, input) == Feed(f1, input[1..]);
    assert input[1..][1..] == [c as int];
    assert Feed(f1, input[1..]) == Feed(f2, input[1..][1..]);
    assert input[1..][1..][1..] == [];
    assert Feed(f2, input[1..][1..]) == Feed(Receive(f2, c), []);
  }

  function Min(a: nat, b: nat): nat {
    if a < b then a else b
  }

  /** Characters other than CR and LF accumulate until the buffer is full; later
      ones are dropped. */
  lemma {:induction false} FeedPlain(f: Foreground, text: seq<UsbValue>)
    requires |f.line| <= Capacity && Plain(text)
    ensures Feed(f, text) == f.(line := (f.line + Chars(text))[..Min(Capacity, |f.line| + |text|)])
    decreases |text|
  {
    if text != [] {
      var c := text[0] as char;
      var f1 := Receive(f, c);
      assert f1 == f.(line := (f.line + [c])[..Min(Capacity, |f.line| + 1)]);
      FeedPlain(f1, text[1..]);
      Chars1(text);
      var all := f.line + Chars(text);
      assert f.line + [c] + Chars(text[1..]) == all;
      if |f.line| < Capacity {
        assert f1.line + Chars(text[1..]) == all;
      } else {
        assert f1.line == f.line;
        assert (f1.line + Chars(text[1..]))[..Capacity] == f.line == all[..Capacity];
      }
    }
  }

  lemma {:induction false} Chars1(text: seq<UsbValue>)
    requires 0 < |text| && forall i | 0 <= i < |text| :: 0 <= text[i]
    ensures Chars(text) == [text[0] as char] + Chars(text[1..])
    decreases |text|
  {
    if 1 < |text| {
      var n := |text| - 1;
      assert text[..n][1..] == text[1..][..n - 1];
      Chars1(text[..n]);
    } else {
      assert text[..0] == [];
    }
  }

  /** Line 174 as written: a line of more than sixteen characters makes the store
      write cell 16, one past the end of `command_buffer`. */
  lemma {:induction false} OverrunAsWritten(m: Memory, text: string)
    requires m.length <= Capacity && m.length + |text| > Capacity
    ensures Capacity in StoreAllAsWritten(m, text).cells
    decreases |text|
  {
    var m1 := StoreAsWritten(m, text[0]);
    if m.length == Capacity {
      StoredStays(m1, text[1..], Capacity);
    } else {
      OverrunAsWritten(m1, text[1..]);
    }
  }

  lemma {:induction false} StoredStays(m: Memory, text: string, k: nat)
    requires k in m.cells
    ensures k in StoreAllAsWritten(m, text).cells
    decreases |text|
  {
    if text != [] {
      StoredStays(StoreAsWritten(m, text[0]), text[1..], k);
    }
  }

  /** The seventeen-character line that shows it. */
  lemma OverrunExample()
    ensures Capacity in StoreAllAsWritten(Memory(map[], 0), "0123456789ABCDEFG").cells
  {
    OverrunAsWritten(Memory(map[], 0), "0123456789ABCDEFG");
  }

  /** The corrected store keeps the line inside the buffer, and inside the buffer it
      holds what line 174 as written leaves there: the two differ only in the write
      past the end. */
  lemma {:induction false} CorrectedStoreAgrees(m: Memory, f: Foreground, text: seq<UsbValue>)
    requires m.length == |f.line| <= Capacity && Plain(text)
    requires forall k | 0 <= k < m.length :: k in m.cells && m.cells[k] == f.line[k]
    ensures var f' := Feed(f, text);
      var m' := StoreAllAsWritten(m, Chars(text));
      && |f'.line| <= Capacity && m'.length == |f'.line|
      && forall k | 0 <= k < m'.length :: k in m'.cells && m'.cells[k] == f'.line[k]
    decreases |text|
  {
    if text != [] {
      var c := text[0] as char;
      Chars1(text);
      assert Chars(text)[1..] == Chars(text[1..]);
      CorrectedStoreAgrees(StoreAsWritten(m, c), Receive(f, c), text[1..]);
    }
  }
}
