/** The 1-Wire line as the bus master sees it: slot-level primitives (reset, write
    slot, read slot) and the LSB-first byte transfers built on them.

    The line itself is an oracle: `script` lists the levels the line will show at the
    master's successive samples (the presence sample of a reset, the sample of a read
    slot).  Once the script is spent nobody drives the line and the pull-up keeps it
    high.  Every slot the master generates is appended to `trace`, so each operation is
    a checkable transformation of (script, trace). */
module OneWireBus {

  /** One slot on the line, together with what the master observed in it. */
  datatype Event =
    | Reset(presence: bool)   // reset pulse; presence = line pulled low 70 us after release
    | WriteBit(one: bool)     // Write-1 slot (short low pulse) or Write-0 slot (long low pulse)
    | ReadBit(high: bool)     // read slot and the level sampled in it
    | Wait(ms: nat)           // millisecond busy-wait between commands

  /** The level shown at the i-th sample of a script (high once it is spent). */
  function Level(script: seq<bool>, i: nat): bool {
    if i < |script| then script[i] else true
  }

  /** The script left after n samples. */
  function Drop(script: seq<bool>, n: nat): seq<bool> {
    if n <= |script| then script[n..] else []
  }

  lemma LevelDrop(script: seq<bool>, n: nat, i: nat)
    ensures Level(Drop(script, n), i) == Level(script, n + i)
  {
  }

  lemma DropDrop(script: seq<bool>, m: nat, n: nat)
    ensures Drop(Drop(script, m), n) == Drop(script, m + n)
  {
  }

  /** The first n levels of a script. */
  function Levels(script: seq<bool>, n: nat): (r: seq<bool>)
    ensures |r| == n
  {
    if n == 0 then [] else Levels(script, n - 1) + [Level(script, n - 1)]
  }

  lemma {:induction false} LevelsAt(script: seq<bool>, n: nat, i: nat)
    requires i < n
    ensures Levels(script, n)[i] == Level(script, i)
  {
    if i < n - 1 { LevelsAt(script, n - 1, i); }
  }

  /** The mask of bit k: 0x01 shifted left k times, which is 0 once k reaches 8
      (`MaskShift` shows each entry is the previous one shifted left). */
  function Mask(k: nat): bv8 {
    if k == 0 then 1 else if k == 1 then 2 else if k == 2 then 4 else if k == 3 then 8
    else if k == 4 then 16 else if k == 5 then 32 else if k == 6 then 64 else if k == 7 then 128
    else 0
  }

  /** The masks are built as `onewire_read` and `onewire_write` build them, by a left
      shift per bit. */
  lemma MaskShift(k: nat)
    ensures Mask(k + 1) == Mask(k) << 1
  {
  }

  /** Bit k (k = 0 is the least significant) of a byte. */
  function Bit(b: bv8, k: nat): bool
    requires k < 8
  {
    b & Mask(k) != 0
  }

  /** The byte whose low |bits| bits are `bits`, least significant first, and whose other bits are clear. */
  function ByteOf(bits: seq<bool>): bv8
    requires |bits| <= 8
  {
    if bits == [] then 0
    else ByteOf(bits[..|bits| - 1]) | (if bits[|bits| - 1] then Mask(|bits| - 1) else 0)
  }

  /** The eight bits of a byte, least significant first. */
  function Bits(b: bv8): (r: seq<bool>)
    ensures |r| == 8
  {
    BitsBelow(b, 8)
  }

  /** Bits 0 .. n-1 of a byte. */
  function BitsBelow(b: bv8, n: nat): (r: seq<bool>)
    requires n <= 8
    ensures |r| == n
  {
    if n == 0 then [] else BitsBelow(b, n - 1) + [Bit(b, n - 1)]
  }

  lemma {:induction false} BitsAt(b: bv8, n: nat, k: nat)
    requires k < n <= 8
    ensures BitsBelow(b, n)[k] == Bit(b, k)
  {
    if k < n - 1 { BitsAt(b, n - 1, k); }
  }

  /** The write slots for the low n bits of a byte, as `onewire_write` emits them:
      the lowest bit, then the rest of the byte shifted right by one. */
  function SlotsOf(byte: bv8, n: nat): (r: seq<Event>)
    ensures |r| == n
  {
    if n == 0 then [] else [WriteBit(byte & 1 != 0)] + SlotsOf(byte >> 1, n - 1)
  }

  /** The write slots `onewire_write` produces for a byte: LSB first, a Write-1 slot for each set bit. */
  function WriteEvents(b: bv8): (r: seq<Event>)
    ensures |r| == 8
  {
    SlotsOf(b, 8)
  }

  /** The read slots `onewire_read` performs when it returns b. */
  function ReadEvents(b: bv8): (r: seq<Event>)
    ensures |r| == 8
  {
    ReadSlots(Bits(b))
  }

  /** Read slots that sampled the given levels, in order. */
  function ReadSlots(levels: seq<bool>): (r: seq<Event>)
    ensures |r| == |levels|
  {
    if levels == [] then [] else ReadSlots(levels[..|levels| - 1]) + [ReadBit(levels[|levels| - 1])]
  }

  /** The write slots for a run of bytes, in order. */
  function Writes(bytes: seq<bv8>): (r: seq<Event>)
    ensures |r| == 8 * |bytes|
  {
    if bytes == [] then [] else Writes(bytes[..|bytes| - 1]) + WriteEvents(bytes[|bytes| - 1])
  }

  /** The read slots for a run of bytes, in order. */
  function Reads(bytes: seq<bv8>): (r: seq<Event>)
    ensures |r| == 8 * |bytes|
  {
    if bytes == [] then [] else Reads(bytes[..|bytes| - 1]) + ReadEvents(bytes[|bytes| - 1])
  }

  /** The byte eight read slots assemble from the first eight levels of a script. */
  function ByteFrom(script: seq<bool>): bv8 {
    ByteOf(Levels(script, 8))
  }

  /** The n bytes successive byte reads assemble from a script. */
  function BytesFrom(script: seq<bool>, n: nat): (r: seq<bv8>)
    ensures |r| == n
  {
    if n == 0 then [] else BytesFrom(script, n - 1) + [ByteFrom(Drop(script, 8 * (n - 1)))]
  }

  lemma Concat3<T>(a: seq<T>, b: seq<T>, c: seq<T>)
    ensures a + b + c == a + (b + c)
  {
  }

  lemma Concat4<T>(a: seq<T>, b: seq<T>, c: seq<T>, d: seq<T>)
    ensures a + b + c + d == a + (b + c + d)
  {
  }

  /** The bits carried by a stretch of write slots (other events carry none). */
  function WrittenBits(events: seq<Event>): seq<bool> {
    if events == [] then []
    else
      WrittenBits(events[..|events| - 1]) +
        match events[|events| - 1]
        case WriteBit(one) => [one]
        case _ => []
  }

  /** Distinct masks share no bit. */
  lemma MasksDisjoint(n: nat, k: nat)
    requires n < 8 && k < 8
    ensures (Mask(n) & Mask(k) != 0) == (n == k)
  {
  }

  /** Two bytes that agree on all eight bits are equal. */
  lemma BitsDetermineByte(x: bv8, y: bv8)
    requires forall k | 0 <= k < 8 :: Bit(x, k) == Bit(y, k)
    ensures x == y
  {
    assert Bit(x, 0) == Bit(y, 0) && Bit(x, 1) == Bit(y, 1) && Bit(x, 2) == Bit(y, 2) && Bit(x, 3) == Bit(y, 3);
    assert Bit(x, 4) == Bit(y, 4) && Bit(x, 5) == Bit(y, 5) && Bit(x, 6) == Bit(y, 6) && Bit(x, 7) == Bit(y, 7);
  }

  /** A bit of an or is set iff it is set in either operand. */
  lemma BitOr(x: bv8, y: bv8, k: nat)
    requires k < 8
    ensures Bit(x | y, k) == (Bit(x, k) || Bit(y, k))
  {
    var m := Mask(k);
    assert (x | y) & m == (x & m) | (y & m);
  }

  /** Bit k of the byte assembled from `bits` is bits[k] (or clear beyond them). */
  lemma {:induction false} BitOfByteOf(bits: seq<bool>, k: nat)
    requires |bits| <= 8 && k < 8
    ensures Bit(ByteOf(bits), k) == (k < |bits| && bits[k])
  {
    if bits != [] {
      var n := |bits| - 1;
      BitOfByteOf(bits[..n], k);
      var top: bv8 := if bits[n] then Mask(n) else 0;
      BitOr(ByteOf(bits[..n]), top, k);
      MasksDisjoint(n, k);
    }
  }

  /** Bit j of a byte shifted right by one is bit j + 1 of the byte. */
  lemma ShiftedBit(byte: bv8, j: nat)
    requires j < 7
    ensures Bit(byte >> 1, j) == Bit(byte, j + 1)
  {
    var m := Mask(j);
    assert Mask(j + 1) == m << 1;
    assert ((byte >> 1) & m != 0) == (byte & (m << 1) != 0);
  }

  /** Slot j of the write slots for a byte carries bit j of the byte. */
  lemma {:induction false} SlotsOfBits(byte: bv8, n: nat, j: nat)
    requires j < n <= 8
    ensures SlotsOf(byte, n)[j] == WriteBit(Bit(byte, j))
  {
    if j == 0 {
      assert Mask(0) == 1;
    } else {
      SlotsOfBits(byte >> 1, n - 1, j - 1);
      ShiftedBit(byte, j - 1);
    }
  }

  /** Assembling the eight bits of a byte gives the byte back, and the bits of an
      assembled byte are the bits it was assembled from. */
  lemma ByteBitsRoundTrip(b: bv8, bits: seq<bool>)
    requires |bits| == 8
    ensures ByteOf(Bits(b)) == b
    ensures Bits(ByteOf(bits)) == bits
  {
    forall k | 0 <= k < 8 ensures Bit(ByteOf(Bits(b)), k) == Bit(b, k) {
      BitOfByteOf(Bits(b), k);
      BitsAt(b, 8, k);
    }
    BitsDetermineByte(ByteOf(Bits(b)), b);
    forall k | 0 <= k < 8 ensures Bits(ByteOf(bits))[k] == bits[k] {
      BitOfByteOf(bits, k);
      BitsAt(ByteOf(bits), 8, k);
    }
  }

  /** Byte round trip on the wire: the bits a write of b puts on the line, read back by
      `onewire_read` (which assembles read slots LSB first), give b again. */
  lemma {:induction false} WriteThenReadByte(b: bv8)
    ensures WrittenBits(WriteEvents(b)) == Bits(b)
    ensures ByteOf(WrittenBits(WriteEvents(b))) == b
  {
    WrittenBitsPrefix(b, 8);
    assert WriteEvents(b)[..8] == WriteEvents(b);
    ByteBitsRoundTrip(b, Bits(b));
  }

  lemma {:induction false} WrittenBitsPrefix(b: bv8, n: nat)
    requires n <= 8
    ensures WrittenBits(WriteEvents(b)[..n]) == BitsBelow(b, n)
  {
    if n > 0 {
      WrittenBitsPrefix(b, n - 1);
      assert WriteEvents(b)[..n][..n - 1] == WriteEvents(b)[..n - 1];
      SlotsOfBits(b, 8, n - 1);
    }
  }

  /** The mask is 0 exactly once it has been shifted past bit 7. */
  lemma MaskZero(k: nat)
    requires k <= 8
    ensures (Mask(k) == 0) == (k == 8)
  {
  }

  /** The slots of a completed `onewire_read` are the read events of the byte it
      assembled. */
  lemma ReadComplete(script: seq<bool>, b: bv8)
    requires b == ByteOf(Levels(script, 8))
    ensures ReadSlots(Levels(script, 8)) == ReadEvents(b)
  {
    ByteBitsRoundTrip(b, Levels(script, 8));
  }

  /** What one iteration of the `onewire_read` loop relies on: reading level k
      extends both the assembled byte and the recorded slots by that level. */
  lemma ReadStep(script: seq<bool>, k: nat)
    requires k < 8
    ensures Level(script, k) == Level(Drop(script, k), 0)
    ensures ByteOf(Levels(script, k + 1))
         == if Level(script, k) then ByteOf(Levels(script, k)) | Mask(k) else ByteOf(Levels(script, k))
    ensures ReadSlots(Levels(script, k + 1))
         == ReadSlots(Levels(script, k)) + [ReadBit(Level(script, k))]
  {
    LevelDrop(script, k, 0);
    assert Levels(script, k + 1)[..k] == Levels(script, k);
    OrZero(ByteOf(Levels(script, k)));
  }

  lemma OrZero(x: bv8)
    ensures x | 0 == x
  {
  }

  class Bus {
    /** The levels the line will show at the master's next samples. */
    var script: seq<bool>
    /** Every slot generated so far. */
    var trace: seq<Event>

    constructor (levels: seq<bool>)
      ensures script == levels && trace == []
    {
      script := levels;
      trace := [];
    }

    /** `onewire_reset`: drive the line low for 480 us, release it, sample it 70 us
        later and stay in receive mode 460 us more.  A slave answers by holding the
        line low, so presence is a low sample. */
    method ResetPulse() returns (presence: bool)
      modifies this
      ensures presence == !Level(old(script), 0)
      ensures trace == old(trace) + [Reset(presence)]
      ensures script == Drop(old(script), 1)
    {
      presence := !Level(script, 0);
      trace := trace + [Reset(presence)];
      script := Drop(script, 1);
    }

    /** `onewire_write_bit`: a Write-1 slot (low 5 us, then released for 55 us)
        unless the value is zero, a Write-0 slot (low 55 us, 5 us recovery) if it is. */
    method WriteSlot(one: bool)
      modifies this`trace
      ensures trace == old(trace) + [WriteBit(one)]
    {
      trace := trace + [WriteBit(one)];
    }

    /** `onewire_read_bit`: pull low 1 us, release, sample 10 us later, wait out the slot. */
    method ReadSlot() returns (high: bool)
      modifies this
      ensures high == Level(old(script), 0)
      ensures trace == old(trace) + [ReadBit(high)]
      ensures script == Drop(old(script), 1)
    {
      high := Level(script, 0);
      trace := trace + [ReadBit(high)];
      script := Drop(script, 1);
    }

    /** `_delay_ms`: a millisecond wait between commands, recorded in the trace. */
    method DelayMs(ms: nat)
      modifies this`trace
      ensures trace == old(trace) + [Wait(ms)]
    {
      trace := trace + [Wait(ms)];
    }

    /** `onewire_write`: eight write slots, least significant bit first. */
    method WriteByte(b: bv8)
      modifies this`trace
      ensures trace == old(trace) + WriteEvents(b)
    {
      var byte := b;
      var i: nat := 8;
      while i != 0
        invariant i <= 8
        invariant trace + SlotsOf(byte, i) == old(trace) + WriteEvents(b)
      {
        WriteSlot(byte & 1 != 0);
        byte := byte >> 1;
        i := i - 1;
      }
    }

    /** The state of `onewire_read` after k samples of s0 from trace t0: the byte
        holds the first k levels and the slots are recorded. */
    ghost predicate Sampled(s0: seq<bool>, t0: seq<Event>, k: nat, b: bv8)
      reads this
    {
      && k <= 8 && b == ByteOf(Levels(s0, k))
      && script == Drop(s0, k) && trace == t0 + ReadSlots(Levels(s0, k))
    }

    /** One pass of the `onewire_read` loop: sample the line and, when it is high,
        set the bit of the current mask. */
    method ReadMasked(b: bv8, mask: bv8, ghost s0: seq<bool>, ghost t0: seq<Event>, ghost k: nat) returns (b': bv8)
      requires k < 8 && mask == Mask(k) && Sampled(s0, t0, k, b)
      modifies this
      ensures Sampled(s0, t0, k + 1, b')
    {
      ReadStep(s0, k);
      Concat3(t0, ReadSlots(Levels(s0, k)), [ReadBit(Level(s0, k))]);
      DropDrop(s0, k, 1);
      var high := ReadSlot();
      if high {
        b' := b | mask;
      } else {
        b' := b;
      }
    }

    /** `onewire_read`: eight read slots; a high sample sets the bit whose mask is
        current, the mask moving from 0x01 up to 0x80. */
    method ReadByte() returns (b: bv8)
      modifies this
      ensures b == ByteOf(Levels(old(script), 8))
      ensures trace == old(trace) + ReadEvents(b)
      ensures script == Drop(old(script), 8)
    {
      b := 0;
      var mask: bv8 := 1;
      ghost var k: nat := 0;
      while mask != 0
        invariant k <= 8 && mask == Mask(k) && (mask == 0) == (k == 8)
        invariant Sampled(old(script), old(trace), k, b)
        decreases 8 - k
      {
        b := ReadMasked(b, mask, old(script), old(trace), k);
        MaskShift(k);
        MaskZero(k + 1);
        mask := mask << 1;
        k := k + 1;
      }
      ReadComplete(old(script), b);
    }
  }

  /** The state after the first i reads of `ReadInto`, from script s0 and trace t0. */
  ghost predicate Filled(bus: Bus, buffer: array<bv8>, s0: seq<bool>, t0: seq<Event>, i: nat)
    reads bus, buffer
  {
    i <= buffer.Length &&
    buffer[..i] == BytesFrom(s0, i) &&
    bus.trace == t0 + Reads(buffer[..i]) &&
    bus.script == Drop(s0, 8 * i)
  }

  /** One pass of the `ReadInto` loop: reads byte i into the buffer. */
  method ReadAt(bus: Bus, buffer: array<bv8>, i: nat, ghost s0: seq<bool>, ghost t0: seq<Event>)
    requires i < buffer.Length && Filled(bus, buffer, s0, t0, i)
    modifies bus, buffer
    ensures Filled(bus, buffer, s0, t0, i + 1)
  {
    buffer[i] := bus.ReadByte();
    assert buffer[..i + 1] == buffer[..i] + [buffer[i]];
    assert buffer[..i + 1][..i] == buffer[..i];
    DropDrop(s0, 8 * i, 8);
    Concat3(t0, Reads(buffer[..i]), ReadEvents(buffer[i]));
  }

  /** The loop that fills a scratchpad buffer: `buffer[i] = onewire_read(io)` for
      every index of the buffer. */
  method ReadInto(bus: Bus, buffer: array<bv8>)
    modifies bus, buffer
    ensures buffer[..] == BytesFrom(old(bus.script), buffer.Length)
    ensures bus.trace == old(bus.trace) + Reads(buffer[..])
    ensures bus.script == Drop(old(bus.script), 8 * buffer.Length)
  {
    var i := 0;
    while i < buffer.Length
      invariant Filled(bus, buffer, old(bus.script), old(bus.trace), i)
    {
      ReadAt(bus, buffer, i, old(bus.script), old(bus.trace));
      i := i + 1;
    }
    assert buffer[..] == buffer[..i];
  }
}
