/** The 1-Wire ROM search of ds18b20.c (`_search_next`, `_search_devices`,
    `onewire_search`), following Maxim application note 187.

    One pass walks the 64 ROM bit positions.  At each it reads the bit and its
    complement from all responding devices, chooses a bit, stores it in the search
    state's address and writes it to the bus so that only matching devices stay in
    the search.  The pass is specified by forward functions of a `PassInput`: the
    script the bus will answer with, the state the pass starts from, and which replay
    rule is in force (see `ReplayRule`). */
module RomSearch {
  import opened OneWireBus
  import Crc

  /** A 64-bit ROM address, least significant byte first. */
  type Address = a: seq<bv8> | |a| == 8 witness [0, 0, 0, 0, 0, 0, 0, 0]

  /** Bit q (0 .. 63) of an address: bit q % 8 of byte q / 8. */
  function AddrBit(a: Address, q: nat): bool
    requires q < 64
  {
    Bit(a[q / 8], q % 8)
  }

  /** How a conflict before the last zero branch repeats the previous address's
      choice.  `AsWritten` is ds18b20.c:265 literally: the value kept is the masked
      byte `address[byteIndex] & (1 << bitIndex)`, which line 288 then shifts left
      by bitIndex a second time.  `Normalised` reduces that value to 0 or 1 first,
      which is what the comment at ds18b20.c:264 describes. */
  datatype ReplayRule = AsWritten | Normalised

  /** `v << k` on a byte, the bits shifted past bit 7 being lost. */
  function Shl(v: bv8, k: nat): bv8 {
    if k == 0 then v else Shl(v, k - 1) << 1
  }

  /** The search state of a pass, as values. */
  datatype View = View(lastZero: int, done: bool, address: Address)

  /** Everything a pass depends on. */
  datatype PassInput = PassInput(rule: ReplayRule, script: seq<bool>, lastZero: int, start: Address)

  /** The two samples at position p: the bit, then its complement. */
  function BitRead(x: PassInput, p: nat): bool { Level(x.script, 2 * p) }
  function CompRead(x: PassInput, p: nat): bool { Level(x.script, 2 * p + 1) }

  /** `reading` at position p: the bit in bit 0, the complement in bit 1. */
  function Reading(x: PassInput, p: nat): bv8 {
    (if BitRead(x, p) then 1 else 0) | (if CompRead(x, p) then 2 else 0)
  }

  /** Both samples high: no device pulled the line low. */
  predicate Fault(x: PassInput, p: nat) { Reading(x, p) == 0x03 }

  /** Both samples low: devices disagree at this position. */
  predicate Conflict(x: PassInput, p: nat) { Reading(x, p) == 0x00 }

  /** The value the replay branch keeps for bit k of `byte`. */
  function Replay(rule: ReplayRule, byte: bv8, k: nat): (v: bv8)
    requires k < 8
  {
    match rule
    case AsWritten => byte & Mask(k)
    case Normalised => if byte & Mask(k) != 0 then 1 else 0
  }

  /** `bitValue` at position p when the address stored so far is `a`. */
  function Choose(x: PassInput, p: nat, a: Address): bv8
    requires p < 64
  {
    var reading := Reading(x, p);
    if reading == 0x02 || reading == 0x01 then reading & 0x01
    else if reading == 0x03 then 0
    else if p == x.lastZero then 1
    else if p < x.lastZero then Replay(x.rule, a[p / 8], p % 8)
    else 0
  }

  /** Lines 285-289: clear bit p for a zero value, otherwise or in `value << bitIndex`. */
  function Store(a: Address, p: nat, v: bv8): Address
    requires p < 64
  {
    var i, k := p / 8, p % 8;
    a[i := if v == 0 then a[i] & !Mask(k) else a[i] | Shl(v, k)]
  }

  /** The address array once positions 0 .. p-1 have been processed. */
  function AddressBefore(x: PassInput, p: nat): Address
    requires p <= 64
  {
    if p == 0 then x.start
    else
      var a := AddressBefore(x, p - 1);
      Store(a, p - 1, Choose(x, p - 1, a))
  }

  /** The bit written to the bus at position p (a Write-1 slot iff bitValue != 0). */
  predicate Chosen(x: PassInput, p: nat)
    requires p < 64
  {
    Choose(x, p, AddressBefore(x, p)) != 0
  }

  /** A conflict where the pass chose zero: a branch left for a later pass. */
  predicate ZeroBranch(x: PassInput, p: nat)
    requires p < 64
  {
    Conflict(x, p) && !Chosen(x, p)
  }

  /** `localLastZeroBranch` after positions 0 .. p-1. */
  function LastZeroBefore(x: PassInput, p: nat): int
    requires p <= 64
  {
    if p == 0 then -1
    else if ZeroBranch(x, p - 1) then p - 1
    else LastZeroBefore(x, p - 1)
  }

  /** The slots of positions 0 .. p-1: bit read, complement read, chosen bit written. */
  function PassEvents(x: PassInput, p: nat): (r: seq<Event>)
    requires p <= 64
    ensures |r| == 3 * p
  {
    if p == 0 then []
    else PassEvents(x, p - 1) + [ReadBit(BitRead(x, p - 1)), ReadBit(CompRead(x, p - 1)), WriteBit(Chosen(x, p - 1))]
  }

  /** The number of ROM bit positions a pass walks. */
  const Positions: nat := 64

  /** The first faulty position below n, or n if there is none. */
  function FaultBefore(x: PassInput, n: nat): (f: nat)
    requires n <= 64
    ensures f <= n
  {
    if n == 0 then 0
    else
      var f := FaultBefore(x, n - 1);
      if f < n - 1 then f else if Fault(x, n - 1) then n - 1 else n
  }

  /** What a call returns and leaves behind: whether it found an address, the new
      search state, the slots it generated and how many levels it sampled. */
  datatype Outcome = Outcome(found: bool, state: View, events: seq<Event>, consumed: nat)

  /** `_search_next` from state v on a bus that answers with `script`. */
  function Pass(rule: ReplayRule, script: seq<bool>, v: View): Outcome {
    var x := PassInput(rule, script, v.lastZero, v.address);
    var f := FaultBefore(x, Positions);
    if f < Positions then
      Outcome(false, v.(address := AddressBefore(x, f)), PassEvents(x, f) + [ReadBit(true), ReadBit(true)], 2 * f + 2)
    else
      var lz := LastZeroBefore(x, Positions);
      Outcome(true,
              View(if lz == -1 then v.lastZero else lz, v.done || lz == -1, AddressBefore(x, Positions)),
              PassEvents(x, Positions), 2 * Positions)
  }

  /** `_search_devices(command, ...)`: nothing if the search is over, a lone reset if
      no device answers it, else the command byte and a pass. */
  function SearchStep(rule: ReplayRule, command: bv8, script: seq<bool>, v: View): Outcome {
    if v.done then Outcome(false, v, [], 0)
    else if Level(script, 0) then Outcome(false, v, [Reset(false)], 1)
    else
      var r := Pass(rule, Drop(script, 1), v);
      r.(events := [Reset(true)] + WriteEvents(command) + r.events, consumed := 1 + r.consumed)
  }

  /** The Search ROM command `onewire_search` sends. */
  const SearchRom: bv8 := 0xF0

  // ---------------------------------------------------------------------------
  // Facts about one position

  lemma {:induction false} ShlLowBits(v: bv8, k: nat, j: nat)
    requires j < k < 8
    ensures !Bit(Shl(v, k), j)
  {
    if j > 0 {
      ShlLowBits(v, k - 1, j - 1);
    }
    ShlBit(Shl(v, k - 1), j);
  }

  /** Bit j of `w << 1` is bit j - 1 of w (and bit 0 is clear). */
  lemma ShlBit(w: bv8, j: nat)
    requires j < 8
    ensures Bit(w << 1, j) == (j > 0 && Bit(w, j - 1))
  {
  }

  lemma {:induction false} ShlOwnBit(v: bv8, k: nat)
    requires k < 8
    ensures Bit(Shl(v, k), k) == Bit(v, 0)
  {
    if k > 0 {
      ShlOwnBit(v, k - 1);
      ShlBit(Shl(v, k - 1), k);
    }
  }

  lemma {:induction false} ShlOne(k: nat)
    requires k < 8
    ensures Shl(1, k) == Mask(k)
  {
    if k > 0 { ShlOne(k - 1); }
  }

  /** A clear with `& ~mask` touches only the masked bit. */
  lemma ClearBit(b: bv8, k: nat, j: nat)
    requires k < 8 && j < 8
    ensures Bit(b & !Mask(k), j) == (j != k && Bit(b, j))
  {
    var m, n := Mask(k), Mask(j);
    var c := b & !m;
    if j == k {
      ClearSame(b, m);
      assert !Bit(c, j);
    } else {
      MasksDisjoint(k, j);
      ClearOther(b, m, n);
      assert Bit(c, j) == Bit(b, j);
    }
  }

  lemma ClearSame(b: bv8, m: bv8)
    ensures (b & !m) & m == 0
  {
  }

  lemma ClearOther(b: bv8, m: bv8, n: bv8)
    requires m & n == 0
    ensures (b & !m) & n == b & n
  {
  }

  /** The value stored at a position is one the store writes faithfully: 0, 1, or
      (on replay as written) the masked byte itself, which is non-zero only when the
      bit is already set. */
  predicate FaithfulValue(a: Address, p: nat, v: bv8)
    requires p < 64
  {
    v == 0 || v == 1 || v == a[p / 8] & Mask(p % 8)
  }

  lemma ChooseFaithful(x: PassInput, p: nat, a: Address)
    requires p < 64
    ensures FaithfulValue(a, p, Choose(x, p, a))
  {
    var r := Reading(x, p);
    assert r & 0x01 == 0 || r & 0x01 == 1;
  }

  /** After a store at p, bit p of the address is set iff the stored value is non-zero. */
  lemma StoreOwnBit(a: Address, p: nat, v: bv8)
    requires p < 64 && FaithfulValue(a, p, v)
    ensures AddrBit(Store(a, p, v), p) == (v != 0)
  {
    var i, k := p / 8, p % 8;
    if v == 0 {
      ClearBit(a[i], k, k);
    } else {
      BitOr(a[i], Shl(v, k), k);
      ShlOwnBit(v, k);
      if v != 1 { MasksDisjoint(k, k); BitOr(a[i], 0, k); }
      assert Bit(1, 0);
    }
  }

  /** A store at p leaves every lower position alone. */
  lemma StoreLowerBit(a: Address, p: nat, v: bv8, q: nat)
    requires q < p < 64
    ensures AddrBit(Store(a, p, v), q) == AddrBit(a, q)
  {
    var i, k := p / 8, p % 8;
    if q / 8 == i {
      if v == 0 {
        ClearBit(a[i], k, q % 8);
      } else {
        BitOr(a[i], Shl(v, k), q % 8);
        ShlLowBits(v, k, q % 8);
      }
    }
  }

  /** With a 0/1 value a store at p leaves every other position alone. */
  lemma StoreOtherBit(a: Address, p: nat, v: bv8, q: nat)
    requires p < 64 && q < 64 && q != p && (v == 0 || v == 1)
    ensures AddrBit(Store(a, p, v), q) == AddrBit(a, q)
  {
    var i, k := p / 8, p % 8;
    if q / 8 == i {
      if v == 0 {
        ClearBit(a[i], k, q % 8);
      } else {
        ShlOne(k);
        BitOr(a[i], Mask(k), q % 8);
        MasksDisjoint(k, q % 8);
      }
    }
  }

  // ---------------------------------------------------------------------------
  // Properties of a pass

  /** What is stored is what was written: once position q has been processed, bit q
      of the address is the bit the pass put on the bus there, under either rule. */
  lemma {:induction false} StoredIsWritten(x: PassInput, p: nat, q: nat)
    requires q < p <= 64
    ensures AddrBit(AddressBefore(x, p), q) == Chosen(x, q)
  {
    if q == p - 1 {
      StoreChosen(x, q);
    } else {
      var a := AddressBefore(x, p - 1);
      StoredIsWritten(x, p - 1, q);
      StoreLowerBit(a, p - 1, Choose(x, p - 1, a), q);
    }
  }

  /** The store at position q sets bit q to the bit written there. */
  lemma StoreChosen(x: PassInput, q: nat)
    requires q < 64
    ensures AddrBit(AddressBefore(x, q + 1), q) == Chosen(x, q)
  {
    var a := AddressBefore(x, q);
    ChooseFaithful(x, q, a);
    StoreOwnBit(a, q, Choose(x, q, a));
  }

  /** Under the normalised rule, positions not yet processed still hold the previous
      address's bits. */
  lemma {:induction false} UnvisitedBitsKept(x: PassInput, p: nat, q: nat)
    requires x.rule == Normalised && p <= q < 64
    ensures AddrBit(AddressBefore(x, p), q) == AddrBit(x.start, q)
  {
    if p > 0 {
      var a := AddressBefore(x, p - 1);
      UnvisitedBitsKept(x, p - 1, q);
      StoreOtherBit(a, p - 1, Choose(x, p - 1, a), q);
    }
  }

  /** The bit choice of application note 187, as the normalised rule makes it: a
      unanimous reading gives the bit read; a conflict gives 1 at the last zero
      branch, the previous address's bit before it and 0 after it. */
  lemma ChoiceNormalised(x: PassInput, p: nat)
    requires x.rule == Normalised && p < 64 && !Fault(x, p)
    ensures Chosen(x, p) ==
      if !Conflict(x, p) then BitRead(x, p)
      else if p == x.lastZero then true
      else if p < x.lastZero then AddrBit(x.start, p)
      else false
  {
    UnvisitedBitsKept(x, p, p);
  }

  /** Under either rule a unanimous reading gives the bit read, and a conflict gives
      1 at the last zero branch and 0 after it. */
  lemma ChoiceOutsideReplay(x: PassInput, p: nat)
    requires p < 64 && !Fault(x, p) && !(Conflict(x, p) && p < x.lastZero)
    ensures Chosen(x, p) ==
      if !Conflict(x, p) then BitRead(x, p) else p == x.lastZero
  {
  }

  /** The as-written replay deviates from the previous address.  With the last zero
      branch at 10, a previous address whose first byte is 0x02 (bits 0, 1, 2 =
      0, 1, 0) and conflicts at positions 0, 1 and 2, the replay at position 1 keeps
      the value 0x02 and stores 0x02 << 1, setting bit 2; the replay at position 2
      then reads that stray bit and writes 1 where the previous address had 0. */
  lemma ReplayDeviates()
    ensures var x := PassInput(AsWritten, [false, false, false, false, false, false], 10,
                               [0x02, 0, 0, 0, 0, 0, 0, 0]);
      && Conflict(x, 2) && 2 < x.lastZero
      && !AddrBit(x.start, 2) && Chosen(x, 2)
  {
    var x := PassInput(AsWritten, [false, false, false, false, false, false], 10,
                       [0x02, 0, 0, 0, 0, 0, 0, 0]);
    assert Reading(x, 0) == 0 && Reading(x, 1) == 0 && Reading(x, 2) == 0;
    assert Mask(1) == 2 && Mask(2) == 4;
    assert AddressBefore(x, 1) == [0x02, 0, 0, 0, 0, 0, 0, 0];
    assert Choose(x, 1, AddressBefore(x, 1)) == 0x02;
    assert Shl(0x02, 1) == 0x04;
    assert AddressBefore(x, 2) == [0x06, 0, 0, 0, 0, 0, 0, 0];
    assert Choose(x, 2, AddressBefore(x, 2)) == 0x04;
  }

  /** The same input under the normalised rule follows the previous address. */
  lemma ReplayFollowsNormalised()
    ensures var x := PassInput(Normalised, [false, false, false, false, false, false], 10,
                               [0x02, 0, 0, 0, 0, 0, 0, 0]);
      !Chosen(x, 2)
  {
    var x := PassInput(Normalised, [false, false, false, false, false, false], 10,
                       [0x02, 0, 0, 0, 0, 0, 0, 0]);
    assert Reading(x, 2) == 0;
    ChoiceNormalised(x, 2);
    assert Mask(2) == 4;
  }

  /** End-of-pass bookkeeping: the local last zero branch is -1 iff no conflict chose
      zero, and otherwise the highest position where one did. */
  lemma {:induction false} LastZeroIsHighest(x: PassInput, p: nat)
    requires p <= 64
    ensures var lz := LastZeroBefore(x, p);
      && -1 <= lz < p
      && (lz == -1 <==> forall q | 0 <= q < p :: !ZeroBranch(x, q))
      && (lz != -1 ==> ZeroBranch(x, lz) && forall q | lz < q < p :: !ZeroBranch(x, q))
  {
    if p > 0 {
      LastZeroIsHighest(x, p - 1);
    }
  }

  /** FaultBefore finds the first faulty position. */
  lemma {:induction false} FaultBeforeIsFirst(x: PassInput, n: nat)
    requires n <= 64
    ensures var f := FaultBefore(x, n);
      && (forall q | 0 <= q < f :: !Fault(x, q))
      && (f < n ==> Fault(x, f))
  {
    if n > 0 {
      FaultBeforeIsFirst(x, n - 1);
    }
  }

  /** Once a fault is found below m, looking further does not change the answer. */
  lemma {:induction false} FaultStays(x: PassInput, m: nat, n: nat)
    requires m <= n <= 64 && FaultBefore(x, m) < m
    ensures FaultBefore(x, n) == FaultBefore(x, m)
  {
    if m < n {
      FaultStays(x, m, n - 1);
    }
  }

  /** The two samples a position takes, seen from the script the pass started with. */
  lemma ReadPair(script: seq<bool>, p: nat)
    ensures Level(Drop(script, 2 * p), 0) == Level(script, 2 * p)
    ensures Level(Drop(Drop(script, 2 * p), 1), 0) == Level(script, 2 * p + 1)
    ensures Drop(Drop(Drop(script, 2 * p), 1), 1) == Drop(script, 2 * p + 2)
  {
    LevelDrop(script, 2 * p, 0);
    DropDrop(script, 2 * p, 1);
    LevelDrop(script, 2 * p + 1, 0);
    DropDrop(script, 2 * p + 1, 1);
  }

  /** The slots of one more position, appended to a trace. */
  lemma TraceStep(x: PassInput, p: nat, t0: seq<Event>)
    requires p < 64
    ensures t0 + PassEvents(x, p + 1)
         == t0 + PassEvents(x, p) + [ReadBit(BitRead(x, p)), ReadBit(CompRead(x, p))] + [WriteBit(Chosen(x, p))]
  {
  }

  /** The outcome of a pass that meets its first fault at position p. */
  lemma PassStopsAtFault(x: PassInput, v: View, p: nat)
    requires x == PassInput(x.rule, x.script, v.lastZero, v.address)
    requires p < 64 && Fault(x, p) && FaultBefore(x, p) == p
    ensures Pass(x.rule, x.script, v)
         == Outcome(false, v.(address := AddressBefore(x, p)), PassEvents(x, p) + [ReadBit(true), ReadBit(true)], 2 * p + 2)
  {
    FaultStays(x, p + 1, Positions);
  }

  /** The outcome of a pass that meets no fault. */
  lemma PassCompletes(x: PassInput, v: View)
    requires x == PassInput(x.rule, x.script, v.lastZero, v.address)
    ensures FaultBefore(x, Positions) == Positions ==>
      var lz := LastZeroBefore(x, Positions);
      Pass(x.rule, x.script, v)
      == Outcome(true, View(if lz == -1 then v.lastZero else lz, v.done || lz == -1, AddressBefore(x, Positions)),
                 PassEvents(x, Positions), 2 * Positions)
  {
  }

  // ---------------------------------------------------------------------------
  // The search state and the search itself

  /** `onewire_search_state`. */
  class SearchState {
    /** The highest position where the last pass chose zero at a conflict, or -1. */
    var lastZeroBranch: int
    /** Set once a pass met no conflict where it chose zero. */
    var done: bool
    /** The address found by the last pass, least significant byte first. */
    const address: array<bv8>

    ghost predicate Valid() {
      address.Length == 8
    }

    /** The state as `ds18b20_search` sets it up: no branch yet, not done, address zeroed. */
    constructor ()
      ensures Valid() && fresh(address)
      ensures Snapshot() == View(-1, false, [0, 0, 0, 0, 0, 0, 0, 0])
    {
      lastZeroBranch := -1;
      done := false;
      address := new bv8[8](_ => 0);
    }

    function Snapshot(): View
      requires Valid()
      reads this, address
    {
      View(lastZeroBranch, done, address[..])
    }
  }

  /** Lines 244-246: read the bit, then its complement, into `reading`. */
  method ReadPosition(bus: Bus) returns (reading: bv8)
    modifies bus
    ensures reading == (if Level(old(bus.script), 0) then 1 else 0) | (if Level(old(bus.script), 1) then 2 else 0)
    ensures bus.trace == old(bus.trace) + [ReadBit(Level(old(bus.script), 0)), ReadBit(Level(old(bus.script), 1))]
    ensures bus.script == Drop(old(bus.script), 2)
  {
    var bit := bus.ReadSlot();
    var complement := bus.ReadSlot();
    reading := (if bit then 1 else 0) | (if complement then 2 else 0);
    LevelDrop(old(bus.script), 1, 0);
    DropDrop(old(bus.script), 1, 1);
  }

  /** Lines 248-282: the switch on `reading`.  A fault is the `default` exit; otherwise
      the chosen `bitValue` and the updated `localLastZeroBranch`. */
  method DecideBit(ghost x: PassInput, reading: bv8, bitPosition: nat, lastZeroBranch: int,
                   byte: bv8, rule: ReplayRule, localLastZeroBranch: int)
    returns (fault: bool, bitValue: bv8, local: int)
    requires bitPosition < 64 && reading == Reading(x, bitPosition)
    requires x.rule == rule && x.lastZero == lastZeroBranch
    requires byte == AddressBefore(x, bitPosition)[bitPosition / 8]
    ensures fault == Fault(x, bitPosition)
    ensures !fault ==> bitValue == Choose(x, bitPosition, AddressBefore(x, bitPosition))
    ensures !fault ==> local == if ZeroBranch(x, bitPosition) then bitPosition else localLastZeroBranch
  {
    fault, bitValue, local := false, 0, localLastZeroBranch;
    if reading == 0x02 || reading == 0x01 {
      bitValue := reading & 0x01;
    } else if reading == 0x00 {
      if bitPosition == lastZeroBranch {
        bitValue := 1;
      } else if bitPosition < lastZeroBranch {
        bitValue := Replay(rule, byte, bitPosition % 8);
      } else {
        bitValue := 0;
      }
      if bitValue == 0 {
        local := bitPosition;
      }
    } else {
      fault := true;
    }
  }

  /** Lines 285-289: store `bitValue` at a position of the address array. */
  method StoreBit(address: array<bv8>, bitPosition: nat, bitValue: bv8)
    requires address.Length == 8 && bitPosition < 64
    modifies address
    ensures address[..] == Store(old(address[..]), bitPosition, bitValue)
  {
    var byteIndex, bitIndex := bitPosition / 8, bitPosition % 8;
    if bitValue == 0 {
      address[byteIndex] := address[byteIndex] & !Mask(bitIndex);
    } else {
      address[byteIndex] := address[byteIndex] | Shl(bitValue, bitIndex);
    }
  }

  /** Where a pass stands before position p: the address array, the local last zero
      branch, the bus script and the trace are what positions 0 .. p-1 made of them,
      and no fault was met there. */
  ghost predicate Progress(x: PassInput, t0: seq<Event>, p: nat, bus: Bus, address: array<bv8>, local: int)
    reads bus, address
  {
    && p <= 64 && address.Length == 8
    && FaultBefore(x, p) == p
    && address[..] == AddressBefore(x, p)
    && local == LastZeroBefore(x, p)
    && bus.script == Drop(x.script, 2 * p)
    && bus.trace == t0 + PassEvents(x, p)
  }

  /** What positions 0 .. p make of the pass state, from what positions 0 .. p-1 made,
      when position p is not a fault. */
  lemma PositionStep(x: PassInput, p: nat)
    requires p < 64 && FaultBefore(x, p) == p && !Fault(x, p)
    ensures FaultBefore(x, p + 1) == p + 1
    ensures AddressBefore(x, p + 1) == Store(AddressBefore(x, p), p, Choose(x, p, AddressBefore(x, p)))
    ensures LastZeroBefore(x, p + 1) == if ZeroBranch(x, p) then p else LastZeroBefore(x, p)
  {
  }

  /** The end of an iteration that found no fault: store the chosen bit in the
      address and write it to the bus. */
  method CommitBit(bus: Bus, address: array<bv8>, bitPosition: nat, bitValue: bv8, local: int,
                   ghost x: PassInput, ghost t0: seq<Event>)
    requires bitPosition < 64 && address.Length == 8
    requires FaultBefore(x, bitPosition) == bitPosition && !Fault(x, bitPosition)
    requires address[..] == AddressBefore(x, bitPosition)
    requires bitValue == Choose(x, bitPosition, AddressBefore(x, bitPosition))
    requires local == LastZeroBefore(x, bitPosition + 1)
    requires bus.script == Drop(x.script, 2 * bitPosition + 2)
    requires bus.trace == t0 + PassEvents(x, bitPosition)
                       + [ReadBit(BitRead(x, bitPosition)), ReadBit(CompRead(x, bitPosition))]
    modifies bus, address
    ensures Progress(x, t0, bitPosition + 1, bus, address, local)
  {
    PositionStep(x, bitPosition);
    TraceStep(x, bitPosition, t0);
    StoreBit(address, bitPosition, bitValue);
    bus.WriteSlot(bitValue != 0);
  }

  /** One iteration of the loop of `_search_next`: read, decide, and unless the reading
      was a fault, store the bit and write it to the bus. */
  method SearchPosition(bus: Bus, address: array<bv8>, lastZeroBranch: int, rule: ReplayRule,
                        bitPosition: nat, localLastZeroBranch: int, ghost x: PassInput, ghost t0: seq<Event>)
    returns (fault: bool, local: int)
    requires bitPosition < 64 && x.lastZero == lastZeroBranch && x.rule == rule
    requires Progress(x, t0, bitPosition, bus, address, localLastZeroBranch)
    modifies bus, address
    ensures fault == Fault(x, bitPosition)
    ensures !fault ==> Progress(x, t0, bitPosition + 1, bus, address, local)
    ensures fault ==> && address[..] == old(address[..])
                      && bus.trace == old(bus.trace) + [ReadBit(true), ReadBit(true)]
                      && bus.script == Drop(x.script, 2 * bitPosition + 2)
  {
    ReadPair(x.script, bitPosition);
    var reading := ReadPosition(bus);
    var bitValue;
    fault, bitValue, local :=
      DecideBit(x, reading, bitPosition, lastZeroBranch, address[bitPosition / 8], rule, localLastZeroBranch);
    if fault {
      return;
    }
    PositionStep(x, bitPosition);
    CommitBit(bus, address, bitPosition, bitValue, local, x, t0);
  }

  /** The loop of `_search_next` (lines 233-297) on the address array: it stops at the
      first fault, or runs through all 64 positions and yields `localLastZeroBranch`. */
  method ScanPositions(bus: Bus, address: array<bv8>, lastZeroBranch: int, rule: ReplayRule, ghost v: View)
    returns (fault: bool, localLastZeroBranch: int)
    requires address.Length == 8 && v.lastZero == lastZeroBranch && v.address == address[..]
    modifies bus, address
    ensures var r := Pass(rule, old(bus.script), v);
      && fault == !r.found && address[..] == r.state.address
      && bus.trace == old(bus.trace) + r.events && bus.script == Drop(old(bus.script), r.consumed)
    ensures !fault ==> localLastZeroBranch == LastZeroBefore(PassInput(rule, old(bus.script), v.lastZero, v.address), Positions)
  {
    ghost var x := PassInput(rule, bus.script, lastZeroBranch, address[..]);
    ghost var t0 := bus.trace;
    localLastZeroBranch := -1;
    var bitPosition := 0;
    assert Drop(x.script, 0) == x.script;
    while bitPosition < 64
      invariant Progress(x, t0, bitPosition, bus, address, localLastZeroBranch)
    {
      fault, localLastZeroBranch :=
        SearchPosition(bus, address, lastZeroBranch, rule, bitPosition, localLastZeroBranch, x, t0);
      if fault {
        PassStopsAtFault(x, v, bitPosition);
        Concat3(t0, PassEvents(x, bitPosition), [ReadBit(true), ReadBit(true)]);
        return;
      }
      bitPosition := bitPosition + 1;
    }
    PassCompletes(x, v);
    fault := false;
  }

  /** `_search_next`: one pass over the 64 ROM bit positions, then the bookkeeping
      of lines 299-305. */
  method SearchNext(bus: Bus, state: SearchState, rule: ReplayRule) returns (found: bool)
    requires state.Valid()
    modifies bus, state, state.address
    ensures var r := Pass(rule, old(bus.script), old(state.Snapshot()));
      && found == r.found && state.Snapshot() == r.state
      && bus.trace == old(bus.trace) + r.events && bus.script == Drop(old(bus.script), r.consumed)
  {
    ghost var v := state.Snapshot();
    PassCompletes(PassInput(rule, bus.script, v.lastZero, v.address), v);
    var fault, localLastZeroBranch := ScanPositions(bus, state.address, state.lastZeroBranch, rule, v);
    if fault {
      return false;
    }
    if localLastZeroBranch == -1 {
      state.done := true;
    } else {
      state.lastZeroBranch := localLastZeroBranch;
    }
    return true;
  }

  /** `_search_devices`: bail out when the search is over or no device answers the
      reset; otherwise send the command and run a pass. */
  method SearchDevices(command: bv8, bus: Bus, state: SearchState, rule: ReplayRule) returns (found: bool)
    requires state.Valid()
    modifies bus, state, state.address
    ensures var r := SearchStep(rule, command, old(bus.script), old(state.Snapshot()));
      && found == r.found && state.Snapshot() == r.state
      && bus.trace == old(bus.trace) + r.events && bus.script == Drop(old(bus.script), r.consumed)
  {
    if state.done {
      return false;
    }
    var presence := bus.ResetPulse();
    if !presence {
      return false;
    }
    bus.WriteByte(command);
    ghost var r := Pass(rule, bus.script, state.Snapshot());
    found := SearchNext(bus, state, rule);
    DropDrop(old(bus.script), 1, r.consumed);
    Concat4(old(bus.trace), [Reset(true)], WriteEvents(command), r.events);
  }

  /** `onewire_search`: a search with the Search ROM command. */
  method OnewireSearch(bus: Bus, state: SearchState, rule: ReplayRule) returns (found: bool)
    requires state.Valid()
    modifies bus, state, state.address
    ensures var r := SearchStep(rule, SearchRom, old(bus.script), old(state.Snapshot()));
      && found == r.found && state.Snapshot() == r.state
      && bus.trace == old(bus.trace) + r.events && bus.script == Drop(old(bus.script), r.consumed)
  {
    found := SearchDevices(SearchRom, bus, state, rule);
  }

  /** Early exits: a search on a finished state, or one whose reset sees no presence,
      reads no ROM bit and finds nothing; otherwise the command goes out first. */
  lemma SearchEarlyExits(rule: ReplayRule, command: bv8, script: seq<bool>, v: View)
    ensures var r := SearchStep(rule, command, script, v);
      && (v.done ==> !r.found && r.events == [] && r.state == v)
      && (!v.done && Level(script, 0) ==> !r.found && r.events == [Reset(false)] && r.state == v)
      && (!v.done && !Level(script, 0) ==> r.events[..9] == [Reset(true)] + WriteEvents(command))
  {
    var r := SearchStep(rule, command, script, v);
    if !v.done && !Level(script, 0) {
      assert r.events == ([Reset(true)] + WriteEvents(command)) + Pass(rule, Drop(script, 1), v).events;
    }
  }

  /** A search that finds an address has sampled at least the presence level, so each
      successful search shortens what is left of the script. */
  lemma FoundConsumes(rule: ReplayRule, command: bv8, script: seq<bool>, v: View)
    ensures var r := SearchStep(rule, command, script, v);
      r.found ==> 0 < r.consumed && |Drop(script, r.consumed)| < |script|
  {
  }

  /** A fault leaves the last zero branch and the done flag alone; a completed pass sets
      `done` iff it met no zero branch, and otherwise records the highest one. */
  lemma PassBookkeeping(rule: ReplayRule, script: seq<bool>, v: View)
    ensures var r := Pass(rule, script, v);
      var x := PassInput(rule, script, v.lastZero, v.address);
      && (!r.found ==> r.state.lastZero == v.lastZero && r.state.done == v.done)
      && (r.found ==> && (r.state.done <==> v.done || forall q | 0 <= q < 64 :: !ZeroBranch(x, q))
                      && (!r.state.done ==> 0 <= r.state.lastZero < 64 && ZeroBranch(x, r.state.lastZero)
                                            && forall q | r.state.lastZero < q < 64 :: !ZeroBranch(x, q)))
  {
    LastZeroIsHighest(PassInput(rule, script, v.lastZero, v.address), Positions);
  }
}
