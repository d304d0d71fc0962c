/** The Dallas/Maxim 1-Wire CRC-8 (polynomial x^8 + x^5 + x^4 + 1, reflected, so the
    feedback constant is 0x8C), as avr-libc documents `_crc_ibutton_update`, and the
    `crc8` loop both 1-Wire files build on it. */
module Crc {

  /** One shift of the reflected CRC register. */
  function Step(crc: bv8): bv8 {
    if crc & 1 == 1 then (crc >> 1) ^ 0x8C else crc >> 1
  }

  /** `_crc_ibutton_update(crc, data)`: xor the data byte in, then eight shifts. */
  function Update(crc: bv8, data: bv8): bv8 {
    StepN(crc ^ data, Shifts)
  }

  /** The register is shifted once per data bit. */
  const Shifts: nat := 8

  /** k shifts of the register. */
  function StepN(x: bv8, k: nat): bv8 {
    if k == 0 then x else Step(StepN(x, k - 1))
  }

  /** The CRC of a run of bytes: the left fold of Update from 0. */
  function Crc8(data: seq<bv8>): bv8 {
    if data == [] then 0 else Update(Crc8(data[..|data| - 1]), data[|data| - 1])
  }

  /** A ROM address passes `onewire_check_rom_crc` when its last byte is the CRC of
      the seven before it. */
  predicate RomCrcValid(address: seq<bv8>)
    requires |address| == 8
  {
    address[7] == Crc8(address[..7])
  }

  /** `crc8(data, len)`: the fold computed by a loop over data[0 .. len). */
  method ComputeCrc8(data: array<bv8>, len: nat) returns (crc: bv8)
    requires len <= data.Length
    ensures crc == Crc8(data[..len])
  {
    crc := 0;
    var i := 0;
    while i < len
      invariant i <= len
      invariant crc == Crc8(data[..i])
    {
      assert data[..i + 1][..i] == data[..i];
      crc := Update(crc, data[i]);
      i := i + 1;
    }
  }

  /** The register shift is linear over GF(2). */
  lemma StepXor(a: bv8, b: bv8)
    ensures Step(a ^ b) == Step(a) ^ Step(b)
  {
  }

  /** The register shift loses no information: only 0 shifts to 0. */
  lemma StepZero(a: bv8)
    ensures (Step(a) == 0) == (a == 0)
  {
  }

  lemma {:induction false} StepNXor(x: bv8, y: bv8, k: nat)
    ensures StepN(x ^ y, k) == StepN(x, k) ^ StepN(y, k)
  {
    if k > 0 {
      StepNXor(x, y, k - 1);
      StepXor(StepN(x, k - 1), StepN(y, k - 1));
    }
  }

  lemma {:induction false} StepNZero(x: bv8, k: nat)
    ensures (StepN(x, k) == 0) == (x == 0)
  {
    if k > 0 {
      StepNZero(x, k - 1);
      StepZero(StepN(x, k - 1));
    }
  }

  /** Only equal register and data bytes update to 0. */
  lemma UpdateZero(crc: bv8, data: bv8)
    ensures (Update(crc, data) == 0) == (crc == data)
  {
    StepNZero(crc ^ data, Shifts);
    assert (crc ^ data == 0) == (crc == data);
  }

  /** Update is linear over GF(2) in the register and the data together. */
  lemma UpdateLinear(c1: bv8, d1: bv8, c2: bv8, d2: bv8)
    ensures Update(c1, d1) ^ Update(c2, d2) == Update(c1 ^ c2, d1 ^ d2)
  {
    assert (c1 ^ c2) ^ (d1 ^ d2) == (c1 ^ d1) ^ (c2 ^ d2);
    StepNXor(c1 ^ d1, c2 ^ d2, Shifts);
  }

  /** Update tells apart any two (register, data) pairs whose xors differ. */
  lemma UpdateInjective(c1: bv8, d1: bv8, c2: bv8, d2: bv8)
    requires c1 ^ d1 != c2 ^ d2
    ensures Update(c1, d1) != Update(c2, d2)
  {
    UpdateLinear(c1, d1, c2, d2);
    UpdateZero(c1 ^ c2, d1 ^ d2);
    assert (c1 ^ c2 == d1 ^ d2) == (c1 ^ d1 == c2 ^ d2);
  }

  /** Appending a byte drives the CRC to 0 exactly when that byte is the CRC of what
      precedes it: this is why a block is checked by comparing its last byte with the
      CRC of the others. */
  lemma CheckByte(data: seq<bv8>, x: bv8)
    ensures (Crc8(data + [x]) == 0) == (x == Crc8(data))
  {
    assert (data + [x])[..|data|] == data;
    UpdateZero(Crc8(data), x);
  }

  /** A ROM address passes the check iff the CRC over all eight bytes is 0. */
  lemma RomCrcValidIffZero(address: seq<bv8>)
    requires |address| == 8
    ensures RomCrcValid(address) == (Crc8(address) == 0)
  {
    assert address == address[..7] + [address[7]];
    CheckByte(address[..7], address[7]);
  }

  /** Any error confined to one byte (one or several of its bits flipped) changes the CRC. */
  lemma {:induction false} ByteErrorDetected(data: seq<bv8>, i: nat, e: bv8)
    requires i < |data| && e != 0
    ensures Crc8(data[i := data[i] ^ e]) != Crc8(data)
  {
    var n := |data| - 1;
    var bad := data[i := data[i] ^ e];
    if i < n {
      assert bad[..n] == data[..n][i := data[i] ^ e];
      ByteErrorDetected(data[..n], i, e);
      PrefixCrcDiffers(bad, data);
    } else {
      assert bad[..n] == data[..n];
      LastByteDiffers(bad, data);
    }
  }

  /** Runs that differ only in their last byte have different CRCs. */
  lemma LastByteDiffers(a: seq<bv8>, b: seq<bv8>)
    requires |a| == |b| > 0
    requires a[..|a| - 1] == b[..|b| - 1] && a[|a| - 1] != b[|b| - 1]
    ensures Crc8(a) != Crc8(b)
  {
    var n := |a| - 1;
    UpdateInjective(Crc8(a[..n]), a[n], Crc8(b[..n]), b[n]);
  }

  /** Runs with the same last byte after prefixes of different CRCs have different CRCs. */
  lemma PrefixCrcDiffers(a: seq<bv8>, b: seq<bv8>)
    requires |a| == |b| > 0
    requires Crc8(a[..|a| - 1]) != Crc8(b[..|b| - 1]) && a[|a| - 1] == b[|b| - 1]
    ensures Crc8(a) != Crc8(b)
  {
    var n := |a| - 1;
    UpdateInjective(Crc8(a[..n]), a[n], Crc8(b[..n]), b[n]);
  }
}
