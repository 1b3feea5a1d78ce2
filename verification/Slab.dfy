/** The shared DMA slab: 64 submission entries, then 64 completion entries,
    16 packed little-endian bytes each. */
module Slab {
  import opened Words

  const RING_SIZE: nat := 64
  const SQ_ENTRY_BYTES: nat := 16
  const CQ_ENTRY_BYTES: nat := 16
  const SQ_SIZE: nat := RING_SIZE * SQ_ENTRY_BYTES
  const DMA_TEST_LEN: nat := 64

  datatype SqEntry = SqEntry(tag: u16, opcode: u8, flags: u8, operand: u32, rsvd: u64)
  datatype CqEntry = CqEntry(tag: u16, status: u8, flags: u8, result: u32, rsvd: u64)

  type Slot = i: int | 0 <= i < RING_SIZE
  type Block = b: seq<u8> | |b| == DMA_TEST_LEN witness seq(DMA_TEST_LEN, _ => 0)

  function Pow256(n: nat): (p: nat)
    ensures p >= 1
  {
    if n == 0 then 1 else 256 * Pow256(n - 1)
  }

  function FromBytes(b: seq<u8>): (x: nat)
    ensures x < Pow256(|b|)
  {
    if b == [] then 0 else b[0] + 256 * FromBytes(b[1..])
  }

  function ToBytes(x: nat, n: nat): (b: seq<u8>)
    ensures |b| == n
  {
    if n == 0 then [] else [x % 256] + ToBytes(x / 256, n - 1)
  }

  lemma {:induction false} BytesOfWord(x: nat, n: nat)
    requires x < Pow256(n)
    ensures FromBytes(ToBytes(x, n)) == x
  {
    if n > 0 {
      BytesOfWord(x / 256, n - 1);
      assert ToBytes(x, n)[1..] == ToBytes(x / 256, n - 1);
    }
  }

  lemma {:induction false} WordOfBytes(b: seq<u8>)
    ensures ToBytes(FromBytes(b), |b|) == b
  {
    if b != [] {
      WordOfBytes(b[1..]);
      assert FromBytes(b) / 256 == FromBytes(b[1..]) && FromBytes(b) % 256 == b[0];
      assert [b[0]] + b[1..] == b;
    }
  }

  lemma WordSizes()
    ensures Pow256(1) == 0x100 && Pow256(2) == 0x1_0000 && Pow256(4) == U32_LIMIT
    ensures Pow256(8) == 0x1_0000_0000_0000_0000
  {
    assert Pow256(8) == 256 * Pow256(7) && Pow256(7) == 256 * Pow256(6);
    assert Pow256(6) == 256 * Pow256(5) && Pow256(5) == 256 * Pow256(4);
    assert Pow256(4) == 256 * Pow256(3) && Pow256(3) == 256 * Pow256(2);
  }

  function Encode(e: SqEntry): (b: seq<u8>)
    ensures |b| == SQ_ENTRY_BYTES
  {
    ToBytes(e.tag, 2) + ToBytes(e.opcode, 1) + ToBytes(e.flags, 1) + ToBytes(e.operand, 4) + ToBytes(e.rsvd, 8)
  }

  function Decode(b: seq<u8>): SqEntry
    requires |b| == SQ_ENTRY_BYTES
  {
    WordSizes();
    SqEntry(FromBytes(b[0..2]), FromBytes(b[2..3]), FromBytes(b[3..4]), FromBytes(b[4..8]), FromBytes(b[8..16]))
  }

  lemma Fields(t: seq<u8>, o: seq<u8>, f: seq<u8>, n: seq<u8>, r: seq<u8>)
    requires |t| == 2 && |o| == 1 && |f| == 1 && |n| == 4 && |r| == 8
    ensures var b := t + o + f + n + r;
      b[0..2] == t && b[2..3] == o && b[3..4] == f && b[4..8] == n && b[8..16] == r
  {
  }

  lemma DecodeEncode(e: SqEntry)
    ensures Decode(Encode(e)) == e
  {
    WordSizes();
    var b := Encode(e);
    BytesOfWord(e.tag, 2);
    BytesOfWord(e.opcode, 1);
    BytesOfWord(e.flags, 1);
    BytesOfWord(e.operand, 4);
    BytesOfWord(e.rsvd, 8);
    Fields(ToBytes(e.tag, 2), ToBytes(e.opcode, 1), ToBytes(e.flags, 1), ToBytes(e.operand, 4), ToBytes(e.rsvd, 8));
  }

  /** Words from their bytes, the low one first. */
  function Word16(b0: nat, b1: nat): nat { b0 + 0x100 * b1 }
  function Word32(b0: nat, b1: nat, b2: nat, b3: nat): nat { Word16(b0, b1) + 0x1_0000 * Word16(b2, b3) }

  lemma TwoBytes(b: seq<u8>)
    requires |b| == 2
    ensures FromBytes(b) == Word16(b[0], b[1])
  {
    assert FromBytes(b[1..]) == b[1] + 256 * FromBytes(b[1..][1..]) && b[1..][1..] == [];
  }

  lemma FourBytes(b: seq<u8>)
    requires |b| == 4
    ensures FromBytes(b) == Word32(b[0], b[1], b[2], b[3])
  {
    TwoBytes(b[2..]);
    assert FromBytes(b[1..]) == b[1] + 256 * FromBytes(b[1..][1..]) && b[1..][1..] == b[2..];
  }

  lemma EightBytes(b: seq<u8>)
    requires |b| == 8
    ensures FromBytes(b) == Word32(b[0], b[1], b[2], b[3]) + 0x1_0000_0000 * Word32(b[4], b[5], b[6], b[7])
  {
    FourBytes(b[4..]);
    assert FromBytes(b[3..]) == b[3] + 256 * FromBytes(b[3..][1..]) && b[3..][1..] == b[4..];
    assert FromBytes(b[2..]) == b[2] + 256 * FromBytes(b[2..][1..]) && b[2..][1..] == b[3..];
    assert FromBytes(b[1..]) == b[1] + 256 * FromBytes(b[1..][1..]) && b[1..][1..] == b[2..];
  }

  /** Where each field of an entry sits in its 16 bytes, low byte first. */
  lemma EntryLayout(e: SqEntry)
    ensures var b := Encode(e);
      && e.tag == Word16(b[0], b[1]) && e.opcode == b[2] && e.flags == b[3]
      && e.operand == Word32(b[4], b[5], b[6], b[7])
      && e.rsvd == Word32(b[8], b[9], b[10], b[11]) + 0x1_0000_0000 * Word32(b[12], b[13], b[14], b[15])
  {
    WordSizes();
    BytesOfWord(e.tag, 2);
    BytesOfWord(e.opcode, 1);
    BytesOfWord(e.flags, 1);
    BytesOfWord(e.operand, 4);
    BytesOfWord(e.rsvd, 8);
    TwoBytes(ToBytes(e.tag, 2));
    OneByte(ToBytes(e.opcode, 1));
    OneByte(ToBytes(e.flags, 1));
    FourBytes(ToBytes(e.operand, 4));
    EightBytes(ToBytes(e.rsvd, 8));
    hide ToBytes, FromBytes, Pow256;
  }

  lemma OneByte(b: seq<u8>)
    requires |b| == 1
    ensures FromBytes(b) == b[0]
  {
    assert b[1..] == [];
  }

  lemma EncodeDecode(b: seq<u8>)
    requires |b| == SQ_ENTRY_BYTES
    ensures Encode(Decode(b)) == b
  {
    WordOfBytes(b[0..2]);
    WordOfBytes(b[2..3]);
    WordOfBytes(b[3..4]);
    WordOfBytes(b[4..8]);
    WordOfBytes(b[8..16]);
    assert b == b[0..2] + b[2..3] + b[3..4] + b[4..8] + b[8..16];
  }

  /** Where entries sit in the slab. */
  function SqOffset(i: Slot): nat { i * SQ_ENTRY_BYTES }
  function CqOffset(i: Slot): nat { SQ_SIZE + i * CQ_ENTRY_BYTES }

  /** The submission queue after its first 64 bytes have been overwritten. */
  function Overwrite(sq: seq<SqEntry>, b: Block): (r: seq<SqEntry>)
    requires |sq| == RING_SIZE
    ensures |r| == RING_SIZE && forall i: Slot :: i >= 4 ==> r[i] == sq[i]
  {
    seq(RING_SIZE, i requires 0 <= i < RING_SIZE => if i < 4 then Decode(b[16 * i..16 * i + 16]) else sq[i])
  }

  /** The first 64 bytes of the slab. */
  function Prefix(sq: seq<SqEntry>): Block
    requires |sq| == RING_SIZE
  {
    Encode(sq[0]) + Encode(sq[1]) + Encode(sq[2]) + Encode(sq[3])
  }

  lemma ReadBackOverwrite(sq: seq<SqEntry>, b: Block)
    requires |sq| == RING_SIZE
    ensures Prefix(Overwrite(sq, b)) == b
  {
    EncodeDecode(b[0..16]);
    EncodeDecode(b[16..32]);
    EncodeDecode(b[32..48]);
    EncodeDecode(b[48..64]);
    assert b == b[0..16] + b[16..32] + b[32..48] + b[48..64];
  }

  /** Entries follow each other without a gap, submissions first. */
  lemma SlabIsPacked(i: Slot)
    ensures SqOffset(0) == 0 && CqOffset(0) == 1024 && CqOffset(63) + 16 == 2048
    ensures i < 63 ==> SqOffset(i + 1) == SqOffset(i) + 16 && CqOffset(i + 1) == CqOffset(i) + 16
    ensures SqOffset(i) + 16 <= CqOffset(0)
  {
  }

  /** The first 64 bytes are those of the first four entries, each in its place. */
  lemma PrefixBytes(sq: seq<SqEntry>, i: Slot, k: nat)
    requires |sq| == RING_SIZE && i < 4 && k < SQ_ENTRY_BYTES
    ensures SqOffset(i) + k < DMA_TEST_LEN && Prefix(sq)[SqOffset(i) + k] == Encode(sq[i])[k]
  {
  }

  /** The 64 bytes the DMA test writes are exactly submission slots 0 to 3. */
  lemma DmaTestAliases(i: Slot)
    ensures i < 4 ==> SqOffset(i) + SQ_ENTRY_BYTES <= DMA_TEST_LEN
    ensures i >= 4 ==> SqOffset(i) >= DMA_TEST_LEN
    ensures CqOffset(i) >= DMA_TEST_LEN
  {
  }
}
