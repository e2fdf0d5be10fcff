/** Byte memory, and the chunk and large headers that the allocator keeps in it. */
module Memory {
  import opened Words

  type Byte = x: int | 0 <= x < 256

  type Bytes = int -> Byte

  datatype Option<+T> = None | Some(value: T)

  // ---------------------------------------------------------------- writes

  function Store(m: Bytes, at: int, b: Byte): Bytes {
    a => if a == at then b else m(a)
  }

  /** memset */
  function Fill(m: Bytes, at: int, n: int, b: Byte): Bytes {
    a => if at <= a < at + n then b else m(a)
  }

  /** memcpy */
  function Copy(m: Bytes, dst: int, src: int, n: int): Bytes {
    a => if dst <= a < dst + n then m(src + (a - dst)) else m(a)
  }

  /** A little-endian word of `n` bytes. */
  function StoreWord(m: Bytes, at: int, n: nat, v: nat): Bytes {
    a => if at <= a < at + n then WordByte(v, a - at) else m(a)
  }

  ghost predicate SameOn(m: Bytes, m': Bytes, from: int, to: int) {
    forall a :: from <= a < to ==> m(a) == m'(a)
  }

  ghost predicate SameOutside(m: Bytes, m': Bytes, from: int, to: int) {
    forall a :: !(from <= a < to) ==> m(a) == m'(a)
  }

  // ---------------------------------------------------------------- words

  /** Byte `i` of `v`, least significant first. */
  function WordByte(v: nat, i: nat): Byte {
    if i == 0 then v % 256 else WordByte(v / 256, i - 1)
  }

  function LoadWord(m: Bytes, at: int, n: nat): nat
    decreases n, at
  {
    if n == 0 then 0 else m(at) + 256 * LoadWord(m, at + 1, n - 1)
  }

  ghost predicate HoldsWord(m: Bytes, at: int, n: nat, v: nat) {
    forall i :: 0 <= i < n ==> m(at + i) == WordByte(v, i)
  }

  function Pow256(n: nat): (r: nat)
    ensures r >= 1
  {
    if n == 0 then 1 else 256 * Pow256(n - 1)
  }

  /** The low `n` bytes of `v`. */
  function Truncate(v: nat, n: nat): nat {
    if n == 0 then 0 else v % 256 + 256 * Truncate(v / 256, n - 1)
  }

  lemma {:induction false} TruncateFits(v: nat, n: nat)
    requires v < Pow256(n)
    ensures Truncate(v, n) == v
  {
    if n == 0 {
    } else {
      TruncateFits(v / 256, n - 1);
    }
  }

  /** Bytes laid down by StoreWord read back as the word, truncated to its width. */
  lemma {:induction false} LoadHeldWord(m: Bytes, at: int, n: nat, v: nat)
    requires HoldsWord(m, at, n, v)
    ensures LoadWord(m, at, n) == Truncate(v, n)
    decreases n
  {
    if n == 0 {
    } else {
      assert m(at + 0) == WordByte(v, 0);
      assert HoldsWord(m, at + 1, n - 1, v / 256) by {
        forall i | 0 <= i < n - 1 ensures m(at + 1 + i) == WordByte(v / 256, i) {
          assert m(at + (i + 1)) == WordByte(v, i + 1);
        }
      }
      LoadHeldWord(m, at + 1, n - 1, v / 256);
    }
  }

  /** The first byte is the least significant one. */
  lemma LoadLowByte(m: Bytes, at: int, n: nat)
    requires n >= 1
    ensures LoadWord(m, at, n) % 256 == m(at)
  {
    var rest := LoadWord(m, at + 1, n - 1);
    assert LoadWord(m, at, n) == m(at) + 256 * rest;
  }

  lemma Pow256Values()
    ensures Pow256(8) == WORD
  {
    assert Pow256(3) == 256 * Pow256(2);
    assert Pow256(6) == 256 * 256 * Pow256(4);
  }

  // ---------------------------------------------------------------- chunk header

  const CHUNK_INVALID: Byte := 0
  const CHUNK_ALLOCATED: Byte := 2
  const CHUNK_QUARANTINE: Byte := 3

  /** AtomicContextStore: thread in the upper half, stack in the lower. */
  function Context(tid: nat, stack: nat): nat { tid * 0x1_0000_0000 + stack }

  function ContextTid(context: nat): nat { context / 0x1_0000_0000 }

  function ContextStack(context: nat): nat { context % 0x1_0000_0000 }

  lemma ContextRoundTrip(tid: nat, stack: nat)
    requires tid < 0x1_0000_0000 && stack < 0x1_0000_0000
    ensures Context(tid, stack) < WORD
    ensures ContextTid(Context(tid, stack)) == tid && ContextStack(Context(tid, stack)) == stack
  {
  }

  /** The fields of ChunkHeader other than the state. */
  datatype Meta = Meta(allocType: nat, lsanTag: nat, alignLog: nat, size: nat, context: nat)

  ghost predicate PackableMeta(h: Meta) {
    h.allocType < 4 && h.lsanTag < 4 && h.alignLog < 8 && h.size < 0x1_0000_0000_0000 && h.context < WORD
  }

  /** Byte `i` of the header; byte 0 is the chunk state and is written last. */
  function MetaByte(h: Meta, i: nat): Byte {
    if i == 1 then (h.allocType + 4 * h.lsanTag + 16 * h.alignLog) % 256
    else if i < 4 then WordByte(h.size / 0x1_0000_0000, if i < 2 then 0 else i - 2)
    else if i < 8 then WordByte(h.size % 0x1_0000_0000, i - 4)
    else WordByte(h.context, i - 8)
  }

  function StoreMeta(m: Bytes, chunk: int, h: Meta): Bytes {
    a => if chunk < a < chunk + 16 then MetaByte(h, a - chunk) else m(a)
  }

  ghost predicate MetaAt(m: Bytes, chunk: int, h: Meta) {
    forall i :: 1 <= i < 16 ==> m(chunk + i) == MetaByte(h, i)
  }

  function UsedSize(m: Bytes, chunk: int): nat {
    LoadWord(m, chunk + 2, 2) * 0x1_0000_0000 + LoadWord(m, chunk + 4, 4)
  }

  function AllocType(m: Bytes, chunk: int): nat { m(chunk + 1) % 4 }

  function AlignLog(m: Bytes, chunk: int): nat { m(chunk + 1) / 16 % 8 }

  function AllocContext(m: Bytes, chunk: int): nat { LoadWord(m, chunk + 8, 8) }

  /**
   * SetUsedSize stores 48 bits, so its CHECK_EQ passes if and only if the size is below 2^48.
   */
  lemma SizeReadsBack(m: Bytes, chunk: int, h: Meta)
    requires MetaAt(m, chunk, h)
    ensures UsedSize(m, chunk) == h.size % 0x1_0000_0000_0000
    ensures UsedSize(m, chunk) == h.size <==> h.size < 0x1_0000_0000_0000
  {
    SizeWords(m, chunk, h);
    HighPart(h.size);
  }

  lemma SizeWords(m: Bytes, chunk: int, h: Meta)
    requires MetaAt(m, chunk, h)
    ensures LoadWord(m, chunk + 2, 2) == h.size / 0x1_0000_0000 % 0x1_0000
    ensures LoadWord(m, chunk + 4, 4) == h.size % 0x1_0000_0000
  {
    var hi, lo := h.size / 0x1_0000_0000, h.size % 0x1_0000_0000;
    assert HoldsWord(m, chunk + 2, 2, hi) by {
      forall i | 0 <= i < 2 ensures m(chunk + 2 + i) == WordByte(hi, i) {
        assert m(chunk + (2 + i)) == MetaByte(h, 2 + i);
      }
    }
    LoadHeldWord(m, chunk + 2, 2, hi);
    assert HoldsWord(m, chunk + 4, 4, lo) by {
      forall i | 0 <= i < 4 ensures m(chunk + 4 + i) == WordByte(lo, i) {
        assert m(chunk + (4 + i)) == MetaByte(h, 4 + i);
      }
    }
    LoadHeldWord(m, chunk + 4, 4, lo);
    TwoBytes(hi);
    assert Pow256(4) == 0x1_0000_0000;
    TruncateFits(lo, 4);
  }

  lemma HighPart(size: nat)
    ensures size / 0x1_0000_0000 % 0x1_0000 * 0x1_0000_0000 + size % 0x1_0000_0000 == size % 0x1_0000_0000_0000
  {
  }

  lemma TwoBytes(v: nat)
    ensures Truncate(v, 2) == v % 0x1_0000
  {
    assert Truncate(v, 2) == v % 256 + 256 * Truncate(v / 256, 1);
  }

  lemma ContextReadsBack(m: Bytes, chunk: int, h: Meta)
    requires MetaAt(m, chunk, h) && h.context < WORD
    ensures AllocContext(m, chunk) == h.context
  {
    Pow256Values();
    assert HoldsWord(m, chunk + 8, 8, h.context) by {
      forall i | 0 <= i < 8 ensures m(chunk + 8 + i) == WordByte(h.context, i) {
        assert m(chunk + (8 + i)) == MetaByte(h, 8 + i);
      }
    }
    LoadHeldWord(m, chunk + 8, 8, h.context);
    TruncateFits(h.context, 8);
  }

  /** The bit fields that share the second header byte read back as stored. */
  lemma BitFieldsReadBack(m: Bytes, chunk: int, h: Meta)
    requires MetaAt(m, chunk, h) && PackableMeta(h)
    ensures AllocType(m, chunk) == h.allocType && AlignLog(m, chunk) == h.alignLog
  {
    assert m(chunk + 1) == MetaByte(h, 1);
    var packed := h.allocType + 4 * h.lsanTag + 16 * h.alignLog;
    QuotientUnique(packed, 256, 0, packed);
    QuotientUnique(packed, 4, h.lsanTag + 4 * h.alignLog, h.allocType);
    QuotientUnique(packed, 16, h.alignLog, h.allocType + 4 * h.lsanTag);
    QuotientUnique(h.alignLog, 8, 0, h.alignLog);
  }

  // ---------------------------------------------------------------- large header

  const MAGIC: nat := 0xCC6E_96B9_CC6E_96B9

  /** LargeChunkHeader::Set(p) for a chunk `p`. */
  function SetLarge(m: Bytes, allocBeg: int, chunk: nat): Bytes {
    StoreWord(StoreWord(m, allocBeg + 8, 8, chunk), allocBeg, 8, MAGIC)
  }

  ghost predicate LargeAt(m: Bytes, allocBeg: int, chunk: nat) {
    HoldsWord(m, allocBeg, 8, MAGIC) && HoldsWord(m, allocBeg + 8, 8, chunk)
  }

  /** LargeChunkHeader::Get, with 0 for the null pointer. */
  function LargeGet(m: Bytes, allocBeg: int): nat {
    if LoadWord(m, allocBeg, 8) == MAGIC then LoadWord(m, allocBeg + 8, 8) else 0
  }

  /** Allocator::GetAsanChunk for a block of the primary (or secondary) allocator. */
  function GetAsanChunk(m: Bytes, allocBeg: int, primary: bool): (r: Option<int>) {
    var large := LargeGet(m, allocBeg);
    if large == 0 && !primary then None else
      var p := if large == 0 then allocBeg else large;
      if m(p) == CHUNK_ALLOCATED || m(p) == CHUNK_QUARANTINE then Some(p) else None
  }

  /** A word whose first byte is a chunk state is never the magic word. */
  lemma CompactIsNotMagic(m: Bytes, allocBeg: int)
    requires m(allocBeg) in {CHUNK_INVALID, CHUNK_ALLOCATED, CHUNK_QUARANTINE}
    ensures LoadWord(m, allocBeg, 8) != MAGIC && LargeGet(m, allocBeg) == 0
  {
    LoadLowByte(m, allocBeg, 8);
  }

  lemma LargeReadsBack(m: Bytes, allocBeg: int, chunk: nat)
    requires LargeAt(m, allocBeg, chunk) && chunk < WORD
    ensures LargeGet(m, allocBeg) == chunk
  {
    Pow256Values();
    LoadHeldWord(m, allocBeg, 8, MAGIC);
    TruncateFits(MAGIC, 8);
    LoadHeldWord(m, allocBeg + 8, 8, chunk);
    TruncateFits(chunk, 8);
  }

  lemma SetLargeHolds(m: Bytes, allocBeg: int, chunk: nat)
    ensures LargeAt(SetLarge(m, allocBeg, chunk), allocBeg, chunk)
    ensures SameOutside(m, SetLarge(m, allocBeg, chunk), allocBeg, allocBeg + 16)
  {
  }
}
