/** Finding a chunk again from an address, and reading what it records. */
module Lookup {
  import opened Words
  import opened Redzones
  import opened Layout
  import opened Memory
  import opened HeapState
  import opened ChunkSteps

  const PAGE_SIZE: nat := 4096

  function GetAsanChunkByAddr(h: Heap, a: int): Option<int>
    requires BlocksOk(h.blocks)
  {
    var b := GetBlockBegin(h.blocks, a);
    if b.None? then None else GetAsanChunk(h.mem, b.value, h.blocks[b.value].primary)
  }

  function AllocationSize(h: Heap, p: int): nat
    requires BlocksOk(h.blocks)
  {
    var m := GetAsanChunkByAddr(h, p);
    if m.None? || h.mem(m.value) != CHUNK_ALLOCATED || m.value + HEADER != p then 0 else UsedSize(h.mem, m.value)
  }

  /** A block whose first byte is unclaimed leads nowhere. */
  lemma QuietLookup(m: Bytes, b: int, primary: bool)
    requires Unclaimed(m(b))
    ensures GetAsanChunk(m, b, primary) == None
  {
    LoadLowByte(m, b, 8);
  }

  /** Any byte of a block leads to its chunk, in both header layouts. */
  lemma AddressFindsChunk(h: Heap, b: int, a: int)
    requires Inv(h) && b in h.chunks && Contains(h.blocks, b, a)
    ensures GetAsanChunkByAddr(h, a) ==
              if Findable(b, h.blocks[b].primary, h.chunks[b]) then Some(h.chunks[b].Header()) else None
  {
    BlockFound(h.blocks, b, a);
    assert BlockInv(h, b);
    LookupFindsChunk(h.mem, b, h.blocks[b].Size(), h.blocks[b].primary, h.chunks[b]);
  }

  lemma SizeAtHeader(h: Heap, b: int)
    requires Inv(h) && b in h.chunks
    ensures UsedSize(h.mem, h.chunks[b].Header()) == h.chunks[b].Size() >= 1
    ensures h.mem(h.chunks[b].Header()) == StateByte(h.chunks[b].state)
  {
    assert BlockInv(h, b);
    SizeReadsBack(h.mem, h.chunks[b].Header(), h.chunks[b].meta);
  }

  /** `p` is the user start of a live chunk that its block start leads to. */
  ghost predicate FoundAt(h: Heap, p: int) {
    exists b :: b in h.chunks && b in h.blocks && h.chunks[b].state == Allocated && h.chunks[b].Beg() == p
                && Findable(b, h.blocks[b].primary, h.chunks[b])
  }

  /** The bytes of a block without a chunk pass for a chunk with user start `p`. */
  ghost predicate ImpostorAt(h: Heap, p: int) {
    exists b :: Contains(h.blocks, b, p) && b !in h.chunks
                && GetAsanChunk(h.mem, b, h.blocks[b].primary) == Some(p - HEADER)
                && h.mem(p - HEADER) == CHUNK_ALLOCATED && UsedSize(h.mem, p - HEADER) != 0
  }

  lemma SizeOfChunk(h: Heap, p: int, b: int)
    requires Inv(h) && b in h.chunks && h.chunks[b].Beg() == p
    ensures b in h.blocks && Contains(h.blocks, b, p) && h.chunks[b].Size() >= 1
    ensures AllocationSize(h, p) ==
              if h.chunks[b].state == Allocated && Findable(b, h.blocks[b].primary, h.chunks[b])
              then h.chunks[b].Size() else 0
  {
    UserMemoryInside(h, b, true);
    assert BlockInv(h, b);
    SizeAtHeader(h, b);
    AddressFindsChunk(h, b, p);
  }

  /**
   * Whatever the underlying allocator writes to its blocks, AllocationSize is non-zero exactly at the
   * user starts of live chunks that lookup finds, and where a block without a chunk passes for one.
   */
  lemma AllocationSizeExact(h: Heap, p: int)
    requires Inv(h)
    ensures AllocationSize(h, p) != 0 <==> FoundAt(h, p) || ImpostorAt(h, p)
    ensures forall b :: b in h.chunks && h.chunks[b].Beg() == p && AllocationSize(h, p) != 0 ==>
              AllocationSize(h, p) == h.chunks[b].Size()
  {
    forall b | b in h.chunks && h.chunks[b].Beg() == p
      ensures b in h.blocks && h.chunks[b].Size() >= 1
      ensures AllocationSize(h, p) ==
                if h.chunks[b].state == Allocated && Findable(b, h.blocks[b].primary, h.chunks[b])
                then h.chunks[b].Size() else 0
    {
      SizeOfChunk(h, p, b);
    }
    if AllocationSize(h, p) != 0 {
      var b := GetBlockBegin(h.blocks, p).value;
      if b in h.chunks {
        AddressFindsChunk(h, b, p);
        SizeAtHeader(h, b);
      }
    }
    if ImpostorAt(h, p) {
      var b :| Contains(h.blocks, b, p) && b !in h.chunks
               && GetAsanChunk(h.mem, b, h.blocks[b].primary) == Some(p - HEADER)
               && h.mem(p - HEADER) == CHUNK_ALLOCATED && UsedSize(h.mem, p - HEADER) != 0;
      BlockFound(h.blocks, b, p);
    }
  }

  /** In every state of the allocator it is non-zero exactly at live user starts that lookup finds. */
  lemma AllocationSizeOfLive(h: Heap, p: int)
    requires Inv(h) && AllQuiet(h)
    ensures AllocationSize(h, p) != 0 <==> FoundAt(h, p)
  {
    AllocationSizeExact(h, p);
    forall b | Contains(h.blocks, b, p) && b !in h.chunks ensures GetAsanChunk(h.mem, b, h.blocks[b].primary) == None {
      assert QuietBlock(h, b);
      QuietLookup(h.mem, b, h.blocks[b].primary);
    }
  }

  // ---------------------------------------------------------------- chunk views

  function FreeTid(h: Heap, chunk: int): nat {
    if h.mem(chunk) != CHUNK_QUARANTINE then INVALID_TID else ContextTid(LoadWord(h.mem, chunk + HEADER, HEADER2))
  }

  function GetFreeStackId(h: Heap, chunk: int): nat {
    if h.mem(chunk) != CHUNK_QUARANTINE then 0 else ContextStack(LoadWord(h.mem, chunk + HEADER, HEADER2))
  }

  /** A quarantined chunk names the thread and the stack that freed it. */
  lemma FreeContextReadsBack(h: Heap, b: int, tid: nat, stack: nat)
    requires Inv(h) && b in h.chunks && tid < 0x1_0000_0000 && stack < 0x1_0000_0000
    requires h.chunks[b].freeContext == Context(tid, stack)
    ensures var c := h.chunks[b];
            && FreeTid(h, c.Header()) == (if c.state == Quarantined then tid else INVALID_TID)
            && GetFreeStackId(h, c.Header()) == (if c.state == Quarantined then stack else 0)
  {
    assert BlockInv(h, b);
    ContextRoundTrip(tid, stack);
    if h.chunks[b].state == Quarantined {
      Pow256Values();
      LoadHeldWord(h.mem, h.chunks[b].Beg(), HEADER2, Context(tid, stack));
      TruncateFits(Context(tid, stack), HEADER2);
    }
  }

  // ---------------------------------------------------------------- FindHeapChunkByAddress

  function End(m: Bytes, chunk: int): int { chunk + HEADER + UsedSize(m, chunk) }

  function AddrIsAtLeft(chunk: int, addr: nat): Option<int> {
    if addr < chunk + HEADER then Some(chunk + HEADER - addr) else None
  }

  function AddrIsAtRight(h: Heap, chunk: int, addr: nat): Option<int> {
    if (if addr + 1 == WORD then 0 else addr + 1) > End(h.mem, chunk) then Some(addr - End(h.mem, chunk)) else None
  }

  /** None when one of the two CHECKs fails. */
  function ChooseChunk(h: Heap, addr: nat, left: Option<int>, right: Option<int>): Option<Option<int>> {
    if left.None? then Some(right)
    else if right.None? then Some(left)
    else
      var ls, rs := h.mem(left.value), h.mem(right.value);
      if ls != rs && ls == CHUNK_ALLOCATED then Some(left)
      else if ls != rs && rs == CHUNK_ALLOCATED then Some(right)
      else if ls != rs && ls == CHUNK_QUARANTINE then Some(left)
      else if ls != rs && rs == CHUNK_QUARANTINE then Some(right)
      else
        var l, r := AddrIsAtRight(h, left.value, addr), AddrIsAtLeft(right.value, addr);
        if l.None? || r.None? then None
        else if l.value < r.value then Some(left) else Some(right)
  }

  /** `left` ends before `addr`, `right` starts behind it, and `left` is the better one to report. */
  ghost predicate LeftIsBetter(h: Heap, addr: nat, left: int, right: int) {
    if h.mem(left) == h.mem(right) then addr - End(h.mem, left) < right + HEADER - addr
    else h.mem(left) == CHUNK_ALLOCATED
  }

  function Before(addr: nat, l: nat): nat
    requires addr < WORD && l < PAGE_SIZE
  {
    if addr >= l then addr - l else addr + WORD - l
  }

  function LookLeft(h: Heap, addr: nat, l: nat): Option<int>
    requires BlocksOk(h.blocks) && addr < WORD && l < PAGE_SIZE
  {
    GetAsanChunkByAddr(h, Before(addr, l))
  }

  /** `l` is the least distance below a page at which lookup gives something else than `m1`. */
  ghost predicate FirstOther(h: Heap, addr: nat, m1: Option<int>, l: nat)
    requires BlocksOk(h.blocks) && addr < WORD
  {
    && 1 <= l < PAGE_SIZE && LookLeft(h, addr, l) != m1
    && forall k :: 1 <= k < l ==> LookLeft(h, addr, k) == m1
  }

  /** `m2` is what lookup gives there, or `m1` if it gives nothing else less than a page away. */
  ghost predicate IsLeftNeighbour(h: Heap, addr: nat, m1: Option<int>, m2: Option<int>)
    requires BlocksOk(h.blocks) && addr < WORD
  {
    || (exists l :: FirstOther(h, addr, m1, l) && m2 == LookLeft(h, addr, l))
    || (m2 == m1 && forall l :: 1 <= l < PAGE_SIZE ==> LookLeft(h, addr, l) == m1)
  }

  method SearchLeft(h: Heap, addr: nat, m1: Option<int>) returns (m2: Option<int>)
    requires addr < WORD && BlocksOk(h.blocks)
    ensures IsLeftNeighbour(h, addr, m1, m2)
  {
    m2 := None;
    var l := 1;
    while l < PAGE_SIZE
      invariant 1 <= l <= PAGE_SIZE
      invariant forall k :: 1 <= k < l ==> LookLeft(h, addr, k) == m1
      invariant l > 1 ==> m2 == m1
    {
      m2 := LookLeft(h, addr, l);
      if m2 != m1 {
        assert FirstOther(h, addr, m1, l);
        return;
      }
      l := l + 1;
    }
  }

  /** The chunk that is reported for an address. */
  ghost predicate Reports(h: Heap, addr: nat, r: Option<int>)
    requires BlocksOk(h.blocks) && addr < WORD
  {
    var m1 := GetAsanChunkByAddr(h, addr);
    if m1.Some? && addr >= m1.value + HEADER then r == m1
    else exists m2 :: IsLeftNeighbour(h, addr, m1, m2) && r == Better(h, addr, m1, m2)
  }

  ghost function Better(h: Heap, addr: nat, m1: Option<int>, m2: Option<int>): Option<int> {
    if m2.None? || AddrIsAtRight(h, m2.value, addr).None? then m1
    else if m1.None? || LeftIsBetter(h, addr, m2.value, m1.value) then m2
    else m1
  }

  /** The chunk to report for an address; `ok` says that no CHECK of ChooseChunk failed. */
  method FindHeapChunkByAddress(h: Heap, addr: nat) returns (ok: bool, r: Option<int>)
    requires BlocksOk(h.blocks) && addr < WORD
    ensures ok && Reports(h, addr, r)
  {
    var m1 := GetAsanChunkByAddr(h, addr);
    ok, r := true, m1;
    if m1.None? || AddrIsAtLeft(m1.value, addr).Some? {
      var m2 := SearchLeft(h, addr, m1);
      FoundState(h, addr);
      NeighbourState(h, addr, m1, m2);
      if m2.Some? && AddrIsAtRight(h, m2.value, addr).Some? {
        var chosen := ChooseChunk(h, addr, m2, m1);
        if chosen.None? { return false, r; }
        r := chosen.value;
      }
      assert r == Better(h, addr, m1, m2);
    }
  }

  /** Lookup only returns chunks that look allocated or quarantined. */
  lemma FoundState(h: Heap, a: int)
    requires BlocksOk(h.blocks)
    ensures var m := GetAsanChunkByAddr(h, a);
            m.Some? ==> h.mem(m.value) in {CHUNK_ALLOCATED, CHUNK_QUARANTINE}
  {
  }

  lemma NeighbourState(h: Heap, addr: nat, m1: Option<int>, m2: Option<int>)
    requires addr < WORD && BlocksOk(h.blocks) && IsLeftNeighbour(h, addr, m1, m2)
    requires m1.Some? ==> h.mem(m1.value) in {CHUNK_ALLOCATED, CHUNK_QUARANTINE}
    ensures m2.Some? ==> h.mem(m2.value) in {CHUNK_ALLOCATED, CHUNK_QUARANTINE}
  {
    if m2 != m1 {
      var l :| FirstOther(h, addr, m1, l) && m2 == LookLeft(h, addr, l);
      FoundState(h, Before(addr, l));
    }
  }

  /** An address in the user memory of a chunk that lookup finds is reported as that chunk's. */
  lemma OwnerIsReported(h: Heap, b: int, addr: nat, r: Option<int>)
    requires Inv(h) && b in h.chunks && InUserMemory(h.chunks[b], true, addr) && addr < WORD
    requires b in h.blocks && Findable(b, h.blocks[b].primary, h.chunks[b])
    ensures Reports(h, addr, r) <==> r == Some(h.chunks[b].Header())
  {
    UserMemoryInside(h, b, true);
    assert BlockInv(h, b);
    AddressFindsChunk(h, b, addr);
  }

  /** The block that ends where block `b` starts has a chunk that lookup finds. */
  ghost predicate IsLeftChunk(h: Heap, b: int, d: int) {
    d in h.chunks && d in h.blocks && d + h.blocks[d].Size() == b && Findable(d, h.blocks[d].primary, h.chunks[d])
  }

  /** The left chunk is reported if it alone is allocated, or with equal states if it is nearer. */
  ghost predicate LeftWins(addr: nat, left: Chunk, right: Chunk) {
    if left.state == right.state then addr - (left.Beg() + left.Size()) < right.Beg() - addr
    else left.state == Allocated
  }

  /**
   * From the left redzone of a chunk the search sees what the byte before the block leads to, provided
   * that the block start is less than a page away.
   */
  lemma NeighbourOfRedzone(h: Heap, b: int, addr: nat, m2: Option<int>)
    requires Inv(h) && AllQuiet(h) && b in h.chunks && b in h.blocks && Findable(b, h.blocks[b].primary, h.chunks[b])
    requires b <= addr < h.chunks[b].Beg() && addr < WORD && IsLeftNeighbour(h, addr, Some(h.chunks[b].Header()), m2)
    ensures m2 == if addr - b + 1 < PAGE_SIZE then GetAsanChunkByAddr(h, b - 1) else Some(h.chunks[b].Header())
  {
    var m1 := Some(h.chunks[b].Header());
    UserMemoryInside(h, b, true);
    assert BlockInv(h, b);
    forall l: nat | 1 <= l < PAGE_SIZE && l <= addr - b ensures LookLeft(h, addr, l) == m1 {
      AddressFindsChunk(h, b, addr - l);
    }
    if addr - b + 1 < PAGE_SIZE {
      LeftOfBlock(h, b);
      assert LookLeft(h, addr, addr - b + 1) == GetAsanChunkByAddr(h, b - 1);
    }
  }

  lemma LeftOfBlock(h: Heap, b: int)
    requires Inv(h) && AllQuiet(h) && b in h.chunks
    ensures GetAsanChunkByAddr(h, b - 1) != Some(h.chunks[b].Header())
    ensures forall d :: IsLeftChunk(h, b, d) ==> GetAsanChunkByAddr(h, b - 1) == Some(h.chunks[d].Header())
    ensures GetAsanChunkByAddr(h, b - 1).Some? ==> exists d :: IsLeftChunk(h, b, d)
  {
    UserMemoryInside(h, b, true);
    forall d | IsLeftChunk(h, b, d) ensures GetAsanChunkByAddr(h, b - 1) == Some(h.chunks[d].Header()) {
      assert BlockInv(h, d);
      AddressFindsChunk(h, d, b - 1);
    }
    var r := GetBlockBegin(h.blocks, b - 1);
    if r.Some? {
      assert Apart(h.blocks, r.value, b) && QuietBlock(h, r.value);
      if r.value in h.chunks {
        AddressFindsChunk(h, r.value, b - 1);
        UserMemoryInside(h, r.value, true);
        assert Findable(r.value, h.blocks[r.value].primary, h.chunks[r.value]) ==> IsLeftChunk(h, b, r.value);
      } else {
        QuietLookup(h.mem, r.value, h.blocks[r.value].primary);
      }
    }
  }

  /**
   * What is reported for an address in the left redzone of a chunk: the chunk of the block to the left
   * if there is one less than a page away and it is better, and otherwise the chunk itself.
   */
  lemma RedzoneReport(h: Heap, b: int, addr: nat, r: Option<int>)
    requires Inv(h) && AllQuiet(h) && b in h.chunks && b in h.blocks && Findable(b, h.blocks[b].primary, h.chunks[b])
    requires b <= addr < h.chunks[b].Beg() && addr < WORD && Reports(h, addr, r)
    ensures forall d :: IsLeftChunk(h, b, d) && addr - b + 1 < PAGE_SIZE ==>
              r == Some(if LeftWins(addr, h.chunks[d], h.chunks[b]) then h.chunks[d].Header() else h.chunks[b].Header())
    ensures addr - b + 1 >= PAGE_SIZE || (forall d :: !IsLeftChunk(h, b, d)) ==> r == Some(h.chunks[b].Header())
  {
    var m1 := Some(h.chunks[b].Header());
    UserMemoryInside(h, b, true);
    SizeAtHeader(h, b);
    assert BlockInv(h, b);
    AddressFindsChunk(h, b, addr);
    var m2 :| IsLeftNeighbour(h, addr, m1, m2) && r == Better(h, addr, m1, m2);
    NeighbourOfRedzone(h, b, addr, m2);
    LeftOfBlock(h, b);
    forall d | IsLeftChunk(h, b, d) && addr - b + 1 < PAGE_SIZE
      ensures r == Some(if LeftWins(addr, h.chunks[d], h.chunks[b]) then h.chunks[d].Header() else h.chunks[b].Header())
    {
      SizeAtHeader(h, d);
      UserMemoryInside(h, d, true);
      assert AddrIsAtRight(h, h.chunks[d].Header(), addr).Some?;
    }
    if m2 == m1 { assert AddrIsAtRight(h, m1.value, addr).None?; }
  }

  // ---------------------------------------------------------------- chunks that lookup misses

  /**
   * A chunk of malloc, whose alignment is 8 or 16, gets a place where lookup misses it if and only if
   * it goes to the secondary allocator while the largest redzone is 16, as after AsanDeactivate.
   */
  lemma MissedExactly(size: nat, alignment: nat, minRedzone: nat, maxRedzone: nat, b: nat, c: Chunk)
    requires CheckOptions(minRedzone, maxRedzone) && alignment in {8, 16} && b % 16 == 0
    requires c.Beg() == UserBeg(b, alignment, RedzoneSize(size, minRedzone, maxRedzone))
    ensures var needed := NeededSize(size, alignment, RedzoneSize(size, minRedzone, maxRedzone));
            !Findable(b, needed <= PRIMARY_MAX, c) <==> needed > PRIMARY_MAX && maxRedzone == 16
  {
    var rz := RedzoneSize(size, minRedzone, maxRedzone);
    assert IsPowerOfTwo(8) && IsPowerOfTwo(16);
    ChunkFits(size, alignment, rz, b);
    RemIsModulo(b + 16, alignment);
    SecondaryIsLarge(size, alignment, rz);
    if size > 0x1_0000 { LargeRedzone(size, minRedzone, maxRedzone); }
  }

  lemma SecondaryIsLarge(size: nat, alignment: nat, rz: nat)
    requires alignment in {8, 16} && IsRedzoneSize(rz)
    ensures NeededSize(size, alignment, rz) > PRIMARY_MAX ==> size > 0x1_0000
  {
    RoundUpToLeast(Max(size, HEADER2), alignment);
  }

  /**
   * Every live chunk of 16k >= 2^17 bytes is missed when both redzones are 16: AllocationSize of its
   * user start is 0.
   */
  lemma MissedExample(m: Bytes, shadow: Bytes, context: nat, unit: nat, k: nat)
    requires context < WORD && unit > 0 && 0x2000 <= k <= 0x10_0000_0000 && unit + k + 2 <= 0x800_0000_0000
    ensures var b := 16 * unit;
            var c := Chunk(2 * unit + 2, Meta(1, 0, 1, 16 * k, context), Allocated, 0, 0);
            var h := Heap(AllocatedBytes(m, b, c.first, c.meta, None, 0), shadow,
                          map[b := Block(unit, k + 2, false, true, Carved)], map[b := c]);
            && c.Beg() == UserBeg(b, 8, RedzoneSize(c.Size(), 16, 16))
            && h.blocks[b].Size() == NeededSize(c.Size(), 8, RedzoneSize(c.Size(), 16, 16)) > PRIMARY_MAX
            && Inv(h) && AllocationSize(h, c.Beg()) == 0
  {
    var b := 16 * unit;
    var c := Chunk(2 * unit + 2, Meta(1, 0, 1, 16 * k, context), Allocated, 0, 0);
    var h := Heap(AllocatedBytes(m, b, c.first, c.meta, None, 0), shadow,
                  map[b := Block(unit, k + 2, false, true, Carved)], map[b := c]);
    AllocateMemory(m, b, 16 * (k + 2), c, None, 0);
    assert BlockInv(h, b);
    MissedLayout(unit, k);
    AddressFindsChunk(h, b, c.Beg());
  }

  lemma MissedLayout(unit: nat, k: nat)
    requires 0x2000 <= k
    ensures CheckOptions(16, 16) && RedzoneSize(16 * k, 16, 16) == 16
    ensures UserBeg(16 * unit, 8, 16) == 16 * unit + 16 && NeededSize(16 * k, 8, 16) == 16 * k + 32
  {
    assert IsPowerOfTwo(16);
    LargeRedzone(16 * k, 16, 16);
    AlreadyAligned(2 * unit + 2);
    AlreadyAligned(2 * k);
  }

  lemma AlreadyAligned(n: nat)
    ensures IsAligned(8 * n, 8) && RoundUpTo(8 * n, 8) == 8 * n
  {
    QuotientUnique(8 * n, 8, n, 0);
    RemIsModulo(8 * n, 8);
  }
}
