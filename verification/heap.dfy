/**
 * The heap as the allocator leaves it between operations: blocks carved by the underlying
 * allocator, the chunks placed in them, and what memory and shadow must hold for each.
 */
module HeapState {
  import opened Words
  import opened Layout
  import opened Memory
  import opened Shadow

  /**
   * What an address range is to the underlying allocator: a block it has carved, or what is left of a
   * region of blocks of `blockUnits` units. Of such a reserve the first `mapped` units are mapped,
   * `tail` of them before the mapping that is being carved.
   */
  datatype Kind = Carved | Reserve(tail: nat, mapped: nat, blockUnits: nat)

  /** Counted in units of 16 bytes; a block is `used` between its Allocate and Deallocate. */
  datatype Block = Block(unit: nat, units: nat, primary: bool, used: bool, kind: Kind) {
    function Size(): nat { 16 * units }
  }

  datatype State = Allocated | Quarantined

  /**
   * One lifetime of a chunk, whose user memory starts at granule `first`. `freeContext` says who
   * freed a quarantined chunk. `poison` is the byte that its user granules are poisoned with, 0
   * when they are not.
   */
  datatype Chunk = Chunk(first: nat, meta: Meta, state: State, freeContext: nat, poison: Byte) {
    function Beg(): nat { GRANULE * first }
    function Header(): int { GRANULE * first - HEADER }
    function Size(): nat { meta.size }
  }

  function StateByte(s: State): Byte {
    match s case Allocated => CHUNK_ALLOCATED case Quarantined => CHUNK_QUARANTINE
  }

  /** `blocks` and `chunks` are keyed by the block start. */
  datatype Heap = Heap(mem: Bytes, shadow: Bytes, blocks: map<int, Block>, chunks: map<int, Chunk>)

  /** Blocks are 16-aligned, lie below 2^47 and do not overlap. */
  predicate BlocksOk(blocks: map<int, Block>) {
    && (forall b :: b in blocks ==>
          b == 16 * blocks[b].unit && b > 0 && blocks[b].units > 0 && b + blocks[b].Size() <= 0x8000_0000_0000)
    && (forall b, c {:trigger Apart(blocks, b, c)} :: b in blocks && c in blocks && b != c ==> Apart(blocks, b, c))
  }

  predicate Apart(blocks: map<int, Block>, b: int, c: int) {
    b in blocks && c in blocks ==> b + blocks[b].Size() <= c || c + blocks[c].Size() <= b
  }

  /** The chunk lies in the block, and its header at the block start or behind a large header. */
  ghost predicate Placed(b: int, size: nat, c: Chunk) {
    && PackableMeta(c.meta) && c.Size() >= 1 && c.freeContext < WORD
    && (c.Header() == b || b + LARGE_HEADER <= c.Header())
    && c.Beg() + Max(c.Size(), HEADER2) <= b + size
  }

  ghost predicate ChunkInMemory(m: Bytes, b: int, c: Chunk) {
    && m(c.Header()) == StateByte(c.state)
    && MetaAt(m, c.Header(), c.meta)
    && (c.Header() != b ==> c.Header() >= 0 && LargeAt(m, b, c.Header()))
    && (c.state == Quarantined ==> HoldsWord(m, c.Beg(), HEADER2, c.freeContext))
  }

  ghost predicate BlockInv(h: Heap, b: int) {
    b in h.blocks ==>
      && (b in h.chunks ==>
            && h.blocks[b].used && h.blocks[b].kind == Carved
            && Placed(b, h.blocks[b].Size(), h.chunks[b])
            && ChunkInMemory(h.mem, b, h.chunks[b]))
      && ReserveOk(h.blocks[b])
  }

  /** Less than a block is mapped and not carved, but for the mapping that is being carved. */
  predicate ReserveOk(block: Block) {
    block.kind.Reserve? ==>
      !block.used && block.kind.tail <= block.kind.mapped <= block.units && block.kind.tail < block.kind.blockUnits
  }

  ghost predicate Inv(h: Heap) {
    && BlocksOk(h.blocks)
    && h.chunks.Keys <= h.blocks.Keys
    && (forall b :: b in h.blocks ==> BlockInv(h, b))
  }

  /** No mapping is half carved. */
  ghost predicate AllCarved(blocks: map<int, Block>) {
    forall b :: b in blocks && blocks[b].kind.Reserve? ==> blocks[b].kind.tail == blocks[b].kind.mapped
  }

  // ---------------------------------------------------------------- blocks without a chunk

  /**
   * The first byte of a block does not make it look like one with a chunk: it is not a state of a chunk
   * and not the first byte of the magic word. Zeroed memory has such a byte, and so has the pointer at
   * the start of a quarantine batch.
   */
  predicate Unclaimed(x: Byte) { x != CHUNK_ALLOCATED && x != CHUNK_QUARANTINE && x != 0xb9 }

  ghost predicate Zeroed(m: Bytes, from: int, to: int) {
    forall a :: from <= a < to ==> m(a) == 0
  }

  ghost predicate QuietBlock(h: Heap, b: int) {
    b in h.blocks ==>
      match h.blocks[b].kind
      case Carved => b !in h.chunks ==> Unclaimed(h.mem(b))
      case Reserve(_, mapped, _) => Zeroed(h.mem, b, b + 16 * mapped)
  }

  ghost predicate AllQuiet(h: Heap) {
    forall b :: b in h.blocks ==> QuietBlock(h, b)
  }

  // ---------------------------------------------------------------- shadow

  /** Poisoning is off, is on again, or has always been on. */
  datatype Poisoning = Off | On | Always

  /** The chunk of block `b` can be found from the block start. */
  predicate Findable(b: int, primary: bool, c: Chunk) { primary || c.Header() != b }

  ghost function ExpectedShadow(chunks: map<int, Chunk>, b: int, poisonPartial: bool, g: int): Byte {
    if b in chunks && UserGranule(chunks[b].first, chunks[b].Size(), g) then
      if chunks[b].poison == 0 then UserShadow(chunks[b].first, chunks[b].Size(), poisonPartial, g)
      else chunks[b].poison
    else LEFT_REDZONE
  }

  /** Only an allocated chunk that its block start does not lead to can be poisoned while it lives. */
  ghost predicate PoisonOk(b: int, primary: bool, c: Chunk) {
    match c.state
    case Allocated => c.poison == 0 || (c.poison == LEFT_REDZONE && !Findable(b, primary, c))
    case Quarantined => c.poison in {LEFT_REDZONE, HEAP_FREE}
  }

  /** Without any activation a chunk is poisoned from its free on, and with the heap-free magic. */
  ghost predicate UsualPoison(c: Chunk) {
    c.poison == if c.state == Allocated then 0 else HEAP_FREE
  }

  /** Granule `g` lies wholly in the user memory of a live chunk that its block start leads to. */
  ghost predicate WholeLiveGranule(h: Heap, b: int, g: int) {
    && b in h.blocks && b in h.chunks && h.chunks[b].state == Allocated
    && Findable(b, h.blocks[b].primary, h.chunks[b])
    && h.chunks[b].first <= g && GRANULE * (g - h.chunks[b].first) + GRANULE <= h.chunks[b].Size()
  }

  /** While poisoning is off only the whole granules of live chunks are kept clear. */
  ghost predicate GranuleInv(h: Heap, poisonPartial: bool, canPoison: bool, b: int, g: int) {
    if canPoison then h.shadow(g) == ExpectedShadow(h.chunks, b, poisonPartial, g)
    else WholeLiveGranule(h, b, g) ==> h.shadow(g) == 0
  }

  ghost predicate ChunkShadow(h: Heap, poisonPartial: bool, mode: Poisoning, b: int)
    requires b in h.blocks && b in h.chunks
  {
    && (mode != Off ==> PoisonOk(b, h.blocks[b].primary, h.chunks[b]))
    && (mode == Always ==> UsualPoison(h.chunks[b]))
    && (forall g :: b <= GRANULE * g < b + h.blocks[b].Size() ==> GranuleInv(h, poisonPartial, mode != Off, b, g))
  }

  /**
   * A block without a chunk is poisoned from end to end, or its first granule is clear: it was carved
   * from memory that was mapped while poisoning was off.
   */
  ghost predicate FreeShadow(shadow: Bytes, mode: Poisoning, b: int, end: int) {
    mode == Off || Filled(shadow, b, end, LEFT_REDZONE) || (mode == On && Clear(shadow, b))
  }

  ghost predicate Clear(shadow: Bytes, b: int) {
    forall g :: GRANULE * g == b ==> shadow(g) == 0
  }

  ghost predicate Uniform(shadow: Bytes, from: int, to: int) {
    Filled(shadow, from, to, LEFT_REDZONE) || Filled(shadow, from, to, 0)
  }

  /** Each mapping of a reserve is poisoned or clear as a whole, and what is not mapped is clear. */
  ghost predicate ReserveShadow(shadow: Bytes, mode: Poisoning, b: int, block: Block)
    requires block.kind.Reserve?
  {
    var tail, mapped := b + 16 * block.kind.tail, b + 16 * block.kind.mapped;
    && Uniform(shadow, b, tail) && (mode == Always ==> Filled(shadow, b, tail, LEFT_REDZONE))
    && (if mode == Off then Uniform(shadow, tail, mapped) else Filled(shadow, tail, mapped, LEFT_REDZONE))
    && Filled(shadow, mapped, b + block.Size(), 0)
  }

  ghost predicate ShadowInv(h: Heap, poisonPartial: bool, mode: Poisoning, b: int) {
    b in h.blocks ==>
      if h.blocks[b].kind.Reserve? then ReserveShadow(h.shadow, mode, b, h.blocks[b])
      else if b in h.chunks then ChunkShadow(h, poisonPartial, mode, b)
      else FreeShadow(h.shadow, mode, b, b + h.blocks[b].Size())
  }

  ghost predicate Exact(h: Heap, poisonPartial: bool, mode: Poisoning) {
    forall b :: b in h.blocks ==> ShadowInv(h, poisonPartial, mode, b)
  }

  ghost predicate InUserMemory(c: Chunk, poisonPartial: bool, a: int) {
    c.Beg() <= a < c.Beg() + AddressableSize(c.Size(), poisonPartial)
  }

  /** Byte `a` belongs to the user memory of an allocated chunk. */
  ghost predicate Live(h: Heap, poisonPartial: bool, a: int) {
    exists b :: b in h.chunks && h.chunks[b].state == Allocated && InUserMemory(h.chunks[b], poisonPartial, a)
  }

  // ---------------------------------------------------------------- one block at a time

  ghost predicate SameElsewhere(h: Heap, h': Heap, b: int) {
    && h'.blocks.Keys == h.blocks.Keys
    && b in h.blocks && h'.blocks[b].unit == h.blocks[b].unit && h'.blocks[b].units == h.blocks[b].units
    && (forall c :: c in h.blocks && c != b ==>
          && h'.blocks[c] == h.blocks[c]
          && (c in h'.chunks <==> c in h.chunks) && (c in h.chunks ==> h'.chunks[c] == h.chunks[c]))
  }

  /** A chunk only looks at the bytes of its block. */
  lemma ChunkFrame(m: Bytes, m': Bytes, b: int, size: nat, c: Chunk)
    requires Placed(b, size, c) && SameOn(m, m', b, b + size)
    ensures ChunkInMemory(m, b, c) ==> ChunkInMemory(m', b, c)
  {
  }

  /** An operation on one block keeps the invariant if that block ends well. */
  lemma InvStep(h: Heap, h': Heap, b: int)
    requires Inv(h) && SameElsewhere(h, h', b)
    requires SameOutside(h.mem, h'.mem, b, b + h.blocks[b].Size())
    requires h'.chunks.Keys <= h'.blocks.Keys
    requires BlockInv(h', b)
    ensures Inv(h')
  {
    SameBlocksOk(h, h', b);
    forall c | c in h'.blocks ensures BlockInv(h', c) {
      assert BlockInv(h, c);
      if c != b && c in h.chunks {
        assert Apart(h.blocks, b, c);
        assert SameOn(h.mem, h'.mem, c, c + h.blocks[c].Size());
        ChunkFrame(h.mem, h'.mem, c, h.blocks[c].Size(), h.chunks[c]);
      }
    }
  }

  lemma SameBlocksOk(h: Heap, h': Heap, b: int)
    requires BlocksOk(h.blocks) && SameElsewhere(h, h', b)
    ensures BlocksOk(h'.blocks)
  {
    assert forall c :: c in h'.blocks ==> h'.blocks[c].unit == h.blocks[c].unit && h'.blocks[c].units == h.blocks[c].units;
    forall x, y | x in h'.blocks && y in h'.blocks && x != y ensures Apart(h'.blocks, x, y) {
      assert Apart(h.blocks, x, y);
    }
  }

  lemma QuietStep(h: Heap, h': Heap, b: int)
    requires BlocksOk(h.blocks) && AllQuiet(h) && SameElsewhere(h, h', b)
    requires SameOutside(h.mem, h'.mem, b, b + h.blocks[b].Size())
    requires QuietBlock(h', b) && forall c :: c in h.blocks ==> ReserveOk(h.blocks[c])
    ensures AllQuiet(h')
  {
    forall c | c in h'.blocks ensures QuietBlock(h', c) {
      assert QuietBlock(h, c) && ReserveOk(h.blocks[c]);
      if c != b { assert Apart(h.blocks, b, c); }
    }
  }

  /** The shadow of a block outside of which nothing was written. */
  lemma OtherShadow(h: Heap, h': Heap, poisonPartial: bool, mode: Poisoning, b: int, c: int)
    requires BlocksOk(h.blocks) && SameElsewhere(h, h', b) && c in h.blocks && c != b && ReserveOk(h.blocks[c])
    requires SameShadowOutside(h.shadow, h'.shadow, b, b + h.blocks[b].Size()) && ShadowInv(h, poisonPartial, mode, c)
    ensures ShadowInv(h', poisonPartial, mode, c)
  {
    assert Apart(h.blocks, b, c);
    var end := c + h.blocks[c].Size();
    assert forall g :: c <= GRANULE * g < end ==> h'.shadow(g) == h.shadow(g);
    if h.blocks[c].kind.Carved? && c in h.chunks {
      forall g | c <= GRANULE * g < end ensures GranuleInv(h', poisonPartial, mode != Off, c, g) {
        assert GranuleInv(h, poisonPartial, mode != Off, c, g);
      }
    }
  }

  lemma ExactStep(h: Heap, h': Heap, poisonPartial: bool, mode: Poisoning, b: int)
    requires Inv(h) && Exact(h, poisonPartial, mode) && SameElsewhere(h, h', b)
    requires SameShadowOutside(h.shadow, h'.shadow, b, b + h.blocks[b].Size())
    requires ShadowInv(h', poisonPartial, mode, b)
    ensures Exact(h', poisonPartial, mode)
  {
    forall c | c in h'.blocks ensures ShadowInv(h', poisonPartial, mode, c) {
      assert ShadowInv(h, poisonPartial, mode, c) && BlockInv(h, c);
      if c != b { OtherShadow(h, h', poisonPartial, mode, b, c); }
    }
  }

  // ---------------------------------------------------------------- main results

  /** No live chunk is poisoned. */
  ghost predicate AllClear(h: Heap) {
    forall b :: b in h.chunks && h.chunks[b].state == Allocated ==> h.chunks[b].poison == 0
  }

  /** Only chunks that lookup misses can be poisoned while they live. */
  lemma AllFoundIsAllClear(h: Heap, poisonPartial: bool, mode: Poisoning)
    requires Inv(h) && Exact(h, poisonPartial, mode) && mode != Off
    requires forall b :: b in h.chunks && b in h.blocks ==> Findable(b, h.blocks[b].primary, h.chunks[b])
    ensures AllClear(h)
  {
    forall b | b in h.chunks && h.chunks[b].state == Allocated ensures h.chunks[b].poison == 0 {
      assert b in h.blocks && ShadowInv(h, poisonPartial, mode, b) && BlockInv(h, b);
    }
  }

  /**
   * With poisoning on, the shadow makes a byte of a block with a chunk addressable exactly when it is
   * user memory of an allocated chunk that is not poisoned, and user memory of a quarantined chunk
   * carries the chunk's poison.
   */
  lemma ShadowIsExact(h: Heap, poisonPartial: bool, mode: Poisoning, b: int, a: int)
    requires Inv(h) && Exact(h, poisonPartial, mode) && mode != Off
    requires b in h.chunks && Contains(h.blocks, b, a)
    ensures Addressable(h.shadow, a) <==> Live(h, poisonPartial, a) && h.chunks[b].poison == 0
    ensures h.chunks[b].state == Quarantined && InUserMemory(h.chunks[b], true, a) ==>
              && h.shadow(a / GRANULE) == h.chunks[b].poison && h.chunks[b].poison in {LEFT_REDZONE, HEAP_FREE}
              && (mode == Always ==> h.chunks[b].poison == HEAP_FREE)
  {
    var c := h.chunks[b];
    assert ShadowInv(h, poisonPartial, mode, b) && BlockInv(h, b);
    var g := a / GRANULE;
    BlockGranule(h.blocks[b].unit, h.blocks[b].units, a);
    assert GranuleInv(h, poisonPartial, true, b, g);
    OnlyOwnBlock(h, poisonPartial, b, a);
    if UserGranule(c.first, c.Size(), g) {
      if c.poison == 0 { UserShadowMeaning(h.shadow, c.first, c.Size(), poisonPartial, a); }
    } else {
      OutsideUserGranules(c.first, c.Size(), poisonPartial, a);
      OutsideUserGranules(c.first, c.Size(), true, a);
    }
  }

  /** If poisoning has always been on, this holds of every byte of every block. */
  lemma AlwaysExact(h: Heap, poisonPartial: bool, b: int, a: int)
    requires Inv(h) && Exact(h, poisonPartial, Always) && Contains(h.blocks, b, a)
    ensures Addressable(h.shadow, a) <==> Live(h, poisonPartial, a)
    ensures b in h.chunks && h.chunks[b].state == Quarantined && InUserMemory(h.chunks[b], true, a) ==>
              h.shadow(a / GRANULE) == HEAP_FREE
  {
    assert ShadowInv(h, poisonPartial, Always, b);
    OnlyOwnBlock(h, poisonPartial, b, a);
    BlockGranule(h.blocks[b].unit, h.blocks[b].units, a);
    if b in h.chunks { ShadowIsExact(h, poisonPartial, Always, b, a); }
  }

  /** With poisoning on again, a block without a chunk is poisoned as a whole if its first byte is. */
  lemma FreeBlockPoisoned(h: Heap, poisonPartial: bool, mode: Poisoning, b: int, a: int)
    requires Inv(h) && Exact(h, poisonPartial, mode) && mode != Off && Contains(h.blocks, b, a) && b !in h.chunks
    ensures !Addressable(h.shadow, b) ==> !Addressable(h.shadow, a)
    ensures mode == Always ==> !Addressable(h.shadow, a)
  {
    assert ShadowInv(h, poisonPartial, mode, b);
    BlockGranule(h.blocks[b].unit, h.blocks[b].units, a);
    BlockGranule(h.blocks[b].unit, h.blocks[b].units, b);
    SixteensAre8s(b);
  }

  lemma BlockGranule(unit: nat, units: nat, a: int)
    requires 16 * unit <= a < 16 * unit + 16 * units
    ensures 16 * unit <= GRANULE * (a / GRANULE) < 16 * unit + 16 * units
  {
  }

  /** User memory never leaves the block its chunk is placed in. */
  lemma OnlyOwnBlock(h: Heap, poisonPartial: bool, b: int, a: int)
    requires Inv(h) && b in h.blocks && b <= a < b + h.blocks[b].Size()
    ensures Live(h, poisonPartial, a) <==>
              b in h.chunks && h.chunks[b].state == Allocated && InUserMemory(h.chunks[b], poisonPartial, a)
  {
    forall c | c in h.chunks && InUserMemory(h.chunks[c], poisonPartial, a)
      ensures c == b
    {
      UserMemoryInside(h, c, poisonPartial);
      assert c != b ==> Apart(h.blocks, b, c);
    }
  }

  lemma UserMemoryInside(h: Heap, b: int, poisonPartial: bool)
    requires Inv(h) && b in h.chunks
    ensures b in h.blocks && b + HEADER <= h.chunks[b].Beg()
    ensures h.chunks[b].Beg() + AddressableSize(h.chunks[b].Size(), poisonPartial) <= b + h.blocks[b].Size()
  {
    assert BlockInv(h, b);
    RoundedInside(h.chunks[b].first, h.chunks[b].Size(), h.blocks[b].unit, h.blocks[b].units);
  }

  /** Whole granules of user memory end before a granule-aligned end does. */
  lemma RoundedInside(first: nat, size: nat, unit: nat, units: nat)
    requires GRANULE * first + size <= 16 * unit + 16 * units
    ensures GRANULE * first + GRANULE * GranuleCount(size) <= 16 * unit + 16 * units
  {
  }

  // ---------------------------------------------------------------- block lookup

  predicate Contains(blocks: map<int, Block>, b: int, a: int) {
    b in blocks && blocks[b].kind == Carved && b <= a < b + blocks[b].Size()
  }

  lemma AtMostOneBlock(blocks: map<int, Block>, a: int)
    requires BlocksOk(blocks)
    ensures forall b, c :: Contains(blocks, b, a) && Contains(blocks, c, a) ==> b == c
  {
    forall b, c | Contains(blocks, b, a) && Contains(blocks, c, a) ensures b == c {
      assert b != c ==> Apart(blocks, b, c);
    }
  }

  /** GetBlockBegin of the underlying allocator. */
  function GetBlockBegin(blocks: map<int, Block>, a: int): (r: Option<int>)
    requires BlocksOk(blocks)
    ensures r.Some? ==> Contains(blocks, r.value, a)
    ensures r.None? ==> forall b :: b in blocks ==> !Contains(blocks, b, a)
  {
    AtMostOneBlock(blocks, a);
    if exists b :: b in blocks && Contains(blocks, b, a) then
      var b :| b in blocks && Contains(blocks, b, a);
      Some(b)
    else None
  }

  /** Block lookup is exact, so it finds the block of every chunk from any of its bytes. */
  lemma BlockFound(blocks: map<int, Block>, b: int, a: int)
    requires BlocksOk(blocks) && Contains(blocks, b, a)
    ensures GetBlockBegin(blocks, a) == Some(b)
  {
    var r := GetBlockBegin(blocks, a);
    assert r.Some?;
    assert Contains(blocks, r.value, a);
    AtMostOneBlock(blocks, a);
  }
}
