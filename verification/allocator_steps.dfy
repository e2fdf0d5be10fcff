/** How the operations of the allocator keep heap, quarantine and statistics in step. */
module AllocatorSteps {
  import opened Words
  import opened Redzones
  import opened Layout
  import opened Memory
  import opened Shadow
  import opened HeapState
  import opened ChunkSteps
  import opened Accounting

  /** Everything the operations must keep. */
  datatype Books = Books(heap: Heap, bag: multiset<int>, stats: seq<Stats>)

  /** Memory and shadow agree with the chunks. */
  ghost predicate Sound(h: Heap, poisonPartial: bool, mode: Poisoning) {
    Inv(h) && AllQuiet(h) && Exact(h, poisonPartial, mode)
  }

  /** The quarantine and the statistics agree with the chunks. */
  ghost predicate Booked(chunks: map<int, Chunk>, bag: multiset<int>, stats: seq<Stats>) {
    QuarantineOk(bag, chunks) && Balanced(stats, chunks)
  }

  ghost predicate Good(s: Books, poisonPartial: bool, mode: Poisoning) {
    Sound(s.heap, poisonPartial, mode) && Booked(s.heap.chunks, s.bag, s.stats)
  }

  /** An operation on one block keeps the heap sound if that block ends well. */
  lemma SoundStep(h: Heap, h': Heap, poisonPartial: bool, mode: Poisoning, b: int)
    requires Sound(h, poisonPartial, mode) && SameElsewhere(h, h', b) && h'.chunks.Keys <= h'.blocks.Keys
    requires SameOutside(h.mem, h'.mem, b, b + h.blocks[b].Size())
    requires SameShadowOutside(h.shadow, h'.shadow, b, b + h.blocks[b].Size())
    requires BlockInv(h', b) && QuietBlock(h', b) && ShadowInv(h', poisonPartial, mode, b)
    ensures Sound(h', poisonPartial, mode)
  {
    forall c | c in h.blocks ensures ReserveOk(h.blocks[c]) { assert BlockInv(h, c); }
    InvStep(h, h', b);
    QuietStep(h, h', b);
    ExactStep(h, h', poisonPartial, mode, b);
  }

  lemma {:induction false} TotalOfZeroes(n: nat)
    ensures Total(seq(n, _ => Stats(0, 0, 0, 0, 0, 0))) == Stats(0, 0, 0, 0, 0, 0)
  {
    if n == 0 {
    } else {
      TotalOfZeroes(n - 1);
      assert seq(n, _ => Stats(0, 0, 0, 0, 0, 0))[..n - 1] == seq(n - 1, _ => Stats(0, 0, 0, 0, 0, 0));
    }
  }

  lemma WhenTheLayoutFails(size: nat, alignment: nat, rz: nat, b: nat)
    requires 1 <= size <= MAX_ALLOWED && IsPowerOfTwo(alignment) && 8 <= alignment < WORD && IsRedzoneSize(rz)
    requires 0 < b <= 0x8000_0000_0000 && b % 16 == 0
    ensures UserBeg(b, alignment, rz) + size > b + WrappedNeededSize(size, alignment, rz)
            <==> alignment == HALF_WORD
  {
    if alignment <= 0x4000_0000_0000_0000 {
      LayoutHolds(size, alignment, rz, b);
    } else {
      PowersOfTwoNearTheTop(alignment);
      LayoutBreaks(size, rz, b);
    }
  }

  lemma GranuleOf(u: nat)
    requires u % 16 == 0
    ensures u == GRANULE * (u / GRANULE)
  {
    SixteensAre8s(u);
  }

  lemma UnitAligned(b: int, unit: nat)
    requires b == 16 * unit
    ensures b % 16 == 0
  {
  }

  lemma LayoutHolds(size: nat, alignment: nat, rz: nat, b: nat)
    requires 1 <= size <= MAX_ALLOWED && IsPowerOfTwo(alignment) && IsRedzoneSize(rz)
    requires 8 <= alignment <= 0x4000_0000_0000_0000 && b % 16 == 0
    ensures UserBeg(b, alignment, rz) + size <= b + WrappedNeededSize(size, alignment, rz)
  {
    WrappedIsExact(size, alignment, rz);
    ChunkFits(size, alignment, rz, b);
  }

  lemma LayoutBreaks(size: nat, rz: nat, b: nat)
    requires 1 <= size <= MAX_ALLOWED && IsRedzoneSize(rz) && 0 < b <= 0x8000_0000_0000
    ensures UserBeg(b, HALF_WORD, rz) + size > b + WrappedNeededSize(size, HALF_WORD, rz)
  {
    HalfWordAlignment(size, rz);
    assert Rem(b + rz, HALF_WORD) == b + rz;
  }

  // ---------------------------------------------------------------- the underlying allocator

  /** A heap with one more block, or one block less, that no other block feels. */
  lemma OtherBlock(h: Heap, h': Heap, poisonPartial: bool, mode: Poisoning, b: int, end: int, c: int)
    requires Sound(h, poisonPartial, mode) && c in h.blocks && c in h'.blocks && h'.blocks[c] == h.blocks[c]
    requires c in h'.chunks <==> c in h.chunks
    requires c in h.chunks ==> h'.chunks[c] == h.chunks[c]
    requires c + h.blocks[c].Size() <= b || end <= c
    requires SameOutside(h.mem, h'.mem, b, end) && SameShadowOutside(h.shadow, h'.shadow, b, end)
    ensures BlockInv(h', c) && QuietBlock(h', c) && ShadowInv(h', poisonPartial, mode, c)
  {
    assert BlockInv(h, c) && QuietBlock(h, c) && ShadowInv(h, poisonPartial, mode, c);
    var stop := c + h.blocks[c].Size();
    assert forall g :: c <= GRANULE * g < stop ==> h'.shadow(g) == h.shadow(g);
    if c in h.chunks {
      assert SameOn(h.mem, h'.mem, c, stop);
      ChunkFrame(h.mem, h'.mem, c, h.blocks[c].Size(), h.chunks[c]);
      forall g | c <= GRANULE * g < stop ensures GranuleInv(h', poisonPartial, mode != Off, c, g) {
        assert GranuleInv(h, poisonPartial, mode != Off, c, g);
      }
    }
  }

  /** A region of the primary allocator is set aside, or a block of the secondary one is mapped. */
  lemma NewBlockSound(h: Heap, h': Heap, poisonPartial: bool, mode: Poisoning, b: int)
    requires Sound(h, poisonPartial, mode) && b !in h.blocks && BlocksOk(h'.blocks) && h'.chunks == h.chunks
    requires b in h'.blocks && h'.blocks == h.blocks[b := h'.blocks[b]]
    requires SameOutside(h.mem, h'.mem, b, b + h'.blocks[b].Size())
    requires SameShadowOutside(h.shadow, h'.shadow, b, b + h'.blocks[b].Size())
    requires ReserveOk(h'.blocks[b]) && QuietBlock(h', b) && ShadowInv(h', poisonPartial, mode, b)
    ensures Sound(h', poisonPartial, mode)
  {
    forall c | c in h'.blocks ensures BlockInv(h', c) && QuietBlock(h', c) && ShadowInv(h', poisonPartial, mode, c) {
      if c != b {
        assert Apart(h'.blocks, b, c);
        OtherBlock(h, h', poisonPartial, mode, b, b + h'.blocks[b].Size(), c);
      }
    }
  }

  /** OnMap of one mapping: the memory is zero, and poisoned if poisoning is on. */
  function MappedMemory(m: Bytes, from: int, to: int): Bytes {
    a => if from <= a < to then 0 else m(a)
  }

  function MappedShadow(shadow: Bytes, canPoison: bool, from: int, to: int): Bytes {
    if canPoison then FillShadow(shadow, from, to, LEFT_REDZONE) else shadow
  }

  /** A new mapping at the end of what a region has mapped. */
  lemma MapMoreSound(h: Heap, h': Heap, poisonPartial: bool, canPoison: bool, mode: Poisoning, b: int, more: nat)
    requires Sound(h, poisonPartial, mode) && canPoison == (mode != Off)
    requires b in h.blocks && h.blocks[b].kind.Reserve? && h.blocks[b].kind.tail == h.blocks[b].kind.mapped
    requires h.blocks[b].kind.mapped + more <= h.blocks[b].units
    requires var k := h.blocks[b].kind;
             var from, to := b + 16 * k.mapped, b + 16 * (k.mapped + more);
             h' == Heap(MappedMemory(h.mem, from, to), MappedShadow(h.shadow, canPoison, from, to),
                        h.blocks[b := h.blocks[b].(kind := k.(mapped := k.mapped + more))], h.chunks)
    ensures Sound(h', poisonPartial, mode)
  {
    assert BlockInv(h, b) && QuietBlock(h, b) && ShadowInv(h, poisonPartial, mode, b);
    SoundStep(h, h', poisonPartial, mode, b);
  }

  /** The blocks after one more is carved from the reserve at `b`. */
  function CarvedBlocks(blocks: map<int, Block>, b: int): map<int, Block>
    requires b in blocks && blocks[b].kind.Reserve? && blocks[b].kind.blockUnits <= blocks[b].kind.mapped
    requires blocks[b].kind.blockUnits < blocks[b].units
  {
    var r, n := blocks[b], blocks[b].kind.blockUnits;
    blocks[b := Block(r.unit, n, true, false, Carved)]
          [b + 16 * n := Block(r.unit + n, r.units - n, true, false, Reserve(0, r.kind.mapped - n, n))]
  }

  lemma CarvedApart(blocks: map<int, Block>, b: int)
    requires BlocksOk(blocks) && b in blocks && blocks[b].kind.Reserve? && 0 < blocks[b].kind.blockUnits < blocks[b].units
    requires blocks[b].kind.blockUnits <= blocks[b].kind.mapped
    ensures b + 16 * blocks[b].kind.blockUnits !in blocks && BlocksOk(CarvedBlocks(blocks, b))
  {
    var blocks' := CarvedBlocks(blocks, b);
    var rest := b + 16 * blocks[b].kind.blockUnits;
    assert rest in blocks ==> Apart(blocks, b, rest);
    forall x, y | x in blocks' && y in blocks' && x != y ensures Apart(blocks', x, y) {
      assert (x in blocks && y in blocks ==> Apart(blocks, x, y))
             && (x in blocks && x != b ==> Apart(blocks, x, b)) && (y in blocks && y != b ==> Apart(blocks, y, b));
    }
  }

  /**
   * Carving a block keeps the heap sound. With poisoning on the block is poisoned from end to end unless
   * it starts in memory that was mapped while poisoning was off, and then its first granule is clear.
   */
  lemma CarveSound(h: Heap, poisonPartial: bool, mode: Poisoning, b: int)
    requires Sound(h, poisonPartial, mode) && b in h.blocks && h.blocks[b].kind.Reserve?
    requires h.blocks[b].kind.blockUnits <= h.blocks[b].kind.mapped && h.blocks[b].kind.blockUnits < h.blocks[b].units
    ensures Sound(h.(blocks := CarvedBlocks(h.blocks, b)), poisonPartial, mode)
  {
    assert BlockInv(h, b) && QuietBlock(h, b) && ShadowInv(h, poisonPartial, mode, b);
    CarvedApart(h.blocks, b);
    var h' := h.(blocks := CarvedBlocks(h.blocks, b));
    var rest := b + 16 * h.blocks[b].kind.blockUnits;
    CarvedShadow(h.shadow, mode, b, h.blocks[b]);
    assert h.mem(b) == 0 && Zeroed(h.mem, rest, rest + 16 * h'.blocks[rest].kind.mapped);
    forall c | c in h'.blocks ensures BlockInv(h', c) && QuietBlock(h', c) && ShadowInv(h', poisonPartial, mode, c) {
      if c != b && c != rest {
        assert Apart(h.blocks, b, c);
        OtherBlock(h, h', poisonPartial, mode, b, b + h.blocks[b].Size(), c);
      }
    }
  }

  lemma CarvedShadow(shadow: Bytes, mode: Poisoning, b: int, r: Block)
    requires b == 16 * r.unit && ReserveOk(r) && r.kind.Reserve? && ReserveShadow(shadow, mode, b, r)
    requires r.kind.blockUnits <= r.kind.mapped && r.kind.blockUnits < r.units
    ensures var n := r.kind.blockUnits;
            && FreeShadow(shadow, mode, b, b + 16 * n)
            && ReserveShadow(shadow, mode, b + 16 * n, Block(r.unit + n, r.units - n, true, false, Reserve(0, r.kind.mapped - n, n)))
  {
    var tail, end := b + 16 * r.kind.tail, b + 16 * r.kind.blockUnits;
    if mode != Off && Filled(shadow, b, tail, LEFT_REDZONE) {
      forall g | b <= GRANULE * g < end ensures shadow(g) == LEFT_REDZONE {
        assert GRANULE * g < tail || tail <= GRANULE * g;
      }
    }
  }

  /** The end of carving: what is left of the mapping waits for the next one. */
  lemma CarvingEnds(h: Heap, poisonPartial: bool, mode: Poisoning, b: int)
    requires Sound(h, poisonPartial, mode) && b in h.blocks && h.blocks[b].kind.Reserve?
    requires h.blocks[b].kind.tail == 0 && h.blocks[b].kind.mapped < h.blocks[b].kind.blockUnits
    ensures var k := h.blocks[b].kind;
            Sound(h.(blocks := h.blocks[b := h.blocks[b].(kind := k.(tail := k.mapped))]), poisonPartial, mode)
  {
    assert BlockInv(h, b) && QuietBlock(h, b) && ShadowInv(h, poisonPartial, mode, b);
    var k := h.blocks[b].kind;
    SoundStep(h, h.(blocks := h.blocks[b := h.blocks[b].(kind := k.(tail := k.mapped))]), poisonPartial, mode, b);
  }

  /** A block without a chunk changes hands, or is written to by whoever has it. */
  lemma FreeBlockKeeps(s: Books, poisonPartial: bool, mode: Poisoning, b: int, mem': Bytes, used': bool)
    requires Good(s, poisonPartial, mode) && b in s.heap.blocks && s.heap.blocks[b].kind == Carved && b !in s.heap.chunks
    requires SameOutside(s.heap.mem, mem', b, b + s.heap.blocks[b].Size()) && Unclaimed(mem'(b))
    ensures var blocks' := s.heap.blocks[b := s.heap.blocks[b].(used := used')];
            Good(s.(heap := s.heap.(mem := mem', blocks := blocks')), poisonPartial, mode)
  {
    var h' := s.heap.(mem := mem', blocks := s.heap.blocks[b := s.heap.blocks[b].(used := used')]);
    assert ShadowInv(s.heap, poisonPartial, mode, b);
    SoundStep(s.heap, h', poisonPartial, mode, b);
  }

  lemma WriteToUser(m: Bytes, m': Bytes, b: int, c: Chunk)
    requires c.state == Allocated && ChunkInMemory(m, b, c)
    requires c.Header() == b || b + LARGE_HEADER <= c.Header()
    requires SameOn(m, m', b, c.Beg())
    ensures ChunkInMemory(m', b, c)
  {
  }

  /** Writes to the user memory of an allocated chunk. */
  lemma WriteKeeps(s: Books, poisonPartial: bool, mode: Poisoning, b: int, from: int, to: int, mem': Bytes)
    requires Good(s, poisonPartial, mode) && b in s.heap.chunks && s.heap.chunks[b].state == Allocated
    requires s.heap.chunks[b].Beg() <= from <= to <= s.heap.chunks[b].Beg() + s.heap.chunks[b].Size()
    requires SameOutside(s.heap.mem, mem', from, to)
    ensures Good(s.(heap := s.heap.(mem := mem')), poisonPartial, mode)
  {
    var h, h' := s.heap, s.heap.(mem := mem');
    UserMemoryInside(h, b, true);
    assert BlockInv(h, b) && ShadowInv(h, poisonPartial, mode, b);
    WriteToUser(h.mem, mem', b, h.chunks[b]);
    SameGranules(h, h', poisonPartial, mode, b);
    SoundStep(h, h', poisonPartial, mode, b);
  }

  lemma SameGranules(h: Heap, h': Heap, poisonPartial: bool, mode: Poisoning, b: int)
    requires b in h.blocks && b in h.chunks && ChunkShadow(h, poisonPartial, mode, b)
    requires h'.shadow == h.shadow && h'.blocks == h.blocks && h'.chunks == h.chunks
    ensures ChunkShadow(h', poisonPartial, mode, b)
  {
    forall g | b <= GRANULE * g < b + h.blocks[b].Size() ensures GranuleInv(h', poisonPartial, mode != Off, b, g) {
      assert GranuleInv(h, poisonPartial, mode != Off, b, g);
    }
  }

  // ---------------------------------------------------------------- Allocate

  lemma UnusedHasNoChunk(h: Heap, b: int)
    requires Inv(h) && b in h.blocks && !h.blocks[b].used
    ensures b !in h.chunks
  {
    assert BlockInv(h, b);
  }

  /** The test that Allocate makes of the first shadow byte, and the repair of the block. */
  function RepairedShadow(shadow: Bytes, canPoison: bool, unit: nat, units: nat): Bytes {
    if shadow(2 * unit) == 0 && canPoison then PoisonShadow(shadow, canPoison, 2 * unit, 2 * units, LEFT_REDZONE)
    else shadow
  }

  /** Testing one byte is enough: afterwards the whole block is poisoned if poisoning is on. */
  lemma OneByteIsEnough(shadow: Bytes, canPoison: bool, mode: Poisoning, unit: nat, units: nat)
    requires FreeShadow(shadow, mode, 16 * unit, 16 * unit + 16 * units) && canPoison == (mode != Off) && units > 0
    ensures canPoison ==>
              Filled(RepairedShadow(shadow, canPoison, unit, units), 16 * unit, 16 * unit + 16 * units, LEFT_REDZONE)
  {
    assert GRANULE * (2 * unit) == 16 * unit;
  }

  lemma TakeKeeps(s: Books, poisonPartial: bool, canPoison: bool, mode: Poisoning, b: int)
    requires Good(s, poisonPartial, mode) && canPoison == (mode != Off)
    requires b in s.heap.blocks && s.heap.blocks[b].kind == Carved && b !in s.heap.chunks
    ensures var shadow' := RepairedShadow(s.heap.shadow, canPoison, s.heap.blocks[b].unit, s.heap.blocks[b].units);
            && Good(s.(heap := s.heap.(blocks := s.heap.blocks[b := s.heap.blocks[b].(used := true)], shadow := shadow')),
                    poisonPartial, mode)
            && (canPoison ==> Filled(shadow', b, b + s.heap.blocks[b].Size(), LEFT_REDZONE))
  {
    var h := s.heap;
    var shadow' := RepairedShadow(h.shadow, canPoison, h.blocks[b].unit, h.blocks[b].units);
    assert ShadowInv(h, poisonPartial, mode, b) && QuietBlock(h, b);
    OneByteIsEnough(h.shadow, canPoison, mode, h.blocks[b].unit, h.blocks[b].units);
    SoundStep(h, h.(blocks := h.blocks[b := h.blocks[b].(used := true)], shadow := shadow'), poisonPartial, mode, b);
  }

  lemma AllocateShadowInv(h: Heap, h': Heap, poisonPartial: bool, canPoison: bool, mode: Poisoning, b: int)
    requires b in h.blocks && b !in h.chunks && canPoison == (mode != Off)
    requires canPoison ==> Filled(h.shadow, b, b + h.blocks[b].Size(), LEFT_REDZONE)
    requires h'.blocks == h.blocks && b in h'.chunks
    requires h'.chunks[b].state == Allocated && h'.chunks[b].poison == 0
    requires h'.shadow == AllocatedShadow(h.shadow, canPoison, poisonPartial, h'.chunks[b].first, h'.chunks[b].Size())
    ensures ChunkShadow(h', poisonPartial, mode, b)
  {
    var c := h'.chunks[b];
    AllocateShadow(h.shadow, canPoison, poisonPartial, c.first, c.Size());
    forall g | b <= GRANULE * g < b + h.blocks[b].Size() ensures GranuleInv(h', poisonPartial, canPoison, b, g) { }
  }

  lemma PublishSound(h: Heap, h': Heap, poisonPartial: bool, canPoison: bool, mode: Poisoning, b: int)
    requires Sound(h, poisonPartial, mode) && canPoison == (mode != Off)
    requires b in h.blocks && b !in h.chunks && h.blocks[b].used && h.blocks[b].kind == Carved
    requires canPoison ==> Filled(h.shadow, b, b + h.blocks[b].Size(), LEFT_REDZONE)
    requires h'.blocks == h.blocks && b in h'.chunks && h'.chunks == h.chunks[b := h'.chunks[b]]
    requires h'.chunks[b].state == Allocated && h'.chunks[b].poison == 0
    requires Placed(b, h.blocks[b].Size(), h'.chunks[b]) && ChunkInMemory(h'.mem, b, h'.chunks[b])
    requires SameOutside(h.mem, h'.mem, b, b + h.blocks[b].Size())
    requires h'.shadow == AllocatedShadow(h.shadow, canPoison, poisonPartial, h'.chunks[b].first, h'.chunks[b].Size())
    ensures Sound(h', poisonPartial, mode)
  {
    var c := h'.chunks[b];
    AllocateShadowFrame(h.shadow, canPoison, poisonPartial, c.first, c.Size(), b, b + h.blocks[b].Size());
    AllocateShadowInv(h, h', poisonPartial, canPoison, mode, b);
    SoundStep(h, h', poisonPartial, mode, b);
  }

  /** Publishing a chunk in a block that has none. */
  lemma PublishKeeps(s: Books, poisonPartial: bool, canPoison: bool, mode: Poisoning, self: nat, b: int, c: Chunk,
                     fill: Option<Byte>, fillSize: nat)
    requires Good(s, poisonPartial, mode) && canPoison == (mode != Off)
    requires b in s.heap.blocks && b !in s.heap.chunks && s.heap.blocks[b].used && s.heap.blocks[b].kind == Carved
    requires canPoison ==> Filled(s.heap.shadow, b, b + s.heap.blocks[b].Size(), LEFT_REDZONE)
    requires self < |s.stats| && fillSize <= c.Size()
    requires Placed(b, s.heap.blocks[b].Size(), c) && c.state == Allocated && c.poison == 0
    ensures var mem' := AllocatedBytes(s.heap.mem, b, c.first, c.meta, fill, fillSize);
            var shadow' := AllocatedShadow(s.heap.shadow, canPoison, poisonPartial, c.first, c.Size());
            && Good(Books(Heap(mem', shadow', s.heap.blocks, s.heap.chunks[b := c]), s.bag,
                          s.stats[self := AddStats(s.stats[self], Stats(1, c.Size(), 0, 0, 0, 0))]),
                    poisonPartial, mode)
            && SameOutside(s.heap.mem, mem', b, b + s.heap.blocks[b].Size())
            && (fill.Some? ==> forall a :: c.Beg() <= a < c.Beg() + fillSize ==> mem'(a) == fill.value)
  {
    var h := s.heap;
    var h' := Heap(AllocatedBytes(h.mem, b, c.first, c.meta, fill, fillSize),
                   AllocatedShadow(h.shadow, canPoison, poisonPartial, c.first, c.Size()), h.blocks, h.chunks[b := c]);
    AllocateMemory(h.mem, b, h.blocks[b].Size(), c, fill, fillSize);
    PublishSound(h, h', poisonPartial, canPoison, mode, b);
    QuarantineMalloc(s.bag, h.chunks, b, c);
    BalancedMalloc(s.stats, h.chunks, self, b, c);
  }

  lemma EmptyIsGood(mem: Bytes, shadow: Bytes, threads: nat, poisonPartial: bool, mode: Poisoning)
    ensures Good(Books(Heap(mem, shadow, map[], map[]), multiset{}, seq(threads, _ => Stats(0, 0, 0, 0, 0, 0))),
                 poisonPartial, mode)
  {
    TotalOfZeroes(threads);
  }

  // ---------------------------------------------------------------- Deallocate

  lemma QuarantineShadowInv(h: Heap, h': Heap, poisonPartial: bool, canPoison: bool, mode: Poisoning, b: int)
    requires b in h.blocks && b in h.chunks && ChunkShadow(h, poisonPartial, mode, b) && canPoison == (mode != Off)
    requires h'.blocks == h.blocks && b in h'.chunks
    requires h'.chunks[b].state == Quarantined && h'.chunks[b].poison == HEAP_FREE
    requires h'.chunks[b].first == h.chunks[b].first && h'.chunks[b].Size() == h.chunks[b].Size()
    requires h'.shadow == PoisonShadow(h.shadow, canPoison, h.chunks[b].first, GranuleCount(h.chunks[b].Size()), HEAP_FREE)
    ensures ChunkShadow(h', poisonPartial, mode, b)
  {
    PoisonUser(h.shadow, canPoison, h.chunks[b].first, h.chunks[b].Size(), HEAP_FREE);
    forall g | b <= GRANULE * g < b + h.blocks[b].Size() ensures GranuleInv(h', poisonPartial, canPoison, b, g) {
      assert GranuleInv(h, poisonPartial, canPoison, b, g);
    }
  }

  lemma QuarantineSound(h: Heap, poisonPartial: bool, canPoison: bool, mode: Poisoning, b: int, p: nat, first: nat,
                        size: nat, freeContext: nat, fill: Option<Byte>, maxFill: nat)
    requires Sound(h, poisonPartial, mode) && canPoison == (mode != Off)
    requires b in h.chunks && h.chunks[b].state == Allocated && freeContext < WORD
    requires p == h.chunks[b].Beg() && first == h.chunks[b].first && size == h.chunks[b].Size()
    ensures b in h.blocks
    ensures SameOutside(h.mem, QuarantinedBytes(h.mem, p, size, freeContext, fill, maxFill), b, b + h.blocks[b].Size())
    ensures FilledOnFree(QuarantinedBytes(h.mem, p, size, freeContext, fill, maxFill), p, size, fill, maxFill)
    ensures Sound(Heap(QuarantinedBytes(h.mem, p, size, freeContext, fill, maxFill),
                       PoisonShadow(h.shadow, canPoison, first, GranuleCount(size), HEAP_FREE),
                       h.blocks,
                       h.chunks[b := h.chunks[b].(state := Quarantined, freeContext := freeContext, poison := HEAP_FREE)]),
                  poisonPartial, mode)
  {
    var c := h.chunks[b];
    var h' := Heap(QuarantinedBytes(h.mem, p, size, freeContext, fill, maxFill),
                   PoisonShadow(h.shadow, canPoison, first, GranuleCount(size), HEAP_FREE),
                   h.blocks, h.chunks[b := c.(state := Quarantined, freeContext := freeContext, poison := HEAP_FREE)]);
    assert BlockInv(h, b) && ShadowInv(h, poisonPartial, mode, b);
    QuarantineMemory(h.mem, b, h.blocks[b].Size(), c, freeContext, fill, maxFill);
    PoisonFrame(h.shadow, canPoison, c.first, c.Size(), HEAP_FREE, b, b + h.blocks[b].Size());
    QuarantineShadowInv(h, h', poisonPartial, canPoison, mode, b);
    SoundStep(h, h', poisonPartial, mode, b);
  }

  /** An allocated chunk goes to quarantine. */
  lemma QuarantineKeeps(s: Books, poisonPartial: bool, canPoison: bool, mode: Poisoning, self: nat, b: int, p: nat,
                        first: nat, size: nat, freeContext: nat, fill: Option<Byte>, maxFill: nat)
    requires Good(s, poisonPartial, mode) && canPoison == (mode != Off)
    requires b in s.heap.chunks && s.heap.chunks[b].state == Allocated && self < |s.stats| && freeContext < WORD
    requires p == s.heap.chunks[b].Beg() && first == s.heap.chunks[b].first && size == s.heap.chunks[b].Size()
    ensures b in s.heap.blocks
    ensures SameOutside(s.heap.mem, QuarantinedBytes(s.heap.mem, p, size, freeContext, fill, maxFill),
                        b, b + s.heap.blocks[b].Size())
    ensures FilledOnFree(QuarantinedBytes(s.heap.mem, p, size, freeContext, fill, maxFill), p, size, fill, maxFill)
    ensures Good(Books(Heap(QuarantinedBytes(s.heap.mem, p, size, freeContext, fill, maxFill),
                            PoisonShadow(s.heap.shadow, canPoison, first, GranuleCount(size), HEAP_FREE),
                            s.heap.blocks,
                            s.heap.chunks[b := s.heap.chunks[b].(state := Quarantined, freeContext := freeContext,
                                                                 poison := HEAP_FREE)]),
                       s.bag + multiset{p - HEADER},
                       s.stats[self := AddStats(s.stats[self], Stats(0, 0, 1, size, 0, 0))]),
                 poisonPartial, mode)
  {
    var c' := s.heap.chunks[b].(state := Quarantined, freeContext := freeContext, poison := HEAP_FREE);
    QuarantineSound(s.heap, poisonPartial, canPoison, mode, b, p, first, size, freeContext, fill, maxFill);
    assert p - HEADER == c'.Header();
    QuarantineFree(s.bag, s.heap.chunks, b, c');
    BalancedFree(s.stats, s.heap.chunks, self, b, c');
  }

  /** What Deallocate and Recycle read from the header of a chunk. */
  lemma HeaderFields(h: Heap, b: int, chunk: int)
    requires Inv(h) && b in h.chunks && chunk == h.chunks[b].Header()
    ensures var c := h.chunks[b];
            && UsedSize(h.mem, chunk) == c.Size()
            && AllocType(h.mem, chunk) == c.meta.allocType
            && AlignLog(h.mem, chunk) == c.meta.alignLog
            && AllocContext(h.mem, chunk) == c.meta.context
  {
    assert BlockInv(h, b);
    var c := h.chunks[b];
    SizeReadsBack(h.mem, c.Header(), c.meta);
    BitFieldsReadBack(h.mem, c.Header(), c.meta);
    ContextReadsBack(h.mem, c.Header(), c.meta);
  }

  lemma FoundFromHeader(h: Heap, b: int)
    requires Inv(h) && b in h.chunks
    ensures b in h.blocks && GetBlockBegin(h.blocks, h.chunks[b].Header()) == Some(b)
  {
    UserMemoryInside(h, b, true);
    assert BlockInv(h, b);
    BlockFound(h.blocks, b, h.chunks[b].Header());
  }

  // ---------------------------------------------------------------- Recycle

  lemma RecycleReads(h: Heap, b: int)
    requires Inv(h) && b in h.chunks && h.chunks[b].state == Quarantined
    ensures var c := h.chunks[b];
            && b in h.blocks
            && (b == c.Header() || b + LARGE_HEADER <= c.Header())
            && (b != c.Header() ==> LoadWord(h.mem, b, 8) == MAGIC)
            && h.mem(c.Header()) == CHUNK_QUARANTINE
            && (b != c.Header() ==> StoreWord(h.mem, b, 8, 0)(c.Header()) == CHUNK_QUARANTINE)
            && UsedSize(h.mem, c.Header()) == c.Size()
  {
    assert BlockInv(h, b);
    RecycleFinds(h.mem, b, h.chunks[b]);
    HeaderFields(h, b, h.chunks[b].Header());
  }

  /** The block of a recycled chunk is poisoned from end to end. */
  lemma RecycledShadow(h: Heap, poisonPartial: bool, canPoison: bool, mode: Poisoning, b: int)
    requires b in h.blocks && b in h.chunks && ChunkShadow(h, poisonPartial, mode, b) && canPoison == (mode != Off)
    ensures FreeShadow(PoisonShadow(h.shadow, canPoison, h.chunks[b].first, GranuleCount(h.chunks[b].Size()), LEFT_REDZONE),
                       mode, b, b + h.blocks[b].Size())
  {
    var c := h.chunks[b];
    PoisonUser(h.shadow, canPoison, c.first, c.Size(), LEFT_REDZONE);
    if canPoison {
      var shadow' := PoisonShadow(h.shadow, canPoison, c.first, GranuleCount(c.Size()), LEFT_REDZONE);
      forall g | b <= GRANULE * g < b + h.blocks[b].Size() ensures shadow'(g) == LEFT_REDZONE {
        assert GranuleInv(h, poisonPartial, canPoison, b, g);
      }
    }
  }

  lemma RecycledFirstByte(m: Bytes, b: int, chunk: int)
    ensures RecycledBytes(m, b, chunk)(b) == 0
  {
    assert StoreWord(m, b, 8, 0)(b) == WordByte(0, 0);
  }

  /** A quarantined chunk ends; its block goes back, wholly poisoned. */
  lemma RecycleInPlace(h: Heap, poisonPartial: bool, canPoison: bool, mode: Poisoning, b: int, m: int, first: nat, size: nat)
    requires Sound(h, poisonPartial, mode) && canPoison == (mode != Off)
    requires b in h.chunks && h.chunks[b].state == Quarantined
    requires m == h.chunks[b].Header() && first == h.chunks[b].first && size == h.chunks[b].Size()
    ensures b in h.blocks && SameOutside(h.mem, RecycledBytes(h.mem, b, m), b, b + h.blocks[b].Size())
    ensures Sound(Heap(RecycledBytes(h.mem, b, m), PoisonShadow(h.shadow, canPoison, first, GranuleCount(size), LEFT_REDZONE),
                       h.blocks[b := h.blocks[b].(used := false)], h.chunks - {b}),
                  poisonPartial, mode)
  {
    var h' := Heap(RecycledBytes(h.mem, b, m), PoisonShadow(h.shadow, canPoison, first, GranuleCount(size), LEFT_REDZONE),
                   h.blocks[b := h.blocks[b].(used := false)], h.chunks - {b});
    assert BlockInv(h, b) && ShadowInv(h, poisonPartial, mode, b);
    PoisonFrame(h.shadow, canPoison, first, size, LEFT_REDZONE, b, b + h.blocks[b].Size());
    RecycledShadow(h, poisonPartial, canPoison, mode, b);
    RecycledFirstByte(h.mem, b, m);
    SoundStep(h, h', poisonPartial, mode, b);
  }

  /** OnUnmap: a block without a chunk leaves the heap and its shadow is cleared. */
  lemma UnmapSound(h: Heap, poisonPartial: bool, mode: Poisoning, b: int)
    requires Sound(h, poisonPartial, mode) && b in h.blocks && b !in h.chunks
    ensures Sound(h.(blocks := h.blocks - {b}, shadow := FillShadow(h.shadow, b, b + h.blocks[b].Size(), 0)),
                  poisonPartial, mode)
  {
    var h' := h.(blocks := h.blocks - {b}, shadow := FillShadow(h.shadow, b, b + h.blocks[b].Size(), 0));
    forall x, y | x in h'.blocks && y in h'.blocks && x != y ensures Apart(h'.blocks, x, y) {
      assert Apart(h.blocks, x, y);
    }
    forall c | c in h'.blocks ensures BlockInv(h', c) && QuietBlock(h', c) && ShadowInv(h', poisonPartial, mode, c) {
      assert Apart(h.blocks, b, c);
      OtherBlock(h, h', poisonPartial, mode, b, b + h.blocks[b].Size(), c);
    }
  }

  /** A recycled primary block can be handed out again; a secondary one is unmapped. */
  function ReturnedBlocks(blocks: map<int, Block>, b: int): map<int, Block>
    requires b in blocks
  {
    if blocks[b].primary then blocks[b := blocks[b].(used := false)] else blocks - {b}
  }

  function ReturnedShadow(shadow: Bytes, canPoison: bool, first: nat, size: nat, blocks: map<int, Block>, b: int): Bytes
    requires b in blocks
  {
    var poisoned := PoisonShadow(shadow, canPoison, first, GranuleCount(size), LEFT_REDZONE);
    if blocks[b].primary then poisoned else FillShadow(poisoned, b, b + blocks[b].Size(), 0)
  }

  lemma RecycleSound(h: Heap, h': Heap, poisonPartial: bool, canPoison: bool, mode: Poisoning, b: int, m: int, first: nat,
                     size: nat)
    requires Sound(h, poisonPartial, mode) && canPoison == (mode != Off)
    requires b in h.chunks && h.chunks[b].state == Quarantined && b in h.blocks
    requires m == h.chunks[b].Header() && first == h.chunks[b].first && size == h.chunks[b].Size()
    requires h' == Heap(RecycledBytes(h.mem, b, m), ReturnedShadow(h.shadow, canPoison, first, size, h.blocks, b),
                        ReturnedBlocks(h.blocks, b), h.chunks - {b})
    ensures SameOutside(h.mem, h'.mem, b, b + h.blocks[b].Size()) && Sound(h', poisonPartial, mode)
  {
    RecycleInPlace(h, poisonPartial, canPoison, mode, b, m, first, size);
    var mem', poisoned := RecycledBytes(h.mem, b, m), PoisonShadow(h.shadow, canPoison, first, GranuleCount(size), LEFT_REDZONE);
    if h.blocks[b].primary {
      SameHeap(Heap(mem', poisoned, h.blocks[b := h.blocks[b].(used := false)], h.chunks - {b}), h', poisonPartial, mode);
    } else {
      UnmapReturned(mem', poisoned, h.blocks, h.chunks - {b}, poisonPartial, mode, b);
      SameHeap(Heap(mem', FillShadow(poisoned, b, b + h.blocks[b].Size(), 0), h.blocks - {b}, h.chunks - {b}), h',
               poisonPartial, mode);
    }
  }

  lemma SameHeap(h: Heap, h': Heap, poisonPartial: bool, mode: Poisoning)
    requires Sound(h, poisonPartial, mode) && h' == h
    ensures Sound(h', poisonPartial, mode)
  {
  }

  lemma UnmapReturned(mem: Bytes, shadow: Bytes, blocks: map<int, Block>, chunks: map<int, Chunk>, poisonPartial: bool,
                      mode: Poisoning, b: int)
    requires b in blocks && b !in chunks
    requires Sound(Heap(mem, shadow, blocks[b := blocks[b].(used := false)], chunks), poisonPartial, mode)
    ensures Sound(Heap(mem, FillShadow(shadow, b, b + blocks[b].Size(), 0), blocks - {b}, chunks), poisonPartial, mode)
  {
    UnmapSound(Heap(mem, shadow, blocks[b := blocks[b].(used := false)], chunks), poisonPartial, mode, b);
    assert blocks[b := blocks[b].(used := false)] - {b} == blocks - {b};
  }

  lemma RecycleKeeps(s: Books, poisonPartial: bool, canPoison: bool, mode: Poisoning, self: nat, b: int, m: int,
                     first: nat, size: nat)
    requires Good(s, poisonPartial, mode) && canPoison == (mode != Off)
    requires b in s.heap.chunks && s.heap.chunks[b].state == Quarantined && self < |s.stats|
    requires m == s.heap.chunks[b].Header() && first == s.heap.chunks[b].first && size == s.heap.chunks[b].Size()
    ensures b in s.heap.blocks
    ensures SameOutside(s.heap.mem, RecycledBytes(s.heap.mem, b, m), b, b + s.heap.blocks[b].Size())
    ensures Good(Books(Heap(RecycledBytes(s.heap.mem, b, m),
                            ReturnedShadow(s.heap.shadow, canPoison, first, size, s.heap.blocks, b),
                            ReturnedBlocks(s.heap.blocks, b),
                            s.heap.chunks - {b}),
                       s.bag - multiset{m},
                       s.stats[self := AddStats(s.stats[self], Stats(0, 0, 0, 0, 1, size))]),
                 poisonPartial, mode)
  {
    assert b in s.heap.blocks;
    RecycleSound(s.heap, Heap(RecycledBytes(s.heap.mem, b, m),
                              ReturnedShadow(s.heap.shadow, canPoison, first, size, s.heap.blocks, b),
                              ReturnedBlocks(s.heap.blocks, b), s.heap.chunks - {b}),
                 poisonPartial, canPoison, mode, b, m, first, size);
    QuarantineRecycle(s.bag, s.heap.chunks, b);
    BalancedRecycle(s.stats, s.heap.chunks, self, b);
  }

  // ---------------------------------------------------------------- Reallocate

  /** `p` is the user start of an allocated chunk. */
  ghost predicate LiveAt(chunks: map<int, Chunk>, p: int) {
    exists b :: b in chunks && chunks[b].Beg() == p && chunks[b].state == Allocated
  }

  ghost predicate SameOutsideTwo(m: Bytes, m': Bytes, blocks: map<int, Block>, b: int, c: int) {
    forall a :: !Contains(blocks, b, a) && !Contains(blocks, c, a) ==> m(a) == m'(a)
  }

  /** `n` bytes at `dst` now are what the `n` bytes at `src` were. */
  ghost predicate CopiedFrom(m: Bytes, m': Bytes, dst: int, src: int, n: nat) {
    forall a :: dst <= a < dst + n ==> m'(a) == m(src + (a - dst))
  }

  lemma LiveIsAllocated(h: Heap, p: int)
    requires Inv(h) && LiveAt(h.chunks, p)
    ensures h.mem(p - HEADER) == CHUNK_ALLOCATED
  {
    var b :| b in h.chunks && h.chunks[b].Beg() == p && h.chunks[b].state == Allocated;
    assert BlockInv(h, b);
  }

  /** Taking block `d` leaves the state byte of a pointer that may be reallocated alone. */
  lemma StillThere(h: Heap, m: Bytes, p: int, d: int)
    requires Inv(h) && d in h.blocks && d !in h.chunks && !h.blocks[d].used && h.blocks[d].kind == Carved
    requires SameOutside(h.mem, m, d, d + h.blocks[d].Size())
    requires h.mem(p - HEADER) == CHUNK_ALLOCATED ==> LiveAt(h.chunks, p)
    requires h.mem(p - HEADER) != CHUNK_ALLOCATED ==> forall b :: Contains(h.blocks, b, p - HEADER) ==> h.blocks[b].used
    ensures m(p - HEADER) == h.mem(p - HEADER)
  {
    if h.mem(p - HEADER) == CHUNK_ALLOCATED {
      var b :| b in h.chunks && h.chunks[b].Beg() == p && h.chunks[b].state == Allocated;
      UserMemoryInside(h, b, true);
      assert Apart(h.blocks, b, d);
    } else {
      assert !Contains(h.blocks, d, p - HEADER);
    }
  }

  /** Two chunks never share their user start. */
  lemma SameChunk(h: Heap, b: int, c: int)
    requires Inv(h) && b in h.chunks && c in h.chunks && h.chunks[b].Beg() == h.chunks[c].Beg()
    ensures b == c
  {
    UserMemoryInside(h, b, true);
    UserMemoryInside(h, c, true);
    assert b != c ==> Apart(h.blocks, b, c);
  }

  lemma StillLive(h: Heap, h': Heap, d: int, p: int)
    requires Inv(h') && LiveAt(h.chunks, p) && d !in h.chunks && d in h'.chunks && h'.chunks == h.chunks[d := h'.chunks[d]]
    ensures LiveAt(h'.chunks, p) && h'.chunks[d].Beg() != p
  {
    var b :| b in h.chunks && h.chunks[b].Beg() == p && h.chunks[b].state == Allocated;
    assert h'.chunks[b] == h.chunks[b];
    if h'.chunks[d].Beg() == p { SameChunk(h', b, d); }
  }

  /** The bytes of Reallocate: `m1` after Allocate in block `d`, `m2` after the copy and the free of `b`. */
  lemma ReallocateMemory(h: Heap, b: int, d: int, m1: Bytes, m2: Bytes, dst: int, src: int, n: nat)
    requires Inv(h) && b in h.chunks && d in h.blocks && d !in h.chunks && h.blocks[d].kind == Carved
    requires n <= h.chunks[b].Size() && src == h.chunks[b].Beg()
    requires SameOutside(h.mem, m1, d, d + h.blocks[d].Size())
    requires b in h.blocks && SameOutside(Copy(m1, dst, src, n), m2, b, b + h.blocks[b].Size())
    requires d <= dst && dst + n <= d + h.blocks[d].Size()
    ensures CopiedFrom(h.mem, m2, dst, src, n)
    ensures SameOutsideTwo(h.mem, m2, h.blocks, b, d)
  {
    UserMemoryInside(h, b, true);
    assert Apart(h.blocks, b, d) && BlockInv(h, b);
    MovedBytes(h.mem, m1, m2, b, b + h.blocks[b].Size(), d, d + h.blocks[d].Size(), dst, src, n);
  }

  lemma MovedBytes(m: Bytes, m1: Bytes, m2: Bytes, b: int, bEnd: int, d: int, dEnd: int, dst: int, src: int, n: nat)
    requires bEnd <= d || dEnd <= b
    requires b <= src && src + n <= bEnd && d <= dst && dst + n <= dEnd
    requires SameOutside(m, m1, d, dEnd) && SameOutside(Copy(m1, dst, src, n), m2, b, bEnd)
    ensures CopiedFrom(m, m2, dst, src, n)
    ensures forall a :: !(b <= a < bEnd) && !(d <= a < dEnd) ==> m(a) == m2(a)
  {
    var m' := Copy(m1, dst, src, n);
    assert CopiedFrom(m1, m', dst, src, n) && SameOutside(m1, m', dst, dst + n);
    forall a | dst <= a < dst + n ensures m2(a) == m(src + (a - dst)) {
      var x := src + (a - dst);
      assert m2(a) == m'(a) && m'(a) == m1(x) && m1(x) == m(x);
    }
  }
}
