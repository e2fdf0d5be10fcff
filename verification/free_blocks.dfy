/** Where blocks come from: the regions of the primary allocator, and the batches of the quarantine. */
module FreeBlocks {
  import opened Words
  import opened Memory
  import opened HeapState
  import opened AllocatorSteps

  /** Regions map user memory in steps of 64KB. */
  const MAP_UNITS: nat := 4096

  /** What PopulateFreeArray maps for `requested` more blocks. */
  function MoreUnits(k: Kind, requested: nat): nat
    requires k.Reserve?
  {
    var total := requested * k.blockUnits;
    if total > k.mapped then RoundUpTo(total - k.mapped, MAP_UNITS) else 0
  }

  /** A region that has carved all it can has to map more for any block. */
  lemma MapsMore(k: Kind, requested: nat)
    requires k.Reserve? && k.mapped < k.blockUnits && requested > 0
    ensures MoreUnits(k, requested) > 0 && requested * k.blockUnits <= k.mapped + MoreUnits(k, requested)
  {
    assert requested * k.blockUnits >= k.blockUnits;
    RoundUpToLeast(requested * k.blockUnits - k.mapped, MAP_UNITS);
  }

  function MappedMore(blocks: map<int, Block>, b: int, more: nat): map<int, Block>
    requires b in blocks && blocks[b].kind.Reserve?
  {
    blocks[b := blocks[b].(kind := blocks[b].kind.(mapped := blocks[b].kind.mapped + more))]
  }

  lemma MappedMoreOk(blocks: map<int, Block>, b: int, more: nat)
    requires BlocksOk(blocks) && b in blocks && blocks[b].kind.Reserve?
    ensures BlocksOk(MappedMore(blocks, b, more))
  {
    var blocks' := MappedMore(blocks, b, more);
    forall x, y | x in blocks' && y in blocks' && x != y ensures Apart(blocks', x, y) { assert Apart(blocks, x, y); }
  }

  predicate CanCarve(blocks: map<int, Block>, b: int) {
    && b in blocks && blocks[b].kind.Reserve?
    && 0 < blocks[b].kind.blockUnits && blocks[b].kind.mapped < blocks[b].units
  }

  /** The blocks once all that is mapped of the region whose rest starts at `b` is carved. */
  function CarvedRun(blocks: map<int, Block>, b: int): map<int, Block>
    requires CanCarve(blocks, b)
    decreases blocks[b].kind.mapped
  {
    var k := blocks[b].kind;
    if k.blockUnits <= k.mapped then CarvedRun(CarvedBlocks(blocks, b), b + 16 * k.blockUnits)
    else blocks[b := blocks[b].(kind := k.(tail := k.mapped))]
  }

  /** Every region but the one at `b` is carved. */
  ghost predicate CarvedBut(blocks: map<int, Block>, b: int) {
    forall c :: c in blocks && c != b && blocks[c].kind.Reserve? ==> blocks[c].kind.tail == blocks[c].kind.mapped
  }

  /** The loop that fills the free array. */
  method CarveBlocks(blocks: map<int, Block>, b: int, ghost h: Heap, poisonPartial: bool, ghost mode: Poisoning)
    returns (blocks': map<int, Block>)
    requires h.blocks == blocks && Sound(h, poisonPartial, mode) && CarvedBut(blocks, b)
    requires CanCarve(blocks, b) && blocks[b].kind.blockUnits <= blocks[b].kind.mapped
    ensures blocks' == CarvedRun(blocks, b) && AllCarved(blocks')
    ensures Sound(h.(blocks := blocks'), poisonPartial, mode)
  {
    blocks' := blocks;
    var at, size := b, 16 * blocks[b].kind.blockUnits;
    while size <= 16 * blocks'[at].kind.mapped
      invariant CanCarve(blocks', at) && size == 16 * blocks'[at].kind.blockUnits
      invariant CarvedRun(blocks', at) == CarvedRun(blocks, b) && CarvedBut(blocks', at)
      invariant Sound(h.(blocks := blocks'), poisonPartial, mode)
      invariant (at == b && blocks' == blocks) || blocks'[at].kind.tail == 0
      decreases blocks'[at].kind.mapped
    {
      CarveSound(h.(blocks := blocks'), poisonPartial, mode, at);
      blocks', at := CarvedBlocks(blocks', at), at + size;
    }
    CarvingEnds(h.(blocks := blocks'), poisonPartial, mode, at);
    var k := blocks'[at].kind;
    blocks' := blocks'[at := blocks'[at].(kind := k.(tail := k.mapped))];
  }

  /**
   * Carving keeps every other block, and each new one is a free block of the region's size inside the
   * region, or the region's rest, of which less than a block is mapped.
   */
  lemma {:induction false} CarvedRunBlocks(blocks: map<int, Block>, b: int, c: int)
    requires BlocksOk(blocks) && CanCarve(blocks, b)
    ensures c in blocks && c != b ==> c in CarvedRun(blocks, b) && CarvedRun(blocks, b)[c] == blocks[c]
    ensures c in CarvedRun(blocks, b) && (c !in blocks || c == b) ==>
              var block, r := CarvedRun(blocks, b)[c], blocks[b];
              && b <= c && c + block.Size() <= b + r.Size()
              && (block == Block(block.unit, r.kind.blockUnits, true, false, Carved)
                  || (block.kind.Reserve? && block.kind.tail == block.kind.mapped < block.kind.blockUnits == r.kind.blockUnits))
    decreases blocks[b].kind.mapped
  {
    var k := blocks[b].kind;
    if k.mapped < k.blockUnits {
    } else {
      CarvedApart(blocks, b);
      CarvedRunBlocks(CarvedBlocks(blocks, b), b + 16 * k.blockUnits, c);
    }
  }

  /** Every mapped byte of the region is carved, but for a tail shorter than a block. */
  lemma {:induction false} CarvedRunCovers(blocks: map<int, Block>, b: int, a: int)
    requires BlocksOk(blocks) && CanCarve(blocks, b) && b <= a < b + 16 * blocks[b].kind.mapped
    ensures exists c :: c in CarvedRun(blocks, b) && b <= c <= a && InCarvedOrTail(CarvedRun(blocks, b)[c], c, a)
    decreases blocks[b].kind.mapped
  {
    var k := blocks[b].kind;
    if k.mapped < k.blockUnits {
      assert b in CarvedRun(blocks, b);
    } else {
      CarvedApart(blocks, b);
      var blocks', rest := CarvedBlocks(blocks, b), b + 16 * k.blockUnits;
      if a < rest {
        CarvedRunBlocks(blocks', rest, b);
        assert InCarvedOrTail(CarvedRun(blocks, b)[b], b, a);
      } else {
        CarvedRunCovers(blocks', rest, a);
        var c :| c in CarvedRun(blocks', rest) && rest <= c <= a && InCarvedOrTail(CarvedRun(blocks', rest)[c], c, a);
        assert c in CarvedRun(blocks, b) && InCarvedOrTail(CarvedRun(blocks, b)[c], c, a);
      }
    }
  }

  predicate InCarvedOrTail(block: Block, c: int, a: int) {
    a < c + if block.kind.Reserve? then 16 * block.kind.tail else block.Size()
  }

  /** PopulateFreeArray makes as many new blocks as fit into what is mapped. */
  lemma {:induction false} CarvedRunCount(blocks: map<int, Block>, b: int, requested: nat)
    requires BlocksOk(blocks) && CanCarve(blocks, b) && requested * blocks[b].kind.blockUnits <= blocks[b].kind.mapped
    ensures |CarvedRun(blocks, b)| >= |blocks| + requested
    ensures blocks[b].kind.mapped < (requested + 1) * blocks[b].kind.blockUnits ==>
              |CarvedRun(blocks, b)| == |blocks| + requested
    decreases blocks[b].kind.mapped
  {
    var k := blocks[b].kind;
    if requested == 0 && k.mapped < k.blockUnits {
    } else {
      OneBlockLess(requested, k.blockUnits, k.mapped);
      CarvedApart(blocks, b);
      var blocks' := CarvedBlocks(blocks, b);
      assert |blocks'| == |blocks| + 1;
      CarvedRunCount(blocks', b + 16 * k.blockUnits, if requested == 0 then 0 else requested - 1);
    }
  }

  lemma OneBlockLess(requested: nat, n: nat, mapped: nat)
    requires requested * n <= mapped && n > 0 && (requested > 0 || n <= mapped)
    ensures n <= mapped && requested > 0 ==> (requested - 1) * n <= mapped - n
    ensures requested > 0 ==> n <= mapped
    ensures mapped < (requested + 1) * n && requested > 0 ==> mapped - n < requested * n
  {
    assert (requested + 1) * n == requested * n + n;
    if requested > 0 { assert requested * n == (requested - 1) * n + n; }
  }

  /** The heap after a region has mapped more and carved it. */
  function Populated(h: Heap, canPoison: bool, b: int, more: nat): Heap
    requires b in h.blocks && h.blocks[b].kind.Reserve? && CanCarve(MappedMore(h.blocks, b, more), b)
  {
    var from := b + 16 * h.blocks[b].kind.mapped;
    Heap(MappedMemory(h.mem, from, from + 16 * more), MappedShadow(h.shadow, canPoison, from, from + 16 * more),
         CarvedRun(MappedMore(h.blocks, b, more), b), h.chunks)
  }

  /** PopulateFreeArray past its checks: maps `more` units and carves. */
  method MapAndCarve(mem: Bytes, shadow: Bytes, blocks: map<int, Block>, canPoison: bool, b: int, more: nat,
                     ghost chunks: map<int, Chunk>, poisonPartial: bool, ghost mode: Poisoning)
    returns (mem': Bytes, shadow': Bytes, blocks': map<int, Block>)
    requires Sound(Heap(mem, shadow, blocks, chunks), poisonPartial, mode) && canPoison == (mode != Off)
    requires b in blocks && blocks[b].kind.Reserve? && AllCarved(blocks)
    requires blocks[b].kind.blockUnits <= blocks[b].kind.mapped + more < blocks[b].units
    ensures CanCarve(MappedMore(blocks, b, more), b) && AllCarved(blocks')
    ensures Heap(mem', shadow', blocks', chunks) == Populated(Heap(mem, shadow, blocks, chunks), canPoison, b, more)
    ensures Sound(Heap(mem', shadow', blocks', chunks), poisonPartial, mode)
  {
    ghost var h := Heap(mem, shadow, blocks, chunks);
    assert BlockInv(h, b);
    var from := b + 16 * blocks[b].kind.mapped;
    mem', shadow' := MappedMemory(mem, from, from + 16 * more), MappedShadow(shadow, canPoison, from, from + 16 * more);
    ghost var h' := Heap(mem', shadow', MappedMore(blocks, b, more), chunks);
    MapMoreSound(h, h', poisonPartial, canPoison, mode, b, more);
    blocks' := CarveBlocks(MappedMore(blocks, b, more), b, h', poisonPartial, mode);
  }

  // ---------------------------------------------------------------- batches

  /** What a quarantine batch takes: the link, two counts and 1021 pointers. */
  const BATCH_SIZE: nat := 8192

  /** A batch starts with the pointer to the next one. */
  function BatchBytes(m: Bytes, b: int, next: nat, contents: Bytes): Bytes {
    StoreWord(a => if b <= a < b + BATCH_SIZE then contents(a) else m(a), b, 8, next)
  }

  /** Batches are blocks, so that pointer is a multiple of 16 and does not look like a chunk. */
  lemma BatchIsUnclaimed(m: Bytes, b: int, next: nat, contents: Bytes)
    requires next % 16 == 0
    ensures Unclaimed(BatchBytes(m, b, next, contents)(b))
    ensures SameOutside(m, BatchBytes(m, b, next, contents), b, b + BATCH_SIZE)
  {
    var m0: Bytes := a => if b <= a < b + BATCH_SIZE then contents(a) else m(a);
    assert StoreWord(m0, b, 8, next)(b) == WordByte(next, 0);
    LowByteOfSixteens(next);
    forall a | !(b <= a < b + BATCH_SIZE) ensures StoreWord(m0, b, 8, next)(a) == m(a) { assert m0(a) == m(a); }
  }

  lemma LowByteOfSixteens(x: nat)
    requires x % 16 == 0
    ensures WordByte(x, 0) % 16 == 0
  {
    assert WordByte(x, 0) == x % 0x100;
    QuotientUnique(x % 0x100, 16, x / 16 - 16 * (x / 0x100), 0);
  }
}
