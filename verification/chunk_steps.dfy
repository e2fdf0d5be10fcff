/** What the writes of Allocate, QuarantineChunk and Recycle do to one block. */
module ChunkSteps {
  import opened Words
  import opened Layout
  import opened Memory
  import opened Shadow
  import opened HeapState

  // ---------------------------------------------------------------- Allocate

  /** The stores of Allocate in program order: metadata, fill, state, large header. */
  function AllocatedBytes(m: Bytes, b: int, first: nat, meta: Meta, fill: Option<Byte>, fillSize: nat): Bytes
    requires first >= 2
  {
    var chunk := GRANULE * first - HEADER;
    var m1 := StoreMeta(m, chunk, meta);
    var m2 := if fill.Some? then Fill(m1, GRANULE * first, fillSize, fill.value) else m1;
    var m3 := Store(m2, chunk, CHUNK_ALLOCATED);
    if b != chunk then SetLarge(m3, b, chunk) else m3
  }

  lemma AllocateMemory(m: Bytes, b: int, size: nat, c: Chunk, fill: Option<Byte>, fillSize: nat)
    requires b >= 0 && Placed(b, size, c) && c.state == Allocated && fillSize <= c.Size()
    ensures var m' := AllocatedBytes(m, b, c.first, c.meta, fill, fillSize);
            && ChunkInMemory(m', b, c)
            && SameOutside(m, m', b, b + size)
            && (fill.Some? ==> forall a :: c.Beg() <= a < c.Beg() + fillSize ==> m'(a) == fill.value)
  {
    var hdr := c.Header();
    var m1 := StoreMeta(m, hdr, c.meta);
    assert MetaAt(m1, hdr, c.meta);
    var m2 := if fill.Some? then Fill(m1, c.Beg(), fillSize, fill.value) else m1;
    var m3 := Store(m2, hdr, CHUNK_ALLOCATED);
    assert MetaAt(m3, hdr, c.meta);
    SetLargeHolds(m3, b, hdr);
  }

  /** The shadow stores of Allocate: the whole granules, then the partial last one. */
  function AllocatedShadow(shadow: Bytes, canPoison: bool, poisonPartial: bool, first: int, size: nat): Bytes {
    var whole := size / GRANULE;
    var s1 := if whole != 0 then PoisonShadow(shadow, canPoison, first, whole, 0) else shadow;
    if size != GRANULE * whole && canPoison then
      Store(s1, first + whole, if poisonPartial then size % GRANULE else 0)
    else s1
  }

  lemma AllocateShadow(shadow: Bytes, canPoison: bool, poisonPartial: bool, first: int, size: nat)
    ensures var s' := AllocatedShadow(shadow, canPoison, poisonPartial, first, size);
            forall g :: s'(g) == if UserGranule(first, size, g) && (canPoison || GRANULE * (g - first) + GRANULE <= size)
                                 then UserShadow(first, size, poisonPartial, g) else shadow(g)
  {
  }

  lemma AllocateShadowFrame(shadow: Bytes, canPoison: bool, poisonPartial: bool, first: int, size: nat, from: int, to: int)
    requires from <= GRANULE * first && GRANULE * first + size <= to
    ensures SameShadowOutside(shadow, AllocatedShadow(shadow, canPoison, poisonPartial, first, size), from, to)
  {
  }

  // ---------------------------------------------------------------- Deallocate and QuarantineChunk

  const INVALID_TID: nat := 0xffff_ffff

  function QuarantinedBytes(m: Bytes, beg: int, size: nat, freeContext: nat, fill: Option<Byte>, maxFill: nat): Bytes {
    var m1 := Store(m, beg - HEADER, CHUNK_QUARANTINE);
    var m2 := StoreWord(m1, beg, HEADER2, Context(INVALID_TID, 0));
    var m3 := StoreWord(m2, beg, HEADER2, freeContext);
    if fill.Some? && size >= HEADER2 then
      Fill(m3, beg - HEADER + HEADER + HEADER2, Min(size - HEADER2, maxFill), fill.value)
    else m3
  }

  /** What the memory of a freed chunk is filled with, behind the free context. */
  ghost predicate FilledOnFree(m: Bytes, beg: int, size: nat, fill: Option<Byte>, maxFill: nat) {
    fill.Some? && size >= HEADER2 ==>
      forall a :: beg + HEADER2 <= a < beg + HEADER2 + Min(size - HEADER2, maxFill) ==> m(a) == fill.value
  }

  /** The state, the free context and the fill stay inside the block; the fill spares the context. */
  lemma QuarantineMemory(m: Bytes, b: int, size: nat, c: Chunk, freeContext: nat, fill: Option<Byte>, maxFill: nat)
    requires Placed(b, size, c) && c.state == Allocated && ChunkInMemory(m, b, c) && freeContext < WORD
    ensures var m' := QuarantinedBytes(m, c.Beg(), c.Size(), freeContext, fill, maxFill);
            && ChunkInMemory(m', b, c.(state := Quarantined, freeContext := freeContext))
            && SameOutside(m, m', b, b + size) && FilledOnFree(m', c.Beg(), c.Size(), fill, maxFill)
            && (forall a :: a != c.Header() && !(c.Beg() <= a < c.Beg() + Max(c.Size(), HEADER2)) ==> m'(a) == m(a))
  {
    var m' := QuarantinedBytes(m, c.Beg(), c.Size(), freeContext, fill, maxFill);
    assert MetaAt(m', c.Header(), c.meta);
    assert HoldsWord(m', c.Beg(), HEADER2, freeContext);
    if c.Header() != b { assert LargeAt(m', b, c.Header()); }
  }

  // ---------------------------------------------------------------- Recycle

  function RecycledBytes(m: Bytes, b: int, chunk: int): Bytes {
    var m1 := if b != chunk then StoreWord(m, b, 8, 0) else m;
    Store(m1, chunk, CHUNK_INVALID)
  }

  /** The two compare-and-swaps of Recycle find what they expect. */
  lemma RecycleFinds(m: Bytes, b: int, c: Chunk)
    requires c.state == Quarantined && ChunkInMemory(m, b, c) && 0 <= c.Header() < WORD
    requires c.Header() == b || b + LARGE_HEADER <= c.Header()
    ensures b != c.Header() ==> LoadWord(m, b, 8) == MAGIC
    ensures m(c.Header()) == CHUNK_QUARANTINE
    ensures b != c.Header() ==> StoreWord(m, b, 8, 0)(c.Header()) == CHUNK_QUARANTINE
  {
    if b != c.Header() {
      Pow256Values();
      LoadHeldWord(m, b, 8, MAGIC);
      TruncateFits(MAGIC, 8);
    }
  }

  /** Poisoning the user granules of a chunk with one value. */
  lemma PoisonUser(shadow: Bytes, canPoison: bool, first: int, size: nat, value: Byte)
    requires value != 0
    ensures var s' := PoisonShadow(shadow, canPoison, first, GranuleCount(size), value);
            forall g :: s'(g) == if canPoison && UserGranule(first, size, g) then value else shadow(g)
  {
  }

  lemma PoisonFrame(shadow: Bytes, canPoison: bool, first: int, size: nat, value: Byte, from: int, to: int)
    requires from <= GRANULE * first && GRANULE * first + size <= to
    ensures SameShadowOutside(shadow, PoisonShadow(shadow, canPoison, first, GranuleCount(size), value), from, to)
  {
  }

  // ---------------------------------------------------------------- lookup

  /**
   * From the end of Allocate until Recycle, the block start leads to exactly the published chunk
   * if and only if the block is primary or the header is not at the block start.
   */
  lemma LookupFindsChunk(m: Bytes, b: int, size: nat, primary: bool, c: Chunk)
    requires b > 0 && b + size <= 0x8000_0000_0000 && Placed(b, size, c) && ChunkInMemory(m, b, c)
    ensures GetAsanChunk(m, b, primary) == if Findable(b, primary, c) then Some(c.Header()) else None
  {
    if c.Header() == b {
      CompactIsNotMagic(m, b);
    } else {
      LargeReadsBack(m, b, c.Header());
    }
  }

  /**
   * After the first and after the second compare-and-swap of Recycle the block start leads
   * nowhere. (With the header at the block start the first one is skipped.)
   */
  lemma LookupAfterRecycle(m: Bytes, b: int, primary: bool, chunk: int)
    requires b == chunk || b + LARGE_HEADER <= chunk
    ensures b != chunk ==> GetAsanChunk(StoreWord(m, b, 8, 0), b, primary) == None
    ensures GetAsanChunk(RecycledBytes(m, b, chunk), b, primary) == None
  {
    if b != chunk {
      var m1 := StoreWord(m, b, 8, 0);
      assert m1(b) == WordByte(0, 0) == 0;
      CompactIsNotMagic(m1, b);
      assert RecycledBytes(m, b, chunk)(b) == 0;
    }
    CompactIsNotMagic(RecycledBytes(m, b, chunk), b);
  }
}
