/** Poisoning a heap that was in use while poisoning was off. */
module Repoison {
  import opened Words
  import opened Layout
  import opened Memory
  import opened Shadow
  import opened HeapState
  import opened ChunkSteps
  import opened Accounting
  import opened AllocatorSteps
  import opened Lookup

  /** The bytes of block `b` pass for a chunk in use. */
  predicate LooksLive(m: Bytes, b: int, block: Block) {
    var ac := GetAsanChunk(m, b, block.primary);
    && ac.Some? && m(ac.value) == CHUNK_ALLOCATED
    && b < ac.value + HEADER < End(m, ac.value) <= b + block.Size()
  }

  /** The user start and the size that the bytes of a block that looks live give. */
  function LiveStart(m: Bytes, b: int, block: Block): int {
    var ac := GetAsanChunk(m, b, block.primary);
    if ac.Some? then ac.value + HEADER else b
  }

  function LiveSize(m: Bytes, b: int, block: Block): nat { UsedSize(m, LiveStart(m, b, block) - HEADER) }

  /** Of the blocks with a chunk exactly those with a live one that lookup finds look live. */
  lemma LooksLiveExactly(h: Heap, b: int)
    requires Inv(h) && b in h.blocks && b in h.chunks
    ensures LooksLive(h.mem, b, h.blocks[b]) <==>
              h.chunks[b].state == Allocated && Findable(b, h.blocks[b].primary, h.chunks[b])
    ensures LooksLive(h.mem, b, h.blocks[b]) ==>
              && LiveStart(h.mem, b, h.blocks[b]) == h.chunks[b].Beg()
              && LiveStart(h.mem, b, h.blocks[b]) / GRANULE == h.chunks[b].first
              && LiveStart(h.mem, b, h.blocks[b]) % GRANULE == 0
              && LiveSize(h.mem, b, h.blocks[b]) == h.chunks[b].Size()
  {
    assert BlockInv(h, b);
    UserMemoryInside(h, b, true);
    SizeAtHeader(h, b);
    LookupFindsChunk(h.mem, b, h.blocks[b].Size(), h.blocks[b].primary, h.chunks[b]);
    QuotientUnique(h.chunks[b].Beg(), GRANULE, h.chunks[b].first, 0);
  }

  // ---------------------------------------------------------------- one block

  /**
   * A granule after the two poisoning calls for a chunk in use: poisoned outside of user memory, set to
   * the number of user bytes in the last one, and otherwise as it was.
   */
  ghost function RedzoneByte(shadow: Bytes, first: int, size: nat, poisonPartial: bool, g: int): Byte {
    if g < first || GRANULE * (g - first) >= size then LEFT_REDZONE
    else if GRANULE * (g - first) + GRANULE <= size then shadow(g)
    else UserShadow(first, size, poisonPartial, g)
  }

  lemma BothCalls(shadow: Bytes, poisonPartial: bool, first: nat, size: nat, g: int)
    ensures var whole := first + size / GRANULE;
            RedzoneByte(shadow, first, size, poisonPartial, g) ==
              if g < first then LEFT_REDZONE
              else if g < whole then shadow(g)
              else PartialByte(GRANULE * (g - whole), size % GRANULE, LEFT_REDZONE, poisonPartial)
  {
  }

  lemma EndGranule(first: nat, size: nat)
    ensures (GRANULE * first + size) / GRANULE == first + size / GRANULE
    ensures (GRANULE * first + size) % GRANULE == size % GRANULE
  {
    QuotientUnique(GRANULE * first + size, GRANULE, first + size / GRANULE, size % GRANULE);
  }

  /** The case of RePoisonChunk for a chunk in use. */
  method PoisonRedzones(shadow: Bytes, first: nat, size: nat, unit: nat, units: nat, poisonPartial: bool)
    returns (shadow': Bytes)
    requires 2 * unit <= first && GRANULE * first + size <= 16 * unit + 16 * units
    ensures SameShadowOutside(shadow, shadow', 16 * unit, 16 * unit + 16 * units)
    ensures forall g :: 2 * unit <= g < 2 * unit + 2 * units ==>
              shadow'(g) == RedzoneByte(shadow, first, size, poisonPartial, g)
  {
    var left := PoisonShadow(shadow, true, 2 * unit, first - 2 * unit, LEFT_REDZONE);
    EndGranule(first, size);
    var end := GRANULE * first + size;
    var down := end / GRANULE;
    shadow' := FastPoisonShadowPartialRightRedzone(left, down, end % GRANULE, 2 * (unit + units) - down, LEFT_REDZONE,
                                                   poisonPartial);
    forall g | 2 * unit <= g < 2 * unit + 2 * units
      ensures shadow'(g) == RedzoneByte(shadow, first, size, poisonPartial, g)
    {
      assert g < down ==> shadow'(g) == left(g);
      BothCalls(shadow, poisonPartial, first, size, g);
    }
  }

  /** Every user granule is whole and is poisoned already. */
  ghost predicate UserPoisoned(shadow: Bytes, first: int, size: nat) {
    forall g :: UserGranule(first, size, g) ==> GRANULE * (g - first) + GRANULE <= size && shadow(g) == LEFT_REDZONE
  }

  /**
   * RePoisonChunk of any block, whatever its bytes are; `ok` says that the CHECK on the alignment of the
   * left redzone passed. A block that does not look live is poisoned from end to end, and one that does
   * only if its user memory was poisoned before and ends with a granule.
   */
  method RePoisonChunk(m: Bytes, shadow: Bytes, b: int, block: Block, poisonPartial: bool)
    returns (ok: bool, shadow': Bytes)
    requires b == 16 * block.unit
    ensures SameShadowOutside(shadow, shadow', b, b + block.Size())
    ensures ok <==> !LooksLive(m, b, block) || LiveStart(m, b, block) % GRANULE == 0
    ensures !LooksLive(m, b, block) ==> Filled(shadow', b, b + block.Size(), LEFT_REDZONE)
    ensures ok && LooksLive(m, b, block) ==>
              forall g :: b <= GRANULE * g < b + block.Size() ==>
                shadow'(g) == RedzoneByte(shadow, LiveStart(m, b, block) / GRANULE, LiveSize(m, b, block), poisonPartial, g)
    ensures ok ==>
              (Filled(shadow', b, b + block.Size(), LEFT_REDZONE) <==>
                 || !LooksLive(m, b, block)
                 || UserPoisoned(shadow, LiveStart(m, b, block) / GRANULE, LiveSize(m, b, block)))
  {
    shadow' := shadow;
    if LooksLive(m, b, block) {
      var beg, size := LiveStart(m, b, block), LiveSize(m, b, block);
      if beg % GRANULE != 0 { return false, shadow'; }
      shadow' := PoisonRedzones(shadow, beg / GRANULE, size, block.unit, block.units, poisonPartial);
      WhollyPoisoned(shadow, shadow', beg / GRANULE, size, block.unit, block.units, poisonPartial);
    } else {
      shadow' := PoisonShadow(shadow, true, 2 * block.unit, 2 * block.units, LEFT_REDZONE);
    }
    ok := true;
  }

  lemma WhollyPoisoned(shadow: Bytes, shadow': Bytes, first: nat, size: nat, unit: nat, units: nat, poisonPartial: bool)
    requires 2 * unit <= first && GRANULE * first + size <= 16 * unit + 16 * units
    requires forall g :: 2 * unit <= g < 2 * unit + 2 * units ==>
               shadow'(g) == RedzoneByte(shadow, first, size, poisonPartial, g)
    ensures Filled(shadow', 16 * unit, 16 * unit + 16 * units, LEFT_REDZONE) <==> UserPoisoned(shadow, first, size)
  {
    forall g | UserGranule(first, size, g) ensures 2 * unit <= g < 2 * unit + 2 * units { }
    if Filled(shadow', 16 * unit, 16 * unit + 16 * units, LEFT_REDZONE) {
      forall g | UserGranule(first, size, g)
        ensures GRANULE * (g - first) + GRANULE <= size && shadow(g) == LEFT_REDZONE
      {
        assert shadow'(g) == LEFT_REDZONE;
      }
    }
  }

  // ---------------------------------------------------------------- the whole heap

  /** RePoisonChunk of a block with a chunk gives the shadow that poisoning on asks for. */
  lemma ChunkRepoisoned(h: Heap, shadow': Bytes, poisonPartial: bool, b: int)
    requires Inv(h) && b in h.blocks && b in h.chunks && ChunkShadow(h, poisonPartial, Off, b)
    requires !LooksLive(h.mem, b, h.blocks[b]) ==> Filled(shadow', b, b + h.blocks[b].Size(), LEFT_REDZONE)
    requires LooksLive(h.mem, b, h.blocks[b]) ==>
               forall g :: b <= GRANULE * g < b + h.blocks[b].Size() ==>
                 shadow'(g) == RedzoneByte(h.shadow, h.chunks[b].first, h.chunks[b].Size(), poisonPartial, g)
    ensures var c := RepoisonedChunk(b, h.blocks[b].primary, h.chunks[b]);
            ChunkShadow(h.(shadow := shadow', chunks := h.chunks[b := c]), poisonPartial, On, b)
  {
    LooksLiveExactly(h, b);
    var c := RepoisonedChunk(b, h.blocks[b].primary, h.chunks[b]);
    var h' := h.(shadow := shadow', chunks := h.chunks[b := c]);
    forall g | b <= GRANULE * g < b + h.blocks[b].Size() ensures GranuleInv(h', poisonPartial, true, b, g) {
      assert GranuleInv(h, poisonPartial, false, b, g);
    }
  }

  ghost function RepoisonedChunk(b: int, primary: bool, c: Chunk): Chunk {
    c.(poison := if c.state == Allocated && Findable(b, primary, c) then 0 else LEFT_REDZONE)
  }

  ghost function Repoisoned(h: Heap): map<int, Chunk>
    requires h.chunks.Keys <= h.blocks.Keys
  {
    map b | b in h.chunks :: RepoisonedChunk(b, h.blocks[b].primary, h.chunks[b])
  }

  /** Blocks in `todo` still have the shadow from when poisoning was off. */
  ghost predicate Between(h: Heap, poisonPartial: bool, todo: set<int>) {
    forall b :: b in h.blocks ==> BlockBetween(h, poisonPartial, todo, b)
  }

  ghost predicate BlockBetween(h: Heap, poisonPartial: bool, todo: set<int>, b: int) {
    && ShadowInv(h, poisonPartial, if b in todo then Off else On, b)
    && (b !in todo ==> FreePoisoned(h, b))
  }

  /** A block without a chunk is poisoned from end to end. */
  ghost predicate FreePoisoned(h: Heap, b: int) {
    b in h.blocks && h.blocks[b].kind == Carved && b !in h.chunks ==>
      Filled(h.shadow, b, b + h.blocks[b].Size(), LEFT_REDZONE)
  }

  ghost predicate AllFreePoisoned(h: Heap) {
    forall b :: b in h.blocks ==> FreePoisoned(h, b)
  }

  /** The blocks that ForEachChunk visits. */
  function CarvedKeys(blocks: map<int, Block>): set<int> {
    set b | b in blocks && blocks[b].kind == Carved
  }

  lemma RepoisonedKeepsInv(h: Heap, poisonPartial: bool)
    requires Sound(h, poisonPartial, Off) && AllCarved(h.blocks)
    ensures Inv(h.(chunks := Repoisoned(h))) && AllQuiet(h.(chunks := Repoisoned(h)))
    ensures Between(h.(chunks := Repoisoned(h)), poisonPartial, CarvedKeys(h.blocks))
  {
    var h' := h.(chunks := Repoisoned(h));
    forall b | b in h'.blocks
      ensures BlockInv(h', b) && QuietBlock(h', b) && BlockBetween(h', poisonPartial, CarvedKeys(h.blocks), b)
    {
      assert BlockInv(h, b) && QuietBlock(h, b) && ShadowInv(h, poisonPartial, Off, b);
      if b in h.chunks {
        forall g | b <= GRANULE * g < b + h.blocks[b].Size() ensures GranuleInv(h', poisonPartial, false, b, g) {
          assert GranuleInv(h, poisonPartial, false, b, g);
        }
      }
    }
  }

  /** One call of RePoisonChunk takes its block off the list. */
  lemma RepoisonStep(h: Heap, h': Heap, poisonPartial: bool, todo: set<int>, b: int)
    requires Inv(h) && Between(h, poisonPartial, todo) && b in h.blocks && h' == h.(shadow := h'.shadow)
    requires SameShadowOutside(h.shadow, h'.shadow, b, b + h.blocks[b].Size())
    requires ShadowInv(h', poisonPartial, On, b) && FreePoisoned(h', b)
    ensures Between(h', poisonPartial, todo - {b})
  {
    forall c | c in h'.blocks ensures BlockBetween(h', poisonPartial, todo - {b}, c) {
      assert BlockBetween(h, poisonPartial, todo, c) && BlockInv(h, c);
      if c != b {
        assert Apart(h.blocks, b, c);
        OtherShadow(h, h', poisonPartial, if c in todo then Off else On, b, c);
      }
    }
  }

  /** The shadow of any carved block after RePoisonChunk, in a heap whose chunks are repoisoned. */
  method RePoisonBlock(m: Bytes, shadow: Bytes, b: int, block: Block, poisonPartial: bool, ghost h: Heap)
    returns (ok: bool, shadow': Bytes)
    requires h.mem == m && h.shadow == shadow && b in h.blocks && h.blocks[b] == block && block.kind == Carved
    requires Inv(h) && AllQuiet(h) && ShadowInv(h, poisonPartial, Off, b) && Repoisoned(h) == h.chunks
    ensures ok && SameShadowOutside(shadow, shadow', b, b + block.Size())
    ensures ShadowInv(h.(shadow := shadow'), poisonPartial, On, b) && FreePoisoned(h.(shadow := shadow'), b)
  {
    ok, shadow' := RePoisonChunk(m, shadow, b, block, poisonPartial);
    assert QuietBlock(h, b) && BlockInv(h, b);
    if b in h.chunks {
      LooksLiveExactly(h, b);
      ChunkRepoisoned(h, shadow', poisonPartial, b);
      assert h.chunks[b := RepoisonedChunk(b, block.primary, h.chunks[b])] == h.chunks;
    } else {
      QuietLookup(m, b, block.primary);
    }
  }

  /** ForEachChunk visits the blocks in an order of its own. */
  method Next<T>(todo: set<T>) returns (b: T)
    requires todo != {}
    ensures b in todo
  {
    b :| b in todo;
  }

  lemma SameInv(h: Heap, h': Heap)
    requires Inv(h) && AllQuiet(h) && h' == h.(shadow := h'.shadow)
    ensures Inv(h') && AllQuiet(h')
  {
    forall b | b in h'.blocks ensures BlockInv(h', b) && QuietBlock(h', b) { assert BlockInv(h, b) && QuietBlock(h, b); }
  }

  /** ReInitialize with poisoning on: RePoisonChunk of every carved block. No CHECK fails. */
  method RePoisonAll(m: Bytes, shadow: Bytes, blocks: map<int, Block>, poisonPartial: bool, ghost chunks: map<int, Chunk>)
    returns (ok: bool, shadow': Bytes)
    requires Sound(Heap(m, shadow, blocks, chunks), poisonPartial, Off) && AllCarved(blocks)
    ensures ok && Sound(Heap(m, shadow', blocks, Repoisoned(Heap(m, shadow, blocks, chunks))), poisonPartial, On)
    ensures AllFreePoisoned(Heap(m, shadow', blocks, Repoisoned(Heap(m, shadow, blocks, chunks))))
  {
    ok, shadow' := true, shadow;
    ghost var h := Heap(m, shadow, blocks, Repoisoned(Heap(m, shadow, blocks, chunks)));
    RepoisonedKeepsInv(Heap(m, shadow, blocks, chunks), poisonPartial);
    var todo := CarvedKeys(blocks);
    while todo != {}
      invariant ok && todo <= CarvedKeys(blocks) && h == h.(mem := m, shadow := shadow', blocks := blocks)
      invariant Inv(h) && AllQuiet(h) && Between(h, poisonPartial, todo)
      invariant h.chunks == Repoisoned(Heap(m, shadow, blocks, chunks)) == Repoisoned(h)
      decreases |todo|
    {
      var b := Next(todo);
      assert BlockBetween(h, poisonPartial, todo, b);
      ok, shadow' := RePoisonBlock(m, shadow', b, blocks[b], poisonPartial, h);
      ghost var h' := h.(shadow := shadow');
      RepoisonStep(h, h', poisonPartial, todo, b);
      SameInv(h, h');
      todo, h := todo - {b}, h';
    }
    forall b | b in h.blocks ensures ShadowInv(h, poisonPartial, On, b) && FreePoisoned(h, b) {
      assert BlockBetween(h, poisonPartial, todo, b);
    }
  }

  /** Turning poisoning off only forgets. */
  lemma PoisoningOff(h: Heap, poisonPartial: bool, mode: Poisoning)
    requires Sound(h, poisonPartial, mode)
    ensures Sound(h, poisonPartial, Off)
  {
    forall b | b in h.blocks ensures ShadowInv(h, poisonPartial, Off, b) {
      assert ShadowInv(h, poisonPartial, mode, b) && BlockInv(h, b);
      if b in h.chunks {
        forall g | b <= GRANULE * g < b + h.blocks[b].Size() ensures GranuleInv(h, poisonPartial, false, b, g) {
          assert GranuleInv(h, poisonPartial, mode != Off, b, g);
        }
      }
    }
  }

  lemma RepoisonedBooks(h: Heap, bag: multiset<int>, stats: seq<Stats>)
    requires Inv(h) && Booked(h.chunks, bag, stats)
    ensures Booked(Repoisoned(h), bag, stats)
  {
    SameBooks(bag, stats, h.chunks, Repoisoned(h));
  }

  /**
   * After activation a block whose live chunk lookup finds has exactly its user memory addressable,
   * and every other block is poisoned from end to end.
   */
  lemma ActivatedBlock(h: Heap, h': Heap, poisonPartial: bool, b: int, a: int)
    requires Inv(h) && Sound(h', poisonPartial, On) && h'.blocks == h.blocks && h'.chunks == Repoisoned(h)
    requires AllFreePoisoned(h') && Contains(h.blocks, b, a)
    ensures if b in h.chunks && h.chunks[b].state == Allocated && Findable(b, h.blocks[b].primary, h.chunks[b])
            then Addressable(h'.shadow, a) <==> InUserMemory(h.chunks[b], poisonPartial, a)
            else h'.shadow(a / GRANULE) == LEFT_REDZONE && !Addressable(h'.shadow, a)
  {
    BlockGranule(h.blocks[b].unit, h.blocks[b].units, a);
    assert FreePoisoned(h', b);
    if b in h.chunks {
      ShadowIsExact(h', poisonPartial, On, b, a);
      OnlyOwnBlock(h', poisonPartial, b, a);
      assert ShadowInv(h', poisonPartial, On, b);
      assert GranuleInv(h', poisonPartial, true, b, a / GRANULE);
    }
  }
}
