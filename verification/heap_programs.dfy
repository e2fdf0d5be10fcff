/** Whole runs of a program on the allocator, against a table of the memory that the program holds. */
module HeapPrograms {
  import opened Words
  import opened Layout
  import opened Memory
  import opened Shadow
  import opened HeapState
  import opened Accounting
  import opened AllocatorSteps
  import opened FreeBlocks
  import opened Lookup
  import opened AsanAllocator
  import opened Activation

  /** A region of the primary allocator, for blocks of `blockUnits` units. */
  datatype Region = Region(unit: nat, units: nat, blockUnits: nat)

  /** What can happen next: calls of the program, of the underlying allocator and of the quarantine. */
  datatype Op =
    | Malloc(size: nat, alignment: nat, allocType: nat, lsanTag: nat, self: nat, stack: nat, canFill: bool,
             offer: Option<int>)
    | Write(p: nat, offset: nat, v: Byte)
    | Free(p: nat, deleteSize: nat, deleteAlignment: nat, self: nat, stack: nat, allocType: nat)
    | Realloc(p: nat, size: nat, lsanTag: nat, self: nat, stack: nat, offer: Option<int>)
    | Recycle(m: int, self: nat)
    | Populate(region: int, requested: nat, freeArray: nat, mmaps: bool)
    | MapLarge(unit: nat, units: nat)
    | ReleaseToOs(b: int, from: int, to: int)
    | TakeBatch(b: int, contents: Bytes)
    | WriteBatch(b: int, next: nat, contents: Bytes)
    | ReturnBatch(b: int)
    | Deactivate
    | Activate(flags: ActivationFlags)

  // ---------------------------------------------------------------- the program's table

  /** `live` has the user start and size of every allocated chunk, and nothing else. */
  ghost predicate Tracks(live: map<nat, nat>, chunks: map<int, Chunk>) {
    && (forall p :: p in live ==> LiveAt(chunks, p))
    && (forall b :: b in chunks && chunks[b].state == Allocated ==>
          chunks[b].Beg() in live && live[chunks[b].Beg()] == chunks[b].Size())
  }

  /** Byte `a` belongs to memory that the program holds. */
  ghost predicate Owned(live: map<nat, nat>, poisonPartial: bool, a: int) {
    exists p :: p in live && p <= a < p + AddressableSize(live[p], poisonPartial)
  }

  lemma OwnedIsLive(live: map<nat, nat>, h: Heap, poisonPartial: bool, a: int)
    requires Tracks(live, h.chunks)
    ensures Owned(live, poisonPartial, a) <==> Live(h, poisonPartial, a)
  {
    if Owned(live, poisonPartial, a) {
      var p :| p in live && p <= a < p + AddressableSize(live[p], poisonPartial);
      var b :| b in h.chunks && h.chunks[b].Beg() == p && h.chunks[b].state == Allocated;
      assert InUserMemory(h.chunks[b], poisonPartial, a);
    }
    if Live(h, poisonPartial, a) {
      var b :| b in h.chunks && h.chunks[b].state == Allocated && InUserMemory(h.chunks[b], poisonPartial, a);
      assert h.chunks[b].Beg() in live;
    }
  }

  /** A new chunk is at a pointer that the program does not hold. */
  lemma TracksNew(live: map<nat, nat>, chunks: map<int, Chunk>, h': Heap, b: int, p: nat, meta: Meta)
    requires Tracks(live, chunks) && Published(chunks, h'.chunks, b, p, meta) && Inv(h')
    ensures p !in live && Tracks(live[p := meta.size], h'.chunks)
  {
    if p in live { StillLive(h'.(chunks := chunks), h', b, p); }
    forall q | q in live[p := meta.size] ensures LiveAt(h'.chunks, q) {
      if q != p {
        var c :| c in chunks && chunks[c].Beg() == q && chunks[c].state == Allocated;
        assert h'.chunks[c] == chunks[c];
      }
    }
  }

  lemma TracksFree(live: map<nat, nat>, h: Heap, chunks': map<int, Chunk>, b: int, context: nat)
    requires Inv(h) && Tracks(live, h.chunks) && b in h.chunks && h.chunks[b].state == Allocated
    requires chunks' == h.chunks[b := Retired(h.chunks[b], context)]
    ensures Tracks(live - {h.chunks[b].Beg()}, chunks')
  {
    var p := h.chunks[b].Beg();
    forall q | q in live - {p} ensures LiveAt(chunks', q) {
      var c :| c in h.chunks && h.chunks[c].Beg() == q && h.chunks[c].state == Allocated;
      assert chunks'[c] == h.chunks[c];
    }
    forall c | c in chunks' && chunks'[c].state == Allocated ensures chunks'[c].Beg() in live - {p} {
      if h.chunks[c].Beg() == p { SameChunk(h, b, c); }
    }
  }

  /** A change that keeps the allocated chunks where they are, with their sizes. */
  lemma TracksSame(live: map<nat, nat>, chunks: map<int, Chunk>, chunks': map<int, Chunk>)
    requires Tracks(live, chunks)
    requires forall b :: b in chunks' && chunks'[b].state == Allocated ==> b in chunks && SamePlace(chunks[b], chunks'[b])
    requires forall b :: b in chunks && chunks[b].state == Allocated ==> b in chunks' && SamePlace(chunks[b], chunks'[b])
    ensures Tracks(live, chunks')
  {
    forall p | p in live ensures LiveAt(chunks', p) {
      var b :| b in chunks && chunks[b].Beg() == p && chunks[b].state == Allocated;
      assert SamePlace(chunks[b], chunks'[b]);
    }
  }

  predicate SamePlace(c: Chunk, c': Chunk) { c'.state == c.state && c'.first == c.first && c'.meta == c.meta }

  lemma FreedThenPublished(chunks: map<int, Chunk>, chunks': map<int, Chunk>, b: int, d: int, dst: nat, meta: Meta)
    requires b in chunks && b in chunks' && Published(chunks, chunks'[b := chunks[b]], d, dst, meta)
    ensures Published(chunks[b := chunks'[b]], chunks', d, dst, meta)
  {
    var between := chunks'[b := chunks[b]];
    assert between == chunks[d := between[d]] && between[d] == chunks'[d];
    assert chunks' == between[b := chunks'[b]];
    assert chunks' == chunks[b := chunks'[b]][d := chunks'[d]];
  }

  lemma TracksMove(live: map<nat, nat>, h: Heap, h': Heap, b: int, p: nat, d: int, dst: nat, meta: Meta)
    requires Inv(h) && Inv(h') && Tracks(live, h.chunks) && dst != p
    requires b in h.chunks && h.chunks[b].Beg() == p && h.chunks[b].state == Allocated
    requires b in h'.chunks && h'.chunks[b] == Retired(h.chunks[b], meta.context)
    requires Published(h.chunks, h'.chunks[b := h.chunks[b]], d, dst, meta)
    ensures dst !in live && Tracks(live[dst := meta.size] - {p}, h'.chunks)
  {
    FreedThenPublished(h.chunks, h'.chunks, b, d, dst, meta);
    TracksFree(live, h, h.chunks[b := h'.chunks[b]], b, meta.context);
    TracksNew(live - {p}, h.chunks[b := h'.chunks[b]], h', d, dst, meta);
    assert live[dst := meta.size] - {p} == (live - {p})[dst := meta.size];
  }

  // ---------------------------------------------------------------- what the counters say

  ghost function HeldBytes(live: map<nat, nat>): nat {
    if live.Keys == {} then 0 else
      var p := Pick(live.Keys);
      live[p] + HeldBytes(live - {p})
  }

  lemma {:induction false} HeldBytesPick(live: map<nat, nat>, p: nat)
    requires p in live
    ensures HeldBytes(live) == live[p] + HeldBytes(live - {p})
    decreases |live|
  {
    var q := Pick(live.Keys);
    if p == q {
    } else {
      assert |live - {q}| < |live| && |live - {p}| < |live| by {
        assert (live - {q}).Keys == live.Keys - {q} && (live - {p}).Keys == live.Keys - {p};
      }
      HeldBytesPick(live - {q}, p);
      HeldBytesPick(live - {p}, q);
      assert live - {q} - {p} == live - {p} - {q};
    }
  }

  ghost predicate Distinct(chunks: map<int, Chunk>) {
    forall b, c :: b in chunks && c in chunks && chunks[b].Beg() == chunks[c].Beg() ==> b == c
  }

  /** The allocated chunks are as many, and as large together, as what the program holds. */
  lemma {:induction false} TableCounts(live: map<nat, nat>, chunks: map<int, Chunk>)
    requires Tracks(live, chunks) && Distinct(chunks)
    ensures Sum(chunks, Allocated, false) == |live| && Sum(chunks, Allocated, true) == HeldBytes(live)
    decreases |chunks|
  {
    if chunks.Keys == {} {
      assert live.Keys == {} by { assert forall p :: p !in live; }
    } else {
      var b := Pick(chunks.Keys);
      var p, rest := chunks[b].Beg(), chunks - {b};
      assert rest.Keys == chunks.Keys - {b};
      TracksRest(live, chunks, b);
      if chunks[b].state == Allocated {
        TableCounts(live - {p}, rest);
        HeldBytesPick(live, p);
        OneLess(live, p);
      } else {
        TableCounts(live, rest);
      }
    }
  }

  lemma OneLess(live: map<nat, nat>, p: nat)
    requires p in live
    ensures |live - {p}| == |live| - 1
  {
    assert (live - {p}).Keys == live.Keys - {p};
  }

  lemma TracksRest(live: map<nat, nat>, chunks: map<int, Chunk>, b: int)
    requires Tracks(live, chunks) && Distinct(chunks) && b in chunks
    ensures Tracks(if chunks[b].state == Allocated then live - {chunks[b].Beg()} else live, chunks - {b})
  {
    var live', rest := if chunks[b].state == Allocated then live - {chunks[b].Beg()} else live, chunks - {b};
    forall q | q in live' ensures LiveAt(rest, q) {
      var c :| c in chunks && chunks[c].Beg() == q && chunks[c].state == Allocated;
      assert c in rest && rest[c] == chunks[c];
    }
  }

  lemma InvIsDistinct(h: Heap)
    requires Inv(h)
    ensures Distinct(h.chunks)
  {
    forall b, c | b in h.chunks && c in h.chunks && h.chunks[b].Beg() == h.chunks[c].Beg() ensures b == c {
      SameChunk(h, b, c);
    }
  }

  // ---------------------------------------------------------------- every byte

  /**
   * What the shadow says of byte `a` of block `b`. If poisoning has always been on, the byte is
   * addressable exactly when the program holds it, and it carries the heap-free magic in quarantine. If
   * poisoning is on again, the same holds of blocks whose chunk lookup finds; a live chunk that lookup
   * misses is at most too poisoned, and in a block without a chunk the first byte speaks for all. With
   * poisoning off, no whole granule the program holds is poisoned.
   */
  ghost predicate ExactAt(live: map<nat, nat>, h: Heap, poisonPartial: bool, mode: Poisoning, b: int, a: int)
    requires b in h.blocks
  {
    match mode
    case Always =>
      && (Addressable(h.shadow, a) <==> Owned(live, poisonPartial, a))
      && (b in h.chunks && h.chunks[b].state == Quarantined && InUserMemory(h.chunks[b], true, a) ==>
            h.shadow(a / GRANULE) == HEAP_FREE)
    case On =>
      if b !in h.chunks then Addressable(h.shadow, a) ==> Addressable(h.shadow, b)
      else if h.chunks[b].state == Quarantined then !Addressable(h.shadow, a)
      else
        && (Addressable(h.shadow, a) ==> Owned(live, poisonPartial, a))
        && (Findable(b, h.blocks[b].primary, h.chunks[b]) && Owned(live, poisonPartial, a) ==> Addressable(h.shadow, a))
    case Off => WholeLiveGranule(h, b, a / GRANULE) ==> Addressable(h.shadow, a)
  }

  lemma EveryByte(live: map<nat, nat>, h: Heap, poisonPartial: bool, mode: Poisoning, b: int, a: int)
    requires Sound(h, poisonPartial, mode) && Tracks(live, h.chunks) && Contains(h.blocks, b, a)
    ensures ExactAt(live, h, poisonPartial, mode, b, a)
  {
    OwnedIsLive(live, h, poisonPartial, a);
    match mode
    case Always => AlwaysExact(h, poisonPartial, b, a);
    case On =>
      if b !in h.chunks {
        FreeBlockPoisoned(h, poisonPartial, On, b, a);
      } else {
        ShadowIsExact(h, poisonPartial, On, b, a);
        OnlyOwnBlock(h, poisonPartial, b, a);
        assert ShadowInv(h, poisonPartial, On, b) && BlockInv(h, b);
      }
    case Off =>
      assert ShadowInv(h, poisonPartial, Off, b) && BlockInv(h, b);
      BlockGranule(h.blocks[b].unit, h.blocks[b].units, a);
      if b in h.chunks { assert GranuleInv(h, poisonPartial, false, b, a / GRANULE); }
  }

  /** What the program is told about `p`: the size it asked for if lookup finds its chunk, and else 0. */
  ghost predicate SizeAt(live: map<nat, nat>, h: Heap, p: nat)
    requires BlocksOk(h.blocks)
  {
    AllocationSize(h, p) == if FoundAt(h, p) && p in live then live[p] else 0
  }

  lemma EveryPointer(live: map<nat, nat>, h: Heap, p: nat)
    requires Inv(h) && AllQuiet(h) && Tracks(live, h.chunks)
    ensures SizeAt(live, h, p) && (FoundAt(h, p) ==> p in live)
  {
    AllocationSizeOfLive(h, p);
    AllocationSizeExact(h, p);
  }

  // ---------------------------------------------------------------- runs

  /** A block that the quarantine has taken for a batch. */
  ghost predicate IsBatch(blocks: map<int, Block>, chunks: map<int, Chunk>, b: int) {
    && b in blocks && blocks[b].kind == Carved && blocks[b].used && b !in chunks
    && blocks[b].Size() >= BATCH_SIZE
  }

  ghost predicate BatchesOk(batches: set<int>, blocks: map<int, Block>, chunks: map<int, Chunk>) {
    forall b :: b in batches ==> IsBatch(blocks, chunks, b)
  }

  /** What the program and the quarantine know of the heap is true. */
  ghost predicate Known(live: map<nat, nat>, batches: set<int>, core: Core, chunks: map<int, Chunk>) {
    Tracks(live, chunks) && BatchesOk(batches, core.blocks, chunks)
  }

  lemma KnownMalloc(live: map<nat, nat>, batches: set<int>, core: Core, chunks: map<int, Chunk>, core': Core,
                    chunks': map<int, Chunk>, b: int, p: nat, self: nat, meta: Meta)
    requires Known(live, batches, core, chunks) && Malloced(core, chunks, core', chunks', b, p, self, meta)
    requires !core.blocks[b].used && Inv(Heap(core'.mem, core'.shadow, core'.blocks, chunks'))
    ensures Known(live[p := meta.size], batches, core', chunks')
  {
    TracksNew(live, chunks, Heap(core'.mem, core'.shadow, core'.blocks, chunks'), b, p, meta);
    forall c | c in batches ensures IsBatch(core'.blocks, chunks', c) { assert IsBatch(core.blocks, chunks, c); }
  }

  lemma KnownFree(live: map<nat, nat>, batches: set<int>, core: Core, chunks: map<int, Chunk>, core': Core,
                  chunks': map<int, Chunk>, b: int, p: nat, self: nat, context: nat)
    requires Known(live, batches, core, chunks) && Quarantining(core, chunks, core', chunks', b, p, self, context)
    requires Inv(Heap(core.mem, core.shadow, core.blocks, chunks))
    ensures Known(live - {p}, batches, core', chunks')
  {
    TracksFree(live, Heap(core.mem, core.shadow, core.blocks, chunks), chunks', b, context);
    forall c | c in batches ensures IsBatch(core'.blocks, chunks', c) { assert IsBatch(core.blocks, chunks, c); }
  }

  lemma KnownMove(live: map<nat, nat>, batches: set<int>, core: Core, chunks: map<int, Chunk>, core': Core,
                  chunks': map<int, Chunk>, b: int, p: nat, d: int, dst: nat, self: nat, meta: Meta)
    requires Known(live, batches, core, chunks) && Moved(core, chunks, core', chunks', b, p, d, dst, self, meta)
    requires Inv(Heap(core.mem, core.shadow, core.blocks, chunks)) && !core.blocks[d].used
    requires Inv(Heap(core'.mem, core'.shadow, core'.blocks, chunks'))
    ensures Known(live[dst := meta.size] - {p}, batches, core', chunks')
  {
    TracksMove(live, Heap(core.mem, core.shadow, core.blocks, chunks),
               Heap(core'.mem, core'.shadow, core'.blocks, chunks'), b, p, d, dst, meta);
    FreedThenPublished(chunks, chunks', b, d, dst, meta);
    forall c | c in batches ensures IsBatch(core'.blocks, chunks', c) { assert IsBatch(core.blocks, chunks, c); }
  }

  lemma KnownRealloc(live: map<nat, nat>, batches: set<int>, core: Core, chunks: map<int, Chunk>, core': Core,
                     chunks': map<int, Chunk>, r: Outcome, report: FreeReport, b: int, p: nat, offer: Option<int>,
                     self: nat, meta: Meta)
    requires Known(live, batches, core, chunks)
    requires Reallocated(core, chunks, core', chunks', r, report, b, p, offer, self, meta)
    requires Inv(Heap(core.mem, core.shadow, core.blocks, chunks))
    requires Inv(Heap(core'.mem, core'.shadow, core'.blocks, chunks'))
    requires r.Pointer? ==> !core.blocks[offer.value].used
    ensures Known(AfterRealloc(live, r, report, p, meta.size), batches, core', chunks')
  {
    if !r.Pointer? {
    } else if EndsInQuarantine(report) {
      KnownMove(live, batches, core, chunks, core', chunks', b, p, offer.value, r.p, self, meta);
    } else {
      KnownMalloc(live, batches, core, chunks, core', chunks', offer.value, r.p, self, meta);
    }
  }

  /** The program's table after a realloc that returned `r`. */
  function AfterRealloc(live: map<nat, nat>, r: Outcome, report: FreeReport, p: nat, size: nat): map<nat, nat> {
    var gained := if r.Pointer? then live[r.p := size] else live;
    if EndsInQuarantine(report) then gained - {p} else gained
  }

  lemma KnownRecycle(live: map<nat, nat>, batches: set<int>, core: Core, chunks: map<int, Chunk>, core': Core, b: int)
    requires Known(live, batches, core, chunks) && b in chunks && chunks[b].state == Quarantined
    requires b in core.blocks && core'.blocks == ReturnedBlocks(core.blocks, b)
    ensures Known(live, batches, core', chunks - {b})
  {
    TracksSame(live, chunks, chunks - {b});
    forall c | c in batches ensures IsBatch(core'.blocks, chunks - {b}, c) { assert IsBatch(core.blocks, chunks, c); }
  }

  predicate ThreadOk(heap: Allocator, self: nat, stack: nat)
    reads heap
  {
    self < |heap.core.stats| && self < 0x1_0000_0000 && stack < 0x1_0000_0000
  }

  method RunMalloc(heap: Allocator, live: map<nat, nat>, ghost batches: set<int>, op: Op) returns (live': map<nat, nat>)
    requires heap.Valid() && Known(live, batches, heap.core, heap.chunks) && op.Malloc?
    modifies heap`core, heap`chunks
    ensures heap.Valid() && Known(live', batches, heap.core, heap.chunks)
  {
    live' := live;
    if op.size >= WORD || op.alignment >= WORD || op.allocType >= 4 || op.lsanTag >= 4 { return; }
    if !ThreadOk(heap, op.self, op.stack) { return; }
    var size, alignment := RequestedSize(op.size), EffectiveAlignment(op.alignment);
    if op.offer.Some? && !Offers(heap.core.blocks, op.offer.value, heap.NeededFor(size, alignment)) { return; }
    ghost var core0, chunks0 := heap.core, heap.chunks;
    var r := heap.Allocate(op.size, op.alignment, op.allocType, op.lsanTag, op.self, op.stack, op.canFill, op.offer);
    if r.Pointer? {
      KnownMalloc(live, batches, core0, chunks0, heap.core, heap.chunks, op.offer.value, r.p, op.self,
                  heap.chunks[op.offer.value].meta);
      live' := live[r.p := size];
    }
  }

  method RunWrite(heap: Allocator, live: map<nat, nat>, ghost batches: set<int>, op: Op)
    requires heap.Valid() && Known(live, batches, heap.core, heap.chunks) && op.Write?
    modifies heap`core
    ensures heap.Valid() && Known(live, batches, heap.core, heap.chunks)
  {
    if op.p in live && op.offset < live[op.p] {
      OwnedIsLive(live, heap.View(), true, op.p + op.offset);
      heap.ProgramWrite(op.p + op.offset, op.v);
    }
  }

  method RunFree(heap: Allocator, live: map<nat, nat>, ghost batches: set<int>, op: Op) returns (live': map<nat, nat>)
    requires heap.Valid() && Known(live, batches, heap.core, heap.chunks) && op.Free?
    modifies heap`core, heap`chunks
    ensures heap.Valid() && Known(live', batches, heap.core, heap.chunks)
  {
    live' := live;
    if !ThreadOk(heap, op.self, op.stack) { return; }
    if op.p != 0 && heap.core.mem(op.p - HEADER) == CHUNK_ALLOCATED && op.p !in live { return; }
    ghost var core0, chunks0 := heap.core, heap.chunks;
    var r, b := heap.Deallocate(op.p, op.deleteSize, op.deleteAlignment, op.self, op.stack, op.allocType);
    if EndsInQuarantine(r) {
      KnownFree(live, batches, core0, chunks0, heap.core, heap.chunks, b, op.p, op.self, Context(op.self, op.stack));
      live' := live - {op.p};
    }
  }

  /** The pointer can be passed to realloc: see Allocator.Reallocable. */
  method CanRealloc(heap: Allocator, live: map<nat, nat>, p: nat) returns (ok: bool)
    requires heap.Valid() && Tracks(live, heap.chunks)
    ensures ok ==> p == 0 || heap.Reallocable(p)
  {
    if p == 0 { return true; }
    if heap.core.mem(p - HEADER) == CHUNK_ALLOCATED { return p in live; }
    var b := GetBlockBegin(heap.core.blocks, p - HEADER);
    AtMostOneBlock(heap.core.blocks, p - HEADER);
    return b.None? || heap.core.blocks[b.value].used;
  }

  method RunRealloc(heap: Allocator, live: map<nat, nat>, ghost batches: set<int>, op: Op) returns (live': map<nat, nat>)
    requires heap.Valid() && Known(live, batches, heap.core, heap.chunks) && op.Realloc?
    modifies heap`core, heap`chunks
    ensures heap.Valid() && Known(live', batches, heap.core, heap.chunks)
  {
    live' := live;
    var ok := CanRealloc(heap, live, op.p);
    if !ok || op.size >= WORD || op.lsanTag >= 4 || !ThreadOk(heap, op.self, op.stack) { return; }
    var size := RequestedSize(op.size);
    if op.offer.Some? && !Offers(heap.core.blocks, op.offer.value, heap.NeededFor(size, GRANULE)) { return; }
    live' := ReallocChecked(heap, live, batches, op);
  }

  method ReallocChecked(heap: Allocator, live: map<nat, nat>, ghost batches: set<int>, op: Op)
    returns (live': map<nat, nat>)
    requires heap.Valid() && Known(live, batches, heap.core, heap.chunks)
    requires op.Realloc? && (op.p == 0 || heap.Reallocable(op.p)) && op.size < WORD && op.lsanTag < 4
    requires ThreadOk(heap, op.self, op.stack)
    requires op.offer.Some? ==>
               Offers(heap.core.blocks, op.offer.value, heap.NeededFor(RequestedSize(op.size), GRANULE))
    modifies heap`core, heap`chunks
    ensures heap.Valid() && Known(live', batches, heap.core, heap.chunks)
  {
    var size := RequestedSize(op.size);
    ghost var core0, chunks0 := heap.core, heap.chunks;
    var r, report, b := heap.AsanRealloc(op.p, op.size, op.lsanTag, op.self, op.stack, op.offer);
    live' := AfterRealloc(live, r, report, op.p, size);
    if op.p != 0 && op.size == 0 && heap.flags.freesOnReallocZero {
      if EndsInQuarantine(report) {
        KnownFree(live, batches, core0, chunks0, heap.core, heap.chunks, b, op.p, op.self, Context(op.self, op.stack));
      }
    } else if op.p != 0 {
      KnownRealloc(live, batches, core0, chunks0, heap.core, heap.chunks, r, report, b, op.p, op.offer, op.self,
                   MallocMeta(size, op.lsanTag, op.self, op.stack));
    } else if r.Pointer? {
      KnownMalloc(live, batches, core0, chunks0, heap.core, heap.chunks, op.offer.value, r.p, op.self,
                  MallocMeta(size, op.lsanTag, op.self, op.stack));
    }
  }

  method RunRecycle(heap: Allocator, live: map<nat, nat>, ghost batches: set<int>, op: Op)
    requires heap.Valid() && Known(live, batches, heap.core, heap.chunks) && op.Recycle?
    modifies heap`core, heap`chunks
    ensures heap.Valid() && Known(live, batches, heap.core, heap.chunks)
  {
    if op.m in heap.core.quarantine && op.self < |heap.core.stats| {
      ghost var core0, chunks0 := heap.core, heap.chunks;
      var ok, b := heap.Recycle(op.m, op.self);
      KnownRecycle(live, batches, core0, chunks0, heap.core, b);
    }
  }

  method RunPopulate(heap: Allocator, ghost live: map<nat, nat>, ghost batches: set<int>, op: Op)
    requires heap.Valid() && Known(live, batches, heap.core, heap.chunks) && op.Populate?
    modifies heap`core
    ensures heap.Valid() && Known(live, batches, heap.core, heap.chunks)
  {
    var blocks := heap.core.blocks;
    if op.requested == 0 || op.freeArray == 0 || op.region !in blocks || !blocks[op.region].kind.Reserve? { return; }
    var ok := heap.PopulateFreeArray(op.region, op.requested, op.freeArray, op.mmaps);
    if ok {
      ghost var mapped := MappedMore(blocks, op.region, MoreUnits(blocks[op.region].kind, op.requested));
      MappedMoreOk(blocks, op.region, MoreUnits(blocks[op.region].kind, op.requested));
      forall b | b in batches ensures IsBatch(heap.core.blocks, heap.chunks, b) {
        assert IsBatch(blocks, heap.chunks, b);
        CarvedRunBlocks(mapped, op.region, b);
      }
    }
  }

  method RunBlockOp(heap: Allocator, ghost live: map<nat, nat>, batches: set<int>, op: Op) returns (batches': set<int>)
    requires heap.Valid() && Known(live, batches, heap.core, heap.chunks)
    requires op.MapLarge? || op.ReleaseToOs? || op.TakeBatch? || op.WriteBatch? || op.ReturnBatch?
    modifies heap`core
    ensures heap.Valid() && Known(live, batches', heap.core, heap.chunks)
  {
    batches' := batches;
    var blocks := heap.core.blocks;
    match op {
      case MapLarge(unit, units) =>
        if 16 * unit !in blocks && BlocksOk(blocks[16 * unit := Block(unit, units, false, false, Carved)]) {
          heap.MapSecondary(unit, units);
        }
      case ReleaseToOs(b, from, to) =>
        if b in blocks && blocks[b].kind == Carved && !blocks[b].used && b <= from <= to <= b + blocks[b].Size() {
          heap.ReleaseToOs(b, from, to);
        }
      case TakeBatch(b, contents) =>
        if Offers(blocks, b, BATCH_SIZE) {
          heap.TakeBatch(b, contents);
          batches' := batches + {b};
        }
      case WriteBatch(b, next, contents) =>
        if b in batches && next % 16 == 0 { heap.WriteBatch(b, next, contents); }
      case ReturnBatch(b) =>
        if b in batches {
          heap.ReturnBatch(b);
          batches' := batches - {b};
        }
    }
  }

  ghost predicate Ready(act: Activator, live: map<nat, nat>, batches: set<int>)
    reads act, act.heap
  {
    act.Valid() && Known(live, batches, act.heap.core, act.heap.chunks)
  }

  method RunActivation(act: Activator, ghost live: map<nat, nat>, ghost batches: set<int>, op: Op)
    requires Ready(act, live, batches) && (op.Deactivate? || op.Activate?)
    modifies act, act.heap
    ensures Ready(act, live, batches)
    ensures op.Activate? && old(act.heap.mode) == Always ==> act.heap.mode == Always
  {
    var ok;
    if op.Deactivate? {
      ok := act.AsanDeactivate();
    } else {
      ok := act.AsanActivate(op.flags);
      TracksSame(live, old(act.heap.chunks), act.heap.chunks);
    }
  }

  method Step(act: Activator, live: map<nat, nat>, batches: set<int>, op: Op)
    returns (live': map<nat, nat>, batches': set<int>)
    requires Ready(act, live, batches)
    modifies act, act.heap
    ensures Ready(act, live', batches')
    ensures !op.Deactivate? && old(act.heap.mode) == Always ==> act.heap.mode == Always
  {
    live', batches' := live, batches;
    if op.Deactivate? || op.Activate? {
      RunActivation(act, live, batches, op);
    } else {
      live', batches' := RunHeapOp(act.heap, live, batches, op);
    }
  }

  method RunHeapOp(heap: Allocator, live: map<nat, nat>, batches: set<int>, op: Op)
    returns (live': map<nat, nat>, batches': set<int>)
    requires heap.Valid() && Known(live, batches, heap.core, heap.chunks) && !op.Deactivate? && !op.Activate?
    modifies heap`core, heap`chunks
    ensures heap.Valid() && Known(live', batches', heap.core, heap.chunks)
  {
    live', batches' := live, batches;
    if op.Malloc? {
      live' := RunMalloc(heap, live, batches, op);
    } else if op.Write? {
      RunWrite(heap, live, batches, op);
    } else if op.Free? {
      live' := RunFree(heap, live, batches, op);
    } else if op.Realloc? {
      live' := RunRealloc(heap, live, batches, op);
    } else if op.Recycle? {
      RunRecycle(heap, live, batches, op);
    } else if op.Populate? {
      RunPopulate(heap, live, batches, op);
    } else {
      batches' := RunBlockOp(heap, live, batches, op);
    }
  }

  /** The regions that the primary allocator sets aside at the start. */
  method ReserveRegions(heap: Allocator, regions: seq<Region>)
    requires heap.Valid() && heap.chunks == map[] && forall g :: heap.core.shadow(g) == 0
    modifies heap`core
    ensures heap.Valid() && heap.chunks == map[]
  {
    for i := 0 to |regions|
      invariant heap.Valid() && heap.chunks == map[] && forall g :: heap.core.shadow(g) == 0
    {
      var r := regions[i];
      var b, block := 16 * r.unit, Block(r.unit, r.units, true, false, Reserve(0, 0, r.blockUnits));
      if r.blockUnits > 0 && b !in heap.core.blocks && BlocksOk(heap.core.blocks[b := block]) {
        heap.ReserveRegion(r.unit, r.units, r.blockUnits);
      }
    }
  }

  /**
   * A whole run from an empty heap; calls that are not possible when their turn comes do not happen.
   * Afterwards the shadow is right about every byte of every block, lookup about the size of every
   * pointer, the counters about what the program holds, and the quarantine holds every freed chunk once.
   * As long as nothing deactivates ASan, poisoning has always been on.
   */
  method RunProgram(flags: Flags, maxUser: nat, threads: nat, options: AllocatorOptions, canPoison: bool,
                    mallocContextSize: int, regions: seq<Region>, ops: seq<Op>)
    returns (act: Activator, live: map<nat, nat>)
    requires options.Accepted() && Fits(options)
    ensures act.Valid() && Tracks(live, act.heap.chunks)
    ensures canPoison && (forall i :: 0 <= i < |ops| ==> !ops[i].Deactivate?) ==> act.heap.mode == Always
    ensures forall b, a :: Contains(act.heap.core.blocks, b, a) ==>
              ExactAt(live, act.heap.View(), act.heap.flags.poisonPartial, act.heap.mode, b, a)
    ensures forall p: nat :: SizeAt(live, act.heap.View(), p)
    ensures var t := Total(act.heap.core.stats);
            t.mallocs - t.frees == |live| && t.malloced - t.freed == HeldBytes(live)
    ensures QuarantineOk(act.heap.core.quarantine, act.heap.chunks)
  {
    var heap := new Allocator(flags, maxUser, threads, options, canPoison);
    ReserveRegions(heap, regions);
    act := new Activator(heap, mallocContextSize);
    live := map[];
    var batches := {};
    for i := 0 to |ops|
      invariant Ready(act, live, batches) && act.heap == heap
      invariant canPoison && (forall j :: 0 <= j < i ==> !ops[j].Deactivate?) ==> heap.mode == Always
    {
      live, batches := Step(act, live, batches, ops[i]);
    }
    InvIsDistinct(heap.View());
    TableCounts(live, heap.chunks);
    forall b, a | Contains(heap.core.blocks, b, a)
      ensures ExactAt(live, heap.View(), heap.flags.poisonPartial, heap.mode, b, a)
    {
      EveryByte(live, heap.View(), heap.flags.poisonPartial, heap.mode, b, a);
    }
    forall p: nat ensures SizeAt(live, heap.View(), p) { EveryPointer(live, heap.View(), p); }
  }
}
