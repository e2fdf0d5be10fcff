/** The ASan allocator: Allocate, Deallocate, Recycle and Reallocate over one heap. */
module AsanAllocator {
  import opened Words
  import opened Redzones
  import opened Layout
  import opened Memory
  import opened Shadow
  import opened HeapState
  import opened ChunkSteps
  import opened Accounting
  import opened AllocatorSteps
  import opened FreeBlocks
  import opened Repoison

  datatype Flags = Flags(poisonPartial: bool, maxMallocFill: nat, mallocFillByte: Byte,
                         maxFreeFill: nat, freeFillByte: Byte, newDeleteTypeMismatch: bool,
                         freesOnReallocZero: bool)

  const FROM_MALLOC: nat := 1
  const FROM_NEW: nat := 2
  const FROM_NEW_BR: nat := 3

  /** A fatal report or a failed CHECK ends the process. */
  datatype Outcome = Pointer(p: nat) | Null | FatalTooBig | FatalOutOfMemory | CheckFailed

  /**
   * What a free reports; only Freed, TypeMismatch and SizeMismatch put the chunk in quarantine.
   * BadDeleteAlignment is the CHECK on the alignment passed to operator delete.
   */
  datatype FreeReport =
    NothingToFree | Freed | TypeMismatch | SizeMismatch | BadDeleteAlignment | DoubleFree | NotMalloced

  predicate EndsInQuarantine(r: FreeReport) { r.Freed? || r.TypeMismatch? || r.SizeMismatch? }

  function RequestedSize(size: nat): nat { if size == 0 then 1 else size }

  function EffectiveAlignment(alignment: nat): nat { if alignment < GRANULE then GRANULE else alignment }

  /** A block the underlying allocator may hand out for `needed` bytes. */
  predicate Offers(blocks: map<int, Block>, b: int, needed: int) {
    && b in blocks && !blocks[b].used && blocks[b].kind == Carved
    && blocks[b].Size() >= needed
    && (blocks[b].primary <==> needed <= PRIMARY_MAX)
  }

  datatype AllocatorOptions = AllocatorOptions(quarantineSizeMb: nat, threadLocalQuarantineSizeKb: nat, minRedzone: nat,
                                               maxRedzone: nat, mayReturnNull: bool, allocDeallocMismatch: bool,
                                               releaseToOsIntervalMs: int)
  {
    /** The CHECKs of CheckOptions and of Quarantine::Init. */
    predicate Accepted() {
      && CheckOptions(minRedzone, maxRedzone)
      && (quarantineSizeMb == 0 || threadLocalQuarantineSizeKb != 0)
    }
  }

  /** The header of a chunk of malloc, whose alignment is 8. */
  function MallocMeta(size: nat, lsanTag: nat, self: nat, stack: nat): Meta {
    Meta(FROM_MALLOC, lsanTag, 1, size, Context(self, stack))
  }

  /** The chunks are as before, with a new allocated one at user start `p` of block `b`. */
  ghost predicate Published(chunks: map<int, Chunk>, chunks': map<int, Chunk>, b: int, p: nat, meta: Meta) {
    && b !in chunks && b in chunks' && chunks' == chunks[b := chunks'[b]]
    && chunks'[b].Beg() == p && chunks'[b] == Chunk(chunks'[b].first, meta, Allocated, 0, 0)
  }

  /** An allocated chunk after its free. */
  ghost function Retired(c: Chunk, freeContext: nat): Chunk {
    c.(state := Quarantined, freeContext := freeContext, poison := HEAP_FREE)
  }

  lemma RetiredAfterPublished(chunks: map<int, Chunk>, chunks1: map<int, Chunk>, chunks2: map<int, Chunk>, d: int, b: int,
                              p: nat, meta: Meta)
    requires Published(chunks, chunks1, d, p, meta) && b in chunks1 && b != d
    requires chunks2 == chunks1[b := Retired(chunks1[b], meta.context)]
    ensures b in chunks && chunks[b] == chunks1[b] && chunks2[b] == Retired(chunks[b], meta.context)
    ensures Published(chunks, chunks2[b := chunks[b]], d, p, meta)
  {
    assert chunks2[b := chunks[b]] == chunks1;
  }

  function CountedMalloc(stats: seq<Stats>, self: nat, size: nat): seq<Stats>
    requires self < |stats|
  {
    stats[self := AddStats(stats[self], Stats(1, size, 0, 0, 0, 0))]
  }

  function CountedFree(stats: seq<Stats>, self: nat, size: nat): seq<Stats>
    requires self < |stats|
  {
    stats[self := AddStats(stats[self], Stats(0, 0, 1, size, 0, 0))]
  }

  function CountedRecycle(stats: seq<Stats>, self: nat, size: nat): seq<Stats>
    requires self < |stats|
  {
    stats[self := AddStats(stats[self], Stats(0, 0, 0, 0, 1, size))]
  }

  function TakenBlocks(blocks: map<int, Block>, b: int): map<int, Block>
    requires b in blocks
  {
    blocks[b := blocks[b].(used := true)]
  }

  /** What a successful Allocate does: a new chunk at `p` in the block that was offered. */
  ghost predicate Malloced(core: Core, chunks: map<int, Chunk>, core': Core, chunks': map<int, Chunk>, b: int, p: nat,
                           self: nat, meta: Meta)
  {
    && Published(chunks, chunks', b, p, meta)
    && b in core.blocks && core'.blocks == TakenBlocks(core.blocks, b)
    && self < |core.stats| && core'.stats == CountedMalloc(core.stats, self, meta.size)
    && core'.quarantine == core.quarantine
    && SameOutside(core.mem, core'.mem, b, b + core.blocks[b].Size())
  }

  /** What a free of the live chunk at `p` does: the chunk of block `b` goes to quarantine. */
  ghost predicate Quarantining(core: Core, chunks: map<int, Chunk>, core': Core, chunks': map<int, Chunk>, b: int, p: nat,
                               self: nat, context: nat)
  {
    && b in chunks && b in core.blocks && chunks[b].Beg() == p && chunks[b].state == Allocated
    && chunks' == chunks[b := Retired(chunks[b], context)]
    && core'.blocks == core.blocks && core'.quarantine == core.quarantine + multiset{p - HEADER}
    && self < |core.stats| && core'.stats == CountedFree(core.stats, self, chunks[b].Size())
    && SameOutside(core.mem, core'.mem, b, b + core.blocks[b].Size())
  }

  /**
   * What realloc(p) does to the heap. Without a new chunk nothing changes. A bad pointer is reported
   * after the new chunk was made. Otherwise the new chunk starts with the bytes of the old one, which
   * goes to quarantine, and no other chunk changes.
   */
  ghost predicate Reallocated(core: Core, chunks: map<int, Chunk>, core': Core, chunks': map<int, Chunk>,
                              r: Outcome, report: FreeReport, b: int, p: nat, offer: Option<int>, self: nat, meta: Meta)
  {
    if !r.Pointer? then core' == core && chunks' == chunks && report.NothingToFree?
    else
      && offer.Some? && offer.value in core.blocks
      && (EndsInQuarantine(report) <==> core.mem(p - HEADER) == CHUNK_ALLOCATED)
      && (report.DoubleFree? <==> core.mem(p - HEADER) == CHUNK_QUARANTINE)
      && if !EndsInQuarantine(report) then Malloced(core, chunks, core', chunks', offer.value, r.p, self, meta)
         else Moved(core, chunks, core', chunks', b, p, offer.value, r.p, self, meta)
  }

  /** The first half of a realloc: the new chunk is there, with room for its bytes. */
  ghost predicate Begun(core: Core, chunks: map<int, Chunk>, core': Core, chunks': map<int, Chunk>, d: int, dst: nat,
                        self: nat, meta: Meta)
  {
    && Inv(Heap(core.mem, core.shadow, core.blocks, chunks))
    && d in core.blocks && core.blocks[d].kind == Carved
    && Malloced(core, chunks, core', chunks', d, dst, self, meta)
    && d <= dst && dst + meta.size <= d + core.blocks[d].Size()
  }

  /** The live chunk at `p` of block `b` has moved to `dst` in block `d`. */
  ghost predicate Moved(core: Core, chunks: map<int, Chunk>, core': Core, chunks': map<int, Chunk>, b: int, p: nat,
                        d: int, dst: nat, self: nat, meta: Meta)
  {
    && b in chunks && chunks[b].Beg() == p && chunks[b].state == Allocated && dst != p
    && b in chunks' && chunks'[b] == Retired(chunks[b], meta.context)
    && Published(chunks, chunks'[b := chunks[b]], d, dst, meta)
    && CopiedFrom(core.mem, core'.mem, dst, p, Min(meta.size, chunks[b].Size()))
    && SameOutsideTwo(core.mem, core'.mem, core.blocks, b, d)
    && d in core.blocks && core'.blocks == TakenBlocks(core.blocks, d)
    && core'.quarantine == core.quarantine + multiset{p - HEADER}
    && self < |core.stats|
    && core'.stats == CountedFree(CountedMalloc(core.stats, self, meta.size), self, chunks[b].Size())
  }

  /** What the allocator keeps in memory. */
  datatype Core = Core(mem: Bytes, shadow: Bytes, blocks: map<int, Block>, quarantine: multiset<int>, stats: seq<Stats>)

  /** The second half of a realloc: the bytes are copied and the old chunk is freed. */
  lemma CopiedAndFreed(core0: Core, chunks0: map<int, Chunk>, core: Core, chunks: map<int, Chunk>, core': Core,
                       chunks': map<int, Chunk>, b: int, p: nat, d: int, dst: nat, self: nat, meta: Meta)
    requires Begun(core0, chunks0, core, chunks, d, dst, self, meta) && dst != p && b in chunks
    requires Quarantining(core.(mem := Copy(core.mem, dst, p, Min(meta.size, chunks[b].Size()))), chunks, core', chunks',
                          b, p, self, meta.context)
    ensures Moved(core0, chunks0, core', chunks', b, p, d, dst, self, meta)
  {
    RetiredAfterPublished(chunks0, chunks, chunks', d, b, dst, meta);
    ReallocateMemory(Heap(core0.mem, core0.shadow, core0.blocks, chunks0), b, d, core.mem, core'.mem, dst, p,
                     Min(meta.size, chunks0[b].Size()));
  }

  class Allocator {
    var core: Core
    var minRedzone: nat
    var maxRedzone: nat
    var mayReturnNull: bool
    var allocDeallocMismatch: bool
    var quarantineSize: nat
    var quarantineCacheSize: nat
    var releaseToOsIntervalMs: int
    var canPoison: bool
    const flags: Flags
    const maxUser: nat

    /** The chunk lifetimes that memory encodes. */
    ghost var chunks: map<int, Chunk>
    ghost var mode: Poisoning

    ghost function View(): Heap
      reads this
    {
      Heap(core.mem, core.shadow, core.blocks, chunks)
    }

    ghost predicate ValidFor(mode: Poisoning)
      reads this
    {
      && CheckOptions(minRedzone, maxRedzone) && AllCarved(core.blocks)
      && Good(Books(View(), core.quarantine, core.stats), flags.poisonPartial, mode)
    }

    ghost predicate Valid()
      reads this
    {
      ValidFor(mode) && canPoison == (mode != Off)
    }

    constructor (flags: Flags, maxUser: nat, threads: nat, options: AllocatorOptions, canPoison: bool)
      requires options.Accepted()
      ensures Valid() && chunks == map[] && |core.stats| == threads && this.flags == flags
      ensures core.blocks == map[] && core.quarantine == multiset{} && (forall g :: core.shadow(g) == 0)
      ensures GetOptions() == options && this.canPoison == canPoison
      ensures mode == if canPoison then Always else Off
    {
      this.core := Core(_ => 0, _ => 0, map[], multiset{}, seq(threads, _ => Stats(0, 0, 0, 0, 0, 0)));
      this.chunks, this.mode := map[], if canPoison then Always else Off;
      this.minRedzone, this.maxRedzone := options.minRedzone, options.maxRedzone;
      this.mayReturnNull, this.allocDeallocMismatch := options.mayReturnNull, options.allocDeallocMismatch;
      this.quarantineSize := options.quarantineSizeMb * 0x10_0000;
      this.quarantineCacheSize := options.threadLocalQuarantineSizeKb * 0x400;
      this.releaseToOsIntervalMs := options.releaseToOsIntervalMs;
      this.canPoison := canPoison;
      this.flags, this.maxUser := flags, maxUser;
      new;
      EmptyIsGood(core.mem, core.shadow, threads, flags.poisonPartial, mode);
    }

    // -------------------------------------------------------------- options

    function GetOptions(): AllocatorOptions
      reads this
    {
      AllocatorOptions(quarantineSize / 0x10_0000, quarantineCacheSize / 0x400, minRedzone, maxRedzone, mayReturnNull,
                       allocDeallocMismatch, releaseToOsIntervalMs)
    }

    method SetCanPoisonMemory(value: bool)
      requires Valid()
      modifies this`canPoison
      ensures ValidFor(Off) && canPoison == value
    {
      PoisoningOff(View(), flags.poisonPartial, mode);
      canPoison := value;
    }

    /**
     * New options, and with poisoning on new poison for the whole heap: each block whose live chunk
     * lookup finds keeps exactly its user memory clear, every other block is wholly poisoned.
     */
    method ReInitialize(options: AllocatorOptions) returns (ok: bool)
      requires ValidFor(Off)
      modifies this`mayReturnNull, this`releaseToOsIntervalMs, this`quarantineSize, this`quarantineCacheSize,
               this`allocDeallocMismatch, this`minRedzone, this`maxRedzone, this`core, this`chunks, this`mode
      ensures ok <==> options.Accepted()
      ensures ok ==> Valid() && GetOptions() == options && mode == if canPoison then On else Off
      ensures ok ==> core == if canPoison then old(core).(shadow := core.shadow) else old(core)
      ensures ok ==> chunks == if canPoison then Repoisoned(old(View())) else old(chunks)
      ensures ok && canPoison ==> AllFreePoisoned(View())
    {
      mayReturnNull, releaseToOsIntervalMs := options.mayReturnNull, options.releaseToOsIntervalMs;
      ok := SharedInitCode(options);
      if !ok { return; }
      mode := Off;
      if canPoison { ok := RepoisonHeap(); }
    }

    /** CheckOptions, Quarantine::Init and the rest of the options. */
    method SharedInitCode(options: AllocatorOptions) returns (ok: bool)
      requires ValidFor(Off)
      modifies this`quarantineSize, this`quarantineCacheSize, this`allocDeallocMismatch, this`minRedzone, this`maxRedzone
      ensures ok <==> options.Accepted()
      ensures ok ==> ValidFor(Off)
      ensures ok ==> GetOptions() == options.(mayReturnNull := mayReturnNull, releaseToOsIntervalMs := releaseToOsIntervalMs)
    {
      if !CheckOptions(options.minRedzone, options.maxRedzone) { return false; }
      if !(options.quarantineSizeMb == 0 || options.threadLocalQuarantineSizeKb != 0) { return false; }
      QuotientUnique(options.quarantineSizeMb * 0x10_0000, 0x10_0000, options.quarantineSizeMb, 0);
      QuotientUnique(options.threadLocalQuarantineSizeKb * 0x400, 0x400, options.threadLocalQuarantineSizeKb, 0);
      quarantineSize := options.quarantineSizeMb * 0x10_0000;
      quarantineCacheSize := options.threadLocalQuarantineSizeKb * 0x400;
      allocDeallocMismatch := options.allocDeallocMismatch;
      minRedzone, maxRedzone := options.minRedzone, options.maxRedzone;
      ok := true;
    }

    /** RePoisonChunk of every block; none of its CHECKs fails. */
    method RepoisonHeap() returns (ok: bool)
      requires canPoison && ValidFor(Off)
      modifies this`core, this`chunks, this`mode
      ensures ok && Valid() && mode == On && AllFreePoisoned(View())
      ensures core == old(core).(shadow := core.shadow) && chunks == Repoisoned(old(View()))
    {
      ghost var h := View();
      var shadow';
      ok, shadow' := RePoisonAll(core.mem, core.shadow, core.blocks, flags.poisonPartial, chunks);
      RepoisonedBooks(h, core.quarantine, core.stats);
      core := core.(shadow := shadow');
      chunks, mode := Repoisoned(h), On;
    }

    // -------------------------------------------------------------- environment

    /** A region of the primary allocator, none of it mapped. */
    method ReserveRegion(unit: nat, units: nat, blockUnits: nat)
      requires Valid() && 16 * unit !in core.blocks && blockUnits > 0
      requires BlocksOk(core.blocks[16 * unit := Block(unit, units, true, false, Reserve(0, 0, blockUnits))])
      requires Filled(core.shadow, 16 * unit, 16 * unit + 16 * units, 0)
      modifies this`core
      ensures Valid()
      ensures core == old(core).(blocks := core.blocks)
      ensures core.blocks == old(core.blocks)[16 * unit := Block(unit, units, true, false, Reserve(0, 0, blockUnits))]
    {
      var blocks' := core.blocks[16 * unit := Block(unit, units, true, false, Reserve(0, 0, blockUnits))];
      NewBlockSound(View(), View().(blocks := blocks'), flags.poisonPartial, mode, 16 * unit);
      core := core.(blocks := blocks');
    }

    /**
     * The region whose rest starts at `b` maps room for `requested` more blocks, in steps of 64KB, and
     * carves all it has mapped. The last `freeArray` units of a region are not for blocks; `mmaps` says
     * whether the kernel gives the memory.
     */
    method PopulateFreeArray(b: int, requested: nat, freeArray: nat, mmaps: bool) returns (ok: bool)
      requires Valid() && b in core.blocks && core.blocks[b].kind.Reserve? && requested > 0 && freeArray > 0
      modifies this`core
      ensures Valid()
      ensures var k := old(core.blocks)[b].kind;
              && (ok <==> k.mapped + MoreUnits(k, requested) + freeArray <= old(core.blocks)[b].units && mmaps)
              && (!ok ==> core == old(core))
              && (ok ==>
                    && CanCarve(MappedMore(old(core.blocks), b, MoreUnits(k, requested)), b)
                    && View() == Populated(old(View()), canPoison, b, MoreUnits(k, requested))
                    && core == old(core).(mem := core.mem, shadow := core.shadow, blocks := core.blocks)
                    && |core.blocks| >= |old(core.blocks)| + requested)
    {
      assert BlockInv(View(), b);
      var more := MoreUnits(core.blocks[b].kind, requested);
      MapsMore(core.blocks[b].kind, requested);
      if core.blocks[b].kind.mapped + more + freeArray > core.blocks[b].units || !mmaps { return false; }
      var mem', shadow', blocks' :=
        MapAndCarve(core.mem, core.shadow, core.blocks, canPoison, b, more, chunks, flags.poisonPartial, mode);
      assert BlocksOk(MappedMore(core.blocks, b, more)) by { MappedMoreOk(core.blocks, b, more); }
      CarvedRunCount(MappedMore(core.blocks, b, more), b, requested);
      core := core.(mem := mem', shadow := shadow', blocks := blocks');
      ok := true;
    }

    /** A mapping of the secondary allocator for one block, fresh from the kernel. */
    method MapSecondary(unit: nat, units: nat)
      requires Valid() && 16 * unit !in core.blocks
      requires BlocksOk(core.blocks[16 * unit := Block(unit, units, false, false, Carved)])
      modifies this`core
      ensures Valid() && Zeroed(core.mem, 16 * unit, 16 * unit + 16 * units)
      ensures core == Core(MappedMemory(old(core.mem), 16 * unit, 16 * unit + 16 * units),
                           MappedShadow(old(core.shadow), canPoison, 16 * unit, 16 * unit + 16 * units),
                           old(core.blocks)[16 * unit := Block(unit, units, false, false, Carved)],
                           old(core.quarantine), old(core.stats))
    {
      var b, end := 16 * unit, 16 * unit + 16 * units;
      var core' := core.(mem := MappedMemory(core.mem, b, end), shadow := MappedShadow(core.shadow, canPoison, b, end),
                         blocks := core.blocks[b := Block(unit, units, false, false, Carved)]);
      NewBlockSound(View(), Heap(core'.mem, core'.shadow, core'.blocks, chunks), flags.poisonPartial, mode, b);
      core := core';
    }

    /** Memory of a block without a chunk is released to the kernel and reads as zero from then on. */
    method ReleaseToOs(b: int, from: int, to: int)
      requires Valid() && b in core.blocks && core.blocks[b].kind == Carved && !core.blocks[b].used
      requires b <= from <= to <= b + core.blocks[b].Size()
      modifies this`core
      ensures Valid() && core == old(core).(mem := MappedMemory(old(core.mem), from, to))
    {
      UnusedHasNoChunk(View(), b);
      assert QuietBlock(View(), b);
      var mem' := MappedMemory(core.mem, from, to);
      FreeBlockKeeps(Books(View(), core.quarantine, core.stats), flags.poisonPartial, mode, b, mem', core.blocks[b].used);
      assert core.blocks[b := core.blocks[b].(used := core.blocks[b].used)] == core.blocks;
      core := core.(mem := mem');
    }

    /** The quarantine takes a block for a batch, fills it and puts it at the end of its list. */
    method TakeBatch(b: int, contents: Bytes)
      requires Valid() && Offers(core.blocks, b, BATCH_SIZE)
      modifies this`core
      ensures Valid() && b !in chunks
      ensures core == old(core).(mem := BatchBytes(old(core.mem), b, 0, contents),
                                 blocks := TakenBlocks(old(core.blocks), b))
    {
      UnusedHasNoChunk(View(), b);
      var mem' := BatchBytes(core.mem, b, 0, contents);
      BatchIsUnclaimed(core.mem, b, 0, contents);
      FreeBlockKeeps(Books(View(), core.quarantine, core.stats), flags.poisonPartial, mode, b, mem', true);
      core := core.(mem := mem', blocks := TakenBlocks(core.blocks, b));
    }

    /** The quarantine links a batch to the next one, or changes what is in it. */
    method WriteBatch(b: int, next: nat, contents: Bytes)
      requires Valid() && b in core.blocks && core.blocks[b].kind == Carved && b !in chunks
      requires core.blocks[b].Size() >= BATCH_SIZE && next % 16 == 0
      modifies this`core
      ensures Valid() && core == old(core).(mem := BatchBytes(old(core.mem), b, next, contents))
    {
      var mem' := BatchBytes(core.mem, b, next, contents);
      BatchIsUnclaimed(core.mem, b, next, contents);
      FreeBlockKeeps(Books(View(), core.quarantine, core.stats), flags.poisonPartial, mode, b, mem', core.blocks[b].used);
      assert core.blocks[b := core.blocks[b].(used := core.blocks[b].used)] == core.blocks;
      core := core.(mem := mem');
    }

    /** A batch goes back to the underlying allocator. */
    method ReturnBatch(b: int)
      requires Valid() && b in core.blocks && core.blocks[b].kind == Carved && b !in chunks
      modifies this`core
      ensures Valid() && core == old(core).(blocks := old(core.blocks)[b := old(core.blocks)[b].(used := false)])
    {
      assert QuietBlock(View(), b);
      FreeBlockKeeps(Books(View(), core.quarantine, core.stats), flags.poisonPartial, mode, b, core.mem, false);
      core := core.(blocks := core.blocks[b := core.blocks[b].(used := false)]);
    }

    /** The program writes to live user memory. */
    method ProgramWrite(a: int, v: Byte)
      requires Valid() && Live(View(), true, a)
      modifies this`core
      ensures Valid() && core == old(core).(mem := core.mem)
      ensures core.mem(a) == v && SameOutside(old(core.mem), core.mem, a, a + 1)
    {
      ghost var b :| b in chunks && chunks[b].state == Allocated && InUserMemory(chunks[b], true, a);
      var mem' := Store(core.mem, a, v);
      WriteKeeps(Books(View(), core.quarantine, core.stats), flags.poisonPartial, mode, b, a, a + 1, mem');
      core := core.(mem := mem');
    }

    // -------------------------------------------------------------- Allocate

    /**
     * Turns the request down, or gives the place of the chunk in the offered block. The CHECKs on
     * the way fail only for an alignment that is not a power of two, or is 2^63; the one on the needed
     * size never does.
     */
    method Screen(size: nat, alignment: nat, offer: Option<int>) returns (r: Outcome)
      requires CheckOptions(minRedzone, maxRedzone) && BlocksOk(core.blocks)
      requires 1 <= size < WORD && 8 <= alignment < WORD
      requires offer.Some? ==> Offers(core.blocks, offer.value, NeededFor(size, alignment))
      ensures r.CheckFailed? <==>
                || !IsPowerOfTwo(alignment)
                || (alignment == HALF_WORD && offer.Some? && size <= MAX_ALLOWED && size <= maxUser)
      ensures IsPowerOfTwo(alignment) ==>
                (r in {Null, FatalTooBig, FatalOutOfMemory} <==>
                   offer.None? || Refuses(size, alignment))
      ensures r.Null? ==> mayReturnNull
      ensures r.FatalTooBig? || r.FatalOutOfMemory? ==> !mayReturnNull
      ensures r.Pointer? ==>
                && offer.Some? && IsAligned(r.p, alignment) && r.p == GRANULE * GranuleAt(r.p) && size <= MAX_ALLOWED
                && (r.p - HEADER == offer.value || offer.value + LARGE_HEADER <= r.p - HEADER)
                && r.p + Max(size, HEADER2) <= offer.value + core.blocks[offer.value].Size()
                && (r.p - HEADER == offer.value <==>
                      RedzoneSize(size, minRedzone, maxRedzone) == 16 && IsAligned(offer.value + 16, alignment))
    {
      if !IsPowerOfTwo(alignment) { return CheckFailed; }
      var rz := RedzoneSize(size, minRedzone, maxRedzone);
      var needed, ok := CheckedNeededSize(size, alignment, rz);
      if !ok { return CheckFailed; }
      if TooBig(size, needed, maxUser) {
        return if mayReturnNull then Null else FatalTooBig;
      }
      if offer.None? {
        return if mayReturnNull then Null else FatalOutOfMemory;
      }
      UnitAligned(offer.value, core.blocks[offer.value].unit);
      var place := PlaceChunk(offer.value, size, alignment, rz, needed);
      return if place.None? then CheckFailed else Pointer(place.value);
    }

    /** The needed size, and whether the CHECK that it is a whole number of granules passes: it always does. */
    static method CheckedNeededSize(size: nat, alignment: nat, rz: nat) returns (needed: nat, ok: bool)
      requires IsPowerOfTwo(alignment) && alignment >= 8 && IsRedzoneSize(rz)
      ensures needed == WrappedNeededSize(size, alignment, rz) && ok
      ensures alignment == HALF_WORD && size <= MAX_ALLOWED ==> needed <= MAX_ALLOWED
    {
      needed := WrappedNeededSize(size, alignment, rz);
      PowerOfTwoMultiple(rz);
      WrappedIsAligned(size, alignment, rz);
      if alignment == HALF_WORD && size <= MAX_ALLOWED { HalfWordAlignment(size, rz); }
      ok := needed % 8 == 0;
    }

    /** What Allocate asks of the underlying allocator. */
    function NeededFor(size: nat, alignment: nat): nat
      requires CheckOptions(minRedzone, maxRedzone) && alignment > 0
      reads this`minRedzone, this`maxRedzone
    {
      WrappedNeededSize(size, alignment, RedzoneSize(size, minRedzone, maxRedzone))
    }

    /** The request is over one of the limits. */
    predicate Refuses(size: nat, alignment: nat)
      requires CheckOptions(minRedzone, maxRedzone) && alignment > 0
      reads this`minRedzone, this`maxRedzone
    {
      TooBig(size, NeededFor(size, alignment), maxUser)
    }

    method Allocate(size0: nat, alignment0: nat, allocType: nat, lsanTag: nat, self: nat, stack: nat, canFill: bool,
                    offer: Option<int>)
      returns (r: Outcome)
      requires Valid() && size0 < WORD && alignment0 < WORD && allocType < 4 && lsanTag < 4
      requires self < |core.stats| && self < 0x1_0000_0000 && stack < 0x1_0000_0000
      requires offer.Some? ==>
                 Offers(core.blocks, offer.value, NeededFor(RequestedSize(size0), EffectiveAlignment(alignment0)))
      modifies this`core, this`chunks
      ensures Valid()
      ensures !r.Pointer? ==> core == old(core) && chunks == old(chunks)
      ensures r.CheckFailed? <==>
                || !IsPowerOfTwo(EffectiveAlignment(alignment0))
                || (&& alignment0 == HALF_WORD && offer.Some?
                    && RequestedSize(size0) <= MAX_ALLOWED && RequestedSize(size0) <= maxUser)
      ensures IsPowerOfTwo(EffectiveAlignment(alignment0)) ==>
                (r in {Null, FatalTooBig, FatalOutOfMemory} <==>
                   offer.None? || old(Refuses(RequestedSize(size0), EffectiveAlignment(alignment0))))
      ensures r.Null? ==> mayReturnNull
      ensures r.FatalTooBig? || r.FatalOutOfMemory? ==> !mayReturnNull
      ensures r.Pointer? ==>
                && offer.Some? && offer.value in core.blocks && LogIsDefined(alignment0)
                && Malloced(old(core), old(chunks), core, chunks, offer.value, r.p, self,
                            Meta(allocType, lsanTag, UserRequestedAlignmentLog(alignment0), RequestedSize(size0),
                                 Context(self, stack)))
                && IsAligned(r.p, EffectiveAlignment(alignment0))
                && (canFill ==> forall a :: r.p <= a < r.p + Min(RequestedSize(size0), flags.maxMallocFill) ==>
                                  core.mem(a) == flags.mallocFillByte)
                && (r.p - HEADER == offer.value <==>
                      RedzoneSize(RequestedSize(size0), minRedzone, maxRedzone) == 16
                      && IsAligned(offer.value + 16, EffectiveAlignment(alignment0)))
    {
      var size := RequestedSize(size0);
      r := Screen(size, EffectiveAlignment(alignment0), offer);
      if r.Pointer? {
        var alignLog := UserRequestedAlignmentLog(alignment0);
        ContextRoundTrip(self, stack);
        var meta := Meta(allocType, lsanTag, alignLog, size, Context(self, stack));
        TakeAndPublish(offer.value, GranuleAt(r.p), meta, self, canFill);
      }
    }

    /** The part of Allocate from the underlying allocator's answer on. */
    method TakeAndPublish(b: int, first: nat, meta: Meta, self: nat, canFill: bool)
      requires Valid() && b in core.blocks && !core.blocks[b].used && core.blocks[b].kind == Carved && self < |core.stats|
      requires Placed(b, core.blocks[b].Size(), Chunk(first, meta, Allocated, 0, 0))
      modifies this`core, this`chunks
      ensures Valid()
      ensures Malloced(old(core), old(chunks), core, chunks, b, GRANULE * first, self, meta)
      ensures canFill ==>
                forall a :: GRANULE * first <= a < GRANULE * first + Min(meta.size, flags.maxMallocFill) ==>
                  core.mem(a) == flags.mallocFillByte
    {
      UnusedHasNoChunk(View(), b);
      TakeBlock(b);
      Publish(b, first, meta, self, canFill);
    }

    /** Where the user memory starts, or None when one of the two layout CHECKs fails. */
    static method PlaceChunk(b: nat, size: nat, alignment: nat, rz: nat, needed: nat) returns (r: Option<nat>)
      requires 1 <= size <= MAX_ALLOWED && IsPowerOfTwo(alignment) && 8 <= alignment < WORD && IsRedzoneSize(rz)
      requires 0 < b <= 0x8000_0000_0000 && b % 16 == 0 && needed == WrappedNeededSize(size, alignment, rz)
      ensures r.None? <==> alignment == HALF_WORD
      ensures r.Some? ==>
                && IsAligned(r.value, alignment) && r.value == GRANULE * GranuleAt(r.value)
                && (r.value - HEADER == b || b + LARGE_HEADER <= r.value - HEADER)
                && r.value + Max(size, HEADER2) <= b + needed
                && (r.value - HEADER == b <==> rz == 16 && IsAligned(b + 16, alignment))
    {
      var allocEnd := b + needed;
      var userBeg := UserBeg(b, alignment, rz);
      WhenTheLayoutFails(size, alignment, rz, b);
      if userBeg + size > allocEnd { return None; }
      if alignment > 0x4000_0000_0000_0000 { PowersOfTwoNearTheTop(alignment); }
      ChunkFits(size, alignment, rz, b);
      WrappedIsExact(size, alignment, rz);
      GranuleOf(userBeg);
      var chunkBeg := userBeg - HEADER;
      if b != chunkBeg && b + LARGE_HEADER > chunkBeg { return None; }
      return Some(userBeg);
    }

    /** The underlying allocator hands out `b`, which gets poisoned if its first byte is not. */
    method TakeBlock(b: int)
      requires Valid() && b in core.blocks && core.blocks[b].kind == Carved && b !in chunks
      modifies this`core
      ensures Valid() && core == old(core).(blocks := TakenBlocks(old(core.blocks), b), shadow := core.shadow)
      ensures canPoison ==> Filled(core.shadow, b, b + core.blocks[b].Size(), LEFT_REDZONE)
    {
      var shadow' := RepairedShadow(core.shadow, canPoison, core.blocks[b].unit, core.blocks[b].units);
      TakeKeeps(Books(View(), core.quarantine, core.stats), flags.poisonPartial, canPoison, mode, b);
      core := core.(blocks := TakenBlocks(core.blocks, b), shadow := shadow');
    }

    /** The second half of Allocate: metadata, shadow, statistics, fill, state and large header. */
    method Publish(b: int, first: nat, meta: Meta, self: nat, canFill: bool)
      requires Valid() && b in core.blocks && b !in chunks && core.blocks[b].used && core.blocks[b].kind == Carved
      requires canPoison ==> Filled(core.shadow, b, b + core.blocks[b].Size(), LEFT_REDZONE)
      requires self < |core.stats|
      requires Placed(b, core.blocks[b].Size(), Chunk(first, meta, Allocated, 0, 0))
      modifies this`core, this`chunks
      ensures Valid()
      ensures chunks == old(chunks)[b := Chunk(first, meta, Allocated, 0, 0)]
      ensures core.stats == CountedMalloc(old(core.stats), self, meta.size)
      ensures core.blocks == old(core.blocks) && core.quarantine == old(core.quarantine)
      ensures SameOutside(old(core.mem), core.mem, b, b + old(core.blocks)[b].Size())
      ensures canFill ==>
                forall a :: GRANULE * first <= a < GRANULE * first + Min(meta.size, flags.maxMallocFill) ==>
                  core.mem(a) == flags.mallocFillByte
    {
      ghost var c := Chunk(first, meta, Allocated, 0, 0);
      var shadow' := AllocatedShadow(core.shadow, canPoison, flags.poisonPartial, first, meta.size);
      var stats' := CountedMalloc(core.stats, self, meta.size);
      var fill := if canFill && flags.maxMallocFill > 0 then Some(flags.mallocFillByte) else None;
      var mem' := AllocatedBytes(core.mem, b, first, meta, fill, Min(meta.size, flags.maxMallocFill));
      PublishKeeps(Books(View(), core.quarantine, core.stats), flags.poisonPartial, canPoison, mode, self, b, c, fill,
                   Min(meta.size, flags.maxMallocFill));
      core, chunks := core.(shadow := shadow', stats := stats', mem := mem'), chunks[b := c];
    }

    // -------------------------------------------------------------- Deallocate

    /**
     * The pointers a program may pass to free: null, any pointer whose state byte is not
     * CHUNK_ALLOCATED (a double or a wild free), and the user start of an allocated chunk.
     */
    ghost predicate Freeable(p: nat)
      reads this
    {
      || p == 0
      || core.mem(p - HEADER) != CHUNK_ALLOCATED
      || LiveAt(chunks, p)
    }

    function FreeFill(): Option<Byte> { if flags.maxFreeFill > 0 then Some(flags.freeFillByte) else None }

    /** The mismatch Deallocate reports before it puts the chunk in quarantine. */
    function Mismatch(gotType: nat, alignLog: nat, size: nat, deleteSize: nat, deleteAlignment: nat, allocType: nat)
      : FreeReport
      reads this`allocDeallocMismatch
    {
      if gotType != allocType then
        if allocDeallocMismatch then TypeMismatch else Freed
      else if flags.newDeleteTypeMismatch && (allocType == FROM_NEW || allocType == FROM_NEW_BR) then
        if deleteSize != 0 && deleteSize != size then SizeMismatch
        else if !LogIsDefined(deleteAlignment) then BadDeleteAlignment
        else if UserRequestedAlignmentLog(deleteAlignment) != alignLog then SizeMismatch
        else Freed
      else Freed
    }

    method Deallocate(p: nat, deleteSize: nat, deleteAlignment: nat, self: nat, stack: nat, allocType: nat)
      returns (r: FreeReport, ghost b: int)
      requires Valid() && Freeable(p)
      requires self < |core.stats| && self < 0x1_0000_0000 && stack < 0x1_0000_0000
      modifies this`core, this`chunks
      ensures Valid()
      ensures r.NothingToFree? <==> p == 0
      ensures r.DoubleFree? <==> p != 0 && old(core.mem)(p - HEADER) == CHUNK_QUARANTINE
      ensures r.NotMalloced? <==> p != 0 && old(core.mem)(p - HEADER) !in {CHUNK_ALLOCATED, CHUNK_QUARANTINE}
      ensures p != 0 && old(core.mem)(p - HEADER) == CHUNK_ALLOCATED ==>
                && b in old(chunks) && old(chunks)[b].Beg() == p && old(chunks)[b].state == Allocated
                && r == old(Mismatch(chunks[b].meta.allocType, chunks[b].meta.alignLog, chunks[b].Size(), deleteSize,
                                     deleteAlignment, allocType))
      ensures !EndsInQuarantine(r) ==> core == old(core) && chunks == old(chunks)
      ensures EndsInQuarantine(r) ==>
                && Quarantining(old(core), old(chunks), core, chunks, b, p, self, Context(self, stack))
                && FilledOnFree(core.mem, p, old(chunks)[b].Size(), FreeFill(), flags.maxFreeFill)
    {
      b := 0;
      if p == 0 { return NothingToFree, b; }
      var chunk := p - HEADER;
      var state := core.mem(chunk);
      if state != CHUNK_ALLOCATED {
        return if state == CHUNK_QUARANTINE then DoubleFree else NotMalloced, b;
      }
      var size;
      r, size, b := Inspect(p, deleteSize, deleteAlignment, allocType);
      if r.BadDeleteAlignment? { return; }
      QuarantineChunk(b, p, GranuleAt(p), size, self, stack);
    }

    /** What Deallocate reads from the header of an allocated chunk. */
    method Inspect(p: nat, deleteSize: nat, deleteAlignment: nat, allocType: nat)
      returns (r: FreeReport, size: nat, ghost b: int)
      requires Valid() && LiveAt(chunks, p)
      ensures b in chunks && chunks[b].Beg() == p && chunks[b].state == Allocated && size == chunks[b].Size()
      ensures r == Mismatch(chunks[b].meta.allocType, chunks[b].meta.alignLog, chunks[b].Size(), deleteSize,
                            deleteAlignment, allocType)
      ensures EndsInQuarantine(r) || r.BadDeleteAlignment?
    {
      var chunk := p - HEADER;
      b :| b in chunks && chunks[b].Beg() == p && chunks[b].state == Allocated;
      size := UsedSize(core.mem, chunk);
      var gotType, alignLog := AllocType(core.mem, chunk), AlignLog(core.mem, chunk);
      HeaderFields(View(), b, chunk);
      r := Mismatch(gotType, alignLog, size, deleteSize, deleteAlignment, allocType);
    }

    /** The compare-and-swap that wins the free, and all of QuarantineChunk. */
    method QuarantineChunk(ghost b: int, p: nat, first: nat, size: nat, self: nat, stack: nat)
      requires Valid() && b in chunks && chunks[b].Beg() == p && chunks[b].first == first
      requires chunks[b].state == Allocated && size == chunks[b].Size()
      requires self < |core.stats| && self < 0x1_0000_0000 && stack < 0x1_0000_0000
      modifies this`core, this`chunks
      ensures Valid()
      ensures Quarantining(old(core), old(chunks), core, chunks, b, p, self, Context(self, stack))
      ensures FilledOnFree(core.mem, p, size, FreeFill(), flags.maxFreeFill)
    {
      ContextRoundTrip(self, stack);
      var fill := FreeFill();
      var mem' := QuarantinedBytes(core.mem, p, size, Context(self, stack), fill, flags.maxFreeFill);
      var shadow' := PoisonShadow(core.shadow, canPoison, first, GranuleCount(size), HEAP_FREE);
      var stats' := CountedFree(core.stats, self, size);
      QuarantineKeeps(Books(View(), core.quarantine, core.stats), flags.poisonPartial, canPoison, mode, self, b, p, first,
                      size, Context(self, stack), fill, flags.maxFreeFill);
      core := core.(mem := mem', shadow := shadow', stats := stats', quarantine := core.quarantine + multiset{p - HEADER});
      chunks := chunks[b := Retired(chunks[b], Context(self, stack))];
    }

    // -------------------------------------------------------------- Recycle

    /** QuarantineCallback::Recycle of any member of the quarantine; `ok` says that no CHECK failed. */
    method Recycle(m: int, self: nat) returns (ok: bool, ghost b: int)
      requires Valid() && m in core.quarantine && self < |core.stats|
      modifies this`core, this`chunks
      ensures Valid() && ok
      ensures b in old(chunks) && b in old(core.blocks)
      ensures old(chunks)[b].Header() == m && old(chunks)[b].state == Quarantined
      ensures chunks == old(chunks) - {b} && core.quarantine == old(core.quarantine) - multiset{m}
      ensures core.stats == CountedRecycle(old(core.stats), self, old(chunks)[b].Size())
      ensures core.blocks == ReturnedBlocks(old(core.blocks), b)
      ensures SameOutside(old(core.mem), core.mem, b, b + old(core.blocks)[b].Size())
      ensures GetAsanChunk(core.mem, b, old(core.blocks)[b].primary) == None
    {
      b := HeldMember(chunks, m);
      FoundFromHeader(View(), b);
      var p := GetBlockBegin(core.blocks, m).value;
      RecycleReads(View(), b);
      if p != m && LoadWord(core.mem, p, 8) != MAGIC { return false, b; }
      var cleared: Bytes := if p != m then StoreWord(core.mem, p, 8, 0) else core.mem;
      if cleared(m) != CHUNK_QUARANTINE { return false, b; }
      LookupAfterRecycle(core.mem, p, core.blocks[p].primary, m);
      ReturnBlock(p, m, GranuleAt(m + HEADER), UsedSize(core.mem, m), self);
      ok := true;
    }

    /** The state goes to CHUNK_INVALID and the block goes back to the underlying allocator. */
    method ReturnBlock(p: int, m: int, first: nat, size: nat, self: nat)
      requires Valid() && self < |core.stats| && p in chunks && chunks[p].state == Quarantined && p in core.blocks
      requires m == chunks[p].Header() && first == chunks[p].first && size == chunks[p].Size()
      modifies this`core, this`chunks
      ensures Valid() && chunks == old(chunks) - {p}
      ensures core == Core(RecycledBytes(old(core.mem), p, m),
                           ReturnedShadow(old(core.shadow), canPoison, first, size, old(core.blocks), p),
                           ReturnedBlocks(old(core.blocks), p),
                           old(core.quarantine) - multiset{m},
                           CountedRecycle(old(core.stats), self, size))
      ensures SameOutside(old(core.mem), core.mem, p, p + old(core.blocks)[p].Size())
    {
      RecycleKeeps(Books(View(), core.quarantine, core.stats), flags.poisonPartial, canPoison, mode, self, p, m, first, size);
      core := Core(RecycledBytes(core.mem, p, m),
                   ReturnedShadow(core.shadow, canPoison, first, size, core.blocks, p),
                   ReturnedBlocks(core.blocks, p),
                   core.quarantine - multiset{m},
                   CountedRecycle(core.stats, self, size));
      chunks := chunks - {p};
    }

    // -------------------------------------------------------------- Reallocate

    /** asan_malloc, and the first half of Reallocate. */
    method Malloc(size: nat, lsanTag: nat, self: nat, stack: nat, offer: Option<int>) returns (r: Outcome)
      requires Valid() && 1 <= size < WORD && lsanTag < 4
      requires self < |core.stats| && self < 0x1_0000_0000 && stack < 0x1_0000_0000
      requires offer.Some? ==> Offers(core.blocks, offer.value, NeededFor(size, GRANULE))
      modifies this`core, this`chunks
      ensures Valid() && !r.CheckFailed?
      ensures r.Pointer? <==> offer.Some? && !old(Refuses(size, GRANULE))
      ensures !r.Pointer? ==> core == old(core) && chunks == old(chunks)
      ensures r.Pointer? ==>
                && Malloced(old(core), old(chunks), core, chunks, offer.value, r.p, self,
                            MallocMeta(size, lsanTag, self, stack))
                && offer.value <= r.p && r.p + size <= offer.value + old(core.blocks)[offer.value].Size()
    {
      AlignmentLogOf8();
      r := Allocate(size, GRANULE, FROM_MALLOC, lsanTag, self, stack, true, offer);
      if r.Pointer? {
        UserMemoryInside(View(), offer.value, true);
      }
    }

    /** memcpy to the user memory of the live chunk of block `d`. */
    method CopyToUser(ghost d: int, dst: nat, src: nat, n: nat)
      requires Valid() && d in chunks && chunks[d].state == Allocated && dst == chunks[d].Beg() && n <= chunks[d].Size()
      modifies this`core
      ensures Valid() && core == old(core).(mem := Copy(old(core.mem), dst, src, n))
    {
      var mem' := Copy(core.mem, dst, src, n);
      WriteKeeps(Books(View(), core.quarantine, core.stats), flags.poisonPartial, mode, d, dst, dst + n, mem');
      core := core.(mem := mem');
    }

    /**
     * The pointers a program may pass to realloc: the user start of an allocated chunk, or a dangling
     * or wild pointer that does not point into memory the underlying allocator is about to hand out.
     */
    ghost predicate Reallocable(p: nat)
      reads this
    {
      && p != 0 && Freeable(p)
      && (core.mem(p - HEADER) != CHUNK_ALLOCATED ==>
            forall b :: Contains(core.blocks, b, p - HEADER) ==> core.blocks[b].used)
    }

    method Reallocate(p: nat, newSize: nat, lsanTag: nat, self: nat, stack: nat, offer: Option<int>)
      returns (r: Outcome, report: FreeReport, ghost b: int)
      requires Valid() && Reallocable(p) && 1 <= newSize < WORD && lsanTag < 4
      requires self < |core.stats| && self < 0x1_0000_0000 && stack < 0x1_0000_0000
      requires offer.Some? ==> Offers(core.blocks, offer.value, NeededFor(newSize, GRANULE))
      modifies this`core, this`chunks
      ensures Valid() && !r.CheckFailed?
      ensures r.Pointer? <==> offer.Some? && !old(Refuses(newSize, GRANULE))
      ensures Reallocated(old(core), old(chunks), core, chunks, r, report, b, p, offer, self,
                          MallocMeta(newSize, lsanTag, self, stack))
    {
      b, report := 0, NothingToFree;
      ghost var core0, chunks0 := core, chunks;
      var state;
      r, state := BeginReallocate(p, newSize, lsanTag, self, stack, offer);
      if r.Pointer? {
        if state == CHUNK_ALLOCATED {
          report, b := Move(p, r.p, newSize, self, stack, offer.value, core0, chunks0,
                            MallocMeta(newSize, lsanTag, self, stack));
        } else {
          report := if state == CHUNK_QUARANTINE then DoubleFree else NotMalloced;
        }
      }
    }

    /** The new chunk, and the state of the old one read after it was made. */
    method BeginReallocate(p: nat, newSize: nat, lsanTag: nat, self: nat, stack: nat, offer: Option<int>)
      returns (r: Outcome, state: Byte)
      requires Valid() && Reallocable(p) && 1 <= newSize < WORD && lsanTag < 4
      requires self < |core.stats| && self < 0x1_0000_0000 && stack < 0x1_0000_0000
      requires offer.Some? ==> Offers(core.blocks, offer.value, NeededFor(newSize, GRANULE))
      modifies this`core, this`chunks
      ensures Valid() && !r.CheckFailed?
      ensures r.Pointer? <==> offer.Some? && !old(Refuses(newSize, GRANULE))
      ensures !r.Pointer? ==> core == old(core) && chunks == old(chunks)
      ensures r.Pointer? ==>
                && state == old(core.mem)(p - HEADER)
                && (state == CHUNK_ALLOCATED ==> LiveAt(chunks, p) && r.p != p)
                && Malloced(old(core), old(chunks), core, chunks, offer.value, r.p, self,
                            MallocMeta(newSize, lsanTag, self, stack))
                && offer.value <= r.p && r.p + newSize <= offer.value + old(core.blocks)[offer.value].Size()
    {
      r := Malloc(newSize, lsanTag, self, stack, offer);
      state := core.mem(p - HEADER);
      if r.Pointer? {
        StillThere(old(View()), core.mem, p, offer.value);
        if state == CHUNK_ALLOCATED { StillLive(old(View()), View(), offer.value, p); }
      }
    }

    /** The rest of Reallocate: the old chunk is copied to the new one and freed. */
    method Move(p: nat, dst: nat, newSize: nat, self: nat, stack: nat, ghost d: int, ghost core0: Core,
                ghost chunks0: map<int, Chunk>, ghost meta: Meta)
      returns (report: FreeReport, ghost b: int)
      requires Valid() && LiveAt(chunks, p) && dst != p
      requires self < |core.stats| && self < 0x1_0000_0000 && stack < 0x1_0000_0000
      requires Begun(core0, chunks0, core, chunks, d, dst, self, meta)
      requires meta.size == newSize && meta.context == Context(self, stack)
      modifies this`core, this`chunks
      ensures Valid() && EndsInQuarantine(report) && Moved(core0, chunks0, core, chunks, b, p, d, dst, self, meta)
    {
      var size;
      report, size, b := Inspect(p, 0, 0, FROM_MALLOC);
      ghost var b0, core1, chunks1 := b, core, chunks;
      CopyToUser(d, dst, p, Min(newSize, size));
      LiveIsAllocated(View(), p);
      report, b := Deallocate(p, 0, 0, self, stack, FROM_MALLOC);
      SameChunk(old(View()), b0, b);
      CopiedAndFreed(core0, chunks0, core1, chunks1, core, chunks, b, p, d, dst, self, meta);
    }

    /** asan_realloc: a null pointer allocates, size 0 frees or counts as 1. */
    method AsanRealloc(p: nat, size: nat, lsanTag: nat, self: nat, stack: nat, offer: Option<int>)
      returns (r: Outcome, report: FreeReport, ghost b: int)
      requires Valid() && (p == 0 || Reallocable(p)) && size < WORD && lsanTag < 4
      requires self < |core.stats| && self < 0x1_0000_0000 && stack < 0x1_0000_0000
      requires offer.Some? ==> Offers(core.blocks, offer.value, NeededFor(RequestedSize(size), GRANULE))
      modifies this`core, this`chunks
      ensures Valid()
      ensures p != 0 && size == 0 && flags.freesOnReallocZero ==>
                && r.Null? && (EndsInQuarantine(report) <==> old(core.mem)(p - HEADER) == CHUNK_ALLOCATED)
                && if EndsInQuarantine(report)
                   then Quarantining(old(core), old(chunks), core, chunks, b, p, self, Context(self, stack))
                   else core == old(core) && chunks == old(chunks)
      ensures !(p != 0 && size == 0 && flags.freesOnReallocZero) ==>
                (r.Pointer? <==>
                   offer.Some? && !old(Refuses(RequestedSize(size), GRANULE)))
      ensures p != 0 && !(size == 0 && flags.freesOnReallocZero) ==>
                Reallocated(old(core), old(chunks), core, chunks, r, report, b, p, offer, self,
                            MallocMeta(RequestedSize(size), lsanTag, self, stack))
      ensures p == 0 ==>
                && report.NothingToFree?
                && if r.Pointer?
                   then Malloced(old(core), old(chunks), core, chunks, offer.value, r.p, self,
                                 MallocMeta(RequestedSize(size), lsanTag, self, stack))
                   else core == old(core) && chunks == old(chunks)
    {
      b, report := 0, NothingToFree;
      if p == 0 {
        r := Malloc(RequestedSize(size), lsanTag, self, stack, offer);
        return;
      }
      if size == 0 && flags.freesOnReallocZero {
        report, b := Deallocate(p, 0, 0, self, stack, FROM_MALLOC);
        r := Null;
      } else {
        r, report, b := Reallocate(p, RequestedSize(size), lsanTag, self, stack, offer);
      }
    }
  }
}
