/** Deactivating ASan at start-up and activating it later. */
module Activation {
  import opened Words
  import opened HeapState
  import opened Repoison
  import opened AsanAllocator

  /** The flags that activation can set again, as Flags and CommonFlags hold them. */
  datatype ActivationFlags = ActivationFlags(quarantineSizeMb: int, threadLocalQuarantineSizeKb: int, redzone: int,
                                             maxRedzone: int, allocDeallocMismatch: bool, poisonHeap: bool,
                                             allocatorMayReturnNull: bool, allocatorReleaseToOsIntervalMs: int,
                                             mallocContextSize: int)

  function CopyTo(o: AllocatorOptions, f: ActivationFlags): ActivationFlags {
    f.(quarantineSizeMb := o.quarantineSizeMb, threadLocalQuarantineSizeKb := o.threadLocalQuarantineSizeKb,
       redzone := o.minRedzone, maxRedzone := o.maxRedzone, allocatorMayReturnNull := o.mayReturnNull,
       allocDeallocMismatch := o.allocDeallocMismatch, allocatorReleaseToOsIntervalMs := o.releaseToOsIntervalMs)
  }

  /** Flags are ints, options unsigned 16- and 32-bit fields. */
  function SetFrom(f: ActivationFlags): AllocatorOptions {
    AllocatorOptions(f.quarantineSizeMb % 0x1_0000_0000, f.threadLocalQuarantineSizeKb % 0x1_0000_0000,
                     f.redzone % 0x1_0000, f.maxRedzone % 0x1_0000, f.allocatorMayReturnNull, f.allocDeallocMismatch,
                     f.allocatorReleaseToOsIntervalMs)
  }

  /** The fields fit their widths. */
  predicate Fits(o: AllocatorOptions) {
    && o.quarantineSizeMb < 0x1_0000_0000 && o.threadLocalQuarantineSizeKb < 0x1_0000_0000
    && o.minRedzone < 0x1_0000 && o.maxRedzone < 0x1_0000
  }

  lemma OptionsRoundTrip(o: AllocatorOptions, f: ActivationFlags)
    ensures SetFrom(CopyTo(o, f)) == o <==> Fits(o)
  {
  }

  /** What AsanDeactivate sets: the smallest redzones, no quarantine, null on failure. */
  function Disabled(o: AllocatorOptions): AllocatorOptions {
    o.(quarantineSizeMb := 0, threadLocalQuarantineSizeKb := 0, minRedzone := Max(16, GRANULE),
       maxRedzone := Max(16, GRANULE), allocDeallocMismatch := false, mayReturnNull := true)
  }

  /** The runtime state that deactivation stashes and activation brings back. */
  datatype Runtime = Runtime(options: AllocatorOptions, mallocContextSize: int, poisonHeap: bool)

  class Activator {
    const heap: Allocator
    var mallocContextSize: int
    var isDeactivated: bool
    var stash: Runtime
    /** The state before any deactivation. */
    ghost const original: Runtime

    ghost function Current(): Runtime
      reads this, heap
    {
      Runtime(heap.GetOptions(), mallocContextSize, heap.canPoison)
    }

    /** Active, everything is as it was; deactivated, the stash is. */
    ghost predicate Valid()
      reads this, heap
    {
      && heap.Valid() && original.options.Accepted() && Fits(original.options)
      && if isDeactivated then stash == original && Current() == Runtime(Disabled(original.options), 1, false)
         else Current() == original
    }

    constructor (heap: Allocator, mallocContextSize: int)
      requires heap.Valid() && heap.GetOptions().Accepted() && Fits(heap.GetOptions())
      ensures Valid() && !isDeactivated && this.heap == heap
      ensures original == Runtime(heap.GetOptions(), mallocContextSize, heap.canPoison)
    {
      this.heap, this.mallocContextSize, this.isDeactivated := heap, mallocContextSize, false;
      this.stash := Runtime(heap.GetOptions(), mallocContextSize, heap.canPoison);
      this.original := Runtime(heap.GetOptions(), mallocContextSize, heap.canPoison);
    }

    /** `ok` says that no CHECK failed: it never does while ASan is active. */
    method AsanDeactivate() returns (ok: bool)
      requires Valid()
      modifies this`stash, this`mallocContextSize, this`isDeactivated, heap
      ensures ok <==> !old(isDeactivated)
      ensures ok ==> Valid() && isDeactivated && heap.core == old(heap.core) && heap.chunks == old(heap.chunks)
      ensures !ok ==> unchanged(this) && unchanged(heap)
    {
      if isDeactivated { return false; }
      stash := Runtime(heap.GetOptions(), mallocContextSize, heap.canPoison);
      heap.SetCanPoisonMemory(false);
      mallocContextSize := 1;
      DisabledIsAccepted(stash.options);
      ok := heap.ReInitialize(Disabled(stash.options));
      isDeactivated := true;
    }

    /** AsanActivate without ASAN_ACTIVATION_OPTIONS; `f` is what the flag structures hold besides. */
    method AsanActivate(f: ActivationFlags) returns (ok: bool)
      requires Valid()
      modifies this`stash, this`mallocContextSize, this`isDeactivated, heap
      ensures ok && Valid() && !isDeactivated && Current() == original
      ensures heap.core == old(heap.core).(shadow := heap.core.shadow)
      ensures heap.chunks == if old(isDeactivated) && heap.canPoison then Repoisoned(old(heap.View())) else old(heap.chunks)
      ensures old(isDeactivated) && heap.canPoison ==> heap.mode == On && AllFreePoisoned(heap.View())
      ensures !old(isDeactivated) ==> heap.core == old(heap.core) && heap.mode == old(heap.mode)
    {
      ok := true;
      if !isDeactivated { return; }
      var flags := CopyTo(stash.options, f).(mallocContextSize := stash.mallocContextSize, poisonHeap := stash.poisonHeap);
      OptionsRoundTrip(stash.options, f.(mallocContextSize := stash.mallocContextSize, poisonHeap := stash.poisonHeap));
      stash := Runtime(SetFrom(flags), flags.mallocContextSize, flags.poisonHeap);
      heap.SetCanPoisonMemory(stash.poisonHeap);
      mallocContextSize := stash.mallocContextSize;
      ok := heap.ReInitialize(stash.options);
      isDeactivated := false;
    }
  }

  lemma DisabledIsAccepted(o: AllocatorOptions)
    ensures Disabled(o).Accepted()
  {
    assert IsPowerOfTwo(16);
  }
}
