/**
 * Allocate, Deallocate and Recycle as the atomic steps that any number of threads interleave. The
 * program frees only pointers that Allocate has returned and that have not gone back to the underlying
 * allocator, but any number of times and from any thread.
 */
module ChunkRace {
  import opened Memory

  type Tid = int
  type BlockId = int

  /** The bytes of a block that the steps race on; `magic` is the word of a large header. */
  datatype Slot = Slot(state: Byte, magic: bool, compact: bool)

  /** Where a thread is between two of its atomic steps. */
  datatype Pc =
    | Idle
    | Taken(b: BlockId)        // Allocate has a block
    | Stored(b: BlockId)       // Allocate has stored CHUNK_ALLOCATED
    | Ready(b: BlockId)        // Allocate has set the large header
    | Won(b: BlockId)          // Deallocate has swapped to CHUNK_QUARANTINE
    | Marked(b: BlockId)       // Deallocate has cleared the free context
    | Checked(b: BlockId)      // QuarantineChunk has passed its CHECK
    | Recycling(b: BlockId)    // Recycle has a chunk
    | Cleared(b: BlockId)      // Recycle has cleared the large header
    | Invalidated(b: BlockId)  // Recycle has swapped to CHUNK_INVALID

  /** The events of a lifetime, in the order they must have. */
  datatype Kind = Take | Publish | Win | Put | Invalidate | Return

  datatype Event = Event(kind: Kind, b: BlockId)

  /**
   * `attempts` counts the frees of each block and `reports` those that were reported; `tries` counts the
   * frees since the block was last handed out.
   */
  datatype Machine = Machine(slots: map<BlockId, Slot>, pool: set<BlockId>, bag: multiset<BlockId>,
                             returned: set<BlockId>, pcs: Tid -> Pc, attempts: BlockId -> nat, reports: BlockId -> nat,
                             tries: BlockId -> nat, checkFailed: bool, history: seq<Event>)

  datatype Action =
    | TakeBlock(b: BlockId, compact: bool, junk: Slot)
    | Free(b: BlockId)
    | TakeFromQuarantine(b: BlockId)
    | Continue

  function At(s: Machine, t: Tid, pc: Pc): Machine {
    s.(pcs := u => if u == t then pc else s.pcs(u))
  }

  function Log(s: Machine, kind: Kind, b: BlockId): Machine { s.(history := s.history + [Event(kind, b)]) }

  function Bump(f: BlockId -> nat, b: BlockId): BlockId -> nat { c => if c == b then f(c) + 1 else f(c) }

  function Reset(f: BlockId -> nat, b: BlockId): BlockId -> nat { c => if c == b then 0 else f(c) }

  function PutSlot(s: Machine, b: BlockId, slot: Slot): Machine { s.(slots := s.slots[b := slot]) }

  /** One atomic step of thread `t`; an action that is not possible now changes nothing. */
  function Step(s: Machine, t: Tid, a: Action): Machine {
    match a
    case TakeBlock(b, compact, junk) =>
      if s.pcs(t) != Idle || b !in s.pool then s
      else Log(At(PutSlot(s.(pool := s.pool - {b}), b, junk.(compact := compact)), t, Taken(b)), Take, b)
    case Free(b) =>
      if s.pcs(t) != Idle || b !in s.returned || b !in s.slots then s
      else
        var s1 := s.(attempts := Bump(s.attempts, b), tries := Bump(s.tries, b));
        if s.slots[b].state == CHUNK_ALLOCATED then
          Log(At(PutSlot(s1, b, s.slots[b].(state := CHUNK_QUARANTINE)), t, Won(b)), Win, b)
        else s1.(reports := Bump(s.reports, b))
    case TakeFromQuarantine(b) =>
      if s.pcs(t) != Idle || b !in s.bag then s
      else At(s.(bag := s.bag - multiset{b}), t, Recycling(b))
    case Continue => if s.pcs(t) == Idle || s.pcs(t).b !in s.slots then s else Resume(s, t, s.pcs(t).b)
  }

  /** The next step of the operation that thread `t` is in the middle of. */
  function Resume(s: Machine, t: Tid, b: BlockId): Machine
    requires b in s.slots
  {
    var slot := s.slots[b];
    match s.pcs(t)
    case Idle => s
    case Taken(_) => Log(At(PutSlot(s, b, slot.(state := CHUNK_ALLOCATED)), t, Stored(b)), Publish, b)
    case Stored(_) => At(if slot.compact then s else PutSlot(s, b, slot.(magic := true)), t, Ready(b))
    case Ready(_) => At(s.(returned := s.returned + {b}), t, Idle)
    case Won(_) => At(s, t, Marked(b))
    case Marked(_) => At(s.(checkFailed := s.checkFailed || slot.state != CHUNK_QUARANTINE), t, Checked(b))
    case Checked(_) => Log(At(s.(bag := s.bag + multiset{b}), t, Idle), Put, b)
    case Recycling(_) =>
      if slot.compact then At(s, t, Cleared(b))
      else At(PutSlot(s.(checkFailed := s.checkFailed || !slot.magic), b, slot.(magic := false)), t, Cleared(b))
    case Cleared(_) =>
      if slot.state == CHUNK_QUARANTINE then
        Log(At(PutSlot(s, b, slot.(state := CHUNK_INVALID)), t, Invalidated(b)), Invalidate, b)
      else At(s.(checkFailed := true), t, Invalidated(b))
    case Invalidated(_) =>
      Log(At(s.(pool := s.pool + {b}, returned := s.returned - {b}, tries := Reset(s.tries, b)), t, Idle), Return, b)
  }

  function Run(s: Machine, actions: seq<(Tid, Action)>): Machine {
    if actions == [] then s
    else
      var last := actions[|actions| - 1];
      Step(Run(s, actions[..|actions| - 1]), last.0, last.1)
  }

  ghost predicate Initial(s: Machine) {
    && (forall t :: s.pcs(t) == Idle)
    && s.slots.Keys == s.pool && s.bag == multiset{} && s.returned == {} && s.history == []
    && (forall b :: s.attempts(b) == s.reports(b) == s.tries(b) == 0) && !s.checkFailed
  }

  // ---------------------------------------------------------------- lifetimes

  function Index(kind: Kind): nat {
    match kind case Take => 0 case Publish => 1 case Win => 2 case Put => 3 case Invalidate => 4 case Return => 5
  }

  const OUT_OF_ORDER: nat := 6

  /** How far the current lifetime of `b` is: the number of its events, or OUT_OF_ORDER. */
  ghost function Phase(history: seq<Event>, b: BlockId): (phase: nat)
    ensures phase <= OUT_OF_ORDER
  {
    if history == [] then 0
    else
      var last, before := history[|history| - 1], Phase(history[..|history| - 1], b);
      if last.b != b then before
      else if Index(last.kind) == before then (if before == 5 then 0 else before + 1)
      else OUT_OF_ORDER
  }

  ghost function Count(history: seq<Event>, b: BlockId, kind: Kind): nat {
    if history == [] then 0
    else
      Count(history[..|history| - 1], b, kind) + (if history[|history| - 1] == Event(kind, b) then 1 else 0)
  }

  /**
   * In a history in order each event has happened once for every finished lifetime, and once more if
   * the current lifetime has come so far.
   */
  lemma {:induction false} CountsOfLifetimes(history: seq<Event>, b: BlockId, kind: Kind)
    requires Phase(history, b) != OUT_OF_ORDER
    ensures Count(history, b, kind) == Count(history, b, Return) + (if Index(kind) < Phase(history, b) then 1 else 0)
  {
    if history == [] {
    } else {
      CountsOfLifetimes(history[..|history| - 1], b, kind);
    }
  }

  // ---------------------------------------------------------------- invariant

  /** What the bytes of `b` and the place where `b` is must be, in each phase. */
  ghost predicate BlockOk(s: Machine, b: BlockId) {
    b in s.slots ==>
      var slot, phase := s.slots[b], Phase(s.history, b);
      && (b in s.pool <==> phase == 0)
      && (s.bag[b] == 0 || (s.bag[b] == 1 && phase == 4))
      && (b in s.returned ==> phase in {2, 3, 4, 5})
      && (phase in {3, 4, 5} ==> b in s.returned)
      && (phase == 2 ==> slot.state == CHUNK_ALLOCATED)
      && (phase in {3, 4} ==> slot.state == CHUNK_QUARANTINE)
      && (phase == 5 ==> slot.state == CHUNK_INVALID)
      && ((b in s.returned && phase in {2, 3}) || s.bag[b] == 1 ==> slot.compact || slot.magic)
      && phase != OUT_OF_ORDER
      && (s.tries(b) > 0 <==> phase in {3, 4, 5})
      && s.attempts(b) == s.reports(b) + Count(s.history, b, Win)
  }

  /** What a thread in the middle of an operation may rely on. */
  ghost predicate ThreadOk(s: Machine, t: Tid) {
    match s.pcs(t)
    case Idle => true
    case Taken(b) => b in s.slots && Phase(s.history, b) == 1
    case Stored(b) => b in s.slots && Phase(s.history, b) == 2 && b !in s.returned
    case Ready(b) =>
      b in s.slots && Phase(s.history, b) == 2 && b !in s.returned && (s.slots[b].compact || s.slots[b].magic)
    case Won(b) => b in s.slots && Phase(s.history, b) == 3
    case Marked(b) => b in s.slots && Phase(s.history, b) == 3
    case Checked(b) => b in s.slots && Phase(s.history, b) == 3
    case Recycling(b) =>
      b in s.slots && Phase(s.history, b) == 4 && s.bag[b] == 0 && (s.slots[b].compact || s.slots[b].magic)
    case Cleared(b) => b in s.slots && Phase(s.history, b) == 4 && s.bag[b] == 0
    case Invalidated(b) => b in s.slots && Phase(s.history, b) == 5
  }

  /** No two threads are in the middle of an operation on the same block. */
  ghost predicate Exclusive(s: Machine, t: Tid, u: Tid) {
    t != u && s.pcs(t) != Idle && s.pcs(u) != Idle ==> s.pcs(t).b != s.pcs(u).b
  }

  ghost predicate RaceInv(s: Machine) {
    && (forall b :: b in s.slots ==> BlockOk(s, b))
    && (forall t :: ThreadOk(s, t))
    && (forall t, u :: Exclusive(s, t, u))
    && s.pool <= s.slots.Keys && s.returned <= s.slots.Keys && (forall b :: b in s.bag ==> b in s.slots)
    && !s.checkFailed
  }

  /** Only thread `t` and block `b` have moved. */
  ghost predicate Local(s: Machine, s': Machine, t: Tid, b: BlockId) {
    && b in s.slots && s'.slots.Keys == s.slots.Keys
    && (forall u :: u != t ==> s'.pcs(u) == s.pcs(u))
    && (s.pcs(t) == Idle || s.pcs(t).b == b) && (s'.pcs(t) == Idle || s'.pcs(t).b == b)
    && (forall c :: c != b ==>
          && (c in s.slots ==> s'.slots[c] == s.slots[c])
          && (c in s'.pool <==> c in s.pool) && s'.bag[c] == s.bag[c] && (c in s'.returned <==> c in s.returned)
          && s'.attempts(c) == s.attempts(c) && s'.reports(c) == s.reports(c) && s'.tries(c) == s.tries(c)
          && Phase(s'.history, c) == Phase(s.history, c) && Count(s'.history, c, Win) == Count(s.history, c, Win))
  }

  /** A step on one block keeps the invariant if it leaves that block and that thread well. */
  lemma LocalStep(s: Machine, s': Machine, t: Tid, b: BlockId)
    requires RaceInv(s) && Local(s, s', t, b)
    requires BlockOk(s', b) && ThreadOk(s', t)
    requires s.pcs(t) == Idle ==> forall u :: s.pcs(u) == Idle || s.pcs(u).b != b
    requires !s'.checkFailed
    ensures RaceInv(s')
  {
    forall c | c in s'.slots ensures BlockOk(s', c) { assert BlockOk(s, c); }
    forall u ensures ThreadOk(s', u) { assert ThreadOk(s, u) && Exclusive(s, t, u); }
    forall u, v ensures Exclusive(s', u, v) { assert Exclusive(s, u, v); }
    forall c | c in s'.pool || c in s'.returned || c in s'.bag ensures c in s'.slots {
      assert c != b ==> c in s.pool || c in s.returned || c in s.bag;
    }
  }

  lemma LogPhase(history: seq<Event>, e: Event)
    ensures forall b {:trigger Phase(history + [e], b)} :: Phase(history + [e], b) ==
              if e.b != b then Phase(history, b)
              else if Index(e.kind) == Phase(history, b) then (if e.kind == Return then 0 else Phase(history, b) + 1)
              else OUT_OF_ORDER
    ensures forall b {:trigger Count(history + [e], b, Win)} ::
              Count(history + [e], b, Win) == Count(history, b, Win) + (if e == Event(Win, b) then 1 else 0)
  {
    assert (history + [e])[..|history|] == history;
  }

  lemma AllocateKeeps(s: Machine, t: Tid)
    requires RaceInv(s) && (s.pcs(t).Taken? || s.pcs(t).Stored? || s.pcs(t).Ready?)
    ensures s.pcs(t).b in s.slots && RaceInv(Resume(s, t, s.pcs(t).b))
  {
    var b := s.pcs(t).b;
    assert ThreadOk(s, t) && BlockOk(s, b);
    LogPhase(s.history, Event(Publish, b));
    LocalStep(s, Resume(s, t, b), t, b);
  }

  lemma DeallocateKeeps(s: Machine, t: Tid)
    requires RaceInv(s) && (s.pcs(t).Won? || s.pcs(t).Marked? || s.pcs(t).Checked?)
    ensures s.pcs(t).b in s.slots && RaceInv(Resume(s, t, s.pcs(t).b))
  {
    var b := s.pcs(t).b;
    assert ThreadOk(s, t) && BlockOk(s, b);
    LogPhase(s.history, Event(Put, b));
    LocalStep(s, Resume(s, t, b), t, b);
  }

  lemma ClearKeeps(s: Machine, t: Tid)
    requires RaceInv(s) && s.pcs(t).Recycling?
    ensures s.pcs(t).b in s.slots && RaceInv(Resume(s, t, s.pcs(t).b))
  {
    var b := s.pcs(t).b;
    assert ThreadOk(s, t) && BlockOk(s, b);
    LocalStep(s, Resume(s, t, b), t, b);
  }

  lemma InvalidateKeeps(s: Machine, t: Tid)
    requires RaceInv(s) && s.pcs(t).Cleared?
    ensures s.pcs(t).b in s.slots && RaceInv(Resume(s, t, s.pcs(t).b))
  {
    var b := s.pcs(t).b;
    assert ThreadOk(s, t) && BlockOk(s, b);
    LogPhase(s.history, Event(Invalidate, b));
    LocalStep(s, Resume(s, t, b), t, b);
  }

  lemma ReturnKeeps(s: Machine, t: Tid)
    requires RaceInv(s) && s.pcs(t).Invalidated?
    ensures s.pcs(t).b in s.slots && RaceInv(Resume(s, t, s.pcs(t).b))
  {
    var b := s.pcs(t).b;
    assert ThreadOk(s, t) && BlockOk(s, b);
    LogPhase(s.history, Event(Return, b));
    LocalStep(s, Resume(s, t, b), t, b);
  }

  /** A block that a thread may start on has no thread in the middle of an operation on it. */
  lemma NobodyElse(s: Machine, b: BlockId)
    requires RaceInv(s) && b in s.slots
    requires b in s.pool || b in s.bag || (b in s.returned && s.slots[b].state == CHUNK_ALLOCATED)
    ensures forall u :: s.pcs(u) == Idle || s.pcs(u).b != b
  {
    assert BlockOk(s, b);
    forall u ensures s.pcs(u) == Idle || s.pcs(u).b != b { assert ThreadOk(s, u); }
  }

  lemma TakeKeeps(s: Machine, t: Tid, b: BlockId, compact: bool, junk: Slot)
    requires RaceInv(s) && s.pcs(t) == Idle && b in s.pool
    ensures RaceInv(Step(s, t, TakeBlock(b, compact, junk)))
  {
    assert BlockOk(s, b);
    LogPhase(s.history, Event(Take, b));
    NobodyElse(s, b);
    LocalStep(s, Step(s, t, TakeBlock(b, compact, junk)), t, b);
  }

  lemma FreeKeeps(s: Machine, t: Tid, b: BlockId)
    requires RaceInv(s) && s.pcs(t) == Idle && b in s.returned && b in s.slots
    ensures RaceInv(Step(s, t, Free(b)))
  {
    assert BlockOk(s, b);
    var s' := Step(s, t, Free(b));
    if s.slots[b].state == CHUNK_ALLOCATED {
      LogPhase(s.history, Event(Win, b));
      NobodyElse(s, b);
      LocalStep(s, s', t, b);
    } else {
      forall c | c in s'.slots ensures BlockOk(s', c) { assert BlockOk(s, c); }
      forall u ensures ThreadOk(s', u) { assert ThreadOk(s, u); }
      forall u, v ensures Exclusive(s', u, v) { assert Exclusive(s, u, v); }
    }
  }

  /** A free is reported exactly when the lifetime of its block has a winner already. */
  lemma LosersComeSecond(s: Machine, t: Tid, b: BlockId)
    requires RaceInv(s) && s.pcs(t) == Idle && b in s.returned && b in s.slots
    ensures var s' := Step(s, t, Free(b));
            && s'.reports(b) == s.reports(b) + (if s.tries(b) > 0 then 1 else 0)
            && (s.tries(b) > 0 <==> Count(s.history, b, Win) == Count(s.history, b, Return) + 1)
            && (s.tries(b) == 0 <==> Count(s.history, b, Win) == Count(s.history, b, Return))
  {
    assert BlockOk(s, b);
    CountsOfLifetimes(s.history, b, Win);
  }

  lemma DequeueKeeps(s: Machine, t: Tid, b: BlockId)
    requires RaceInv(s) && s.pcs(t) == Idle && b in s.bag
    ensures RaceInv(Step(s, t, TakeFromQuarantine(b)))
  {
    assert BlockOk(s, b);
    NobodyElse(s, b);
    LocalStep(s, Step(s, t, TakeFromQuarantine(b)), t, b);
  }

  lemma StepKeeps(s: Machine, t: Tid, a: Action)
    requires RaceInv(s)
    ensures RaceInv(Step(s, t, a))
  {
    match a
    case TakeBlock(b, compact, junk) => if s.pcs(t) == Idle && b in s.pool { TakeKeeps(s, t, b, compact, junk); }
    case Free(b) => if s.pcs(t) == Idle && b in s.returned && b in s.slots { FreeKeeps(s, t, b); }
    case TakeFromQuarantine(b) => if s.pcs(t) == Idle && b in s.bag { DequeueKeeps(s, t, b); }
    case Continue =>
      match s.pcs(t)
      case Idle =>
      case Taken(_) => AllocateKeeps(s, t);
      case Stored(_) => AllocateKeeps(s, t);
      case Ready(_) => AllocateKeeps(s, t);
      case Won(_) => DeallocateKeeps(s, t);
      case Marked(_) => DeallocateKeeps(s, t);
      case Checked(_) => DeallocateKeeps(s, t);
      case Recycling(_) => ClearKeeps(s, t);
      case Cleared(_) => InvalidateKeeps(s, t);
      case Invalidated(_) => ReturnKeeps(s, t);
  }

  lemma {:induction false} RunKeeps(s: Machine, actions: seq<(Tid, Action)>)
    requires RaceInv(s)
    ensures RaceInv(Run(s, actions))
  {
    if actions == [] {
    } else {
      var n := |actions| - 1;
      RunKeeps(s, actions[..n]);
      StepKeeps(Run(s, actions[..n]), actions[n].0, actions[n].1);
    }
  }

  /**
   * What holds of block `b`: a lifetime that has seen a free has exactly one winner, every other free of
   * the block was reported, the winner put the chunk in quarantine at most once, and the chunk went back
   * at most once.
   */
  ghost predicate SafeBlock(r: Machine, b: BlockId) {
    && b in r.slots && Phase(r.history, b) != OUT_OF_ORDER
    && (Phase(r.history, b) == 2 ==> r.slots[b].state == CHUNK_ALLOCATED)
    && (Phase(r.history, b) in {3, 4} ==> r.slots[b].state == CHUNK_QUARANTINE)
    && (Phase(r.history, b) == 5 ==> r.slots[b].state == CHUNK_INVALID)
    && (Phase(r.history, b) == 0 <==> b in r.pool)
    && r.attempts(b) == r.reports(b) + Count(r.history, b, Win)
    && Count(r.history, b, Win) == Count(r.history, b, Return) + (if r.tries(b) > 0 then 1 else 0)
    && Count(r.history, b, Take) >= Count(r.history, b, Publish) >= Count(r.history, b, Win)
       >= Count(r.history, b, Put) >= Count(r.history, b, Invalidate) >= Count(r.history, b, Return)
       >= Count(r.history, b, Take) - 1
  }

  lemma InvIsSafe(r: Machine, b: BlockId)
    requires RaceInv(r) && b in r.slots
    ensures SafeBlock(r, b)
  {
    assert BlockOk(r, b);
    CountsOfLifetimes(r.history, b, Take);
    CountsOfLifetimes(r.history, b, Publish);
    CountsOfLifetimes(r.history, b, Win);
    CountsOfLifetimes(r.history, b, Put);
    CountsOfLifetimes(r.history, b, Invalidate);
  }

  /** Over every interleaving no CHECK fails, and every block goes through its lifetimes event by event. */
  lemma RacesAreSafe(s: Machine, actions: seq<(Tid, Action)>, b: BlockId)
    requires Initial(s) && b in s.slots
    ensures !Run(s, actions).checkFailed && SafeBlock(Run(s, actions), b)
  {
    assert RaceInv(s);
    RunKeeps(s, actions);
    SameBlocks(s, actions);
    InvIsSafe(Run(s, actions), b);
  }

  lemma {:induction false} SameBlocks(s: Machine, actions: seq<(Tid, Action)>)
    requires RaceInv(s)
    ensures Run(s, actions).slots.Keys == s.slots.Keys
  {
    if actions == [] {
    } else {
      var n := |actions| - 1;
      SameBlocks(s, actions[..n]);
      RunKeeps(s, actions[..n]);
      StepBlocks(Run(s, actions[..n]), actions[n].0, actions[n].1);
    }
  }

  lemma StepBlocks(s: Machine, t: Tid, a: Action)
    requires s.pool <= s.slots.Keys
    ensures Step(s, t, a).slots.Keys == s.slots.Keys
  {
  }
}
