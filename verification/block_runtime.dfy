/** The Blocks runtime without garbage collection: copying and releasing closures. */
module BlockRuntime {
  import opened Memory
  import opened BlockGraph
  import opened BlockCopies

  /** Complete heap Blocks below rank `k`: they own all their captures and are referenced. */
  ghost predicate SettledBelow(cells: Cells, k: nat) {
    forall i :: 0 <= i < |cells| && cells[i].Block? && cells[i].space == Heap && cells[i].rank < k ==>
      cells[i].owned == cells[i].caps && cells[i].count >= 1
  }

  ghost predicate AllSettled(cells: Cells) {
    forall i :: 0 <= i < |cells| && cells[i].Block? && cells[i].space == Heap ==>
      cells[i].owned == cells[i].caps && cells[i].count >= 1
  }

  function CaptureRank(cells: Cells, c: Capture): nat {
    if c.BlockField? && c.b.Some? && c.b.value < |cells| && cells[c.b.value].Block? then cells[c.b.value].rank + 1 else 0
  }

  function Acquired(cells: Cells, x: Addr): Cells
    requires x < |cells| && Counted(cells[x])
  {
    cells[x := WithCount(cells[x], if cells[x].Object? then cells[x].count + 1 else Latched(cells[x].count))]
  }

  lemma AcquiredKeeps(cells: Cells, ext: multiset<Addr>, store: map<int, int>, x: Addr, k: nat)
    requires Inv(cells, ext) && StoreOk(cells, store) && x < |cells| && Counted(cells[x])
    requires cells[x].Block? ==> cells[x].rank < k
    ensures Inv(Acquired(cells, x), ext + multiset{x}) && StoreOk(Acquired(cells, x), store)
    ensures Grown(cells, Acquired(cells, x), k)
  {
    Retain(cells, ext, x);
    var cells' := Acquired(cells, x);
    forall i | 0 <= i < |cells| ensures KeptCell(cells[i], cells'[i], i, k) { }
    forall i | 0 <= i < |cells'| && cells'[i].Byref? ensures HasForwarding(cells', i) { assert CellOk(cells', i); }
    SameStore(cells, cells', store);
  }

  /** The bitwise copy of a stack Block, before its captures are fixed up. */
  lemma CopyStarts(cells: Cells, ext: multiset<Addr>, store: map<int, int>, b: Addr, copy: Cell)
    requires Inv(cells, ext) && StoreOk(cells, store) && Intact(cells, b)
    requires copy == cells[b].(space := Heap, count := 1, owned := [])
    ensures Inv(cells + [copy], ext + multiset{|cells|}) && StoreOk(cells + [copy], store)
    ensures Intact(cells + [copy], b) && (cells + [copy])[..|cells|] == cells
    ensures (cells + [copy])[b] == cells[b] && (cells + [copy])[|cells|] == copy
  {
    NewBlock(cells, ext, copy);
    forall i | 0 <= i < |cells| && cells[i].Byref? ensures HasForwarding(cells + [copy], i) { assert CellOk(cells, i); }
    SameStore(cells, cells + [copy], store);
    assert SameBelow(cells, cells + [copy], copy.rank + 1);
    IntactKept(cells, cells + [copy], copy.rank + 1, b);
  }

  /** In the middle of a copy: the new Block owns the first captures and still has the source's others. */
  ghost predicate Copying(cells0: Cells, cells: Cells, src: Cell, a: Addr, result: Addr, owned: seq<Capture>) {
    && src.Block? && src.space == Stack && |owned| <= |src.caps|
    && a < result == |cells0| < |cells| && cells[a] == src
    && cells[result] == src.(space := Heap, count := 1, caps := owned + src.caps[|owned|..], owned := owned)
    && Kept(cells0, cells, src.rank)
    && forall j :: result < j < |cells| ==> FreshCell(cells[j], src.rank)
  }

  lemma CopyingGrown(cells0: Cells, cells: Cells, cells': Cells, src: Cell, a: Addr, result: Addr, owned: seq<Capture>)
    requires Copying(cells0, cells, src, a, result, owned) && Grown(cells, cells', src.rank)
    ensures Copying(cells0, cells', src, a, result, owned)
  {
    assert KeptCell(cells[a], cells'[a], a, src.rank) && KeptCell(cells[result], cells'[result], result, src.rank);
    forall i | 0 <= i < |cells0| ensures KeptCell(cells0[i], cells'[i], i, src.rank) {
      assert KeptCell(cells0[i], cells[i], i, src.rank) && KeptCell(cells[i], cells'[i], i, src.rank);
    }
    forall j | result < j < |cells'| ensures FreshCell(cells'[j], src.rank) {
      if j < |cells| { assert FreshCell(cells[j], src.rank) && KeptCell(cells[j], cells'[j], j, src.rank); }
    }
  }

  lemma AdoptKeeps(cells: Cells, ext: multiset<Addr>, store: map<int, int>, b: Addr, caps: seq<Capture>, c: Capture)
    requires Inv(cells, ext) && StoreOk(cells, store) && b < |cells| && cells[b].Block? && cells[b].space == Heap
    requires OwnedOk(cells, cells[b].rank, c) && Outside(cells, c) <= ext
    ensures var cells' := cells[b := cells[b].(caps := caps, owned := cells[b].owned + [c])];
            && Inv(cells', ext - Outside(cells, c)) && StoreOk(cells', store)
            && SameBelow(cells, cells', cells[b].rank)
  {
    Adopt(cells, ext, b, caps, c);
    AdoptStore(cells, ext, store, b, cells[b].(caps := caps, owned := cells[b].owned + [c]));
  }

  /** A change to what a heap Block has captured touches no variable and no Block of lower rank. */
  lemma AdoptStore(cells: Cells, ext: multiset<Addr>, store: map<int, int>, b: Addr, cell: Cell)
    requires Inv(cells, ext) && StoreOk(cells, store) && b < |cells| && cells[b].Block? && cell.Block?
    requires cell.rank == cells[b].rank
    ensures StoreOk(cells[b := cell], store) && SameBelow(cells, cells[b := cell], cell.rank)
  {
    var cells' := cells[b := cell];
    forall i | 0 <= i < |cells| && cells[i].Byref? ensures HasForwarding(cells', i) { assert CellOk(cells, i); }
    SameStore(cells, cells', store);
  }

  /** A copy of one capture, and the new Block taking it over, leave the source Block intact. */
  lemma IntactStep(c1: Cells, c2: Cells, c3: Cells, src: Cell, a: Addr)
    requires src.Block? && a < |c1| && c1[a] == src && Intact(c1, a)
    requires Grown(c1, c2, src.rank) && SameBelow(c2, c3, src.rank) && c3[a] == src
    ensures Intact(c3, a)
  {
    KeptSameBelow(c1, c2, src.rank, src.rank);
    if src.space == Stack {
      forall k | 0 <= k < |src.caps| ensures Alive(c3, src.rank, src.caps[k]) {
        AliveKept(c1, c2, src.rank, src.rank, src.caps[k]);
        AliveKept(c2, c3, src.rank, src.rank, src.caps[k]);
      }
    }
  }

  ghost predicate SameCaptures(cells: Cells, rank: nat, caps: seq<Capture>, owned: seq<Capture>) {
    && |owned| <= |caps|
    && forall j :: 0 <= j < |owned| ==> SameCapture(cells, rank, caps[j], owned[j])
  }

  lemma CapturesStep(c1: Cells, c2: Cells, c3: Cells, rank: nat, caps: seq<Capture>, owned: seq<Capture>, d: Capture)
    requires Grown(c1, c2, rank) && SameBelow(c2, c3, rank)
    requires SameCaptures(c1, rank, caps, owned) && |owned| < |caps| && SameCapture(c2, rank, caps[|owned|], d)
    ensures SameCaptures(c3, rank, caps, owned + [d])
  {
    KeptSameBelow(c1, c2, rank, rank);
    SameCaptureKept(c2, c3, rank, rank, caps[|owned|], d);
    forall j | 0 <= j < |owned| ensures SameCapture(c3, rank, caps[j], owned[j]) {
      SameCaptureKept(c1, c2, rank, rank, caps[j], owned[j]);
      SameCaptureKept(c2, c3, rank, rank, caps[j], owned[j]);
    }
  }

  /** The end of a copy. */
  lemma CopyingEnds(cells0: Cells, cells: Cells, src: Cell, a: Addr, result: Addr, owned: seq<Capture>)
    requires Copying(cells0, cells, src, a, result, owned) && |owned| == |src.caps|
    ensures Grown(cells0, cells, src.rank + 1)
    ensures SameCaptures(cells, src.rank, src.caps, owned) ==> Equivalent(cells, a, result)
  {
    assert owned + src.caps[|owned|..] == owned;
    forall i | 0 <= i < |cells0| ensures KeptCell(cells0[i], cells[i], i, src.rank + 1) {
      assert KeptCell(cells0[i], cells[i], i, src.rank);
    }
    forall i | |cells0| <= i < |cells| ensures FreshCell(cells[i], src.rank + 1) {
      assert i > result ==> FreshCell(cells[i], src.rank);
    }
  }

  lemma CopyingAdopted(cells0: Cells, cells: Cells, src: Cell, a: Addr, result: Addr, owned: seq<Capture>, d: Capture)
    requires Copying(cells0, cells, src, a, result, owned) && |owned| < |src.caps|
    ensures Copying(cells0, cells[result := cells[result].(caps := cells[result].caps[|owned| := d],
                                                           owned := cells[result].owned + [d])],
                    src, a, result, owned + [d])
  {
    var cells' := cells[result := cells[result].(caps := cells[result].caps[|owned| := d],
                                                 owned := cells[result].owned + [d])];
    assert (owned + src.caps[|owned|..])[|owned| := d] == owned + [d] + src.caps[|owned| + 1..];
    assert forall i :: 0 <= i < |cells0| ==> cells'[i] == cells[i];
  }

  function Released(cells: Cells, x: Addr): Cells
    requires x < |cells| && Counted(cells[x])
  {
    cells[x := WithCount(cells[x], if cells[x].Object? then (if cells[x].count == 0 then 0 else cells[x].count - 1)
                                   else Unlatched(cells[x].count))]
  }

  lemma ReleasedKeeps(cells: Cells, ext: multiset<Addr>, store: map<int, int>, x: Addr, k: nat)
    requires Inv(cells, ext) && StoreOk(cells, store) && x in ext && (cells[x].Byref? ==> cells[x].count > 1)
    requires cells[x].Block? ==> cells[x].rank < k
    ensures cells[x].count >= 1
    ensures Inv(Released(cells, x), ext - multiset{x}) && StoreOk(Released(cells, x), store)
    ensures cells[x].Object? || cells[x].count > 1 ==> Shrunk(cells, Released(cells, x), k)
  {
    Drop(cells, ext, x);
    var cells' := Released(cells, x);
    if cells[x].Object? || cells[x].count > 1 {
      forall i | 0 <= i < |cells| ensures ShrunkCell(cells[i], cells'[i], k) { }
    }
    forall i | 0 <= i < |cells'| && cells'[i].Byref? ensures HasForwarding(cells', i) { assert CellOk(cells', i); }
    SameStore(cells, cells', store);
  }

  /** The last reference to a heap cell goes, and the cell with it. */
  lemma FreedKeeps(cells: Cells, ext: multiset<Addr>, store: map<int, int>, x: Addr, ext': multiset<Addr>, k: nat)
    requires Inv(cells, ext) && StoreOk(cells, store) && x < |cells| && Counted(cells[x]) && !cells[x].Object?
    requires cells[x].count == ext[x] < MASK && (cells[x].Block? ==> cells[x].owned == [])
    requires ext'[x] == 0 && forall j :: j != x ==> ext'[j] == ext[j]
    ensures Inv(cells[x := Gone], ext') && StoreOk(cells[x := Gone], store)
    ensures cells[x].Byref? ==> Shrunk(cells, cells[x := Gone], k)
  {
    assert CountOk(cells, ext, x);
    Free(cells, ext, x, ext');
    FreedStore(cells, store, x, ext');
    if cells[x].Byref? { FreedShrunk(cells, x, k); }
  }

  lemma FreedStore(cells: Cells, store: map<int, int>, x: Addr, ext': multiset<Addr>)
    requires StoreOk(cells, store) && x < |cells| && Inv(cells[x := Gone], ext')
    ensures StoreOk(cells[x := Gone], store)
  {
    var cells' := cells[x := Gone];
    forall i | 0 <= i < |cells'| && cells'[i].Byref? ensures HasForwarding(cells', i) { assert CellOk(cells', i); }
    SameStore(cells, cells', store);
  }

  lemma FreedShrunk(cells: Cells, x: Addr, k: nat)
    requires x < |cells| && cells[x].Byref? && cells[x].space == Heap
    ensures Shrunk(cells, cells[x := Gone], k)
  {
    forall i | 0 <= i < |cells| ensures ShrunkCell(cells[i], cells[x := Gone][i], k) { }
  }

  lemma ShrunkSettled(cells: Cells, cells': Cells, k: nat, k': nat)
    requires Shrunk(cells, cells', k) && SettledBelow(cells, k')
    ensures SettledBelow(cells', k')
  {
    forall i | 0 <= i < |cells'| && cells'[i].Block? && cells'[i].space == Heap && cells'[i].rank < k'
      ensures cells'[i].owned == cells'[i].caps && cells'[i].count >= 1
    {
      assert ShrunkCell(cells[i], cells'[i], k);
    }
  }

  lemma DisownKeeps(cells: Cells, ext: multiset<Addr>, store: map<int, int>, b: Addr)
    requires Inv(cells, ext) && StoreOk(cells, store)
    requires b < |cells| && cells[b].Block? && cells[b].space == Heap && cells[b].owned != []
    ensures var c, cells' := cells[b].owned[0], cells[b := cells[b].(owned := cells[b].owned[1..])];
            && OwnedOk(cells', cells[b].rank, c) && Outside(cells', c) == Outside(cells, c)
            && Inv(cells', ext + Outside(cells, c)) && StoreOk(cells', store)
  {
    var cells' := cells[b := cells[b].(owned := cells[b].owned[1..])];
    Disown(cells, ext, b);
    forall i | 0 <= i < |cells'| && cells'[i].Byref? ensures HasForwarding(cells', i) { assert CellOk(cells', i); }
    SameStore(cells, cells', store);
  }

  /** In the middle of disposing of Block `b`: it still owns its captures from `i` on. */
  ghost predicate Disposing(cells0: Cells, cells: Cells, b: Addr, i: nat) {
    && b < |cells0| == |cells| && cells0[b].Block? && cells0[b].space == Heap && i <= |cells0[b].caps|
    && cells[b] == cells0[b].(owned := cells0[b].caps[i..])
    && forall j :: 0 <= j < |cells| && j != b ==> ShrunkCell(cells0[j], cells[j], cells0[b].rank)
  }

  lemma DisposingShrunk(cells0: Cells, cells: Cells, cells': Cells, b: Addr, i: nat)
    requires Disposing(cells0, cells, b, i) && Shrunk(cells, cells', cells0[b].rank)
    ensures Disposing(cells0, cells', b, i)
  {
    assert ShrunkCell(cells[b], cells'[b], cells0[b].rank);
    forall j | 0 <= j < |cells'| && j != b ensures ShrunkCell(cells0[j], cells'[j], cells0[b].rank) {
      assert ShrunkCell(cells0[j], cells[j], cells0[b].rank) && ShrunkCell(cells[j], cells'[j], cells0[b].rank);
    }
  }

  lemma DisposingTaken(cells0: Cells, cells: Cells, b: Addr, i: nat)
    requires Disposing(cells0, cells, b, i) && i < |cells0[b].caps|
    ensures cells[b].owned != [] && cells[b].owned[0] == cells[b].caps[i]
    ensures Disposing(cells0, cells[b := cells[b].(owned := cells[b].owned[1..])], b, i + 1)
    ensures SettledBelow(cells, cells0[b].rank) ==>
              SettledBelow(cells[b := cells[b].(owned := cells[b].owned[1..])], cells0[b].rank)
  {
    assert cells[b].owned[1..] == cells0[b].caps[i + 1..];
  }

  /** A Block whose count hit zero has been disposed of and freed. */
  lemma DisposingEnds(start: Cells, cells0: Cells, cells: Cells, b: Addr)
    requires b < |start| && start[b].Block? && start[b].space == Heap && start[b].owned == start[b].caps
    requires cells0 == start[b := WithCount(start[b], 0)] && Disposing(cells0, cells, b, |start[b].caps|)
    ensures Shrunk(start, cells[b := Gone], start[b].rank + 1)
  {
    forall j | 0 <= j < |start| ensures ShrunkCell(start[j], cells[b := Gone][j], start[b].rank + 1) {
      if j != b { assert ShrunkCell(cells0[j], cells[j], start[b].rank); }
    }
  }

  class Runtime {
    var cells: Cells
    /** The references that the program holds. */
    ghost var ext: multiset<Addr>
    /** The value last written to each __block variable. */
    ghost var store: map<int, int>
    /** How many times malloc has failed. */
    ghost var failures: nat

    ghost predicate Sound()
      reads this
    {
      Inv(cells, ext) && StoreOk(cells, store)
    }

    /** Between the calls of the program: every heap Block is complete and referenced. */
    ghost predicate Valid()
      reads this
    {
      Sound() && AllSettled(cells)
    }

    constructor ()
      ensures Valid() && cells == [] && ext == multiset{} && store == map[]
    {
      cells, ext, store, failures := [], multiset{}, map[], 0;
    }

    // -------------------------------------------------------------- copying

    /** latching_incr_int, or the retain of an object. */
    method Acquire(x: Addr, ghost k: nat)
      requires Sound() && x < |cells| && Counted(cells[x]) && (cells[x].Block? ==> cells[x].rank < k)
      modifies this`cells, this`ext
      ensures Sound() && ext == old(ext) + multiset{x}
      ensures cells == Acquired(old(cells), x) && Grown(old(cells), cells, k)
    {
      AcquiredKeeps(cells, ext, store, x, k);
      cells := Acquired(cells, x);
      ext := ext + multiset{x};
    }

    /** _Block_byref_assign_copy; the result is what it assigns. */
    method ByrefAssignCopy(v: Addr, ghost k: nat) returns (f: Addr)
      requires Sound() && v < |cells| && cells[v].Byref?
      modifies this`cells, this`ext
      ensures Sound() && ext == old(ext) + multiset{f} && Grown(old(cells), cells, k)
      ensures v < |cells| && cells[v].Byref? && f == cells[v].forwarding
      ensures f < |cells| && cells[f].Byref? && cells[f].space == Heap && cells[f].variable == old(cells)[v].variable
    {
      assert CellOk(cells, v) && CellOk(cells, cells[v].forwarding);
      f := cells[v].forwarding;
      if cells[f].count == 0 {
        MoveToHeap(cells, ext, v);
        KeptStore(cells, ext, v, store);
        var copy := cells[v].(space := Heap, count := 2, forwarding := |cells|);
        f := |cells|;
        cells := cells[v := cells[v].(forwarding := |cells|)] + [copy];
        ext := ext + multiset{f};
      } else {
        Acquire(f, k);
      }
    }

    /** _Block_copy_internal */
    method CopyInternal(a: Option<Addr>) returns (r: Option<Addr>)
      requires Sound() && (a.Some? ==> Intact(cells, a.value))
      modifies this`cells, this`ext, this`failures
      ensures Sound() && failures >= old(failures)
      ensures a.None? ==> r.None? && cells == old(cells) && ext == old(ext) && failures == old(failures)
      ensures a.Some? ==> Grown(old(cells), cells, old(cells)[a.value].rank + 1)
      ensures r.Some? ==>
                && a.Some? && r.value < |cells| && cells[r.value].Block? && cells[r.value].space != Stack
                && cells[r.value].rank == old(cells)[a.value].rank
      ensures ext == old(ext) + (if r.Some? && cells[r.value].space == Heap then multiset{r.value} else multiset{})
      ensures a.Some? && failures == old(failures) ==> r.Some? && Equivalent(cells, a.value, r.value)
      ensures a.Some? && old(cells)[a.value].space != Stack ==> r == a
      decreases if a.Some? then cells[a.value].rank + 1 else 0, 3
    {
      if a.None? { return None; }
      var b := a.value;
      if cells[b].space == Heap {
        Acquire(b, cells[b].rank + 1);
        return a;
      }
      if cells[b].space == Global {
        GrownMore(cells, cells, 0, cells[b].rank + 1);
        return a;
      }
      var mallocOk: bool := *;
      if !mallocOk {
        GrownMore(cells, cells, 0, cells[b].rank + 1);
        failures := failures + 1;
        return None;
      }
      var result := CopyStackBlock(b);
      return Some(result);
    }

    /** The bitwise copy of a stack Block, with one reference, and its captures fixed up. */
    method CopyStackBlock(b: Addr) returns (result: Addr)
      requires Sound() && Intact(cells, b) && cells[b].space == Stack
      modifies this`cells, this`ext, this`failures
      ensures Sound() && failures >= old(failures) && ext == old(ext) + multiset{result}
      ensures Grown(old(cells), cells, old(cells)[b].rank + 1)
      ensures result < |cells| && cells[result].Block? && cells[result].space == Heap
      ensures cells[result].rank == old(cells)[b].rank
      ensures failures == old(failures) ==> Equivalent(cells, b, result)
      decreases cells[b].rank + 1, 2
    {
      result := |cells|;
      var copy := cells[b].(space := Heap, count := 1, owned := []);
      CopyStarts(cells, ext, store, b, copy);
      cells := cells + [copy];
      ext := ext + multiset{result};
      CopyFields(b, result);
    }

    /** The copy helper of Block `a`: _Block_object_assign of every captured field. */
    method CopyFields(a: Addr, result: Addr)
      requires Sound() && Intact(cells, a) && cells[a].space == Stack
      requires result == |cells| - 1 && cells[result] == cells[a].(space := Heap, count := 1, owned := [])
      modifies this`cells, this`ext, this`failures
      ensures Sound() && failures >= old(failures) && ext == old(ext)
      ensures Grown(old(cells)[..result], cells, old(cells)[a].rank + 1)
      ensures result < |cells| && cells[result].Block? && cells[result].space == Heap
      ensures cells[result].rank == old(cells)[a].rank
      ensures failures == old(failures) ==> Equivalent(cells, a, result)
      decreases cells[a].rank + 1, 1
    {
      ghost var cells0, src, owned := cells[..result], cells[a], [];
      assert forall j :: 0 <= j < |cells0| ==> KeptCell(cells0[j], cells[j], j, src.rank);
      var n := |cells[a].caps|;
      for i := 0 to n
        invariant Sound() && failures >= old(failures) && ext == old(ext)
        invariant |owned| == i && n == |src.caps| && Copying(cells0, cells, src, a, result, owned) && Intact(cells, a)
        invariant failures == old(failures) ==> SameCaptures(cells, src.rank, src.caps, owned)
      {
        ghost var d := CopyField(a, result, i, cells0, src, owned);
        owned := owned + [d];
      }
      CopyingEnds(cells0, cells, src, a, result, owned);
    }

    /** One field of the copy helper. */
    method CopyField(a: Addr, result: Addr, i: nat, ghost cells0: Cells, ghost src: Cell, ghost owned: seq<Capture>)
      returns (ghost d: Capture)
      requires Sound() && Copying(cells0, cells, src, a, result, owned) && Intact(cells, a) && |owned| == i < |src.caps|
      modifies this`cells, this`ext, this`failures
      ensures Sound() && failures >= old(failures) && ext == old(ext)
      ensures Copying(cells0, cells, src, a, result, owned + [d]) && Intact(cells, a)
      ensures failures == old(failures) && SameCaptures(old(cells), src.rank, src.caps, owned) ==>
                SameCaptures(cells, src.rank, src.caps, owned + [d])
      decreases src.rank + 1, 0
    {
      ghost var cells1 := cells;
      assert Alive(cells, src.rank, src.caps[i]);
      var e := ObjectAssign(cells[a].caps[i], cells[a].rank);
      d := e;
      CopyingGrown(cells0, cells1, cells, src, a, result, owned);
      CopyingAdopted(cells0, cells, src, a, result, owned, e);
      AdoptKeeps(cells, ext, store, result, cells[result].caps[i := e], e);
      ghost var cells2 := cells;
      ext := ext - Outside(cells, e);
      cells := cells[result := cells[result].(caps := cells[result].caps[i := e], owned := cells[result].owned + [e])];
      IntactStep(cells1, cells2, cells, src, a);
      if failures == old(failures) && SameCaptures(cells1, src.rank, src.caps, owned) {
        CapturesStep(cells1, cells2, cells, src.rank, src.caps, owned, e);
      }
    }

    /** _Block_object_assign for a field of a Block of this rank; the result is what it assigns. */
    method ObjectAssign(c: Capture, rank: nat) returns (d: Capture)
      requires Sound() && Alive(cells, rank, c)
      modifies this`cells, this`ext, this`failures
      ensures Sound() && failures >= old(failures) && Grown(old(cells), cells, rank)
      ensures OwnedOk(cells, rank, d) && ext == old(ext) + Outside(cells, d)
      ensures failures == old(failures) ==> SameCapture(cells, rank, c, d)
      decreases CaptureRank(cells, c), 4
    {
      match c {
        case ObjectField(o) =>
          Acquire(o, rank);
          d := c;
        case BlockField(b) =>
          ghost var before := cells;
          var r := CopyInternal(b);
          GrownMore(before, cells, if b.Some? then before[b.value].rank + 1 else 0, rank);
          d := BlockField(r);
        case ByrefField(v) =>
          var f := ByrefAssignCopy(v, rank);
          d := ByrefField(f);
      }
    }

    // -------------------------------------------------------------- releasing

    /** _Block_byref_release */
    method ByrefRelease(v: Addr, ghost k: nat)
      requires Sound() && v < |cells| && cells[v].Byref?
      requires cells[cells[v].forwarding].space == Heap ==> cells[v].forwarding in ext
      modifies this`cells, this`ext
      ensures Sound() && Shrunk(old(cells), cells, k)
      ensures var f := old(cells)[v].forwarding;
              && ext == (if old(cells)[f].space == Heap then old(ext) - multiset{f} else old(ext))
              && (cells[f] == Gone <==> old(cells)[f].space == Heap && old(cells)[f].count == 1)
    {
      var shared := cells[v].forwarding;
      assert CellOk(cells, v) && CellOk(cells, shared) && CountOk(cells, ext, shared);
      if cells[shared].space != Heap { return; }
      var refcount := cells[shared].count;
      if refcount <= 0 { return; }
      if Unlatched(refcount) == 0 {
        FreedKeeps(cells, ext, store, shared, ext - multiset{shared}, k);
        cells := cells[shared := Gone];
      } else {
        ReleasedKeeps(cells, ext, store, shared, k);
        cells := Released(cells, shared);
      }
      ext := ext - multiset{shared};
    }

    /** _Block_release */
    method Release(a: Option<Addr>)
      requires Sound()
      requires a.Some? ==>
                 && a.value < |cells| && cells[a.value].Block? && (cells[a.value].space == Heap ==> a.value in ext)
                 && SettledBelow(cells, cells[a.value].rank + 1)
      modifies this`cells, this`ext
      ensures Sound()
      ensures a.None? ==> cells == old(cells) && ext == old(ext)
      ensures a.Some? ==>
                && ext == (if old(cells)[a.value].space == Heap then old(ext) - multiset{a.value} else old(ext))
                && Shrunk(old(cells), cells, old(cells)[a.value].rank + 1)
                && (cells[a.value] == Gone <==> old(cells)[a.value].space == Heap && old(cells)[a.value].count == 1)
      decreases if a.Some? then cells[a.value].rank + 1 else 0, 3
    {
      if a.None? { return; }
      var b := a.value;
      assert CellOk(cells, b) && CountOk(cells, ext, b);
      if cells[b].space != Heap {
        ShrunkMore(cells, cells, 0, cells[b].rank + 1);
        return;
      }
      ghost var start := cells;
      ReleasedKeeps(cells, ext, store, b, cells[b].rank + 1);
      var newCount := Unlatched(cells[b].count);
      cells := Released(cells, b);
      ext := ext - multiset{b};
      if newCount > 0 { return; }
      DisposeAndFree(b, start);
    }

    /** What _Block_release does when the count has hit zero; before the release the cells were `start`. */
    method DisposeAndFree(b: Addr, ghost start: Cells)
      requires Sound() && b < |start| && start[b].Block? && start[b].space == Heap && start[b].owned == start[b].caps
      requires cells == start[b := WithCount(start[b], 0)] && SettledBelow(cells, start[b].rank)
      modifies this`cells, this`ext
      ensures Sound() && ext == old(ext) && Shrunk(start, cells, start[b].rank + 1) && cells[b] == Gone
      decreases start[b].rank + 1, 2
    {
      ghost var cells0 := cells;
      DisposeFields(b);
      DisposingEnds(start, cells0, cells, b);
      assert CountOk(cells, ext, b);
      FreedKeeps(cells, ext, store, b, ext, start[b].rank);
      cells := cells[b := Gone];
    }

    /** The dispose helper of Block `b`: _Block_object_dispose of every captured field. */
    method DisposeFields(b: Addr)
      requires Sound() && b < |cells| && cells[b].Block? && cells[b].space == Heap && cells[b].owned == cells[b].caps
      requires SettledBelow(cells, cells[b].rank)
      modifies this`cells, this`ext
      ensures Sound() && ext == old(ext) && Disposing(old(cells), cells, b, |old(cells)[b].caps|)
      decreases cells[b].rank + 1, 1
    {
      ghost var cells0 := cells;
      var n := |cells[b].caps|;
      assert cells[b].caps[0..] == cells[b].caps;
      for i := 0 to n
        invariant Sound() && ext == old(ext) && n == |cells0[b].caps|
        invariant Disposing(cells0, cells, b, i) && SettledBelow(cells, cells0[b].rank)
      {
        DisposeField(b, i, cells0);
      }
    }

    method DisposeField(b: Addr, i: nat, ghost cells0: Cells)
      requires Sound() && Disposing(cells0, cells, b, i) && i < |cells0[b].caps| && SettledBelow(cells, cells0[b].rank)
      modifies this`cells, this`ext
      ensures Sound() && ext == old(ext) && Disposing(cells0, cells, b, i + 1) && SettledBelow(cells, cells0[b].rank)
      decreases cells0[b].rank + 1, 0
    {
      var c := TakeField(b, i, cells0);
      var rank := cells[b].rank;
      ghost var cells1 := cells;
      ObjectDispose(c, rank);
      DisposingShrunk(cells0, cells1, cells, b, i + 1);
      ShrunkSettled(cells1, cells, rank, rank);
    }

    /** The reference of field `i` is no longer the Block's own. */
    method TakeField(b: Addr, i: nat, ghost cells0: Cells) returns (c: Capture)
      requires Sound() && Disposing(cells0, cells, b, i) && i < |cells0[b].caps| && SettledBelow(cells, cells0[b].rank)
      modifies this`cells, this`ext
      ensures Sound() && Disposing(cells0, cells, b, i + 1) && SettledBelow(cells, cells0[b].rank)
      ensures OwnedOk(cells, cells0[b].rank, c) && ext == old(ext) + Outside(cells, c)
    {
      c := cells[b].caps[i];
      DisposingTaken(cells0, cells, b, i);
      DisownKeeps(cells, ext, store, b);
      ext := ext + Outside(cells, c);
      cells := cells[b := cells[b].(owned := cells[b].owned[1..])];
    }

    /** The release of an object. */
    method ReleaseObject(o: Addr, ghost k: nat)
      requires Sound() && o in ext && cells[o].Object?
      modifies this`cells, this`ext
      ensures Sound() && ext == old(ext) - multiset{o} && cells == Released(old(cells), o) && Shrunk(old(cells), cells, k)
    {
      ReleasedKeeps(cells, ext, store, o, k);
      cells := Released(cells, o);
      ext := ext - multiset{o};
    }

    /** The release of a captured Block. */
    method ReleaseField(b: Option<Addr>, ghost rank: nat)
      requires Sound() && OwnedOk(cells, rank, BlockField(b)) && Outside(cells, BlockField(b)) <= ext
      requires SettledBelow(cells, rank)
      modifies this`cells, this`ext
      ensures Sound() && Shrunk(old(cells), cells, rank) && ext == old(ext) - Outside(old(cells), BlockField(b))
      decreases CaptureRank(cells, BlockField(b)), 4
    {
      ghost var before := cells;
      Release(b);
      ShrunkMore(before, cells, if b.Some? then before[b.value].rank + 1 else 0, rank);
    }

    /** _Block_object_dispose for a field of a Block of this rank. */
    method ObjectDispose(c: Capture, rank: nat)
      requires Sound() && OwnedOk(cells, rank, c) && Outside(cells, c) <= ext && SettledBelow(cells, rank)
      modifies this`cells, this`ext
      ensures Sound() && Shrunk(old(cells), cells, rank) && ext == old(ext) - Outside(old(cells), c)
      decreases CaptureRank(cells, c), 5
    {
      match c {
        case ObjectField(o) =>
          ReleaseObject(o, rank);
        case BlockField(b) =>
          ReleaseField(b, rank);
        case ByrefField(v) =>
          assert CellOk(cells, v);
          ByrefRelease(v, rank);
      }
    }

    // -------------------------------------------------------------- the program

    /** _Block_copy: the copy is as good as the Block, and the program holds a reference to it. */
    method BlockCopy(a: Option<Addr>) returns (r: Option<Addr>)
      requires Valid() && (a.Some? ==> Intact(cells, a.value))
      modifies this`cells, this`ext, this`failures
      ensures Valid()
      ensures r.Some? ==> r.value < |cells| && cells[r.value].Block? && cells[r.value].space != Stack
      ensures ext == old(ext) + (if r.Some? && cells[r.value].space == Heap then multiset{r.value} else multiset{})
      ensures a.Some? && failures == old(failures) ==> r.Some? && Equivalent(cells, a.value, r.value)
      ensures a.None? ==> cells == old(cells)
      ensures a.Some? ==> Grown(old(cells), cells, old(cells)[a.value].rank + 1)
    {
      r := CopyInternal(a);
      if a.Some? { GrownSettled(old(cells), cells, old(cells)[a.value].rank + 1); }
    }

    /** _Block_release of a reference that the program holds. */
    method BlockRelease(a: Option<Addr>)
      requires Valid()
      requires a.Some? ==>
                 a.value < |cells| && cells[a.value].Block? && (cells[a.value].space == Heap ==> a.value in ext)
      modifies this`cells, this`ext
      ensures Valid()
      ensures a.Some? ==>
                && ext == (if old(cells)[a.value].space == Heap then old(ext) - multiset{a.value} else old(ext))
                && Shrunk(old(cells), cells, old(cells)[a.value].rank + 1)
                && (cells[a.value] == Gone <==> old(cells)[a.value].space == Heap && old(cells)[a.value].count == 1)
    {
      Release(a);
      if a.Some? { ShrunkAllSettled(old(cells), cells, old(cells)[a.value].rank + 1); }
    }

    /** A __block variable comes into scope, on the stack. */
    method DeclareVariable(variable: int, value: int) returns (v: Addr)
      requires Valid() && variable !in store
      modifies this`cells, this`store
      ensures Valid() && cells == old(cells) + [Byref(Stack, 0, v, variable, value)]
      ensures store == old(store)[variable := value]
    {
      v := |cells|;
      DeclareKeeps(cells, ext, store, variable, value);
      cells := cells + [Byref(Stack, 0, v, variable, value)];
      store := store[variable := value];
    }

    /** A write through any cell of a variable, which follows the forwarding pointer. */
    method WriteVariable(v: Addr, value: int)
      requires Valid() && v < |cells| && cells[v].Byref?
      modifies this`cells, this`store
      ensures Valid() && store == old(store)[old(cells)[v].variable := value]
      ensures v < |cells| && HasForwarding(cells, v) && ReadVariable(cells, v) == value
      ensures ext == old(ext)
    {
      assert CellOk(cells, v);
      var f := cells[v].forwarding;
      WriteKeeps(cells, ext, store, v, value);
      store := store[cells[v].variable := value];
      cells := cells[f := cells[f].(value := value)];
    }

    /** The scope of a __block variable ends: _Block_object_dispose of its stack cell. */
    method LeaveScope(v: Addr)
      requires Valid() && v < |cells| && cells[v].Byref? && cells[v].space == Stack
      modifies this`cells, this`ext
      ensures Valid() && ext == old(ext) && Shrunk(old(cells)[v := Gone], cells, 0)
      ensures var f := old(cells)[v].forwarding; f != v ==> (cells[f] == Gone <==> old(cells)[f].count == 1)
    {
      assert CellOk(cells, v);
      var shared := cells[v].forwarding;
      assert CellOk(cells, shared);
      LeaveKeeps(cells, ext, store, v);
      ghost var before := cells[v := Gone];
      cells := cells[v := Gone];
      if shared != v {
        ext := ext + multiset{shared};
        ByrefRelease(shared, 0);
        ShrunkAllSettled(before, cells, 0);
      }
    }

    /** The program makes an object and holds it. */
    method MakeObject() returns (o: Addr)
      requires Valid()
      modifies this`cells, this`ext
      ensures Valid() && o == |old(cells)| && cells == old(cells) + [Object(1)] && ext == old(ext) + multiset{o}
    {
      o := |cells|;
      PlainKeeps(cells, ext, store, Object(1), ext + multiset{o});
      cells, ext := cells + [Object(1)], ext + multiset{o};
    }

    /** A Block literal is evaluated: a stack Block, or a global one if it captures nothing. */
    method MakeBlock(code: int, caps: seq<Capture>, rank: nat) returns (b: Addr)
      requires Valid() && forall k :: 0 <= k < |caps| ==> Alive(cells, rank, caps[k])
      modifies this`cells
      ensures Valid() && b == |old(cells)| && Intact(cells, b)
      ensures cells == old(cells) + [Block(if caps == [] then Global else Stack, 0, rank, code, caps, [])]
    {
      b := |cells|;
      var cell := Block(if caps == [] then Global else Stack, 0, rank, code, caps, []);
      PlainKeeps(cells, ext, store, cell, ext);
      MadeIntact(cells, cell);
      cells := cells + [cell];
    }

    /** The frame of a stack Block ends. */
    method PopBlock(b: Addr)
      requires Valid() && b < |cells| && cells[b].Block? && cells[b].space == Stack
      modifies this`cells
      ensures Valid() && cells == old(cells)[b := Gone]
    {
      PopKeeps(cells, ext, store, b);
      cells := cells[b := Gone];
    }
  }

  lemma GrownSettled(cells: Cells, cells': Cells, k: nat)
    requires AllSettled(cells) && Grown(cells, cells', k)
    ensures AllSettled(cells')
  {
    forall i | 0 <= i < |cells'| && cells'[i].Block? && cells'[i].space == Heap
      ensures cells'[i].owned == cells'[i].caps && cells'[i].count >= 1
    {
      if i < |cells| { assert KeptCell(cells[i], cells'[i], i, k); } else { assert FreshCell(cells'[i], k); }
    }
  }

  lemma ShrunkAllSettled(cells: Cells, cells': Cells, k: nat)
    requires Shrunk(cells, cells', k) && AllSettled(cells)
    ensures AllSettled(cells')
  {
    forall i | 0 <= i < |cells'| && cells'[i].Block? && cells'[i].space == Heap
      ensures cells'[i].owned == cells'[i].caps && cells'[i].count >= 1
    {
      assert ShrunkCell(cells[i], cells'[i], k);
    }
  }

  // ---------------------------------------------------------------- the program's own steps

  lemma DeclareKeeps(cells: Cells, ext: multiset<Addr>, store: map<int, int>, variable: int, value: int)
    requires Inv(cells, ext) && StoreOk(cells, store) && variable !in store
    ensures var cells' := cells + [Byref(Stack, 0, |cells|, variable, value)];
            Inv(cells', ext) && StoreOk(cells', store[variable := value])
  {
    var cell := Byref(Stack, 0, |cells|, variable, value);
    var cells' := cells + [cell];
    forall i | 0 <= i < |cells| ensures OneHome(cells', i, |cells|) { assert cells[i].Byref? ==> HasForwarding(cells, i); }
    Append(cells, ext, cell, ext);
    forall i | 0 <= i < |cells| && cells[i].Byref?
      ensures HasForwarding(cells', i) && ReadVariable(cells', i) == store[cells[i].variable]
    {
      assert HasForwarding(cells, i);
    }
  }

  /** An object, or a Block that owns nothing, joins. */
  lemma PlainKeeps(cells: Cells, ext: multiset<Addr>, store: map<int, int>, cell: Cell, ext': multiset<Addr>)
    requires Inv(cells, ext) && StoreOk(cells, store)
    requires || (cell == Object(1) && ext' == ext + multiset{|cells|})
             || (cell.Block? && cell.space != Heap && cell.count == 0 && cell.owned == [] && ext' == ext)
    ensures Inv(cells + [cell], ext') && StoreOk(cells + [cell], store)
  {
    EdgeIsAlive(cells, |cells|);
    EdgesAppend(cells, cell, |cells|);
    Append(cells, ext, cell, ext');
    forall i | 0 <= i < |cells| && cells[i].Byref? ensures HasForwarding(cells + [cell], i) { assert CellOk(cells, i); }
    SameStore(cells, cells + [cell], store);
  }

  lemma MadeIntact(cells: Cells, cell: Cell)
    requires cell.Block? && forall k :: 0 <= k < |cell.caps| ==> Alive(cells, cell.rank, cell.caps[k])
    ensures Intact(cells + [cell], |cells|)
  {
    var cells' := cells + [cell];
    forall i | 0 <= i < |cells| ensures SameBelowCell(cells[i], cells'[i], cell.rank) { }
    forall k | 0 <= k < |cell.caps| ensures Alive(cells', cell.rank, cell.caps[k]) {
      AliveKept(cells, cells', cell.rank, cell.rank, cell.caps[k]);
    }
  }

  lemma PopKeeps(cells: Cells, ext: multiset<Addr>, store: map<int, int>, b: Addr)
    requires Inv(cells, ext) && StoreOk(cells, store) && b < |cells| && cells[b].Block? && cells[b].space == Stack
    ensures Inv(cells[b := Gone], ext) && StoreOk(cells[b := Gone], store)
  {
    var cells' := cells[b := Gone];
    assert CellOk(cells, b);
    forall j | 0 <= j < |cells'| ensures CellOk(cells', j) {
      assert CellOk(cells, j);
      if cells[j].Block? && j != b {
        forall k | 0 <= k < |cells[j].owned| ensures OwnedOk(cells', cells[j].rank, cells[j].owned[k]) {
          assert OwnedOk(cells, cells[j].rank, cells[j].owned[k]);
        }
      }
    }
    forall j | 0 <= j < |cells'| ensures CountOk(cells', ext, j) {
      EdgesUpdate(cells, b, Gone, j);
      assert CountOk(cells, ext, j);
    }
    OneHomeKept(cells, cells', b);
    forall i | 0 <= i < |cells'| && cells'[i].Byref? ensures HasForwarding(cells', i) { assert CellOk(cells', i); }
    SameStore(cells, cells', store);
  }

  lemma LeaveKeeps(cells: Cells, ext: multiset<Addr>, store: map<int, int>, v: Addr)
    requires Inv(cells, ext) && StoreOk(cells, store) && v < |cells| && cells[v].Byref? && cells[v].space == Stack
    ensures var f := cells[v].forwarding;
            Inv(cells[v := Gone], if f == v then ext else ext + multiset{f}) && StoreOk(cells[v := Gone], store)
    ensures Shrunk(cells[v := Gone], cells[v := Gone], 0) && (AllSettled(cells) ==> AllSettled(cells[v := Gone]))
  {
    var cells' := cells[v := Gone];
    LeaveHome(cells, ext, v);
    forall i | 0 <= i < |cells'| && cells'[i].Byref? ensures HasForwarding(cells', i) { assert CellOk(cells', i); }
    SameStore(cells, cells', store);
  }

  /** A write reaches every cell of its variable and no other variable. */
  lemma WriteKeeps(cells: Cells, ext: multiset<Addr>, store: map<int, int>, v: Addr, value: int)
    requires Inv(cells, ext) && StoreOk(cells, store) && v < |cells| && cells[v].Byref?
    ensures HasForwarding(cells, v)
    ensures var f := cells[v].forwarding;
            var cells' := cells[f := cells[f].(value := value)];
            Inv(cells', ext) && StoreOk(cells', store[cells[v].variable := value]) && cells'[v].Byref?
  {
    assert CellOk(cells, v);
    var f := cells[v].forwarding;
    assert CellOk(cells, f) && CountOk(cells, ext, f);
    var cell := cells[f].(value := value);
    EdgesUpdate(cells, f, cell, f);
    SameOwned(cells, f, cell);
    OneCell(cells, ext, f, cell, ext);
    var cells' := cells[f := cell];
    forall i | 0 <= i < |cells'| && cells'[i].Byref?
      ensures HasForwarding(cells', i) && cells'[i].variable in store
      ensures ReadVariable(cells', i) == store[cells[v].variable := value][cells'[i].variable]
    {
      assert HasForwarding(cells, i) && CellOk(cells, i) && OneHome(cells, i, v);
    }
  }

  // ---------------------------------------------------------------- one home for each variable

  /** Forwarding is idempotent, and all cells of a variable lead to the same cell and read the same value. */
  lemma OneCellForEachVariable(cells: Cells, ext: multiset<Addr>, store: map<int, int>, i: Addr, j: Addr)
    requires Inv(cells, ext) && StoreOk(cells, store) && i < |cells| && cells[i].Byref? && j < |cells| && cells[j].Byref?
    ensures HasForwarding(cells, i) && cells[cells[i].forwarding].forwarding == cells[i].forwarding
    ensures ReadVariable(cells, i) == store[cells[i].variable]
    ensures cells[i].variable == cells[j].variable ==> cells[i].forwarding == cells[j].forwarding
    ensures cells[i].variable == cells[j].variable && cells[i].space == cells[j].space == Heap ==> i == j
  {
    assert CellOk(cells, i) && CellOk(cells, j) && OneHome(cells, i, j) && HasForwarding(cells, i);
  }

  /** A copy reads the same values from the variables it captures as its source. */
  lemma CopiesReadTheSame(cells: Cells, store: map<int, int>, a: Addr, r: Addr, k: nat)
    requires StoreOk(cells, store) && Equivalent(cells, a, r) && k < |cells[a].caps| && cells[a].caps[k].ByrefField?
    requires HasForwarding(cells, cells[a].caps[k].v)
    ensures k < |cells[r].caps| && cells[r].caps[k].ByrefField? && HasForwarding(cells, cells[r].caps[k].v)
    ensures ReadVariable(cells, cells[r].caps[k].v) == ReadVariable(cells, cells[a].caps[k].v)
  {
    if r != a {
      assert SameCapture(cells, cells[a].rank, cells[a].caps[k], cells[r].caps[k]);
      assert HasForwarding(cells, cells[r].caps[k].v);
    }
  }

  // ---------------------------------------------------------------- nothing leaks

  ghost predicate OnHeap(cell: Cell) { (cell.Block? || cell.Byref?) && cell.space == Heap }

  ghost function RankBound(cells: Cells): nat {
    if cells == [] then 0
    else
      var rest, last := RankBound(cells[..|cells| - 1]), cells[|cells| - 1];
      if last.Block? && last.rank >= rest then last.rank + 1 else rest
  }

  lemma {:induction false} RankBounded(cells: Cells, i: Addr)
    requires i < |cells| && cells[i].Block?
    ensures cells[i].rank < RankBound(cells)
  {
    if i == |cells| - 1 {
    } else {
      RankBounded(cells[..|cells| - 1], i);
    }
  }

  /** All references and frames are gone. */
  ghost predicate Balanced(cells: Cells, ext: multiset<Addr>) {
    && Inv(cells, ext) && AllSettled(cells) && ext == multiset{}
    && forall i :: 0 <= i < |cells| && cells[i].Byref? ==> cells[i].space == Heap
  }

  ghost predicate NoneLatched(cells: Cells) {
    forall i :: 0 <= i < |cells| && OnHeap(cells[i]) ==> cells[i].count != MASK
  }

  /** A Block that only Blocks of rank `k` or more could own is not on the heap. */
  lemma {:induction false} NoBlocks(cells: Cells, ext: multiset<Addr>, k: nat)
    requires Balanced(cells, ext) && NoneLatched(cells)
    requires forall i :: 0 <= i < |cells| && cells[i].Block? && cells[i].space == Heap ==> cells[i].rank < k
    ensures forall i :: 0 <= i < |cells| && cells[i].Block? ==> cells[i].space != Heap
  {
    if k == 0 {
    } else {
      forall i | 0 <= i < |cells| && cells[i].Block? && cells[i].space == Heap ensures cells[i].rank < k - 1 {
        assert CountOk(cells, ext, i) && OnHeap(cells[i]);
        OwnerOfBlock(cells, ext, i);
      }
      NoBlocks(cells, ext, k - 1);
    }
  }

  lemma OwnerOfBlock(cells: Cells, ext: multiset<Addr>, x: Addr)
    requires Inv(cells, ext) && x < |cells| && cells[x].Block? && Edges(cells, x) > 0
    ensures exists i :: 0 <= i < |cells| && cells[i].Block? && cells[i].space == Heap && cells[i].rank > cells[x].rank
  {
    var i := EdgeFrom(cells, x);
    assert CellOk(cells, i);
    if cells[i].Block? {
      var k := OccurrenceOf(cells[i].owned, x);
      assert OwnedOk(cells, cells[i].rank, cells[i].owned[k]);
    }
  }

  /** Without heap Blocks and frames nothing owns anything. */
  lemma NoOwners(cells: Cells, ext: multiset<Addr>, x: Addr)
    requires Balanced(cells, ext) && forall i :: 0 <= i < |cells| && cells[i].Block? ==> cells[i].space != Heap
    ensures Edges(cells, x) == 0
  {
    forall i | 0 <= i < |cells| ensures OutTo(cells[i], i, x) == 0 { assert CellOk(cells, i); }
    NoEdges(cells, x);
  }

  lemma {:induction false} NoEdges(cells: Cells, x: Addr)
    requires forall i :: 0 <= i < |cells| ==> OutTo(cells[i], i, x) == 0
    ensures Edges(cells, x) == 0
  {
    if cells == [] {
    } else {
      var n := |cells| - 1;
      forall i | 0 <= i < n ensures OutTo(cells[..n][i], i, x) == 0 { assert cells[..n][i] == cells[i]; }
      NoEdges(cells[..n], x);
    }
  }

  /**
   * When the program has given up all references and left all scopes, every object has as many releases
   * as retains, and the heap is empty if and only if no count has latched.
   */
  lemma NothingLeaks(cells: Cells, ext: multiset<Addr>)
    requires Balanced(cells, ext)
    ensures (forall i :: 0 <= i < |cells| ==> !OnHeap(cells[i])) <==> NoneLatched(cells)
    ensures NoneLatched(cells) ==> forall i :: 0 <= i < |cells| && cells[i].Object? ==> cells[i].count == 0
  {
    if NoneLatched(cells) {
      forall i | 0 <= i < |cells| && cells[i].Block? && cells[i].space == Heap ensures cells[i].rank < RankBound(cells) {
        RankBounded(cells, i);
      }
      NoBlocks(cells, ext, RankBound(cells));
      forall i | 0 <= i < |cells| ensures !OnHeap(cells[i]) && (cells[i].Object? ==> cells[i].count == 0) {
        assert CellOk(cells, i) && CountOk(cells, ext, i);
        NoOwners(cells, ext, i);
      }
    }
  }
}
