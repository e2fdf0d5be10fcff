/** What copying and releasing Blocks leaves as it was, and when a copy is as good as its source. */
module BlockCopies {
  import opened BlockGraph

  // ---------------------------------------------------------------- what may be copied

  /** What a stack Block of this rank captures is still there. */
  predicate Alive(cells: Cells, rank: nat, c: Capture)
    decreases rank, 0
  {
    match c
    case ObjectField(o) => o < |cells| && cells[o].Object?
    case BlockField(None) => true
    case BlockField(Some(b)) => b < |cells| && cells[b].Block? && cells[b].rank < rank && Intact(cells, b)
    case ByrefField(v) => v < |cells| && cells[v].Byref?
  }

  /** A Block that the program may copy: what it captures, directly or through stack Blocks, is there. */
  predicate Intact(cells: Cells, a: Addr)
    decreases if a < |cells| && cells[a].Block? then cells[a].rank else 0, 1
  {
    && a < |cells| && cells[a].Block?
    && (cells[a].space == Stack ==>
          forall k :: 0 <= k < |cells[a].caps| ==> Alive(cells, cells[a].rank, cells[a].caps[k]))
  }

  // ---------------------------------------------------------------- copies and their sources

  /** `d` is as good a capture as `c`: the same object, the same variable, or an equivalent Block. */
  ghost predicate SameCapture(cells: Cells, rank: nat, c: Capture, d: Capture)
    decreases rank, 0
  {
    match c
    case ObjectField(_) => d == c
    case ByrefField(v) =>
      && d.ByrefField? && v < |cells| && cells[v].Byref?
      && d.v < |cells| && cells[d.v].Byref? && cells[d.v].variable == cells[v].variable
    case BlockField(None) => d == c
    case BlockField(Some(b)) =>
      && d.BlockField? && d.b.Some? && b < |cells| && cells[b].Block? && cells[b].rank < rank
      && Equivalent(cells, b, d.b.value)
  }

  /** The Blocks run the same code on equally good captures. */
  ghost predicate Equivalent(cells: Cells, a: Addr, r: Addr)
    decreases if a < |cells| && cells[a].Block? then cells[a].rank else 0, 1
  {
    && a < |cells| && cells[a].Block? && r < |cells| && cells[r].Block? && cells[r].rank == cells[a].rank
    && (r == a || (&& cells[r].code == cells[a].code && |cells[r].caps| == |cells[a].caps|
                   && forall k :: 0 <= k < |cells[a].caps| ==>
                        SameCapture(cells, cells[a].rank, cells[a].caps[k], cells[r].caps[k])))
  }

  // ---------------------------------------------------------------- what a copy changes

  /** Counts rise and stack variables move; Blocks of rank `k` and more do not change at all. */
  ghost predicate KeptCell(x: Cell, y: Cell, i: Addr, k: nat) {
    match x
    case Block(_, count, rank, _, _, _) =>
      y.Block? && y == x.(count := y.count) && y.count >= count && (rank >= k ==> y == x)
    case Byref(_, _, forwarding, _, _) =>
      && y.Byref? && y == x.(count := y.count, forwarding := y.forwarding)
      && (y.forwarding == forwarding || (x.space == Stack && forwarding == i))
    case Object(count) => y.Object? && y.count >= count
    case Gone => y == Gone
  }

  ghost predicate Kept(cells: Cells, cells': Cells, k: nat) {
    && |cells| <= |cells'|
    && forall i :: 0 <= i < |cells| ==> KeptCell(cells[i], cells'[i], i, k)
  }

  /** A cell that a copy has made: a complete Block, or a moved variable. */
  ghost predicate FreshCell(cell: Cell, k: nat) {
    match cell
    case Block(space, count, rank, _, caps, owned) => space == Heap && owned == caps && count >= 1 && rank < k
    case Byref(space, _, _, _, _) => space == Heap
    case _ => false
  }

  ghost predicate Grown(cells: Cells, cells': Cells, k: nat) {
    && Kept(cells, cells', k)
    && forall i :: |cells| <= i < |cells'| ==> FreshCell(cells'[i], k)
  }

  lemma GrownMore(cells: Cells, cells': Cells, k: nat, k': nat)
    requires (Grown(cells, cells', k) && k <= k') || cells' == cells
    ensures Grown(cells, cells', k')
  {
    forall i | 0 <= i < |cells| ensures KeptCell(cells[i], cells'[i], i, k') {
      assert cells' != cells ==> KeptCell(cells[i], cells'[i], i, k);
    }
    forall i | |cells| <= i < |cells'| ensures FreshCell(cells'[i], k') { assert FreshCell(cells'[i], k); }
  }

  /** Blocks below rank `k` keep their code and captures, variables stay variables, objects objects. */
  ghost predicate SameBelow(cells: Cells, cells': Cells, k: nat) {
    && |cells| <= |cells'|
    && forall i :: 0 <= i < |cells| ==> SameBelowCell(cells[i], cells'[i], k)
  }

  ghost predicate SameBelowCell(x: Cell, y: Cell, k: nat) {
    match x
    case Block(space, _, rank, code, caps, _) =>
      rank < k ==> y.Block? && y.space == space && y.rank == rank && y.code == code && y.caps == caps
    case Byref(_, _, _, variable, _) => y.Byref? && y.variable == variable
    case Object(_) => y.Object?
    case Gone => true
  }

  lemma KeptSameBelow(cells: Cells, cells': Cells, k: nat, k': nat)
    requires Kept(cells, cells', k)
    ensures SameBelow(cells, cells', k')
  {
    forall i | 0 <= i < |cells| ensures SameBelowCell(cells[i], cells'[i], k') {
      assert KeptCell(cells[i], cells'[i], i, k);
    }
  }

  lemma {:induction false} AliveKept(cells: Cells, cells': Cells, k: nat, rank: nat, c: Capture)
    requires SameBelow(cells, cells', k) && rank <= k && Alive(cells, rank, c)
    ensures Alive(cells', rank, c)
    decreases rank, 0
  {
    match c
    case ObjectField(o) => assert SameBelowCell(cells[o], cells'[o], k);
    case BlockField(None) =>
    case BlockField(Some(b)) =>
      assert SameBelowCell(cells[b], cells'[b], k);
      IntactKept(cells, cells', k, b);
    case ByrefField(v) => assert SameBelowCell(cells[v], cells'[v], k);
  }

  lemma {:induction false} IntactKept(cells: Cells, cells': Cells, k: nat, a: Addr)
    requires SameBelow(cells, cells', k) && Intact(cells, a) && cells[a].rank < k
    ensures Intact(cells', a)
    decreases cells[a].rank, 1
  {
    assert SameBelowCell(cells[a], cells'[a], k);
    if cells[a].space == Stack {
      forall j | 0 <= j < |cells[a].caps| ensures Alive(cells', cells[a].rank, cells[a].caps[j]) {
        AliveKept(cells, cells', k, cells[a].rank, cells[a].caps[j]);
      }
    }
  }

  lemma {:induction false} SameCaptureKept(cells: Cells, cells': Cells, k: nat, rank: nat, c: Capture, d: Capture)
    requires SameBelow(cells, cells', k) && rank <= k && SameCapture(cells, rank, c, d)
    ensures SameCapture(cells', rank, c, d)
    decreases rank, 0
  {
    match c
    case ObjectField(_) =>
    case ByrefField(v) => assert SameBelowCell(cells[v], cells'[v], k) && SameBelowCell(cells[d.v], cells'[d.v], k);
    case BlockField(None) =>
    case BlockField(Some(b)) =>
      assert SameBelowCell(cells[b], cells'[b], k);
      EquivalentKept(cells, cells', k, b, d.b.value);
  }

  lemma {:induction false} EquivalentKept(cells: Cells, cells': Cells, k: nat, a: Addr, r: Addr)
    requires SameBelow(cells, cells', k) && Equivalent(cells, a, r) && cells[a].rank < k
    ensures Equivalent(cells', a, r)
    decreases cells[a].rank, 1
  {
    assert SameBelowCell(cells[a], cells'[a], k) && SameBelowCell(cells[r], cells'[r], k);
    if r != a {
      forall j | 0 <= j < |cells[a].caps| ensures SameCapture(cells', cells[a].rank, cells[a].caps[j], cells[r].caps[j]) {
        SameCaptureKept(cells, cells', k, cells[a].rank, cells[a].caps[j], cells[r].caps[j]);
      }
    }
  }

  // ---------------------------------------------------------------- what a release changes

  /** Counts fall and heap cells go away; Blocks of rank `k` and more do not change at all. */
  ghost predicate ShrunkCell(x: Cell, y: Cell, k: nat) {
    match x
    case Block(space, count, rank, _, _, _) =>
      || y == x
      || (space == Heap && rank < k && (y == Gone || (y == x.(count := y.count) && 1 <= y.count <= count)))
    case Byref(space, count, _, _, _) =>
      || y == x
      || (space == Heap && (y == Gone || (y == x.(count := y.count) && 1 <= y.count <= count)))
    case Object(count) => y.Object? && y.count <= count
    case Gone => y == Gone
  }

  ghost predicate Shrunk(cells: Cells, cells': Cells, k: nat) {
    && |cells'| == |cells|
    && forall i :: 0 <= i < |cells| ==> ShrunkCell(cells[i], cells'[i], k)
  }

  lemma ShrunkMore(cells: Cells, cells': Cells, k: nat, k': nat)
    requires (Shrunk(cells, cells', k) && k <= k') || cells' == cells
    ensures Shrunk(cells, cells', k')
  {
    forall i | 0 <= i < |cells| ensures ShrunkCell(cells[i], cells'[i], k') {
      assert cells' != cells ==> ShrunkCell(cells[i], cells'[i], k);
    }
  }

  // ---------------------------------------------------------------- variables

  /** What a read through the cell at `i` gives. */
  predicate HasForwarding(cells: Cells, i: Addr) {
    i < |cells| && cells[i].Byref? && cells[i].forwarding < |cells| && cells[cells[i].forwarding].Byref?
  }

  function ReadVariable(cells: Cells, i: Addr): int
    requires HasForwarding(cells, i)
  {
    cells[cells[i].forwarding].value
  }

  /** A read through any cell of a variable gives the variable's value. */
  ghost predicate StoreOk(cells: Cells, store: map<int, int>) {
    forall i :: 0 <= i < |cells| && cells[i].Byref? ==>
      HasForwarding(cells, i) && cells[i].variable in store && ReadVariable(cells, i) == store[cells[i].variable]
  }

  /** Copies leave every variable at its value. */
  lemma KeptStore(cells: Cells, ext: multiset<Addr>, v: Addr, store: map<int, int>)
    requires Inv(cells, ext) && StoreOk(cells, store)
    requires v < |cells| && cells[v].Byref? && cells[v].space == Stack && cells[v].forwarding == v
    ensures StoreOk(cells[v := cells[v].(forwarding := |cells|)]
                    + [cells[v].(space := Heap, count := 2, forwarding := |cells|)], store)
  {
    var n := |cells|;
    var cells' := cells[v := cells[v].(forwarding := n)] + [cells[v].(space := Heap, count := 2, forwarding := n)];
    forall i | 0 <= i < |cells'| && cells'[i].Byref?
      ensures HasForwarding(cells', i) && cells'[i].variable in store && ReadVariable(cells', i) == store[cells'[i].variable]
    {
      assert HasForwarding(cells, v);
      if i < n && i != v {
        assert HasForwarding(cells, i) && CellOk(cells, i) && OneHome(cells, i, v);
      }
    }
  }

  /** Changing counts, captures and objects, or dropping a cell that nothing forwards to, changes no variable. */
  lemma SameStore(cells: Cells, cells': Cells, store: map<int, int>)
    requires StoreOk(cells, store) && |cells'| >= |cells|
    requires forall i :: 0 <= i < |cells'| && cells'[i].Byref? ==>
               && i < |cells| && cells[i].Byref? && cells'[i].forwarding == cells[i].forwarding
               && cells'[i].variable == cells[i].variable && cells'[i].value == cells[i].value
    requires forall i :: 0 <= i < |cells'| && cells'[i].Byref? ==> HasForwarding(cells', i)
    ensures StoreOk(cells', store)
  {
    forall i | 0 <= i < |cells'| && cells'[i].Byref?
      ensures HasForwarding(cells', i) && cells'[i].variable in store && ReadVariable(cells', i) == store[cells'[i].variable]
    {
      assert HasForwarding(cells, i);
    }
  }
}
