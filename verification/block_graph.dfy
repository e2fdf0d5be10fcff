/** Blocks, __block variables and objects in memory, and who owns whom. */
module BlockGraph {
  import opened Memory

  const MASK: nat := 0xffff  // BLOCK_REFCOUNT_MASK

  type Addr = nat

  datatype Space = Stack | Heap | Global

  /** A captured field that needs help when the Block is copied; a captured Block may be null. */
  datatype Capture = ObjectField(o: Addr) | BlockField(b: Option<Addr>) | ByrefField(v: Addr)

  /**
   * What is at an address. `rank` grows from a Block to the Blocks that capture it. `owned` are the
   * captures that a heap Block has references to: all of them, except while it is copied or disposed of.
   * A stack Block owns nothing. The count of an object is the number of its retains.
   */
  datatype Cell =
    | Block(space: Space, count: nat, rank: nat, code: int, caps: seq<Capture>, owned: seq<Capture>)
    | Byref(space: Space, count: nat, forwarding: Addr, variable: int, value: int)
    | Object(count: nat)
    | Gone

  type Cells = seq<Cell>

  function Target(c: Capture): Option<Addr> {
    match c case ObjectField(o) => Some(o) case BlockField(b) => b case ByrefField(v) => Some(v)
  }

  predicate Counted(cell: Cell) {
    match cell
    case Block(space, _, _, _, _, _) => space == Heap
    case Byref(space, _, _, _, _) => space == Heap
    case Object(_) => true
    case Gone => false
  }

  // ---------------------------------------------------------------- owning edges

  ghost function Occurrences(caps: seq<Capture>, x: Addr): nat {
    if caps == [] then 0 else (if Target(caps[0]) == Some(x) then 1 else 0) + Occurrences(caps[1..], x)
  }

  /** The references that the cell at address `i` has to `x`; a moved __block variable keeps its heap cell. */
  ghost function OutTo(cell: Cell, i: Addr, x: Addr): nat {
    match cell
    case Block(Heap, _, _, _, _, owned) => Occurrences(owned, x)
    case Byref(Stack, _, forwarding, _, _) => if forwarding == x != i then 1 else 0
    case _ => 0
  }

  ghost function Edges(cells: Cells, x: Addr): nat {
    if cells == [] then 0
    else Edges(cells[..|cells| - 1], x) + OutTo(cells[|cells| - 1], |cells| - 1, x)
  }

  lemma {:induction false} EdgesUpdate(cells: Cells, i: Addr, cell: Cell, x: Addr)
    requires i < |cells|
    ensures Edges(cells[i := cell], x) == Edges(cells, x) - OutTo(cells[i], i, x) + OutTo(cell, i, x)
  {
    var n := |cells| - 1;
    if i == n {
      assert cells[i := cell][..n] == cells[..n];
    } else {
      EdgesUpdate(cells[..n], i, cell, x);
      assert cells[i := cell][..n] == cells[..n][i := cell];
    }
  }

  lemma EdgesAppend(cells: Cells, cell: Cell, x: Addr)
    ensures Edges(cells + [cell], x) == Edges(cells, x) + OutTo(cell, |cells|, x)
  {
    assert (cells + [cell])[..|cells|] == cells;
  }

  lemma {:induction false} OccurrencesAppend(caps: seq<Capture>, c: Capture, x: Addr)
    ensures Occurrences(caps + [c], x) == Occurrences(caps, x) + (if Target(c) == Some(x) then 1 else 0)
  {
    if caps == [] {
      assert caps + [c] == [c];
    } else {
      OccurrencesAppend(caps[1..], c, x);
      assert (caps + [c])[1..] == caps[1..] + [c];
    }
  }

  /** An edge to `x` comes from some cell. */
  lemma {:induction false} EdgeFrom(cells: Cells, x: Addr) returns (i: Addr)
    requires Edges(cells, x) > 0
    ensures i < |cells| && OutTo(cells[i], i, x) > 0
  {
    i := |cells| - 1;
    if OutTo(cells[i], i, x) == 0 { i := EdgeFrom(cells[..i], x); }
  }

  lemma {:induction false} EdgeCounts(cells: Cells, i: Addr, x: Addr)
    requires i < |cells|
    ensures OutTo(cells[i], i, x) <= Edges(cells, x)
  {
    var n := |cells| - 1;
    if i == n {
    } else {
      EdgeCounts(cells[..n], i, x);
    }
  }

  lemma {:induction false} OccurrenceOf(caps: seq<Capture>, x: Addr) returns (k: nat)
    requires Occurrences(caps, x) > 0
    ensures k < |caps| && Target(caps[k]) == Some(x)
  {
    k := 0;
    if Target(caps[0]) != Some(x) {
      var j := OccurrenceOf(caps[1..], x);
      k := j + 1;
    }
  }

  lemma {:induction false} OccursAt(caps: seq<Capture>, k: nat, x: Addr)
    requires k < |caps| && Target(caps[k]) == Some(x)
    ensures Occurrences(caps, x) > 0
  {
    if k == 0 {
    } else {
      OccursAt(caps[1..], k - 1, x);
    }
  }

  // ---------------------------------------------------------------- invariant

  /** A capture that a heap Block of this rank may own. */
  predicate OwnedOk(cells: Cells, rank: nat, c: Capture) {
    match c
    case ObjectField(o) => o < |cells| && cells[o].Object?
    case BlockField(None) => true
    case BlockField(Some(b)) => b < |cells| && cells[b].Block? && cells[b].space != Stack && cells[b].rank < rank
    case ByrefField(v) => v < |cells| && cells[v].Byref? && cells[v].space == Heap
  }

  /** Forwarding leads, in at most one step, to a cell that forwards to itself. */
  ghost predicate CellOk(cells: Cells, i: Addr)
    requires i < |cells|
  {
    match cells[i]
    case Block(space, count, rank, _, _, owned) =>
      && (space != Heap ==> owned == [] && count == 0)
      && (forall k :: 0 <= k < |owned| ==> OwnedOk(cells, rank, owned[k]))
    case Byref(space, count, f, variable, _) =>
      && space != Global && f < |cells| && cells[f].Byref? && cells[f].forwarding == f && cells[f].variable == variable
      && (f != i ==> space == Stack && cells[f].space == Heap)
      && (space == Heap ==> 1 <= count)
      && (space == Stack ==> count == 0)
    case Object(_) => true
    case Gone => true
  }

  /** A count that has not latched is the number of owning edges and outside references. */
  ghost predicate CountOk(cells: Cells, ext: multiset<Addr>, i: Addr)
    requires i < |cells|
  {
    Counted(cells[i]) ==>
      || (cells[i].count == MASK && !cells[i].Object?)
      || cells[i].count == Edges(cells, i) + ext[i]
  }

  /** All cells of one __block variable forward to the same cell. */
  ghost predicate OneHome(cells: Cells, i: Addr, j: Addr)
    requires i < |cells| && j < |cells|
  {
    cells[i].Byref? && cells[j].Byref? && cells[i].variable == cells[j].variable ==>
      cells[i].forwarding == cells[j].forwarding
  }

  ghost predicate OneHomes(cells: Cells) {
    forall i, j :: 0 <= i < |cells| && 0 <= j < |cells| ==> OneHome(cells, i, j)
  }

  ghost predicate Inv(cells: Cells, ext: multiset<Addr>) {
    && (forall i :: 0 <= i < |cells| ==> CellOk(cells, i))
    && (forall i :: 0 <= i < |cells| ==> CountOk(cells, ext, i))
    && OneHomes(cells)
    && (forall x :: x in ext ==> x < |cells| && Counted(cells[x]))
  }

  // ---------------------------------------------------------------- the elementary changes

  function Latched(count: nat): nat { if count == MASK then MASK else count + 1 }

  function Unlatched(count: nat): nat { if count == MASK || count == 0 then count else count - 1 }

  function WithCount(cell: Cell, count: nat): Cell
    requires !cell.Gone?
  {
    match cell
    case Block(_, _, _, _, _, _) => cell.(count := count)
    case Byref(_, _, _, _, _) => cell.(count := count)
    case Object(_) => Object(count)
  }

  /** The cell at `i` changes its count, captures or value, but not what it is. */
  ghost predicate SameKind(x: Cell, y: Cell) {
    match x
    case Block(space, _, rank, code, _, _) => y.Block? && y.space == space && y.rank == rank && y.code == code
    case Byref(space, _, f, variable, _) => y.Byref? && y.space == space && y.forwarding == f && y.variable == variable
    case Object(_) => y.Object?
    case Gone => y.Gone?
  }

  /** Changing one cell in this way disturbs no other cell. */
  lemma OtherOk(cells: Cells, i: Addr, cell: Cell, j: Addr)
    requires i < |cells| && SameKind(cells[i], cell) && j < |cells| && j != i && CellOk(cells, j)
    ensures CellOk(cells[i := cell], j)
  {
    if cells[j].Block? {
      forall k | 0 <= k < |cells[j].owned| ensures OwnedOk(cells[i := cell], cells[j].rank, cells[j].owned[k]) {
        assert OwnedOk(cells, cells[j].rank, cells[j].owned[k]);
      }
    }
  }

  lemma OneHomeKept(cells: Cells, cells': Cells, i: Addr)
    requires i < |cells| == |cells'| && cells' == cells[i := cells'[i]] && OneHomes(cells)
    requires SameKind(cells[i], cells'[i]) || cells'[i].Gone?
    ensures OneHomes(cells')
  {
    forall k, j | 0 <= k < |cells'| && 0 <= j < |cells'| ensures OneHome(cells', k, j) {
      assert OneHome(cells, k, j);
    }
  }

  /** A change of one cell keeps the invariant if that cell ends well and every count still fits. */
  lemma OneCell(cells: Cells, ext: multiset<Addr>, i: Addr, cell: Cell, ext': multiset<Addr>)
    requires Inv(cells, ext) && i < |cells| && SameKind(cells[i], cell) && CellOk(cells[i := cell], i)
    requires forall j :: 0 <= j < |cells| ==>
               if j == i then CountOk(cells[i := cell], ext', i)
               else Counted(cells[j]) ==> OutTo(cell, i, j) + ext'[j] == OutTo(cells[i], i, j) + ext[j]
    requires forall x :: x in ext' ==> x < |cells| && Counted(cells[x])
    ensures Inv(cells[i := cell], ext')
  {
    var cells' := cells[i := cell];
    forall j | 0 <= j < |cells| ensures CellOk(cells', j) { if j != i { OtherOk(cells, i, cell, j); } }
    OneHomeKept(cells, cells', i);
    forall j | 0 <= j < |cells| ensures CountOk(cells', ext', j) {
      EdgesUpdate(cells, i, cell, j);
      assert CountOk(cells, ext, j);
    }
    assert Counted(cell) == Counted(cells[i]);
  }

  /** One more reference, held outside. */
  lemma Retain(cells: Cells, ext: multiset<Addr>, x: Addr)
    requires Inv(cells, ext) && x < |cells| && Counted(cells[x])
    ensures Inv(cells[x := WithCount(cells[x], if cells[x].Object? then cells[x].count + 1 else Latched(cells[x].count))],
                ext + multiset{x})
  {
    var cell := WithCount(cells[x], if cells[x].Object? then cells[x].count + 1 else Latched(cells[x].count));
    assert CellOk(cells, x) && CountOk(cells, ext, x);
    EdgesUpdate(cells, x, cell, x);
    assert CellOk(cells[x := cell], x) by { SameOwned(cells, x, cell); }
    OneCell(cells, ext, x, cell, ext + multiset{x});
  }

  /** A cell that keeps its owned captures keeps them well. */
  lemma SameOwned(cells: Cells, x: Addr, cell: Cell)
    requires x < |cells| && CellOk(cells, x) && SameKind(cells[x], cell)
    requires cell.Block? ==> cell.owned == cells[x].owned && (cell.space != Heap ==> cell.count == 0)
    requires cell.Byref? && cell.space == Heap ==> cell.count >= 1
    requires cell.Byref? && cell.space == Stack ==> cell.count == 0
    ensures CellOk(cells[x := cell], x)
  {
    if cell.Block? {
      forall k | 0 <= k < |cell.owned| ensures OwnedOk(cells[x := cell], cell.rank, cell.owned[k]) {
        assert OwnedOk(cells, cell.rank, cell.owned[k]);
      }
    }
  }

  /** One reference less of those held outside. */
  lemma Drop(cells: Cells, ext: multiset<Addr>, x: Addr)
    requires Inv(cells, ext) && x in ext && (cells[x].Byref? ==> cells[x].count > 1)
    ensures cells[x].count >= 1
    ensures Inv(cells[x := WithCount(cells[x], if cells[x].Object? then cells[x].count - 1 else Unlatched(cells[x].count))],
                ext - multiset{x})
  {
    assert CellOk(cells, x) && CountOk(cells, ext, x);
    var cell := WithCount(cells[x], if cells[x].Object? then cells[x].count - 1 else Unlatched(cells[x].count));
    EdgesUpdate(cells, x, cell, x);
    SameOwned(cells, x, cell);
    OneCell(cells, ext, x, cell, ext - multiset{x});
  }

  /** A new heap Block, with one reference held outside and nothing owned yet. */
  lemma NewBlock(cells: Cells, ext: multiset<Addr>, cell: Cell)
    requires Inv(cells, ext) && cell.Block? && cell.space == Heap && cell.count == 1 && cell.owned == []
    ensures Inv(cells + [cell], ext + multiset{|cells|})
  {
    EdgeIsAlive(cells, |cells|);
    EdgesAppend(cells, cell, |cells|);
    Append(cells, ext, cell, ext + multiset{|cells|});
  }

  /** Owning edges lead to cells that are counted, or to global Blocks. */
  lemma EdgeIsAlive(cells: Cells, x: Addr)
    requires forall i :: 0 <= i < |cells| ==> CellOk(cells, i)
    ensures Edges(cells, x) > 0 ==> x < |cells| && (Counted(cells[x]) || (cells[x].Block? && cells[x].space == Global))
  {
    if Edges(cells, x) > 0 {
      var i := EdgeFrom(cells, x);
      assert CellOk(cells, i);
      if cells[i].Block? {
        var k := OccurrenceOf(cells[i].owned, x);
        assert OwnedOk(cells, cells[i].rank, cells[i].owned[k]);
      }
    }
  }

  /** A cell is added to the end; no count but its own can change. */
  lemma Append(cells: Cells, ext: multiset<Addr>, cell: Cell, ext': multiset<Addr>)
    requires Inv(cells, ext) && CellOk(cells + [cell], |cells|) && CountOk(cells + [cell], ext', |cells|)
    requires forall j :: 0 <= j < |cells| && Counted(cells[j]) ==> OutTo(cell, |cells|, j) + ext'[j] == ext[j]
    requires forall x :: x in ext' ==> x <= |cells| && Counted((cells + [cell])[x])
    requires cell.Byref? ==> forall i :: 0 <= i < |cells| ==> OneHome(cells + [cell], i, |cells|)
    ensures Inv(cells + [cell], ext')
  {
    var cells' := cells + [cell];
    forall j | 0 <= j < |cells'| ensures CellOk(cells', j) { if j < |cells| { OldOk(cells, cell, j); } }
    forall j | 0 <= j < |cells'| ensures CountOk(cells', ext', j) {
      if j < |cells| {
        EdgesAppend(cells, cell, j);
        assert CountOk(cells, ext, j);
      }
    }
    forall k, j | 0 <= k < |cells'| && 0 <= j < |cells'| ensures OneHome(cells', k, j) {
      if k < |cells| && j < |cells| { assert OneHome(cells, k, j); }
      else if cell.Byref? && k < |cells| { assert OneHome(cells', k, |cells|); }
      else if cell.Byref? && j < |cells| { assert OneHome(cells', j, |cells|); }
    }
  }

  lemma OldOk(cells: Cells, cell: Cell, j: Addr)
    requires j < |cells| && CellOk(cells, j)
    ensures CellOk(cells + [cell], j)
  {
    if cells[j].Block? {
      forall k | 0 <= k < |cells[j].owned| ensures OwnedOk(cells + [cell], cells[j].rank, cells[j].owned[k]) {
        assert OwnedOk(cells, cells[j].rank, cells[j].owned[k]);
      }
    }
  }

  ghost function Outside(cells: Cells, c: Capture): multiset<Addr> {
    if Target(c).Some? && Target(c).value < |cells| && Counted(cells[Target(c).value]) then multiset{Target(c).value}
    else multiset{}
  }

  /** Outside references become the references of a heap Block being copied. */
  lemma Adopt(cells: Cells, ext: multiset<Addr>, b: Addr, caps: seq<Capture>, c: Capture)
    requires Inv(cells, ext) && b < |cells| && cells[b].Block? && cells[b].space == Heap
    requires OwnedOk(cells, cells[b].rank, c) && Outside(cells, c) <= ext && Target(c) != Some(b)
    ensures Inv(cells[b := cells[b].(caps := caps, owned := cells[b].owned + [c])], ext - Outside(cells, c))
  {
    var cell := cells[b].(caps := caps, owned := cells[b].owned + [c]);
    var cells', ext' := cells[b := cell], ext - Outside(cells, c);
    assert CellOk(cells, b) && CountOk(cells, ext, b);
    forall k | 0 <= k < |cell.owned| ensures OwnedOk(cells', cell.rank, cell.owned[k]) {
      assert k < |cells[b].owned| ==> OwnedOk(cells, cell.rank, cells[b].owned[k]);
    }
    forall j | 0 <= j < |cells|
      ensures if j == b then CountOk(cells', ext', b)
              else Counted(cells[j]) ==> OutTo(cell, b, j) + ext'[j] == OutTo(cells[b], b, j) + ext[j]
    {
      OccurrencesAppend(cells[b].owned, c, j);
      EdgesUpdate(cells, b, cell, j);
    }
    OneCell(cells, ext, b, cell, ext');
  }

  /** A reference of a Block being disposed of becomes an outside reference. */
  lemma Disown(cells: Cells, ext: multiset<Addr>, b: Addr)
    requires Inv(cells, ext) && b < |cells| && cells[b].Block? && cells[b].space == Heap && cells[b].owned != []
    ensures var c := cells[b].owned[0];
            && OwnedOk(cells, cells[b].rank, c) && Target(c) != Some(b)
            && Inv(cells[b := cells[b].(owned := cells[b].owned[1..])], ext + Outside(cells, c))
  {
    var c := cells[b].owned[0];
    var cell := cells[b].(owned := cells[b].owned[1..]);
    var cells', ext' := cells[b := cell], ext + Outside(cells, c);
    assert CellOk(cells, b) && CountOk(cells, ext, b) && OwnedOk(cells, cells[b].rank, c);
    forall k | 0 <= k < |cell.owned| ensures OwnedOk(cells', cell.rank, cell.owned[k]) {
      assert OwnedOk(cells, cell.rank, cells[b].owned[k + 1]);
    }
    EdgesUpdate(cells, b, cell, b);
    OneCell(cells, ext, b, cell, ext');
  }

  /** A heap cell without owners goes away, and with it the outside references to it. */
  lemma Free(cells: Cells, ext: multiset<Addr>, x: Addr, ext': multiset<Addr>)
    requires Inv(cells, ext) && x < |cells| && Counted(cells[x]) && !cells[x].Object?
    requires Edges(cells, x) == 0 && (cells[x].Block? ==> cells[x].owned == [])
    requires ext'[x] == 0 && forall j :: j != x ==> ext'[j] == ext[j]
    ensures Inv(cells[x := Gone], ext')
  {
    var cells' := cells[x := Gone];
    assert CellOk(cells, x);
    forall j | 0 <= j < |cells'| ensures CellOk(cells', j) { if j != x { NotOwner(cells, x, j); } }
    forall j | 0 <= j < |cells'| ensures CountOk(cells', ext', j) {
      EdgesUpdate(cells, x, Gone, j);
      assert CountOk(cells, ext, j);
    }
    OneHomeKept(cells, cells', x);
  }

  lemma NotOwner(cells: Cells, x: Addr, j: Addr)
    requires x < |cells| && j < |cells| && j != x && CellOk(cells, j) && Edges(cells, x) == 0 && Counted(cells[x])
    ensures CellOk(cells[x := Gone], j)
  {
    EdgeCounts(cells, j, x);
    if cells[j].Block? && cells[j].space == Heap {
      forall k | 0 <= k < |cells[j].owned| ensures OwnedOk(cells[x := Gone], cells[j].rank, cells[j].owned[k]) {
        assert OwnedOk(cells, cells[j].rank, cells[j].owned[k]);
        if Target(cells[j].owned[k]) == Some(x) { OccursAt(cells[j].owned, k, x); }
      }
    }
  }

  /** A stack __block variable moves to the heap: one reference for the frame, one held outside. */
  lemma MoveToHeap(cells: Cells, ext: multiset<Addr>, v: Addr)
    requires Inv(cells, ext) && v < |cells| && cells[v].Byref? && cells[v].space == Stack && cells[v].forwarding == v
    ensures Inv(cells[v := cells[v].(forwarding := |cells|)] + [cells[v].(space := Heap, count := 2, forwarding := |cells|)],
                ext + multiset{|cells|})
  {
    var n := |cells|;
    var home := cells[v].(forwarding := n);
    var copy := cells[v].(space := Heap, count := 2, forwarding := n);
    var cells' := cells[v := home] + [copy];
    assert CellOk(cells, v);
    forall j | 0 <= j < |cells'| ensures CellOk(cells', j) {
      if j < n && j != v {
        assert CellOk(cells, j) && OneHome(cells, j, v);
        if cells[j].Block? {
          forall k | 0 <= k < |cells[j].owned| ensures OwnedOk(cells', cells[j].rank, cells[j].owned[k]) {
            assert OwnedOk(cells, cells[j].rank, cells[j].owned[k]);
          }
        }
      }
    }
    forall j | 0 <= j < |cells'| ensures CountOk(cells', ext + multiset{n}, j) {
      EdgesUpdate(cells, v, home, j);
      EdgesAppend(cells[v := home], copy, j);
      if j < n { assert CountOk(cells, ext, j); } else { EdgeIsAlive(cells, n); }
    }
    forall i, j | 0 <= i < |cells'| && 0 <= j < |cells'| ensures OneHome(cells', i, j) {
      OnlyHome(cells, v, i);
      OnlyHome(cells, v, j);
      if i < n && j < n { assert OneHome(cells, i, j); }
    }
  }

  /** Before it moves, a __block variable has no cell but the one on the stack. */
  lemma OnlyHome(cells: Cells, v: Addr, i: Addr)
    requires v < |cells| && cells[v].Byref? && cells[v].space == Stack && cells[v].forwarding == v
    requires OneHomes(cells) && forall j :: 0 <= j < |cells| ==> CellOk(cells, j)
    ensures i < |cells| && cells[i].Byref? && cells[i].variable == cells[v].variable ==> i == v
  {
    if i < |cells| { assert OneHome(cells, i, v) && CellOk(cells, i); }
  }

  /** The frame of a __block variable ends; a moved one leaves its reference to the caller. */
  lemma LeaveHome(cells: Cells, ext: multiset<Addr>, v: Addr)
    requires Inv(cells, ext) && v < |cells| && cells[v].Byref? && cells[v].space == Stack
    ensures var f := cells[v].forwarding;
            Inv(cells[v := Gone], if f == v then ext else ext + multiset{f})
  {
    var f := cells[v].forwarding;
    var cells', ext' := cells[v := Gone], if f == v then ext else ext + multiset{f};
    assert CellOk(cells, v);
    forall j | 0 <= j < |cells'| ensures CellOk(cells', j) {
      assert CellOk(cells, j);
      if cells[j].Block? {
        forall k | 0 <= k < |cells[j].owned| ensures OwnedOk(cells', cells[j].rank, cells[j].owned[k]) {
          assert OwnedOk(cells, cells[j].rank, cells[j].owned[k]);
        }
      }
    }
    forall j | 0 <= j < |cells'| ensures CountOk(cells', ext', j) {
      EdgesUpdate(cells, v, Gone, j);
      assert CountOk(cells, ext, j);
    }
    OneHomeKept(cells, cells', v);
  }
}
