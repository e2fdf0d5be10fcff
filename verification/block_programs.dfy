/** Whole runs of programs that use Blocks. */
module BlockPrograms {
  import opened Memory
  import opened BlockGraph
  import opened BlockCopies
  import opened BlockRuntime

  /** What a program does next. */
  datatype Op =
    | Declare(variable: int, value: int)
    | Write(v: Addr, value: int)
    | Leave(v: Addr)
    | NewObject
    | DropObject(o: Addr)
    | Literal(code: int, caps: seq<Capture>, rank: nat)
    | Pop(b: Addr)
    | Copy(a: Option<Addr>)
    | Release(a: Option<Addr>)

  /**
   * Runs any script of operations. A step that the rules of the language forbid at that point does not
   * happen: the program releases only what it holds, copies only Blocks whose captures are there, and
   * leaves a scope once. `held` are the references the program holds at the end, and `values` the values
   * it has last written to its variables.
   */
  method RunProgram(script: seq<Op>) returns (r: Runtime, held: multiset<Addr>, values: map<int, int>)
    ensures r.Valid() && held == r.ext
    ensures forall i :: 0 <= i < |r.cells| && r.cells[i].Byref? ==>
              && HasForwarding(r.cells, i) && r.cells[i].variable in values
              && ReadVariable(r.cells, i) == values[r.cells[i].variable]
    ensures held == multiset{} && (forall i :: 0 <= i < |r.cells| && r.cells[i].Byref? ==> r.cells[i].space == Heap) ==>
              && ((forall i :: 0 <= i < |r.cells| ==> !OnHeap(r.cells[i])) <==> NoneLatched(r.cells))
              && (NoneLatched(r.cells) ==> forall i :: 0 <= i < |r.cells| && r.cells[i].Object? ==> r.cells[i].count == 0)
  {
    r := new Runtime();
    held, values := multiset{}, map[];
    for i := 0 to |script|
      invariant fresh(r) && r.Valid() && held == r.ext && values == r.store
    {
      held, values := Perform(r, script[i], held, values);
    }
    if held == multiset{} && forall i :: 0 <= i < |r.cells| && r.cells[i].Byref? ==> r.cells[i].space == Heap {
      NothingLeaks(r.cells, r.ext);
    }
  }

  method Perform(r: Runtime, op: Op, held: multiset<Addr>, values: map<int, int>)
    returns (held': multiset<Addr>, values': map<int, int>)
    requires r.Valid() && held == r.ext && values == r.store
    modifies r
    ensures r.Valid() && held' == r.ext && values' == r.store
  {
    held', values' := held, values;
    match op {
      case Declare(variable, value) =>
        if variable !in values {
          var v := r.DeclareVariable(variable, value);
          values' := values[variable := value];
        }
      case Write(v, value) =>
        if v < |r.cells| && r.cells[v].Byref? {
          values' := values[r.cells[v].variable := value];
          r.WriteVariable(v, value);
        }
      case Leave(v) =>
        if v < |r.cells| && r.cells[v].Byref? && r.cells[v].space == Stack { r.LeaveScope(v); }
      case NewObject =>
        var o := r.MakeObject();
        held' := held + multiset{o};
      case DropObject(o) =>
        if o in held && o < |r.cells| && r.cells[o].Object? { held' := Drop(r, o, held); }
      case Literal(code, caps, rank) =>
        if forall k :: 0 <= k < |caps| ==> Alive(r.cells, rank, caps[k]) { var b := r.MakeBlock(code, caps, rank); }
      case Pop(b) =>
        if b < |r.cells| && r.cells[b].Block? && r.cells[b].space == Stack { r.PopBlock(b); }
      case Copy(a) =>
        if a.None? || Intact(r.cells, a.value) {
          var c := r.BlockCopy(a);
          held' := if c.Some? && r.cells[c.value].space == Heap then held + multiset{c.value} else held;
        }
      case Release(a) =>
        if a.Some? && a.value < |r.cells| && r.cells[a.value].Block? && (r.cells[a.value].space != Heap || a.value in held) {
          held' := if r.cells[a.value].space == Heap then held - multiset{a.value} else held;
          r.BlockRelease(a);
        }
    }
  }

  method Drop(r: Runtime, o: Addr, held: multiset<Addr>) returns (held': multiset<Addr>)
    requires r.Valid() && held == r.ext && o in held && o < |r.cells| && r.cells[o].Object?
    modifies r`cells, r`ext
    ensures r.Valid() && held' == r.ext == held - multiset{o}
  {
    ghost var before := r.cells;
    r.ReleaseObject(o, 0);
    ShrunkAllSettled(before, r.cells, 0);
    held' := held - multiset{o};
  }
}
