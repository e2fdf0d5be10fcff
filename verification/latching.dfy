/**
 * The reference count of one heap Block: the low 16 bits of its flags word, which any number of threads
 * change by load and compare-and-swap. A thread copies and releases through references that it holds.
 */
module Latching {
  type Tid = nat

  const MASK: int := 0xffff

  function Low(word: int): int { word % 0x1_0000 }

  function High(word: int): int { word / 0x1_0000 }

  /** Where a thread is inside _Block_copy or _Block_release. */
  datatype Pc =
    | Idle
    | CopyLoad | CopySwap(seen: int)        // latching_incr_int, before the load and before the swap
    | ReleaseLoad | ReleaseSwap(seen: int)  // latching_decr_int
    | HitZero                              // the new count is 0: dispose and free come next

  datatype Shared = Shared(word: int, held: seq<nat>, pcs: seq<Pc>, frees: nat)

  datatype Action = StartCopy | StartRelease | Hand(to: Tid) | Continue

  ghost predicate WellFormed(s: Shared) { |s.held| == |s.pcs| }

  function Move(s: Shared, t: Tid, pc: Pc): Shared
    requires t < |s.pcs|
  {
    s.(pcs := s.pcs[t := pc])
  }

  function Gain(s: Shared, t: Tid): Shared
    requires t < |s.held|
  {
    s.(held := s.held[t := s.held[t] + 1])
  }

  function Lose(s: Shared, t: Tid): Shared
    requires t < |s.held|
  {
    s.(held := s.held[t := if s.held[t] == 0 then 0 else s.held[t] - 1])
  }

  function Step(s: Shared, t: Tid, a: Action): Shared
    requires WellFormed(s)
  {
    if t >= |s.pcs| then s
    else
      match a
      case StartCopy => if s.pcs[t] != Idle || s.held[t] == 0 then s else Move(s, t, CopyLoad)
      case StartRelease => if s.pcs[t] != Idle || s.held[t] == 0 then s else Move(s, t, ReleaseLoad)
      case Hand(u) => if s.pcs[t] != Idle || s.held[t] == 0 || u >= |s.pcs| || u == t then s else Gain(Lose(s, t), u)
      case Continue => Resume(s, t)
  }

  function Resume(s: Shared, t: Tid): Shared
    requires WellFormed(s) && t < |s.pcs|
  {
    match s.pcs[t]
    case Idle => s
    case CopyLoad =>
      if Low(s.word) == MASK then Gain(Move(s, t, Idle), t) else Move(s, t, CopySwap(s.word))
    case CopySwap(seen) =>
      if s.word == seen then Gain(Move(s.(word := seen + 1), t, Idle), t) else Move(s, t, CopyLoad)
    case ReleaseLoad =>
      if Low(s.word) == MASK then Lose(Move(s, t, Idle), t)
      else if Low(s.word) == 0 then Lose(Move(s, t, HitZero), t)
      else Move(s, t, ReleaseSwap(s.word))
    case ReleaseSwap(seen) =>
      if s.word != seen then Move(s, t, ReleaseLoad)
      else Lose(Move(s.(word := seen - 1), t, if Low(seen - 1) == 0 then HitZero else Idle), t)
    case HitZero => Move(s.(frees := s.frees + 1), t, Idle)
  }

  function Run(s: Shared, actions: seq<(Tid, Action)>): (r: Shared)
    requires WellFormed(s)
    ensures WellFormed(r) && |r.pcs| == |s.pcs|
  {
    if actions == [] then s
    else
      var last := actions[|actions| - 1];
      Step(Run(s, actions[..|actions| - 1]), last.0, last.1)
  }

  ghost function Sum(held: seq<nat>): nat {
    if held == [] then 0 else Sum(held[..|held| - 1]) + held[|held| - 1]
  }

  /** One thread holds the reference that _Block_copy of a stack Block returned. */
  ghost predicate Initial(s: Shared) {
    && WellFormed(s) && Sum(s.held) == 1 && Low(s.word) == 1 && s.frees == 0
    && forall t :: 0 <= t < |s.pcs| ==> s.pcs[t] == Idle
  }

  // ---------------------------------------------------------------- invariant

  ghost predicate ThreadOk(s: Shared, t: Tid)
    requires WellFormed(s) && t < |s.pcs|
  {
    match s.pcs[t]
    case Idle => true
    case CopyLoad => s.held[t] >= 1
    case CopySwap(seen) => s.held[t] >= 1 && Low(seen) != MASK
    case ReleaseLoad => s.held[t] >= 1
    case ReleaseSwap(seen) => s.held[t] >= 1 && Low(seen) != MASK && Low(seen) != 0
    case HitZero => true
  }

  ghost predicate SomeHitZero(s: Shared) { exists t :: 0 <= t < |s.pcs| && s.pcs[t] == HitZero }

  ghost predicate Inv(s: Shared) {
    && WellFormed(s)
    && (forall t :: 0 <= t < |s.pcs| ==> ThreadOk(s, t))
    && (forall t, u :: 0 <= t < u < |s.pcs| ==> s.pcs[t] != HitZero || s.pcs[u] != HitZero)
    && s.frees <= 1 && (s.frees == 1 ==> !SomeHitZero(s))
    && if s.frees == 1 || SomeHitZero(s) then Low(s.word) == 0 == Sum(s.held)
       else Low(s.word) == MASK || Low(s.word) == Sum(s.held) > 0
  }

  lemma {:induction false} SumUpdate(held: seq<nat>, t: Tid, n: nat)
    requires t < |held|
    ensures Sum(held[t := n]) == Sum(held) - held[t] + n
  {
    var m := |held| - 1;
    if t == m {
      assert held[t := n][..m] == held[..m];
    } else {
      SumUpdate(held[..m], t, n);
      assert held[t := n][..m] == held[..m][t := n];
    }
  }

  lemma HeldInSum(held: seq<nat>, t: Tid)
    requires t < |held|
    ensures held[t] <= Sum(held)
  {
    SumUpdate(held, t, 0);
  }

  lemma NextWord(word: int)
    ensures Low(word) != MASK ==> Low(word + 1) == Low(word) + 1 && High(word + 1) == High(word)
    ensures Low(word) != 0 ==> Low(word - 1) == Low(word) - 1 && High(word - 1) == High(word)
  {
  }

  lemma HandSum(held: seq<nat>, t: Tid, u: Tid)
    requires t < |held| && u < |held| && u != t && held[t] > 0
    ensures Sum(held[t := held[t] - 1][u := held[u] + 1]) == Sum(held)
  {
    SumUpdate(held, t, held[t] - 1);
    SumUpdate(held[t := held[t] - 1], u, held[u] + 1);
  }

  lemma HandKeeps(s: Shared, t: Tid, u: Tid)
    requires Inv(s) && t < |s.pcs| && u < |s.pcs| && u != t && s.pcs[t] == Idle && s.held[t] > 0
    ensures Inv(Gain(Lose(s, t), u))
  {
    var s' := Gain(Lose(s, t), u);
    HandSum(s.held, t, u);
    assert s'.pcs == s.pcs && s'.word == s.word && s'.frees == s.frees && Sum(s'.held) == Sum(s.held);
    forall v | 0 <= v < |s.pcs| ensures ThreadOk(s', v) { assert ThreadOk(s, v); }
  }

  /** A step that changes nothing but where thread `t` is, and not to or from HitZero. */
  lemma MoveKeeps(s: Shared, t: Tid, pc: Pc)
    requires Inv(s) && t < |s.pcs| && pc != HitZero && s.pcs[t] != HitZero && ThreadOk(Move(s, t, pc), t)
    ensures Inv(Move(s, t, pc))
  {
    var s' := Move(s, t, pc);
    forall u | 0 <= u < |s.pcs| ensures ThreadOk(s', u) { assert ThreadOk(s, u); }
    if SomeHitZero(s) {
      var u :| 0 <= u < |s.pcs| && s.pcs[u] == HitZero;
      assert s'.pcs[u] == HitZero;
    }
  }

  /** The end of a copy or of a release: the word and the references change by one together. */
  lemma FinishKeeps(s: Shared, s': Shared, t: Tid, n: nat, pc: Pc)
    requires Inv(s) && t < |s.pcs| && s.held[t] >= 1 && s.pcs[t] != HitZero && s.frees == 0 && !SomeHitZero(s)
    requires s' == s.(word := s'.word, held := s.held[t := n], pcs := s.pcs[t := pc]) && pc in {Idle, HitZero}
    requires if pc == HitZero then Low(s'.word) == 0 == Sum(s'.held)
             else Low(s'.word) == MASK || Low(s'.word) == Sum(s'.held) > 0
    ensures Inv(s')
  {
    forall u | 0 <= u < |s.pcs| ensures ThreadOk(s', u) { assert ThreadOk(s, u); }
    assert pc == HitZero ==> s'.pcs[t] == HitZero;
  }

  lemma CopyKeeps(s: Shared, t: Tid)
    requires Inv(s) && t < |s.pcs| && (s.pcs[t].CopyLoad? || s.pcs[t].CopySwap?)
    ensures Inv(Resume(s, t)) && High(Resume(s, t).word) == High(s.word)
    ensures Low(s.word) == MASK ==> Low(Resume(s, t).word) == MASK
  {
    assert ThreadOk(s, t);
    NextWord(s.word);
    HeldInSum(s.held, t);
    SumUpdate(s.held, t, s.held[t] + 1);
    if s.pcs[t].CopyLoad? && Low(s.word) != MASK { MoveKeeps(s, t, CopySwap(s.word)); }
    else if s.pcs[t].CopySwap? && s.word != s.pcs[t].seen { MoveKeeps(s, t, CopyLoad); }
    else { FinishKeeps(s, Resume(s, t), t, s.held[t] + 1, Idle); }
  }

  lemma ReleaseKeeps(s: Shared, t: Tid)
    requires Inv(s) && t < |s.pcs| && (s.pcs[t].ReleaseLoad? || s.pcs[t].ReleaseSwap?)
    ensures Inv(Resume(s, t)) && High(Resume(s, t).word) == High(s.word)
    ensures Low(s.word) == MASK ==> Low(Resume(s, t).word) == MASK
  {
    assert ThreadOk(s, t);
    NextWord(s.word);
    HeldInSum(s.held, t);
    SumUpdate(s.held, t, s.held[t] - 1);
    if s.pcs[t].ReleaseLoad? && Low(s.word) != MASK { MoveKeeps(s, t, ReleaseSwap(s.word)); }
    else if s.pcs[t].ReleaseSwap? && s.word != s.pcs[t].seen { MoveKeeps(s, t, ReleaseLoad); }
    else { FinishKeeps(s, Resume(s, t), t, s.held[t] - 1, Resume(s, t).pcs[t]); }
  }

  lemma FreeKeeps(s: Shared, t: Tid)
    requires Inv(s) && t < |s.pcs| && s.pcs[t] == HitZero
    ensures Inv(Move(s.(frees := s.frees + 1), t, Idle)) && s.frees == 0
  {
    var s' := Move(s.(frees := s.frees + 1), t, Idle);
    assert SomeHitZero(s);
    forall u | 0 <= u < |s.pcs| ensures ThreadOk(s', u) { assert ThreadOk(s, u); }
  }

  lemma StepKeeps(s: Shared, t: Tid, a: Action)
    requires Inv(s)
    ensures Inv(Step(s, t, a)) && High(Step(s, t, a).word) == High(s.word)
    ensures Low(s.word) == MASK ==> Low(Step(s, t, a).word) == MASK
  {
    if t < |s.pcs| {
      match a
      case StartCopy => if s.pcs[t] == Idle && s.held[t] > 0 { MoveKeeps(s, t, CopyLoad); }
      case StartRelease => if s.pcs[t] == Idle && s.held[t] > 0 { MoveKeeps(s, t, ReleaseLoad); }
      case Hand(u) => if s.pcs[t] == Idle && s.held[t] > 0 && u < |s.pcs| && u != t { HandKeeps(s, t, u); }
      case Continue =>
        match s.pcs[t]
        case Idle =>
        case CopyLoad => CopyKeeps(s, t);
        case CopySwap(_) => CopyKeeps(s, t);
        case ReleaseLoad => ReleaseKeeps(s, t);
        case ReleaseSwap(_) => ReleaseKeeps(s, t);
        case HitZero => FreeKeeps(s, t);
    }
  }

  /**
   * Over every interleaving the count is the number of references held until it latches, the upper flag
   * bits never change, and dispose and free happen at most once, without references and never latched.
   */
  lemma {:induction false} CountIsReferences(s: Shared, actions: seq<(Tid, Action)>)
    requires Initial(s)
    ensures var r := Run(s, actions);
            && Inv(r) && High(r.word) == High(s.word)
            && (Low(r.word) == MASK || Low(r.word) == Sum(r.held))
            && r.frees <= 1 && (r.frees == 1 || SomeHitZero(r) ==> Low(r.word) == 0 == Sum(r.held))
            && (r.frees == 1 || SomeHitZero(r) || Low(r.word) == MASK || Sum(r.held) > 0)
  {
    if actions == [] {
    } else {
      var n := |actions| - 1;
      CountIsReferences(s, actions[..n]);
      StepKeeps(Run(s, actions[..n]), actions[n].0, actions[n].1);
    }
  }

  /** Once latched, always latched, and never freed. */
  lemma {:induction false} LatchedForever(s: Shared, actions: seq<(Tid, Action)>)
    requires Inv(s) && Low(s.word) == MASK
    ensures Inv(Run(s, actions)) && Low(Run(s, actions).word) == MASK && Run(s, actions).frees == 0
  {
    if actions == [] {
    } else {
      var n := |actions| - 1;
      LatchedForever(s, actions[..n]);
      StepKeeps(Run(s, actions[..n]), actions[n].0, actions[n].1);
    }
  }
}
