/** Allocator statistics of all threads against the chunks that exist. */
module Accounting {
  import opened HeapState

  /** The AsanStats counters that follow a chunk's life; they only ever grow. */
  datatype Stats = Stats(mallocs: int, malloced: int, frees: int, freed: int, realFrees: int, reallyFreed: int)

  function AddStats(x: Stats, y: Stats): Stats {
    Stats(x.mallocs + y.mallocs, x.malloced + y.malloced, x.frees + y.frees, x.freed + y.freed,
          x.realFrees + y.realFrees, x.reallyFreed + y.reallyFreed)
  }

  /** The sum over all threads. */
  ghost function Total(stats: seq<Stats>): Stats {
    if stats == [] then Stats(0, 0, 0, 0, 0, 0) else AddStats(Total(stats[..|stats| - 1]), stats[|stats| - 1])
  }

  lemma {:induction false} TotalUpdate(stats: seq<Stats>, i: nat, delta: Stats)
    requires i < |stats|
    ensures Total(stats[i := AddStats(stats[i], delta)]) == AddStats(Total(stats), delta)
  {
    var n := |stats| - 1;
    var s' := stats[i := AddStats(stats[i], delta)];
    if i == n {
      assert s'[..n] == stats[..n];
    } else {
      TotalUpdate(stats[..n], i, delta);
      assert s'[..n] == stats[..n][i := AddStats(stats[i], delta)];
    }
  }

  /** A chunk counts once, or with its size, towards the total of its state. */
  ghost function Weight(c: Chunk, s: State, bytes: bool): nat {
    if c.state != s then 0 else if bytes then c.Size() else 1
  }

  ghost function Pick<T>(keys: set<T>): (b: T)
    requires keys != {}
    ensures b in keys
  {
    var b :| b in keys; b
  }

  ghost function Sum(chunks: map<int, Chunk>, s: State, bytes: bool): nat {
    if chunks.Keys == {} then 0 else
      var b := Pick(chunks.Keys);
      Weight(chunks[b], s, bytes) + Sum(chunks - {b}, s, bytes)
  }

  lemma {:induction false} SumPick(chunks: map<int, Chunk>, s: State, bytes: bool, b: int)
    requires b in chunks
    ensures Sum(chunks, s, bytes) == Weight(chunks[b], s, bytes) + Sum(chunks - {b}, s, bytes)
    decreases |chunks|
  {
    var c := Pick(chunks.Keys);
    if b == c {
    } else {
      assert |chunks - {c}| < |chunks| && |chunks - {b}| < |chunks| by {
        assert (chunks - {c}).Keys == chunks.Keys - {c} && (chunks - {b}).Keys == chunks.Keys - {b};
      }
      SumPick(chunks - {c}, s, bytes, b);
      SumPick(chunks - {b}, s, bytes, c);
      assert chunks - {c} - {b} == chunks - {b} - {c};
    }
  }

  lemma SumPut(chunks: map<int, Chunk>, s: State, bytes: bool, b: int, c: Chunk)
    ensures Sum(chunks[b := c], s, bytes) ==
            Sum(chunks, s, bytes) - (if b in chunks then Weight(chunks[b], s, bytes) else 0) + Weight(c, s, bytes)
  {
    SumPick(chunks[b := c], s, bytes, b);
    assert chunks[b := c] - {b} == chunks - {b};
    if b in chunks {
      SumPick(chunks, s, bytes, b);
    } else {
      assert chunks - {b} == chunks;
    }
  }

  /** The books balance: live and quarantined chunks are what the counters say they are. */
  ghost predicate Balanced(stats: seq<Stats>, chunks: map<int, Chunk>) {
    var t := Total(stats);
    && t.mallocs - t.frees == Sum(chunks, Allocated, false)
    && t.malloced - t.freed == Sum(chunks, Allocated, true)
    && t.frees - t.realFrees == Sum(chunks, Quarantined, false)
    && t.freed - t.reallyFreed == Sum(chunks, Quarantined, true)
  }

  lemma SumPutAll(chunks: map<int, Chunk>, b: int, c: Chunk)
    ensures forall s, bytes :: Sum(chunks[b := c], s, bytes) ==
              Sum(chunks, s, bytes) - (if b in chunks then Weight(chunks[b], s, bytes) else 0) + Weight(c, s, bytes)
  {
    forall s, bytes { SumPut(chunks, s, bytes, b, c); }
  }

  lemma BalancedMalloc(stats: seq<Stats>, chunks: map<int, Chunk>, i: nat, b: int, c: Chunk)
    requires Balanced(stats, chunks) && i < |stats| && b !in chunks && c.state == Allocated
    ensures Balanced(stats[i := AddStats(stats[i], Stats(1, c.Size(), 0, 0, 0, 0))], chunks[b := c])
  {
    TotalUpdate(stats, i, Stats(1, c.Size(), 0, 0, 0, 0));
    SumPutAll(chunks, b, c);
  }

  lemma BalancedFree(stats: seq<Stats>, chunks: map<int, Chunk>, i: nat, b: int, c: Chunk)
    requires Balanced(stats, chunks) && i < |stats| && b in chunks && chunks[b].state == Allocated
    requires c.state == Quarantined && c.Size() == chunks[b].Size()
    ensures Balanced(stats[i := AddStats(stats[i], Stats(0, 0, 1, c.Size(), 0, 0))], chunks[b := c])
  {
    TotalUpdate(stats, i, Stats(0, 0, 1, c.Size(), 0, 0));
    SumPutAll(chunks, b, c);
  }

  lemma BalancedRecycle(stats: seq<Stats>, chunks: map<int, Chunk>, i: nat, b: int)
    requires Balanced(stats, chunks) && i < |stats| && b in chunks && chunks[b].state == Quarantined
    ensures Balanced(stats[i := AddStats(stats[i], Stats(0, 0, 0, 0, 1, chunks[b].Size()))], chunks - {b})
  {
    TotalUpdate(stats, i, Stats(0, 0, 0, 0, 1, chunks[b].Size()));
    forall s, bytes { SumPick(chunks, s, bytes, b); }
    assert Sum(chunks, Allocated, false) == Weight(chunks[b], Allocated, false) + Sum(chunks - {b}, Allocated, false);
  }

  // ---------------------------------------------------------------- quarantine

  ghost function Holds(c: Chunk, m: int): nat {
    if c.state == Quarantined && c.Header() == m then 1 else 0
  }

  /** The number of quarantined chunks whose header is `m`. */
  ghost function Held(chunks: map<int, Chunk>, m: int): nat {
    if chunks.Keys == {} then 0 else
      var b := Pick(chunks.Keys);
      Holds(chunks[b], m) + Held(chunks - {b}, m)
  }

  /** The quarantine holds every quarantined chunk once, and nothing else. */
  ghost predicate QuarantineOk(bag: multiset<int>, chunks: map<int, Chunk>) {
    forall m :: bag[m] == Held(chunks, m)
  }

  lemma {:induction false} HeldPick(chunks: map<int, Chunk>, m: int, b: int)
    requires b in chunks
    ensures Held(chunks, m) == Holds(chunks[b], m) + Held(chunks - {b}, m)
    decreases |chunks|
  {
    var c := Pick(chunks.Keys);
    if b == c {
    } else {
      assert |chunks - {c}| < |chunks| && |chunks - {b}| < |chunks| by {
        assert (chunks - {c}).Keys == chunks.Keys - {c} && (chunks - {b}).Keys == chunks.Keys - {b};
      }
      HeldPick(chunks - {c}, m, b);
      HeldPick(chunks - {b}, m, c);
      assert chunks - {c} - {b} == chunks - {b} - {c};
    }
  }

  lemma HeldPut(chunks: map<int, Chunk>, m: int, b: int, c: Chunk)
    ensures Held(chunks[b := c], m) ==
            Held(chunks, m) - (if b in chunks then Holds(chunks[b], m) else 0) + Holds(c, m)
  {
    HeldPick(chunks[b := c], m, b);
    assert chunks[b := c] - {b} == chunks - {b};
    if b in chunks {
      HeldPick(chunks, m, b);
    } else {
      assert chunks - {b} == chunks;
    }
  }

  lemma QuarantineMalloc(bag: multiset<int>, chunks: map<int, Chunk>, b: int, c: Chunk)
    requires QuarantineOk(bag, chunks) && b !in chunks && c.state == Allocated
    ensures QuarantineOk(bag, chunks[b := c])
  {
    forall m ensures bag[m] == Held(chunks[b := c], m) { HeldPut(chunks, m, b, c); }
  }

  lemma QuarantineFree(bag: multiset<int>, chunks: map<int, Chunk>, b: int, c: Chunk)
    requires QuarantineOk(bag, chunks) && b in chunks && chunks[b].state == Allocated && c.state == Quarantined
    ensures QuarantineOk(bag + multiset{c.Header()}, chunks[b := c])
  {
    forall m ensures (bag + multiset{c.Header()})[m] == Held(chunks[b := c], m) { HeldPut(chunks, m, b, c); }
  }

  lemma QuarantineRecycle(bag: multiset<int>, chunks: map<int, Chunk>, b: int)
    requires QuarantineOk(bag, chunks) && b in chunks && chunks[b].state == Quarantined
    ensures QuarantineOk(bag - multiset{chunks[b].Header()}, chunks - {b})
  {
    forall m ensures (bag - multiset{chunks[b].Header()})[m] == Held(chunks - {b}, m) { HeldPick(chunks, m, b); }
  }

  /** Every member of the quarantine is the header of a quarantined chunk. */
  lemma {:induction false} HeldMember(chunks: map<int, Chunk>, m: int) returns (b: int)
    requires Held(chunks, m) > 0
    ensures b in chunks && chunks[b].state == Quarantined && chunks[b].Header() == m
    decreases |chunks|
  {
    b := Pick(chunks.Keys);
    if Holds(chunks[b], m) == 0 {
      assert (chunks - {b}).Keys == chunks.Keys - {b};
      b := HeldMember(chunks - {b}, m);
    }
  }

  // ---------------------------------------------------------------- what the books look at

  /** The chunks differ at most in poison and free context. */
  ghost predicate SameForTheBooks(chunks: map<int, Chunk>, chunks': map<int, Chunk>) {
    && chunks'.Keys == chunks.Keys
    && forall b :: b in chunks ==>
         chunks'[b].first == chunks[b].first && chunks'[b].meta == chunks[b].meta && chunks'[b].state == chunks[b].state
  }

  lemma {:induction false} SumSame(chunks: map<int, Chunk>, chunks': map<int, Chunk>, s: State, bytes: bool)
    requires SameForTheBooks(chunks, chunks')
    ensures Sum(chunks', s, bytes) == Sum(chunks, s, bytes)
    decreases |chunks|
  {
    if chunks.Keys == {} {
    } else {
      var b := Pick(chunks.Keys);
      assert (chunks - {b}).Keys == chunks.Keys - {b};
      SumSame(chunks - {b}, chunks' - {b}, s, bytes);
    }
  }

  lemma {:induction false} HeldSame(chunks: map<int, Chunk>, chunks': map<int, Chunk>, m: int)
    requires SameForTheBooks(chunks, chunks')
    ensures Held(chunks', m) == Held(chunks, m)
    decreases |chunks|
  {
    if chunks.Keys == {} {
    } else {
      var b := Pick(chunks.Keys);
      assert (chunks - {b}).Keys == chunks.Keys - {b};
      HeldSame(chunks - {b}, chunks' - {b}, m);
    }
  }

  lemma SameBooks(bag: multiset<int>, stats: seq<Stats>, chunks: map<int, Chunk>, chunks': map<int, Chunk>)
    requires SameForTheBooks(chunks, chunks') && QuarantineOk(bag, chunks) && Balanced(stats, chunks)
    ensures QuarantineOk(bag, chunks') && Balanced(stats, chunks')
  {
    forall m ensures bag[m] == Held(chunks', m) { HeldSame(chunks, chunks', m); }
    forall s, bytes ensures Sum(chunks', s, bytes) == Sum(chunks, s, bytes) { SumSame(chunks, chunks', s, bytes); }
  }
}
