/** The hardware statistics buffers of the algorithm wrapper: six buffers kept in a map ordered
    by sequence, where completing a frame reuses the buffer with the smallest sequence.
  */
module StatsBuffers {
  import opened Basics

  const QUEUE_SIZE: nat := 6

  /** A buffer: its size, its address, and how much of it is used. */
  datatype StatsBufInfo = StatsBufInfo(bufSize: nat, ptr: int, usedSize: nat)

  type Buffers = map<int, StatsBufInfo>

  /** Completing a frame: the buffer first in order moves to the frame's sequence. */
  function Complete(m: Buffers, sequence: int, byteUsed: nat): Buffers {
    if m == map[] || sequence in m then m
    else
      HasKeyUnlessEmpty(m);
      var first := Smallest(m.Keys);
      Without(m[sequence := m[first].(usedSize := byteUsed)], first)
  }

  ghost function Pointers(m: Buffers): set<int> {
    set k | k in m :: m[k].ptr
  }

  /** The addresses of the buffers in the order of their keys. */
  function InOrder(m: Buffers): seq<int>
    decreases m.Keys
  {
    if m == map[] then []
    else
      HasKeyUnlessEmpty(m);
      var first := Smallest(m.Keys);
      assert first !in Without(m, first);
      [m[first].ptr] + InOrder(Without(m, first))
  }

  class IntelCca {
    var memStatsInfoMap: Buffers

    constructor ()
      ensures memStatsInfoMap == map[]
    {
      memStatsInfoMap := map[];
    }

    /** Replaces the buffers; `chunks` are the addresses the allocator returns, 0 when it fails. */
    method AllocStatsDataMem(size: nat, chunks: seq<int>) returns (ok: bool, freed: seq<int>)
      requires |chunks| == QUEUE_SIZE
      modifies this
      ensures freed == InOrder(old(memStatsInfoMap))
      ensures ok <==> 0 !in chunks
      ensures ok ==> memStatsInfoMap == Fresh(size, chunks)
      ensures !ok ==> exists n :: 0 <= n < QUEUE_SIZE && chunks[n] == 0 && 0 !in chunks[..n] &&
                        memStatsInfoMap == Fresh(size, chunks[..n])
    {
      freed := FreeStatsDataMem();
      var i := 0;
      while i < QUEUE_SIZE
        invariant 0 <= i <= QUEUE_SIZE
        invariant 0 !in chunks[..i]
        invariant memStatsInfoMap == Fresh(size, chunks[..i])
      {
        var p := chunks[i];
        if p == 0 {
          return false, freed;
        }
        assert chunks[..i + 1] == chunks[..i] + [p];
        memStatsInfoMap := memStatsInfoMap[-i - 1 := StatsBufInfo(size, p, 0)];
        i := i + 1;
      }
      assert chunks[..QUEUE_SIZE] == chunks;
      return true, freed;
    }

    /** Frees the buffers from the smallest sequence to the largest; `freed` are their addresses. */
    method FreeStatsDataMem() returns (freed: seq<int>)
      modifies this
      ensures freed == InOrder(old(memStatsInfoMap)) && memStatsInfoMap == map[]
    {
      freed := [];
      var rest := memStatsInfoMap;
      while rest != map[]
        invariant memStatsInfoMap == old(memStatsInfoMap) && freed + InOrder(rest) == InOrder(memStatsInfoMap)
        decreases rest.Keys
      {
        HasKeyUnlessEmpty(rest);
        var first := Smallest(rest.Keys);
        assert first !in Without(rest, first);
        freed := freed + [rest[first].ptr];
        rest := Without(rest, first);
      }
      assert freed + [] == freed;
      memStatsInfoMap := map[];
    }

    /** The buffer the next frame's statistics are written to. */
    method GetStatsDataBuffer() returns (p: int)
      ensures p == if memStatsInfoMap == map[] then 0 else Offered(memStatsInfoMap)
    {
      if memStatsInfoMap == map[] {
        return 0;
      }
      HasKeyUnlessEmpty(memStatsInfoMap);
      p := memStatsInfoMap[Smallest(memStatsInfoMap.Keys)].ptr;
    }

    method DecodeHwStatsDone(sequence: int, byteUsed: nat)
      modifies this
      ensures memStatsInfoMap == Complete(old(memStatsInfoMap), sequence, byteUsed)
    {
      if memStatsInfoMap == map[] || sequence in memStatsInfoMap {
        return;
      }
      HasKeyUnlessEmpty(memStatsInfoMap);
      var first := Smallest(memStatsInfoMap.Keys);
      memStatsInfoMap := memStatsInfoMap[first := memStatsInfoMap[first].(usedSize := byteUsed)];
      memStatsInfoMap := memStatsInfoMap[sequence := memStatsInfoMap[first]];
      if sequence != first {
        memStatsInfoMap := Without(memStatsInfoMap, first);
      }
    }

    /** The buffer holding a frame's statistics and how much of it is used, if it is still kept. */
    method FetchHwStatsData(sequence: int) returns (p: int, byteUsed: nat)
      ensures sequence in memStatsInfoMap ==> p == memStatsInfoMap[sequence].ptr && byteUsed == memStatsInfoMap[sequence].usedSize
      ensures sequence !in memStatsInfoMap ==> p == 0
    {
      if sequence in memStatsInfoMap {
        return memStatsInfoMap[sequence].ptr, memStatsInfoMap[sequence].usedSize;
      }
      return 0, 0;
    }
  }

  /** The map right after allocation: the buffers sit on the keys -1, -2, and so on. */
  function Fresh(size: nat, chunks: seq<int>): Buffers {
    if chunks == [] then map[]
    else
      var last := |chunks| - 1;
      Fresh(size, chunks[..last])[-last - 1 := StatsBufInfo(size, chunks[last], 0)]
  }

  ghost function Offered(m: Buffers): int
    requires m != map[]
  {
    HasKeyUnlessEmpty(m);
    m[Smallest(m.Keys)].ptr
  }

  // ------------------------------------------------------------- permutation

  ghost predicate Injective(m: Buffers) {
    forall j, k :: j in m && k in m && j != k ==> m[j].ptr != m[k].ptr
  }

  /** The map has six entries, which are the buffers of `owned`, each on one key. */
  ghost predicate Holds(m: Buffers, owned: set<int>) {
    |m| == QUEUE_SIZE && Pointers(m) == owned && Injective(m)
  }

  lemma {:induction false} CompleteKeepsBuffers(m: Buffers, owned: set<int>, sequence: int, byteUsed: nat)
    requires Holds(m, owned)
    ensures Holds(Complete(m, sequence, byteUsed), owned)
  {
    if m != map[] && sequence !in m {
      HasKeyUnlessEmpty(m);
      var first := Smallest(m.Keys);
      var m' := Complete(m, sequence, byteUsed);
      assert m'.Keys == m.Keys - {first} + {sequence};
      forall p | p in owned
        ensures p in Pointers(m')
      {
        var k :| k in m && m[k].ptr == p;
        assert m'[if k == first then sequence else k].ptr == p;
      }
      forall p | p in Pointers(m')
        ensures p in owned
      {
        var k :| k in m' && m'[k].ptr == p;
        assert m[if k == sequence then first else k].ptr == p;
      }
    }
  }

  /** A completed frame takes over the buffer of the smallest sequence with its own size, nothing else changing; one that is
      known already changes nothing. */
  lemma {:induction false} CompletionIs(m: Buffers, first: int, sequence: int, byteUsed: nat)
    requires first in m && forall k :: k in m ==> first <= k
    ensures var m' := Complete(m, sequence, byteUsed);
            && (sequence in m ==> m' == m)
            && (sequence !in m ==>
                  && m'.Keys == m.Keys - {first} + {sequence}
                  && m'[sequence] == StatsBufInfo(m[first].bufSize, m[first].ptr, byteUsed)
                  && forall k :: k in m && k != first ==> m'[k] == m[k])
  {
    assert first in m.Keys;
    assert Smallest(m.Keys) == first;
  }

  lemma {:induction false} FreshAt(size: nat, chunks: seq<int>, k: int)
    ensures k in Fresh(size, chunks) <==> -|chunks| <= k < 0
    ensures k in Fresh(size, chunks) ==> Fresh(size, chunks)[k] == StatsBufInfo(size, chunks[-k - 1], 0)
  {
    if chunks != [] {
      FreshAt(size, chunks[..|chunks| - 1], k);
    }
  }

  // ----------------------------------------------------------------- freeing

  /** Every buffer is freed exactly once. */
  lemma {:induction false} FreedOnce(m: Buffers)
    requires Injective(m)
    ensures multiset(InOrder(m)) == multiset(Pointers(m))
    decreases m.Keys
  {
    if m != map[] {
      HasKeyUnlessEmpty(m);
      var first := Smallest(m.Keys);
      var rest := Without(m, first);
      assert first !in rest;
      FreedOnce(rest);
      PointersSplit(m, first);
    }
  }

  lemma {:induction false} PointersSplit(m: Buffers, k: int)
    requires Injective(m) && k in m
    ensures m[k].ptr !in Pointers(Without(m, k)) && Pointers(m) == Pointers(Without(m, k)) + {m[k].ptr}
  {
    var rest := Without(m, k);
    forall p | p in Pointers(m)
      ensures p in Pointers(rest) + {m[k].ptr}
    {
      var j :| j in m && m[j].ptr == p;
      assert j != k ==> rest[j].ptr == p;
    }
    assert m[k].ptr in Pointers(m);
    forall p | p in Pointers(rest)
      ensures p in Pointers(m) && p != m[k].ptr
    {
      var j :| j in rest && rest[j].ptr == p;
      assert m[j].ptr == p;
    }
  }

  // ------------------------------------------------------------- round robin

  datatype Completion = Completion(sequence: int, byteUsed: nat)

  /** The map after allocation and the given completions. */
  function After(size: nat, chunks: seq<int>, done: seq<Completion>): Buffers {
    if done == [] then Fresh(size, chunks)
    else
      var last := done[|done| - 1];
      Complete(After(size, chunks, done[..|done| - 1]), last.sequence, last.byteUsed)
  }

  ghost predicate Increasing(done: seq<Completion>) {
    && (forall i :: 0 <= i < |done| ==> 0 <= done[i].sequence)
    && (forall i, j :: 0 <= i < j < |done| ==> done[i].sequence < done[j].sequence)
  }

  /** The keys in the order they come into use: those of the allocation, then the completed frames. */
  function KeyOf(done: seq<Completion>, j: nat): int
    requires j < QUEUE_SIZE + |done|
  {
    if j < QUEUE_SIZE then j - QUEUE_SIZE else done[j - QUEUE_SIZE].sequence
  }

  /** The buffers are used in turn, from the one allocated last to the one allocated first. */
  function BufferOf(size: nat, chunks: seq<int>, done: seq<Completion>, j: nat): StatsBufInfo
    requires |chunks| == QUEUE_SIZE && j < QUEUE_SIZE + |done|
  {
    StatsBufInfo(size, chunks[QUEUE_SIZE - 1 - j % QUEUE_SIZE],
                 if j < QUEUE_SIZE then 0 else done[j - QUEUE_SIZE].byteUsed)
  }

  ghost predicate LastSix(size: nat, chunks: seq<int>, done: seq<Completion>, m: Buffers)
    requires |chunks| == QUEUE_SIZE
  {
    && (forall j :: |done| <= j < |done| + QUEUE_SIZE ==>
          KeyOf(done, j) in m && m[KeyOf(done, j)] == BufferOf(size, chunks, done, j))
    && (forall k :: k in m ==> exists j :: |done| <= j < |done| + QUEUE_SIZE && KeyOf(done, j) == k)
  }

  lemma {:induction false} KeysIncrease(done: seq<Completion>, i: nat, j: nat)
    requires Increasing(done) && i < j < QUEUE_SIZE + |done|
    ensures KeyOf(done, i) < KeyOf(done, j)
  {
  }

  lemma {:induction false} SmallestIsOldest(size: nat, chunks: seq<int>, done: seq<Completion>, m: Buffers)
    requires |chunks| == QUEUE_SIZE && Increasing(done) && LastSix(size, chunks, done, m)
    ensures m != map[] && KeyOf(done, |done|) in m.Keys && Smallest(m.Keys) == KeyOf(done, |done|)
  {
    assert KeyOf(done, |done|) in m.Keys;
    var first := Smallest(m.Keys);
    var j :| |done| <= j < |done| + QUEUE_SIZE && KeyOf(done, j) == first;
    if j > |done| {
      KeysIncrease(done, |done|, j);
    }
  }

  lemma {:induction false} FreshIsLastSix(size: nat, chunks: seq<int>)
    requires |chunks| == QUEUE_SIZE
    ensures LastSix(size, chunks, [], Fresh(size, chunks))
  {
    var m := Fresh(size, chunks);
    forall j | 0 <= j < QUEUE_SIZE
      ensures KeyOf([], j) in m && m[KeyOf([], j)] == BufferOf(size, chunks, [], j)
    {
      FreshAt(size, chunks, j - QUEUE_SIZE);
    }
    forall k | k in m
      ensures exists j :: 0 <= j < QUEUE_SIZE && KeyOf([], j) == k
    {
      FreshAt(size, chunks, k);
      assert KeyOf([], k + QUEUE_SIZE) == k;
    }
  }

  /** A later completion changes no earlier key or buffer. */
  lemma {:induction false} EarlierUnchanged(size: nat, chunks: seq<int>, before: seq<Completion>, last: Completion, j: nat)
    requires |chunks| == QUEUE_SIZE && Increasing(before + [last]) && j < QUEUE_SIZE + |before|
    ensures KeyOf(before, j) == KeyOf(before + [last], j) < last.sequence
    ensures BufferOf(size, chunks, before, j) == BufferOf(size, chunks, before + [last], j)
  {
    var done := before + [last];
    KeysIncrease(done, j, QUEUE_SIZE + |before|);
    assert KeyOf(done, QUEUE_SIZE + |before|) == last.sequence;
  }

  /** The completed frame gets the buffer whose turn it is. */
  lemma {:induction false} NewestBuffer(size: nat, chunks: seq<int>, before: seq<Completion>, last: Completion)
    requires |chunks| == QUEUE_SIZE
    ensures var n := |before|;
            && KeyOf(before + [last], n + QUEUE_SIZE) == last.sequence
            && BufferOf(size, chunks, before + [last], n + QUEUE_SIZE) ==
               BufferOf(size, chunks, before, n).(usedSize := last.byteUsed)
  {
    assert (|before| + QUEUE_SIZE) % QUEUE_SIZE == |before| % QUEUE_SIZE;
  }

  /** What completing does to a map that holds the last six keys. */
  lemma {:induction false} CompleteReplacesOldest(size: nat, chunks: seq<int>, before: seq<Completion>, last: Completion, m: Buffers)
    requires |chunks| == QUEUE_SIZE && Increasing(before + [last]) && LastSix(size, chunks, before, m)
    ensures last.sequence !in m && KeyOf(before, |before|) in m
    ensures Complete(m, last.sequence, last.byteUsed) ==
            Without(m[last.sequence := m[KeyOf(before, |before|)].(usedSize := last.byteUsed)], KeyOf(before, |before|))
  {
    var done := before + [last];
    assert forall i :: 0 <= i < |before| ==> before[i] == done[i];
    SmallestIsOldest(size, chunks, before, m);
    forall j | |before| <= j < |before| + QUEUE_SIZE
      ensures KeyOf(before, j) < last.sequence
    {
      EarlierUnchanged(size, chunks, before, last, j);
    }
  }

  lemma {:induction false} CompleteKeepsLastSix(size: nat, chunks: seq<int>, before: seq<Completion>, last: Completion, m: Buffers)
    requires |chunks| == QUEUE_SIZE && Increasing(before + [last]) && LastSix(size, chunks, before, m)
    ensures LastSix(size, chunks, before + [last], Complete(m, last.sequence, last.byteUsed))
  {
    var done, n := before + [last], |before|;
    var m' := Complete(m, last.sequence, last.byteUsed);
    CompleteReplacesOldest(size, chunks, before, last, m);
    NewestBuffer(size, chunks, before, last);
    forall j | n + 1 <= j < n + 1 + QUEUE_SIZE
      ensures KeyOf(done, j) in m' && m'[KeyOf(done, j)] == BufferOf(size, chunks, done, j)
    {
      if j < n + QUEUE_SIZE {
        EarlierUnchanged(size, chunks, before, last, n);
        EarlierUnchanged(size, chunks, before, last, j);
        KeysIncrease(done, n, j);
      }
    }
    forall k | k in m'
      ensures exists j :: n + 1 <= j < n + 1 + QUEUE_SIZE && KeyOf(done, j) == k
    {
      if k == last.sequence {
        assert KeyOf(done, n + QUEUE_SIZE) == k;
      } else {
        var j :| n <= j < n + QUEUE_SIZE && KeyOf(before, j) == k;
        EarlierUnchanged(size, chunks, before, last, j);
        assert KeyOf(done, j) == k && j != n;
      }
    }
  }

  /** With increasing frame numbers the map keeps exactly the six latest keys, each with the buffer
      whose turn it was. */
  lemma {:induction false} BuffersTakeTurns(size: nat, chunks: seq<int>, done: seq<Completion>)
    requires |chunks| == QUEUE_SIZE && Increasing(done)
    ensures LastSix(size, chunks, done, After(size, chunks, done))
  {
    if done == [] {
      FreshIsLastSix(size, chunks);
    } else {
      var before, last := done[..|done| - 1], done[|done| - 1];
      assert done == before + [last];
      BuffersTakeTurns(size, chunks, before);
      CompleteKeepsLastSix(size, chunks, before, last, After(size, chunks, before));
    }
  }

  /** After `n` completions the next buffer offered is the one in turn. */
  lemma {:induction false} OfferedInTurn(size: nat, chunks: seq<int>, done: seq<Completion>)
    requires |chunks| == QUEUE_SIZE && Increasing(done)
    ensures var m := After(size, chunks, done);
            m != map[] && Offered(m) == chunks[QUEUE_SIZE - 1 - |done| % QUEUE_SIZE]
  {
    BuffersTakeTurns(size, chunks, done);
    SmallestIsOldest(size, chunks, done, After(size, chunks, done));
  }

  lemma {:induction false} TurnOfCompletion(size: nat, chunks: seq<int>, done: seq<Completion>, i: nat)
    requires |chunks| == QUEUE_SIZE && i < |done|
    ensures BufferOf(size, chunks, done, i + QUEUE_SIZE) ==
            StatsBufInfo(size, chunks[QUEUE_SIZE - 1 - i % QUEUE_SIZE], done[i].byteUsed)
  {
    assert (i + QUEUE_SIZE) % QUEUE_SIZE == i % QUEUE_SIZE;
  }

  /** A completed frame can be fetched, from the buffer that was offered for it and with its own size,
      exactly until six later frames have completed. */
  lemma {:induction false} FetchedUntilSixLater(size: nat, chunks: seq<int>, done: seq<Completion>, i: nat)
    requires |chunks| == 6 && Increasing(done) && i < |done|
    ensures var m := After(size, chunks, done);
            && (done[i].sequence in m <==> |done| - i <= 6)
            && (done[i].sequence in m ==>
                  m[done[i].sequence] == StatsBufInfo(size, chunks[5 - i % 6], done[i].byteUsed))
  {
    BuffersTakeTurns(size, chunks, done);
    var m := After(size, chunks, done);
    assert KeyOf(done, i + QUEUE_SIZE) == done[i].sequence;
    if |done| - i <= QUEUE_SIZE {
      TurnOfCompletion(size, chunks, done, i);
    } else {
      forall j | |done| <= j < |done| + QUEUE_SIZE
        ensures done[i].sequence < KeyOf(done, j)
      {
        KeysIncrease(done, i + QUEUE_SIZE, j);
      }
    }
  }

  /** The buffer of a completed frame is offered again after exactly five more completions. */
  lemma {:induction false} ReusedAfterFive(size: nat, chunks: seq<int>, done: seq<Completion>, i: nat)
    requires |chunks| == QUEUE_SIZE && Increasing(done) && i < |done| <= i + QUEUE_SIZE
    requires forall j, k :: 0 <= j < k < QUEUE_SIZE ==> chunks[j] != chunks[k]
    ensures var m := After(size, chunks, done);
            && m != map[] && done[i].sequence in m
            && (Offered(m) == m[done[i].sequence].ptr <==> |done| == i + QUEUE_SIZE)
  {
    OfferedInTurn(size, chunks, done);
    FetchedUntilSixLater(size, chunks, done, i);
  }

  /** Without increasing frame numbers the buffer just completed is offered at once exactly when its
      frame precedes every frame still kept. */
  lemma {:induction false} OfferedAtOnceIff(m: Buffers, sequence: int, byteUsed: nat)
    requires m != map[] && sequence !in m && Injective(m)
    ensures var m' := Complete(m, sequence, byteUsed);
            m' != map[] && sequence in m' &&
            (Offered(m') == m'[sequence].ptr <==> forall k :: k in m' ==> sequence <= k)
  {
    HasKeyUnlessEmpty(m);
    var m' := Complete(m, sequence, byteUsed);
    CompleteKeepsInjective(m, sequence, byteUsed);
    assert sequence in m'.Keys;
    var next := Smallest(m'.Keys);
    if m'[next].ptr == m'[sequence].ptr {
      assert next == sequence;
    }
  }

  lemma {:induction false} CompleteKeepsInjective(m: Buffers, sequence: int, byteUsed: nat)
    requires Injective(m)
    ensures Injective(Complete(m, sequence, byteUsed))
  {
    HasKeyUnlessEmpty(m);
  }

  lemma {:induction false} FreshSize(size: nat, chunks: seq<int>)
    ensures |Fresh(size, chunks)| == |chunks|
  {
    if chunks != [] {
      var fewer := chunks[..|chunks| - 1];
      FreshSize(size, fewer);
      FreshAt(size, fewer, -|chunks|);
    }
  }

  /** Whatever the order of the frame numbers, the map holds the six allocated buffers and no other. */
  lemma {:induction false} AnyRunKeepsBuffers(size: nat, chunks: seq<int>, done: seq<Completion>)
    requires |chunks| == QUEUE_SIZE
    requires forall j, k :: 0 <= j < k < QUEUE_SIZE ==> chunks[j] != chunks[k]
    ensures Holds(After(size, chunks, done), set p | p in chunks)
  {
    if done != [] {
      AnyRunKeepsBuffers(size, chunks, done[..|done| - 1]);
      var last := done[|done| - 1];
      CompleteKeepsBuffers(After(size, chunks, done[..|done| - 1]), (set p | p in chunks), last.sequence, last.byteUsed);
    } else {
      var m := Fresh(size, chunks);
      FreshSize(size, chunks);
      forall k
        ensures k in m <==> -|chunks| <= k < 0
        ensures k in m ==> m[k].ptr == chunks[-k - 1]
      {
        FreshAt(size, chunks, k);
      }
      forall p | p in chunks
        ensures p in Pointers(m)
      {
        var i :| 0 <= i < |chunks| && chunks[i] == p;
        assert m[-i - 1].ptr == p;
      }
    }
  }

  lemma {:induction false} DistinctOnce(chunks: seq<int>)
    requires forall j, k :: 0 <= j < k < |chunks| ==> chunks[j] != chunks[k]
    ensures multiset(chunks) == multiset(set p | p in chunks)
  {
    if chunks != [] {
      var fewer, last := chunks[..|chunks| - 1], chunks[|chunks| - 1];
      DistinctOnce(fewer);
      assert chunks == fewer + [last];
      assert last !in fewer;
      assert (set p | p in chunks) == (set p | p in fewer) + {last};
    }
  }

  /** Freeing the buffers after any completions frees each allocated buffer once and nothing else. */
  lemma {:induction false} AllocatedAreFreedOnce(size: nat, chunks: seq<int>, done: seq<Completion>)
    requires |chunks| == QUEUE_SIZE
    requires forall j, k :: 0 <= j < k < QUEUE_SIZE ==> chunks[j] != chunks[k]
    ensures multiset(InOrder(After(size, chunks, done))) == multiset(chunks)
  {
    AnyRunKeepsBuffers(size, chunks, done);
    FreedOnce(After(size, chunks, done));
    DistinctOnce(chunks);
  }
}
