/** The storage shared by the 3A engine and the image pipeline: a ring of forty results,
    the statistics buffer, and the record of stabilised frames.
  */
module ResultStorage {
  import opened Basics
  import opened ResultLists
  import S = StatsSlots
  import D = DvsRuns

  class AiqResultStorage {
    var currentIndex: int
    const results: array<AiqResult>
    var currentStatsIndex: S.Current
    const stats: array<S.Slot>
    var dvsRunMap: map<int, bool>

    /** Every result published so far, and whether the next slot has been acquired since. */
    ghost var published: seq<AiqResult>
    ghost var acquired: bool

    ghost function NextSlot(): nat
      reads this
    {
      SlotOf(|published|)
    }

    ghost function Oldest(): nat
      reads this
    {
      OldestOf(|published|, acquired)
    }

    ghost predicate Valid()
      reads this, results
    {
      && results.Length == STORAGE_SIZE && stats.Length == S.SLOTS
      && currentIndex == LatestSlot(|published|)
      && (forall k: nat {:trigger SlotOf(k)} :: Oldest() <= k < |published| ==> results[SlotOf(k)] == published[k])
      && (forall j :: |published| <= j < STORAGE_SIZE && !(acquired && j == NextSlot()) ==> results[j].sequence == -1)
    }

    ghost function Stats(): S.Ring
      reads this, stats
      requires stats.Length == S.SLOTS
    {
      S.Ring(currentStatsIndex, stats[..])
    }

    constructor ()
      ensures Valid() && published == [] && !acquired
      ensures forall j :: 0 <= j < STORAGE_SIZE ==> results[j] == NO_RESULT
      ensures Stats() == S.START.ring && dvsRunMap == map[]
      ensures fresh(results) && fresh(stats)
    {
      currentIndex := -1;
      results := new AiqResult[STORAGE_SIZE](_ => NO_RESULT);
      currentStatsIndex := -1;
      stats := new S.Slot[S.SLOTS](_ => S.FREE);
      dvsRunMap := map[];
      published, acquired := [], false;
      new;
      assert stats[..] == [S.FREE, S.FREE, S.FREE];
    }

    // ------------------------------------------------------------- results

    /** Hands out the next slot, whose old result is given up. */
    method AcquireAiqResult() returns (slot: nat)
      requires Valid()
      modifies this`acquired, results
      ensures Valid() && acquired && published == old(published)
      ensures slot == NextSlot() && results[slot] == old(results[slot]).(sequence := -1)
      ensures forall j :: 0 <= j < STORAGE_SIZE && j != slot ==> results[j] == old(results[j])
    {
      SlotAfterLatest(|published|);
      SlotsAdvance(|published|);
      slot := (currentIndex + 1) % STORAGE_SIZE;
      results[slot] := results[slot].(sequence := -1);
      acquired := true;
    }

    /** Writes into the acquired slot, which only its holder does. */
    method Write(slot: nat, r: AiqResult)
      requires Valid() && acquired && slot == NextSlot()
      modifies results
      ensures Valid() && results[slot] == r
      ensures forall j :: 0 <= j < STORAGE_SIZE && j != slot ==> results[j] == old(results[j])
    {
      SlotsAdvance(|published|);
      results[slot] := r;
    }

    method UpdateAiqResult(sequence: int)
      requires Valid()
      modifies this`currentIndex, this`published, this`acquired, results
      ensures Valid() && !acquired
      ensures published == old(published + [results[NextSlot()].(sequence := sequence)])
      ensures forall j :: 0 <= j < STORAGE_SIZE && j != old(NextSlot()) ==> results[j] == old(results[j])
      ensures results[old(NextSlot())] == published[|published| - 1]
    {
      SlotAfterLatest(|published|);
      SlotsAdvance(|published|);
      currentIndex := currentIndex + 1;
      currentIndex := currentIndex % STORAGE_SIZE;
      results[currentIndex] := results[currentIndex].(sequence := sequence);
      published, acquired := published + [results[currentIndex]], false;
    }

    /** The latest result, or the first slot when there is none. */
    method GetLatestAiqResult() returns (slot: nat)
      requires Valid()
      ensures slot < STORAGE_SIZE
      ensures published != [] ==> slot == SlotOf(|published| - 1) && results[slot] == published[|published| - 1]
      ensures published == [] ==> slot == 0
    {
      slot := if currentIndex == -1 then 0 else currentIndex;
    }

    ghost function Backwards(i: nat): nat
      reads this
    {
      (currentIndex + STORAGE_SIZE - i) % STORAGE_SIZE
    }

    /** What a reader finds `i` steps before the latest slot. */
    lemma {:induction false} FoundBackwards(i: nat)
      requires Valid() && i < STORAGE_SIZE
      ensures Backwards(i) < STORAGE_SIZE
      ensures var list := Retained(published, acquired);
              var p := |list| - 1 - i;
              if p >= 0 then results[Backwards(i)] == list[p] && Backwards(i) == SlotOf(Oldest() + p)
              else if acquired && i == STORAGE_SIZE - 1 then Backwards(i) == NextSlot()
              else results[Backwards(i)].sequence == -1
    {
      SlotsBackwards(|published|, i);
    }

    /** Whether the newest `i` slots are not in force. */
    ghost predicate Passed(sequence: int, i: nat)
      reads this, results
      requires results.Length == STORAGE_SIZE
    {
      var list := Retained(published, acquired);
      && (forall t :: 0 <= t < |list| && |list| - i <= t ==> !InForce(list[t], sequence))
      && (i >= STORAGE_SIZE && acquired ==> !InForce(results[NextSlot()], sequence))
    }

    /** What the search is to find: the slot of the retained result in force, or else the acquired slot. */
    ghost function Answer(sequence: int): Option<nat>
      reads this, results
      requires results.Length == STORAGE_SIZE
    {
      var found := FindIndex(Retained(published, acquired), sequence);
      if found >= 0 then Some(SlotOf(Oldest() + found))
      else if acquired && InForce(results[NextSlot()], sequence) then Some(NextSlot())
      else None
    }

    lemma {:induction false} AnswersHere(sequence: int, i: nat)
      requires Valid() && i < STORAGE_SIZE && Passed(sequence, i)
      requires Backwards(i) < STORAGE_SIZE && InForce(results[Backwards(i)], sequence)
      ensures Answer(sequence) == Some(Backwards(i))
    {
      FoundBackwards(i);
      var list := Retained(published, acquired);
      var p := |list| - 1 - i;
      SearchStops(list, sequence, if p >= 0 then p else -1);
    }

    lemma {:induction false} PassesOn(sequence: int, i: nat)
      requires Valid() && i < STORAGE_SIZE && Passed(sequence, i)
      requires Backwards(i) < STORAGE_SIZE && !InForce(results[Backwards(i)], sequence)
      ensures Passed(sequence, i + 1)
    {
      FoundBackwards(i);
    }

    lemma {:induction false} NoAnswer(sequence: int)
      requires Valid() && Passed(sequence, STORAGE_SIZE)
      ensures Answer(sequence) == None
    {
      SearchStops(Retained(published, acquired), sequence, -1);
    }

    lemma {:induction false} AnswerHolds(sequence: int)
      requires Valid()
      ensures var list := Retained(published, acquired);
              var i := FindIndex(list, sequence);
              i >= 0 ==> Answer(sequence).Some? && Answer(sequence).value < STORAGE_SIZE && results[Answer(sequence).value] == list[i]
    {
    }

    /** The result in force for a frame: the search over the ring agrees with the search over the list
        of retained results.  Only when that finds nothing can the acquired slot, which its holder may
        already have given a sequence, be returned instead. */
    method GetAiqResult(sequence: int) returns (slot: Option<nat>)
      requires Valid() && sequence != -1
      ensures var i := FindIndex(Retained(published, acquired), sequence);
              && slot == (if i >= 0 then Some(SlotOf(Oldest() + i))
                          else if acquired && InForce(results[NextSlot()], sequence) then Some(NextSlot())
                          else None)
              && (i >= 0 ==> slot.value < STORAGE_SIZE && results[slot.value] == Retained(published, acquired)[i])
    {
      AnswerHolds(sequence);
      var i := 0;
      while i < STORAGE_SIZE
        invariant 0 <= i <= STORAGE_SIZE && Passed(sequence, i)
      {
        var index := (currentIndex + STORAGE_SIZE - i) % STORAGE_SIZE;
        if results[index].sequence >= 0 && sequence >= results[index].sequence {
          AnswersHere(sequence, i);
          return Some(index);
        }
        PassesOn(sequence, i);
        i := i + 1;
      }
      NoAnswer(sequence);
      return None;
    }

    // ---------------------------------------------------------- statistics

    /** Hands the decoder a slot that nobody reads. */
    method AcquireAiqStatistics() returns (index: S.SlotIndex)
      requires Valid()
      modifies this`currentStatsIndex, stats
      ensures Valid()
      ensures index == S.AcquiredSlot(old(Stats())) && Stats() == S.Acquire(old(Stats()))
    {
      index := (currentStatsIndex + 1) % S.SLOTS;
      if stats[index].inUse {
        currentStatsIndex := index;
        index := (currentStatsIndex + 1) % S.SLOTS;
      }
      stats[index] := stats[index].(sequence := -1);
    }

    method UpdateAiqStatistics(sequence: int)
      requires Valid()
      modifies this`currentStatsIndex, stats
      ensures Valid() && Stats() == S.Publish(old(Stats()), sequence)
    {
      currentStatsIndex := (currentStatsIndex + 1) % S.SLOTS;
      stats[currentStatsIndex] := stats[currentStatsIndex].(sequence := sequence);
    }

    method ResetAiqStatistics()
      requires Valid()
      modifies this`currentStatsIndex
      ensures Valid() && Stats() == S.Reset(old(Stats()))
    {
      currentStatsIndex := -1;
    }

    method GetAndLockAiqStatistics() returns (index: Option<S.SlotIndex>)
      requires Valid()
      modifies stats
      ensures Valid()
      ensures index == S.LockedSlot(old(Stats())) && Stats() == S.Lock(old(Stats()))
    {
      if currentStatsIndex == -1 {
        return None;
      }
      if stats[currentStatsIndex].sequence == -1 {
        return None;
      }
      stats[currentStatsIndex] := stats[currentStatsIndex].(inUse := true);
      return Some(currentStatsIndex);
    }

    method UnLockAiqStatistics()
      requires Valid()
      modifies stats
      ensures Valid() && Stats() == S.Unlock(old(Stats()))
    {
      for i := 0 to S.SLOTS
        invariant forall j :: 0 <= j < i ==> stats[j] == old(stats[j]).(inUse := false)
        invariant forall j :: i <= j < S.SLOTS ==> stats[j] == old(stats[j])
      {
        stats[i] := stats[i].(inUse := false);
      }
      assert stats[..] == S.Unlock(old(Stats())).slots;
    }

    // ------------------------------------------------------- stabilised frames

    method UpdateDvsRunMap(sequence: int)
      requires Valid()
      modifies this`dvsRunMap
      ensures Valid() && dvsRunMap == D.Record(old(dvsRunMap), sequence)
    {
      dvsRunMap := dvsRunMap[sequence := true];
      if |dvsRunMap| > D.CAPACITY {
        assert sequence in dvsRunMap.Keys;
        dvsRunMap := Without(dvsRunMap, Smallest(dvsRunMap.Keys));
      }
    }

    method ClearDvsRunMap()
      requires Valid()
      modifies this`dvsRunMap
      ensures Valid() && dvsRunMap == D.RecordAll([])
    {
      dvsRunMap := map[];
    }

    method IsDvsRun(sequence: int) returns (run: bool)
      ensures run <==> sequence in dvsRunMap
    {
      run := sequence in dvsRunMap;
    }
  }
}
