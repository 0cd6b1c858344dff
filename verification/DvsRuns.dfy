/** The record of the latest frames on which digital video stabilisation ran: an ordered
    map that drops its smallest key once it holds more than fifteen.
  */
module DvsRuns {
  import opened Basics

  const CAPACITY := 15

  function Record(runs: map<int, bool>, sequence: int): map<int, bool> {
    var grown := runs[sequence := true];
    assert sequence in grown.Keys;
    if |grown| > CAPACITY then Without(grown, Smallest(grown.Keys)) else grown
  }

  /** The map after recording `sequences`, in order, into an empty one. */
  function RecordAll(sequences: seq<int>): map<int, bool> {
    if sequences == [] then map[]
    else Record(RecordAll(sequences[..|sequences| - 1]), sequences[|sequences| - 1])
  }

  ghost function Recorded(sequences: seq<int>): set<int> {
    set s | s in sequences
  }

  ghost function Later(sequences: seq<int>, s: int): set<int> {
    set t | t in sequences && s < t
  }

  /** The keys are the largest of the recorded ones, and all of them below capacity. */
  ghost predicate KeepsLargest(keys: set<int>, recorded: set<int>) {
    && keys <= recorded
    && |keys| <= CAPACITY
    && (|keys| < CAPACITY ==> keys == recorded)
    && (forall k, r :: k in keys && r in recorded - keys ==> r < k)
  }

  /** Dropping the smallest of sixteen keys keeps the fifteen largest. */
  lemma {:induction false} DropSmallest(keys: set<int>, recorded: set<int>, s: int, m: int)
    requires KeepsLargest(keys, recorded) && |keys + {s}| > CAPACITY
    requires m in keys + {s} && forall j :: j in keys + {s} ==> m <= j
    ensures KeepsLargest(keys + {s} - {m}, recorded + {s})
  {
    var kept := keys + {s} - {m};
    assert s in keys ==> keys + {s} == keys;
    assert s !in keys && |kept| == CAPACITY;
    forall k, r | k in kept && r in recorded + {s} - kept
      ensures r < k
    {
      assert r == m || r in recorded - keys;
      assert k == s || k in keys;
      if r != m && k == s {
        assert m in keys;
      }
    }
  }

  lemma {:induction false} DropNothing(keys: set<int>, recorded: set<int>, s: int)
    requires KeepsLargest(keys, recorded) && |keys + {s}| <= CAPACITY
    ensures KeepsLargest(keys + {s}, recorded + {s})
  {
    if s in keys {
      assert keys + {s} == keys && recorded + {s} == recorded;
    } else {
      assert keys == recorded;
    }
  }

  lemma {:induction false} RecordKeepsLargest(runs: map<int, bool>, recorded: set<int>, s: int)
    requires KeepsLargest(runs.Keys, recorded)
    ensures KeepsLargest(Record(runs, s).Keys, recorded + {s})
  {
    var grown := runs[s := true];
    assert grown.Keys == runs.Keys + {s} && s in grown.Keys;
    if |grown| > CAPACITY {
      var m := Smallest(grown.Keys);
      DropSmallest(runs.Keys, recorded, s, m);
      assert Without(grown, m).Keys == runs.Keys + {s} - {m};
    } else {
      DropNothing(runs.Keys, recorded, s);
    }
  }

  lemma {:induction false} RunKeepsLargest(sequences: seq<int>)
    ensures KeepsLargest(RecordAll(sequences).Keys, Recorded(sequences))
  {
    if sequences == [] {
      assert RecordAll(sequences).Keys == {} == Recorded(sequences);
    } else {
      var before, s := sequences[..|sequences| - 1], sequences[|sequences| - 1];
      assert sequences == before + [s];
      RunKeepsLargest(before);
      RecordKeepsLargest(RecordAll(before), Recorded(before), s);
      assert Recorded(sequences) == Recorded(before) + {s};
    }
  }

  /** A frame is reported as run exactly when it was recorded since the last clear and
      fewer than fifteen later frames were. */
  lemma {:induction false} RunReportedIff(sequences: seq<int>, s: int)
    ensures s in RecordAll(sequences) <==> s in sequences && |Later(sequences, s)| < 15
    ensures |RecordAll(sequences)| == if |Recorded(sequences)| < 15 then |Recorded(sequences)| else 15
  {
    RunKeepsLargest(sequences);
    var keys, recorded, later := RecordAll(sequences).Keys, Recorded(sequences), Later(sequences, s);
    if s in keys {
      assert s in recorded;
      forall t | t in later
        ensures t in keys && t != s
      {
        assert t in recorded && s < t;
        assert t in keys || t in recorded - keys;
      }
      assert later <= keys - {s};
      SubsetIsNotLarger(later, keys - {s});
    } else if s in recorded {
      assert s in recorded - keys;
      assert forall k :: k in keys ==> k in recorded && s < k;
      assert keys <= later;
      SubsetIsNotLarger(keys, later);
    }
    SubsetIsNotLarger(keys, recorded);
  }

  lemma {:induction false} SubsetIsNotLarger(a: set<int>, b: set<int>)
    requires a <= b
    ensures |a| <= |b|
  {
    assert b == a + (b - a);
  }
}
