/** What the result storage means to its readers: the results published so far, of
    which a window of the latest ones is retained, and the question "which result was
    in force for frame s".
  */
module ResultLists {
  import opened Basics
  import opened ExposureSchedule
  import opened Tonemaps

  /** One 3A result: the frame it takes effect on, whether that frame is to be skipped, the parameters it
      answers, and what the algorithms computed. */
  datatype AiqResult = AiqResult(
    sequence: int, skip: bool, frameId: int, tuningMode: TuningMode,
    exposures: seq<SensorExposure>, parameters: Parameters, content: Content)

  const NO_RESULT := AiqResult(-1, false, -1, Video, [], NO_PARAMETERS, NO_CONTENT)

  /** A result but for its frame and the flag, which each copy has of its own. */
  function Plain(r: AiqResult): AiqResult {
    r.(sequence := 0, skip := false)
  }

  const STORAGE_SIZE: nat := 40

  predicate InForce(r: AiqResult, s: int) {
    0 <= r.sequence <= s
  }

  /** Where a search from the newest entry stops: the last entry in force for frame `s`, or -1. */
  function FindIndex(list: seq<AiqResult>, s: int): (i: int)
    ensures -1 <= i < |list|
    ensures i >= 0 ==> InForce(list[i], s)
    ensures forall j :: i < j < |list| ==> !InForce(list[j], s)
  {
    if list == [] then -1
    else if InForce(list[|list| - 1], s) then |list| - 1
    else FindIndex(list[..|list| - 1], s)
  }

  /** A search that stops at `i` found the index. */
  lemma {:induction false} SearchStops(list: seq<AiqResult>, s: int, i: int)
    requires -1 <= i < |list| && (i >= 0 ==> InForce(list[i], s))
    requires forall t :: i < t < |list| ==> !InForce(list[t], s)
    ensures FindIndex(list, s) == i
  {
  }

  /** Where the retained results begin among the first `n` published. Acquiring a slot gives up the oldest. */
  function OldestOf(n: nat, acquired: bool): nat {
    var room := if acquired then STORAGE_SIZE - 1 else STORAGE_SIZE;
    if n <= room then 0 else n - room
  }

  /** The published results a reader can still find. */
  function Retained(published: seq<AiqResult>, acquired: bool): seq<AiqResult> {
    published[OldestOf(|published|, acquired)..]
  }

  /** A reader finds the latest forty results, or one fewer while a slot is acquired. */
  lemma {:induction false} RetainedAreTheLatest(published: seq<AiqResult>, acquired: bool)
    ensures var list, room := Retained(published, acquired), if acquired then 39 else 40;
            && |list| == (if |published| < room then |published| else room)
            && list == published[|published| - |list|..]
  {
  }

  /** Publications fill the slots in turn; this is the slot of the `k`-th, counting from 0. */
  function SlotOf(k: nat): (slot: nat)
    ensures slot < STORAGE_SIZE && (k < STORAGE_SIZE ==> slot == k)
  {
    if k < STORAGE_SIZE then k else SlotOf(k - STORAGE_SIZE)
  }

  /** The slot of the latest of `n` publications, or -1. */
  function LatestSlot(n: nat): int {
    if n == 0 then -1 else SlotOf(n - 1)
  }

  lemma {:induction false} SlotIsRemainder(k: nat)
    ensures SlotOf(k) == k % STORAGE_SIZE
  {
    if k >= STORAGE_SIZE {
      SlotIsRemainder(k - STORAGE_SIZE);
    }
  }

  /** Two publications share a slot exactly if they are a multiple of the ring's size apart. */
  lemma {:induction false} SlotReusedIff(n: nat, k: nat)
    requires k <= n
    ensures SlotOf(n) == SlotOf(k) <==> (n - k) % 40 == 0
  {
    SlotIsRemainder(n);
    SlotIsRemainder(k);
  }

  /** The next slot is the one after the latest. */
  lemma {:induction false} SlotAfterLatest(n: nat)
    ensures (LatestSlot(n) + 1) % STORAGE_SIZE == SlotOf(n)
  {
    SlotIsRemainder(n);
    if n > 0 {
      SlotIsRemainder(n - 1);
    }
  }

  lemma {:induction false} RemainderShift(m: nat, d: nat)
    ensures (m % STORAGE_SIZE + d) % STORAGE_SIZE == (m + d) % STORAGE_SIZE
  {
  }

  lemma {:induction false} OneTurn(m: nat)
    ensures (m + STORAGE_SIZE) % STORAGE_SIZE == m % STORAGE_SIZE
  {
  }

  lemma {:induction false} PublicationBackwards(n: nat, i: nat)
    requires i < STORAGE_SIZE && i < n
    ensures (LatestSlot(n) + STORAGE_SIZE - i) % STORAGE_SIZE == SlotOf(n - 1 - i)
  {
    SlotIsRemainder(n - 1);
    SlotIsRemainder(n - 1 - i);
    RemainderShift(n - 1, STORAGE_SIZE - i);
    OneTurn(n - 1 - i);
  }

  /** Walking back `i` slots from the latest one reaches the publication `i` before it, then the
      slots not used yet, and last the next slot. */
  lemma {:induction false} SlotsBackwards(n: nat, i: nat)
    requires i < STORAGE_SIZE
    ensures var slot := (LatestSlot(n) + STORAGE_SIZE - i) % STORAGE_SIZE;
            && (i < n ==> slot == SlotOf(n - 1 - i))
            && (n <= i ==> n <= slot < STORAGE_SIZE)
            && (slot == SlotOf(n) <==> i == STORAGE_SIZE - 1)
  {
    if i < n {
      PublicationBackwards(n, i);
      SlotReusedIff(n, n - 1 - i);
    } else {
      assert LatestSlot(n) == n - 1;
    }
  }

  /** Publishing reuses only the slot of the publication that is forty older. */
  lemma {:induction false} SlotsAdvance(n: nat)
    ensures forall k: nat {:trigger SlotOf(k)} :: k < n <= k + STORAGE_SIZE ==>
              (SlotOf(k) == SlotOf(n) <==> n == k + STORAGE_SIZE)
  {
    forall k: nat | k < n <= k + STORAGE_SIZE
      ensures SlotOf(k) == SlotOf(n) <==> n == k + STORAGE_SIZE
    {
      SlotReusedIff(n, k);
    }
  }

  ghost predicate InFrameOrder(list: seq<AiqResult>) {
    && (forall i :: 0 <= i < |list| ==> 0 <= list[i].sequence)
    && (forall i, j :: 0 <= i < j < |list| ==> list[i].sequence <= list[j].sequence)
  }

  /** With results in frame order the answer is the latest published result among those
      of the largest sequence not beyond the frame, and there is none exactly when
      every retained result takes effect later. */
  lemma {:induction false} FindIsLargestNotBeyond(list: seq<AiqResult>, s: int)
    requires InFrameOrder(list)
    ensures var i := FindIndex(list, s);
            && (i == -1 <==> forall j :: 0 <= j < |list| ==> s < list[j].sequence)
            && (i >= 0 ==>
                  && list[i].sequence <= s
                  && (forall j :: 0 <= j < |list| && list[j].sequence <= s ==> list[j].sequence <= list[i].sequence)
                  && (forall j :: i < j < |list| ==> s < list[j].sequence))
  {
    var i := FindIndex(list, s);
    if i >= 0 {
      forall j | 0 <= j < |list| && list[j].sequence <= s
        ensures list[j].sequence <= list[i].sequence
      {
        assert j <= i;
      }
    }
  }

  lemma {:induction false} FindInSuffix(earlier: seq<AiqResult>, later: seq<AiqResult>, s: int)
    ensures FindIndex(earlier + later, s) ==
            if FindIndex(later, s) >= 0 then |earlier| + FindIndex(later, s) else FindIndex(earlier, s)
  {
    if later == [] {
      assert earlier + later == earlier;
    } else {
      var shorter := later[..|later| - 1];
      assert (earlier + later)[..|earlier + later| - 1] == earlier + shorter;
      FindInSuffix(earlier, shorter, s);
    }
  }

  /** After a restart the frame numbers begin again while the earlier results stay: a frame
      resolves to a result of the new session exactly when it is not before all of them. */
  lemma {:induction false} NewSessionAnswersIff(before: seq<AiqResult>, session: seq<AiqResult>, s: int)
    requires session != [] && InFrameOrder(session)
    ensures FindIndex(before + session, s) >= |before| <==> session[0].sequence <= s
  {
    FindInSuffix(before, session, s);
    FindIsLargestNotBeyond(session, s);
  }

  /** A slot that was acquired and already given a sequence stays invisible to every reader exactly
      when some retained result is in force no later. */
  lemma {:induction false} AcquiredSlotHiddenIff(list: seq<AiqResult>, r: AiqResult)
    ensures (forall s :: InForce(r, s) ==> FindIndex(list, s) >= 0) <==>
            r.sequence < 0 || FindIndex(list, r.sequence) >= 0
  {
    if r.sequence >= 0 && FindIndex(list, r.sequence) < 0 {
      assert InForce(r, r.sequence);
    } else {
      forall s | InForce(r, s)
        ensures FindIndex(list, s) >= 0
      {
        var i := FindIndex(list, r.sequence);
        assert InForce(list[i], s);
      }
    }
  }
}
