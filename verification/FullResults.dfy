/** Where copies of a result end up: all that one run publishes are copies, and the ring gives each slot to the
    latest publication that shares it. */
module FullResults {
  import opened Basics
  import opened ExposureSchedule
  import opened ResultLists
  import opened EngineRuns

  ghost predicate AllCopies(results: seq<AiqResult>, r: AiqResult) {
    forall i :: 0 <= i < |results| ==> Plain(results[i]) == Plain(r)
  }

  lemma {:induction false} CopyInFront(r: AiqResult, next: AiqResult, rest: seq<AiqResult>)
    requires AllCopies(rest, next) && Plain(next) == Plain(r)
    ensures AllCopies([r.(skip := true)] + rest, r)
  {
    var results := [r.(skip := true)] + rest;
    forall i | 0 <= i < |results|
      ensures Plain(results[i]) == Plain(r)
    {
      assert i > 0 ==> results[i] == rest[i - 1];
    }
  }

  /** All that a finished run publishes are copies of its result, `n` flagged ones and one that is not. */
  lemma {:induction false} DoneCopies(cfg: Config, s: State, r: AiqResult, n: nat)
    ensures var results := DoneFrom(cfg, s, r, n).1; |results| == n + 1 && AllCopies(results, r)
    decreases n
  {
    if n > 0 {
      var o := UpdateStep(cfg, s, r.exposures, -1);
      var next := r.(skip := true, sequence := o.effect);
      DoneCopies(cfg, o.next, next, n - 1);
      CopyInFront(r, next, DoneFrom(cfg, o.next, next, n - 1).1);
    }
  }

  /** The latest of the first `n` publications that shares the slot of publication `k`. */
  function LatestSharing(n: nat, k: nat): (j: nat)
    requires k < n
    ensures k <= j < n && n - j <= STORAGE_SIZE && (j - k) % STORAGE_SIZE == 0
  {
    n - 1 - (n - 1 - k) % STORAGE_SIZE
  }

  lemma {:induction false} LatestInSlot(n: nat, k: nat)
    requires k < n
    ensures SlotOf(LatestSharing(n, k)) == SlotOf(k)
    ensures SlotOf(n) == SlotOf(k) <==> LatestSharing(n, k) + STORAGE_SIZE == n
  {
    var j := LatestSharing(n, k);
    SlotReusedIff(j, k);
    SlotReusedIff(n, k);
  }

  /** A later publication either leaves the latest sharing one in place or replaces it. */
  lemma {:induction false} LatestGrows(n: nat, more: nat, k: nat)
    requires k < n
    ensures LatestSharing(n + more, k) >= n || LatestSharing(n + more, k) == LatestSharing(n, k)
  {
    var j := LatestSharing(n + more, k);
    if j < n {
      Congruent(LatestSharing(n, k) - k, j - k);
    }
  }

  /** Publishing on a slot makes that publication the latest on it. */
  lemma {:induction false} OwnSlotIsRewritten(n: nat, more: nat, k: nat)
    requires k < n && 0 < more && SlotOf(n) == SlotOf(k)
    ensures LatestSharing(n + more, k) >= n
  {
    LatestInSlot(n, k);
    LatestGrows(n, more, k);
  }

  /** Until the ring comes round the latest publication on a slot is the first one. */
  lemma {:induction false} LatestIsFirst(n: nat, k: nat)
    requires k < n <= k + STORAGE_SIZE
    ensures LatestSharing(n, k) == k
  {
    Congruent(LatestSharing(n, k) - k, 0);
  }

  lemma {:induction false} Congruent(a: int, b: int)
    requires a % STORAGE_SIZE == 0 && b % STORAGE_SIZE == 0 && a - b < STORAGE_SIZE && b - a < STORAGE_SIZE
    ensures a == b
  {
  }
}
