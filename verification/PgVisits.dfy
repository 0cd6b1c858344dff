/** Planning the terminals from the manifest, and visiting the kernels on them. */
module PgVisits {
  import opened Basics
  import opened KernelOrders
  import opened PgRequirements
  import opened PgAccounts

  lemma {:induction false} SameOccurrences(a: seq<KernelInfo>, b: seq<KernelInfo>, k: nat, n: nat)
    requires n <= |a| == |b| && forall j :: 0 <= j < |a| ==> a[j].id == b[j].id
    ensures Occurrences(a, k, n) == Occurrences(b, k, n)
  {
    if n > 0 {
      SameOccurrences(a, b, k, n - 1);
    }
  }

  /** The terminals still list what was planned. */
  ghost predicate Follows(plan: seq<Terminal>, terminals: seq<Terminal>) {
    |plan| == |terminals| &&
    forall u :: 0 <= u < |plan| ==>
      && plan[u].Valid() && Matches(plan[u], terminals[u])
      && (plan[u].kind.Spatial() ==> terminals[u].bitmap == plan[u].bitmap)
  }

  lemma {:induction false} LookupsAgree(planned: Terminal, t: Terminal, k: nat)
    requires Matches(planned, t)
    ensures CountOf(t, k) == CountOf(planned, k)
    ensures t.order.Some? ==> First(t.order.value, k) == First(planned.order.value, k)
    ensures forall need :: Adjust(t, k, need) == Adjust(planned, k, need)
  {
    if t.order.Some? {
      SameOccurrences(t.order.value, planned.order.value, k, |t.order.value|);
      SameFirst(t.order.value, planned.order.value, k, 0);
    }
  }

  /** The terminals as kernel `k` is visited: those of the kinds in `done`, and those of kind `kind` before
      terminal `t`, are brought up to date. */
  ghost predicate Visiting(plan: seq<Terminal>, before: seq<Terminal>, now: seq<Terminal>, done: set<Kind>, kind: Kind, t: nat,
                           k: nat, a: Requirement)
  {
    |plan| == |before| == |now| &&
    forall u :: 0 <= u < |plan| ==>
      now[u] == if plan[u].kind in done || (u < t && plan[u].kind == kind) then Touch(plan, before[u], u, k, a) else before[u]
  }

  lemma {:induction false} TouchFollows(plan: seq<Terminal>, was: Terminal, u: nat, k: nat, a: Requirement)
    requires u < |plan| && plan[u].Valid() && Matches(plan[u], was)
    requires plan[u].kind.Spatial() ==> was.bitmap == plan[u].bitmap
    ensures Matches(plan[u], Touch(plan, was, u, k, a))
    ensures plan[u].kind.Spatial() ==> Touch(plan, was, u, k, a).bitmap == plan[u].bitmap
  {
    MarkMatches(plan[u], was, k);
  }

  lemma {:induction false} VisitingFollows(plan: seq<Terminal>, before: seq<Terminal>, now: seq<Terminal>, done: set<Kind>, kind: Kind,
                                           t: nat, k: nat, a: Requirement)
    requires Follows(plan, before) && Visiting(plan, before, now, done, kind, t, k, a)
    ensures Follows(plan, now)
  {
    forall u | 0 <= u < |plan|
      ensures Matches(plan[u], now[u]) && (plan[u].kind.Spatial() ==> now[u].bitmap == plan[u].bitmap)
    {
      TouchFollows(plan, before[u], u, k, a);
    }
  }

  lemma {:induction false} VisitNext(plan: seq<Terminal>, before: seq<Terminal>, now: seq<Terminal>, after: seq<Terminal>,
                                     done: set<Kind>, kind: Kind, t: nat, k: nat, a: Requirement)
    requires Visiting(plan, before, now, done, kind, t, k, a) && t < |plan| && kind !in done
    requires after == now[t := if plan[t].kind == kind then Touch(plan, now[t], t, k, a) else now[t]]
    ensures Visiting(plan, before, after, done, kind, t + 1, k, a)
  {
  }

  /** All terminals of a kind are up to date if the only one that counts the kernel is. */
  lemma {:induction false} VisitOnly(plan: seq<Terminal>, before: seq<Terminal>, now: seq<Terminal>, after: seq<Terminal>,
                                     done: set<Kind>, kind: Kind, t: int, k: nat, a: Requirement)
    requires Visiting(plan, before, now, done, kind, 0, k, a) && kind !in done
    requires forall u :: 0 <= u < |plan| && u != t && plan[u].kind == kind ==> !Counts(plan, u, k, a)
    requires if 0 <= t < |plan| then plan[t].kind == kind && after == now[t := Touch(plan, now[t], t, k, a)] else after == now
    ensures Visiting(plan, before, after, done + {kind}, kind, 0, k, a)
  {
  }

  lemma {:induction false} KindDone(plan: seq<Terminal>, before: seq<Terminal>, now: seq<Terminal>, done: set<Kind>, kind: Kind,
                                    t: nat, next: Kind, k: nat, a: Requirement)
    requires Visiting(plan, before, now, done, kind, t, k, a) && t >= |plan|
    ensures Visiting(plan, before, now, done + {kind}, next, 0, k, a)
  {
  }

  function Put(r: Requirement, kind: Kind, need: Need): Requirement
    requires kind == CachedIn || kind == Program
  {
    if kind == CachedIn then r.(paramIn := need) else r.(program := need)
  }

  /** What the manifest says about one terminal: the sections of a parameter terminal, the bitmap of a data
      terminal or the kernel of a spatial one. */
  datatype Manifest = Manifest(kind: Kind, sections: seq<Section>, bitmap: set<nat>, kernel: nat)
  {
    /** Kernels fit the bitmap. */
    predicate Valid() {
      (forall k :: k in bitmap ==> k < MAX_KERNELS) && kernel < MAX_KERNELS
    }

    /** Whether the terminal can be planned: a parameter terminal must have sections, in as many runs as there
        is room for. */
    predicate Plannable() {
      kind.Ordered() ==> sections != [] && |OrderOf(sections, |sections|)| <= MAX_KERNELS
    }

    function Noted(): Ending {
      if Plannable() then Done else if sections == [] then Refused else Overrun
    }
  }

  function Unused(n: nat): (r: seq<KernelInfo>)
    ensures |r| == n && forall i :: 0 <= i < n ==> r[i] == UNUSED
  {
    if n == 0 then [] else [UNUSED] + Unused(n - 1)
  }

  /** Terminal `was` as the manifest describes it; its books stay as they were. */
  function Planned(was: Terminal, m: Manifest): Terminal
    requires m.Valid() && m.Plannable()
  {
    if m.kind.Ordered() then
      var order := OrderOf(m.sections, |m.sections|);
      was.(kind := m.kind, order := Some(order + Unused(MAX_KERNELS - |order|)))
    else
      was.(kind := m.kind, order := None,
           bitmap := if m.kind.Spatial() then {m.kernel} else if m.kind.DataIn? || m.kind.DataOut? then m.bitmap else was.bitmap)
  }

  ghost predicate ValidManifest(manifest: seq<Manifest>) {
    forall t :: 0 <= t < |manifest| ==> manifest[t].Valid()
  }

  /** The first terminal that cannot be planned decides. */
  function PlanEnding(manifest: seq<Manifest>, n: nat): (ending: Ending)
    requires n <= |manifest|
    ensures ending.Done? <==> forall t :: 0 <= t < n ==> manifest[t].Plannable()
    ensures !ending.Done? ==> exists t :: 0 <= t < n && manifest[t].Noted() == ending &&
                                 forall u :: 0 <= u < t ==> manifest[u].Plannable()
  {
    if n == 0 then Done
    else
      var earlier := PlanEnding(manifest, n - 1);
      if earlier.Done? then manifest[n - 1].Noted() else earlier
  }

  lemma {:induction false} PlanStops(manifest: seq<Manifest>, t: nat)
    requires t < |manifest| && PlanEnding(manifest, t).Done? && !manifest[t].Plannable()
    ensures PlanEnding(manifest, |manifest|) == manifest[t].Noted()
  {
    var ending := PlanEnding(manifest, |manifest|);
    assert !ending.Done?;
    var u :| 0 <= u < |manifest| && manifest[u].Noted() == ending && forall v :: 0 <= v < u ==> manifest[v].Plannable();
    assert u == t;
  }

  function PlanOf(was: seq<Terminal>, manifest: seq<Manifest>, n: nat): (plan: seq<Terminal>)
    requires n <= |was| == |manifest| && ValidManifest(manifest) && PlanEnding(manifest, n).Done?
    ensures |plan| == n && forall t :: 0 <= t < n ==> plan[t] == Planned(was[t], manifest[t])
  {
    if n == 0 then [] else PlanOf(was, manifest, n - 1) + [Planned(was[n - 1], manifest[n - 1])]
  }

  /** Whether preparing can deal with kernel `k`: P2P answers, and cached-in sections have a terminal. */
  predicate Prepares(plan: seq<Terminal>, p2p: seq<Option<Requirement>>, k: nat)
    requires k < |p2p|
  {
    p2p[k].Some? && (p2p[k].value.paramIn.sections == 0 || FirstOfKind(plan, CachedIn, 0) >= 0)
  }

  lemma {:induction false} AllKindsDone(plan: seq<Terminal>, before: seq<Terminal>, now: seq<Terminal>, k: nat, a: Requirement)
    requires Visiting(plan, before, now, {CachedIn, CachedOut, Program, SpatialIn, SpatialOut}, SpatialOut, 0, k, a)
    ensures forall u :: 0 <= u < |plan| ==> now[u] == Touch(plan, before[u], u, k, a)
  {
    forall u | 0 <= u < |plan|
      ensures now[u] == Touch(plan, before[u], u, k, a)
    {
      assert plan[u].kind in {CachedIn, CachedOut, Program, SpatialIn, SpatialOut} || a.On(plan[u].kind) == Need(0, 0);
    }
  }

  /** Terminals whose bitmaps hold kernels only. */
  ghost predicate Bounded(terminals: seq<Terminal>) {
    forall t, k :: 0 <= t < |terminals| && k in terminals[t].bitmap ==> k < MAX_KERNELS
  }

  lemma {:induction false} PlanIsValid(was: Terminal, m: Manifest)
    requires m.Valid() && m.Plannable() && forall k :: k in was.bitmap ==> k < MAX_KERNELS
    ensures Planned(was, m).Valid() && Matches(Planned(was, m), Planned(was, m))
  {
    assert m.kernel in {m.kernel};
  }

  lemma {:induction false} PlanFollows(was: seq<Terminal>, manifest: seq<Manifest>)
    requires |was| == |manifest| && ValidManifest(manifest) && PlanEnding(manifest, |manifest|).Done? && Bounded(was)
    ensures var plan := PlanOf(was, manifest, |was|);
            Follows(plan, plan) && forall u :: 0 <= u < |plan| ==> plan[u].Valid()
  {
    forall u | 0 <= u < |was|
      ensures Planned(was[u], manifest[u]).Valid() && Matches(Planned(was[u], manifest[u]), Planned(was[u], manifest[u]))
    {
      PlanIsValid(was[u], manifest[u]);
    }
  }

  ghost predicate AllBooked(plan: seq<Terminal>, p2p: seq<Option<Requirement>>, done: set<nat>, terminals: seq<Terminal>)
    requires Answered(p2p, done)
  {
    && |plan| == |terminals|
    && forall t :: 0 <= t < |plan| ==> plan[t].Valid() && Booked(plan, p2p, done, t, terminals[t])
  }

  ghost predicate AllSettled(plan: seq<Terminal>, p2p: seq<Option<Requirement>>, done: set<nat>, needed: seq<Requirement>,
                             needs: seq<Requirement>)
    requires Answered(p2p, done)
  {
    && |needed| == |needs| == MAX_KERNELS
    && forall k :: 0 <= k < MAX_KERNELS ==> needs[k] == if k in done then Settled(plan, k, p2p[k].value) else needed[k]
  }

  /** Every terminal's books and every kernel's saved needs after `done` were visited. */
  ghost predicate Accounts(plan: seq<Terminal>, p2p: seq<Option<Requirement>>, done: set<nat>, terminals: seq<Terminal>,
                           needed: seq<Requirement>, needs: seq<Requirement>)
  {
    |p2p| == MAX_KERNELS && Answered(p2p, done) && AllBooked(plan, p2p, done, terminals) && AllSettled(plan, p2p, done, needed, needs)
  }

  lemma {:induction false} NothingCounted(plan: seq<Terminal>, p2p: seq<Option<Requirement>>, needed: seq<Requirement>)
    requires Follows(plan, plan) && |p2p| == |needed| == MAX_KERNELS
    ensures Accounts(plan, p2p, {}, plan, needed, needed)
  {
    forall t | 0 <= t < |plan|
      ensures plan[t].Valid() && Booked(plan, p2p, {}, t, plan[t])
    {
      assert Matches(plan[t], plan[t]);
      NothingBooked(plan, p2p, t);
    }
  }

  lemma {:induction false} AllBookedNext(plan: seq<Terminal>, p2p: seq<Option<Requirement>>, done: set<nat>, before: seq<Terminal>,
                                         after: seq<Terminal>, k: nat)
    requires Answered(p2p, done + {k}) && AllBooked(plan, p2p, done, before) && k !in done
    requires |after| == |plan| && forall t :: 0 <= t < |plan| ==> after[t] == Touch(plan, before[t], t, k, p2p[k].value)
    ensures AllBooked(plan, p2p, done + {k}, after)
  {
    forall t | 0 <= t < |plan|
      ensures Booked(plan, p2p, done + {k}, t, after[t])
    {
      TouchBooks(plan, p2p, done, t, before[t], k);
    }
  }

  lemma {:induction false} AllSettledNext(plan: seq<Terminal>, p2p: seq<Option<Requirement>>, done: set<nat>, needed: seq<Requirement>,
                                          saved: seq<Requirement>, k: nat)
    requires Answered(p2p, done + {k}) && AllSettled(plan, p2p, done, needed, saved) && k < MAX_KERNELS
    ensures AllSettled(plan, p2p, done + {k}, needed, saved[k := Settled(plan, k, p2p[k].value)])
  {
  }

  lemma {:induction false} AccountsNext(plan: seq<Terminal>, p2p: seq<Option<Requirement>>, done: set<nat>, before: seq<Terminal>,
                                        after: seq<Terminal>, needed: seq<Requirement>, saved: seq<Requirement>,
                                        needs: seq<Requirement>, k: nat)
    requires Accounts(plan, p2p, done, before, needed, saved) && k !in done && k < MAX_KERNELS && p2p[k].Some?
    requires |after| == |plan| && forall t :: 0 <= t < |plan| ==> after[t] == Touch(plan, before[t], t, k, p2p[k].value)
    requires needs == saved[k := Settled(plan, k, p2p[k].value)]
    ensures Accounts(plan, p2p, done + {k}, after, needed, needs)
  {
    AllBookedNext(plan, p2p, done, before, after, k);
    AllSettledNext(plan, p2p, done, needed, saved, k);
  }

  lemma {:induction false} AddOnce(start: Uint32, i: nat, amount: nat)
    ensures ToUint32(ToUint32(start + i * amount) + amount) == ToUint32(start + (i + 1) * amount)
  {
    var sum, total := i * amount, (i + 1) * amount;
    assert total == sum + amount by {
      Distribute(i, 1, amount);
    }
    AddTo(ToUint32(start + sum), start, sum, amount, total);
  }

  lemma {:induction false} MarkKeepsCount(was: Terminal, k: nat)
    ensures CountOf(Mark(was, k), k) == CountOf(was, k)
  {
    if was.order.Some? {
      SameOccurrences(was.order.value, Mark(was, k).order.value, k, |was.order.value|);
    }
  }
}
