/** What `prepare` guarantees for the encoding of a terminal. */
module PgGuarantees {
  import opened Basics
  import opened KernelOrders
  import opened PgRequirements
  import opened PgAccounts
  import opened PgVisits
  import opened PgEncode

  /** Terminal `term` after preparing: the books start at zero, and the order comes from a manifest. */
  ghost predicate Prepared(plan: seq<Terminal>, p2p: seq<Option<Requirement>>, kernels: set<nat>, t: nat, term: Terminal,
                           needs: seq<Requirement>) {
    && t < |plan| && plan[t].Valid() && |p2p| == |needs| == MAX_KERNELS && Answered(p2p, kernels)
    && Booked(plan, p2p, kernels, t, term)
    && plan[t].payloadSize == 0
    && (plan[t].order.Some? ==> plan[t].bitmap == {} && Clean(plan[t].order.value))
    && (forall k :: k in kernels ==> needs[k] == Settled(plan, k, p2p[k].value))
  }

  // -------------------------------------------------------- saved and counted

  /** Whether a program terminal among `from`, .., `end - 1` saves a larger size for kernel `k`. */
  ghost predicate Enlarged(plan: seq<Terminal>, k: nat, need: Need, from: nat, end: nat)
    requires end <= |plan|
  {
    exists u: nat :: from <= u < end && Enlarges(plan, k, need, u)
  }

  predicate Enlarges(plan: seq<Terminal>, k: nat, need: Need, u: nat)
    requires u < |plan|
  {
    && plan[u].kind == Program && plan[u].order.Some?
    && var order, j := plan[u].order.value, First(plan[u].order.value, k);
       && j >= 0
       && order[j].sections != Sweep(plan, k, need, u).sections
       && order[j].size > Sweep(plan, k, need, u).size
  }

  lemma {:induction false} SweepGrowsIff(plan: seq<Terminal>, k: nat, need: Need, from: nat, end: nat)
    requires from <= end <= |plan|
    ensures Sweep(plan, k, need, from).size <= Sweep(plan, k, need, end).size
    ensures Sweep(plan, k, need, from).size == Sweep(plan, k, need, end).size <==> !Enlarged(plan, k, need, from, end)
    decreases end
  {
    if from < end {
      SweepGrowsIff(plan, k, need, from, end - 1);
      assert Enlarged(plan, k, need, from, end) <==> Enlarged(plan, k, need, from, end - 1) || Enlarges(plan, k, need, end - 1);
    }
  }

  /** What is saved for a kernel is what its terminal counted, unless a later program terminal enlarged it. */
  lemma {:induction false} SavedIsCountedIff(plan: seq<Terminal>, t: nat, k: nat, a: Requirement)
    requires t < |plan| && Counts(plan, t, k, a)
    ensures var saved, counted := Settled(plan, k, a).On(plan[t].kind).size, Counted(plan, t, k, a).size;
            && counted <= saved
            && (plan[t].kind != Program ==> counted == saved)
            && (plan[t].kind == Program ==> (counted == saved <==> !Enlarged(plan, k, a.program, t + 1, |plan|)))
  {
    if plan[t].kind == Program {
      SweepGrowsIff(plan, k, a.program, t + 1, |plan|);
    }
  }

  lemma {:induction false} LedgerBelowSaved(plan: seq<Terminal>, p2p: seq<Option<Requirement>>, kernels: set<nat>, t: nat,
                                            needs: seq<Requirement>, k: nat)
    requires t < |plan| && |p2p| == |needs| == MAX_KERNELS && Answered(p2p, kernels)
    requires forall i :: i in kernels ==> needs[i] == Settled(plan, i, p2p[i].value)
    requires k in Ledger(plan, p2p, kernels, t)
    ensures k < MAX_KERNELS && Ledger(plan, p2p, kernels, t)[k] <= needs[k].On(plan[t].kind).size
    ensures Ledger(plan, p2p, kernels, t)[k] == needs[k].On(plan[t].kind).size <==>
            plan[t].kind != Program || !Enlarged(plan, k, p2p[k].value.program, t + 1, |plan|)
  {
    SavedIsCountedIff(plan, t, k, p2p[k].value);
  }

  // ------------------------------------------------------ the encoding fits

  lemma {:induction false} SumSameKernels(a: seq<KernelInfo>, b: seq<KernelInfo>, ledger: map<nat, nat>, n: nat)
    requires n <= |a| && n <= |b|
    requires forall i :: 0 <= i < n ==> a[i].id == b[i].id
    ensures Sum(a, ledger, n) == Sum(b, ledger, n)
  {
    if n > 0 {
      SumSameKernels(a, b, ledger, n - 1);
    }
  }

  lemma {:induction false} StopSame(a: seq<KernelInfo>, b: seq<KernelInfo>, from: nat)
    requires |a| == |b| && from <= |a|
    requires forall i :: 0 <= i < |a| ==> a[i].id == b[i].id
    ensures Stop(a, from) == Stop(b, from)
    decreases |a| - from
  {
    if from < |a| && a[from].id < MAX_KERNELS {
      StopSame(a, b, from + 1);
    }
  }

  /** What was counted over the whole order is what the walked entries account for. */
  lemma {:induction false} WalkedSum(planned: Terminal, term: Terminal, ledger: map<nat, nat>)
    requires planned.Valid() && term.Valid() && Matches(planned, term) && term.bitmap != {}
    requires planned.order.Some? ==> Clean(planned.order.value)
    requires planned.order.None? ==> term.bitmap == planned.bitmap
    requires forall k :: k in ledger ==> k < MAX_KERNELS
    ensures Sum(Walked(term), ledger, |Walked(term)|) == Sum(planned.Listed(), ledger, |planned.Listed()|)
  {
    if planned.order.Some? {
      var order, marked := planned.order.value, term.order.value;
      StopSame(order, marked, 0);
      var stop := Stop(order, 0);
      SumOfPrefix(order, ledger, stop, |order|);
      SumSameKernels(order[..stop], marked[..stop], ledger, stop);
    }
  }

  /** A prepared terminal is well formed, and without an order it uses the kernels it was planned for. */
  lemma {:induction false} PreparedIsValid(plan: seq<Terminal>, p2p: seq<Option<Requirement>>, kernels: set<nat>, t: nat, term: Terminal,
                                           needs: seq<Requirement>)
    requires Prepared(plan, p2p, kernels, t, term, needs)
    ensures term.Valid()
    ensures term.order.None? ==> term.bitmap == plan[t].bitmap
  {
    var ledger := Ledger(plan, p2p, kernels, t);
    if plan[t].order.None? {
      forall k | k in ledger
        ensures k in plan[t].bitmap
      {
        assert Counts(plan, t, k, p2p[k].value);
        assert plan[t].kind.Spatial();
      }
    }
  }

  /** The bytes counted on a terminal, before they are cut to 32 bits. */
  ghost function CountedTotal(plan: seq<Terminal>, p2p: seq<Option<Requirement>>, kernels: set<nat>, t: nat): nat
    requires t < |plan| && plan[t].Valid() && Answered(p2p, kernels)
  {
    Sum(plan[t].Listed(), Ledger(plan, p2p, kernels, t), |plan[t].Listed()|)
  }

  lemma {:induction false} LayoutFitsIff(plan: seq<Terminal>, p2p: seq<Option<Requirement>>, kernels: set<nat>, t: nat, term: Terminal,
                                         sizes: Sizes)
    requires Prepared(plan, p2p, kernels, t, term, sizes.needs) && term.Valid() && term.bitmap != {}
    requires term.order.None? ==> term.bitmap == plan[t].bitmap
    requires sizes.kind == plan[t].kind && sizes.NoneGrew(Walked(term))
    ensures var walked, ledger := Walked(term), Ledger(plan, p2p, kernels, t);
            && (AllFit(walked, sizes, term.payloadSize) <==>
                  && CountedTotal(plan, p2p, kernels, t) < TWO_TO_THE_32
                  && forall i :: 0 <= i < |walked| ==> Entry(ledger, walked[i].id) == sizes.Saved(walked[i].id).size)
            && (AllFit(walked, sizes, term.payloadSize) ==> OffsetOf(walked, sizes, |walked|) == term.payloadSize)
  {
    var walked, ledger := Walked(term), Ledger(plan, p2p, kernels, t);
    forall k | k in ledger
      ensures k < MAX_KERNELS && ledger[k] <= sizes.Saved(k).size
    {
      LedgerBelowSaved(plan, p2p, kernels, t, sizes.needs, k);
    }
    WalkedSum(plan[t], term, ledger);
    SumsCompare(walked, sizes, ledger, |walked|);
    AllFitIff(walked, sizes, term.payloadSize);
  }

  /** Whether the payload has room for kernel `k` on terminal `t`: nothing was saved for it, or it was counted
      and no later program terminal enlarged what was saved. */
  ghost predicate HasRoom(plan: seq<Terminal>, p2p: seq<Option<Requirement>>, kernels: set<nat>, t: nat, sizes: Sizes, k: nat)
    requires t < |plan| && Answered(p2p, kernels) && sizes.Valid() && k < MAX_KERNELS
  {
    || sizes.Saved(k).size == 0
    || (&& k in kernels
        && Counts(plan, t, k, p2p[k].value)
        && (plan[t].kind == Program ==> !Enlarged(plan, k, p2p[k].value.program, t + 1, |plan|)))
  }

  lemma {:induction false} HasRoomIff(plan: seq<Terminal>, p2p: seq<Option<Requirement>>, kernels: set<nat>, t: nat, sizes: Sizes, k: nat)
    requires t < |plan| && |p2p| == MAX_KERNELS && Answered(p2p, kernels) && sizes.Valid() && k < MAX_KERNELS
    requires sizes.kind == plan[t].kind && forall i :: i in kernels ==> sizes.needs[i] == Settled(plan, i, p2p[i].value)
    ensures HasRoom(plan, p2p, kernels, t, sizes, k) <==>
            Entry(Ledger(plan, p2p, kernels, t), k) == sizes.Saved(k).size
  {
    if k in Ledger(plan, p2p, kernels, t) {
      LedgerBelowSaved(plan, p2p, kernels, t, sizes.needs, k);
    }
  }

  /** If P2P reports no more at encoding than was saved, every size check passes exactly if the counted bytes fit
      32 bits and there is room for each kernel of the order, and then the layout ends where the payload does. */
  lemma {:induction false} EncodeFitsIff(plan: seq<Terminal>, p2p: seq<Option<Requirement>>, kernels: set<nat>, t: nat, term: Terminal,
                                         sizes: Sizes)
    requires Prepared(plan, p2p, kernels, t, term, sizes.needs) && term.Valid() && term.bitmap != {}
    requires sizes.kind == plan[t].kind && sizes.NoneGrew(Walked(term))
    ensures var walked := Walked(term);
            && (AllFit(walked, sizes, term.payloadSize) <==>
                  && CountedTotal(plan, p2p, kernels, t) < TWO_TO_THE_32
                  && forall i :: 0 <= i < |walked| ==> HasRoom(plan, p2p, kernels, t, sizes, walked[i].id))
            && (AllFit(walked, sizes, term.payloadSize) ==> OffsetOf(walked, sizes, |walked|) == term.payloadSize)
  {
    PreparedIsValid(plan, p2p, kernels, t, term, sizes.needs);
    LayoutFitsIff(plan, p2p, kernels, t, term, sizes);
    var walked := Walked(term);
    forall i | 0 <= i < |walked|
      ensures HasRoom(plan, p2p, kernels, t, sizes, walked[i].id) <==>
              Entry(Ledger(plan, p2p, kernels, t), walked[i].id) == sizes.Saved(walked[i].id).size
    {
      HasRoomIff(plan, p2p, kernels, t, sizes, walked[i].id);
    }
  }

  // ---------------------------------------------------------------- clearing

  /** The manifest's size of an overridden kernel is no larger than what is saved for it. */
  lemma {:induction false} OverriddenFits(plan: seq<Terminal>, t: nat, k: nat, a: Requirement)
    requires t < |plan| && plan[t].order.Some? && plan[t].kind.Ordered() && Overridden(plan, t, k, a)
    ensures plan[t].order.value[First(plan[t].order.value, k)].size <= Settled(plan, k, a).On(plan[t].kind).size
  {
    SavedIsCountedIff(plan, t, k, a);
  }

  lemma {:induction false} MarkedFits(plan: seq<Terminal>, p2p: seq<Option<Requirement>>, kernels: set<nat>, t: nat, term: Terminal,
                                      needs: seq<Requirement>, j: nat)
    requires Prepared(plan, p2p, kernels, t, term, needs) && term.order.Some? && j < Stop(term.order.value, 0)
    requires term.order.value[j].initialize
    ensures term.order.value[j].size <= needs[term.order.value[j].id].On(plan[t].kind).size
  {
    var order := plan[t].order.value;
    StopSame(order, term.order.value, 0);
    var k := order[j].id;
    assert k in kernels && Overridden(plan, t, k, p2p[k].value) && j == First(order, k);
    OverriddenFits(plan, t, k, p2p[k].value);
  }

  lemma {:induction false} RoomForSaved(walked: seq<KernelInfo>, sizes: Sizes, i: nat, size: nat)
    requires i < |walked| && sizes.Valid() && Encodable(walked) && size <= sizes.Saved(walked[i].id).size
    ensures size <= sizes.Next(walked[i].id, i)
    ensures OffsetOf(walked, sizes, i) + size <= OffsetOf(walked, sizes, i + 1)
  {
  }

  /** Clearing before a kernel is encoded stays inside the kernel's own range. */
  lemma {:induction false} ClearsOwnRange(plan: seq<Terminal>, p2p: seq<Option<Requirement>>, kernels: set<nat>, t: nat, term: Terminal,
                                          sizes: Sizes, i: nat)
    requires Prepared(plan, p2p, kernels, t, term, sizes.needs) && term.Valid() && i < |Walked(term)|
    requires sizes.kind == plan[t].kind && sizes.Valid()
    ensures var walked := Walked(term);
            walked[i].initialize ==>
              && walked[i].size <= sizes.Next(walked[i].id, i)
              && OffsetOf(walked, sizes, i) + walked[i].size <= OffsetOf(walked, sizes, i + 1)
  {
    var walked := Walked(term);
    if walked[i].initialize {
      MarkedFits(plan, p2p, kernels, t, term, sizes.needs, i);
      RoomForSaved(walked, sizes, i, walked[i].size);
    }
  }

  /** On a prepared terminal everything cleared is inside the payload exactly if, where encoding stops, the
      manifest's size of that entry still fits behind the offset. */
  lemma {:induction false} PreparedClearsInsideIff(plan: seq<Terminal>, p2p: seq<Option<Requirement>>, kernels: set<nat>, t: nat, term: Terminal,
                                                   sizes: Sizes, payloadSize: nat, ok: bool, curOffset: nat, trace: seq<Op>)
    requires Prepared(plan, p2p, kernels, t, term, sizes.needs) && term.Valid()
    requires sizes.kind == plan[t].kind && sizes.Valid()
    requires TraceOf(Walked(term), sizes, payloadSize, ok, curOffset, trace)
    ensures var walked := Walked(term);
            AllInside(trace, payloadSize) <==>
            forall n :: 0 <= n < |walked| && FailsAt(walked, sizes, payloadSize, n) ==> ClearFits(walked, sizes, payloadSize, n)
  {
    forall i | 0 <= i < |Walked(term)|
      ensures Walked(term)[i].initialize ==> Walked(term)[i].size <= sizes.Next(Walked(term)[i].id, i)
    {
      ClearsOwnRange(plan, p2p, kernels, t, term, sizes, i);
    }
    ClearsInsideIff(Walked(term), sizes, payloadSize, ok, curOffset, trace);
  }

  // -------------------------------------------------- from the manifest on

  lemma {:induction false} OrderOfKernels(sections: seq<Section>, n: nat)
    requires n <= |sections| && forall i :: 0 <= i < n ==> 0 <= sections[i].kernel < MAX_KERNELS
    ensures forall j :: 0 <= j < |OrderOf(sections, n)| ==>
              OrderOf(sections, n)[j].id < MAX_KERNELS && !OrderOf(sections, n)[j].initialize
  {
    if n > 0 {
      OrderOfKernels(sections, n - 1);
    }
  }

  lemma {:induction false} StopAt(order: seq<KernelInfo>, from: nat, stop: nat)
    requires from <= stop <= |order| && (stop < |order| ==> order[stop].id >= MAX_KERNELS)
    requires forall i :: from <= i < stop ==> order[i].id < MAX_KERNELS
    ensures Stop(order, from) == stop
    decreases stop - from
  {
    if from < stop {
      StopAt(order, from + 1, stop);
    }
  }

  /** An order read from a manifest of kernels is followed by unused entries only. */
  lemma {:induction false} ManifestOrderIsClean(sections: seq<Section>)
    requires |OrderOf(sections, |sections|)| <= MAX_KERNELS
    requires forall i :: 0 <= i < |sections| ==> 0 <= sections[i].kernel < MAX_KERNELS
    ensures var order := OrderOf(sections, |sections|);
            var buffer := order + Unused(MAX_KERNELS - |order|);
            Clean(buffer) && Stop(buffer, 0) == Runs(sections, |sections|)
  {
    var order := OrderOf(sections, |sections|);
    OrderOfKernels(sections, |sections|);
    EntriesAreRuns(sections, |sections|);
    var buffer := order + Unused(MAX_KERNELS - |order|);
    forall i | |order| <= i < MAX_KERNELS
      ensures buffer[i] == UNUSED
    {
    }
    StopAt(buffer, 0, |order|);
  }

  /** A terminal with empty books whose order, if it has one, came from a manifest of kernels. */
  ghost predicate FreshlyPlanned(planned: Terminal) {
    && planned.Valid() && planned.payloadSize == 0
    && (planned.order.Some? ==> planned.bitmap == {} && Clean(planned.order.value))
  }

  lemma {:induction false} PlannedFresh(was: Terminal, m: Manifest)
    requires m.Valid() && m.Plannable() && was.payloadSize == 0 && was.bitmap == {}
    requires forall i :: 0 <= i < |m.sections| ==> 0 <= m.sections[i].kernel < MAX_KERNELS
    ensures FreshlyPlanned(Planned(was, m))
    ensures m.kind.Ordered() ==> Stop(Planned(was, m).order.value, 0) == Runs(m.sections, |m.sections|)
  {
    PlanIsValid(was, m);
    if m.kind.Ordered() {
      ManifestOrderIsClean(m.sections);
    }
  }

  lemma {:induction false} PreparedFromAccounts(plan: seq<Terminal>, p2p: seq<Option<Requirement>>, kernels: set<nat>, terminals: seq<Terminal>,
                                                needed: seq<Requirement>, needs: seq<Requirement>, t: nat)
    requires Accounts(plan, p2p, kernels, terminals, needed, needs) && t < |plan| && FreshlyPlanned(plan[t])
    ensures Prepared(plan, p2p, kernels, t, terminals[t], needs)
  {
    assert forall k :: k in kernels ==> k < MAX_KERNELS;
  }

  /** Terminals that were never prepared, to be planned from a manifest that names kernels only. */
  ghost predicate Fresh(was: seq<Terminal>, manifest: seq<Manifest>) {
    && |was| == |manifest| && ValidManifest(manifest) && PlanEnding(manifest, |manifest|).Done?
    && (forall t :: 0 <= t < |was| ==> was[t].payloadSize == 0 && was[t].bitmap == {})
    && (forall t, i :: 0 <= t < |manifest| && 0 <= i < |manifest[t].sections| ==> 0 <= manifest[t].sections[i].kernel < MAX_KERNELS)
  }

  /** Preparing fresh terminals from a manifest leaves each of them prepared. */
  lemma {:induction false} PreparedFromManifest(was: seq<Terminal>, manifest: seq<Manifest>, plan: seq<Terminal>,
                                                p2p: seq<Option<Requirement>>, kernels: set<nat>, terminals: seq<Terminal>,
                                                needed: seq<Requirement>, needs: seq<Requirement>, t: nat)
    requires Fresh(was, manifest) && plan == PlanOf(was, manifest, |was|) && t < |plan|
    requires Accounts(plan, p2p, kernels, terminals, needed, needs)
    ensures Prepared(plan, p2p, kernels, t, terminals[t], needs)
  {
    PlannedFresh(was[t], manifest[t]);
    PreparedFromAccounts(plan, p2p, kernels, terminals, needed, needs, t);
  }

  /** The order of a prepared terminal is read past its end exactly if its manifest fills the whole buffer. */
  lemma {:induction false} RunsOutIff(was: seq<Terminal>, manifest: seq<Manifest>, plan: seq<Terminal>,
                                      p2p: seq<Option<Requirement>>, kernels: set<nat>, terminals: seq<Terminal>,
                                      needed: seq<Requirement>, needs: seq<Requirement>, t: nat)
    requires Fresh(was, manifest) && plan == PlanOf(was, manifest, |was|) && t < |plan|
    requires Accounts(plan, p2p, kernels, terminals, needed, needs) && t < |terminals| && terminals[t].bitmap != {}
    ensures var m := manifest[t];
            RunsOut(terminals[t]) <==> m.kind.Ordered() && Runs(m.sections, |m.sections|) == MAX_KERNELS
  {
    PlannedFresh(was[t], manifest[t]);
    BookedMatches(plan, p2p, kernels, terminals, needed, needs, t);
    RunsOutSame(plan[t], terminals[t]);
  }

  lemma {:induction false} BookedMatches(plan: seq<Terminal>, p2p: seq<Option<Requirement>>, kernels: set<nat>, terminals: seq<Terminal>,
                                         needed: seq<Requirement>, needs: seq<Requirement>, t: nat)
    requires Accounts(plan, p2p, kernels, terminals, needed, needs) && t < |plan|
    ensures t < |terminals| && Matches(plan[t], terminals[t])
  {
    assert Booked(plan, p2p, kernels, t, terminals[t]);
  }

  lemma {:induction false} RunsOutSame(planned: Terminal, term: Terminal)
    requires Matches(planned, term) && term.bitmap != {}
    ensures RunsOut(term) <==> planned.order.Some? && Stop(planned.order.value, 0) == |planned.order.value|
  {
    if planned.order.Some? {
      StopSame(planned.order.value, term.order.value, 0);
    }
  }

  lemma {:induction false} AllPassIff(walked: seq<KernelInfo>, sizes: Sizes, payloadSize: nat)
    requires sizes.Valid() && Encodable(walked) && !sizes.kind.Unknown?
    requires forall i :: 0 <= i < |walked| ==> sizes.answers(i).encoded
    ensures AllPass(walked, sizes, payloadSize, |walked|) <==> AllFit(walked, sizes, payloadSize)
  {
    forall i | 0 <= i < |walked|
      ensures Passes(walked, sizes, payloadSize, i) <==> Fits(walked, sizes, payloadSize, i)
    {
    }
  }

  /** Preparing and then encoding with sizes that did not grow: if P2P encodes every kernel it is asked to,
      the terminal is encoded exactly if the counted bytes fit 32 bits, there is room for each kernel, and the
      manifest leaves an entry of its order unused. */
  lemma {:induction false} EncodeAfterPrepareIff(was: seq<Terminal>, manifest: seq<Manifest>, plan: seq<Terminal>,
                                                 p2p: seq<Option<Requirement>>, kernels: set<nat>, terminals: seq<Terminal>,
                                                 needed: seq<Requirement>, sizes: Sizes, t: nat)
    requires Fresh(was, manifest) && plan == PlanOf(was, manifest, |was|) && t < |plan|
    requires Accounts(plan, p2p, kernels, terminals, needed, sizes.needs) && terminals[t].Valid() && terminals[t].bitmap != {}
    requires sizes.kind == plan[t].kind && !sizes.kind.Unknown? && sizes.NoneGrew(Walked(terminals[t]))
    requires forall i :: 0 <= i < |Walked(terminals[t])| ==> sizes.answers(i).encoded
    ensures var walked := Walked(terminals[t]);
            AllPass(walked, sizes, terminals[t].payloadSize, |walked|) && !RunsOut(terminals[t]) <==>
            && CountedTotal(plan, p2p, kernels, t) < TWO_TO_THE_32
            && (forall i :: 0 <= i < |walked| ==> HasRoom(plan, p2p, kernels, t, sizes, walked[i].id))
            && (manifest[t].kind.Ordered() ==> Runs(manifest[t].sections, |manifest[t].sections|) < MAX_KERNELS)
  {
    EntriesAreRuns(manifest[t].sections, |manifest[t].sections|);
    RunsOutIff(was, manifest, plan, p2p, kernels, terminals, needed, sizes.needs, t);
    PreparedFromManifest(was, manifest, plan, p2p, kernels, terminals, needed, sizes.needs, t);
    EncodeFitsIff(plan, p2p, kernels, t, terminals[t], sizes);
    AllPassIff(Walked(terminals[t]), sizes, terminals[t].payloadSize);
  }
}
