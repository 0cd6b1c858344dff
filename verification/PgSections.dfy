/** Encoding what was prepared: which terminals can be encoded, and where their sections and bytes end, told from the
    manifests and P2P's answers. */
module PgSections {
  import opened Basics
  import opened KernelOrders
  import opened PgRequirements
  import opened PgAccounts
  import opened PgVisits
  import opened PgEncode
  import opened PgGuarantees
  import opened PgTrace
  import opened PgPlans
  import opened PgSettled

  /** Terminal `t` takes kernel `k`, which its manifest names. */
  ghost predicate Takes(manifest: seq<Manifest>, p2p: seq<Option<Requirement>>, kernels: set<nat>, t: nat, k: nat)
    requires t < |manifest| && Answered(p2p, kernels)
  {
    k in kernels &&
    var a := p2p[k].value;
    match manifest[t].kind
    case CachedIn => a.paramIn.sections != 0 && FirstCachedIn(manifest, t)
    case CachedOut => a.paramOut.sections != 0
    case Program => a.program.sections != 0
    case SpatialIn => a.spatialIn.sections != 0 && FirstOfItsKernel(manifest, t)
    case SpatialOut => a.spatialOut.sections != 0 && FirstOfItsKernel(manifest, t)
    case _ => false
  }

  /** Planned terminal `t` lists kernel `k`. */
  ghost predicate Lists(planned: Terminal, k: nat) {
    if planned.order.Some? then First(planned.order.value, k) >= 0 else planned.kind.Spatial() && planned.bitmap == {k}
  }

  lemma {:induction false} TakesIff(was: seq<Terminal>, manifest: seq<Manifest>, plan: seq<Terminal>, p2p: seq<Option<Requirement>>,
                                    kernels: set<nat>, t: nat, k: nat)
    requires Fresh(was, manifest) && plan == PlanOf(was, manifest, |was|) && t < |plan| && k < 128 && Answered(p2p, kernels)
    requires Lists(plan[t], k)
    ensures Takes(manifest, p2p, kernels, t, k) <==> k in kernels && Counts(plan, t, k, p2p[k].value)
  {
    PlannedIs(was[t], manifest[t]);
    if manifest[t].kind.Ordered() {
      ListsIff(was[t], manifest[t], k);
    } else {
      assert manifest[t].kernel in plan[t].bitmap;
    }
    if k in kernels {
      CountsIff(was, manifest, plan, t, k, p2p[k].value);
    }
  }

  /** Whatever is walked of a prepared terminal was listed when it was planned. */
  lemma {:induction false} WalkedIsListed(planned: Terminal, term: Terminal, i: nat)
    requires planned.Valid() && term.Valid() && Matches(planned, term) && i < |Walked(term)|
    requires term.kind.Ordered() || (term.kind.Spatial() && term.bitmap == planned.bitmap)
    ensures Lists(planned, Walked(term)[i].id) && Walked(term)[i].id < 128
  {
    var k := Walked(term)[i].id;
    if planned.order.Some? {
      assert planned.order.value[i].id == k;
    } else {
      var only :| only in planned.bitmap && planned.bitmap == {only};
      assert k in term.bitmap;
    }
  }

  // ------------------------------------------------------------------- bytes

  /** There is room for the kernel: nothing is saved for it, or the terminal takes it and no later program terminal makes what
      is saved grow. */
  ghost predicate RoomFor(manifest: seq<Manifest>, plan: seq<Terminal>, p2p: seq<Option<Requirement>>, kernels: set<nat>, t: nat,
                          needs: seq<Requirement>, k: nat)
    requires t < |manifest| == |plan| && Answered(p2p, kernels) && k < |needs|
  {
    || needs[k].On(manifest[t].kind).size == 0
    || (Takes(manifest, p2p, kernels, t, k) && (manifest[t].kind == Program ==> !GrownLater(plan, k, p2p[k].value.program, t)))
  }

  lemma {:induction false} RoomForIff(was: seq<Terminal>, manifest: seq<Manifest>, plan: seq<Terminal>, p2p: seq<Option<Requirement>>,
                                      kernels: set<nat>, t: nat, sizes: Sizes, k: nat)
    requires Fresh(was, manifest) && plan == PlanOf(was, manifest, |was|) && t < |plan| && k < 128 && Answered(p2p, kernels)
    requires Lists(plan[t], k) && sizes.Valid() && sizes.kind == plan[t].kind
    ensures RoomFor(manifest, plan, p2p, kernels, t, sizes.needs, k) <==> HasRoom(plan, p2p, kernels, t, sizes, k)
  {
    PlannedIs(was[t], manifest[t]);
    TakesIff(was, manifest, plan, p2p, kernels, t, k);
    if k in kernels {
      GrownLaterIff(plan, k, p2p[k].value.program, t);
    }
  }

  /** If there is room for every kernel, what was counted is what is laid out. */
  lemma {:induction false} RoomedTotal(plan: seq<Terminal>, p2p: seq<Option<Requirement>>, kernels: set<nat>, t: nat, term: Terminal, sizes: Sizes)
    requires Prepared(plan, p2p, kernels, t, term, sizes.needs) && term.Valid() && term.bitmap != {}
    requires sizes.kind == plan[t].kind && sizes.NoneGrew(Walked(term))
    requires forall i :: 0 <= i < |Walked(term)| ==> HasRoom(plan, p2p, kernels, t, sizes, Walked(term)[i].id)
    ensures CountedTotal(plan, p2p, kernels, t) == OffsetOf(Walked(term), sizes, |Walked(term)|)
  {
    var walked, ledger := Walked(term), Ledger(plan, p2p, kernels, t);
    PreparedIsValid(plan, p2p, kernels, t, term, sizes.needs);
    forall k | k in ledger
      ensures k < MAX_KERNELS && ledger[k] <= sizes.Saved(k).size
    {
      LedgerBelowSaved(plan, p2p, kernels, t, sizes.needs, k);
    }
    forall i | 0 <= i < |walked|
      ensures Entry(ledger, walked[i].id) == sizes.Saved(walked[i].id).size
    {
      HasRoomIff(plan, p2p, kernels, t, sizes, walked[i].id);
    }
    WalkedSum(plan[t], term, ledger);
    SumsCompare(walked, sizes, ledger, |walked|);
  }

  lemma {:induction false} WalkedRoomIff(was: seq<Terminal>, manifest: seq<Manifest>, plan: seq<Terminal>, p2p: seq<Option<Requirement>>,
                                         kernels: set<nat>, t: nat, term: Terminal, sizes: Sizes, i: nat)
    requires Fresh(was, manifest) && plan == PlanOf(was, manifest, |was|)
    requires Prepared(plan, p2p, kernels, t, term, sizes.needs) && term.Valid() && i < |Walked(term)|
    requires sizes.Valid() && sizes.kind == plan[t].kind && (sizes.kind.Ordered() || sizes.kind.Spatial())
    ensures RoomFor(manifest, plan, p2p, kernels, t, sizes.needs, Walked(term)[i].id) <==>
            HasRoom(plan, p2p, kernels, t, sizes, Walked(term)[i].id)
  {
    PreparedIsValid(plan, p2p, kernels, t, term, sizes.needs);
    WalkedIsListed(plan[t], term, i);
    RoomForIff(was, manifest, plan, p2p, kernels, t, sizes, Walked(term)[i].id);
  }

  /** There is room for every kernel that is walked. */
  ghost predicate AllRoom(manifest: seq<Manifest>, plan: seq<Terminal>, p2p: seq<Option<Requirement>>, kernels: set<nat>, t: nat,
                          needs: seq<Requirement>, walked: seq<KernelInfo>)
    requires t < |manifest| == |plan| && Answered(p2p, kernels) && |needs| == 128 && Encodable(walked)
  {
    forall i :: 0 <= i < |walked| ==> RoomFor(manifest, plan, p2p, kernels, t, needs, walked[i].id)
  }

  lemma {:induction false} AllRoomIff(was: seq<Terminal>, manifest: seq<Manifest>, plan: seq<Terminal>, p2p: seq<Option<Requirement>>,
                                      kernels: set<nat>, t: nat, term: Terminal, sizes: Sizes)
    requires Fresh(was, manifest) && plan == PlanOf(was, manifest, |was|)
    requires Prepared(plan, p2p, kernels, t, term, sizes.needs) && term.Valid()
    requires sizes.Valid() && sizes.kind == plan[t].kind && (sizes.kind.Ordered() || sizes.kind.Spatial())
    ensures AllRoom(manifest, plan, p2p, kernels, t, sizes.needs, Walked(term)) <==>
            forall i :: 0 <= i < |Walked(term)| ==> HasRoom(plan, p2p, kernels, t, sizes, Walked(term)[i].id)
  {
    forall i | 0 <= i < |Walked(term)|
      ensures RoomFor(manifest, plan, p2p, kernels, t, sizes.needs, Walked(term)[i].id) <==>
              HasRoom(plan, p2p, kernels, t, sizes, Walked(term)[i].id)
    {
      WalkedRoomIff(was, manifest, plan, p2p, kernels, t, term, sizes, i);
    }
  }

  /** Preparing and then encoding a parameter terminal with sizes that did not grow, told from the manifests and P2P's answers:
      it is encoded exactly if the layout ends within 32 bits, there is room for each kernel, and the manifest leaves an entry
      of its order unused. */
  lemma {:induction false} EncodeFromManifestIff(was: seq<Terminal>, manifest: seq<Manifest>, plan: seq<Terminal>,
                                                 p2p: seq<Option<Requirement>>, kernels: set<nat>, terminals: seq<Terminal>,
                                                 needed: seq<Requirement>, sizes: Sizes, t: nat)
    requires Fresh(was, manifest) && plan == PlanOf(was, manifest, |was|) && t < |plan|
    requires Accounts(plan, p2p, kernels, terminals, needed, sizes.needs) && terminals[t].Valid() && terminals[t].bitmap != {}
    requires sizes.kind == plan[t].kind && (sizes.kind.Ordered() || sizes.kind.Spatial()) && sizes.NoneGrew(Walked(terminals[t]))
    requires forall i :: 0 <= i < |Walked(terminals[t])| ==> sizes.answers(i).encoded
    ensures var walked := Walked(terminals[t]);
            AllPass(walked, sizes, terminals[t].payloadSize, |walked|) && !RunsOut(terminals[t]) <==>
            && OffsetOf(walked, sizes, |walked|) < 0x1_0000_0000
            && AllRoom(manifest, plan, p2p, kernels, t, sizes.needs, walked)
            && (sizes.kind.Ordered() ==> Runs(manifest[t].sections, |manifest[t].sections|) < 128)
  {
    var walked := Walked(terminals[t]);
    EncodeAfterPrepareIff(was, manifest, plan, p2p, kernels, terminals, needed, sizes, t);
    PreparedFromManifest(was, manifest, plan, p2p, kernels, terminals, needed, sizes.needs, t);
    AllRoomIff(was, manifest, plan, p2p, kernels, t, terminals[t], sizes);
    if AllRoom(manifest, plan, p2p, kernels, t, sizes.needs, walked) {
      RoomedTotal(plan, p2p, kernels, t, terminals[t], sizes);
    }
  }

  // ---------------------------------------------------------------- sections

  /** The sections saved for the kernel are those counted for it: it is taken, and the last program terminal to list it does
      so with as many sections; or it is not taken and none are saved. */
  ghost predicate SectionsKept(manifest: seq<Manifest>, plan: seq<Terminal>, p2p: seq<Option<Requirement>>, kernels: set<nat>, t: nat,
                               needs: seq<Requirement>, k: nat)
    requires t < |manifest| == |plan| && Answered(p2p, kernels) && k < |needs|
  {
    if Takes(manifest, p2p, kernels, t, k) then
      plan[t].kind == Program && Lister(plan, k, t) ==>
        forall u :: t < u < |plan| && LastLister(plan, k, u, |plan|) ==> EntryFor(plan[u], k).sections == EntryFor(plan[t], k).sections
    else
      needs[k].On(manifest[t].kind).sections == 0
  }

  /** What a terminal other than a program terminal counts is what is saved. */
  lemma {:induction false} CountedIsSaved(plan: seq<Terminal>, t: nat, k: nat, a: Requirement)
    requires t < |plan| && Counts(plan, t, k, a) && plan[t].kind != Program
    ensures Counted(plan, t, k, a) == Settled(plan, k, a).On(plan[t].kind)
  {
  }

  lemma {:induction false} SectionsKeptIff(was: seq<Terminal>, manifest: seq<Manifest>, plan: seq<Terminal>, p2p: seq<Option<Requirement>>,
                                           kernels: set<nat>, t: nat, needs: seq<Requirement>, k: nat)
    requires Fresh(was, manifest) && plan == PlanOf(was, manifest, |was|) && t < |plan| && k < 128 && Answered(p2p, kernels)
    requires Lists(plan[t], k) && |needs| == 128 && (k in kernels ==> needs[k] == Settled(plan, k, p2p[k].value))
    ensures SectionsKept(manifest, plan, p2p, kernels, t, needs, k) <==>
            Entry(SectionLedger(plan, p2p, kernels, t), k) == needs[k].On(plan[t].kind).sections
  {
    PlannedIs(was[t], manifest[t]);
    TakesIff(was, manifest, plan, p2p, kernels, t, k);
    if Takes(manifest, p2p, kernels, t, k) {
      var a := p2p[k].value;
      if plan[t].kind == Program {
        CountedIs(plan, t, k, a);
        SectionsStayIff(plan, t, k, a);
      } else {
        CountedIsSaved(plan, t, k, a);
      }
    }
  }

  /** As many sections are laid out for the first `n` entries as counted for them. */
  ghost predicate SectionsAgree(walked: seq<KernelInfo>, sizes: Sizes, ledger: map<nat, nat>, n: nat)
    requires n <= |walked| && sizes.Valid() && Encodable(walked)
  {
    SectionOf(walked, sizes, n) == Sum(walked, ledger, n)
  }

  /** That is so all along. */
  ghost predicate SectionsAgreeAlong(walked: seq<KernelInfo>, sizes: Sizes, ledger: map<nat, nat>)
    requires sizes.Valid() && Encodable(walked)
  {
    forall n :: 0 <= n <= |walked| ==> SectionsAgree(walked, sizes, ledger, n)
  }

  /** As many sections are counted for each entry as are saved. */
  ghost predicate EntriesAgree(walked: seq<KernelInfo>, sizes: Sizes, ledger: map<nat, nat>)
    requires sizes.Valid() && Encodable(walked)
  {
    forall i :: 0 <= i < |walked| ==> Entry(ledger, walked[i].id) == sizes.Saved(walked[i].id).sections
  }

  lemma {:induction false} AgreeUpTo(walked: seq<KernelInfo>, sizes: Sizes, ledger: map<nat, nat>, n: nat)
    requires n <= |walked| && sizes.Valid() && Encodable(walked) && EntriesAgree(walked, sizes, ledger)
    ensures SectionsAgree(walked, sizes, ledger, n)
  {
    if n > 0 {
      AgreeUpTo(walked, sizes, ledger, n - 1);
      assert Entry(ledger, walked[n - 1].id) == sizes.Saved(walked[n - 1].id).sections;
    }
  }

  lemma {:induction false} EntryAgrees(walked: seq<KernelInfo>, sizes: Sizes, ledger: map<nat, nat>, i: nat)
    requires i < |walked| && sizes.Valid() && Encodable(walked)
    requires SectionsAgree(walked, sizes, ledger, i) && SectionsAgree(walked, sizes, ledger, i + 1)
    ensures Entry(ledger, walked[i].id) == sizes.Saved(walked[i].id).sections
  {
  }

  lemma {:induction false} SectionSumsAgreeIff(walked: seq<KernelInfo>, sizes: Sizes, ledger: map<nat, nat>)
    requires sizes.Valid() && Encodable(walked)
    ensures SectionsAgreeAlong(walked, sizes, ledger) <==> EntriesAgree(walked, sizes, ledger)
  {
    forall n | 0 <= n <= |walked| && EntriesAgree(walked, sizes, ledger)
      ensures SectionsAgree(walked, sizes, ledger, n)
    {
      AgreeUpTo(walked, sizes, ledger, n);
    }
    forall i | 0 <= i < |walked| && SectionsAgreeAlong(walked, sizes, ledger)
      ensures Entry(ledger, walked[i].id) == sizes.Saved(walked[i].id).sections
    {
      EntryAgrees(walked, sizes, ledger, i);
    }
  }

  /** If none is counted with more sections than saved, the sums agree in the end only if they do for each entry. */
  lemma {:induction false} SectionSumsCompare(walked: seq<KernelInfo>, sizes: Sizes, ledger: map<nat, nat>, n: nat)
    requires n <= |walked| && sizes.Valid() && Encodable(walked)
    requires forall k :: k in ledger && k < 128 ==> ledger[k] <= sizes.Saved(k).sections
    ensures Sum(walked, ledger, n) <= SectionOf(walked, sizes, n)
    ensures Sum(walked, ledger, n) == SectionOf(walked, sizes, n) <==>
            forall i :: 0 <= i < n ==> Entry(ledger, walked[i].id) == sizes.Saved(walked[i].id).sections
  {
    if n > 0 {
      SectionSumsCompare(walked, sizes, ledger, n - 1);
    }
  }

  /** A prepared terminal's section count is the sum over the walked entries, cut to 32 bits. */
  lemma {:induction false} SectionCountIs(plan: seq<Terminal>, p2p: seq<Option<Requirement>>, kernels: set<nat>, t: nat, term: Terminal,
                                          needs: seq<Requirement>)
    requires Prepared(plan, p2p, kernels, t, term, needs) && term.Valid() && term.bitmap != {} && plan[t].sectionCount == 0
    ensures term.sectionCount == ToUint32(Sum(Walked(term), SectionLedger(plan, p2p, kernels, t), |Walked(term)|))
  {
    var ledger := SectionLedger(plan, p2p, kernels, t);
    PreparedIsValid(plan, p2p, kernels, t, term, needs);
    WalkedSum(plan[t], term, ledger);
  }

  lemma {:induction false} WalkedSectionsIff(was: seq<Terminal>, manifest: seq<Manifest>, plan: seq<Terminal>, p2p: seq<Option<Requirement>>,
                                             kernels: set<nat>, t: nat, term: Terminal, sizes: Sizes, i: nat)
    requires Fresh(was, manifest) && plan == PlanOf(was, manifest, |was|)
    requires Prepared(plan, p2p, kernels, t, term, sizes.needs) && term.Valid() && i < |Walked(term)|
    requires sizes.Valid() && sizes.kind == plan[t].kind && (sizes.kind.Ordered() || sizes.kind.Spatial())
    ensures SectionsKept(manifest, plan, p2p, kernels, t, sizes.needs, Walked(term)[i].id) <==>
            Entry(SectionLedger(plan, p2p, kernels, t), Walked(term)[i].id) == sizes.Saved(Walked(term)[i].id).sections
  {
    PreparedIsValid(plan, p2p, kernels, t, term, sizes.needs);
    WalkedIsListed(plan[t], term, i);
    SectionsKeptIff(was, manifest, plan, p2p, kernels, t, sizes.needs, Walked(term)[i].id);
  }

  /** The sections of every kernel that is walked were kept. */
  ghost predicate AllSectionsKept(manifest: seq<Manifest>, plan: seq<Terminal>, p2p: seq<Option<Requirement>>, kernels: set<nat>, t: nat,
                                  needs: seq<Requirement>, walked: seq<KernelInfo>)
    requires t < |manifest| == |plan| && Answered(p2p, kernels) && |needs| == 128 && Encodable(walked)
  {
    forall i :: 0 <= i < |walked| ==> SectionsKept(manifest, plan, p2p, kernels, t, needs, walked[i].id)
  }

  lemma {:induction false} AllSectionsKeptIff(was: seq<Terminal>, manifest: seq<Manifest>, plan: seq<Terminal>, p2p: seq<Option<Requirement>>,
                                              kernels: set<nat>, t: nat, term: Terminal, sizes: Sizes)
    requires Fresh(was, manifest) && plan == PlanOf(was, manifest, |was|)
    requires Prepared(plan, p2p, kernels, t, term, sizes.needs) && term.Valid()
    requires sizes.Valid() && sizes.kind == plan[t].kind && (sizes.kind.Ordered() || sizes.kind.Spatial())
    ensures AllSectionsKept(manifest, plan, p2p, kernels, t, sizes.needs, Walked(term)) <==>
            EntriesAgree(Walked(term), sizes, SectionLedger(plan, p2p, kernels, t))
  {
    var walked, counted := Walked(term), SectionLedger(plan, p2p, kernels, t);
    forall i | 0 <= i < |walked|
      ensures SectionsKept(manifest, plan, p2p, kernels, t, sizes.needs, walked[i].id) <==>
              Entry(counted, walked[i].id) == sizes.Saved(walked[i].id).sections
    {
      WalkedSectionsIff(was, manifest, plan, p2p, kernels, t, term, sizes, i);
    }
  }

  /** On a prepared parameter terminal each entry is encoded from the section up to which sections were counted, and the last
      one ends at the terminal's section count, exactly if every kernel's sections were kept and the end fits 32 bits. */
  lemma {:induction false} SectionsEndIff(was: seq<Terminal>, manifest: seq<Manifest>, plan: seq<Terminal>, p2p: seq<Option<Requirement>>,
                                          kernels: set<nat>, t: nat, term: Terminal, sizes: Sizes)
    requires Fresh(was, manifest) && plan == PlanOf(was, manifest, |was|) && t < |was| && was[t].sectionCount == 0
    requires Prepared(plan, p2p, kernels, t, term, sizes.needs) && term.Valid() && term.bitmap != {}
    requires sizes.Valid() && sizes.kind == plan[t].kind && (sizes.kind.Ordered() || sizes.kind.Spatial())
    ensures var walked, counted := Walked(term), SectionLedger(plan, p2p, kernels, t);
            SectionsAgreeAlong(walked, sizes, counted) && SectionOf(walked, sizes, |walked|) == term.sectionCount <==>
            && AllSectionsKept(manifest, plan, p2p, kernels, t, sizes.needs, walked)
            && SectionOf(walked, sizes, |walked|) < 0x1_0000_0000
  {
    var walked, counted := Walked(term), SectionLedger(plan, p2p, kernels, t);
    PlannedIs(was[t], manifest[t]);
    SectionCountIs(plan, p2p, kernels, t, term, sizes.needs);
    SectionSumsAgreeIff(walked, sizes, counted);
    AllSectionsKeptIff(was, manifest, plan, p2p, kernels, t, term, sizes);
    assert SectionsAgreeAlong(walked, sizes, counted) ==> SectionsAgree(walked, sizes, counted, |walked|);
  }

  /** On terminals other than program terminals the end alone decides. */
  lemma {:induction false} LastSectionEndsIff(was: seq<Terminal>, manifest: seq<Manifest>, plan: seq<Terminal>, p2p: seq<Option<Requirement>>,
                                              kernels: set<nat>, t: nat, term: Terminal, sizes: Sizes)
    requires Fresh(was, manifest) && plan == PlanOf(was, manifest, |was|) && t < |was| && was[t].sectionCount == 0
    requires Prepared(plan, p2p, kernels, t, term, sizes.needs) && term.Valid() && term.bitmap != {}
    requires sizes.Valid() && sizes.kind == plan[t].kind && (sizes.kind.Ordered() || sizes.kind.Spatial()) && sizes.kind != Program
    ensures var walked := Walked(term);
            SectionOf(walked, sizes, |walked|) == term.sectionCount <==>
            && AllSectionsKept(manifest, plan, p2p, kernels, t, sizes.needs, walked)
            && SectionOf(walked, sizes, |walked|) < 0x1_0000_0000
  {
    var walked, counted := Walked(term), SectionLedger(plan, p2p, kernels, t);
    PlannedIs(was[t], manifest[t]);
    SectionCountIs(plan, p2p, kernels, t, term, sizes.needs);
    forall k | k in counted && k < 128
      ensures counted[k] <= sizes.Saved(k).sections
    {
      CountedIsSaved(plan, t, k, p2p[k].value);
    }
    SectionSumsCompare(walked, sizes, counted, |walked|);
    AllSectionsKeptIff(was, manifest, plan, p2p, kernels, t, term, sizes);
  }

  /** On program terminals whose kernels' sections were kept the end alone decides too. */
  lemma {:induction false} EndsAtTheCountIff(was: seq<Terminal>, manifest: seq<Manifest>, plan: seq<Terminal>, p2p: seq<Option<Requirement>>,
                                             kernels: set<nat>, t: nat, term: Terminal, sizes: Sizes)
    requires Fresh(was, manifest) && plan == PlanOf(was, manifest, |was|) && t < |was| && was[t].sectionCount == 0
    requires Prepared(plan, p2p, kernels, t, term, sizes.needs) && term.Valid() && term.bitmap != {}
    requires sizes.Valid() && sizes.kind == plan[t].kind && (sizes.kind.Ordered() || sizes.kind.Spatial())
    requires sizes.kind == Program ==> AllSectionsKept(manifest, plan, p2p, kernels, t, sizes.needs, Walked(term))
    ensures var walked := Walked(term);
            SectionOf(walked, sizes, |walked|) == term.sectionCount <==>
            AllSectionsKept(manifest, plan, p2p, kernels, t, sizes.needs, walked) && SectionOf(walked, sizes, |walked|) < 0x1_0000_0000
  {
    if sizes.kind == Program {
      SectionsEndIff(was, manifest, plan, p2p, kernels, t, term, sizes);
      AllSectionsKeptIff(was, manifest, plan, p2p, kernels, t, term, sizes);
      SectionSumsAgreeIff(Walked(term), sizes, SectionLedger(plan, p2p, kernels, t));
    } else {
      LastSectionEndsIff(was, manifest, plan, p2p, kernels, t, term, sizes);
    }
  }

  lemma {:induction false} LastKernel(walked: seq<KernelInfo>, sizes: Sizes, payloadSize: nat, curOffset: nat, trace: seq<Op>)
    requires sizes.Valid() && Encodable(walked) && walked != [] && (sizes.kind.Ordered() || sizes.kind.Spatial())
    requires TraceOf(walked, sizes, payloadSize, true, curOffset, trace)
    ensures |Encodings(trace)| == |walked|
    ensures var last := Encodings(trace)[|walked| - 1];
            last.kernel < 128 && last.section + sizes.needs[last.kernel].On(sizes.kind).sections == SectionOf(walked, sizes, |walked|)
  {
    EncodedInTurn(walked, sizes, payloadSize, true, curOffset, trace);
    EncodedToTheEnd(walked, sizes, payloadSize, curOffset, trace);
  }

  /** The same read off the trace of a successful encoding: where the sections of the last kernel end. */
  lemma {:induction false} TraceEndsAtTheCountIff(was: seq<Terminal>, manifest: seq<Manifest>, plan: seq<Terminal>, p2p: seq<Option<Requirement>>,
                                                  kernels: set<nat>, t: nat, term: Terminal, sizes: Sizes, payloadSize: nat, curOffset: nat, trace: seq<Op>)
    requires Fresh(was, manifest) && plan == PlanOf(was, manifest, |was|) && t < |was| && was[t].sectionCount == 0
    requires Prepared(plan, p2p, kernels, t, term, sizes.needs) && term.Valid() && Walked(term) != []
    requires sizes.Valid() && sizes.kind == plan[t].kind && (sizes.kind.Ordered() || sizes.kind.Spatial())
    requires TraceOf(Walked(term), sizes, payloadSize, true, curOffset, trace)
    requires sizes.kind == Program ==> AllSectionsKept(manifest, plan, p2p, kernels, t, sizes.needs, Walked(term))
    ensures |Encodings(trace)| == |Walked(term)| && Encodings(trace)[|Walked(term)| - 1].kernel < 128
    ensures var walked, last := Walked(term), Encodings(trace)[|Walked(term)| - 1];
            var end := last.section + sizes.needs[last.kernel].On(sizes.kind).sections;
            end == term.sectionCount <==>
            AllSectionsKept(manifest, plan, p2p, kernels, t, sizes.needs, walked) && end < 0x1_0000_0000
  {
    LastKernel(Walked(term), sizes, payloadSize, curOffset, trace);
    EndsAtTheCountIff(was, manifest, plan, p2p, kernels, t, term, sizes);
  }

  // ------------------------------------------------------------------- marks

  lemma {:induction false} BookedMark(plan: seq<Terminal>, p2p: seq<Option<Requirement>>, kernels: set<nat>, terminals: seq<Terminal>,
                                      needed: seq<Requirement>, needs: seq<Requirement>, t: nat, j: nat)
    requires Accounts(plan, p2p, kernels, terminals, needed, needs) && t < |plan| && plan[t].order.Some? && j < |plan[t].order.value|
    ensures t < |terminals| && terminals[t].order.Some? && |terminals[t].order.value| == |plan[t].order.value|
    ensures var order := plan[t].order.value;
            var k := order[j].id;
            terminals[t].order.value[j].initialize <==>
            || order[j].initialize
            || (k in kernels && Counts(plan, t, k, p2p[k].value) && j == First(order, k) &&
                ((plan[t].kind == CachedIn && EntryFor(plan[t], k).sections != p2p[k].value.paramIn.sections) ||
                 (plan[t].kind == Program && Overrides(plan, k, p2p[k].value.program, t))))
  {
    assert Booked(plan, p2p, kernels, t, terminals[t]);
    var k := plan[t].order.value[j].id;
    if k in kernels && Counts(plan, t, k, p2p[k].value) {
      OverriddenIff(plan, t, k, p2p[k].value);
    }
  }

  lemma {:induction false} PlannedEntry(was: Terminal, m: Manifest, j: nat)
    requires m.Valid() && m.Plannable() && m.kind.Ordered() && j < |OrderOf(m.sections, |m.sections|)|
    requires forall i :: 0 <= i < |m.sections| ==> 0 <= m.sections[i].kernel < 128
    ensures var p := Planned(was, m);
            && p.kind == m.kind && p.order.Some? && j < |p.order.value| && p.order.value[j] == OrderOf(m.sections, |m.sections|)[j]
            && p.order.value[j].id < 128 && !p.order.value[j].initialize && First(p.order.value, p.order.value[j].id) >= 0
  {
    OrderOfKernels(m.sections, |m.sections|);
    assert Planned(was, m).order.value[j] == OrderOf(m.sections, |m.sections|)[j];
  }

  /** An entry of a prepared terminal is to be cleared exactly if it is the first of its kernel, the terminal takes that, and its
      section count prevails over another: P2P's on the first cached-in terminal, that of the program terminal before it or
      else P2P's on program terminals. */
  lemma {:induction false} MarksFromManifest(was: seq<Terminal>, manifest: seq<Manifest>, plan: seq<Terminal>, p2p: seq<Option<Requirement>>,
                                             kernels: set<nat>, terminals: seq<Terminal>, needed: seq<Requirement>, needs: seq<Requirement>,
                                             t: nat, j: nat)
    requires Fresh(was, manifest) && plan == PlanOf(was, manifest, |was|) && t < |plan|
    requires Accounts(plan, p2p, kernels, terminals, needed, needs)
    requires manifest[t].kind.Ordered() && j < |OrderOf(manifest[t].sections, |manifest[t].sections|)|
    ensures t < |terminals| && plan[t].order.Some? && terminals[t].order.Some?
    ensures j < |terminals[t].order.value| == |plan[t].order.value|
    ensures var order, k := plan[t].order.value, OrderOf(manifest[t].sections, |manifest[t].sections|)[j].id;
            terminals[t].order.value[j].initialize <==>
              && Takes(manifest, p2p, kernels, t, k) && j == First(order, k)
              && ((manifest[t].kind == CachedIn && order[j].sections != p2p[k].value.paramIn.sections) ||
                  (manifest[t].kind == Program && Overrides(plan, k, p2p[k].value.program, t)))
  {
    var k := OrderOf(manifest[t].sections, |manifest[t].sections|)[j].id;
    PlannedEntry(was[t], manifest[t], j);
    BookedMark(plan, p2p, kernels, terminals, needed, needs, t, j);
    TakesIff(was, manifest, plan, p2p, kernels, t, k);
  }
}
