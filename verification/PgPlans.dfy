/** What preparing leaves behind, told from the manifests and P2P's answers alone. */
module PgPlans {
  import opened Basics
  import opened KernelOrders
  import opened PgRequirements
  import opened PgAccounts
  import opened PgVisits
  import opened PgEncode
  import opened PgGuarantees

  /** Some section of the manifest is of kernel `k`. */
  ghost predicate Names(m: Manifest, k: nat) {
    exists i :: 0 <= i < |m.sections| && m.sections[i].kernel == k
  }

  lemma {:induction false} OrderHolds(sections: seq<Section>, n: nat, k: nat)
    requires n <= |sections| && FitsBytes(sections, n)
    ensures (exists j :: 0 <= j < |OrderOf(sections, n)| && OrderOf(sections, n)[j].id == k) <==>
            exists i :: 0 <= i < n && sections[i].kernel == k
  {
    if n > 0 {
      OrderHolds(sections, n - 1, k);
      var before, after := OrderOf(sections, n - 1), OrderOf(sections, n);
      if exists j :: 0 <= j < |before| && before[j].id == k {
        var j :| 0 <= j < |before| && before[j].id == k;
        assert after[j].id == k;
      }
      if sections[n - 1].kernel == k {
        assert after[|after| - 1].id == k;
      }
      forall j | 0 <= j < |after| && after[j].id == k
        ensures sections[n - 1].kernel == k || (j < |before| && before[j].id == k)
      {
      }
    }
  }

  /** A planned parameter terminal lists exactly the kernels its manifest names. */
  lemma {:induction false} ListsIff(was: Terminal, m: Manifest, k: nat)
    requires m.Valid() && m.Plannable() && m.kind.Ordered() && k < 128
    requires forall i :: 0 <= i < |m.sections| ==> 0 <= m.sections[i].kernel < 128
    ensures First(Planned(was, m).order.value, k) >= 0 <==> Names(m, k)
  {
    var order, buffer := OrderOf(m.sections, |m.sections|), Planned(was, m).order.value;
    OrderHolds(m.sections, |m.sections|, k);
    assert forall j :: 0 <= j < |order| ==> buffer[j] == order[j];
    assert forall j :: |order| <= j < |buffer| ==> buffer[j].id == 255;
    if Names(m, k) {
      var j :| 0 <= j < |order| && order[j].id == k;
      assert buffer[j].id == k;
    }
  }

  lemma {:induction false} FirstOfKindIs(plan: seq<Terminal>, kind: Kind, from: nat, t: nat)
    requires from <= t < |plan| && plan[t].kind == kind
    ensures FirstOfKind(plan, kind, from) == t <==> forall u :: from <= u < t ==> plan[u].kind != kind
    decreases t - from
  {
    if from < t {
      FirstOfKindIs(plan, kind, from + 1, t);
    }
  }

  lemma {:induction false} FirstSpatialIs(plan: seq<Terminal>, kind: Kind, k: nat, from: nat, t: nat)
    requires from <= t < |plan| && plan[t].kind == kind && plan[t].bitmap == {k}
    ensures FirstSpatial(plan, kind, k, from) == t <==> forall u :: from <= u < t ==> plan[u].kind != kind || plan[u].bitmap != {k}
    decreases t - from
  {
    if from < t {
      FirstSpatialIs(plan, kind, k, from + 1, t);
    }
  }

  /** A planned terminal, as its manifest says. */
  lemma {:induction false} PlannedIs(was: Terminal, m: Manifest)
    requires m.Valid() && m.Plannable()
    ensures var p := Planned(was, m);
            && p.kind == m.kind && p.payloadSize == was.payloadSize && p.sectionCount == was.sectionCount
            && (p.order.Some? <==> m.kind == CachedIn || m.kind == CachedOut || m.kind == Program)
            && (p.order.Some? ==>
                  var used := OrderOf(m.sections, |m.sections|);
                  && |p.order.value| == 128 && used <= p.order.value
                  && forall j :: |used| <= j < 128 ==> p.order.value[j].id == 255)
            && (m.kind == SpatialIn || m.kind == SpatialOut ==> p.bitmap == {m.kernel})
            && (m.kind == DataIn || m.kind == DataOut ==> p.bitmap == m.bitmap)
            && (m.kind != SpatialIn && m.kind != SpatialOut && m.kind != DataIn && m.kind != DataOut ==> p.bitmap == was.bitmap)
  {
  }

  /** Planning succeeds exactly if every parameter terminal has sections, in at most 128 runs of kernels; otherwise the first
      that has not decides, by refusing if there are no sections and by overrunning its buffer if there are too many runs. */
  lemma {:induction false} PlanEndsAtTheFirst(manifest: seq<Manifest>, n: nat, t: nat)
    requires n <= |manifest|
    ensures PlanEnding(manifest, n) == Done <==>
            forall u :: 0 <= u < n && (manifest[u].kind == CachedIn || manifest[u].kind == CachedOut || manifest[u].kind == Program) ==>
              manifest[u].sections != [] && Runs(manifest[u].sections, |manifest[u].sections|) <= 128
    ensures t < n && PlanEnding(manifest, t) == Done && PlanEnding(manifest, t + 1) != Done ==>
              PlanEnding(manifest, n) == if manifest[t].sections == [] then Refused else Overrun
  {
    if n > 0 {
      PlanEndsAtTheFirst(manifest, n - 1, t);
      EntriesAreRuns(manifest[n - 1].sections, |manifest[n - 1].sections|);
      if t < n - 1 && PlanEnding(manifest, t) == Done && PlanEnding(manifest, t + 1) != Done {
        assert PlanEnding(manifest, n - 1) != Done;
      }
    }
  }

  /** Preparing can deal with a kernel exactly if P2P answers for it and, where that has cached-in sections, some manifest is of
      a cached-in terminal. */
  lemma {:induction false} PreparesIff(was: seq<Terminal>, manifest: seq<Manifest>, plan: seq<Terminal>, p2p: seq<Option<Requirement>>, k: nat)
    requires |was| == |manifest| && ValidManifest(manifest) && PlanEnding(manifest, |manifest|).Done? && plan == PlanOf(was, manifest, |was|)
    requires k < |p2p|
    ensures Prepares(plan, p2p, k) <==>
            p2p[k].Some? && (p2p[k].value.paramIn.sections == 0 || exists t :: 0 <= t < |manifest| && manifest[t].kind == CachedIn)
  {
    var first := FirstOfKind(plan, CachedIn, 0);
    if first >= 0 {
      assert manifest[first].kind == CachedIn;
    } else {
      forall t | 0 <= t < |manifest|
        ensures manifest[t].kind != CachedIn
      {
        assert plan[t].kind == manifest[t].kind;
        NoneOfKind(plan, CachedIn, 0, t);
      }
    }
  }

  lemma {:induction false} NoneOfKind(plan: seq<Terminal>, kind: Kind, from: nat, t: nat)
    requires from <= t < |plan| && FirstOfKind(plan, kind, from) < 0
    ensures plan[t].kind != kind
    decreases t - from
  {
    if from < t {
      NoneOfKind(plan, kind, from + 1, t);
    }
  }

  /** The manifests of fresh terminals, of which terminal `t` is the first of its kind, or of its kind and kernel. */
  ghost predicate FirstCachedIn(manifest: seq<Manifest>, t: nat)
    requires t < |manifest|
  {
    manifest[t].kind == CachedIn && forall u :: 0 <= u < t ==> manifest[u].kind != CachedIn
  }

  ghost predicate FirstOfItsKernel(manifest: seq<Manifest>, t: nat)
    requires t < |manifest|
  {
    forall u :: 0 <= u < t ==> manifest[u].kind != manifest[t].kind || manifest[u].kernel != manifest[t].kernel
  }

  /** Which kernels a terminal takes: those P2P has sections for on its kind that its manifest names. */
  lemma {:induction false} CountsIff(was: seq<Terminal>, manifest: seq<Manifest>, plan: seq<Terminal>, t: nat, k: nat, a: Requirement)
    requires Fresh(was, manifest) && plan == PlanOf(was, manifest, |was|) && t < |plan| && k < 128
    ensures var m := manifest[t];
            && (m.kind == CachedIn ==> (Counts(plan, t, k, a) <==> a.paramIn.sections != 0 && FirstCachedIn(manifest, t) && Names(m, k)))
            && (m.kind == CachedOut ==> (Counts(plan, t, k, a) <==> a.paramOut.sections != 0 && Names(m, k)))
            && (m.kind == Program ==> (Counts(plan, t, k, a) <==> a.program.sections != 0 && Names(m, k)))
            && (m.kind == SpatialIn ==>
                  (Counts(plan, t, k, a) <==> a.spatialIn.sections != 0 && m.kernel == k && FirstOfItsKernel(manifest, t)))
            && (m.kind == SpatialOut ==>
                  (Counts(plan, t, k, a) <==> a.spatialOut.sections != 0 && m.kernel == k && FirstOfItsKernel(manifest, t)))
            && (m.kind == DataIn || m.kind == DataOut || m.kind == ControlInit || m.kind == Unknown ==> !Counts(plan, t, k, a))
  {
    var m := manifest[t];
    PlannedIs(was[t], m);
    if m.kind.Ordered() {
      ListsIff(was[t], m, k);
      FirstOfKindIs(plan, m.kind, 0, t);
    } else if m.kind.Spatial() {
      forall u | 0 <= u < t
        ensures plan[u].kind != m.kind || plan[u].bitmap != {m.kernel} <==> manifest[u].kind != m.kind || manifest[u].kernel != m.kernel
      {
        PlannedIs(was[u], manifest[u]);
        assert manifest[u].kernel in {manifest[u].kernel};
      }
      FirstSpatialIs(plan, m.kind, m.kernel, 0, t);
      assert m.kernel in plan[t].bitmap;
    }
  }

  /** After preparing fresh terminals the bitmap of a parameter terminal holds exactly the visited kernels that its manifest
      names and P2P has sections for, of cached-in terminals only that of the first; the others' bitmaps are those of
      their manifests. */
  lemma {:induction false} BitmapsFromManifest(was: seq<Terminal>, manifest: seq<Manifest>, plan: seq<Terminal>,
                                               p2p: seq<Option<Requirement>>, kernels: set<nat>, terminals: seq<Terminal>,
                                               needed: seq<Requirement>, needs: seq<Requirement>, t: nat, k: nat)
    requires Fresh(was, manifest) && plan == PlanOf(was, manifest, |was|) && t < |plan| && k < 128
    requires Accounts(plan, p2p, kernels, terminals, needed, needs)
    ensures var m, bitmap := manifest[t], terminals[t].bitmap;
            && (m.kind == CachedIn ==>
                  (k in bitmap <==> k in kernels && p2p[k].value.paramIn.sections != 0 && FirstCachedIn(manifest, t) && Names(m, k)))
            && (m.kind == CachedOut ==> (k in bitmap <==> k in kernels && p2p[k].value.paramOut.sections != 0 && Names(m, k)))
            && (m.kind == Program ==> (k in bitmap <==> k in kernels && p2p[k].value.program.sections != 0 && Names(m, k)))
            && (m.kind == SpatialIn || m.kind == SpatialOut ==> (k in bitmap <==> k == m.kernel))
            && (m.kind == DataIn || m.kind == DataOut ==> (k in bitmap <==> k in m.bitmap))
            && (m.kind == ControlInit || m.kind == Unknown ==> k !in bitmap)
  {
    BookedBitmap(plan, p2p, kernels, terminals, needed, needs, t);
    PlannedIs(was[t], manifest[t]);
    if k in kernels {
      CountsIff(was, manifest, plan, t, k, p2p[k].value);
    }
  }

  lemma {:induction false} BookedBitmap(plan: seq<Terminal>, p2p: seq<Option<Requirement>>, kernels: set<nat>, terminals: seq<Terminal>,
                                        needed: seq<Requirement>, needs: seq<Requirement>, t: nat)
    requires Accounts(plan, p2p, kernels, terminals, needed, needs) && t < |plan|
    ensures forall k :: k in terminals[t].bitmap <==> k in plan[t].bitmap || (k in kernels && Counts(plan, t, k, p2p[k].value))
    ensures plan[t].kind.Spatial() ==> terminals[t].bitmap == plan[t].bitmap
  {
    assert Booked(plan, p2p, kernels, t, terminals[t]);
    assert forall k :: k in Ledger(plan, p2p, kernels, t).Keys <==> k in kernels && Counts(plan, t, k, p2p[k].value);
    if plan[t].kind.Spatial() {
      forall k | k in kernels && Counts(plan, t, k, p2p[k].value)
        ensures k in plan[t].bitmap
      {
        assert plan[t].bitmap == {k};
      }
    }
  }
}
