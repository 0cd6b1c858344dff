/** What is counted and saved for a kernel, told from the entries its terminals list it with. */
module PgSettled {
  import opened Basics
  import opened KernelOrders
  import opened PgRequirements
  import opened PgGuarantees

  /** A program terminal that lists kernel `k`, and its first entry for it. */
  predicate Lister(plan: seq<Terminal>, k: nat, u: nat)
    requires u < |plan|
  {
    plan[u].kind == Program && plan[u].order.Some? && First(plan[u].order.value, k) >= 0
  }

  function EntryFor(t: Terminal, k: nat): (e: KernelInfo)
    requires t.order.Some? && First(t.order.value, k) >= 0
    ensures e in t.order.value && e.id == k
  {
    t.order.value[First(t.order.value, k)]
  }

  /** Terminal `u` is the last one before `n` to list the kernel. */
  predicate LastLister(plan: seq<Terminal>, k: nat, u: nat, n: nat)
    requires u < n <= |plan|
  {
    Lister(plan, k, u) && forall w :: u < w < n ==> !Lister(plan, k, w)
  }

  /** Terminal `u` lists the kernel with another number of sections than the last terminal before it or, if there is none,
      than P2P reports. */
  predicate Overrides(plan: seq<Terminal>, k: nat, reported: Need, u: nat)
    requires u < |plan|
  {
    && Lister(plan, k, u)
    && (forall v :: 0 <= v < u && LastLister(plan, k, v, u) ==> EntryFor(plan[v], k).sections != EntryFor(plan[u], k).sections)
    && ((forall v :: 0 <= v < u ==> !Lister(plan, k, v)) ==> reported.sections != EntryFor(plan[u], k).sections)
  }

  lemma {:induction false} LastListerExists(plan: seq<Terminal>, k: nat, n: nat) returns (u: nat)
    requires n <= |plan| && exists v :: 0 <= v < n && Lister(plan, k, v)
    ensures u < n && LastLister(plan, k, u, n)
  {
    if Lister(plan, k, n - 1) {
      u := n - 1;
    } else {
      var v :| 0 <= v < n && Lister(plan, k, v);
      assert v < n - 1;
      u := LastListerExists(plan, k, n - 1);
    }
  }

  lemma {:induction false} NothingOfNoLister(plan: seq<Terminal>, k: nat, reported: Need, n: nat)
    requires n <= |plan| && forall u :: 0 <= u < n ==> !Lister(plan, k, u)
    ensures Sweep(plan, k, reported, n) == reported
  {
    if n > 0 {
      NothingOfNoLister(plan, k, reported, n - 1);
      assert !Lister(plan, k, n - 1);
    }
  }

  lemma {:induction false} SectionsOf(plan: seq<Terminal>, k: nat, reported: Need, u: nat, n: nat)
    requires u < n <= |plan| && LastLister(plan, k, u, n)
    ensures Sweep(plan, k, reported, n).sections == EntryFor(plan[u], k).sections
    decreases n
  {
    if u < n - 1 {
      SectionsOf(plan, k, reported, u, n - 1);
      assert !Lister(plan, k, n - 1);
    }
  }

  /** The sections saved after the first `n` terminals are those of the last one that lists the kernel. */
  lemma {:induction false} SectionsOfTheLast(plan: seq<Terminal>, k: nat, reported: Need, n: nat)
    requires n <= |plan|
    ensures (forall u :: 0 <= u < n ==> !Lister(plan, k, u)) ==> Sweep(plan, k, reported, n) == reported
    ensures forall u :: 0 <= u < n && LastLister(plan, k, u, n) ==> Sweep(plan, k, reported, n).sections == EntryFor(plan[u], k).sections
  {
    if forall u :: 0 <= u < n ==> !Lister(plan, k, u) {
      NothingOfNoLister(plan, k, reported, n);
    }
    forall u | 0 <= u < n && LastLister(plan, k, u, n)
      ensures Sweep(plan, k, reported, n).sections == EntryFor(plan[u], k).sections
    {
      SectionsOf(plan, k, reported, u, n);
    }
  }

  lemma {:induction false} OverridesIff(plan: seq<Terminal>, k: nat, reported: Need, u: nat)
    requires u < |plan| && Lister(plan, k, u)
    ensures Overrides(plan, k, reported, u) <==> Sweep(plan, k, reported, u).sections != EntryFor(plan[u], k).sections
  {
    SectionsOfTheLast(plan, k, reported, u);
    if exists v :: 0 <= v < u && Lister(plan, k, v) {
      var v := LastListerExists(plan, k, u);
      assert LastLister(plan, k, v, u);
    }
  }

  /** The size saved is the largest of what P2P reports and what the overriding terminals list. */
  lemma {:induction false} SizeIsTheLargest(plan: seq<Terminal>, k: nat, reported: Need, n: nat)
    requires n <= |plan|
    ensures reported.size <= Sweep(plan, k, reported, n).size
    ensures forall u :: 0 <= u < n && Overrides(plan, k, reported, u) ==> EntryFor(plan[u], k).size <= Sweep(plan, k, reported, n).size
    ensures Sweep(plan, k, reported, n).size == reported.size ||
            exists u :: 0 <= u < n && Overrides(plan, k, reported, u) && EntryFor(plan[u], k).size == Sweep(plan, k, reported, n).size
  {
    if n > 0 {
      SizeIsTheLargest(plan, k, reported, n - 1);
      if Lister(plan, k, n - 1) {
        OverridesIff(plan, k, reported, n - 1);
      }
    }
  }

  /** A terminal behind `t` overrides the kernel with a size larger than P2P's and than those of all up to `t` that do. */
  ghost predicate GrownLater(plan: seq<Terminal>, k: nat, reported: Need, t: nat)
    requires t < |plan|
  {
    exists u :: t < u < |plan| && Overrides(plan, k, reported, u) &&
                EntryFor(plan[u], k).size > reported.size &&
                forall v :: 0 <= v <= t && Overrides(plan, k, reported, v) ==> EntryFor(plan[v], k).size < EntryFor(plan[u], k).size
  }

  lemma {:induction false} GrownLaterIff(plan: seq<Terminal>, k: nat, reported: Need, t: nat)
    requires t < |plan|
    ensures GrownLater(plan, k, reported, t) <==> Enlarged(plan, k, reported, t + 1, |plan|)
  {
    SweepGrowsIff(plan, k, reported, t + 1, |plan|);
    SizeIsTheLargest(plan, k, reported, t + 1);
    SizeIsTheLargest(plan, k, reported, |plan|);
    var counted, saved := Sweep(plan, k, reported, t + 1).size, Sweep(plan, k, reported, |plan|).size;
    if counted < saved {
      var u :| 0 <= u < |plan| && Overrides(plan, k, reported, u) && EntryFor(plan[u], k).size == saved;
      assert t < u;
    }
  }

  /** What a terminal counts for a kernel it takes. */
  lemma {:induction false} CountedIs(plan: seq<Terminal>, t: nat, k: nat, a: Requirement)
    requires t < |plan| && Counts(plan, t, k, a)
    ensures var counted := Counted(plan, t, k, a);
            && (plan[t].kind == CachedOut ==> counted == a.paramOut)
            && (plan[t].kind == SpatialIn && plan[t].order.None? ==> counted == a.spatialIn)
            && (plan[t].kind == SpatialOut && plan[t].order.None? ==> counted == a.spatialOut)
            && (plan[t].kind == CachedIn ==>
                  var e := EntryFor(plan[t], k);
                  && counted.sections == e.sections
                  && counted.size == (if e.sections != a.paramIn.sections && e.size > a.paramIn.size then e.size else a.paramIn.size))
            && (plan[t].kind == Program ==>
                  && counted.sections == EntryFor(plan[t], k).sections
                  && counted == Sweep(plan, k, a.program, t + 1)
                  && a.program.size <= counted.size
                  && (forall u :: 0 <= u <= t && Overrides(plan, k, a.program, u) ==> EntryFor(plan[u], k).size <= counted.size)
                  && (counted.size == a.program.size ||
                        exists u :: 0 <= u <= t && Overrides(plan, k, a.program, u) && EntryFor(plan[u], k).size == counted.size))
  {
    if plan[t].kind == Program {
      SizeIsTheLargest(plan, k, a.program, t + 1);
      assert LastLister(plan, k, t, t + 1);
      SectionsOfTheLast(plan, k, a.program, t + 1);
    }
  }

  /** What is saved for a kernel in the end. */
  lemma {:induction false} SettledIs(plan: seq<Terminal>, k: nat, a: Requirement)
    ensures var saved := Settled(plan, k, a);
            && saved.paramOut == a.paramOut && saved.spatialIn == a.spatialIn && saved.spatialOut == a.spatialOut
            && ((forall t :: 0 <= t < |plan| ==> !Lister(plan, k, t)) || a.program.sections == 0 ==> saved.program == a.program)
            && (a.program.sections != 0 ==>
                  && (forall t :: 0 <= t < |plan| && LastLister(plan, k, t, |plan|) ==> saved.program.sections == EntryFor(plan[t], k).sections)
                  && a.program.size <= saved.program.size
                  && (forall u :: 0 <= u < |plan| && Overrides(plan, k, a.program, u) ==> EntryFor(plan[u], k).size <= saved.program.size)
                  && (saved.program.size == a.program.size ||
                        exists u :: 0 <= u < |plan| && Overrides(plan, k, a.program, u) && EntryFor(plan[u], k).size == saved.program.size))
  {
    SizeIsTheLargest(plan, k, a.program, |plan|);
    SectionsOfTheLast(plan, k, a.program, |plan|);
  }

  /** The sections saved for a kernel are those a program terminal lists it with exactly if the last one to list it does so
      too. */
  lemma {:induction false} SectionsStayIff(plan: seq<Terminal>, t: nat, k: nat, a: Requirement)
    requires t < |plan| && Lister(plan, k, t) && a.program.sections != 0
    ensures Settled(plan, k, a).program.sections == EntryFor(plan[t], k).sections <==>
            forall u :: t < u < |plan| && LastLister(plan, k, u, |plan|) ==> EntryFor(plan[u], k).sections == EntryFor(plan[t], k).sections
  {
    SettledIs(plan, k, a);
    var u := LastListerExists(plan, k, |plan|);
    assert LastLister(plan, k, u, |plan|);
  }

  /** What is saved for a cached-in kernel: the first cached-in terminal's sections prevail if it lists the kernel, and then so
      does its size if it is larger. */
  lemma {:induction false} SettledParamIn(plan: seq<Terminal>, t: nat, k: nat, a: Requirement)
    requires t < |plan| && plan[t].kind == CachedIn && plan[t].order.Some? && FirstOfKind(plan, CachedIn, 0) == t
    ensures var saved, listed := Settled(plan, k, a).paramIn, First(plan[t].order.value, k) >= 0;
            && (!listed || a.paramIn.sections == 0 ==> saved == a.paramIn)
            && (listed && a.paramIn.sections != 0 ==>
                  var e := EntryFor(plan[t], k);
                  && saved.sections == e.sections
                  && saved.size == if e.sections != a.paramIn.sections && e.size > a.paramIn.size then e.size else a.paramIn.size)
  {
  }

  /** A kernel is laid out in another number of sections than found exactly on cached-in terminals that list it with a number
      P2P does not report, and on program terminals that override it. */
  lemma {:induction false} OverriddenIff(plan: seq<Terminal>, t: nat, k: nat, a: Requirement)
    requires t < |plan| && Counts(plan, t, k, a)
    ensures Counted(plan, t, k, a).sections != Found(plan, t, k, a).sections <==>
            || (plan[t].kind == CachedIn && EntryFor(plan[t], k).sections != a.paramIn.sections)
            || (plan[t].kind == Program && Overrides(plan, k, a.program, t))
  {
    if plan[t].kind == Program {
      OverridesIff(plan, k, a.program, t);
    }
  }
}
