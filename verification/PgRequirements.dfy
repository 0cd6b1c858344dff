/** What each terminal of a program group needs: the declarative account of `IntelPGParam::prepare`.
    `plan` is always the list of terminals as read from the manifest. */
module PgRequirements {
  import opened Basics
  import opened KernelOrders

  datatype Kind =
    | CachedIn | CachedOut | Program | SpatialIn | SpatialOut | DataIn | DataOut | ControlInit | Unknown
  {
    predicate Ordered() { CachedIn? || CachedOut? || Program? }
    predicate Spatial() { SpatialIn? || SpatialOut? }
  }

  /** A number of sections and the payload bytes for them. */
  datatype Need = Need(sections: nat, size: Uint32)

  /** What one kernel needs on the terminals of each kind. */
  datatype Requirement = Requirement(paramIn: Need, paramOut: Need, program: Need, spatialIn: Need, spatialOut: Need)
  {
    function On(kind: Kind): Need {
      match kind
      case CachedIn => paramIn
      case CachedOut => paramOut
      case Program => program
      case SpatialIn => spatialIn
      case SpatialOut => spatialOut
      case _ => Need(0, 0)
    }
  }

  /** A terminal of the group; `bitmap` holds the kernels that use it. */
  datatype Terminal = Terminal(kind: Kind, order: Option<seq<KernelInfo>>, bitmap: set<nat>, payloadSize: Uint32, sectionCount: Uint32)
  {
    ghost predicate Valid() {
      && (kind.Ordered() <==> order.Some?)
      && (order.Some? ==> |order.value| == MAX_KERNELS)
      && (kind.Spatial() ==> exists k :: k in bitmap && bitmap == {k})
      && (forall k :: k in bitmap ==> k < MAX_KERNELS)
    }

    /** The entries to lay out: the kernel order or, without one, the kernels of the bitmap. */
    ghost function Listed(): seq<KernelInfo>
      requires Valid()
    {
      if order.Some? then order.value else Ascending(bitmap)
    }
  }

  /** The kernels of a bitmap from the lowest bit up. */
  ghost function Ascending(bitmap: set<nat>): (r: seq<KernelInfo>)
    requires forall k :: k in bitmap ==> k < MAX_KERNELS
    ensures forall i :: 0 <= i < |r| ==> r[i].id in bitmap && !r[i].initialize
    decreases |bitmap|
  {
    if exists k :: k in bitmap then
      var k := Smallest(bitmap);
      [KernelInfo(k, 0, 0, false)] + Ascending(bitmap - {k})
    else
      []
  }

  // ------------------------------------------------------- looking up kernels

  /** The first entry of kernel `k` at or after `from`, or -1. */
  function FirstFrom(order: seq<KernelInfo>, k: nat, from: nat): (r: int)
    requires from <= |order|
    ensures r == -1 || (from <= r < |order| && order[r].id == k)
    ensures forall i :: from <= i < (if r == -1 then |order| else r) ==> order[i].id != k
    decreases |order| - from
  {
    if from == |order| then -1 else if order[from].id == k then from else FirstFrom(order, k, from + 1)
  }

  function First(order: seq<KernelInfo>, k: nat): int { FirstFrom(order, k, 0) }

  /** How many of the first `n` entries are of kernel `k`. */
  function Occurrences(order: seq<KernelInfo>, k: nat, n: nat): (count: nat)
    requires n <= |order|
  {
    if n == 0 then 0 else Occurrences(order, k, n - 1) + if order[n - 1].id == k then 1 else 0
  }

  /** The first terminal of a kind at or after `from`, or -1. */
  function FirstOfKind(plan: seq<Terminal>, kind: Kind, from: nat): (r: int)
    requires from <= |plan|
    ensures r == -1 || (from <= r < |plan| && plan[r].kind == kind)
    decreases |plan| - from
  {
    if from == |plan| then -1 else if plan[from].kind == kind then from else FirstOfKind(plan, kind, from + 1)
  }

  function FirstSpatial(plan: seq<Terminal>, kind: Kind, k: nat, from: nat): (r: int)
    requires from <= |plan|
    ensures r == -1 || (from <= r < |plan| && plan[r].kind == kind && plan[r].bitmap == {k})
    decreases |plan| - from
  {
    if from == |plan| then -1
    else if plan[from].kind == kind && plan[from].bitmap == {k} then from
    else FirstSpatial(plan, kind, k, from + 1)
  }

  // -------------------------------------------------- what a kernel adds where

  function Max(a: Uint32, b: Uint32): Uint32 { if a < b then b else a }

  /** The manifest's section count prevails, and then so does its size if it is larger. */
  function Adjust(t: Terminal, k: nat, need: Need): Need {
    if t.order.None? then need
    else
      var j := First(t.order.value, k);
      if j >= 0 && t.order.value[j].sections != need.sections then
        Need(t.order.value[j].sections, Max(need.size, t.order.value[j].size))
      else
        need
  }

  /** A kernel's need on program terminals after the first `n` terminals adjusted it in turn. */
  function Sweep(plan: seq<Terminal>, k: nat, need: Need, n: nat): Need
    requires n <= |plan|
  {
    if n == 0 then need
    else if plan[n - 1].kind == Program then Adjust(plan[n - 1], k, Sweep(plan, k, need, n - 1))
    else Sweep(plan, k, need, n - 1)
  }

  /** Whether kernel `k`, for which P2P reports `a`, is counted on terminal `t`. */
  predicate Counts(plan: seq<Terminal>, t: nat, k: nat, a: Requirement)
    requires t < |plan|
  {
    && a.On(plan[t].kind).sections != 0
    && (plan[t].kind == CachedIn ==> t == FirstOfKind(plan, CachedIn, 0))
    && (plan[t].kind.Ordered() ==> plan[t].order.Some? && First(plan[t].order.value, k) >= 0)
    && (plan[t].kind.Spatial() ==> t == FirstSpatial(plan, plan[t].kind, k, 0))
  }

  /** The need of kernel `k` as terminal `t` finds it, and as it counts it. */
  function Found(plan: seq<Terminal>, t: nat, k: nat, a: Requirement): Need
    requires t < |plan|
  {
    if plan[t].kind == Program then Sweep(plan, k, a.program, t) else a.On(plan[t].kind)
  }

  function Counted(plan: seq<Terminal>, t: nat, k: nat, a: Requirement): Need
    requires t < |plan|
  {
    if plan[t].kind == Program || plan[t].kind == CachedIn then Adjust(plan[t], k, Found(plan, t, k, a))
    else Found(plan, t, k, a)
  }

  /** Kernel `k`'s needs as saved in the end. */
  function Settled(plan: seq<Terminal>, k: nat, a: Requirement): Requirement {
    var first := FirstOfKind(plan, CachedIn, 0);
    a.(paramIn := if a.paramIn.sections != 0 && first >= 0 then Adjust(plan[first], k, a.paramIn) else a.paramIn,
       program := if a.program.sections != 0 then Sweep(plan, k, a.program, |plan|) else a.program)
  }

  /** Terminal `was` after `count` occurrences of kernel `k` are counted. */
  function CountIn(was: Terminal, k: nat, count: nat, need: Need): Terminal {
    was.(sectionCount := ToUint32(was.sectionCount + count * need.sections),
         payloadSize := ToUint32(was.payloadSize + count * need.size),
         bitmap := was.bitmap + {k})
  }

  /** The first entry of kernel `k` is to be cleared before it is encoded. */
  function Mark(was: Terminal, k: nat): Terminal {
    if was.order.None? then was
    else
      var j := First(was.order.value, k);
      if j < 0 then was else was.(order := Some(was.order.value[j := was.order.value[j].(initialize := true)]))
  }

  function CountOf(t: Terminal, k: nat): nat {
    if t.order.None? then 1 else Occurrences(t.order.value, k, |t.order.value|)
  }

  /** What visiting kernel `k` makes of terminal `t`. */
  function Touch(plan: seq<Terminal>, was: Terminal, t: nat, k: nat, a: Requirement): Terminal
    requires t < |plan|
  {
    if !Counts(plan, t, k, a) then was
    else
      var need := Counted(plan, t, k, a);
      CountIn(if need.sections != Found(plan, t, k, a).sections then Mark(was, k) else was, k, CountOf(plan[t], k), need)
  }

  // ---------------------------------------------------- the final accounting

  ghost predicate Answered(p2p: seq<Option<Requirement>>, kernels: set<nat>) {
    forall k :: k in kernels ==> k < |p2p| && p2p[k].Some?
  }

  /** The kernels counted on terminal `t` with the size counted for each. */
  ghost function Ledger(plan: seq<Terminal>, p2p: seq<Option<Requirement>>, kernels: set<nat>, t: nat): map<nat, nat>
    requires t < |plan| && Answered(p2p, kernels)
  {
    map k | k in kernels && Counts(plan, t, k, p2p[k].value) :: Counted(plan, t, k, p2p[k].value).size
  }

  ghost function SectionLedger(plan: seq<Terminal>, p2p: seq<Option<Requirement>>, kernels: set<nat>, t: nat): map<nat, nat>
    requires t < |plan| && Answered(p2p, kernels)
  {
    map k | k in kernels && Counts(plan, t, k, p2p[k].value) :: Counted(plan, t, k, p2p[k].value).sections
  }

  function Entry(ledger: map<nat, nat>, k: nat): nat { if k in ledger then ledger[k] else 0 }

  /** The ledger's amounts summed over the first `n` entries of an order. */
  function Sum(order: seq<KernelInfo>, ledger: map<nat, nat>, n: nat): nat
    requires n <= |order|
  {
    if n == 0 then 0 else Sum(order, ledger, n - 1) + Entry(ledger, order[n - 1].id)
  }

  lemma {:induction false} SumOfNothing(order: seq<KernelInfo>, n: nat)
    requires n <= |order|
    ensures Sum(order, map[], n) == 0
  {
    if n > 0 {
      SumOfNothing(order, n - 1);
    }
  }

  lemma {:induction false} Distribute(count: nat, extra: nat, amount: nat)
    ensures (count + extra) * amount == count * amount + extra * amount
  {
  }

  /** A new entry of the ledger counts once for each occurrence of its kernel. */
  lemma {:induction false} SumWithOneMore(order: seq<KernelInfo>, ledger: map<nat, nat>, k: nat, amount: nat, n: nat)
    requires n <= |order| && k !in ledger
    ensures Sum(order, ledger[k := amount], n) == Sum(order, ledger, n) + Occurrences(order, k, n) * amount
  {
    if n > 0 {
      SumWithOneMore(order, ledger, k, amount, n - 1);
      Distribute(Occurrences(order, k, n - 1), if order[n - 1].id == k then 1 else 0, amount);
    }
  }
}
