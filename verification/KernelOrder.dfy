/** The order in which the kernels of a parameter terminal are laid out: a run-length encoding of the
    kernel ids of the sections in the terminal's manifest. */
module KernelOrders {
  import opened Basics

  /** One section of a terminal manifest. */
  datatype Section = Section(kernel: int, size: Uint32)

  datatype KernelInfo = KernelInfo(id: Uint8, sections: Uint8, size: Uint32, initialize: bool)

  /** Room for this many kernels. */
  const MAX_KERNELS: nat := 128

  /** An entry whose bytes are all 255, as the buffer is filled before use. */
  const UNUSED: KernelInfo := KernelInfo(255, 255, TWO_TO_THE_32 - 1, true)

  function ToUint8(x: int): (r: Uint8)
    ensures r == x <==> 0 <= x < TWO_TO_THE_8
  {
    x % TWO_TO_THE_8
  }

  /** One more section: it joins the last entry if that has its kernel id. */
  function Extend(order: seq<KernelInfo>, s: Section): seq<KernelInfo> {
    if order != [] && order[|order| - 1].id == s.kernel then
      order[|order| - 1 := Joined(order[|order| - 1], s)]
    else
      order + [KernelInfo(ToUint8(s.kernel), 1, s.size, false)]
  }

  function Joined(last: KernelInfo, s: Section): KernelInfo {
    last.(sections := ToUint8(last.sections + 1), size := ToUint32(last.size + s.size))
  }

  /** The order of the first `n` sections. */
  function OrderOf(manifest: seq<Section>, n: nat): seq<KernelInfo>
    requires n <= |manifest|
  {
    if n == 0 then [] else Extend(OrderOf(manifest, n - 1), manifest[n - 1])
  }

  lemma {:induction false} OrderGrows(manifest: seq<Section>, m: nat, n: nat)
    requires m <= n <= |manifest|
    ensures |OrderOf(manifest, m)| <= |OrderOf(manifest, n)|
    ensures m > 0 ==> OrderOf(manifest, m) != []
    decreases n - m
  {
    if m < n {
      OrderGrows(manifest, m + 1, n);
    }
  }

  /** Whether section `i` starts an entry: its kernel id is not the eight bits kept of the one before it. */
  predicate StartsEntry(manifest: seq<Section>, i: nat)
    requires i < |manifest|
  {
    i == 0 || manifest[i].kernel != ToUint8(manifest[i - 1].kernel)
  }

  /** How many of the first `n` sections start an entry. */
  function Runs(manifest: seq<Section>, n: nat): (count: nat)
    requires n <= |manifest|
  {
    if n == 0 then 0 else Runs(manifest, n - 1) + if StartsEntry(manifest, n - 1) then 1 else 0
  }

  /** There are as many entries as runs of sections of one kernel. */
  lemma {:induction false} EntriesAreRuns(manifest: seq<Section>, n: nat)
    requires n <= |manifest|
    ensures |OrderOf(manifest, n)| == Runs(manifest, n)
    ensures n > 0 ==> var order := OrderOf(manifest, n);
                      order != [] && order[|order| - 1].id == ToUint8(manifest[n - 1].kernel)
  {
    if n > 0 {
      EntriesAreRuns(manifest, n - 1);
    }
  }

  /** Adds section `s` to the buffer, of which the first `kernelCount` entries are in use, if there is room. */
  method AddSection(order: array<KernelInfo>, kernelCount: nat, s: Section) returns (fits: bool, count: nat)
    requires kernelCount <= order.Length
    modifies order
    ensures fits <==> |Extend(old(order[..kernelCount]), s)| <= order.Length
    ensures fits ==> count == |Extend(old(order[..kernelCount]), s)|
    ensures fits ==> order[..] == Extend(old(order[..kernelCount]), s) + old(order[count..])
    ensures !fits ==> order[..] == old(order[..])
  {
    if kernelCount > 0 && order[kernelCount - 1].id == s.kernel {
      order[kernelCount - 1] := Joined(order[kernelCount - 1], s);
      return true, kernelCount;
    }
    if kernelCount == order.Length {
      return false, kernelCount;
    }
    order[kernelCount] := KernelInfo(ToUint8(s.kernel), 1, s.size, false);
    return true, kernelCount + 1;
  }

  /** Fills the order from the manifest.  A manifest without sections is refused; one with more runs of kernels
      than there is room for overruns the buffer at the first section that starts an entry behind its end. */
  method GetKernelOrder(manifest: seq<Section>, order: array<KernelInfo>) returns (ending: Ending)
    modifies order
    ensures ending.Refused? <==> manifest == []
    ensures ending.Overrun? <==> Runs(manifest, |manifest|) > order.Length
    ensures !ending.Overrun? ==>
              var used := OrderOf(manifest, |manifest|);
              |used| <= order.Length && order[..] == used + old(order[..])[|used|..]
    ensures ending.Overrun? ==>
              exists n :: 0 <= n < |manifest| && StartsEntry(manifest, n) && order[..] == OrderOf(manifest, n)
  {
    EntriesAreRuns(manifest, |manifest|);
    if manifest == [] {
      return Refused;
    }
    ghost var before := order[..];
    var kernelCount := 0;
    var section := 0;
    while section < |manifest|
      invariant 0 <= section <= |manifest| && Filled(manifest, section, before, kernelCount, order[..])
    {
      ghost var buffer := order[..];
      FilledUpTo(manifest, section, before, kernelCount, buffer);
      assert buffer[..kernelCount] == order[..kernelCount];
      var fits, count := AddSection(order, kernelCount, manifest[section]);
      if !fits {
        FirstTooMany(manifest, section, before, kernelCount, buffer);
        return Overrun;
      }
      assert order[..] == OrderOf(manifest, section + 1) + buffer[count..];
      FilledOneMore(manifest, section, before, kernelCount, buffer, count, order[..]);
      kernelCount := count;
      section := section + 1;
    }
    return Done;
  }

  /** The buffer holds the order of the first `n` sections and behind it what it held before. */
  ghost predicate Filled(manifest: seq<Section>, n: nat, before: seq<KernelInfo>, kernelCount: nat, buffer: seq<KernelInfo>)
    requires n <= |manifest|
  {
    && kernelCount == |OrderOf(manifest, n)| <= |before|
    && buffer == OrderOf(manifest, n) + before[kernelCount..]
  }

  lemma {:induction false} FilledUpTo(manifest: seq<Section>, n: nat, before: seq<KernelInfo>, kernelCount: nat, buffer: seq<KernelInfo>)
    requires n <= |manifest| && Filled(manifest, n, before, kernelCount, buffer)
    ensures |buffer| == |before| && buffer[..kernelCount] == OrderOf(manifest, n)
  {
  }

  lemma {:induction false} FilledOneMore(manifest: seq<Section>, n: nat, before: seq<KernelInfo>, kernelCount: nat, buffer: seq<KernelInfo>,
                                         count: nat, after: seq<KernelInfo>)
    requires n < |manifest| && Filled(manifest, n, before, kernelCount, buffer)
    requires count == |OrderOf(manifest, n + 1)| <= |buffer| && after == OrderOf(manifest, n + 1) + buffer[count..]
    ensures Filled(manifest, n + 1, before, count, after)
  {
    OrderGrows(manifest, n, n + 1);
    FilledUpTo(manifest, n, before, kernelCount, buffer);
    assert buffer[count..] == before[count..];
  }

  /** The section for which there is no room in a full buffer starts an entry. */
  lemma {:induction false} FirstTooMany(manifest: seq<Section>, n: nat, before: seq<KernelInfo>, kernelCount: nat, buffer: seq<KernelInfo>)
    requires n < |manifest| && Filled(manifest, n, before, kernelCount, buffer) && |buffer| < |OrderOf(manifest, n + 1)|
    ensures StartsEntry(manifest, n) && buffer == OrderOf(manifest, n)
    ensures Runs(manifest, |manifest|) > |buffer|
  {
    FilledUpTo(manifest, n, before, kernelCount, buffer);
    EntriesAreRuns(manifest, n);
    EntriesAreRuns(manifest, n + 1);
    EntriesAreRuns(manifest, |manifest|);
    OrderGrows(manifest, n + 1, |manifest|);
  }

  // ------------------------------------------------------ what the order says

  function Kernels(manifest: seq<Section>, n: nat): (ids: seq<int>)
    requires n <= |manifest|
    ensures |ids| == n
  {
    if n == 0 then [] else Kernels(manifest, n - 1) + [manifest[n - 1].kernel]
  }

  function Repeat(id: int, n: nat): (ids: seq<int>)
    ensures |ids| == n && forall i :: 0 <= i < n ==> ids[i] == id
  {
    if n == 0 then [] else Repeat(id, n - 1) + [id]
  }

  /** Each entry's kernel id as often as the entry counts sections. */
  function Expand(order: seq<KernelInfo>): seq<int> {
    if order == [] then []
    else Expand(order[..|order| - 1]) + Repeat(order[|order| - 1].id, order[|order| - 1].sections)
  }

  function TotalSize(order: seq<KernelInfo>): nat {
    if order == [] then 0 else TotalSize(order[..|order| - 1]) + order[|order| - 1].size
  }

  function ManifestSize(manifest: seq<Section>, n: nat): nat
    requires n <= |manifest|
  {
    if n == 0 then 0 else ManifestSize(manifest, n - 1) + manifest[n - 1].size
  }

  /** How many sections end at section `n - 1` without a change of kernel, and their size. */
  function RunLength(manifest: seq<Section>, n: nat): (length: nat)
    requires 0 < n <= |manifest|
  {
    if n > 1 && manifest[n - 2].kernel == manifest[n - 1].kernel then RunLength(manifest, n - 1) + 1 else 1
  }

  function RunSize(manifest: seq<Section>, n: nat): (size: nat)
    requires 0 < n <= |manifest|
  {
    manifest[n - 1].size +
    if n > 1 && manifest[n - 2].kernel == manifest[n - 1].kernel then RunSize(manifest, n - 1) else 0
  }

  ghost predicate FitsBytes(manifest: seq<Section>, n: nat)
    requires n <= |manifest|
  {
    forall i :: 0 <= i < n ==> 0 <= manifest[i].kernel < TWO_TO_THE_8
  }

  ghost predicate ShortRuns(manifest: seq<Section>, n: nat)
    requires n <= |manifest|
  {
    forall i :: 0 < i <= n ==> RunLength(manifest, i) < TWO_TO_THE_8
  }

  ghost predicate SmallRuns(manifest: seq<Section>, n: nat)
    requires n <= |manifest|
  {
    forall i :: 0 < i <= n ==> RunSize(manifest, i) < TWO_TO_THE_32
  }

  /** Joining a section to an entry adds its kernel id at the end, unless the 8-bit count starts again. */
  lemma {:induction false} ExpandExtended(order: seq<KernelInfo>, s: Section)
    requires 0 <= s.kernel < TWO_TO_THE_8
    ensures order != [] && order[|order| - 1].id == s.kernel && order[|order| - 1].sections == TWO_TO_THE_8 - 1 ==>
              |Expand(Extend(order, s))| < |Expand(order)|
    ensures !(order != [] && order[|order| - 1].id == s.kernel && order[|order| - 1].sections == TWO_TO_THE_8 - 1) ==>
              Expand(Extend(order, s)) == Expand(order) + [s.kernel]
  {
    var after := Extend(order, s);
    if order != [] && order[|order| - 1].id == s.kernel {
      assert after[..|after| - 1] == order[..|order| - 1];
    } else {
      assert after[..|after| - 1] == order;
      assert Repeat(s.kernel, 1) == [s.kernel];
    }
  }

  /** The last entry describes the run that ends here. */
  lemma {:induction false} LastEntry(manifest: seq<Section>, n: nat)
    requires 0 < n <= |manifest| && FitsBytes(manifest, n)
    ensures var order := OrderOf(manifest, n);
            && order != [] && order[|order| - 1].id == manifest[n - 1].kernel
            && (ShortRuns(manifest, n) ==> order[|order| - 1].sections == RunLength(manifest, n))
            && (SmallRuns(manifest, n) ==> order[|order| - 1].size == RunSize(manifest, n))
  {
    if n > 1 {
      LastEntry(manifest, n - 1);
    }
  }

  lemma {:induction false} NeverLonger(manifest: seq<Section>, n: nat)
    requires n <= |manifest| && FitsBytes(manifest, n)
    ensures |Expand(OrderOf(manifest, n))| <= n
    ensures !ShortRuns(manifest, n) ==> |Expand(OrderOf(manifest, n))| < n
    ensures ShortRuns(manifest, n) ==> Expand(OrderOf(manifest, n)) == Kernels(manifest, n)
  {
    if n > 0 {
      NeverLonger(manifest, n - 1);
      if n > 1 {
        LastEntry(manifest, n - 1);
      }
      ExpandExtended(OrderOf(manifest, n - 1), manifest[n - 1]);
      if ShortRuns(manifest, n - 1) && !ShortRuns(manifest, n) {
        assert RunLength(manifest, n) == TWO_TO_THE_8;
      }
    }
  }

  lemma {:induction false} KernelsAt(manifest: seq<Section>, n: nat, i: nat)
    requires i < n <= |manifest|
    ensures Kernels(manifest, n)[i] == manifest[i].kernel
    decreases n
  {
    if i < n - 1 {
      KernelsAt(manifest, n - 1, i);
    }
  }

  lemma {:induction false} ExpandsToBytes(order: seq<KernelInfo>)
    ensures forall i :: 0 <= i < |Expand(order)| ==> 0 <= Expand(order)[i] < TWO_TO_THE_8
  {
    if order != [] {
      ExpandsToBytes(order[..|order| - 1]);
    }
  }

  /** The order is a faithful run-length encoding of the manifest exactly if kernel ids and run lengths fit
      eight bits. */
  lemma {:induction false} ExpandsToManifestIff(manifest: seq<Section>)
    ensures Expand(OrderOf(manifest, |manifest|)) == Kernels(manifest, |manifest|) <==>
            FitsBytes(manifest, |manifest|) && ShortRuns(manifest, |manifest|)
  {
    var n := |manifest|;
    ExpandsToBytes(OrderOf(manifest, n));
    forall i | 0 <= i < n && Expand(OrderOf(manifest, n)) == Kernels(manifest, n)
      ensures 0 <= manifest[i].kernel < TWO_TO_THE_8
    {
      KernelsAt(manifest, n, i);
    }
    if FitsBytes(manifest, n) {
      NeverLonger(manifest, n);
    }
  }

  /** Neighbouring entries are of different kernels, so no shorter encoding exists. */
  lemma {:induction false} NeighboursDiffer(manifest: seq<Section>, n: nat)
    requires n <= |manifest| && FitsBytes(manifest, n)
    ensures var order := OrderOf(manifest, n);
            forall k :: 0 < k < |order| ==> order[k - 1].id != order[k].id
  {
    if n > 0 {
      NeighboursDiffer(manifest, n - 1);
      if n > 1 {
        LastEntry(manifest, n - 1);
      }
    }
  }

  lemma {:induction false} SizeExtended(order: seq<KernelInfo>, s: Section)
    ensures TotalSize(Extend(order, s)) <= TotalSize(order) + s.size
    ensures TotalSize(Extend(order, s)) == TotalSize(order) + s.size <==>
            !(order != [] && order[|order| - 1].id == s.kernel && order[|order| - 1].size + s.size >= TWO_TO_THE_32)
  {
    var after := Extend(order, s);
    if order != [] && order[|order| - 1].id == s.kernel {
      assert after[..|after| - 1] == order[..|order| - 1];
    } else {
      assert after[..|after| - 1] == order;
    }
  }

  /** The entries' sizes add up to the manifest's exactly if the size of every run fits 32 bits. */
  lemma {:induction false} SizeConservedIff(manifest: seq<Section>, n: nat)
    requires n <= |manifest| && FitsBytes(manifest, n)
    ensures TotalSize(OrderOf(manifest, n)) <= ManifestSize(manifest, n)
    ensures TotalSize(OrderOf(manifest, n)) == ManifestSize(manifest, n) <==> SmallRuns(manifest, n)
  {
    if n > 0 {
      SizeConservedIff(manifest, n - 1);
      SizeExtended(OrderOf(manifest, n - 1), manifest[n - 1]);
      if n > 1 {
        LastEntry(manifest, n - 1);
      }
      assert SmallRuns(manifest, n) <==> SmallRuns(manifest, n - 1) && RunSize(manifest, n) < TWO_TO_THE_32;
    }
  }
}
