/** The program-group parameter encoder, with its buffers updated in place. */
module PgParam {
  import opened Basics
  import opened KernelOrders
  import opened PgRequirements
  import opened PgAccounts
  import opened PgVisits
  import opened PgEncode

  class IntelPGParam {
    const terminals: array<Terminal>
    const needs: array<Requirement>

    ghost predicate Valid() {
      needs.Length == MAX_KERNELS
    }

    /** Whether kernel `k` is in the order of terminal `t`, and where first; without an order it always is. */
    method FindKernel(t: nat, k: nat) returns (found: bool, index: nat)
      requires t < terminals.Length && (terminals[t].order.Some? ==> |terminals[t].order.value| == MAX_KERNELS)
      ensures terminals[t].order.None? ==> found
      ensures terminals[t].order.Some? ==> (found <==> First(terminals[t].order.value, k) >= 0)
      ensures terminals[t].order.Some? && found ==> index == First(terminals[t].order.value, k)
    {
      if terminals[t].order.None? {
        return true, 0;
      }
      ghost var order := terminals[t].order.value;
      index := 0;
      while index < MAX_KERNELS
        invariant 0 <= index <= MAX_KERNELS
        invariant First(order, k) == FirstFrom(order, k, index)
      {
        if terminals[t].order.value[index].id == k {
          return true, index;
        }
        index := index + 1;
      }
      return false, 0;
    }

    method KernelCount(t: nat, k: nat) returns (count: nat)
      requires t < terminals.Length && (terminals[t].order.Some? ==> |terminals[t].order.value| == MAX_KERNELS)
      ensures count == CountOf(terminals[t], k)
    {
      if terminals[t].order.None? {
        return 1;
      }
      count := 0;
      var i := 0;
      while i < MAX_KERNELS
        invariant 0 <= i <= MAX_KERNELS && count == Occurrences(terminals[t].order.value, k, i)
      {
        if terminals[t].order.value[i].id == k {
          count := count + 1;
        }
        i := i + 1;
      }
    }

    method TerminalByType(ghost plan: seq<Terminal>, kind: Kind) returns (t: int)
      requires Follows(plan, terminals[..])
      ensures t == FirstOfKind(plan, kind, 0)
    {
      t := 0;
      while t < terminals.Length
        invariant 0 <= t <= terminals.Length && FirstOfKind(plan, kind, 0) == FirstOfKind(plan, kind, t)
      {
        assert Matches(plan[t], terminals[..][t]);
        if terminals[t].kind == kind {
          return;
        }
        t := t + 1;
      }
      return -1;
    }

    method TerminalByBitmap(ghost plan: seq<Terminal>, kind: Kind, k: nat) returns (t: int)
      requires Follows(plan, terminals[..]) && kind.Spatial()
      ensures t == FirstSpatial(plan, kind, k, 0)
    {
      t := 0;
      while t < terminals.Length
        invariant 0 <= t <= terminals.Length && FirstSpatial(plan, kind, k, 0) == FirstSpatial(plan, kind, k, t)
      {
        assert Matches(plan[t], terminals[..][t]);
        if terminals[t].kind == kind && terminals[t].bitmap == {k} {
          return;
        }
        t := t + 1;
      }
      return -1;
    }

    method SetTerminal(t: nat, value: Terminal)
      requires t < terminals.Length
      modifies terminals
      ensures terminals[..] == old(terminals[..])[t := value]
    {
      terminals[t] := value;
    }

    method SetNeed(k: nat, value: Requirement)
      requires k < needs.Length
      modifies needs
      ensures needs[..] == old(needs[..])[k := value]
    {
      needs[k] := value;
    }

    /** Adds kernel `k`'s need to a terminal once for each of `count` occurrences. */
    static method Accumulate(term: Terminal, k: nat, count: nat, need: Need) returns (r: Terminal)
      ensures r == CountIn(term, k, count, need)
    {
      var i, sectionCount, payloadSize := 0, term.sectionCount, term.payloadSize;
      while i < count
        invariant 0 <= i <= count
        invariant sectionCount == ToUint32(term.sectionCount + i * need.sections)
        invariant payloadSize == ToUint32(term.payloadSize + i * need.size)
      {
        AddOnce(term.sectionCount, i, need.sections);
        AddOnce(term.payloadSize, i, need.size);
        sectionCount := ToUint32(sectionCount + need.sections);
        payloadSize := ToUint32(payloadSize + need.size);
        i := i + 1;
      }
      assert i == count;
      return term.(sectionCount := sectionCount, payloadSize := payloadSize, bitmap := term.bitmap + {k});
    }

    /** Counts kernel `k` on terminal `t` once for each time it occurs in the order. */
    method Process(t: nat, k: nat, kind: Kind)
      requires Valid() && t < terminals.Length && k < MAX_KERNELS
      requires terminals[t].order.Some? ==> |terminals[t].order.value| == MAX_KERNELS
      modifies terminals
      ensures terminals[..] == old(terminals[..])[t := CountIn(old(terminals[t]), k, CountOf(old(terminals[t]), k), needs[k].On(kind))]
    {
      var count := KernelCount(t, k);
      var counted := Accumulate(terminals[t], k, count, needs[k].On(kind));
      SetTerminal(t, counted);
    }

    /** Counts kernel `k` on terminal `t` if it is in the order; the manifest's section count prevails. */
    method AdjustAndProcess(ghost plan: seq<Terminal>, t: nat, k: nat, kind: Kind, ghost a: Requirement)
      requires Valid() && Follows(plan, terminals[..]) && t < terminals.Length && k < MAX_KERNELS
      requires plan[t].kind == kind && (kind == Program || (kind == CachedIn && t == FirstOfKind(plan, CachedIn, 0)))
      requires a.On(kind).sections != 0 && needs[k].On(kind) == Found(plan, t, k, a)
      modifies terminals, needs
      ensures Valid()
      ensures terminals[..] == old(terminals[..])[t := Touch(plan, old(terminals[t]), t, k, a)]
      ensures needs[..] == old(needs[..])[k := Put(old(needs[k]), kind, Adjust(plan[t], k, Found(plan, t, k, a)))]
    {
      assert Matches(plan[t], terminals[..][t]);
      LookupsAgree(plan[t], terminals[t], k);
      ghost var was := terminals[t];
      var found, index := FindKernel(t, k);
      if found {
        var term, need := terminals[t], needs[k].On(kind);
        var entry := term.order.value[index];
        if entry.sections != need.sections {
          SetNeed(k, Put(needs[k], kind, Need(entry.sections, Max(need.size, entry.size))));
          SetTerminal(t, term.(order := Some(term.order.value[index := entry.(initialize := true)])));
          MarkKeepsCount(was, k);
        }
        Process(t, k, kind);
      }
    }

    /** The first cached-in terminal takes the kernel; there must be one if P2P has sections for it. */
    method CountCachedIn(ghost plan: seq<Terminal>, k: nat, ghost a: Requirement) returns (ok: bool)
      requires Valid() && Follows(plan, terminals[..]) && k < MAX_KERNELS && needs[k] == a
      modifies terminals, needs
      ensures ok <==> a.paramIn.sections == 0 || FirstOfKind(plan, CachedIn, 0) >= 0
      ensures ok ==> Visiting(plan, old(terminals[..]), terminals[..], {CachedIn}, CachedIn, 0, k, a)
      ensures ok ==> needs[..] == old(needs[..])[k := a.(paramIn := Settled(plan, k, a).paramIn)]
    {
      ghost var before, t := terminals[..], -1;
      if needs[k].paramIn.sections != 0 {
        var first := TerminalByType(plan, CachedIn);
        if first < 0 {
          return false;
        }
        t := first;
        AdjustAndProcess(plan, first, k, CachedIn, a);
      }
      VisitOnly(plan, before, before, terminals[..], {}, CachedIn, t, k, a);
      return true;
    }

    method CountCachedOut(ghost plan: seq<Terminal>, ghost before: seq<Terminal>, ghost done: set<Kind>, k: nat, ghost a: Requirement)
      requires Valid() && Follows(plan, before) && k < MAX_KERNELS && needs[k].paramOut == a.paramOut
      requires CachedOut !in done && Visiting(plan, before, terminals[..], done, CachedOut, 0, k, a)
      modifies terminals
      ensures Visiting(plan, before, terminals[..], done + {CachedOut}, CachedOut, 0, k, a)
    {
      if needs[k].paramOut.sections == 0 {
        VisitOnly(plan, before, terminals[..], terminals[..], done, CachedOut, -1, k, a);
        return;
      }
      var t := 0;
      while t < terminals.Length
        invariant 0 <= t <= terminals.Length && Valid()
        invariant Visiting(plan, before, terminals[..], done, CachedOut, t, k, a)
      {
        ghost var now := terminals[..];
        VisitingFollows(plan, before, now, done, CachedOut, t, k, a);
        assert Matches(plan[t], now[t]);
        LookupsAgree(plan[t], now[t], k);
        if terminals[t].kind == CachedOut {
          var found, _ := FindKernel(t, k);
          if found {
            Process(t, k, CachedOut);
          }
        }
        VisitNext(plan, before, now, terminals[..], done, CachedOut, t, k, a);
        t := t + 1;
      }
      KindDone(plan, before, terminals[..], done, CachedOut, t, CachedOut, k, a);
    }

    method CountPrograms(ghost plan: seq<Terminal>, ghost before: seq<Terminal>, ghost done: set<Kind>, k: nat, ghost a: Requirement)
      requires Valid() && Follows(plan, before) && k < MAX_KERNELS && needs[k].program == a.program
      requires Program !in done && Visiting(plan, before, terminals[..], done, Program, 0, k, a)
      modifies terminals, needs
      ensures Valid()
      ensures Visiting(plan, before, terminals[..], done + {Program}, Program, 0, k, a)
      ensures needs[..] == old(needs[..])[k := old(needs[k]).(program := Settled(plan, k, a).program)]
    {
      if needs[k].program.sections == 0 {
        VisitOnly(plan, before, terminals[..], terminals[..], done, Program, -1, k, a);
        return;
      }
      ghost var was := needs[..];
      var t := 0;
      while t < terminals.Length
        invariant 0 <= t <= terminals.Length && Valid()
        invariant Visiting(plan, before, terminals[..], done, Program, t, k, a)
        invariant needs[..] == was[k := was[k].(program := Sweep(plan, k, a.program, t))]
      {
        ghost var now := terminals[..];
        VisitingFollows(plan, before, now, done, Program, t, k, a);
        assert Matches(plan[t], now[t]);
        assert needs[..][k] == needs[k];
        if terminals[t].kind == Program {
          AdjustAndProcess(plan, t, k, Program, a);
        }
        VisitNext(plan, before, now, terminals[..], done, Program, t, k, a);
        t := t + 1;
      }
      KindDone(plan, before, terminals[..], done, Program, t, Program, k, a);
    }

    /** The terminal of the kernel's own takes its spatial parameters, if it has one. */
    method CountSpatial(ghost plan: seq<Terminal>, ghost before: seq<Terminal>, ghost done: set<Kind>, kind: Kind, k: nat, ghost a: Requirement)
      requires Valid() && Follows(plan, before) && k < MAX_KERNELS && kind.Spatial() && needs[k].On(kind) == a.On(kind)
      requires kind !in done && Visiting(plan, before, terminals[..], done, kind, 0, k, a)
      modifies terminals
      ensures Visiting(plan, before, terminals[..], done + {kind}, kind, 0, k, a)
    {
      ghost var now, only := terminals[..], -1;
      VisitingFollows(plan, before, now, done, kind, 0, k, a);
      if needs[k].On(kind).sections != 0 {
        var t := TerminalByBitmap(plan, kind, k);
        if t >= 0 {
          assert Matches(plan[t], now[t]);
          var found, _ := FindKernel(t, k);
          if found {
            only := t;
            var counted := CountIn(terminals[t], k, 1, needs[k].On(kind));
            assert counted.bitmap == {k};
            assert counted == Touch(plan, now[t], t, k, a);
            SetTerminal(t, counted.(bitmap := {k}));
          }
        }
      }
      VisitOnly(plan, before, now, terminals[..], done, kind, only, k, a);
    }

    /** Asks P2P about kernel `k` and counts it on every terminal that takes it. */
    method VisitKernel(ghost plan: seq<Terminal>, p2p: seq<Option<Requirement>>, k: nat) returns (ok: bool)
      requires Valid() && Follows(plan, terminals[..]) && k < MAX_KERNELS == |p2p|
      modifies terminals, needs
      ensures Valid()
      ensures ok <==> Prepares(plan, p2p, k)
      ensures ok ==> Follows(plan, terminals[..])
      ensures ok ==> forall u :: 0 <= u < |plan| ==> terminals[..][u] == Touch(plan, old(terminals[..])[u], u, k, p2p[k].value)
      ensures ok ==> needs[..] == old(needs[..])[k := Settled(plan, k, p2p[k].value)]
    {
      if p2p[k].None? {
        return false;
      }
      ghost var before, a := terminals[..], p2p[k].value;
      SetNeed(k, p2p[k].value);
      ok := CountCachedIn(plan, k, a);
      if !ok {
        return;
      }
      CountCachedOut(plan, before, {CachedIn}, k, a);
      CountPrograms(plan, before, {CachedIn, CachedOut}, k, a);
      CountSpatial(plan, before, {CachedIn, CachedOut, Program}, SpatialIn, k, a);
      CountSpatial(plan, before, {CachedIn, CachedOut, Program, SpatialIn}, SpatialOut, k, a);
      ghost var all := {CachedIn, CachedOut, Program, SpatialIn, SpatialOut};
      VisitingFollows(plan, before, terminals[..], all, SpatialOut, 0, k, a);
      AllKindsDone(plan, before, terminals[..], k, a);
    }

    constructor (terminalCount: nat, requirements: seq<Requirement>)
      requires |requirements| == MAX_KERNELS
      ensures Valid() && fresh(terminals) && fresh(needs)
      ensures terminals.Length == terminalCount && needs[..] == requirements
      ensures forall t :: 0 <= t < terminalCount ==> terminals[t] == Terminal(Unknown, None, {}, 0, 0)
    {
      terminals := new Terminal[terminalCount](_ => Terminal(Unknown, None, {}, 0, 0));
      needs := new Requirement[MAX_KERNELS](i requires 0 <= i < MAX_KERNELS => requirements[i]);
    }

    /** The kernel order of a parameter terminal, in a buffer of its own. */
    static method NewOrder(sections: seq<Section>) returns (ending: Ending, order: seq<KernelInfo>)
      ensures ending.Refused? <==> sections == []
      ensures ending.Overrun? <==> Runs(sections, |sections|) > MAX_KERNELS
      ensures ending.Done? ==> var used := OrderOf(sections, |sections|);
                                |used| <= MAX_KERNELS && order == used + Unused(MAX_KERNELS - |used|)
    {
      var buffer := new KernelInfo[MAX_KERNELS](_ => UNUSED);
      ghost var before, used := buffer[..], OrderOf(sections, |sections|);
      EntriesAreRuns(sections, |sections|);
      ending := GetKernelOrder(sections, buffer);
      order := buffer[..];
      if ending.Done? {
        assert before[|used|..] == Unused(MAX_KERNELS - |used|);
      }
    }

    /** Notes for each terminal what the manifest says about it. */
    method ReadManifest(manifest: seq<Manifest>) returns (ending: Ending)
      requires |manifest| == terminals.Length && ValidManifest(manifest)
      modifies terminals
      ensures ending == PlanEnding(manifest, |manifest|)
      ensures ending.Done? ==> terminals[..] == PlanOf(old(terminals[..]), manifest, |manifest|)
    {
      ghost var was := terminals[..];
      var t := 0;
      while t < terminals.Length
        invariant 0 <= t <= terminals.Length && PlanEnding(manifest, t).Done?
        invariant forall u :: 0 <= u < terminals.Length ==>
                    terminals[..][u] == if u < t then Planned(was[u], manifest[u]) else was[u]
      {
        var m, term := manifest[t], terminals[t];
        assert term == terminals[..][t];
        if m.kind.Ordered() {
          var read, order := NewOrder(m.sections);
          EntriesAreRuns(m.sections, |m.sections|);
          if !read.Done? {
            PlanStops(manifest, t);
            return read;
          }
          SetTerminal(t, term.(kind := m.kind, order := Some(order)));
        } else if m.kind.DataIn? || m.kind.DataOut? {
          SetTerminal(t, term.(kind := m.kind, order := None, bitmap := m.bitmap));
        } else if m.kind.Spatial() {
          SetTerminal(t, term.(kind := m.kind, order := None, bitmap := {m.kernel}));
        } else {
          SetTerminal(t, term.(kind := m.kind, order := None));
        }
        t := t + 1;
      }
      return Done;
    }

    /** The lowest kernel of a bitmap. */
    static method KernelByBitmap(bitmap: set<nat>) returns (k: nat)
      requires bitmap != {} && forall i :: i in bitmap ==> i < MAX_KERNELS
      ensures k in bitmap && forall i :: i in bitmap ==> k <= i
    {
      ghost var some :| some in bitmap;
      k := 0;
      while k !in bitmap
        invariant k <= some && forall i :: i in bitmap ==> k <= i
        decreases some - k
      {
        k := k + 1;
      }
    }

    /** Counts every kernel of `kernels` on the planned terminals, lowest first. */
    method CountKernels(ghost plan: seq<Terminal>, p2p: seq<Option<Requirement>>, kernels: set<nat>) returns (ok: bool)
      requires Valid() && terminals[..] == plan && Follows(plan, plan)
      requires |p2p| == MAX_KERNELS && forall k :: k in kernels ==> k < MAX_KERNELS
      modifies terminals, needs
      ensures Valid()
      ensures ok <==> forall k :: k in kernels ==> Prepares(plan, p2p, k)
      ensures ok ==> Follows(plan, terminals[..]) && Accounts(plan, p2p, kernels, terminals[..], old(needs[..]), needs[..])
    {
      ghost var done: set<nat>, needed := {}, needs[..];
      var bitmap := kernels;
      NothingCounted(plan, p2p, needed);
      while bitmap != {}
        invariant done + bitmap == kernels && done !! bitmap
        invariant forall k :: k in done ==> Prepares(plan, p2p, k)
        invariant Follows(plan, terminals[..]) && Accounts(plan, p2p, done, terminals[..], needed, needs[..])
        decreases |bitmap|
      {
        var k := KernelByBitmap(bitmap);
        ghost var before, saved := terminals[..], needs[..];
        ok := VisitKernel(plan, p2p, k);
        if !ok {
          return;
        }
        AccountsNext(plan, p2p, done, before, terminals[..], needed, saved, needs[..], k);
        done := done + {k};
        bitmap := bitmap - {k};
      }
      assert done == kernels;
      return true;
    }

    /** Plans the terminals from the manifest and counts the kernels on them. */
    method Prepare(manifest: seq<Manifest>, p2p: seq<Option<Requirement>>, kernels: set<nat>) returns (ending: Ending)
      requires Valid() && |manifest| == terminals.Length && ValidManifest(manifest) && Bounded(terminals[..])
      requires |p2p| == MAX_KERNELS && forall k :: k in kernels ==> k < MAX_KERNELS
      modifies terminals, needs
      ensures Valid()
      ensures ending.Overrun? <==> PlanEnding(manifest, |manifest|).Overrun?
      ensures !PlanEnding(manifest, |manifest|).Done? ==> ending == PlanEnding(manifest, |manifest|)
      ensures PlanEnding(manifest, |manifest|).Done? ==>
                var plan := PlanOf(old(terminals[..]), manifest, |manifest|);
                && (ending.Done? <==> forall k :: k in kernels ==> Prepares(plan, p2p, k))
                && (ending.Done? ==>
                      Follows(plan, terminals[..]) && Accounts(plan, p2p, kernels, terminals[..], old(needs[..]), needs[..]))
    {
      ghost var was := terminals[..];
      ending := ReadManifest(manifest);
      if ending.Done? {
        PlanFollows(was, manifest);
        var ok := CountKernels(PlanOf(was, manifest, |manifest|), p2p, kernels);
        return if ok then Done else Refused;
      }
    }

    /** Asks P2P again and checks that kernel `k` still fits; `next` is the size to use for it. */
    method SanityTest(kind: Kind, k: nat, answer: Answer, curOffset: nat, payloadSize: Uint32) returns (ok: bool, next: Uint32)
      requires Valid() && k < MAX_KERNELS
      ensures ok <==> answer.current.Some? && !kind.Unknown? && curOffset + next <= payloadSize
      ensures answer.current.Some? ==> next == Max(needs[k].On(kind).size, answer.current.value.On(kind).size)
      ensures answer.current.None? ==> next == needs[k].On(kind).size
    {
      next := needs[k].On(kind).size;
      if answer.current.None? {
        return false, next;
      }
      if answer.current.value.On(kind).size > next {
        next := answer.current.value.On(kind).size;
      }
      return !kind.Unknown? && curOffset + next <= payloadSize, next;
    }

    /** One turn of the encoding loop, for the kernel of one entry. */
    method EncodeEntry(ghost walked: seq<KernelInfo>, ghost sizes: Sizes, n: nat, kind: Kind, entry: KernelInfo, answers: nat -> Answer,
                       payloadSize: Uint32, curSection: nat, curOffset: nat, trace: seq<Op>)
      returns (ok: bool, section: nat, offset: nat, ops: seq<Op>)
      requires Valid() && Encodable(walked) && n < |walked| && entry == walked[n]
      requires kind != ControlInit && sizes == Sizes(kind, needs[..], answers)
      requires curOffset == OffsetOf(walked, sizes, n) && curSection == SectionOf(walked, sizes, n)
      requires trace == Trace(walked, sizes, n)
      ensures ok <==> Passes(walked, sizes, payloadSize, n)
      ensures ok ==> offset == OffsetOf(walked, sizes, n + 1) && section == SectionOf(walked, sizes, n + 1)
      ensures ops == if ok then Trace(walked, sizes, n + 1) else StoppedAt(walked, sizes, payloadSize, n)
    {
      section, offset, ops := curSection, curOffset, trace;
      if entry.initialize {
        ops := ops + [Clear(curOffset, entry.size)];
      }
      var next;
      ok, next := SanityTest(kind, entry.id, answers(n), curOffset, payloadSize);
      if !ok {
        return;
      }
      if kind.DataIn? || kind.DataOut? {
        return;
      }
      ops := ops + [Encode(entry.id, curSection, curOffset)];
      if !answers(n).encoded {
        return false, section, offset, ops;
      }
      section := curSection + needs[entry.id].On(kind).sections;
      offset := curOffset + next;
    }

    /** The entry to encode next, if there is one. */
    static method NextEntry(term: Terminal, bitmap: set<nat>, kernelIndex: nat, ghost n: nat) returns (next: Next)
      requires term.Valid() && bitmap != {} && At(term, bitmap, kernelIndex, n)
      ensures next.Kernel? <==> n < |Walked(term)|
      ensures next.Kernel? ==> next.entry == Walked(term)[n] && At(term, After(term, bitmap, next.entry), kernelIndex + 1, n + 1)
      ensures next.Kernel? && term.order.None? ==> next.entry.id in bitmap
      ensures !next.Kernel? ==> (next.PastEnd? <==> RunsOut(term))
    {
      if term.order.Some? {
        if kernelIndex == MAX_KERNELS {
          return PastEnd;
        }
        var entry := term.order.value[kernelIndex];
        return if entry.id < MAX_KERNELS then Kernel(entry) else End;
      } else {
        var kernelId := KernelByBitmap(bitmap);
        AscendingStep(bitmap, kernelId);
        return Kernel(KernelInfo(kernelId, 0, 0, false));
      }
    }

    /** Encodes the kernels of terminal `t` into a payload of `payloadSize` bytes: in the kernel order up to its
        first entry of no kernel, or else from the lowest bit of the bitmap up.  An order without such an entry
        is read on past its end once all its entries are encoded. */
    method EncodeTerminal(t: nat, payloadSize: Uint32, answers: nat -> Answer) returns (ending: Ending, curOffset: nat, trace: seq<Op>)
      requires Valid() && t < terminals.Length
      requires terminals[t].Valid() && terminals[t].kind != ControlInit
      ensures TraceOf(Walked(terminals[t]), Sizes(terminals[t].kind, needs[..], answers), payloadSize, !ending.Refused?, curOffset, trace)
      ensures !ending.Refused? ==> (ending.Overrun? <==> RunsOut(terminals[t]))
    {
      var term, bitmap := terminals[t], terminals[t].bitmap;
      ghost var walked, sizes := Walked(term), Sizes(term.kind, needs[..], answers);
      var n, kernelIndex, curSection := 0, 0, 0;
      curOffset, trace := 0, [];
      while bitmap != {}
        invariant At(term, bitmap, kernelIndex, n) && EncodedTo(walked, sizes, payloadSize, n, curOffset, curSection, trace)
        invariant terminals[t] == term && sizes == Sizes(term.kind, needs[..], answers)
        decreases |walked| - n
      {
        var next := NextEntry(term, bitmap, kernelIndex, n);
        if !next.Kernel? {
          AllEncoded(walked, sizes, payloadSize, curOffset, curSection, trace);
          return if next.PastEnd? then Overrun else Done, curOffset, trace;
        }
        var ok;
        ok, curSection, curOffset, trace :=
          EncodeEntry(walked, sizes, n, term.kind, next.entry, answers, payloadSize, curSection, curOffset, trace);
        if !ok {
          EncodingStops(walked, sizes, payloadSize, n, curOffset, trace);
          return Refused, curOffset, trace;
        }
        EncodedOneMore(walked, sizes, payloadSize, n);
        kernelIndex, n := kernelIndex + 1, n + 1;
        if term.order.None? {
          bitmap := bitmap - {next.entry.id};
        }
      }
      NothingLeft(term, kernelIndex, n);
      AllEncoded(walked, sizes, payloadSize, curOffset, curSection, trace);
      return Done, curOffset, trace;
    }
  }
}
