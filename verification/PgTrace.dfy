/** What encoding does to a payload, read off its trace: the kernels' sections and bytes follow one another. */
module PgTrace {
  import opened Basics
  import opened KernelOrders
  import opened PgRequirements
  import opened PgEncode

  /** The encodings of a trace. */
  function Encodings(ops: seq<Op>): (r: seq<Op>)
    ensures forall i :: 0 <= i < |r| ==> r[i].Encode?
  {
    if ops == [] then []
    else Encodings(ops[..|ops| - 1]) + if ops[|ops| - 1].Encode? then [ops[|ops| - 1]] else []
  }

  lemma {:induction false} EncodingsAdd(a: seq<Op>, b: seq<Op>)
    ensures Encodings(a + b) == Encodings(a) + Encodings(b)
  {
    if b == [] {
      assert a + b == a;
    } else {
      var shorter := b[..|b| - 1];
      EncodingsAdd(a, shorter);
      assert (a + b)[..|a + b| - 1] == a + shorter;
    }
  }

  lemma {:induction false} OneEncoding(op: Op)
    ensures Encodings([op]) == if op.Encode? then [op] else []
  {
    assert [op][..0] == [];
  }

  /** The encoding of the `i`-th entry. */
  function EncodingAt(walked: seq<KernelInfo>, sizes: Sizes, i: nat): Op
    requires i < |walked| && sizes.Valid() && Encodable(walked)
  {
    Encode(walked[i].id, SectionOf(walked, sizes, i), OffsetOf(walked, sizes, i))
  }

  lemma {:induction false} EntryAdds(walked: seq<KernelInfo>, sizes: Sizes, n: nat, ops: seq<Op>)
    requires n < |walked| && sizes.Valid() && Encodable(walked) && (sizes.kind.Ordered() || sizes.kind.Spatial())
    ensures Encodings(ops + Clears(walked, sizes, n)) == Encodings(ops)
    ensures Encodings(ops + Clears(walked, sizes, n) + Encodes(walked, sizes, n)) == Encodings(ops) + [EncodingAt(walked, sizes, n)]
  {
    var clears, encodes := Clears(walked, sizes, n), Encodes(walked, sizes, n);
    EncodingsAdd(ops, clears);
    EncodingsAdd(ops + clears, encodes);
    OneEncoding(encodes[0]);
    if clears != [] {
      OneEncoding(clears[0]);
    }
  }

  /** The encodings are those of the first entries. */
  ghost predicate EncodesFirst(walked: seq<KernelInfo>, sizes: Sizes, e: seq<Op>)
    requires sizes.Valid() && Encodable(walked)
  {
    |e| <= |walked| && forall i :: 0 <= i < |e| ==> e[i] == EncodingAt(walked, sizes, i)
  }

  lemma {:induction false} OneMoreEncoding(walked: seq<KernelInfo>, sizes: Sizes, e: seq<Op>, after: seq<Op>)
    requires sizes.Valid() && Encodable(walked) && EncodesFirst(walked, sizes, e) && |e| < |walked|
    requires after == e + [EncodingAt(walked, sizes, |e|)]
    ensures EncodesFirst(walked, sizes, after)
  {
  }

  /** The operations encode exactly the first `n` entries. */
  ghost predicate EncodesUpTo(walked: seq<KernelInfo>, sizes: Sizes, n: nat, ops: seq<Op>)
    requires sizes.Valid() && Encodable(walked)
  {
    |Encodings(ops)| == n && EncodesFirst(walked, sizes, Encodings(ops))
  }

  lemma {:induction false} EntryEncodes(walked: seq<KernelInfo>, sizes: Sizes, n: nat, before: seq<Op>, after: seq<Op>)
    requires n < |walked| && sizes.Valid() && Encodable(walked) && (sizes.kind.Ordered() || sizes.kind.Spatial())
    requires EncodesUpTo(walked, sizes, n, before)
    requires after == before + Clears(walked, sizes, n) + Encodes(walked, sizes, n)
    ensures EncodesUpTo(walked, sizes, n + 1, after)
  {
    EntryAdds(walked, sizes, n, before);
    OneMoreEncoding(walked, sizes, Encodings(before), Encodings(after));
  }

  lemma {:induction false} TraceEncodes(walked: seq<KernelInfo>, sizes: Sizes, n: nat)
    requires n <= |walked| && sizes.Valid() && Encodable(walked) && (sizes.kind.Ordered() || sizes.kind.Spatial())
    ensures EncodesUpTo(walked, sizes, n, Trace(walked, sizes, n))
  {
    if n > 0 {
      var before := Trace(walked, sizes, n - 1);
      TraceEncodes(walked, sizes, n - 1);
      EntryEncodes(walked, sizes, n - 1, before, before + Clears(walked, sizes, n - 1) + Encodes(walked, sizes, n - 1));
    }
  }

  /** The trace after stopping: the entry that failed is encoded if its size fitted, but then P2P failed. */
  lemma {:induction false} StoppedEncodes(walked: seq<KernelInfo>, sizes: Sizes, payloadSize: nat, n: nat)
    requires n < |walked| && sizes.Valid() && Encodable(walked) && (sizes.kind.Ordered() || sizes.kind.Spatial())
    ensures var e := Encodings(StoppedAt(walked, sizes, payloadSize, n)); n <= |e| <= n + 1 && EncodesFirst(walked, sizes, e)
  {
    var before := Trace(walked, sizes, n);
    TraceEncodes(walked, sizes, n);
    EntryAdds(walked, sizes, n, before);
    OneMoreEncoding(walked, sizes, Encodings(before), Encodings(before) + [EncodingAt(walked, sizes, n)]);
    assert before + Clears(walked, sizes, n) + [] == before + Clears(walked, sizes, n);
  }

  lemma {:induction false} AnsweredBefore(walked: seq<KernelInfo>, sizes: Sizes, payloadSize: nat, n: nat)
    requires n <= |walked| && sizes.Valid() && Encodable(walked) && AllPass(walked, sizes, payloadSize, n)
    ensures forall i :: 0 <= i < n ==> sizes.answers(i).current.Some?
  {
    forall i | 0 <= i < n
      ensures sizes.answers(i).current.Some?
    {
      assert Passes(walked, sizes, payloadSize, i);
    }
  }

  /** Which entries a trace encodes: all of them, or those up to where it stops. */
  lemma {:induction false} TraceOfEncodes(walked: seq<KernelInfo>, sizes: Sizes, payloadSize: nat, ok: bool, curOffset: nat, trace: seq<Op>)
    requires sizes.Valid() && Encodable(walked) && (sizes.kind.Ordered() || sizes.kind.Spatial())
    requires TraceOf(walked, sizes, payloadSize, ok, curOffset, trace)
    ensures var e := Encodings(trace);
            && EncodesFirst(walked, sizes, e) && (ok ==> |e| == |walked|)
            && (forall i :: 0 <= i < |e| && (ok || i + 1 < |e|) ==> sizes.answers(i).current.Some?)
  {
    if ok {
      TraceEncodes(walked, sizes, |walked|);
      AnsweredBefore(walked, sizes, payloadSize, |walked|);
    } else {
      var n :| 0 <= n < |walked| && FailsAt(walked, sizes, payloadSize, n) && trace == StoppedAt(walked, sizes, payloadSize, n);
      StoppedEncodes(walked, sizes, payloadSize, n);
      AnsweredBefore(walked, sizes, payloadSize, n);
    }
  }

  /** Encoding `b` is right behind encoding `a`, of a kernel for which `saved` is saved and `asked` bytes are reported. */
  ghost predicate RightBehind(a: Op, b: Op, saved: Need, asked: nat)
    requires a.Encode? && b.Encode?
  {
    && b.section == a.section + saved.sections
    && b.offset == a.offset + if saved.size < asked then asked else saved.size
  }

  lemma {:induction false} NextIsRightBehind(walked: seq<KernelInfo>, sizes: Sizes, e: seq<Op>, i: nat, j: nat)
    requires sizes.Valid() && Encodable(walked) && EncodesFirst(walked, sizes, e)
    requires j == i + 1 && j < |e| && sizes.answers(i).current.Some?
    ensures e[i].Encode? && e[j].Encode?
    ensures RightBehind(e[i], e[j], sizes.needs[walked[i].id].On(sizes.kind), sizes.answers(i).current.value.On(sizes.kind).size)
  {
    assert e[i] == EncodingAt(walked, sizes, i) && e[j] == EncodingAt(walked, sizes, j);
  }

  /** The entries are encoded in turn from section 0 and byte 0 on, each right behind the one before: behind the sections
      saved for its kernel, and behind the larger of the sizes saved and reported for it. */
  lemma {:induction false} EncodedInTurn(walked: seq<KernelInfo>, sizes: Sizes, payloadSize: nat, ok: bool, curOffset: nat, trace: seq<Op>)
    requires sizes.Valid() && Encodable(walked)
    requires sizes.kind != DataIn && sizes.kind != DataOut && sizes.kind != ControlInit && sizes.kind != Unknown
    requires TraceOf(walked, sizes, payloadSize, ok, curOffset, trace)
    ensures var e := Encodings(trace);
            && |e| <= |walked| && (ok ==> |e| == |walked|)
            && (e != [] ==> e[0].section == 0 && e[0].offset == 0)
            && (forall i :: 0 <= i < |e| ==> e[i].kernel == walked[i].id)
            && (forall i, j :: 0 <= i && j == i + 1 && j < |e| ==>
                  && sizes.answers(i).current.Some?
                  && RightBehind(e[i], e[j], sizes.needs[walked[i].id].On(sizes.kind), sizes.answers(i).current.value.On(sizes.kind).size))
  {
    TraceOfEncodes(walked, sizes, payloadSize, ok, curOffset, trace);
    var e := Encodings(trace);
    forall i, j | 0 <= i && j == i + 1 && j < |e|
      ensures sizes.answers(i).current.Some?
      ensures RightBehind(e[i], e[j], sizes.needs[walked[i].id].On(sizes.kind), sizes.answers(i).current.value.On(sizes.kind).size)
    {
      NextIsRightBehind(walked, sizes, e, i, j);
    }
  }

  /** Where the encoding ends: behind the last kernel's sections and bytes. */
  lemma {:induction false} EncodedToTheEnd(walked: seq<KernelInfo>, sizes: Sizes, payloadSize: nat, curOffset: nat, trace: seq<Op>)
    requires sizes.Valid() && Encodable(walked) && walked != []
    requires sizes.kind != DataIn && sizes.kind != DataOut && sizes.kind != ControlInit && sizes.kind != Unknown
    requires TraceOf(walked, sizes, payloadSize, true, curOffset, trace)
    ensures |Encodings(trace)| == |walked|
    ensures var i := |walked| - 1;
            var last, saved := Encodings(trace)[i], sizes.needs[walked[i].id].On(sizes.kind);
            && sizes.answers(i).current.Some?
            && var asked := sizes.answers(i).current.value.On(sizes.kind).size;
               && curOffset == last.offset + (if saved.size < asked then asked else saved.size) <= payloadSize
               && SectionOf(walked, sizes, |walked|) == last.section + saved.sections
  {
    TraceOfEncodes(walked, sizes, payloadSize, true, curOffset, trace);
    assert Passes(walked, sizes, payloadSize, |walked| - 1);
  }

  /** Encoding succeeds exactly if P2P answers for every entry and encodes it, unless there is nothing to encode, on a terminal
      of a known kind, and the layout ends within the payload. */
  lemma {:induction false} SucceedsIff(walked: seq<KernelInfo>, sizes: Sizes, payloadSize: nat)
    requires sizes.Valid() && Encodable(walked)
    ensures AllPass(walked, sizes, payloadSize, |walked|) <==>
            && (walked != [] ==> sizes.kind != Unknown && OffsetOf(walked, sizes, |walked|) <= payloadSize)
            && forall i :: 0 <= i < |walked| ==>
                 && sizes.answers(i).current.Some?
                 && (sizes.answers(i).encoded || sizes.kind == DataIn || sizes.kind == DataOut)
  {
    AllFitIff(walked, sizes, payloadSize);
    if AllPass(walked, sizes, payloadSize, |walked|) {
      forall i | 0 <= i < |walked|
        ensures Fits(walked, sizes, payloadSize, i)
        ensures sizes.answers(i).current.Some? && (sizes.answers(i).encoded || sizes.kind.DataIn? || sizes.kind.DataOut?)
      {
        assert Passes(walked, sizes, payloadSize, i);
      }
      assert walked != [] ==> Passes(walked, sizes, payloadSize, 0);
    }
  }

  // ------------------------------------------------------- clearing comes first

  /** Each entry that is to be cleared is cleared right before it is encoded. */
  ghost predicate ClearedFirst(walked: seq<KernelInfo>, ops: seq<Op>, op: Op, i: nat)
    requires i < |walked| && op.Encode?
  {
    exists p :: 0 <= p < |ops| && ops[p] == op &&
                (walked[i].initialize ==> 0 < p && ops[p - 1] == Clear(op.offset, walked[i].size))
  }

  lemma {:induction false} StillClearedFirst(walked: seq<KernelInfo>, ops: seq<Op>, more: seq<Op>, op: Op, i: nat)
    requires i < |walked| && op.Encode? && ClearedFirst(walked, ops, op, i)
    ensures ClearedFirst(walked, ops + more, op, i)
  {
    var p :| 0 <= p < |ops| && ops[p] == op && (walked[i].initialize ==> 0 < p && ops[p - 1] == Clear(op.offset, walked[i].size));
    var all := ops + more;
    assert all[p] == op && (0 < p ==> all[p - 1] == ops[p - 1]);
  }

  lemma {:induction false} EntryClearedFirst(walked: seq<KernelInfo>, sizes: Sizes, ops: seq<Op>, i: nat)
    requires i < |walked| && sizes.Valid() && Encodable(walked) && (sizes.kind.Ordered() || sizes.kind.Spatial())
    ensures ClearedFirst(walked, ops + Clears(walked, sizes, i) + Encodes(walked, sizes, i), EncodingAt(walked, sizes, i), i)
  {
    var cleared := ops + Clears(walked, sizes, i);
    var all := cleared + Encodes(walked, sizes, i);
    assert all[|cleared|] == EncodingAt(walked, sizes, i);
    if walked[i].initialize {
      assert all[|cleared| - 1] == cleared[|cleared| - 1] == Clear(OffsetOf(walked, sizes, i), walked[i].size);
    }
  }

  lemma {:induction false} TraceClearsFirst(walked: seq<KernelInfo>, sizes: Sizes, n: nat, i: nat)
    requires i < n <= |walked| && sizes.Valid() && Encodable(walked) && (sizes.kind.Ordered() || sizes.kind.Spatial())
    ensures ClearedFirst(walked, Trace(walked, sizes, n), EncodingAt(walked, sizes, i), i)
    decreases n
  {
    var before := Trace(walked, sizes, n - 1);
    if i == n - 1 {
      EntryClearedFirst(walked, sizes, before, i);
    } else {
      TraceClearsFirst(walked, sizes, n - 1, i);
      StillClearedFirst(walked, before, Clears(walked, sizes, n - 1) + Encodes(walked, sizes, n - 1), EncodingAt(walked, sizes, i), i);
      assert before + (Clears(walked, sizes, n - 1) + Encodes(walked, sizes, n - 1)) == Trace(walked, sizes, n);
    }
  }

  lemma {:induction false} PassedClearsFirst(walked: seq<KernelInfo>, sizes: Sizes, payloadSize: nat, n: nat, i: nat)
    requires i < n < |walked| && sizes.Valid() && Encodable(walked) && (sizes.kind.Ordered() || sizes.kind.Spatial())
    ensures ClearedFirst(walked, StoppedAt(walked, sizes, payloadSize, n), EncodingAt(walked, sizes, i), i)
  {
    var before, clears := Trace(walked, sizes, n), Clears(walked, sizes, n);
    var last := if Fits(walked, sizes, payloadSize, n) && !sizes.kind.Unknown? then Encodes(walked, sizes, n) else [];
    TraceClearsFirst(walked, sizes, n, i);
    StillClearedFirst(walked, before, clears + last, EncodingAt(walked, sizes, i), i);
    assert before + (clears + last) == StoppedAt(walked, sizes, payloadSize, n);
  }

  lemma {:induction false} FailedClearsFirst(walked: seq<KernelInfo>, sizes: Sizes, payloadSize: nat, n: nat)
    requires n < |walked| && sizes.Valid() && Encodable(walked) && (sizes.kind.Ordered() || sizes.kind.Spatial())
    requires n < |Encodings(StoppedAt(walked, sizes, payloadSize, n))|
    ensures ClearedFirst(walked, StoppedAt(walked, sizes, payloadSize, n), EncodingAt(walked, sizes, n), n)
  {
    var before, clears := Trace(walked, sizes, n), Clears(walked, sizes, n);
    TraceEncodes(walked, sizes, n);
    EntryAdds(walked, sizes, n, before);
    assert before + clears + [] == before + clears;
    EntryClearedFirst(walked, sizes, before, n);
  }

  lemma {:induction false} StoppedClearsFirst(walked: seq<KernelInfo>, sizes: Sizes, payloadSize: nat, n: nat, i: nat)
    requires n < |walked| && sizes.Valid() && Encodable(walked) && (sizes.kind.Ordered() || sizes.kind.Spatial())
    requires i <= n && i < |Encodings(StoppedAt(walked, sizes, payloadSize, n))|
    ensures ClearedFirst(walked, StoppedAt(walked, sizes, payloadSize, n), EncodingAt(walked, sizes, i), i)
  {
    if i < n {
      PassedClearsFirst(walked, sizes, payloadSize, n, i);
    } else {
      FailedClearsFirst(walked, sizes, payloadSize, n);
    }
  }

  /** Over any trace, what is encoded was cleared just before if it was to be: from its first byte on, as many bytes as the
      manifest says. */
  lemma {:induction false} ClearsComeFirst(walked: seq<KernelInfo>, sizes: Sizes, payloadSize: nat, ok: bool, curOffset: nat, trace: seq<Op>, i: nat)
    requires sizes.Valid() && Encodable(walked)
    requires sizes.kind != DataIn && sizes.kind != DataOut && sizes.kind != ControlInit && sizes.kind != Unknown
    requires TraceOf(walked, sizes, payloadSize, ok, curOffset, trace) && i < |Encodings(trace)|
    ensures i < |walked| && walked[i].initialize ==>
              exists p :: 0 < p < |trace| && trace[p] == Encodings(trace)[i] && trace[p - 1] == Clear(trace[p].offset, walked[i].size)
  {
    TraceOfEncodes(walked, sizes, payloadSize, ok, curOffset, trace);
    if ok {
      TraceClearsFirst(walked, sizes, |walked|, i);
    } else {
      var n :| 0 <= n < |walked| && FailsAt(walked, sizes, payloadSize, n) && trace == StoppedAt(walked, sizes, payloadSize, n);
      StoppedEncodes(walked, sizes, payloadSize, n);
      StoppedClearsFirst(walked, sizes, payloadSize, n, i);
    }
    assert ClearedFirst(walked, trace, Encodings(trace)[i], i);
  }
}
