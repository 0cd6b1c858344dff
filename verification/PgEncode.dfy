/** How a terminal's kernels are laid out in its payload buffer. */
module PgEncode {
  import opened Basics
  import opened KernelOrders
  import opened PgRequirements
  import opened PgAccounts

  /** What P2P answers when an entry is encoded: its kernel's needs, if it can tell, and whether encoding
      succeeds. */
  datatype Answer = Answer(current: Option<Requirement>, encoded: bool)

  /** What happens to the payload: `size` bytes at `offset` are cleared, or kernel `kernel` is encoded from
      section `section` and byte `offset` on. */
  datatype Op = Clear(offset: nat, size: nat) | Encode(kernel: nat, section: nat, offset: nat)

  /** The first entry at or after `from` that is of no kernel. */
  function Stop(order: seq<KernelInfo>, from: nat): (r: nat)
    requires from <= |order|
    ensures from <= r <= |order| && (r < |order| ==> order[r].id >= MAX_KERNELS)
    ensures forall i :: from <= i < r ==> order[i].id < MAX_KERNELS
    decreases |order| - from
  {
    if from == |order| || order[from].id >= MAX_KERNELS then from else Stop(order, from + 1)
  }

  /** The entries that are encoded, in turn. */
  ghost function Walked(t: Terminal): (r: seq<KernelInfo>)
    requires t.Valid()
    ensures forall i :: 0 <= i < |r| ==> r[i].id < MAX_KERNELS
  {
    if t.bitmap == {} then []
    else if t.order.Some? then t.order.value[..Stop(t.order.value, 0)]
    else Ascending(t.bitmap)
  }

  /** What the walk meets: an entry, its end, or what lies behind the order. */
  datatype Next = Kernel(entry: KernelInfo) | End | PastEnd

  /** Whether the walk runs on past the end of the order: every entry is of a kernel. */
  ghost predicate RunsOut(t: Terminal) {
    t.order.Some? && t.bitmap != {} && Stop(t.order.value, 0) == |t.order.value|
  }

  /** The sizes saved for the kernels and the answers given one after the other, entry by entry: a kernel that has
      two entries is asked about twice. */
  datatype Sizes = Sizes(kind: Kind, needs: seq<Requirement>, answers: nat -> Answer)
  {
    predicate Valid() { |needs| == MAX_KERNELS }

    function Saved(k: nat): Need
      requires Valid() && k < MAX_KERNELS
    {
      needs[k].On(kind)
    }

    /** The bytes laid out for kernel `k` as the `i`-th entry: never fewer than saved. */
    function Next(k: nat, i: nat): Uint32
      requires Valid() && k < MAX_KERNELS
    {
      if answers(i).current.None? then Saved(k).size else Max(Saved(k).size, answers(i).current.value.On(kind).size)
    }

    /** Whether P2P, asked again about the entries to encode, reports at most what was saved. */
    ghost predicate NoneGrew(walked: seq<KernelInfo>) {
      && Valid() && Encodable(walked)
      && forall i :: 0 <= i < |walked| ==>
           var answer := answers(i).current;
           answer.Some? && answer.value.On(kind).size <= Saved(walked[i].id).size
    }
  }

  ghost predicate Encodable(walked: seq<KernelInfo>) {
    forall i :: 0 <= i < |walked| ==> walked[i].id < MAX_KERNELS
  }

  /** Where the `n`-th entry starts, in bytes and in sections. */
  function OffsetOf(walked: seq<KernelInfo>, sizes: Sizes, n: nat): nat
    requires n <= |walked| && sizes.Valid() && Encodable(walked)
  {
    if n == 0 then 0 else OffsetOf(walked, sizes, n - 1) + sizes.Next(walked[n - 1].id, n - 1)
  }

  function SectionOf(walked: seq<KernelInfo>, sizes: Sizes, n: nat): nat
    requires n <= |walked| && sizes.Valid() && Encodable(walked)
  {
    if n == 0 then 0 else SectionOf(walked, sizes, n - 1) + sizes.Saved(walked[n - 1].id).sections
  }

  /** Whether the `i`-th entry passes the size check and is encoded. */
  predicate Fits(walked: seq<KernelInfo>, sizes: Sizes, payloadSize: nat, i: nat)
    requires i < |walked| && sizes.Valid() && Encodable(walked)
  {
    sizes.answers(i).current.Some? && OffsetOf(walked, sizes, i + 1) <= payloadSize
  }

  predicate Passes(walked: seq<KernelInfo>, sizes: Sizes, payloadSize: nat, i: nat)
    requires i < |walked| && sizes.Valid() && Encodable(walked)
  {
    && !sizes.kind.Unknown?
    && Fits(walked, sizes, payloadSize, i)
    && (sizes.answers(i).encoded || sizes.kind.DataIn? || sizes.kind.DataOut?)
  }

  function Clears(walked: seq<KernelInfo>, sizes: Sizes, i: nat): seq<Op>
    requires i < |walked| && sizes.Valid() && Encodable(walked)
  {
    if walked[i].initialize then [Clear(OffsetOf(walked, sizes, i), walked[i].size)] else []
  }

  function Encodes(walked: seq<KernelInfo>, sizes: Sizes, i: nat): seq<Op>
    requires i < |walked| && sizes.Valid() && Encodable(walked)
  {
    if sizes.kind.Ordered() || sizes.kind.Spatial() then
      [Encode(walked[i].id, SectionOf(walked, sizes, i), OffsetOf(walked, sizes, i))]
    else
      []
  }

  /** Everything done for the first `n` entries. */
  function Trace(walked: seq<KernelInfo>, sizes: Sizes, n: nat): seq<Op>
    requires n <= |walked| && sizes.Valid() && Encodable(walked)
  {
    if n == 0 then [] else Trace(walked, sizes, n - 1) + Clears(walked, sizes, n - 1) + Encodes(walked, sizes, n - 1)
  }

  /** The `n`-th entry is the first that does not pass. */
  ghost predicate FailsAt(walked: seq<KernelInfo>, sizes: Sizes, payloadSize: nat, n: nat)
    requires n < |walked| && sizes.Valid() && Encodable(walked)
  {
    !Passes(walked, sizes, payloadSize, n) && forall i :: 0 <= i < n ==> Passes(walked, sizes, payloadSize, i)
  }

  /** Everything done when the `n`-th entry is the first not to pass. */
  function StoppedAt(walked: seq<KernelInfo>, sizes: Sizes, payloadSize: nat, n: nat): seq<Op>
    requires n < |walked| && sizes.Valid() && Encodable(walked)
  {
    Trace(walked, sizes, n) + Clears(walked, sizes, n) +
    if Fits(walked, sizes, payloadSize, n) && !sizes.kind.Unknown? then Encodes(walked, sizes, n) else []
  }

  /** What is left to encode after `n` entries. */
  ghost predicate At(term: Terminal, bitmap: set<nat>, kernelIndex: nat, n: nat)
    requires term.Valid()
  {
    && n <= |Walked(term)| && bitmap <= term.bitmap
    && if term.order.Some? then bitmap == term.bitmap && n == kernelIndex else Walked(term)[n..] == Ascending(bitmap)
  }

  lemma {:induction false} NothingLeft(term: Terminal, kernelIndex: nat, n: nat)
    requires term.Valid() && At(term, {}, kernelIndex, n)
    ensures n == |Walked(term)| && !RunsOut(term)
  {
  }

  /** The kernels left after `entry`; an order does not use up the bitmap. */
  function After(term: Terminal, bitmap: set<nat>, entry: KernelInfo): set<nat> {
    if term.order.Some? then bitmap else bitmap - {entry.id}
  }

  ghost predicate EncodedTo(walked: seq<KernelInfo>, sizes: Sizes, payloadSize: nat, n: nat, curOffset: nat, curSection: nat, trace: seq<Op>)
    requires sizes.Valid() && Encodable(walked)
  {
    && n <= |walked| && curOffset == OffsetOf(walked, sizes, n) && curSection == SectionOf(walked, sizes, n)
    && trace == Trace(walked, sizes, n)
    && AllPass(walked, sizes, payloadSize, n)
  }

  ghost predicate AllPass(walked: seq<KernelInfo>, sizes: Sizes, payloadSize: nat, n: nat)
    requires n <= |walked| && sizes.Valid() && Encodable(walked)
  {
    forall i :: 0 <= i < n ==> Passes(walked, sizes, payloadSize, i)
  }

  lemma {:induction false} EncodedOneMore(walked: seq<KernelInfo>, sizes: Sizes, payloadSize: nat, n: nat)
    requires n < |walked| && sizes.Valid() && Encodable(walked)
    requires AllPass(walked, sizes, payloadSize, n) && Passes(walked, sizes, payloadSize, n)
    ensures AllPass(walked, sizes, payloadSize, n + 1)
  {
  }

  lemma {:induction false} AscendingStep(bitmap: set<nat>, k: nat)
    requires forall i :: i in bitmap ==> i < MAX_KERNELS
    requires k in bitmap && forall i :: i in bitmap ==> k <= i
    ensures Ascending(bitmap) == [KernelInfo(k, 0, 0, false)] + Ascending(bitmap - {k})
  {
    assert Smallest(bitmap) == k;
  }

  // ----------------------------------------------------------------- layout

  /** Each entry's range ends where the next begins, so ranges of different entries are disjoint. */
  lemma {:induction false} RangesInOrder(walked: seq<KernelInfo>, sizes: Sizes, i: nat, j: nat)
    requires i < j <= |walked| && sizes.Valid() && Encodable(walked)
    ensures OffsetOf(walked, sizes, i) + sizes.Next(walked[i].id, i) <= OffsetOf(walked, sizes, j)
    decreases j - i
  {
    if i + 1 < j {
      RangesInOrder(walked, sizes, i + 1, j);
    }
  }

  ghost predicate AllFit(walked: seq<KernelInfo>, sizes: Sizes, payloadSize: nat)
    requires sizes.Valid() && Encodable(walked)
  {
    forall i :: 0 <= i < |walked| ==> Fits(walked, sizes, payloadSize, i)
  }

  /** Every size check passes exactly if P2P answers for each entry and the layout ends within the payload. */
  lemma {:induction false} AllFitIff(walked: seq<KernelInfo>, sizes: Sizes, payloadSize: nat)
    requires sizes.Valid() && Encodable(walked)
    ensures AllFit(walked, sizes, payloadSize) <==>
            && (forall i :: 0 <= i < |walked| ==> sizes.answers(i).current.Some?)
            && OffsetOf(walked, sizes, |walked|) <= payloadSize
  {
    forall i | 0 <= i < |walked| && OffsetOf(walked, sizes, |walked|) <= payloadSize
      ensures sizes.answers(i).current.Some? ==> Fits(walked, sizes, payloadSize, i)
    {
      if i + 1 < |walked| {
        RangesInOrder(walked, sizes, i + 1, |walked|);
      }
    }
    forall i | 0 <= i < |walked| && AllFit(walked, sizes, payloadSize)
      ensures sizes.answers(i).current.Some?
    {
      assert Fits(walked, sizes, payloadSize, i);
    }
    if walked != [] && AllFit(walked, sizes, payloadSize) {
      assert Fits(walked, sizes, payloadSize, |walked| - 1);
    }
  }

  /** What `encodeTerminal` does: all entries, or those before the first that does not pass. */
  ghost predicate TraceOf(walked: seq<KernelInfo>, sizes: Sizes, payloadSize: nat, ok: bool, curOffset: nat, trace: seq<Op>)
    requires sizes.Valid() && Encodable(walked)
  {
    && (ok <==> AllPass(walked, sizes, payloadSize, |walked|))
    && (ok ==> curOffset == OffsetOf(walked, sizes, |walked|) && trace == Trace(walked, sizes, |walked|))
    && (!ok ==> exists n :: 0 <= n < |walked| && FailsAt(walked, sizes, payloadSize, n)
                            && trace == StoppedAt(walked, sizes, payloadSize, n))
  }

  lemma {:induction false} AllEncoded(walked: seq<KernelInfo>, sizes: Sizes, payloadSize: nat, curOffset: nat, curSection: nat, trace: seq<Op>)
    requires sizes.Valid() && Encodable(walked)
    requires EncodedTo(walked, sizes, payloadSize, |walked|, curOffset, curSection, trace)
    ensures TraceOf(walked, sizes, payloadSize, true, curOffset, trace)
  {
  }

  lemma {:induction false} EncodingStops(walked: seq<KernelInfo>, sizes: Sizes, payloadSize: nat, n: nat, curOffset: nat, trace: seq<Op>)
    requires n < |walked| && sizes.Valid() && Encodable(walked)
    requires AllPass(walked, sizes, payloadSize, n) && !Passes(walked, sizes, payloadSize, n)
    requires trace == StoppedAt(walked, sizes, payloadSize, n)
    ensures TraceOf(walked, sizes, payloadSize, false, curOffset, trace)
  {
    assert FailsAt(walked, sizes, payloadSize, n);
  }

  // ---------------------------------------------------------------- clearing

  /** Nothing is cleared outside the payload. */
  ghost predicate AllInside(ops: seq<Op>, payloadSize: nat) {
    forall op :: op in ops && op.Clear? ==> op.offset + op.size <= payloadSize
  }

  /** What is cleared for an entry is no more than what is laid out for it. */
  ghost predicate ClearsCovered(walked: seq<KernelInfo>, sizes: Sizes)
    requires sizes.Valid() && Encodable(walked)
  {
    forall i :: 0 <= i < |walked| && walked[i].initialize ==> walked[i].size <= sizes.Next(walked[i].id, i)
  }

  /** Whether what is to be cleared for the `i`-th entry fits behind the offset. */
  predicate ClearFits(walked: seq<KernelInfo>, sizes: Sizes, payloadSize: nat, i: nat)
    requires i < |walked| && sizes.Valid() && Encodable(walked)
  {
    walked[i].initialize ==> OffsetOf(walked, sizes, i) + walked[i].size <= payloadSize
  }

  lemma {:induction false} InsideOfSum(a: seq<Op>, b: seq<Op>, payloadSize: nat)
    ensures AllInside(a + b, payloadSize) <==> AllInside(a, payloadSize) && AllInside(b, payloadSize)
  {
    assert forall op :: op in a + b <==> op in a || op in b;
  }

  lemma {:induction false} PassedClearsInside(walked: seq<KernelInfo>, sizes: Sizes, payloadSize: nat, n: nat)
    requires n <= |walked| && sizes.Valid() && Encodable(walked) && ClearsCovered(walked, sizes)
    requires AllPass(walked, sizes, payloadSize, n)
    ensures AllInside(Trace(walked, sizes, n), payloadSize)
  {
    if n > 0 {
      PassedClearsInside(walked, sizes, payloadSize, n - 1);
      var before, clears, encodes := Trace(walked, sizes, n - 1), Clears(walked, sizes, n - 1), Encodes(walked, sizes, n - 1);
      assert Passes(walked, sizes, payloadSize, n - 1);
      InsideOfSum(before, clears, payloadSize);
      InsideOfSum(before + clears, encodes, payloadSize);
    }
  }

  lemma {:induction false} StoppedClearsInsideIff(walked: seq<KernelInfo>, sizes: Sizes, payloadSize: nat, n: nat)
    requires n < |walked| && sizes.Valid() && Encodable(walked) && ClearsCovered(walked, sizes)
    requires FailsAt(walked, sizes, payloadSize, n)
    ensures AllInside(StoppedAt(walked, sizes, payloadSize, n), payloadSize) <==> ClearFits(walked, sizes, payloadSize, n)
  {
    PassedClearsInside(walked, sizes, payloadSize, n);
    var before, clears := Trace(walked, sizes, n), Clears(walked, sizes, n);
    var last := if Fits(walked, sizes, payloadSize, n) && !sizes.kind.Unknown? then Encodes(walked, sizes, n) else [];
    InsideOfSum(before, clears, payloadSize);
    InsideOfSum(before + clears, last, payloadSize);
    if walked[n].initialize {
      assert Clear(OffsetOf(walked, sizes, n), walked[n].size) in clears;
    }
  }

  /** Everything cleared is inside the payload exactly if, where encoding stops, what is to be cleared for that
      entry fits: it is cleared before its size is checked. */
  lemma {:induction false} ClearsInsideIff(walked: seq<KernelInfo>, sizes: Sizes, payloadSize: nat, ok: bool, curOffset: nat, trace: seq<Op>)
    requires sizes.Valid() && Encodable(walked) && ClearsCovered(walked, sizes)
    requires TraceOf(walked, sizes, payloadSize, ok, curOffset, trace)
    ensures AllInside(trace, payloadSize) <==>
            forall n :: 0 <= n < |walked| && FailsAt(walked, sizes, payloadSize, n) ==> ClearFits(walked, sizes, payloadSize, n)
  {
    if ok {
      PassedClearsInside(walked, sizes, payloadSize, |walked|);
      assert forall n :: 0 <= n < |walked| ==> !FailsAt(walked, sizes, payloadSize, n);
    } else {
      var m :| 0 <= m < |walked| && FailsAt(walked, sizes, payloadSize, m) && trace == StoppedAt(walked, sizes, payloadSize, m);
      StoppedClearsInsideIff(walked, sizes, payloadSize, m);
      assert forall n :: 0 <= n < |walked| && FailsAt(walked, sizes, payloadSize, n) ==> n == m;
    }
  }

  // ------------------------------------------- what prepare guarantees encode

  /** After the last kernel of an order there are no more. */
  ghost predicate Clean(order: seq<KernelInfo>) {
    forall i :: 0 <= i < |order| ==> if i < Stop(order, 0) then !order[i].initialize else order[i].id >= MAX_KERNELS
  }

  /** The sizes saved for the kernels dominate what was counted for them, and the sums compare accordingly. */
  lemma {:induction false} SumsCompare(walked: seq<KernelInfo>, sizes: Sizes, ledger: map<nat, nat>, n: nat)
    requires n <= |walked| && sizes.NoneGrew(walked)
    requires forall k :: k in ledger && k < MAX_KERNELS ==> ledger[k] <= sizes.Saved(k).size
    ensures Sum(walked, ledger, n) <= OffsetOf(walked, sizes, n)
    ensures Sum(walked, ledger, n) == OffsetOf(walked, sizes, n) <==>
            forall i :: 0 <= i < n ==> Entry(ledger, walked[i].id) == sizes.Saved(walked[i].id).size
  {
    if n > 0 {
      SumsCompare(walked, sizes, ledger, n - 1);
      var k := walked[n - 1].id;
      assert Entry(ledger, k) <= sizes.Saved(k).size == sizes.Next(k, n - 1);
    }
  }

  /** Padding that no ledger mentions adds nothing. */
  lemma {:induction false} SumOfPrefix(order: seq<KernelInfo>, ledger: map<nat, nat>, m: nat, n: nat)
    requires m <= n <= |order|
    requires forall i :: m <= i < n ==> order[i].id !in ledger
    ensures Sum(order, ledger, n) == Sum(order[..m], ledger, m)
    decreases n
  {
    if m < n {
      SumOfPrefix(order, ledger, m, n - 1);
    } else if n > 0 {
      assert order[..m][..m - 1] == order[..m - 1];
      SumOfPrefix(order, ledger, m - 1, n - 1);
      SumOfTaken(order[..m], ledger, m - 1);
    }
  }

  lemma {:induction false} SumOfTaken(order: seq<KernelInfo>, ledger: map<nat, nat>, n: nat)
    requires n <= |order|
    ensures Sum(order[..n], ledger, n) == Sum(order, ledger, n)
    decreases n
  {
    if n > 0 {
      assert order[..n][..n - 1] == order[..n - 1];
      SumOfTaken(order, ledger, n - 1);
      SumOfTaken(order[..n], ledger, n - 1);
    }
  }
}
