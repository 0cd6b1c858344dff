/** Visiting the kernels one after the other keeps the books of every terminal. */
module PgAccounts {
  import opened Basics
  import opened KernelOrders
  import opened PgRequirements

  /** `t` lists what was planned; only the marks for clearing may differ. */
  ghost predicate Matches(planned: Terminal, t: Terminal) {
    && t.kind == planned.kind
    && (t.order.Some? <==> planned.order.Some?)
    && (t.order.Some? ==>
          && |t.order.value| == |planned.order.value|
          && forall j :: 0 <= j < |t.order.value| ==>
               t.order.value[j] == planned.order.value[j].(initialize := t.order.value[j].initialize))
  }

  /** Kernel `k` is laid out in fewer or more sections than P2P expects. */
  predicate Overridden(plan: seq<Terminal>, t: nat, k: nat, a: Requirement)
    requires t < |plan|
  {
    Counts(plan, t, k, a) && Counted(plan, t, k, a).sections != Found(plan, t, k, a).sections
  }

  /** Exactly the first entries of overridden kernels are marked for clearing. */
  ghost predicate Marked(plan: seq<Terminal>, p2p: seq<Option<Requirement>>, kernels: set<nat>, t: nat, term: Terminal)
    requires t < |plan| && Answered(p2p, kernels) && Matches(plan[t], term)
  {
    term.order.Some? ==>
      var order := plan[t].order.value;
      forall j :: 0 <= j < |order| ==>
        (term.order.value[j].initialize <==>
           order[j].initialize ||
           (var k := order[j].id; k in kernels && Overridden(plan, t, k, p2p[k].value) && j == First(order, k)))
  }

  /** The amounts of a terminal that lists `listed`, with the counted kernels' sizes and sections. */
  ghost predicate Amounts(planned: Terminal, listed: seq<KernelInfo>, sizes: map<nat, nat>, sections: map<nat, nat>, term: Terminal) {
    && term.bitmap == planned.bitmap + sizes.Keys
    && term.payloadSize == ToUint32(planned.payloadSize + Sum(listed, sizes, |listed|))
    && term.sectionCount == ToUint32(planned.sectionCount + Sum(listed, sections, |listed|))
  }

  /** The books of terminal `t` after `kernels` were visited. */
  ghost predicate Booked(plan: seq<Terminal>, p2p: seq<Option<Requirement>>, kernels: set<nat>, t: nat, term: Terminal)
    requires t < |plan| && plan[t].Valid() && Answered(p2p, kernels)
  {
    && Matches(plan[t], term)
    && Marked(plan, p2p, kernels, t, term)
    && Amounts(plan[t], plan[t].Listed(), Ledger(plan, p2p, kernels, t), SectionLedger(plan, p2p, kernels, t), term)
  }

  lemma {:induction false} NothingBooked(plan: seq<Terminal>, p2p: seq<Option<Requirement>>, t: nat)
    requires t < |plan| && plan[t].Valid()
    ensures Booked(plan, p2p, {}, t, plan[t])
  {
    var listed := plan[t].Listed();
    assert Ledger(plan, p2p, {}, t) == map[] && SectionLedger(plan, p2p, {}, t) == map[];
    SumOfNothing(listed, |listed|);
  }

  /** Adding two amounts one by one wraps around like adding their sum. */
  lemma {:induction false} AddWrapped(x: nat, y: nat)
    ensures ToUint32(ToUint32(x) + y) == ToUint32(x + y)
  {
    var q := x / TWO_TO_THE_32;
    assert x == q * TWO_TO_THE_32 + ToUint32(x);
    WholeTurns(ToUint32(x) + y, q);
  }

  lemma {:induction false} AddTo(was: Uint32, start: nat, sum: nat, extra: nat, total: nat)
    requires was == ToUint32(start + sum) && total == sum + extra
    ensures ToUint32(was + extra) == ToUint32(start + total)
  {
    AddWrapped(start + sum, extra);
    assert start + sum + extra == start + total;
  }

  lemma {:induction false} WholeTurns(x: nat, q: nat)
    ensures ToUint32(x + q * TWO_TO_THE_32) == ToUint32(x)
  {
  }

  lemma {:induction false} LedgerGrows(plan: seq<Terminal>, p2p: seq<Option<Requirement>>, kernels: set<nat>, t: nat, k: nat)
    requires t < |plan| && k !in kernels && Answered(p2p, kernels + {k})
    ensures var before, after, a := Ledger(plan, p2p, kernels, t), Ledger(plan, p2p, kernels + {k}, t), p2p[k].value;
            k !in before && after == if Counts(plan, t, k, a) then before[k := Counted(plan, t, k, a).size] else before
  {
  }

  lemma {:induction false} SectionLedgerGrows(plan: seq<Terminal>, p2p: seq<Option<Requirement>>, kernels: set<nat>, t: nat, k: nat)
    requires t < |plan| && k !in kernels && Answered(p2p, kernels + {k})
    ensures var before, after, a := SectionLedger(plan, p2p, kernels, t), SectionLedger(plan, p2p, kernels + {k}, t), p2p[k].value;
            k !in before && after == if Counts(plan, t, k, a) then before[k := Counted(plan, t, k, a).sections] else before
  {
  }

  lemma {:induction false} CountsListed(plan: seq<Terminal>, t: nat, k: nat, a: Requirement)
    requires t < |plan| && plan[t].Valid() && Counts(plan, t, k, a)
    ensures CountOf(plan[t], k) == Occurrences(plan[t].Listed(), k, |plan[t].Listed()|)
  {
    if plan[t].order.None? {
      assert plan[t].kind.Spatial();
      OneKernel(k);
      var one := [KernelInfo(k, 0, 0, false)];
      assert plan[t].Listed() == one;
      assert Occurrences(one, k, 1) == 1;
    }
  }

  lemma {:induction false} OneKernel(k: nat)
    requires k < MAX_KERNELS
    ensures Ascending({k}) == [KernelInfo(k, 0, 0, false)]
  {
    assert k in {k};
    assert {k} - {k} == {};
    assert Ascending({}) == [];
  }

  /** Marking touches nothing but the mark. */
  lemma {:induction false} MarkMatches(planned: Terminal, was: Terminal, k: nat)
    requires Matches(planned, was)
    ensures Matches(planned, Mark(was, k))
    ensures Mark(was, k) == was.(order := Mark(was, k).order)
    ensures was.order.Some? ==>
              var order, marked := planned.order.value, Mark(was, k).order.value;
              forall j :: 0 <= j < |order| ==>
                (marked[j].initialize <==> was.order.value[j].initialize || j == First(order, k))
  {
    if was.order.Some? {
      SameFirst(planned.order.value, was.order.value, k, 0);
    }
  }

  lemma {:induction false} SameFirst(a: seq<KernelInfo>, b: seq<KernelInfo>, k: nat, from: nat)
    requires |a| == |b| && from <= |a|
    requires forall j :: 0 <= j < |a| ==> a[j].id == b[j].id
    ensures FirstFrom(a, k, from) == FirstFrom(b, k, from)
    decreases |a| - from
  {
    if from < |a| {
      SameFirst(a, b, k, from + 1);
    }
  }

  lemma {:induction false} TouchMarks(plan: seq<Terminal>, p2p: seq<Option<Requirement>>, kernels: set<nat>, t: nat, was: Terminal, k: nat)
    requires t < |plan| && k !in kernels && Answered(p2p, kernels + {k})
    requires Matches(plan[t], was) && Marked(plan, p2p, kernels, t, was)
    ensures var after := Touch(plan, was, t, k, p2p[k].value);
            Matches(plan[t], after) && Marked(plan, p2p, kernels + {k}, t, after)
  {
    var a := p2p[k].value;
    MarkMatches(plan[t], was, k);
    var after := Touch(plan, was, t, k, a);
    assert after.order == (if Overridden(plan, t, k, a) then Mark(was, k).order else was.order);
    if plan[t].order.Some? {
      var order := plan[t].order.value;
      forall j | 0 <= j < |order|
        ensures after.order.value[j].initialize <==>
                  order[j].initialize ||
                  (var i := order[j].id; i in kernels + {k} && Overridden(plan, t, i, p2p[i].value) && j == First(order, i))
      {
        assert j == First(order, k) ==> order[j].id == k;
      }
    }
  }

  /** A new entry of the ledger that occurs `count` times adds `extra` to the sum. */
  lemma {:induction false} SumGrowsBy(listed: seq<KernelInfo>, ledger: map<nat, nat>, k: nat, amount: nat, count: nat, extra: nat)
    requires k !in ledger && count == Occurrences(listed, k, |listed|) && extra == count * amount
    ensures Sum(listed, ledger[k := amount], |listed|) == Sum(listed, ledger, |listed|) + extra
  {
    SumWithOneMore(listed, ledger, k, amount, |listed|);
  }

  /** Counting `count` occurrences of a kernel keeps an amount equal to the sum over the entries. */
  lemma {:induction false} TouchCounts(was: Uint32, planned: Uint32, listed: seq<KernelInfo>, ledger: map<nat, nat>, k: nat, amount: nat, count: nat, extra: nat)
    requires k !in ledger && was == ToUint32(planned + Sum(listed, ledger, |listed|))
    requires count == Occurrences(listed, k, |listed|) && extra == count * amount
    ensures ToUint32(was + extra) == ToUint32(planned + Sum(listed, ledger[k := amount], |listed|))
  {
    var sum, total := Sum(listed, ledger, |listed|), Sum(listed, ledger[k := amount], |listed|);
    assert total == sum + extra by {
      SumGrowsBy(listed, ledger, k, amount, count, extra);
    }
    AddTo(was, planned, sum, extra, total);
  }

  lemma {:induction false} SizeCounted(planned: Terminal, listed: seq<KernelInfo>, sizes: map<nat, nat>, was: Terminal, k: nat, need: Need, count: nat)
    requires k !in sizes && count == Occurrences(listed, k, |listed|)
    requires was.payloadSize == ToUint32(planned.payloadSize + Sum(listed, sizes, |listed|))
    ensures CountIn(was, k, count, need).payloadSize ==
            ToUint32(planned.payloadSize + Sum(listed, sizes[k := need.size], |listed|))
  {
    TouchCounts(was.payloadSize, planned.payloadSize, listed, sizes, k, need.size, count, count * need.size);
  }

  lemma {:induction false} SectionsCounted(planned: Terminal, listed: seq<KernelInfo>, sections: map<nat, nat>, was: Terminal, k: nat, need: Need, count: nat)
    requires k !in sections && count == Occurrences(listed, k, |listed|)
    requires was.sectionCount == ToUint32(planned.sectionCount + Sum(listed, sections, |listed|))
    ensures CountIn(was, k, count, need).sectionCount ==
            ToUint32(planned.sectionCount + Sum(listed, sections[k := need.sections], |listed|))
  {
    TouchCounts(was.sectionCount, planned.sectionCount, listed, sections, k, need.sections, count, count * need.sections);
  }

  lemma {:induction false} CountedAmounts(planned: Terminal, listed: seq<KernelInfo>, sizes: map<nat, nat>, sections: map<nat, nat>,
                                          was: Terminal, after: Terminal, k: nat, need: Need, count: nat)
    requires k !in sizes && k !in sections && Amounts(planned, listed, sizes, sections, was)
    requires count == Occurrences(listed, k, |listed|)
    requires after == CountIn(was.(order := after.order), k, count, need)
    ensures Amounts(planned, listed, sizes[k := need.size], sections[k := need.sections], after)
  {
    var marked := was.(order := after.order);
    SizeCounted(planned, listed, sizes, marked, k, need, count);
    SectionsCounted(planned, listed, sections, marked, k, need, count);
    assert sizes[k := need.size].Keys == sizes.Keys + {k};
  }

  lemma {:induction false} TouchIsCount(plan: seq<Terminal>, was: Terminal, t: nat, k: nat, a: Requirement)
    requires t < |plan| && Counts(plan, t, k, a)
    ensures var after := Touch(plan, was, t, k, a);
            after == CountIn(was.(order := after.order), k, CountOf(plan[t], k), Counted(plan, t, k, a))
  {
  }

  /** Visiting one more kernel keeps the books. */
  lemma {:induction false} TouchBooks(plan: seq<Terminal>, p2p: seq<Option<Requirement>>, kernels: set<nat>, t: nat, was: Terminal, k: nat)
    requires t < |plan| && plan[t].Valid() && k !in kernels && Answered(p2p, kernels + {k})
    requires Booked(plan, p2p, kernels, t, was)
    ensures Booked(plan, p2p, kernels + {k}, t, Touch(plan, was, t, k, p2p[k].value))
  {
    var a := p2p[k].value;
    var listed, sizes, sections := plan[t].Listed(), Ledger(plan, p2p, kernels, t), SectionLedger(plan, p2p, kernels, t);
    var after := Touch(plan, was, t, k, a);
    TouchMarks(plan, p2p, kernels, t, was, k);
    LedgerGrows(plan, p2p, kernels, t, k);
    SectionLedgerGrows(plan, p2p, kernels, t, k);
    assert Amounts(plan[t], listed, Ledger(plan, p2p, kernels + {k}, t), SectionLedger(plan, p2p, kernels + {k}, t), after) by {
      if Counts(plan, t, k, a) {
        CountsListed(plan, t, k, a);
        TouchIsCount(plan, was, t, k, a);
        CountedAmounts(plan[t], listed, sizes, sections, was, after, k, Counted(plan, t, k, a), CountOf(plan[t], k));
      }
    }
  }
}
