/** Program groups whose payloads do not suffice. */
module PgOverruns {
  import opened Basics
  import opened KernelOrders
  import opened PgRequirements
  import opened PgAccounts
  import opened PgVisits
  import opened PgEncode
  import opened PgGuarantees

  /** The order of a program terminal with `sections` sections of `size` bytes for kernel 0 alone. */
  function OnlyKernelZero(sections: Uint8, size: Uint32): (order: seq<KernelInfo>)
    ensures |order| == MAX_KERNELS
  {
    [KernelInfo(0, sections, size, false)] + Unused(MAX_KERNELS - 1)
  }

  function ProgramTerminal(sections: Uint8, size: Uint32): Terminal {
    Terminal(Program, Some(OnlyKernelZero(sections, size)), {}, 0, 0)
  }

  /** Two program terminals share a kernel, the second with a larger size and another section count: what was
      counted on the first is less than what is saved, so encoding the first fails although no size grew. */
  lemma {:induction false} SharedKernelDoesNotFit(p2p: seq<Option<Requirement>>, terminals: seq<Terminal>, needed: seq<Requirement>, sizes: Sizes)
    requires |p2p| == MAX_KERNELS && p2p[0] == Some(Requirement(Need(0, 0), Need(0, 0), Need(1, 4), Need(0, 0), Need(0, 0)))
    requires Accounts([ProgramTerminal(1, 4), ProgramTerminal(2, 8)], p2p, {0}, terminals, needed, sizes.needs)
    requires sizes.kind == Program && terminals[0].Valid() && sizes.NoneGrew(Walked(terminals[0]))
    ensures !AllFit(Walked(terminals[0]), sizes, terminals[0].payloadSize)
  {
    var plan, order := [ProgramTerminal(1, 4), ProgramTerminal(2, 8)], OnlyKernelZero(1, 4);
    SharedKernelEnlarged(p2p[0].value);
    StopAt(order, 0, 1);
    assert FreshlyPlanned(plan[0]);
    PreparedFromAccounts(plan, p2p, {0}, terminals, needed, sizes.needs, 0);
    var ledger := Ledger(plan, p2p, {0}, 0);
    assert 0 in ledger.Keys;
    EncodeFitsIff(plan, p2p, {0}, 0, terminals[0], sizes);
    StopSame(order, terminals[0].order.value, 0);
    assert !HasRoom(plan, p2p, {0}, 0, sizes, Walked(terminals[0])[0].id);
  }

  lemma {:induction false} SharedKernelEnlarged(a: Requirement)
    requires a.program == Need(1, 4)
    ensures var plan := [ProgramTerminal(1, 4), ProgramTerminal(2, 8)];
            && Counts(plan, 0, 0, a) && Enlarged(plan, 0, a.program, 1, 2)
            && Settled(plan, 0, a).program == Need(2, 8)
  {
    var plan := [ProgramTerminal(1, 4), ProgramTerminal(2, 8)];
    OnlyKernelZeroLookup(1, 4);
    OnlyKernelZeroLookup(2, 8);
    assert Sweep(plan, 0, Need(1, 4), 1) == Need(1, 4);
    assert Enlarges(plan, 0, a.program, 1);
  }

  // -------------------------------------------------------- clearing outside

  /** The order of kernels 0 and 1 alone. */
  function TwoKernels(first: Listing, second: Listing): (order: seq<KernelInfo>)
    ensures |order| == MAX_KERNELS
  {
    [KernelInfo(0, first.sections, first.size, false), KernelInfo(1, second.sections, second.size, false)] + Unused(MAX_KERNELS - 2)
  }

  datatype Listing = Listing(sections: Uint8, size: Uint32)

  lemma {:induction false} TwoKernelsLookup(order: seq<KernelInfo>, first: Listing, second: Listing)
    requires order == TwoKernels(first, second)
    ensures First(order, 0) == 0 && First(order, 1) == 1 && Stop(order, 0) == 2 && Clean(order)
    ensures order[0] == KernelInfo(0, first.sections, first.size, false)
    ensures order[1] == KernelInfo(1, second.sections, second.size, false)
  {
    assert FirstFrom(order, 1, 0) == FirstFrom(order, 1, 1);
    StopAt(order, 0, 2);
  }

  lemma {:induction false} TwoKernelsSum(order: seq<KernelInfo>, first: Listing, second: Listing, ledger: map<nat, nat>)
    requires order == TwoKernels(first, second) && forall k :: k in ledger ==> k < 2
    ensures Sum(order, ledger, |order|) == Entry(ledger, 0) + Entry(ledger, 1)
  {
    TwoKernelsLookup(order, first, second);
    SumOfPrefix(order, ledger, 2, |order|);
    var two := order[..2];
    assert Sum(two, ledger, 1) == Entry(ledger, 0);
    assert Sum(two, ledger, 2) == Sum(two, ledger, 1) + Entry(ledger, 1);
  }

  /** What is walked of such an order once its second kernel is marked for clearing. */
  lemma {:induction false} TwoKernelsWalked(planned: Terminal, term: Terminal, first: Listing, second: Listing)
    requires planned.order == Some(TwoKernels(first, second)) && term.Valid() && Matches(planned, term) && term.bitmap != {}
    ensures |Walked(term)| == 2
    ensures Walked(term)[0] == KernelInfo(0, first.sections, first.size, term.order.value[0].initialize)
    ensures Walked(term)[1] == KernelInfo(1, second.sections, second.size, term.order.value[1].initialize)
  {
    TwoKernelsLookup(planned.order.value, first, second);
    StopSame(planned.order.value, term.order.value, 0);
  }

  /** The second kernel is cleared behind the first one's range before its own size is checked. */
  lemma {:induction false} ClearsBehind(walked: seq<KernelInfo>, sizes: Sizes, payloadSize: nat)
    requires |walked| == 2 && sizes.Valid() && Encodable(walked) && (sizes.kind == CachedIn || sizes.kind == Program)
    requires sizes.answers(0).current.Some? && sizes.answers(0).encoded
    requires walked[1].initialize && walked[1].size <= sizes.Next(walked[1].id, 1)
    requires sizes.Next(walked[0].id, 0) <= payloadSize < sizes.Next(walked[0].id, 0) + walked[1].size
    ensures FailsAt(walked, sizes, payloadSize, 1)
    ensures Clear(sizes.Next(walked[0].id, 0), walked[1].size) in StoppedAt(walked, sizes, payloadSize, 1)
    ensures !AllInside(StoppedAt(walked, sizes, payloadSize, 1), payloadSize)
  {
    var next := sizes.Next(walked[0].id, 0);
    assert OffsetOf(walked, sizes, 0) == 0 && OffsetOf(walked, sizes, 1) == next;
    assert OffsetOf(walked, sizes, 2) == next + sizes.Next(walked[1].id, 1);
    assert Passes(walked, sizes, payloadSize, 0);
    assert Clear(next, walked[1].size) in Clears(walked, sizes, 1);
  }

  function ParamIn(sections: nat, size: Uint32): Requirement {
    Requirement(Need(sections, size), Need(0, 0), Need(0, 0), Need(0, 0), Need(0, 0))
  }

  function OnPrograms(sections: nat, size: Uint32): Requirement {
    Requirement(Need(0, 0), Need(0, 0), Need(sections, size), Need(0, 0), Need(0, 0))
  }

  const FIRST := Listing(1, 4)
  const SECOND := Listing(2, 4)

  /** A terminal with 4 bytes for each of two kernels, the second in more sections than P2P expects. */
  function TwoKernelTerminal(kind: Kind): Terminal {
    Terminal(kind, Some(TwoKernels(FIRST, SECOND)), {}, 0, 0)
  }

  lemma {:induction false} TwoKernelsCounted(plan: seq<Terminal>, a: Requirement, b: Requirement)
    requires plan != [] && (plan[0].kind == CachedIn || plan[0].kind == Program) && plan[0] == TwoKernelTerminal(plan[0].kind)
    requires a.On(plan[0].kind) == Need(1, 4) && b.On(plan[0].kind) == Need(1, 2)
    ensures Counts(plan, 0, 0, a) && Counted(plan, 0, 0, a) == Need(1, 4) && !Overridden(plan, 0, 0, a)
    ensures Counts(plan, 0, 1, b) && Counted(plan, 0, 1, b) == Need(2, 4) && Overridden(plan, 0, 1, b)
  {
    TwoKernelsLookup(TwoKernels(FIRST, SECOND), FIRST, SECOND);
    assert FirstOfKind(plan, plan[0].kind, 0) == 0;
    assert Sweep(plan, 0, a.program, 0) == a.program && Sweep(plan, 1, b.program, 0) == b.program;
  }

  /** Its payload has 8 bytes once both kernels are counted, and the second one is marked for clearing. */
  lemma {:induction false} EightBytes(plan: seq<Terminal>, p2p: seq<Option<Requirement>>, terminals: seq<Terminal>,
                                      needed: seq<Requirement>, needs: seq<Requirement>)
    requires plan != [] && (plan[0].kind == CachedIn || plan[0].kind == Program) && plan[0] == TwoKernelTerminal(plan[0].kind)
    requires Accounts(plan, p2p, {0, 1}, terminals, needed, needs)
    requires p2p[0].value.On(plan[0].kind) == Need(1, 4) && p2p[1].value.On(plan[0].kind) == Need(1, 2)
    ensures terminals[0].Valid() && terminals[0].payloadSize == 8
    ensures Walked(terminals[0]) == [KernelInfo(0, 1, 4, false), KernelInfo(1, 2, 4, true)]
  {
    var order, ledger := TwoKernels(FIRST, SECOND), Ledger(plan, p2p, {0, 1}, 0);
    TwoKernelsLookup(order, FIRST, SECOND);
    TwoKernelsCounted(plan, p2p[0].value, p2p[1].value);
    assert terminals[0].payloadSize == 8 by {
      TwoKernelsSum(order, FIRST, SECOND, ledger);
      assert 0 in ledger && 1 in ledger && Entry(ledger, 0) == 4 && Entry(ledger, 1) == 4;
    }
    PreparedFromAccounts(plan, p2p, {0, 1}, terminals, needed, needs, 0);
    PreparedIsValid(plan, p2p, {0, 1}, 0, terminals[0], needs);
    assert 0 in ledger.Keys;
    TwoKernelsWalked(plan[0], terminals[0], FIRST, SECOND);
  }

  /** A cached-in terminal whose first kernel needs 6 bytes at encoding instead of 4: bytes 6 to 9 of the 8-byte
      payload are cleared before the second kernel is found not to fit. */
  lemma {:induction false} GrownKernelClearsOutside(p2p: seq<Option<Requirement>>, terminals: seq<Terminal>, needed: seq<Requirement>, sizes: Sizes)
    requires |p2p| == MAX_KERNELS && p2p[0] == Some(ParamIn(1, 4)) && p2p[1] == Some(ParamIn(1, 2))
    requires Accounts([TwoKernelTerminal(CachedIn)], p2p, {0, 1}, terminals, needed, sizes.needs)
    requires sizes.kind == CachedIn && sizes.Valid() && sizes.answers(0) == Answer(Some(ParamIn(1, 6)), true)
    ensures terminals[0].Valid() && terminals[0].payloadSize == 8
    ensures var walked := Walked(terminals[0]);
            |walked| == 2 && FailsAt(walked, sizes, 8, 1) && Clear(6, 4) in StoppedAt(walked, sizes, 8, 1)
  {
    var plan := [TwoKernelTerminal(CachedIn)];
    EightBytes(plan, p2p, terminals, needed, sizes.needs);
    TwoKernelsLookup(TwoKernels(FIRST, SECOND), FIRST, SECOND);
    assert FirstOfKind(plan, CachedIn, 0) == 0;
    assert sizes.needs[0].paramIn == Need(1, 4) && sizes.needs[1].paramIn == Need(2, 4);
    ClearsBehind(Walked(terminals[0]), sizes, 8);
  }

  /** What is saved for the kernels: the second terminal enlarges the first kernel only. */
  lemma {:induction false} EnlargedNeeds()
    ensures var plan := [TwoKernelTerminal(Program), ProgramTerminal(2, 8)];
            && Settled(plan, 0, OnPrograms(1, 4)).program == Need(2, 8)
            && Settled(plan, 1, OnPrograms(1, 2)).program == Need(2, 4)
  {
    var plan := [TwoKernelTerminal(Program), ProgramTerminal(2, 8)];
    TwoKernelsLookup(TwoKernels(FIRST, SECOND), FIRST, SECOND);
    OnlyKernelZeroLookup(2, 8);
    assert Sweep(plan, 0, Need(1, 4), 1) == Need(1, 4) && Sweep(plan, 0, Need(1, 4), 2) == Need(2, 8);
    assert Sweep(plan, 1, Need(1, 2), 1) == Need(2, 4) && Sweep(plan, 1, Need(1, 2), 2) == Need(2, 4);
  }

  /** A program terminal whose first kernel a second terminal enlarges to 8 bytes: bytes 8 to 11 of the 8-byte
      payload are cleared although no size grew since preparing. */
  lemma {:induction false} EnlargedKernelClearsOutside(p2p: seq<Option<Requirement>>, terminals: seq<Terminal>, needed: seq<Requirement>, sizes: Sizes)
    requires |p2p| == MAX_KERNELS && p2p[0] == Some(OnPrograms(1, 4)) && p2p[1] == Some(OnPrograms(1, 2))
    requires Accounts([TwoKernelTerminal(Program), ProgramTerminal(2, 8)], p2p, {0, 1}, terminals, needed, sizes.needs)
    requires sizes.kind == Program && terminals[0].Valid() && sizes.NoneGrew(Walked(terminals[0])) && sizes.answers(0).encoded
    ensures terminals[0].payloadSize == 8
    ensures var walked := Walked(terminals[0]);
            |walked| == 2 && FailsAt(walked, sizes, 8, 1) && Clear(8, 4) in StoppedAt(walked, sizes, 8, 1)
  {
    var plan := [TwoKernelTerminal(Program), ProgramTerminal(2, 8)];
    EightBytes(plan, p2p, terminals, needed, sizes.needs);
    EnlargedNeeds();
    assert sizes.needs[0].program == Need(2, 8) && sizes.needs[1].program == Need(2, 4);
    var walked := Walked(terminals[0]);
    assert walked[0].id == 0 && walked[1].id == 1;
    ClearsBehind(walked, sizes, 8);
  }

  lemma {:induction false} OnlyKernelZeroLookup(sections: Uint8, size: Uint32)
    ensures First(OnlyKernelZero(sections, size), 0) == 0 && First(OnlyKernelZero(sections, size), 1) == -1
  {
    var order := OnlyKernelZero(sections, size);
    assert order[0].id == 0;
    NotListed(order, 1, 0);
  }

  lemma {:induction false} NotListed(order: seq<KernelInfo>, k: nat, from: nat)
    requires from <= |order| && forall i :: from <= i < |order| ==> order[i].id != k
    ensures FirstFrom(order, k, from) == -1
  {
  }
}
