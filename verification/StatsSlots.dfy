/** The three-slot statistics buffer shared by the statistics decoder, which acquires a slot,
    fills it and publishes it, and the 3A run, which locks the current slot while reading it.
  */
module StatsSlots {
  import opened Basics

  datatype Slot = Slot(sequence: int, inUse: bool, data: int)

  const SLOTS := 3

  datatype RingFields = Ring(cur: Current, slots: seq<Slot>)

  const FREE := Slot(-1, false, 0)

  type Ring = r: RingFields | |r.slots| == SLOTS witness Ring(-1, [FREE, FREE, FREE])

  type SlotIndex = i: int | 0 <= i < SLOTS

  /** A slot, or -1 for none yet. */
  type Current = i: int | -1 <= i < SLOTS

  function Next(i: Current): SlotIndex {
    (i + 1) % SLOTS
  }

  /** The slot handed to the decoder: the next one, or the one after if the next is being read. */
  function AcquiredSlot(r: Ring): SlotIndex {
    if r.slots[Next(r.cur)].inUse then Next(Next(r.cur)) else Next(r.cur)
  }

  function Acquire(r: Ring): Ring {
    var k := AcquiredSlot(r);
    Ring(if r.slots[Next(r.cur)].inUse then Next(r.cur) else r.cur, r.slots[k := r.slots[k].(sequence := -1)])
  }

  /** What the decoder writes into the slot it holds. */
  function Fill(r: Ring, k: SlotIndex, sequence: int, data: int): Ring {
    r.(slots := r.slots[k := r.slots[k].(sequence := sequence, data := data)])
  }

  function Publish(r: Ring, sequence: int): Ring {
    var k := Next(r.cur);
    Ring(k, r.slots[k := r.slots[k].(sequence := sequence)])
  }

  /** The slot a reader gets, if there are valid statistics. */
  function LockedSlot(r: Ring): Option<SlotIndex> {
    if r.cur == -1 || r.slots[r.cur].sequence == -1 then None else Some(r.cur)
  }

  function Lock(r: Ring): Ring {
    var k := LockedSlot(r);
    if k.None? then r else r.(slots := r.slots[k.value := r.slots[k.value].(inUse := true)])
  }

  function Unlock(r: Ring): Ring {
    r.(slots := [r.slots[0].(inUse := false), r.slots[1].(inUse := false), r.slots[2].(inUse := false)])
  }

  function Reset(r: Ring): Ring {
    r.(cur := -1)
  }

  // ------------------------------------------------------------ decoder and reader

  /** Statistics as the decoder gave them: a frame and its data. */
  datatype Statistics = Statistics(sequence: int, data: int)

  /** The buffer with what its two users hold: the slot acquired and not yet published, the slot locked and not yet
      released, and the slot published last since the latest reset.  `given` are all statistics ever published, and
      `torn` tells that slot 0 got the sequence of statistics whose data are elsewhere. */
  datatype World = World(ring: Ring, acquired: Option<SlotIndex>, locked: Option<SlotIndex>, newest: Current, torn: bool, given: set<Statistics>)

  datatype Op = DoAcquire | DoPublish(sequence: int, data: int) | DoLock | DoUnlock | DoReset

  const START := World(Ring(-1, [FREE, FREE, FREE]), None, None, -1, false, {})

  /** One decoder that publishes what it acquired, and one reader. A reset comes at any time but while the
      statistics are locked: both it and the reader hold the engine. */
  ghost predicate Permits(w: World, op: Op) {
    match op
    case DoAcquire => w.acquired.None?
    case DoPublish(sequence, _) => w.acquired.Some? && sequence != -1
    case DoLock => w.locked.None?
    case DoUnlock => true
    case DoReset => w.locked.None?
  }

  /** The buffer was reset since the decoder acquired its slot, and the next publication lands on another one. */
  predicate Interrupted(w: World) {
    w.acquired.Some? && w.acquired.value != Next(w.ring.cur)
  }

  function Apply(w: World, op: Op): World {
    match op
    case DoAcquire =>
      var k := AcquiredSlot(w.ring);
      w.(ring := Acquire(w.ring), acquired := Some(k), torn := w.torn && k != 0)
    case DoPublish(sequence, data) =>
      var filled := if w.acquired.Some? then Fill(w.ring, w.acquired.value, sequence, data) else w.ring;
      var published := Publish(filled, sequence);
      w.(ring := published, acquired := None, newest := published.cur, given := w.given + {Statistics(sequence, data)},
         torn := Interrupted(w) || (w.torn && published.cur != 0))
    case DoLock => w.(ring := Lock(w.ring), locked := LockedSlot(w.ring))
    case DoUnlock => w.(ring := Unlock(w.ring), locked := None)
    case DoReset => w.(ring := Reset(w.ring), newest := -1)
  }

  ghost predicate Sound(w: World) {
    && var r := w.ring;
    && (forall i :: 0 <= i < SLOTS ==> (r.slots[i].inUse <==> w.locked == Some(i)))
    && (r.cur != -1 ==> r.slots[r.cur].sequence != -1)
    && (w.locked.Some? ==> r.slots[w.locked.value].sequence != -1)
    && (w.newest != -1 ==> r.cur != -1 && r.slots[w.newest].sequence != -1)
    && (w.acquired.None? ==> r.cur == w.newest)
    && (w.acquired.Some? ==> w.acquired != w.locked && r.slots[w.acquired.value].sequence == -1)
    && (w.acquired.Some? ==>
          if Interrupted(w) then r.cur == -1 && w.newest == -1 && w.locked.None?
          else r.cur == w.newest || r.cur == Next(w.newest))
    && (w.torn ==> w.acquired != Some(0))
    && Genuine(w)
  }

  /** Every slot with a sequence holds statistics as they were given, but for the slot still being filled and for
      slot 0 while it is torn. */
  ghost predicate Genuine(w: World) {
    forall i :: 0 <= i < SLOTS && w.ring.slots[i].sequence != -1 && w.acquired != Some(i) && !(w.torn && i == 0) ==>
      Statistics(w.ring.slots[i].sequence, w.ring.slots[i].data) in w.given
  }

  lemma {:induction false} AcquireKeepsSound(w: World)
    requires Sound(w) && Permits(w, DoAcquire)
    ensures Sound(Apply(w, DoAcquire))
    ensures Some(AcquiredSlot(w.ring)) != w.locked && !Interrupted(Apply(w, DoAcquire))
  {
  }

  lemma {:induction false} PublishKeepsSound(w: World, sequence: int, data: int)
    requires Sound(w) && Permits(w, DoPublish(sequence, data))
    ensures Sound(Apply(w, DoPublish(sequence, data)))
  {
  }

  /** Every step keeps: the decoder's slot is never the reader's, the next publication lands on the acquired slot
      unless a reset came in between, and the current slot holds valid statistics. */
  lemma {:induction false} StepKeepsSound(w: World, op: Op)
    requires Sound(w) && Permits(w, op)
    ensures Sound(Apply(w, op))
    ensures op.DoPublish? ==> (Apply(w, op).newest == w.acquired.value <==> !Interrupted(w))
    ensures op.DoAcquire? ==> Some(AcquiredSlot(w.ring)) != w.locked && !Interrupted(Apply(w, op))
    ensures w.locked.Some? && !op.DoUnlock? ==>
              Apply(w, op).ring.slots[w.locked.value] == w.ring.slots[w.locked.value]
  {
    match op {
      case DoAcquire => AcquireKeepsSound(w);
      case DoPublish(sequence, data) => PublishKeepsSound(w, sequence, data);
      case _ =>
    }
  }

  datatype History = Begin | Then(before: History, op: Op)

  function After(h: History): World {
    if h.Begin? then START else Apply(After(h.before), h.op)
  }

  ghost predicate Follows(h: History) {
    h.Begin? || (Follows(h.before) && Permits(After(h.before), h.op))
  }

  lemma {:induction false} RunsAreSound(h: History)
    requires Follows(h)
    ensures Sound(After(h))
  {
    if h.Then? {
      RunsAreSound(h.before);
      StepKeepsSound(After(h.before), h.op);
    }
  }

  /** Over every run a reader gets statistics as they were given, but for slot 0 while it is torn. */
  lemma {:induction false} ReaderGetsWhatWasGiven(h: History, k: SlotIndex)
    requires Follows(h) && LockedSlot(After(h).ring) == Some(k)
    ensures var w := After(h);
            Statistics(w.ring.slots[k].sequence, w.ring.slots[k].data) in w.given || (w.torn && k == 0)
  {
    RunsAreSound(h);
  }

  /** Slot 0 is torn from a publication that a reset came before until it is acquired again. */
  lemma {:induction false} TornIff(w: World, op: Op)
    requires Sound(w) && Permits(w, op)
    ensures Apply(w, op).torn <==>
            if w.torn then !(op.DoAcquire? && AcquiredSlot(w.ring) == 0) else op.DoPublish? && Interrupted(w)
  {
  }

  /** A publication that no reset came before is what readers get next, whatever was torn. */
  lemma {:induction false} NextPublicationIsGenuine(w: World, sequence: int, data: int)
    requires Sound(w) && Permits(w, DoPublish(sequence, data))
    ensures var r := Apply(w, DoPublish(sequence, data)).ring;
            LockedSlot(r) == Some(r.cur) &&
            (!Interrupted(w) ==> r.cur == w.acquired.value && Statistics(r.slots[r.cur].sequence, r.slots[r.cur].data) == Statistics(sequence, data)) &&
            (Interrupted(w) ==> r.cur == 0 && r.slots[0] == w.ring.slots[0].(sequence := sequence))
  {
  }

  /** A reset between acquiring and publishing gives a reader a frame number with the data of another frame. */
  lemma {:induction false} TornStatisticsAreRead()
    ensures exists h :: Follows(h) && var w := After(h);
              w.locked == Some(0) && Statistics(w.ring.slots[0].sequence, w.ring.slots[0].data) !in w.given
  {
    var first, second := Statistics(0, 10), Statistics(1, 11);
    var s0, s1, torn := Slot(0, false, 10), Slot(1, false, 11), Slot(1, false, 10);
    var h := Follow(Begin, DoAcquire, World(Ring(-1, [FREE, FREE, FREE]), Some(0), None, -1, false, {}));
    h := Follow(h, DoPublish(0, 10), World(Ring(0, [s0, FREE, FREE]), None, None, 0, false, {first}));
    h := Follow(h, DoAcquire, World(Ring(0, [s0, FREE, FREE]), Some(1), None, 0, false, {first}));
    h := Follow(h, DoReset, World(Ring(-1, [s0, FREE, FREE]), Some(1), None, -1, false, {first}));
    h := Follow(h, DoPublish(1, 11), World(Ring(0, [torn, s1, FREE]), None, None, 0, true, {first, second}));
    h := Follow(h, DoLock, World(Ring(0, [torn.(inUse := true), s1, FREE]), None, Some(0), 0, true, {first, second}));
  }

  /** A reader gets the statistics published last, except while the decoder holds a slot that it
      acquired by stepping over the slot then being read. */
  lemma {:induction false} ReaderGetsNewestIff(w: World)
    requires Sound(w) && w.acquired.None? && w.newest != -1
    ensures LockedSlot(w.ring) == Some(w.newest)
    ensures var held := Apply(w, DoAcquire);
            LockedSlot(held.ring) == Some(held.newest) <==> w.locked != Some(Next(w.newest))
  {
  }

  /** The reader that unlocks during such an acquisition and locks again gets older statistics. */
  lemma {:induction false} OlderStatisticsAreRead()
    ensures exists h :: Follows(h) && var w := After(h);
              w.locked.Some? && w.newest != -1 &&
              w.ring.slots[w.locked.value].sequence < w.ring.slots[w.newest].sequence
  {
    var zero, one, two := Statistics(0, 0), Statistics(1, 0), Statistics(2, 0);
    var h := Follow(Begin, DoAcquire, World(Ring(-1, [FREE, FREE, FREE]), Some(0), None, -1, false, {}));
    h := Follow(h, DoPublish(0, 0), World(Ring(0, [Slot(0, false, 0), FREE, FREE]), None, None, 0, false, {zero}));
    h := Follow(h, DoLock, World(Ring(0, [Slot(0, true, 0), FREE, FREE]), None, Some(0), 0, false, {zero}));
    h := Follow(h, DoAcquire, World(Ring(0, [Slot(0, true, 0), FREE, FREE]), Some(1), Some(0), 0, false, {zero}));
    h := Follow(h, DoPublish(1, 0), World(Ring(1, [Slot(0, true, 0), Slot(1, false, 0), FREE]), None, Some(0), 1, false, {zero, one}));
    h := Follow(h, DoAcquire, World(Ring(1, [Slot(0, true, 0), Slot(1, false, 0), FREE]), Some(2), Some(0), 1, false, {zero, one}));
    var s2 := Slot(2, false, 0);
    h := Follow(h, DoPublish(2, 0), World(Ring(2, [Slot(0, true, 0), Slot(1, false, 0), s2]), None, Some(0), 2, false, {zero, one, two}));
    h := Follow(h, DoAcquire, World(Ring(0, [Slot(0, true, 0), FREE, s2]), Some(1), Some(0), 2, false, {zero, one, two}));
    h := Follow(h, DoUnlock, World(Ring(0, [Slot(0, false, 0), FREE, s2]), Some(1), None, 2, false, {zero, one, two}));
    h := Follow(h, DoLock, World(Ring(0, [Slot(0, true, 0), FREE, s2]), Some(1), Some(0), 2, false, {zero, one, two}));
  }

  lemma {:induction false} Follow(before: History, op: Op, expected: World) returns (h: History)
    requires Follows(before) && Permits(After(before), op) && Apply(After(before), op) == expected
    ensures h == Then(before, op) && Follows(h) && After(h) == expected
  {
    h := Then(before, op);
  }

  /** If the buffer is reset between acquiring and publishing, the acquired slot is the one
      published exactly when it was slot 0. */
  lemma {:induction false} ResetWhileAcquiredIff(w: World, sequence: int)
    requires Sound(w) && w.acquired.Some?
    ensures Publish(Reset(w.ring), sequence).cur == w.acquired.value <==> w.acquired.value == 0
  {
  }
}
