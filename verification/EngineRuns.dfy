/** What a 3A run publishes, and how the published results, the exposure queue and the
    frames readers ask about fit together over whole runs of the engine.
  */
module EngineRuns {
  import opened Basics
  import opened ExposureSchedule
  import opened Tonemaps
  import opened ResultLists
  import R = ScheduleRuns

  /** Frames flagged to be skipped when the tuning mode changes. */
  const SKIPS_ON_MODE_CHANGE: nat := 3

  function SkipNum(first: bool, published: seq<AiqResult>, r: AiqResult): nat {
    if !first && published != [] && published[|published| - 1].tuningMode != r.tuningMode
    then SKIPS_ON_MODE_CHANGE else 0
  }

  /** Publishing `r` behind `n` copies flagged to be skipped; each copy after the first one comes
      with an exposure update of its own. */
  function DoneFrom(cfg: Config, s: State, r: AiqResult, n: nat): (State, seq<AiqResult>)
    decreases n
  {
    if n == 0 then (s, [r.(skip := false)])
    else
      var o := UpdateStep(cfg, s, r.exposures, -1);
      var (last, rest) := DoneFrom(cfg, o.next, r.(skip := true, sequence := o.effect), n - 1);
      (last, [r.(skip := true)] + rest)
  }

  /** The first copy and what is published behind it. */
  lemma {:induction false} DoneFirst(cfg: Config, s: State, r: AiqResult, n: nat, o: Outcome, next: AiqResult)
    requires 0 < n && o == UpdateStep(cfg, s, r.exposures, -1) && next == r.(skip := true, sequence := o.effect)
    ensures var rest := DoneFrom(cfg, o.next, next, n - 1);
            DoneFrom(cfg, s, r, n) == (rest.0, [r.(skip := true)] + rest.1)
  {
  }

  /** The loop that publishes the copies, after some turns: the schedule, the result prepared next, and all
      results published. */
  datatype Copying = Copying(sensor: State, prepared: AiqResult, published: seq<AiqResult>)

  function CopyOnce(cfg: Config, c: Copying): Copying {
    var r := c.prepared.(skip := true);
    var o := UpdateStep(cfg, c.sensor, r.exposures, -1);
    Copying(o.next, r.(sequence := o.effect), c.published + [r])
  }

  function CopyTimes(cfg: Config, c: Copying, n: nat): Copying {
    if n == 0 then c else CopyOnce(cfg, CopyTimes(cfg, c, n - 1))
  }

  /** The states of the loop, each from the one before by one turn. */
  ghost predicate Turns(cfg: Config, states: seq<Copying>) {
    states != [] && forall k {:trigger states[k]} :: 0 < k < |states| ==> states[k] == CopyOnce(cfg, states[k - 1])
  }

  lemma {:induction false} OneMoreTurn(cfg: Config, states: seq<Copying>, c: Copying)
    requires Turns(cfg, states) && c == CopyOnce(cfg, states[|states| - 1])
    ensures Turns(cfg, states + [c])
  {
  }

  lemma {:induction false} LastTurn(cfg: Config, states: seq<Copying>, n: nat)
    requires Turns(cfg, states) && n < |states|
    ensures states[n] == CopyTimes(cfg, states[0], n)
  {
    if n > 0 {
      LastTurn(cfg, states, n - 1);
    }
  }

  lemma {:induction false} CopyFirst(cfg: Config, c: Copying, n: nat)
    requires 0 < n
    ensures CopyTimes(cfg, c, n) == CopyTimes(cfg, CopyOnce(cfg, c), n - 1)
  {
    if n > 1 {
      CopyFirst(cfg, c, n - 1);
    }
  }

  lemma {:induction false} DoneAfterTurn(cfg: Config, c: Copying, n: nat)
    requires 0 < n
    ensures var d, all := CopyOnce(cfg, c), DoneFrom(cfg, c.sensor, c.prepared, n);
            var rest := DoneFrom(cfg, d.sensor, d.prepared, n - 1);
            all.0 == rest.0 && c.published + all.1 == d.published + rest.1
  {
    var r, d := c.prepared.(skip := true), CopyOnce(cfg, c);
    var rest := DoneFrom(cfg, d.sensor, d.prepared, n - 1).1;
    assert d.published + rest == c.published + ([r] + rest);
  }

  /** Turn by turn the loop publishes what `DoneFrom` says. */
  lemma {:induction false} LoopIsDone(cfg: Config, c: Copying, n: nat)
    ensures var end := CopyTimes(cfg, c, n);
            var (last, results) := DoneFrom(cfg, c.sensor, c.prepared, n);
            end.sensor == last && end.published + [end.prepared.(skip := false)] == c.published + results
    decreases n
  {
    if n > 0 {
      CopyFirst(cfg, c, n);
      DoneAfterTurn(cfg, c, n);
      LoopIsDone(cfg, CopyOnce(cfg, c), n - 1);
    }
  }

  // ----------------------------------------------------------- one publication

  /** `n` copies flagged to be skipped and one that is not, all of the same result, on frames in a row. */
  ghost predicate SkipRun(r: AiqResult, results: seq<AiqResult>, n: nat) {
    && |results| == n + 1
    && forall i :: 0 <= i <= n ==> results[i] == r.(skip := i < n, sequence := r.sequence + i)
  }

  ghost predicate RoomFor(cfg: Config, s: State, n: nat) {
    -1 <= s.lastSof && s.lastSof + |s.exposures| + n + cfg.exposureLag + 1 <= INT32_MAX
  }

  lemma {:induction false} NextCopy(cfg: Config, s: State, exps: seq<SensorExposure>)
    requires LagsValid(cfg) && R.Settled(cfg, s) && InRange(cfg, s)
    requires exps != [] && BaseEffect(cfg, s) > 0
    ensures var o := UpdateStep(cfg, s, exps, -1);
            && R.Settled(cfg, o.next) && o.next.lastSof == s.lastSof && |o.next.exposures| == |s.exposures| + 1
            && o.effect == BaseEffect(cfg, s) + |s.exposures| + 1
  {
    QueuedUpdateIsNew(cfg, s, exps, -1);
    UpdateKeepsContiguous(cfg, s, exps, -1);
  }

  lemma {:induction false} SkipRunGrows(r: AiqResult, next: AiqResult, rest: seq<AiqResult>, n: nat)
    requires 0 < n && SkipRun(next, rest, n - 1) && next == r.(skip := true, sequence := r.sequence + 1)
    ensures SkipRun(r, [r.(skip := true)] + rest, n)
  {
    var results := [r.(skip := true)] + rest;
    forall i | 0 <= i <= n
      ensures results[i] == r.(skip := i < n, sequence := r.sequence + i)
    {
      if i > 0 {
        assert results[i] == rest[i - 1];
      }
    }
  }

  /** The published copies take effect on consecutive frames, so the skipped frames are exactly the
      `n` frames before the first good one. */
  lemma {:induction false} SkipsAreConsecutive(cfg: Config, s: State, r: AiqResult, n: nat)
    requires LagsValid(cfg) && R.Settled(cfg, s) && RoomFor(cfg, s, n)
    requires r.exposures != [] && BaseEffect(cfg, s) > 0
    requires r.sequence == BaseEffect(cfg, s) + |s.exposures|
    ensures var (last, results) := DoneFrom(cfg, s, r, n);
            && SkipRun(r, results, n)
            && R.Settled(cfg, last) && last.lastSof == s.lastSof && |last.exposures| == |s.exposures| + n
    decreases n
  {
    if n > 0 {
      NextCopy(cfg, s, r.exposures);
      var o := UpdateStep(cfg, s, r.exposures, -1);
      var next := r.(skip := true, sequence := o.effect);
      SkipsAreConsecutive(cfg, o.next, next, n - 1);
      SkipRunGrows(r, next, DoneFrom(cfg, o.next, next, n - 1).1, n);
      DoneFirst(cfg, s, r, n, o, next);
    } else {
      assert SkipRun(r, [r.(skip := false)], 0);
    }
  }

  /** If an update changes nothing, all copies report its frame. */
  lemma {:induction false} CopiesCoincide(cfg: Config, s: State, r: AiqResult, n: nat)
    requires var o := UpdateStep(cfg, s, r.exposures, -1); o.next == s && o.effect == r.sequence
    ensures var (last, results) := DoneFrom(cfg, s, r, n);
            && last == s && |results| == n + 1
            && forall i :: 0 <= i <= n ==> results[i].sequence == r.sequence
    decreases n
  {
    if n > 0 {
      CopiesCoincide(cfg, s, r.(skip := true), n - 1);
    }
  }

  /** Until the first frame, in wait-first-stats mode, all copies report the same frame. */
  lemma {:induction false} DirectSkipsCoincide(cfg: Config, s: State, r: AiqResult, n: nat)
    requires LagsValid(cfg) && r.exposures != [] && BaseEffect(cfg, s) == 0
    requires r.sequence == cfg.initialSkipFrame
    ensures var (last, results) := DoneFrom(cfg, s, r, n);
            && last == s && |results| == n + 1
            && forall i :: 0 <= i <= n ==> results[i].sequence == r.sequence
  {
    CopiesCoincide(cfg, s, r, n);
  }

  /** Of the frames from the first copy on, exactly the next three resolve to a skipped result. */
  lemma {:induction false} ThreeFramesAreSkipped(before: seq<AiqResult>, r: AiqResult, results: seq<AiqResult>, s: int)
    requires SkipRun(r, results, SKIPS_ON_MODE_CHANGE) && 0 <= r.sequence <= s
    ensures var list := Retained(before + results, false);
            FindIndex(list, s) >= 0 && (list[FindIndex(list, s)].skip <==> s < r.sequence + SKIPS_ON_MODE_CHANGE)
  {
    var all := before + results;
    var oldest := OldestOf(|all|, false);
    assert all[oldest..] == before[oldest..] + results;
    FindInSuffix(before[oldest..], results, s);
    var i := FindIndex(results, s);
    var expected := if s < r.sequence + 3 then s - r.sequence else 3;
    assert InForce(results[expected], s);
    assert i == expected by {
      assert InForce(results[i], s);
    }
  }

  // ------------------------------------------------------------- engine runs

  /** The engine: its exposure queue, everything published, whether a first result is still
      awaited, and how many results had been published when it was last started. */
  datatype Engine = Engine(sensor: State, published: seq<AiqResult>, first: bool, session: nat)

  datatype Op =
    | Sof(sof: int)
    | Start
    | Idle
    | UpdateOnly(exps: seq<SensorExposure>, applyingSeq: int)
    | Finish(result: AiqResult, applyingSeq: int)

  const FRESH := Engine(RESET, [], true, 0)

  /** One engine operation. `UpdateOnly` is a 3A run that fails after it has set the exposure. */
  function Step(cfg: Config, e: Engine, op: Op): Engine {
    match op
    case Sof(sof) => e.(sensor := SofStep(e.sensor, sof).next)
    case Start => e.(sensor := RESET, first := true, session := |e.published|)
    case Idle => e
    case UpdateOnly(exps, applyingSeq) => e.(sensor := UpdateStep(cfg, e.sensor, exps, applyingSeq).next)
    case Finish(result, applyingSeq) =>
      var o := UpdateStep(cfg, e.sensor, result.exposures, applyingSeq);
      var r := result.(sequence := o.effect);
      var (last, results) := DoneFrom(cfg, o.next, r, SkipNum(e.first, e.published, r));
      e.(sensor := last, published := e.published + results, first := false)
  }

  /** Start-of-frame events are consecutive from 0, and numbers fit 32 bits. */
  ghost predicate Permits(cfg: Config, e: Engine, op: Op) {
    match op
    case Sof(sof) => sof == e.sensor.lastSof + 1
    case Start => true
    case Idle => true
    case UpdateOnly(_, _) => RoomFor(cfg, e.sensor, 0)
    case Finish(_, _) => RoomFor(cfg, e.sensor, SKIPS_ON_MODE_CHANGE + 1)
  }

  datatype History = Begin | Then(before: History, op: Op)

  function After(cfg: Config, h: History): Engine {
    if h.Begin? then FRESH else Step(cfg, After(cfg, h.before), h.op)
  }

  ghost predicate Follows(cfg: Config, h: History) {
    h.Begin? || (Follows(cfg, h.before) && Permits(cfg, After(cfg, h.before), h.op))
  }

  /** The results published since the last start. */
  function Session(e: Engine): seq<AiqResult>
    requires e.session <= |e.published|
  {
    e.published[e.session..]
  }

  ghost predicate UpTo(list: seq<AiqResult>, bound: int) {
    forall i :: 0 <= i < |list| ==> 0 <= list[i].sequence <= bound
  }

  /** The frame reported for an update, seen from the state it leaves. */
  function Reported(cfg: Config, s: State, exps: seq<SensorExposure>): int {
    if exps == [] then BaseEffect(cfg, s)
    else if BaseEffect(cfg, s) > 0 then BaseEffect(cfg, s) + |s.exposures|
    else cfg.initialSkipFrame
  }

  lemma {:induction false} OneMoreUpdate(cfg: Config, s: State, exps: seq<SensorExposure>, applyingSeq: int)
    requires LagsValid(cfg) && R.Settled(cfg, s) && InRange(cfg, s)
    ensures var o := UpdateStep(cfg, s, exps, applyingSeq);
            && R.Settled(cfg, o.next) && o.next.lastSof == s.lastSof
            && |s.exposures| <= |o.next.exposures| <= |s.exposures| + 1
            && o.effect == Reported(cfg, o.next, exps)
  {
    if R.TakesNoTurn(s, exps, applyingSeq) {
      R.AsideStep(cfg, s, exps, applyingSeq);
      UpdateKeepsContiguous(cfg, s, exps, applyingSeq);
    } else {
      R.TurnStep(cfg, s, exps, applyingSeq);
    }
  }

  /** Whatever the mode, the published copies are in frame order and stay under the ceiling. */
  lemma {:induction false} DoneStaysInOrder(cfg: Config, s: State, r: AiqResult, n: nat)
    requires LagsValid(cfg) && R.Settled(cfg, s) && RoomFor(cfg, s, n)
    requires r.sequence == Reported(cfg, s, r.exposures)
    ensures var (last, results) := DoneFrom(cfg, s, r, n);
            && results != [] && results[0].sequence == r.sequence
            && InFrameOrder(results) && UpTo(results, R.Ceiling(cfg, last))
            && R.Settled(cfg, last) && |last.exposures| <= |s.exposures| + n
  {
    if r.exposures == [] {
      CopiesCoincide(cfg, s, r, n);
    } else if BaseEffect(cfg, s) > 0 {
      SkipsAreConsecutive(cfg, s, r, n);
    } else {
      DirectSkipsCoincide(cfg, s, r, n);
    }
  }

  lemma {:induction false} OrderedAppend(list: seq<AiqResult>, more: seq<AiqResult>)
    requires more != [] && InFrameOrder(more)
    ensures InFrameOrder(list + more) <==>
            InFrameOrder(list) && (list == [] || list[|list| - 1].sequence <= more[0].sequence)
  {
    var all := list + more;
    assert forall i :: 0 <= i < |all| ==> all[i] == if i < |list| then list[i] else more[i - |list|];
    if InFrameOrder(all) {
      forall i, j | 0 <= i < j < |list|
        ensures list[i].sequence <= list[j].sequence
      {
        assert all[i].sequence <= all[j].sequence;
      }
      assert list != [] ==> all[|list| - 1].sequence <= all[|list|].sequence;
      forall i | 0 <= i < |list|
        ensures 0 <= list[i].sequence
      {
        assert 0 <= all[i].sequence;
      }
    }
  }

  /** Results published behind those of the session. */
  lemma {:induction false} SessionAppend(published: seq<AiqResult>, session: nat, bound: int, more: seq<AiqResult>, bound': int)
    requires session <= |published| && UpTo(published[session..], bound) && bound <= bound'
    requires more != [] && InFrameOrder(more) && UpTo(more, bound')
    ensures UpTo((published + more)[session..], bound')
    ensures InFrameOrder((published + more)[session..]) <==>
            && InFrameOrder(published[session..])
            && (session == |published| || published[|published| - 1].sequence <= more[0].sequence)
  {
    OrderedAppend(published[session..], more);
    assert (published + more)[session..] == published[session..] + more;
  }

  ghost predicate Sound(cfg: Config, e: Engine) {
    && R.Settled(cfg, e.sensor)
    && e.session <= |e.published|
    && UpTo(Session(e), R.Ceiling(cfg, e.sensor))
  }

  /** `later` behind `earlier`. */
  function Onto(earlier: History, later: History): History {
    if later.Begin? then earlier else Then(Onto(earlier, later.before), later.op)
  }

  /** Two engines with the same schedule that published the same since their last start. */
  ghost predicate Alike(e: Engine, f: Engine) {
    && e.sensor == f.sensor && e.first == f.first
    && e.session <= |e.published| && f.session <= |f.published| && Session(e) == Session(f)
    && (!e.first ==> Session(e) != [])
  }

  lemma {:induction false} SameSkips(e: Engine, f: Engine, r: AiqResult)
    requires Alike(e, f)
    ensures SkipNum(e.first, e.published, r) == SkipNum(f.first, f.published, r)
  {
    if !e.first {
      assert e.published[|e.published| - 1] == Session(e)[|Session(e)| - 1];
      assert f.published[|f.published| - 1] == Session(f)[|Session(f)| - 1];
    }
  }

  lemma {:induction false} PublishingKeepsAlike(e: Engine, f: Engine, last: State, results: seq<AiqResult>)
    requires Alike(e, f) && results != []
    ensures Alike(Engine(last, e.published + results, false, e.session), Engine(last, f.published + results, false, f.session))
  {
    assert (e.published + results)[e.session..] == Session(e) + results;
    assert (f.published + results)[f.session..] == Session(f) + results;
  }

  lemma {:induction false} StepKeepsAlike(cfg: Config, e: Engine, f: Engine, op: Op)
    requires Alike(e, f)
    ensures Alike(Step(cfg, e, op), Step(cfg, f, op))
  {
    if op.Finish? {
      var o := UpdateStep(cfg, e.sensor, op.result.exposures, op.applyingSeq);
      var r := op.result.(sequence := o.effect);
      SameSkips(e, f, r);
      var n := SkipNum(e.first, e.published, r);
      DoneFlags(cfg, o.next, r, n);
      var done := DoneFrom(cfg, o.next, r, n);
      PublishingKeepsAlike(e, f, done.0, done.1);
    }
  }

  /** After a start the engine schedules and publishes as a fresh one would. */
  lemma {:induction false} SessionsStartAfresh(cfg: Config, earlier: History, later: History)
    ensures Alike(After(cfg, Onto(Then(earlier, Start), later)), After(cfg, later))
  {
    if later.Then? {
      SessionsStartAfresh(cfg, earlier, later.before);
      StepKeepsAlike(cfg, After(cfg, Onto(Then(earlier, Start), later.before)), After(cfg, later.before), later.op);
    } else {
      SessionBounds(cfg, earlier);
    }
  }

  lemma {:induction false} SessionBounds(cfg: Config, h: History)
    ensures After(cfg, h).session <= |After(cfg, h).published|
  {
    if h.Then? {
      SessionBounds(cfg, h.before);
    }
  }

  /** Whether a result whose update takes no turn in the queue reports a frame no earlier than the result
      published last. */
  predicate Fits(cfg: Config, e: Engine, op: Op) {
    op.Finish? && R.TakesNoTurn(e.sensor, op.result.exposures, op.applyingSeq) && e.session < |e.published| ==>
      e.published[|e.published| - 1].sequence <= R.AsideReport(cfg, e.sensor, op.result.exposures)
  }

  /** All results since the last start fit. */
  predicate SessionFits(cfg: Config, h: History) {
    h.Begin? || h.op.Start? || (SessionFits(cfg, h.before) && Fits(cfg, After(cfg, h.before), h.op))
  }

  lemma {:induction false} DoneRaisesCeiling(cfg: Config, s: State, r: AiqResult, n: nat)
    requires LagsValid(cfg) && R.Settled(cfg, s) && RoomFor(cfg, s, n)
    requires r.sequence == Reported(cfg, s, r.exposures)
    ensures R.Ceiling(cfg, s) <= R.Ceiling(cfg, DoneFrom(cfg, s, r, n).0)
  {
    if r.exposures == [] {
      CopiesCoincide(cfg, s, r, n);
    } else if BaseEffect(cfg, s) > 0 {
      SkipsAreConsecutive(cfg, s, r, n);
    } else {
      DirectSkipsCoincide(cfg, s, r, n);
    }
  }

  /** What a finished run publishes, seen from the state before it. */
  lemma {:induction false} FinishPublishes(cfg: Config, e: Engine, op: Op) returns (last: State, results: seq<AiqResult>)
    requires LagsValid(cfg) && R.SkipFits(cfg) && R.Settled(cfg, e.sensor) && op.Finish? && Permits(cfg, e, op)
    ensures Step(cfg, e, op) == e.(sensor := last, published := e.published + results, first := false)
    ensures R.Settled(cfg, last) && R.Ceiling(cfg, e.sensor) <= R.Ceiling(cfg, last)
    ensures results != [] && InFrameOrder(results) && UpTo(results, R.Ceiling(cfg, last))
    ensures if R.TakesNoTurn(e.sensor, op.result.exposures, op.applyingSeq)
            then results[0].sequence == R.AsideReport(cfg, e.sensor, op.result.exposures)
            else R.Ceiling(cfg, e.sensor) <= results[0].sequence
  {
    var exps := op.result.exposures;
    var o := UpdateStep(cfg, e.sensor, exps, op.applyingSeq);
    OneMoreUpdate(cfg, e.sensor, exps, op.applyingSeq);
    R.UpdateRaisesCeiling(cfg, e.sensor, exps, op.applyingSeq);
    if R.TakesNoTurn(e.sensor, exps, op.applyingSeq) {
      R.AsideStep(cfg, e.sensor, exps, op.applyingSeq);
    }
    var r := op.result.(sequence := o.effect);
    var n := SkipNum(e.first, e.published, r);
    var done := DoneFrom(cfg, o.next, r, n);
    last, results := done.0, done.1;
    DoneStaysInOrder(cfg, o.next, r, n);
    DoneRaisesCeiling(cfg, o.next, r, n);
  }

  /** What is published in order stays so exactly if it fits behind the session's latest result. */
  lemma {:induction false} ResultsFit(cfg: Config, e: Engine, op: Op, ceiling: int, last: State, results: seq<AiqResult>, next: Engine)
    requires e.session <= |e.published| && UpTo(Session(e), ceiling) && op.Finish?
    requires next == Engine(last, e.published + results, false, e.session)
    requires ceiling <= R.Ceiling(cfg, last) && R.Settled(cfg, last)
    requires results != [] && InFrameOrder(results) && UpTo(results, R.Ceiling(cfg, last))
    requires if R.TakesNoTurn(e.sensor, op.result.exposures, op.applyingSeq)
             then results[0].sequence == R.AsideReport(cfg, e.sensor, op.result.exposures)
             else ceiling <= results[0].sequence
    ensures Sound(cfg, next) && (InFrameOrder(Session(next)) <==> InFrameOrder(Session(e)) && Fits(cfg, e, op))
  {
    SessionAppend(e.published, e.session, ceiling, results, R.Ceiling(cfg, last));
    if e.session < |e.published| {
      assert e.published[|e.published| - 1] == Session(e)[|Session(e)| - 1];
    }
  }

  lemma {:induction false} FinishOrders(cfg: Config, e: Engine, op: Op)
    requires LagsValid(cfg) && R.SkipFits(cfg) && Sound(cfg, e) && op.Finish? && Permits(cfg, e, op)
    ensures var next := Step(cfg, e, op);
            && Sound(cfg, next)
            && (InFrameOrder(Session(next)) <==> InFrameOrder(Session(e)) && Fits(cfg, e, op))
  {
    var last, results := FinishPublishes(cfg, e, op);
    ResultsFit(cfg, e, op, R.Ceiling(cfg, e.sensor), last, results, Step(cfg, e, op));
  }

  lemma {:induction false} StepOrders(cfg: Config, e: Engine, op: Op)
    requires LagsValid(cfg) && R.SkipFits(cfg) && Sound(cfg, e) && Permits(cfg, e, op)
    ensures var next := Step(cfg, e, op);
            && Sound(cfg, next)
            && (InFrameOrder(Session(next)) <==> op.Start? || (InFrameOrder(Session(e)) && Fits(cfg, e, op)))
  {
    match op {
      case Sof(_) => R.SofRaisesCeiling(cfg, e.sensor);
      case UpdateOnly(exps, applyingSeq) => R.UpdateRaisesCeiling(cfg, e.sensor, exps, applyingSeq);
      case Finish(_, _) => FinishOrders(cfg, e, op);
      case Start => assert Session(Step(cfg, e, op)) == [];
      case Idle =>
    }
  }

  /** Over any run, mode changes, failed runs, empty and immediate updates included, the results published
      since the last start take effect in the order they were published exactly if all of them fit. */
  lemma {:induction false} PublishedInFrameOrder(cfg: Config, h: History)
    requires LagsValid(cfg) && R.SkipFits(cfg) && Follows(cfg, h)
    ensures Sound(cfg, After(cfg, h))
    ensures InFrameOrder(Session(After(cfg, h))) <==> SessionFits(cfg, h)
  {
    if h.Then? {
      PublishedInFrameOrder(cfg, h.before);
      StepOrders(cfg, After(cfg, h.before), h.op);
    }
  }

  /** That is so for all runs exactly when the initial skip count of wait-first-stats mode fits. */
  lemma {:induction false} PublishedInFrameOrderIff(cfg: Config)
    requires LagsValid(cfg) && RoomFor(cfg, RESET, SKIPS_ON_MODE_CHANGE + 2)
    ensures (forall h :: Follows(cfg, h) ==>
               After(cfg, h).session <= |After(cfg, h).published| &&
               (InFrameOrder(Session(After(cfg, h))) <==> SessionFits(cfg, h)))
            <==> R.SkipFits(cfg)
  {
    if R.SkipFits(cfg) {
      forall h | Follows(cfg, h)
        ensures After(cfg, h).session <= |After(cfg, h).published|
        ensures InFrameOrder(Session(After(cfg, h))) <==> SessionFits(cfg, h)
      {
        PublishedInFrameOrder(cfg, h);
      }
    } else {
      OvershootingSkip(cfg);
    }
  }

  const ONE_RESULT := AiqResult(0, false, 0, Video, R.ONE_EXPOSURE, NO_PARAMETERS, NO_CONTENT)

  /** One result before the first frame and one after it: the second takes effect earlier. */
  lemma {:induction false} OvershootingSkip(cfg: Config)
    requires LagsValid(cfg) && RoomFor(cfg, RESET, SKIPS_ON_MODE_CHANGE + 2) && !R.SkipFits(cfg)
    ensures exists h :: Follows(cfg, h) && SessionFits(cfg, h) &&
                        After(cfg, h).session <= |After(cfg, h).published| && !InFrameOrder(Session(After(cfg, h)))
  {
    var first := Then(Begin, Finish(ONE_RESULT, -1));
    var sof := Then(first, Sof(0));
    var second := Then(sof, Finish(ONE_RESULT, -1));
    R.TurnStep(cfg, RESET, R.ONE_EXPOSURE, -1);
    assert Follows(cfg, Begin) && SessionFits(cfg, Begin);
    FirstResult(cfg, FRESH, cfg.initialSkipFrame);
    assert Follows(cfg, first) && SessionFits(cfg, first);
    var e := After(cfg, sof);
    assert Follows(cfg, sof) && SessionFits(cfg, sof) && e.sensor.lastSof == 0 && e.sensor.exposures == map[];
    R.FirstReport(cfg, e.sensor);
    FirstResult(cfg, e, cfg.exposureLag + 1);
    assert Follows(cfg, second) && SessionFits(cfg, second);
    assert Session(After(cfg, second))[0].sequence > Session(After(cfg, second))[1].sequence;
  }

  lemma {:induction false} FirstResult(cfg: Config, e: Engine, effect: int)
    requires UpdateStep(cfg, e.sensor, R.ONE_EXPOSURE, -1).effect == effect
    requires SkipNum(e.first, e.published, ONE_RESULT) == 0
    ensures var next := Step(cfg, e, Finish(ONE_RESULT, -1));
            && next.sensor == UpdateStep(cfg, e.sensor, R.ONE_EXPOSURE, -1).next
            && next.published == e.published + [ONE_RESULT.(sequence := effect)]
            && next.session == e.session && !next.first
  {
  }

  /** Where this session's retained results begin. */
  function SessionFrom(e: Engine, acquired: bool): nat {
    var oldest := OldestOf(|e.published|, acquired);
    if e.session < oldest then oldest else e.session
  }

  /** What a reader gets after a run whose results fit, for a frame not before all of this session's retained
      results: the result of the session that is latest among those of the largest sequence not beyond it. */
  lemma {:induction false} ReaderGetsResultInForce(cfg: Config, h: History, acquired: bool, s: int)
    requires LagsValid(cfg) && R.SkipFits(cfg) && Follows(cfg, h) && SessionFits(cfg, h)
    requires var e := After(cfg, h);
             SessionFrom(e, acquired) < |e.published| && e.published[SessionFrom(e, acquired)].sequence <= s
    ensures var e := After(cfg, h);
            var list := Retained(e.published, acquired);
            var i := FindIndex(list, s);
            && i >= 0 && list[i].sequence <= s
            && e.session <= OldestOf(|e.published|, acquired) + i
            && (forall j :: i < j < |list| ==> s < list[j].sequence)
            && (forall k :: e.session <= k < |e.published| && e.published[k].sequence <= s ==>
                  e.published[k].sequence <= list[i].sequence)
  {
    PublishedInFrameOrder(cfg, h);
    var e := After(cfg, h);
    ReadSession(e.published, e.session, OldestOf(|e.published|, acquired), s);
  }

  lemma {:induction false} SuffixOrdered(published: seq<AiqResult>, session: nat, k: nat, found: nat)
    requires session <= k <= found < |published| && InFrameOrder(published[session..])
    ensures 0 <= published[k].sequence <= published[found].sequence
  {
    var mine := published[session..];
    assert mine[k - session] == published[k] && mine[found - session] == published[found];
  }

  /** The search from the newest result stops within the session, behind everything beyond the frame. */
  lemma {:induction false} FoundInSession(published: seq<AiqResult>, session: nat, oldest: nat, s: int)
    requires session <= |published| && oldest <= |published| && InFrameOrder(published[session..])
    requires var from := if session < oldest then oldest else session;
             from < |published| && published[from].sequence <= s
    ensures var i := FindIndex(published[oldest..], s);
            && i >= 0 && session <= oldest + i && published[oldest + i].sequence <= s
            && (forall k :: oldest + i < k < |published| ==> s < published[k].sequence)
  {
    var list := published[oldest..];
    var from := if session < oldest then oldest else session;
    var i := FindIndex(list, s);
    assert list[from - oldest] == published[from];
    SuffixOrdered(published, session, from, from);
    assert i >= from - oldest by {
      assert InForce(list[from - oldest], s);
    }
    assert list[i] == published[oldest + i];
    forall k | oldest + i < k < |published|
      ensures s < published[k].sequence
    {
      SuffixOrdered(published, session, k, k);
      assert list[k - oldest] == published[k] && !InForce(list[k - oldest], s);
    }
  }

  /** Searching the end of a list whose last part is the session, in frame order. */
  lemma {:induction false} ReadSession(published: seq<AiqResult>, session: nat, oldest: nat, s: int)
    requires session <= |published| && oldest <= |published| && InFrameOrder(published[session..])
    requires var from := if session < oldest then oldest else session;
             from < |published| && published[from].sequence <= s
    ensures var list := published[oldest..];
            var i := FindIndex(list, s);
            && i >= 0 && list[i].sequence <= s && session <= oldest + i
            && (forall j :: i < j < |list| ==> s < list[j].sequence)
            && (forall k :: session <= k < |published| && published[k].sequence <= s ==>
                  published[k].sequence <= list[i].sequence)
  {
    FoundInSession(published, session, oldest, s);
    var list := published[oldest..];
    var found := oldest + FindIndex(list, s);
    forall j | found - oldest < j < |list|
      ensures s < list[j].sequence
    {
      assert list[j] == published[oldest + j];
    }
    forall k | session <= k < |published| && published[k].sequence <= s
      ensures published[k].sequence <= published[found].sequence
    {
      SuffixOrdered(published, session, k, found);
    }
  }

  // ------------------------------------------------------------ mode switches

  /** The update that comes with a result leaves room for its copies, immediate or queued. */
  lemma {:induction false} FirstUpdate(cfg: Config, s: State, exps: seq<SensorExposure>, applyingSeq: int)
    requires LagsValid(cfg) && R.Settled(cfg, s) && RoomFor(cfg, s, SKIPS_ON_MODE_CHANGE + 1) && exps != []
    ensures var o := UpdateStep(cfg, s, exps, applyingSeq);
            && R.Settled(cfg, o.next) && RoomFor(cfg, o.next, SKIPS_ON_MODE_CHANGE)
            && BaseEffect(cfg, o.next) == BaseEffect(cfg, s) && o.effect == Reported(cfg, o.next, exps)
  {
    OneMoreUpdate(cfg, s, exps, applyingSeq);
  }

  /** The results published of one: all copies of it but for frame and flag, those before the last flagged. */
  ghost predicate Flagged(results: seq<AiqResult>, r: AiqResult, n: nat) {
    && |results| == n
    && forall i :: 0 <= i < n ==> Plain(results[i]) == Plain(r) && (results[i].skip <==> i < n - 1)
  }

  lemma {:induction false} DoneFlags(cfg: Config, s: State, r: AiqResult, n: nat)
    ensures Flagged(DoneFrom(cfg, s, r, n).1, r, n + 1)
    decreases n
  {
    if n > 0 {
      var o := UpdateStep(cfg, s, r.exposures, -1);
      var next := r.(skip := true, sequence := o.effect);
      DoneFlags(cfg, o.next, next, n - 1);
      DoneFirst(cfg, s, r, n, o, next);
    }
  }

  /** Whatever its exposures, a finished result is published once, or behind three flagged copies, exactly as the mode of
      the latest one says; either way no first result is awaited any more. */
  lemma {:induction false} FinishPublishesIff(cfg: Config, e: Engine, result: AiqResult, applyingSeq: int)
    ensures var next := Step(cfg, e, Finish(result, applyingSeq));
            var switches := !e.first && e.published != [] && e.published[|e.published| - 1].tuningMode != result.tuningMode;
            && e.published <= next.published && !next.first && next.session == e.session
            && Flagged(next.published[|e.published|..], result, if switches then 4 else 1)
            && next.published[|e.published|].sequence == UpdateStep(cfg, e.sensor, result.exposures, applyingSeq).effect
            && (!switches ==> next.sensor == UpdateStep(cfg, e.sensor, result.exposures, applyingSeq).next)
  {
    var o := UpdateStep(cfg, e.sensor, result.exposures, applyingSeq);
    var r := result.(sequence := o.effect);
    var n := SkipNum(e.first, e.published, r);
    DoneFlags(cfg, o.next, r, n);
    var results := DoneFrom(cfg, o.next, r, n).1;
    assert (e.published + results)[|e.published|..] == results;
  }

  /** A run that finds the tuning mode changed publishes three copies to be skipped and a good one on
      consecutive frames, exactly when a frame has been seen or the first statistics are not awaited. */
  lemma {:induction false} ModeSwitchPublishesIff(cfg: Config, e: Engine, result: AiqResult, applyingSeq: int)
    requires LagsValid(cfg) && R.Settled(cfg, e.sensor) && result.exposures != []
    requires RoomFor(cfg, e.sensor, 4)
    requires !e.first && e.published != [] && e.published[|e.published| - 1].tuningMode != result.tuningMode
    ensures var published := Step(cfg, e, Finish(result, applyingSeq)).published;
            var r := result.(sequence := UpdateStep(cfg, e.sensor, result.exposures, applyingSeq).effect);
            && e.published <= published
            && (SkipRun(r, published[|e.published|..], 3) <==> e.sensor.lastSof >= 0 || !cfg.waitFirstStats)
  {
    FirstUpdate(cfg, e.sensor, result.exposures, applyingSeq);
    var o := UpdateStep(cfg, e.sensor, result.exposures, applyingSeq);
    var r := result.(sequence := o.effect);
    var results := DoneFrom(cfg, o.next, r, SKIPS_ON_MODE_CHANGE).1;
    assert (e.published + results)[|e.published|..] == results;
    if BaseEffect(cfg, o.next) > 0 {
      SkipsAreConsecutive(cfg, o.next, r, SKIPS_ON_MODE_CHANGE);
    } else {
      DirectSkipsCoincide(cfg, o.next, r, SKIPS_ON_MODE_CHANGE);
      assert results[1].sequence != r.sequence + 1;
    }
  }

  /** After such a switch readers find, from the first copy's frame on, a result to be skipped for
      exactly three frames and a good one from then on. */
  lemma {:induction false} ModeSwitchSkipsThreeFrames(cfg: Config, e: Engine, result: AiqResult, applyingSeq: int, s: int)
    requires LagsValid(cfg) && R.Settled(cfg, e.sensor) && result.exposures != []
    requires RoomFor(cfg, e.sensor, 4)
    requires !e.first && e.published != [] && e.published[|e.published| - 1].tuningMode != result.tuningMode
    requires e.sensor.lastSof >= 0 || !cfg.waitFirstStats
    requires UpdateStep(cfg, e.sensor, result.exposures, applyingSeq).effect <= s
    ensures var list := Retained(Step(cfg, e, Finish(result, applyingSeq)).published, false);
            var first := UpdateStep(cfg, e.sensor, result.exposures, applyingSeq).effect;
            FindIndex(list, s) >= 0 && (list[FindIndex(list, s)].skip <==> s < first + 3)
  {
    ModeSwitchPublishesIff(cfg, e, result, applyingSeq);
    var published := Step(cfg, e, Finish(result, applyingSeq)).published;
    var r := result.(sequence := UpdateStep(cfg, e.sensor, result.exposures, applyingSeq).effect);
    assert published == e.published + published[|e.published|..];
    ThreeFramesAreSkipped(e.published, r, published[|e.published|..], s);
  }

  // ---------------------------------------------------------------- the backlog

  const MAX_APPLIED_DELAY := 5

  /** Without per-frame control, a run needs a first result to be awaited or its exposure to be applied soon. */
  ghost predicate Throttled(cfg: Config, e: Engine, op: Op) {
    op.UpdateOnly? || op.Finish? ==> e.first || |e.sensor.exposures| + cfg.exposureLag <= MAX_APPLIED_DELAY
  }

  ghost predicate AllThrottled(cfg: Config, h: History) {
    h.Begin? || (AllThrottled(cfg, h.before) && Throttled(cfg, After(cfg, h.before), h.op))
  }

  /** The runs since the last start that failed after their exposure was set, while a first result was awaited. */
  function FailedFirstRuns(cfg: Config, h: History): nat {
    if h.Begin? || h.op.Start? then 0
    else FailedFirstRuns(cfg, h.before) + if h.op.UpdateOnly? && After(cfg, h.before).first then 1 else 0
  }

  /** What the throttle leaves room for, plus one exposure and three skips; none if the lag exceeds the limit. */
  function ThrottleLimit(cfg: Config): int {
    if cfg.exposureLag <= MAX_APPLIED_DELAY then MAX_APPLIED_DELAY - cfg.exposureLag + 1 + SKIPS_ON_MODE_CHANGE else 0
  }

  /** The bound on the queue after `failed` failed first runs. */
  function BacklogLimit(cfg: Config, failed: nat): int {
    if failed + 1 < ThrottleLimit(cfg) then ThrottleLimit(cfg) else failed + 1
  }

  ghost predicate Bounded(cfg: Config, e: Engine, failed: nat) {
    && e.session <= |e.published| && R.Settled(cfg, e.sensor)
    && |e.sensor.exposures| <= BacklogLimit(cfg, failed)
    && (e.first ==> |e.sensor.exposures| <= failed)
  }

  /** Over any run without per-frame control, the queue is bounded by the throttle's limit and by one more
      than the failed first runs; while a first result is awaited, by the failed first runs alone. */
  lemma {:induction false} BacklogStaysBounded(cfg: Config, h: History)
    requires LagsValid(cfg) && Follows(cfg, h) && AllThrottled(cfg, h)
    ensures Bounded(cfg, After(cfg, h), FailedFirstRuns(cfg, h))
  {
    if h.Then? {
      BacklogStaysBounded(cfg, h.before);
      StepBoundsBacklog(cfg, After(cfg, h.before), h.op, FailedFirstRuns(cfg, h.before));
    }
  }

  lemma {:induction false} StepBoundsBacklog(cfg: Config, e: Engine, op: Op, failed: nat)
    requires LagsValid(cfg) && Permits(cfg, e, op) && Throttled(cfg, e, op) && Bounded(cfg, e, failed)
    ensures var failed' := if op.Start? then 0 else failed + if op.UpdateOnly? && e.first then 1 else 0;
            Bounded(cfg, Step(cfg, e, op), failed')
  {
    match op {
      case Sof(_) => NextSofKeepsEnd(e.sensor);
      case UpdateOnly(exps, applyingSeq) => OneMoreUpdate(cfg, e.sensor, exps, applyingSeq);
      case Finish(_, _) => FinishBoundsBacklog(cfg, e, op, failed);
      case Start =>
      case Idle =>
    }
  }

  lemma {:induction false} FinishBoundsBacklog(cfg: Config, e: Engine, op: Op, failed: nat)
    requires LagsValid(cfg) && op.Finish? && Permits(cfg, e, op) && Throttled(cfg, e, op) && Bounded(cfg, e, failed)
    ensures Bounded(cfg, Step(cfg, e, op), failed)
  {
    var result := op.result;
    OneMoreUpdate(cfg, e.sensor, result.exposures, op.applyingSeq);
    var o := UpdateStep(cfg, e.sensor, result.exposures, op.applyingSeq);
    var r := result.(sequence := o.effect);
    DoneStaysInOrder(cfg, o.next, r, SkipNum(e.first, e.published, r));
  }

  /** Nothing else bounds the queue: first runs that keep failing queue one exposure each. */
  lemma {:induction false} FailedFirstRunsQueueUp(cfg: Config, n: nat) returns (h: History)
    requires LagsValid(cfg) && cfg.exposureLag + n + 1 <= INT32_MAX
    ensures Follows(cfg, h) && AllThrottled(cfg, h) && FailedFirstRuns(cfg, h) == n
    ensures var e := After(cfg, h);
            e.first && e.published == [] && e.sensor.lastSof == 0 && R.Settled(cfg, e.sensor) && |e.sensor.exposures| == n
  {
    if n == 0 {
      h := Then(Begin, Sof(0));
      NextSofKeepsEnd(RESET);
      assert Follows(cfg, Begin) && AllThrottled(cfg, Begin);
    } else {
      var before := FailedFirstRunsQueueUp(cfg, n - 1);
      var s := After(cfg, before).sensor;
      R.TurnStep(cfg, s, R.ONE_EXPOSURE, -1);
      h := Then(before, UpdateOnly(R.ONE_EXPOSURE, -1));
    }
  }
}
