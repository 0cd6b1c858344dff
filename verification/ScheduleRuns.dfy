/** Whole runs of the exposure scheduler: the frames reported to callers never go
    back, every queued exposure is written exactly once on the frame it was assigned,
    and its gains are written so that all three take effect on the same frame.
  */
module ScheduleRuns {
  import opened Basics
  import opened Timetable
  import opened ExposureSchedule

  datatype Event = Sof(sof: int) | Update(exps: seq<SensorExposure>, applyingSeq: int)

  function Step(cfg: Config, s: State, ev: Event): Outcome {
    match ev
    case Sof(sof) => SofStep(s, sof)
    case Update(exps, applyingSeq) => UpdateStep(cfg, s, exps, applyingSeq)
  }

  /** A run from reset: the events so far, the latest outermost. */
  datatype History = Reset | Then(before: History, ev: Event)

  /** The scheduler's state after a run from reset. */
  function After(cfg: Config, run: History): State {
    if run.Reset? then RESET else Step(cfg, After(cfg, run.before), run.ev).next
  }

  /** The frames reported to the callers of the run's updates. */
  function Effects(cfg: Config, run: History): seq<int> {
    if run.Reset? then []
    else
      var before, ev := Effects(cfg, run.before), run.ev;
      if ev.Update? then before + [Step(cfg, After(cfg, run.before), ev).effect] else before
  }

  // ------------------------------------------------------- which runs are meant

  /** An update that takes no place in the queue: it carries nothing, or is applied at the current frame. */
  predicate TakesNoTurn(s: State, exps: seq<SensorExposure>, applyingSeq: int) {
    exps == [] || Immediate(s, applyingSeq)
  }

  /** `Paced`: start-of-frame events are consecutive from 0 and numbers fit 32 bits.
      `Booked`: moreover every update is queued. */
  datatype Discipline = Paced | Booked

  ghost predicate Permits(d: Discipline, cfg: Config, s: State, ev: Event) {
    match ev
    case Sof(sof) => sof == s.lastSof + 1
    case Update(exps, applyingSeq) =>
      InRange(cfg, s) && (d == Booked ==> !TakesNoTurn(s, exps, applyingSeq) && BaseEffect(cfg, s) > 0)
  }

  ghost predicate Follows(d: Discipline, cfg: Config, run: History) {
    run.Reset? ||
    (Follows(d, cfg, run.before) && Permits(d, cfg, After(cfg, run.before), run.ev))
  }

  lemma {:induction false} BookedIsPaced(cfg: Config, run: History)
    requires Follows(Booked, cfg, run)
    ensures Follows(Paced, cfg, run)
  {
    if run.Then? {
      BookedIsPaced(cfg, run.before);
    }
  }

  // ------------------------------------------------------------- keys in a row

  /** After any paced run, immediate and empty updates included, the pending exposures
      are exactly the next frames in a row. */
  lemma {:induction false} PendingAreTheNextFrames(cfg: Config, run: History)
    requires LagsValid(cfg) && Follows(Paced, cfg, run)
    ensures var s := After(cfg, run); -1 <= s.lastSof && Contiguous(s)
  {
    if run.Then? {
      PendingAreTheNextFrames(cfg, run.before);
      var s := After(cfg, run.before);
      match run.ev {
        case Sof(sof) => SofKeepsContiguousIff(s, sof);
        case Update(exps, applyingSeq) => UpdateKeepsContiguous(cfg, s, exps, applyingSeq);
      }
    }
  }

  // --------------------------------------------------------- reports never fall

  ghost predicate NonDecreasing(xs: seq<int>) {
    forall i, j :: 0 <= i < j < |xs| ==> xs[i] <= xs[j]
  }

  ghost predicate AllBelow(xs: seq<int>, bound: int) {
    forall x :: x in xs ==> x <= bound
  }

  lemma {:induction false} OneMoreReport(xs: seq<int>, x: int)
    ensures NonDecreasing(xs + [x]) <==> NonDecreasing(xs) && AllBelow(xs, x)
  {
    var ys := xs + [x];
    assert forall i :: 0 <= i < |ys| ==> ys[i] == if i < |xs| then xs[i] else x;
    if NonDecreasing(ys) {
      forall i, j | 0 <= i < j < |xs|
        ensures xs[i] <= xs[j]
      {
        assert ys[i] <= ys[j];
      }
      forall y | y in xs
        ensures y <= x
      {
        var i :| 0 <= i < |xs| && xs[i] == y;
        assert ys[i] <= ys[|xs|];
      }
    }
    if NonDecreasing(xs) && AllBelow(xs, x) {
      forall i, j | 0 <= i < j < |ys|
        ensures ys[i] <= ys[j]
      {
        assert xs[i] in xs;
      }
    }
  }

  /** The initial skip count does not overshoot the first frame a queued update can report. */
  predicate SkipFits(cfg: Config) {
    cfg.waitFirstStats ==> cfg.initialSkipFrame <= cfg.exposureLag + 1
  }

  ghost predicate Settled(cfg: Config, s: State) {
    && -1 <= s.lastSof
    && Contiguous(s)
    && (cfg.waitFirstStats && s.lastSof < 0 ==> s.exposures == map[])
  }

  /** The latest update that took a turn: none yet, one of `count` before the first frame, or a later one. */
  datatype Turn = NoTurn | EarlyTurn(count: nat) | LaterTurn

  function TurnAfter(s: State, turn: Turn, ev: Event): Turn {
    if ev.Sof? || TakesNoTurn(s, ev.exps, ev.applyingSeq) then turn
    else if s.lastSof >= 0 then LaterTurn
    else EarlyTurn(if turn.EarlyTurn? then turn.count + 1 else 1)
  }

  function LastTurn(cfg: Config, run: History): Turn {
    if run.Reset? then NoTurn else TurnAfter(After(cfg, run.before), LastTurn(cfg, run.before), run.ev)
  }

  /** What the last of `count` updates before the first frame reports. */
  function EarlyReport(cfg: Config, count: nat): int {
    if cfg.waitFirstStats then cfg.initialSkipFrame else cfg.exposureLag + count
  }

  /** What an update that takes no turn reports. */
  function AsideReport(cfg: Config, s: State, exps: seq<SensorExposure>): int {
    BaseEffect(cfg, s) + if exps == [] then 0 else |s.exposures|
  }

  /** Whether an update that takes no turn reports a frame no earlier than the reports before it: the updates
      before the first frame have been reached, and an empty update finds the queue empty. */
  predicate AsideFits(cfg: Config, s: State, turn: Turn, exps: seq<SensorExposure>) {
    match turn
    case NoTurn => true
    case EarlyTurn(count) => EarlyReport(cfg, count) <= AsideReport(cfg, s, exps)
    case LaterTurn => exps == [] ==> s.exposures == map[]
  }

  /** Every update of the run that takes no turn fits in. */
  predicate AsidesFit(cfg: Config, run: History) {
    run.Reset? ||
    (var s := After(cfg, run.before);
     && AsidesFit(cfg, run.before)
     && (run.ev.Update? && TakesNoTurn(s, run.ev.exps, run.ev.applyingSeq) ==>
           AsideFits(cfg, s, LastTurn(cfg, run.before), run.ev.exps)))
  }

  /** What the reports so far say about the queue. */
  ghost predicate Told(cfg: Config, s: State, turn: Turn, xs: seq<int>) {
    var queued := BaseEffect(cfg, s) + |s.exposures|;
    && Settled(cfg, s)
    && match turn
       case NoTurn => s.exposures == map[] && AllBelow(xs, queued)
       case EarlyTurn(count) =>
         && 0 < count && EarlyReport(cfg, count) in xs
         && (forall x :: x in xs ==> x <= EarlyReport(cfg, count) || x <= queued)
         && |s.exposures| == (if cfg.waitFirstStats || count <= s.lastSof then 0
                              else if s.lastSof < 0 then count else count - 1 - s.lastSof)
       case LaterTurn =>
         && 0 <= s.lastSof && AllBelow(xs, queued)
         && (s.exposures != map[] ==> queued in xs)
  }

  lemma {:induction false} SofKeepsTold(cfg: Config, s: State, turn: Turn, xs: seq<int>)
    requires LagsValid(cfg) && Told(cfg, s, turn, xs)
    ensures Told(cfg, SofStep(s, s.lastSof + 1).next, turn, xs)
  {
    NextSofKeepsEnd(s);
    assert |s.exposures| == 0 <==> s.exposures == map[];
  }

  /** What such an update does: the queue stays, and the report is the frame due plus the queue if it carries
      an exposure. */
  lemma {:induction false} AsideStep(cfg: Config, s: State, exps: seq<SensorExposure>, applyingSeq: int)
    requires LagsValid(cfg) && -1 <= s.lastSof && InRange(cfg, s) && TakesNoTurn(s, exps, applyingSeq)
    ensures var o := UpdateStep(cfg, s, exps, applyingSeq);
            && o.effect == AsideReport(cfg, s, exps)
            && o.next.lastSof == s.lastSof && o.next.exposures == s.exposures
  {
  }

  lemma {:induction false} AsideKeepsTold(cfg: Config, s: State, turn: Turn, xs: seq<int>, exps: seq<SensorExposure>, applyingSeq: int)
    requires LagsValid(cfg) && Told(cfg, s, turn, xs) && InRange(cfg, s) && TakesNoTurn(s, exps, applyingSeq)
    ensures var o := UpdateStep(cfg, s, exps, applyingSeq);
            && Told(cfg, o.next, turn, xs + [o.effect])
            && (AllBelow(xs, o.effect) <==> AsideFits(cfg, s, turn, exps))
  {
    AsideStep(cfg, s, exps, applyingSeq);
    assert |s.exposures| == 0 <==> s.exposures == map[];
  }

  /** What an update that takes a turn does. */
  lemma {:induction false} TurnStep(cfg: Config, s: State, exps: seq<SensorExposure>, applyingSeq: int)
    requires LagsValid(cfg) && Settled(cfg, s) && InRange(cfg, s) && !TakesNoTurn(s, exps, applyingSeq)
    ensures var o := UpdateStep(cfg, s, exps, applyingSeq);
            && Settled(cfg, o.next) && o.next.lastSof == s.lastSof
            && (BaseEffect(cfg, s) > 0 ==>
                  && |o.next.exposures| == |s.exposures| + 1
                  && o.effect == BaseEffect(cfg, s) + |s.exposures| + 1)
            && (BaseEffect(cfg, s) == 0 ==> o.next == s && o.effect == cfg.initialSkipFrame)
  {
    UpdateKeepsContiguous(cfg, s, exps, applyingSeq);
    if BaseEffect(cfg, s) > 0 {
      QueuedUpdateIsNew(cfg, s, exps, applyingSeq);
    }
  }

  lemma {:induction false} TurnKeepsTold(cfg: Config, s: State, turn: Turn, xs: seq<int>, exps: seq<SensorExposure>, applyingSeq: int)
    requires LagsValid(cfg) && SkipFits(cfg) && Told(cfg, s, turn, xs) && InRange(cfg, s) && !TakesNoTurn(s, exps, applyingSeq)
    ensures var o := UpdateStep(cfg, s, exps, applyingSeq);
            && Told(cfg, o.next, TurnAfter(s, turn, Update(exps, applyingSeq)), xs + [o.effect])
            && AllBelow(xs, o.effect)
  {
    TurnStep(cfg, s, exps, applyingSeq);
    assert |s.exposures| == 0 <==> s.exposures == map[];
  }

  lemma {:induction false} UpdateIsTold(cfg: Config, s: State, turn: Turn, xs: seq<int>, exps: seq<SensorExposure>, applyingSeq: int)
    requires LagsValid(cfg) && SkipFits(cfg) && Told(cfg, s, turn, xs) && InRange(cfg, s)
    ensures var o, aside := UpdateStep(cfg, s, exps, applyingSeq), TakesNoTurn(s, exps, applyingSeq);
            && Told(cfg, o.next, TurnAfter(s, turn, Update(exps, applyingSeq)), xs + [o.effect])
            && (NonDecreasing(xs + [o.effect]) <==> NonDecreasing(xs) && (aside ==> AsideFits(cfg, s, turn, exps)))
  {
    if TakesNoTurn(s, exps, applyingSeq) {
      AsideKeepsTold(cfg, s, turn, xs, exps, applyingSeq);
    } else {
      TurnKeepsTold(cfg, s, turn, xs, exps, applyingSeq);
    }
    OneMoreReport(xs, UpdateStep(cfg, s, exps, applyingSeq).effect);
  }

  lemma {:induction false} EffectsGrow(cfg: Config, before: History, exps: seq<SensorExposure>, applyingSeq: int)
    ensures var run := Then(before, Update(exps, applyingSeq));
            Effects(cfg, run) == Effects(cfg, before) + [UpdateStep(cfg, After(cfg, before), exps, applyingSeq).effect]
  {
  }

  ghost predicate RunTold(cfg: Config, run: History) {
    Told(cfg, After(cfg, run), LastTurn(cfg, run), Effects(cfg, run))
  }

  lemma {:induction false} ToldAfterSof(cfg: Config, before: History)
    requires LagsValid(cfg) && RunTold(cfg, before)
    ensures RunTold(cfg, Then(before, Sof(After(cfg, before).lastSof + 1)))
  {
    SofKeepsTold(cfg, After(cfg, before), LastTurn(cfg, before), Effects(cfg, before));
  }

  lemma {:induction false} ToldAfterUpdate(cfg: Config, before: History, exps: seq<SensorExposure>, applyingSeq: int)
    requires LagsValid(cfg) && SkipFits(cfg) && RunTold(cfg, before) && InRange(cfg, After(cfg, before))
    ensures var run, s := Then(before, Update(exps, applyingSeq)), After(cfg, before);
            && RunTold(cfg, run)
            && (NonDecreasing(Effects(cfg, run)) <==>
                  && NonDecreasing(Effects(cfg, before))
                  && (TakesNoTurn(s, exps, applyingSeq) ==> AsideFits(cfg, s, LastTurn(cfg, before), exps)))
  {
    UpdateIsTold(cfg, After(cfg, before), LastTurn(cfg, before), Effects(cfg, before), exps, applyingSeq);
    EffectsGrow(cfg, before, exps, applyingSeq);
  }

  /** The reported frames of a run never decrease exactly if every update that takes no turn fits in. */
  lemma {:induction false} ReportsFollowTheAsides(cfg: Config, run: History)
    requires LagsValid(cfg) && SkipFits(cfg) && Follows(Paced, cfg, run)
    ensures RunTold(cfg, run)
    ensures NonDecreasing(Effects(cfg, run)) <==> AsidesFit(cfg, run)
  {
    if run.Then? {
      ReportsFollowTheAsides(cfg, run.before);
      match run.ev {
        case Sof(_) => ToldAfterSof(cfg, run.before);
        case Update(exps, applyingSeq) => ToldAfterUpdate(cfg, run.before, exps, applyingSeq);
      }
    }
  }

  /** That is so for all runs, empty and immediate updates included, exactly when the initial skip count of
      wait-first-stats mode fits. */
  lemma {:induction false} ReportsNeverDecreaseIff(cfg: Config)
    requires LagsValid(cfg) && cfg.exposureLag < INT32_MAX
    ensures (forall run :: Follows(Paced, cfg, run) ==> (NonDecreasing(Effects(cfg, run)) <==> AsidesFit(cfg, run)))
            <==> SkipFits(cfg)
  {
    if SkipFits(cfg) {
      forall run | Follows(Paced, cfg, run)
        ensures NonDecreasing(Effects(cfg, run)) <==> AsidesFit(cfg, run)
      {
        ReportsFollowTheAsides(cfg, run);
      }
    } else {
      OvershootingSkip(cfg);
    }
  }

  const ONE_EXPOSURE := [SensorExposure(0, 0, 0, 0, 0, 0, 0)]

  /** One update before the first frame and one after it: the second report is earlier. */
  lemma {:induction false} OvershootingSkip(cfg: Config)
    requires LagsValid(cfg) && cfg.exposureLag < INT32_MAX && !SkipFits(cfg)
    ensures exists run :: Follows(Paced, cfg, run) && AsidesFit(cfg, run) && !NonDecreasing(Effects(cfg, run))
  {
    var sof := SkipThenFrame(cfg);
    var second := Then(sof, Update(ONE_EXPOSURE, -1));
    OneTurn(cfg, sof);
    assert Effects(cfg, second)[0] > Effects(cfg, second)[1];
  }

  /** One more update behind a frame on an empty queue. */
  lemma {:induction false} OneTurn(cfg: Config, before: History)
    requires LagsValid(cfg) && cfg.exposureLag < INT32_MAX && Follows(Paced, cfg, before) && AsidesFit(cfg, before)
    requires After(cfg, before).lastSof == 0 && After(cfg, before).exposures == map[]
    ensures var run := Then(before, Update(ONE_EXPOSURE, -1));
            && Follows(Paced, cfg, run) && AsidesFit(cfg, run)
            && Effects(cfg, run) == Effects(cfg, before) + [cfg.exposureLag + 1]
  {
    FirstReport(cfg, After(cfg, before));
    EffectsGrow(cfg, before, ONE_EXPOSURE, -1);
  }

  lemma {:induction false} FirstReport(cfg: Config, s: State)
    requires LagsValid(cfg) && cfg.exposureLag < INT32_MAX && s.lastSof == 0 && s.exposures == map[]
    ensures InRange(cfg, s) && !TakesNoTurn(s, ONE_EXPOSURE, -1)
    ensures UpdateStep(cfg, s, ONE_EXPOSURE, -1).effect == cfg.exposureLag + 1
  {
    TurnStep(cfg, s, ONE_EXPOSURE, -1);
  }

  lemma {:induction false} SkipThenFrame(cfg: Config) returns (run: History)
    requires LagsValid(cfg) && cfg.exposureLag < INT32_MAX && cfg.waitFirstStats
    ensures Follows(Paced, cfg, run) && AsidesFit(cfg, run) && Effects(cfg, run) == [cfg.initialSkipFrame]
    ensures After(cfg, run).lastSof == 0 && After(cfg, run).exposures == map[]
  {
    var first := Then(Reset, Update(ONE_EXPOSURE, -1));
    TurnStep(cfg, RESET, ONE_EXPOSURE, -1);
    assert Follows(Paced, cfg, Reset) && Effects(cfg, Reset) == [] && AsidesFit(cfg, Reset);
    assert After(cfg, first) == RESET && Follows(Paced, cfg, first) && AsidesFit(cfg, first);
    assert Effects(cfg, first) == [cfg.initialSkipFrame];
    run := Then(first, Sof(0));
  }

  /** An empty update right after the first one reports the frame before. */
  lemma {:induction false} EmptyUpdateReportsEarlier(cfg: Config)
    requires LagsValid(cfg) && cfg.exposureLag < INT32_MAX && !cfg.waitFirstStats
    ensures exists run :: Follows(Paced, cfg, run) && Effects(cfg, run) == [cfg.exposureLag + 1, cfg.exposureLag]
  {
    var first := Then(Reset, Update(ONE_EXPOSURE, -1));
    var second := Then(first, Update([], -1));
    TurnStep(cfg, RESET, ONE_EXPOSURE, -1);
    assert Follows(Paced, cfg, Reset) && Effects(cfg, Reset) == [];
    assert Follows(Paced, cfg, first) && Effects(cfg, first) == [cfg.exposureLag + 1];
    AsideStep(cfg, After(cfg, first), [], -1);
    assert Follows(Paced, cfg, second) && Effects(cfg, second) == [cfg.exposureLag + 1, cfg.exposureLag];
  }

  // --------------------------------------------------------------- the ceiling

  /** No frame reported so far lies beyond this one, and no update that takes a turn reports one before it. */
  function Ceiling(cfg: Config, s: State): int {
    if s.lastSof >= 0 then s.lastSof + cfg.exposureLag + |s.exposures| + 1
    else if cfg.waitFirstStats then cfg.initialSkipFrame
    else cfg.exposureLag + |s.exposures|
  }

  lemma {:induction false} SofRaisesCeiling(cfg: Config, s: State)
    requires LagsValid(cfg) && SkipFits(cfg) && Settled(cfg, s)
    ensures var next := SofStep(s, s.lastSof + 1).next;
            Settled(cfg, next) && Ceiling(cfg, s) <= Ceiling(cfg, next)
  {
    NextSofKeepsEnd(s);
  }

  lemma {:induction false} UpdateRaisesCeiling(cfg: Config, s: State, exps: seq<SensorExposure>, applyingSeq: int)
    requires LagsValid(cfg) && Settled(cfg, s) && InRange(cfg, s)
    ensures var o := UpdateStep(cfg, s, exps, applyingSeq);
            && Settled(cfg, o.next)
            && Ceiling(cfg, s) <= Ceiling(cfg, o.next) && 0 <= o.effect <= Ceiling(cfg, o.next)
            && (!TakesNoTurn(s, exps, applyingSeq) ==> Ceiling(cfg, s) <= o.effect)
  {
    if TakesNoTurn(s, exps, applyingSeq) {
      AsideStep(cfg, s, exps, applyingSeq);
      UpdateKeepsContiguous(cfg, s, exps, applyingSeq);
    } else {
      TurnStep(cfg, s, exps, applyingSeq);
    }
  }

  // -------------------------------------------------------------- exactly once

  function Logged<V>(log: seq<Entry<V>>, t: int, v: Option<V>): seq<Entry<V>> {
    if v.Some? then log + [Entry(t, v.value)] else log
  }

  /** The exposures of a run's updates, in call order. */
  function Requested(run: History): seq<seq<SensorExposure>> {
    if run.Reset? then []
    else
      var before, ev := Requested(run.before), run.ev;
      if ev.Update? then before + [ev.exps] else before
  }

  /** The frames assigned to a run's updates, in call order. */
  function Assigned(cfg: Config, run: History): seq<int> {
    if run.Reset? then []
    else
      var before, ev := Assigned(cfg, run.before), run.ev;
      if ev.Update? then before + [SensorSeq(After(cfg, run.before), ev.applyingSeq)] else before
  }

  /** The exposures written to the sensor, each with the frame that had just started. */
  function ExposureLog(cfg: Config, run: History): seq<Entry<ExposureData>> {
    if run.Reset? then []
    else
      var o := Step(cfg, After(cfg, run.before), run.ev);
      Logged(ExposureLog(cfg, run.before), o.next.lastSof, o.writes.exposure)
  }

  /** What should be written: each update's exposure on its assigned frame. */
  function ExposurePlan(cfg: Config, run: History): seq<Entry<ExposureData>> {
    if run.Reset? then []
    else
      var before, ev := ExposurePlan(cfg, run.before), run.ev;
      if ev.Update? && ev.exps != []
      then before + [Entry(SensorSeq(After(cfg, run.before), ev.applyingSeq), ExposureOf(ev.exps))]
      else before
  }

  /** The two gains that follow an exposure. */
  datatype Gain = Analog | Digital {
    function Pending(s: State): map<int, seq<int>> { if Analog? then s.analog else s.digital }
    function Written(w: Writes): Option<seq<int>> { if Analog? then w.analog else w.digital }
    function Delay(cfg: Config): int { if Analog? then cfg.AnalogDelay() else cfg.DigitalDelay() }
    function Values(cfg: Config, exps: seq<SensorExposure>): seq<int> {
      if Analog? then AnalogGainsOf(exps) else DigitalGainsOf(cfg, exps)
    }
    /** Frames from writing the gain to its effect, as the scheduler counts them: an unset digital lag follows the
        analog one, and an analog lag that is not positive follows the exposure's. */
    function Lag(cfg: Config): int {
      if Digital? && cfg.digitalGainLag >= 0 then cfg.digitalGainLag
      else if cfg.analogGainLag > 0 then cfg.analogGainLag
      else cfg.exposureLag
    }
  }

  function GainLog(g: Gain, cfg: Config, run: History): seq<Entry<seq<int>>> {
    if run.Reset? then []
    else
      var o := Step(cfg, After(cfg, run.before), run.ev);
      Logged(GainLog(g, cfg, run.before), o.next.lastSof, g.Written(o.writes))
  }

  function GainPlan(g: Gain, cfg: Config, run: History): seq<Entry<seq<int>>> {
    if run.Reset? then []
    else
      var before, ev := GainPlan(g, cfg, run.before), run.ev;
      if ev.Update?
      then before + [Entry(SensorSeq(After(cfg, run.before), ev.applyingSeq) + g.Delay(cfg), g.Values(cfg, ev.exps))]
      else before
  }

  ghost predicate AscendingUpTo(xs: seq<int>, bound: int) {
    && (forall i :: 0 <= i < |xs| ==> xs[i] <= bound)
    && (forall i, j :: 0 <= i < j < |xs| ==> xs[i] < xs[j])
  }

  lemma {:induction false} QueueEndNeverFalls(cfg: Config, s: State, ev: Event)
    requires LagsValid(cfg) && Contiguous(s) && -1 <= s.lastSof && Permits(Booked, cfg, s, ev)
    ensures var next := Step(cfg, s, ev).next;
            && s.lastSof + |s.exposures| <= next.lastSof + |next.exposures|
            && (ev.Update? ==>
                  s.lastSof + |s.exposures| < SensorSeq(s, ev.applyingSeq) == next.lastSof + |next.exposures|)
  {
    match ev {
      case Sof(sof) => NextSofKeepsEnd(s);
      case Update(exps, applyingSeq) => QueuedUpdateIsNew(cfg, s, exps, applyingSeq);
    }
  }

  /** Every update is assigned a frame of its own, later than those of the updates before it
      and not beyond the end of the queue. */
  lemma {:induction false} AssignedFramesAreTaken(cfg: Config, run: History)
    requires LagsValid(cfg) && Follows(Booked, cfg, run)
    ensures var s := After(cfg, run); AscendingUpTo(Assigned(cfg, run), s.lastSof + |s.exposures|)
  {
    if run.Then? {
      AssignedFramesAreTaken(cfg, run.before);
      BookedIsPaced(cfg, run.before);
      PendingAreTheNextFrames(cfg, run.before);
      QueueEndNeverFalls(cfg, After(cfg, run.before), run.ev);
    }
  }

  /** The plans follow the calls: entry `i` carries the `i`-th request on its assigned frame. */
  lemma {:induction false} PlansFollowTheCalls(g: Gain, cfg: Config, run: History, i: nat)
    requires Follows(Booked, cfg, run) && i < |Requested(run)|
    ensures |Assigned(cfg, run)| == |Requested(run)| == |ExposurePlan(cfg, run)| == |GainPlan(g, cfg, run)|
    ensures var exps, at := Requested(run)[i], Assigned(cfg, run)[i];
            && exps != []
            && ExposurePlan(cfg, run)[i] == Entry(at, ExposureOf(exps))
            && GainPlan(g, cfg, run)[i] == Entry(at + g.Delay(cfg), g.Values(cfg, exps))
  {
    PlansAsLong(g, cfg, run.before);
    if i < |Requested(run.before)| {
      PlansFollowTheCalls(g, cfg, run.before, i);
    }
  }

  lemma {:induction false} PlansAsLong(g: Gain, cfg: Config, run: History)
    requires Follows(Booked, cfg, run)
    ensures |Assigned(cfg, run)| == |Requested(run)| == |ExposurePlan(cfg, run)| == |GainPlan(g, cfg, run)|
  {
    if run.Then? {
      PlansAsLong(g, cfg, run.before);
    }
  }

  /** No entry of the plan lies beyond `end`. */
  ghost predicate EndsBy<V>(plan: seq<Entry<V>>, end: int) {
    forall e :: e in plan ==> e.at <= end
  }

  lemma {:induction false} PlansEndWithTheQueue(g: Gain, cfg: Config, run: History)
    requires LagsValid(cfg) && Follows(Booked, cfg, run)
    ensures var s := After(cfg, run);
            && EndsBy(ExposurePlan(cfg, run), s.lastSof + |s.exposures|)
            && EndsBy(GainPlan(g, cfg, run), s.lastSof + |s.exposures| + g.Delay(cfg))
  {
    AssignedFramesAreTaken(cfg, run);
    PlansAsLong(g, cfg, run);
    forall i | 0 <= i < |Requested(run)|
      ensures ExposurePlan(cfg, run)[i].at == Assigned(cfg, run)[i]
      ensures GainPlan(g, cfg, run)[i].at == Assigned(cfg, run)[i] + g.Delay(cfg)
    {
      PlansFollowTheCalls(g, cfg, run, i);
    }
  }

  lemma {:induction false} SofWritesExposure(s: State, plan: seq<Entry<ExposureData>>, log: seq<Entry<ExposureData>>)
    requires OnTime(plan, s.lastSof, s.exposures, log)
    ensures var o := SofStep(s, s.lastSof + 1);
            OnTime(plan, o.next.lastSof, o.next.exposures, Logged(log, o.next.lastSof, o.writes.exposure))
  {
    Tick(plan, s.lastSof, s.exposures, log);
  }

  lemma {:induction false} UpdateBooksExposure(
    cfg: Config, s: State, ev: Event, plan: seq<Entry<ExposureData>>, log: seq<Entry<ExposureData>>)
    requires LagsValid(cfg) && Contiguous(s) && -1 <= s.lastSof && ev.Update? && Permits(Booked, cfg, s, ev)
    requires OnTime(plan, s.lastSof, s.exposures, log)
    requires EndsBy(plan, s.lastSof + |s.exposures|)
    ensures var o := UpdateStep(cfg, s, ev.exps, ev.applyingSeq);
            OnTime(plan + [Entry(SensorSeq(s, ev.applyingSeq), ExposureOf(ev.exps))],
                   o.next.lastSof, o.next.exposures, Logged(log, o.next.lastSof, o.writes.exposure))
  {
    QueuedUpdateIsNew(cfg, s, ev.exps, ev.applyingSeq);
    Book(plan, s.lastSof, s.exposures, log, Entry(SensorSeq(s, ev.applyingSeq), ExposureOf(ev.exps)));
  }

  /** Every exposure asked for is written exactly once, in call order, when its frame starts:
      the log and the pending map split the plan at the current frame. */
  lemma {:induction false} ExposuresAreWrittenOnce(cfg: Config, run: History)
    requires LagsValid(cfg) && Follows(Booked, cfg, run)
    ensures var s := After(cfg, run);
            OnTime(ExposurePlan(cfg, run), s.lastSof, s.exposures, ExposureLog(cfg, run))
  {
    if run.Then? {
      var before := run.before;
      var s, plan, log := After(cfg, before), ExposurePlan(cfg, before), ExposureLog(cfg, before);
      ExposuresAreWrittenOnce(cfg, before);
      if run.ev.Sof? {
        SofWritesExposure(s, plan, log);
      } else {
        BookedIsPaced(cfg, before);
        PendingAreTheNextFrames(cfg, before);
        PlansEndWithTheQueue(Analog, cfg, before);
        UpdateBooksExposure(cfg, s, run.ev, plan, log);
      }
    }
  }

  /** When the gain of an update is due. */
  function DueAt(g: Gain, cfg: Config, s: State, ev: Event): int
    requires ev.Update?
  {
    SensorSeq(s, ev.applyingSeq) + g.Delay(cfg)
  }

  /** A queued update books its gain, or writes it at once if it is due at the current frame. */
  lemma {:induction false} UpdateQueuesGain(g: Gain, cfg: Config, s: State, ev: Event)
    requires LagsValid(cfg) && ev.Update? && Permits(Booked, cfg, s, ev)
    ensures var o, at, gains := Step(cfg, s, ev), DueAt(g, cfg, s, ev), g.Values(cfg, ev.exps);
            && o.next.lastSof == s.lastSof
            && if at == s.lastSof then g.Written(o.writes) == Some(gains) && g.Pending(o.next) == g.Pending(s)
               else g.Written(o.writes) == None && g.Pending(o.next) == g.Pending(s)[at := gains]
  {
  }

  lemma {:induction false} UpdateBooksGain(
    g: Gain, cfg: Config, s: State, ev: Event, plan: seq<Entry<seq<int>>>, log: seq<Entry<seq<int>>>)
    requires LagsValid(cfg) && ev.Update? && s.lastSof <= DueAt(g, cfg, s, ev)
    requires Permits(Booked, cfg, s, ev) && OnTime(plan, s.lastSof, g.Pending(s), log)
    requires EndsBy(plan, s.lastSof + |s.exposures| + g.Delay(cfg))
    ensures var o := Step(cfg, s, ev);
            OnTime(plan + [Entry(DueAt(g, cfg, s, ev), g.Values(cfg, ev.exps))],
                   o.next.lastSof, g.Pending(o.next), Logged(log, o.next.lastSof, g.Written(o.writes)))
  {
    UpdateQueuesGain(g, cfg, s, ev);
    var e := Entry(DueAt(g, cfg, s, ev), g.Values(cfg, ev.exps));
    if e.at == s.lastSof {
      DeliverAtOnce(plan, s.lastSof, g.Pending(s), log, e);
    } else {
      Book(plan, s.lastSof, g.Pending(s), log, e);
    }
  }

  lemma {:induction false} SofWritesGain(g: Gain, cfg: Config, s: State, plan: seq<Entry<seq<int>>>, log: seq<Entry<seq<int>>>)
    requires OnTime(plan, s.lastSof, g.Pending(s), log)
    ensures var o := SofStep(s, s.lastSof + 1);
            OnTime(plan, o.next.lastSof, g.Pending(o.next), Logged(log, o.next.lastSof, g.Written(o.writes)))
  {
    Tick(plan, s.lastSof, g.Pending(s), log);
  }

  ghost predicate GainsOnTime(g: Gain, cfg: Config, run: History) {
    var s := After(cfg, run);
    OnTime(GainPlan(g, cfg, run), s.lastSof, g.Pending(s), GainLog(g, cfg, run))
  }

  /** Every update comes no later than the frame its gain is due at. */
  predicate GainsFit(g: Gain, cfg: Config, run: History) {
    run.Reset? ||
    (var s := After(cfg, run.before);
     GainsFit(g, cfg, run.before) && (run.ev.Update? ==> s.lastSof <= DueAt(g, cfg, s, run.ev)))
  }

  /** A gain whose frame is over; no later frame writes it. */
  ghost predicate Overdue(g: Gain, s: State) {
    exists k :: k in g.Pending(s) && k <= s.lastSof
  }

  lemma {:induction false} GainPlanGrows(g: Gain, cfg: Config, before: History, ev: Event)
    requires ev.Update?
    ensures GainPlan(g, cfg, Then(before, ev)) ==
            GainPlan(g, cfg, before) + [Entry(DueAt(g, cfg, After(cfg, before), ev), g.Values(cfg, ev.exps))]
  {
  }

  lemma {:induction false} GainsAfterSof(g: Gain, cfg: Config, before: History)
    requires GainsOnTime(g, cfg, before)
    ensures GainsOnTime(g, cfg, Then(before, Sof(After(cfg, before).lastSof + 1)))
  {
    SofWritesGain(g, cfg, After(cfg, before), GainPlan(g, cfg, before), GainLog(g, cfg, before));
  }

  lemma {:induction false} GainsAfterUpdate(g: Gain, cfg: Config, before: History, ev: Event)
    requires LagsValid(cfg) && ev.Update?
    requires var s := After(cfg, before);
             && Permits(Booked, cfg, s, ev) && GainsOnTime(g, cfg, before)
             && s.lastSof <= DueAt(g, cfg, s, ev)
             && EndsBy(GainPlan(g, cfg, before), s.lastSof + |s.exposures| + g.Delay(cfg))
    ensures GainsOnTime(g, cfg, Then(before, ev))
  {
    var s, plan, log := After(cfg, before), GainPlan(g, cfg, before), GainLog(g, cfg, before);
    UpdateBooksGain(g, cfg, s, ev, plan, log);
    GainPlanGrows(g, cfg, before, ev);
  }

  /** The same for each gain, its delay after the exposure. */
  lemma {:induction false} FittingGainsAreOnTime(g: Gain, cfg: Config, run: History)
    requires LagsValid(cfg) && Follows(Booked, cfg, run) && GainsFit(g, cfg, run)
    ensures GainsOnTime(g, cfg, run)
  {
    if run.Then? {
      FittingGainsAreOnTime(g, cfg, run.before);
      if run.ev.Sof? {
        GainsAfterSof(g, cfg, run.before);
      } else {
        PlansEndWithTheQueue(g, cfg, run.before);
        GainsAfterUpdate(g, cfg, run.before, run.ev);
      }
    }
  }

  lemma {:induction false} StepKeepsOverdue(g: Gain, cfg: Config, s: State, ev: Event)
    requires LagsValid(cfg) && Permits(Booked, cfg, s, ev)
    requires Overdue(g, s) || (ev.Update? && DueAt(g, cfg, s, ev) < s.lastSof)
    ensures Overdue(g, Step(cfg, s, ev).next)
  {
    var next := Step(cfg, s, ev).next;
    if ev.Sof? {
      var k :| k in g.Pending(s) && k <= s.lastSof;
      assert k in g.Pending(next);
    } else {
      UpdateQueuesGain(g, cfg, s, ev);
      if Overdue(g, s) {
        var k :| k in g.Pending(s) && k <= s.lastSof;
        assert k in g.Pending(next);
      } else {
        assert DueAt(g, cfg, s, ev) in g.Pending(next);
      }
    }
  }

  lemma {:induction false} LateGainStaysOverdue(g: Gain, cfg: Config, run: History)
    requires LagsValid(cfg) && Follows(Booked, cfg, run) && !GainsFit(g, cfg, run)
    ensures Overdue(g, After(cfg, run))
  {
    if !GainsFit(g, cfg, run.before) {
      LateGainStaysOverdue(g, cfg, run.before);
    }
    StepKeepsOverdue(g, cfg, After(cfg, run.before), run.ev);
  }

  /** Each gain is written exactly once, in call order, its delay after the exposure, exactly if no update comes
      after the frame its gain is due at; otherwise a gain stays behind that no later frame writes. */
  lemma {:induction false} GainsAreWrittenOnceIff(g: Gain, cfg: Config, run: History)
    requires LagsValid(cfg) && Follows(Booked, cfg, run)
    ensures GainsOnTime(g, cfg, run) <==> GainsFit(g, cfg, run)
    ensures Overdue(g, After(cfg, run)) <==> !GainsFit(g, cfg, run)
  {
    if GainsFit(g, cfg, run) {
      FittingGainsAreOnTime(g, cfg, run);
    } else {
      LateGainStaysOverdue(g, cfg, run);
    }
  }

  /** With a gain lag at most one frame longer than the exposure lag no update comes too late. */
  lemma {:induction false} ShortDelaysFit(g: Gain, cfg: Config, run: History)
    requires LagsValid(cfg) && Follows(Booked, cfg, run) && -1 <= g.Delay(cfg)
    ensures GainsFit(g, cfg, run)
  {
    if run.Then? {
      ShortDelaysFit(g, cfg, run.before);
      BookedIsPaced(cfg, run.before);
      PendingAreTheNextFrames(cfg, run.before);
    }
  }

  /** Over all runs of queued updates every gain is written once and on time exactly if its lag exceeds the
      exposure lag by at most one frame. */
  lemma {:induction false} GainsAreWrittenOnce(g: Gain, cfg: Config)
    requires LagsValid(cfg) && cfg.exposureLag < INT32_MAX
    ensures (forall run :: Follows(Booked, cfg, run) ==> GainsOnTime(g, cfg, run)) <==> -1 <= g.Delay(cfg)
  {
    if -1 <= g.Delay(cfg) {
      forall run | Follows(Booked, cfg, run)
        ensures GainsOnTime(g, cfg, run)
      {
        ShortDelaysFit(g, cfg, run);
        GainsAreWrittenOnceIff(g, cfg, run);
      }
    } else {
      var run := LateGain(g, cfg);
      GainsAreWrittenOnceIff(g, cfg, run);
    }
  }

  /** A longer lag loses the gain of the first update after the first frame, wait-first-stats mode or not. */
  lemma {:induction false} LateGain(g: Gain, cfg: Config) returns (run: History)
    requires LagsValid(cfg) && cfg.exposureLag < INT32_MAX && g.Delay(cfg) < -1
    ensures Follows(Booked, cfg, run) && !GainsFit(g, cfg, run)
    ensures GainLog(g, cfg, run) == [] && |GainPlan(g, cfg, run)| == 1 && Overdue(g, After(cfg, run))
  {
    var sof := Then(Reset, Sof(0));
    var ev := Update(ONE_EXPOSURE, -1);
    assert Follows(Booked, cfg, Reset) && GainLog(g, cfg, Reset) == [] && GainPlan(g, cfg, Reset) == [];
    var s := After(cfg, sof);
    assert s.lastSof == 0 && s.exposures == Without(RESET.exposures, 0) == map[];
    assert Follows(Booked, cfg, sof) && GainLog(g, cfg, sof) == [] && GainPlan(g, cfg, sof) == [];
    run := Then(sof, ev);
    FirstReport(cfg, s);
    UpdateQueuesGain(g, cfg, s, ev);
    StepKeepsOverdue(g, cfg, s, ev);
    GainPlanGrows(g, cfg, sof, ev);
  }

  /** An exposure and both its gains take effect together: each is written on the frame that lies its own lag
      before `frame`, and is in the log as soon as that frame starts. */
  lemma {:induction false} GainsTakeEffectWithTheExposure(cfg: Config, run: History, i: nat, g: Gain)
    requires LagsValid(cfg) && Follows(Booked, cfg, run) && GainsFit(g, cfg, run) && i < |Requested(run)|
    ensures |Assigned(cfg, run)| == |Requested(run)| && Requested(run)[i] != []
    ensures var exps, now := Requested(run)[i], After(cfg, run).lastSof;
            var frame := Assigned(cfg, run)[i] + cfg.exposureLag;
            var exposures, gains := ExposureLog(cfg, run), GainLog(g, cfg, run);
            && (i < |exposures| <==> frame - cfg.exposureLag <= now)
            && (i < |gains| <==> frame - g.Lag(cfg) <= now)
            && (i < |exposures| ==> exposures[i] == Entry(frame - cfg.exposureLag, ExposureOf(exps)))
            && (i < |gains| ==> gains[i] == Entry(frame - g.Lag(cfg), g.Values(cfg, exps)))
  {
    PlansFollowTheCalls(g, cfg, run, i);
    ExposuresAreWrittenOnce(cfg, run);
    GainsAreWrittenOnceIff(g, cfg, run);
    var s := After(cfg, run);
    DeliveredOnceDue(ExposurePlan(cfg, run), s.lastSof, s.exposures, ExposureLog(cfg, run), i);
    DeliveredOnceDue(GainPlan(g, cfg, run), s.lastSof, g.Pending(s), GainLog(g, cfg, run), i);
  }

  /** An analog gain lag of 0 is taken for none: the gain goes out with its exposure, and the digital gain with it
      if it has no lag of its own.  A digital gain lag of 0 is one: that gain goes out the exposure lag later. */
  lemma {:induction false} ZeroLags(cfg: Config, run: History, i: nat)
    requires LagsValid(cfg) && Follows(Booked, cfg, run) && i < |Requested(run)|
    requires cfg.analogGainLag <= 0 && cfg.digitalGainLag <= 0
    ensures |Assigned(cfg, run)| == |Requested(run)|
    ensures var at, now := Assigned(cfg, run)[i], After(cfg, run).lastSof;
            var later := at + if cfg.digitalGainLag == 0 then cfg.exposureLag else 0;
            var exposures, analog, digital := ExposureLog(cfg, run), GainLog(Analog, cfg, run), GainLog(Digital, cfg, run);
            && (i < |exposures| <==> at <= now) && (i < |analog| <==> at <= now) && (i < |digital| <==> later <= now)
            && (at <= now ==> exposures[i].at == analog[i].at == at)
            && (later <= now ==> digital[i].at == later)
  {
    ShortDelaysFit(Analog, cfg, run);
    ShortDelaysFit(Digital, cfg, run);
    GainsTakeEffectWithTheExposure(cfg, run, i, Analog);
    GainsTakeEffectWithTheExposure(cfg, run, i, Digital);
  }

  // -------------------------------------------------------- immediate updates

  /** An update applied at the current frame leaves the queue alone, and the frame it
      reports is the one it takes effect on exactly when nothing is queued. */
  lemma {:induction false} ImmediateReportExactIff(cfg: Config, s: State, exps: seq<SensorExposure>)
    requires LagsValid(cfg) && InRange(cfg, s) && 0 < s.lastSof && exps != []
    ensures var o := UpdateStep(cfg, s, exps, s.lastSof);
            && o.writes.exposure == Some(ExposureOf(exps))
            && o.next.exposures == s.exposures
            && (o.effect == s.lastSof + cfg.exposureLag <==> s.exposures == map[])
  {
    assert |s.exposures| == 0 <==> s.exposures == map[];
  }

  /** It replaces a gain of an exposure still queued exactly when one is due after the
      gain's delay: the replaced gain is then never written. */
  lemma {:induction false} ImmediateUpdateDropsGainIff(g: Gain, cfg: Config, s: State, exps: seq<SensorExposure>)
    requires LagsValid(cfg) && InRange(cfg, s) && 0 < s.lastSof && exps != []
    ensures var next := g.Pending(UpdateStep(cfg, s, exps, s.lastSof).next);
            var pending, k := g.Pending(s), s.lastSof + g.Delay(cfg);
            (exists j :: j in pending && (j !in next || next[j] != pending[j])) <==>
            g.Delay(cfg) != 0 && k in pending && pending[k] != g.Values(cfg, exps)
  {
    var next := g.Pending(UpdateStep(cfg, s, exps, s.lastSof).next);
    var pending, k := g.Pending(s), s.lastSof + g.Delay(cfg);
    if g.Delay(cfg) != 0 && k in pending && pending[k] != g.Values(cfg, exps) {
      assert k in pending && next[k] != pending[k];
    }
  }
}
