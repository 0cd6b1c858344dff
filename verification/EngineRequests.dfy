/** Requests to the 3A engine over whole runs: which of them compute a result, which publish a copy of the last
    one computed, and how long such a copy is still that result. */
module EngineRequests {
  import opened Basics
  import opened ExposureSchedule
  import opened Tonemaps
  import opened ResultLists
  import opened EngineRuns
  import opened FullResults

  type Interval = i: int | i != 0 witness 1

  datatype Platform = Platform(sensor: Config, perFrame: bool, interval: Interval, library: Library)

  /** What the settings and the foreign algorithms give to one request: the parameters its slot gets, the
      exposures, the content its slot has once the algorithms ran or failed behind the exposures, and the tone
      curves in the settings by then. */
  datatype Algorithms = Algorithms(
    paramsOk: bool, cadence: Interval, prepareOk: bool, parameters: Parameters,
    aeOk: bool, exposures: seq<SensorExposure>, aiqOk: bool, content: Content, curves: int)

  /** `stats` is the frame of the statistics that are current when the request comes. */
  datatype Request = Request(requestId: int, applyingSeq: int, stats: Option<int>, ext: Algorithms)

  /** The engine with what it remembers: what the history slot holds, the last result computed with its place among
      the published ones, the cadence of the requests it serves, and the statistics that result was computed from.
      The history slot is the slot of that place. */
  datatype Memory = Memory(engine: Engine, history: AiqResult, full: AiqResult, fullAt: nat, cadence: Interval, lastStats: int)
  {
    /** The slot to be acquired next is the history slot. */
    predicate Own() { SlotOf(|engine.published|) == SlotOf(fullAt) }
  }

  /** Whether a request needs a run of its own. */
  predicate Needs(pf: Platform, m: Memory, req: Request) {
    || pf.perFrame
    || m.engine.first
    || (&& req.requestId % m.cadence == 0
        && req.stats.Some? && req.stats.value != m.lastStats
        && |m.engine.sensor.exposures| + pf.sensor.exposureLag <= MAX_APPLIED_DELAY)
  }

  /** Whether a request is one to run all the algorithms. */
  predicate FullRun(pf: Platform, m: Memory, req: Request) {
    req.requestId % pf.interval == 0 || m.engine.first
  }

  function Handled(lib: Library, curves: int, r: AiqResult): AiqResult {
    r.(content := Toned(lib, curves, r.parameters, r.content))
  }

  function WithParameters(r: AiqResult, p: Parameters): AiqResult {
    r.(parameters := p, tuningMode := p.tuningMode)
  }

  /** The history slot once a needed request has prepared the slot it acquired. */
  function Prepared(m: Memory, p: Parameters): AiqResult {
    if m.Own() then WithParameters(m.history, p) else m.history
  }

  /** What the algorithms compute. */
  function Computed(req: Request): AiqResult {
    var ext := req.ext;
    AiqResult(0, false, req.requestId, ext.parameters.tuningMode, ext.exposures, ext.parameters, ext.content)
  }

  /** What a needed request amounts to: nothing, an exposure update that is queued before the algorithms fail, or a
      result, computed or copied from the history slot. */
  function OpNeeded(pf: Platform, m: Memory, req: Request): Op {
    var ext := req.ext;
    if !ext.paramsOk || !ext.prepareOk then Idle
    else if !FullRun(pf, m, req) then
      Finish(Handled(pf.library, ext.curves, Prepared(m, ext.parameters)), req.applyingSeq)
    else if !ext.aeOk then Idle
    else if !ext.aiqOk then UpdateOnly(ext.exposures, req.applyingSeq)
    else Finish(Handled(pf.library, ext.curves, Computed(req)), req.applyingSeq)
  }

  function OpOf(pf: Platform, m: Memory, req: Request): Op {
    if Needs(pf, m, req) then OpNeeded(pf, m, req) else Idle
  }

  /** Whether `published` results leave the history slot to one behind the first `n`. */
  predicate Rewritten(published: nat, n: nat, fullAt: nat) {
    fullAt < published && LatestSharing(published, fullAt) >= n
  }

  /** What the history slot holds after a needed request that computed no result. */
  function HistoryAfter(pf: Platform, m: Memory, req: Request): AiqResult {
    var op, prepared := OpNeeded(pf, m, req), Prepared(m, req.ext.parameters);
    if op.Finish? then
      if Rewritten(|Step(pf.sensor, m.engine, op).published|, |m.engine.published|, m.fullAt) then op.result else prepared
    else if op.UpdateOnly? && m.Own() then prepared.(exposures := req.ext.exposures, content := req.ext.content)
    else prepared
  }

  /** The statistics a request reads, or -1: while a first result is awaited none are looked at. */
  function StatsRead(m: Memory, req: Request): int {
    if m.engine.first || req.stats.None? then -1 else req.stats.value
  }

  function ServeNeeded(pf: Platform, m: Memory, req: Request): Memory {
    var op, cadence := OpNeeded(pf, m, req), if req.ext.paramsOk then req.ext.cadence else m.cadence;
    var engine := Step(pf.sensor, m.engine, op);
    if op.Finish? && FullRun(pf, m, req) then
      Memory(engine, op.result, op.result, |m.engine.published|, cadence, StatsRead(m, req))
    else
      Memory(engine, HistoryAfter(pf, m, req), m.full, m.fullAt, cadence, m.lastStats)
  }

  function Serve(pf: Platform, m: Memory, req: Request): Memory {
    if Needs(pf, m, req) then ServeNeeded(pf, m, req) else m
  }

  // -------------------------------------------------------------------- runs

  datatype Event = Frame(sof: int) | Restart | Ask(req: Request)

  datatype Run = Fresh | Later(before: Run, ev: Event)

  const NOTHING := Memory(FRESH, Plain(NO_RESULT), Plain(NO_RESULT), 0, 1, 0)

  function Next(pf: Platform, m: Memory, ev: Event): Memory {
    match ev
    case Frame(sof) => m.(engine := Step(pf.sensor, m.engine, Sof(sof)))
    case Restart => m.(engine := Step(pf.sensor, m.engine, Start))
    case Ask(req) => Serve(pf, m, req)
  }

  function At(pf: Platform, run: Run): Memory {
    if run.Fresh? then NOTHING else Next(pf, At(pf, run.before), run.ev)
  }

  /** The event has the algorithms compute a result. */
  predicate Computes(pf: Platform, m: Memory, ev: Event) {
    ev.Ask? && FullRun(pf, m, ev.req) && OpOf(pf, m, ev.req).Finish?
  }

  /** What holds of the memory over every run. */
  ghost predicate Sane(pf: Platform, m: Memory) {
    && m.history == Plain(m.history) && m.full == Plain(m.full) && m.history.frameId == m.full.frameId
    && (!m.engine.first ==>
          && m.fullAt < |m.engine.published|
          && m.full.tuningMode == m.full.parameters.tuningMode
          && (exists curves :: Handled(pf.library, curves, m.full) == m.full)
          && (|m.engine.published| < m.fullAt + STORAGE_SIZE ==> m.history == m.full))
  }

  lemma {:induction false} FinishGrows(cfg: Config, e: Engine, op: Op)
    requires op.Finish?
    ensures var next := Step(cfg, e, op);
            && !next.first && e.published < next.published
            && AllCopies(next.published[|e.published|..], op.result)
  {
    var o := UpdateStep(cfg, e.sensor, op.result.exposures, op.applyingSeq);
    var r := op.result.(sequence := o.effect);
    var n := SkipNum(e.first, e.published, r);
    DoneCopies(cfg, o.next, r, n);
    var results := DoneFrom(cfg, o.next, r, n).1;
    assert (e.published + results)[|e.published|..] == results;
  }

  lemma {:induction false} FinishIsLonger(cfg: Config, e: Engine, op: Op)
    requires op.Finish?
    ensures |e.published| < |Step(cfg, e, op).published|
  {
    FinishGrows(cfg, e, op);
  }

  lemma {:induction false} ComputingIsSane(pf: Platform, m: Memory, req: Request)
    requires Computes(pf, m, Ask(req))
    ensures Sane(pf, Serve(pf, m, req)) && Serve(pf, m, req).history == Serve(pf, m, req).full
  {
    FinishGrows(pf.sensor, m.engine, OpOf(pf, m, req));
    TonedTwice(pf.library, req.ext.curves, req.ext.parameters, req.ext.content);
    var full := Serve(pf, m, req).full;
    assert Handled(pf.library, req.ext.curves, full) == full;
  }

  /** While fewer than forty results were published from the full one on, its slot is not handed out. */
  lemma {:induction false} OwnIff(n: nat, fullAt: nat)
    requires fullAt < n <= fullAt + STORAGE_SIZE
    ensures SlotOf(n) == SlotOf(fullAt) <==> n == fullAt + STORAGE_SIZE
  {
    SlotsAdvance(n);
  }

  lemma {:induction false} OtherRequestIsSane(pf: Platform, m: Memory, req: Request)
    requires Sane(pf, m) && !Computes(pf, m, Ask(req))
    ensures Sane(pf, Serve(pf, m, req))
  {
    var op, next := OpOf(pf, m, req), Serve(pf, m, req);
    if op.Finish? {
      FinishGrows(pf.sensor, m.engine, op);
    }
    if !next.engine.first && |next.engine.published| < m.fullAt + STORAGE_SIZE {
      OwnIff(|m.engine.published|, m.fullAt);
      LatestIsFirst(|next.engine.published|, m.fullAt);
    }
  }

  lemma {:induction false} RunsAreSane(pf: Platform, run: Run)
    ensures Sane(pf, At(pf, run))
  {
    if run.Later? {
      RunsAreSane(pf, run.before);
      var m := At(pf, run.before);
      if Computes(pf, m, run.ev) {
        ComputingIsSane(pf, m, run.ev.req);
      } else if run.ev.Ask? {
        OtherRequestIsSane(pf, m, run.ev.req);
      }
    }
  }

  /** Over any run, while fewer than forty results were published from the last full one on, the history slot
      holds that result and is not handed out. */
  lemma {:induction false} HistoryIsFull(pf: Platform, run: Run)
    requires var m := At(pf, run); !m.engine.first && |m.engine.published| < m.fullAt + 40
    ensures var m := At(pf, run); m.history == m.full && !m.Own()
  {
    RunsAreSane(pf, run);
    OwnIff(|At(pf, run).engine.published|, At(pf, run).fullAt);
  }

  /** Whatever it holds by then, a copy bears the number of the request that computed the last full result. */
  lemma {:induction false} CopyBearsTheNumber(pf: Platform, run: Run, req: Request)
    requires var m := At(pf, run); OpOf(pf, m, req).Finish? && !FullRun(pf, m, req)
    ensures OpOf(pf, At(pf, run), req).result.frameId == At(pf, run).full.frameId
  {
    RunsAreSane(pf, run);
  }

  /** The engine operations of a run. */
  function OpsOf(pf: Platform, run: Run): History {
    match run
    case Fresh => Begin
    case Later(before, Frame(sof)) => Then(OpsOf(pf, before), Sof(sof))
    case Later(before, Restart) => Then(OpsOf(pf, before), Start)
    case Later(before, Ask(req)) => Then(OpsOf(pf, before), OpOf(pf, At(pf, before), req))
  }

  /** What holds over all histories of engine operations holds over all runs of requests. */
  lemma {:induction false} RunsAreHistories(pf: Platform, run: Run)
    ensures After(pf.sensor, OpsOf(pf, run)) == At(pf, run).engine
  {
    if run.Later? {
      RunsAreHistories(pf, run.before);
    }
  }

  // ------------------------------------------------------ which requests are served

  /** Under per-frame control every request is served; while a first result is awaited every one is, by running all the
      algorithms; otherwise one is served exactly if it is on the cadence, comes with statistics other than those last
      computed from, and finds a setting applied at the end of the queue within five frames. */
  lemma {:induction false} ServedIff(pf: Platform, m: Memory, req: Request)
    requires req.ext.paramsOk && req.ext.prepareOk && req.ext.aeOk
    ensures OpOf(pf, m, req) != Idle <==>
            || pf.perFrame || m.engine.first
            || (&& req.requestId % m.cadence == 0 && req.stats.Some? && req.stats.value != m.lastStats
                && |m.engine.sensor.exposures| + pf.sensor.exposureLag <= 5)
  {
  }

  /** What serving a request does, case by case. */
  lemma {:induction false} ServedRequest(pf: Platform, m: Memory, req: Request)
    requires Needs(pf, m, req)
    ensures var ext, full, next := req.ext, req.requestId % pf.interval == 0 || m.engine.first, Serve(pf, m, req);
            var was, e := m.engine, next.engine;
            && (ext.paramsOk ==> next.cadence == ext.cadence) && (!ext.paramsOk ==> next.cadence == m.cadence)
            && (!ext.paramsOk || !ext.prepareOk || (full && !ext.aeOk) ==> e == was && next.lastStats == m.lastStats)
            && (ext.paramsOk && ext.prepareOk && full && ext.aeOk && !ext.aiqOk ==>
                  && e == was.(sensor := UpdateStep(pf.sensor, was.sensor, ext.exposures, req.applyingSeq).next)
                  && next.lastStats == m.lastStats)
            && (ext.paramsOk && ext.prepareOk && (full ==> ext.aeOk && ext.aiqOk) ==>
                  && was.published < e.published && !e.first
                  && var r := e.published[|was.published|];
                     && r.sequence == UpdateStep(pf.sensor, was.sensor, r.exposures, req.applyingSeq).effect
                     && (full ==>
                           && r.frameId == req.requestId && r.exposures == ext.exposures && r.parameters == ext.parameters
                           && r.tuningMode == ext.parameters.tuningMode
                           && r.content == Toned(pf.library, ext.curves, ext.parameters, ext.content)
                           && next.lastStats == if was.first || req.stats.None? then -1 else req.stats.value)
                     && (!full ==>
                           && r.frameId == m.history.frameId && r.exposures == m.history.exposures
                           && r.content == Toned(pf.library, ext.curves, r.parameters, m.history.content)
                           && next.lastStats == m.lastStats))
  {
    var op := OpNeeded(pf, m, req);
    if op.Finish? {
      FinishPublishesIff(pf.sensor, m.engine, op.result, op.applyingSeq);
      var r := Serve(pf, m, req).engine.published[|m.engine.published|];
      assert Serve(pf, m, req).engine.published[|m.engine.published|..][0] == r;
      assert Plain(r) == Plain(op.result);
    }
  }

  /** The events behind `base` are frames, and requests that come without statistics, with those of frame `s`, or off
      the cadence `c`. */
  predicate OnlyStale(run: Run, base: Run, s: int, c: Interval) {
    run == base ||
    (run.Later? && OnlyStale(run.before, base, s, c) &&
     match run.ev
     case Frame(_) => true
     case Restart => false
     case Ask(req) => req.stats.None? || req.stats.value == s || req.requestId % c != 0)
  }

  lemma {:induction false} StaleRequestIsIdle(pf: Platform, m: Memory, req: Request)
    requires !pf.perFrame && !m.engine.first
    requires req.stats.None? || req.stats.value == m.lastStats || req.requestId % m.cadence != 0
    ensures OpOf(pf, m, req) == Idle && Serve(pf, m, req) == m
  {
  }

  /** Over whole runs without per-frame control, once a result was computed from the statistics of frame `s`, no request is
      served before the next start unless it comes with other statistics, and none off the cadence that came with that
      result: the published results, the cadence and the statistics stay. */
  lemma {:induction false} StatisticsAreUsedOnce(pf: Platform, run: Run, base: Run, s: int)
    requires !pf.perFrame && base.Later? && Computes(pf, At(pf, base.before), base.ev)
    requires s == if At(pf, base.before).engine.first || base.ev.req.stats.None? then -1 else base.ev.req.stats.value
    requires OnlyStale(run, base, s, base.ev.req.ext.cadence)
    ensures var m := At(pf, run);
            && !m.engine.first && m.engine.published == At(pf, base).engine.published
            && m.lastStats == s && m.cadence == base.ev.req.ext.cadence
    ensures forall req: Request :: req.stats.None? || req.stats.value == s || req.requestId % base.ev.req.ext.cadence != 0 ==>
              OpOf(pf, At(pf, run), req) == Idle
  {
    if run == base {
      FinishGrows(pf.sensor, At(pf, base.before).engine, OpOf(pf, At(pf, base.before), base.ev.req));
    } else {
      StatisticsAreUsedOnce(pf, run.before, base, s);
      if run.ev.Ask? {
        StaleRequestIsIdle(pf, At(pf, run.before), run.ev.req);
      }
    }
  }

  /** On the cadence and with other statistics a request is served, unless the queue is too long. */
  lemma {:induction false} OtherStatisticsAreServed(pf: Platform, run: Run, base: Run, s: int, req: Request)
    requires !pf.perFrame && base.Later? && Computes(pf, At(pf, base.before), base.ev)
    requires s == if At(pf, base.before).engine.first || base.ev.req.stats.None? then -1 else base.ev.req.stats.value
    requires OnlyStale(run, base, s, base.ev.req.ext.cadence)
    requires req.ext.paramsOk && req.ext.prepareOk && req.ext.aeOk
    requires req.stats.Some? && req.stats.value != s && req.requestId % base.ev.req.ext.cadence == 0
    ensures OpOf(pf, At(pf, run), req) != Idle <==> |At(pf, run).engine.sensor.exposures| + pf.sensor.exposureLag <= 5
  {
    StatisticsAreUsedOnce(pf, run, base, s);
    ServedIff(pf, At(pf, run), req);
  }

  /** No result was computed since the engine was made or last started. */
  predicate NoResultYet(pf: Platform, run: Run) {
    run.Fresh? || run.ev.Restart? || (NoResultYet(pf, run.before) && !Computes(pf, At(pf, run.before), run.ev))
  }

  lemma {:induction false} FirstIsAwaited(pf: Platform, run: Run)
    requires NoResultYet(pf, run)
    ensures At(pf, run).engine.first
  {
    if run.Later? && !run.ev.Restart? {
      FirstIsAwaited(pf, run.before);
    }
  }

  /** Until a first result was computed, every request runs all the algorithms, whatever its number and statistics. */
  lemma {:induction false} FirstRequestsCompute(pf: Platform, run: Run, req: Request)
    requires NoResultYet(pf, run) && req.ext.paramsOk && req.ext.prepareOk && req.ext.aeOk && req.ext.aiqOk
    ensures Computes(pf, At(pf, run), Ask(req))
  {
    FirstIsAwaited(pf, run);
  }

  // ------------------------------------------------- when a copy is the full result

  /** The request is one to publish a copy. */
  predicate CopiesHistory(pf: Platform, m: Memory, req: Request) {
    !FullRun(pf, m, req) && OpOf(pf, m, req).Finish?
  }

  /** Whether a request leaves alone what the full result's slot holds: if that slot is its own it has the same
      parameters, and does not fail with other exposures or content; and if it copies, the tone curves are as
      they were or do not matter. */
  predicate Keeps(pf: Platform, m: Memory, req: Request) {
    Needs(pf, m, req) ==>
      && (m.Own() ==> req.ext.parameters == m.full.parameters)
      && (m.Own() && OpOf(pf, m, req).UpdateOnly? ==>
            req.ext.exposures == m.full.exposures && req.ext.content == m.full.content)
      && (CopiesHistory(pf, m, req) ==> CurvesAgree(pf.library, req.ext.curves, m.full.parameters, m.full.content))
  }

  /** No request since the last full result touched what its slot holds. */
  predicate Kept(pf: Platform, run: Run) {
    run.Fresh? || At(pf, run).engine.first || Computes(pf, At(pf, run.before), run.ev) ||
    (Kept(pf, run.before) && (run.ev.Ask? ==> Keeps(pf, At(pf, run.before), run.ev.req)))
  }

  /** Since the last full result its slot held it after every event, and every copy published was it. */
  predicate StaysFull(pf: Platform, run: Run) {
    run.Fresh? || At(pf, run).engine.first || Computes(pf, At(pf, run.before), run.ev) ||
    (var m := At(pf, run.before);
     && StaysFull(pf, run.before)
     && At(pf, run).history == At(pf, run).full
     && (run.ev.Ask? && OpOf(pf, m, run.ev.req).Finish? ==> OpOf(pf, m, run.ev.req).result == m.full))
  }

  lemma {:induction false} HandledAgainIff(lib: Library, curves: int, r: AiqResult)
    requires exists before :: Handled(lib, before, r) == r
    ensures Handled(lib, curves, r) == r <==> CurvesAgree(lib, curves, r.parameters, r.content)
  {
    var before :| Handled(lib, before, r) == r;
    TonedAgainIff(lib, before, curves, r.parameters, r.content);
  }

  /** One request from a slot that holds the full result. */
  lemma {:induction false} KeepsIff(pf: Platform, m: Memory, req: Request)
    requires Sane(pf, m) && !m.engine.first && m.history == m.full && !Computes(pf, m, Ask(req))
    ensures var op := OpOf(pf, m, req);
            Keeps(pf, m, req) <==>
            Serve(pf, m, req).history == m.full && (op.Finish? ==> op.result == m.full)
  {
    HandledAgainIff(pf.library, req.ext.curves, m.full);
    var op := OpOf(pf, m, req);
    if op.Finish? {
      FinishGrows(pf.sensor, m.engine, op);
      if m.Own() {
        OwnSlotIsRewritten(|m.engine.published|, |Serve(pf, m, req).engine.published| - |m.engine.published|, m.fullAt);
      }
    }
  }

  /** Over any run, copies are the last full result, and its slot keeps it, exactly if every request since left
      the slot alone. */
  lemma {:induction false} CopiesAreFullIff(pf: Platform, run: Run)
    ensures StaysFull(pf, run) <==> Kept(pf, run)
    ensures StaysFull(pf, run) && !At(pf, run).engine.first ==> At(pf, run).history == At(pf, run).full
  {
    if run.Later? {
      CopiesAreFullIff(pf, run.before);
      RunsAreSane(pf, run.before);
      var m := At(pf, run.before);
      if Computes(pf, m, run.ev) {
        ComputingIsSane(pf, m, run.ev.req);
      } else if run.ev.Ask? && !m.engine.first && m.history == m.full {
        KeepsIff(pf, m, run.ev.req);
      }
    }
  }

  /** A copy made while fewer than forty results were published from the full one on is the full result exactly if
      the tone curves still agree; only a result with a contrast curve depends on them. */
  lemma {:induction false} EarlyCopyIsFullIff(pf: Platform, run: Run, req: Request)
    requires var m := At(pf, run);
             CopiesHistory(pf, m, req) && |m.engine.published| < m.fullAt + 40
    ensures var m := At(pf, run);
            OpOf(pf, m, req).result == m.full <==>
            CurvesAgree(pf.library, req.ext.curves, m.full.parameters, m.full.content)
  {
    RunsAreSane(pf, run);
    HistoryIsFull(pf, run);
    HandledAgainIff(pf.library, req.ext.curves, At(pf, run).full);
  }

  // ------------------------------------------------------- when it is not

  function Asked(run: Run): nat {
    if run.Fresh? then 0 else Asked(run.before) + if run.ev.Ask? then 1 else 0
  }

  /** Requests counted from 0, as under per-frame control, where each of them is needed. */
  predicate PerFrame(run: Run) {
    run.Fresh? ||
    (PerFrame(run.before) && run.ev.Ask? && run.ev.req.requestId == Asked(run.before))
  }

  predicate AllOk(ext: Algorithms) { ext.paramsOk && ext.prepareOk && ext.aeOk && ext.aiqOk }

  /** A full result behind which `n` copies of it were published. */
  ghost predicate Repeated(pf: Platform, m: Memory, ext: Algorithms, n: nat) {
    && !m.engine.first && m.fullAt == 0 && |m.engine.published| == n + 1
    && m.engine.published[n].tuningMode == ext.parameters.tuningMode
    && m.full == Handled(pf.library, ext.curves, Computed(Request(0, -1, None, ext)))
    && m.history == m.full
  }

  lemma {:induction false} FirstIsRepeated(pf: Platform, ext: Algorithms)
    requires AllOk(ext) && pf.perFrame
    ensures Repeated(pf, Serve(pf, NOTHING, Request(0, -1, None, ext)), ext, 0)
  {
  }

  lemma {:induction false} FinishUnskipped(cfg: Config, e: Engine, r: AiqResult, applyingSeq: int)
    requires SkipNum(e.first, e.published, r) == 0
    ensures var next := Step(cfg, e, Finish(r, applyingSeq));
            && !next.first && |next.published| == |e.published| + 1
            && next.published[|e.published|].tuningMode == r.tuningMode
  {
  }

  lemma {:induction false} RepeatsFull(pf: Platform, m: Memory, ext: Algorithms, n: nat)
    requires AllOk(ext) && n + 1 < STORAGE_SIZE && n + 1 < pf.interval && Repeated(pf, m, ext, n)
    ensures var req := Request(n + 1, -1, None, ext);
            !FullRun(pf, m, req) && OpNeeded(pf, m, req) == Finish(m.full, -1) && Prepared(m, ext.parameters) == m.full
  {
    OwnIff(n + 1, 0);
    TonedTwice(pf.library, ext.curves, ext.parameters, ext.content);
  }

  lemma {:induction false} OnceMore(pf: Platform, m: Memory, ext: Algorithms, n: nat)
    requires AllOk(ext) && pf.perFrame && n + 1 < STORAGE_SIZE && n + 1 < pf.interval && Sane(pf, m) && Repeated(pf, m, ext, n)
    ensures Repeated(pf, Serve(pf, m, Request(n + 1, -1, None, ext)), ext, n + 1)
  {
    RepeatsFull(pf, m, ext, n);
    FinishUnskipped(pf.sensor, m.engine, m.full, -1);
    LatestIsFirst(n + 2, 0);
  }

  /** The first request and `n` more like it. */
  lemma {:induction false} CopiesInARow(pf: Platform, ext: Algorithms, n: nat) returns (run: Run)
    requires AllOk(ext) && pf.perFrame && n < STORAGE_SIZE && n < pf.interval
    ensures PerFrame(run) && Asked(run) == n + 1 && Repeated(pf, At(pf, run), ext, n)
  {
    if n == 0 {
      run := Later(Fresh, Ask(Request(0, -1, None, ext)));
      assert PerFrame(Fresh) && At(pf, Fresh) == NOTHING;
      FirstIsRepeated(pf, ext);
    } else {
      var before := CopiesInARow(pf, ext, n - 1);
      RunsAreSane(pf, before);
      OnceMore(pf, At(pf, before), ext, n - 1);
      run := Later(before, Ask(Request(n, -1, None, ext)));
    }
  }

  /** Forty requests from the start of the engine the slot of the first result is acquired again.  A full run that
      fails in it leaves its exposures and content there: the next copy bears the number of the first request with
      the exposures and content of the failed one. */
  lemma {:induction false} FailedRunIsCopied(pf: Platform, ext: Algorithms, other: Algorithms) returns (run: Run, req: Request)
    requires AllOk(ext) && pf.perFrame && pf.interval == STORAGE_SIZE
    requires other == ext.(aiqOk := false, exposures := other.exposures, content := other.content) && other.exposures != ext.exposures
    ensures PerFrame(run) && req.requestId == Asked(run) && CopiesHistory(pf, At(pf, run), req)
    ensures var m := At(pf, run);
            var copy := OpOf(pf, m, req).result;
            && copy != m.full && copy.frameId == m.full.frameId == 0 && copy.exposures == other.exposures
            && copy.content == Toned(pf.library, ext.curves, ext.parameters, other.content)
  {
    var before := CopiesInARow(pf, ext, STORAGE_SIZE - 1);
    var failing := Request(STORAGE_SIZE, -1, None, other);
    OwnIff(STORAGE_SIZE, 0);
    run := Later(before, Ask(failing));
    req := Request(STORAGE_SIZE + 1, -1, None, ext);
    var m := At(pf, before);
    assert OpOf(pf, m, failing) == UpdateOnly(other.exposures, -1);
    assert At(pf, run).history == m.full.(exposures := other.exposures, content := other.content);
  }

  /** Without a failure the copy on that slot bears the parameters of its own request. */
  lemma {:induction false} ChangedParametersAreCopied(pf: Platform, ext: Algorithms, p: Parameters) returns (run: Run, req: Request)
    requires AllOk(ext) && pf.perFrame && pf.interval > STORAGE_SIZE && p != ext.parameters
    ensures PerFrame(run) && req.requestId == Asked(run) && CopiesHistory(pf, At(pf, run), req)
    ensures var m := At(pf, run);
            var copy := OpOf(pf, m, req).result;
            && copy != m.full && copy.frameId == m.full.frameId == 0 && copy.exposures == m.full.exposures
            && copy.parameters == p && copy.content == Toned(pf.library, ext.curves, p, m.full.content)
  {
    run := CopiesInARow(pf, ext, STORAGE_SIZE - 1);
    OwnIff(STORAGE_SIZE, 0);
    req := Request(STORAGE_SIZE, -1, None, ext.(parameters := p));
  }

  /** Right behind the first result a copy with a contrast curve is drawn with the curves set since. */
  lemma {:induction false} ChangedCurvesAreCopied(pf: Platform, ext: Algorithms, curves: int) returns (run: Run, req: Request)
    requires AllOk(ext) && pf.perFrame && pf.interval > 1
    requires ext.parameters.tonemap == ContrastCurve && CurvesMatch(ext.parameters.curveSizes) && ext.content.gammaSize > 1
    requires var sizes, n := ext.parameters.curveSizes, ext.content.gammaSize;
             pf.library.draw(curves, sizes, n) != pf.library.draw(ext.curves, sizes, n)
    ensures PerFrame(run) && req.requestId == Asked(run) && CopiesHistory(pf, At(pf, run), req)
    ensures var m := At(pf, run);
            var copy := OpOf(pf, m, req).result;
            && copy != m.full && copy.frameId == m.full.frameId == 0 && copy.parameters == m.full.parameters
            && copy.content.gammas == pf.library.draw(curves, ext.parameters.curveSizes, ext.content.gammaSize)
  {
    run := CopiesInARow(pf, ext, 0);
    OwnIff(1, 0);
    req := Request(1, -1, None, ext.(curves := curves));
  }
}
