/** The 3A engine object: runs the algorithms when there is a reason to, queues their
    exposure, and publishes their result.  What the algorithms and the platform return is
    an input (`Algorithms`); everything else is what the engine does with it.
  */
module EngineObject {
  import opened Basics
  import opened ExposureSchedule
  import opened SensorManagement
  import opened Tonemaps
  import opened ResultLists
  import opened EngineRuns
  import opened FullResults
  import opened EngineRequests
  import opened ResultStorage
  import S = StatsSlots

  /** The engine after a result is finished, put together from its parts; the flag and the frame of the result
      itself do not matter. */
  lemma {:induction false} FinishStep(cfg: Config, e: Engine, queued: State, r: AiqResult, applyingSeq: int, last: State, results: seq<AiqResult>)
    requires var o := UpdateStep(cfg, e.sensor, r.exposures, applyingSeq); queued == o.next && r.sequence == o.effect
    requires DoneFrom(cfg, queued, r, SkipNum(e.first, e.published, r)) == (last, results)
    ensures Step(cfg, e, Finish(Plain(r), applyingSeq)) == Engine(last, e.published + results, false, e.session)
  {
    DoneIgnoresFlag(cfg, queued, r, SkipNum(e.first, e.published, r));
    assert Plain(r).(sequence := r.sequence) == r.(skip := false);
  }

  lemma {:induction false} DoneIgnoresFlag(cfg: Config, s: State, r: AiqResult, n: nat)
    ensures DoneFrom(cfg, s, r.(skip := false), n) == DoneFrom(cfg, s, r, n)
  {
  }

  /** Preparing a slot that is prepared already changes nothing, nor does taking over the cadence. */
  lemma {:induction false} PreparedServes(pf: Platform, m: Memory, req: Request, prepared: Memory)
    requires prepared == m.(history := Prepared(m, req.ext.parameters),
                            cadence := if req.ext.paramsOk then req.ext.cadence else m.cadence)
    ensures OpNeeded(pf, prepared, req) == OpNeeded(pf, m, req) && ServeNeeded(pf, prepared, req) == ServeNeeded(pf, m, req)
  {
    assert Prepared(prepared, req.ext.parameters) == Prepared(m, req.ext.parameters);
  }

  /** What publishing a result leaves behind is what serving the request does: a slot that is both the acquired
      one and the history slot is rewritten. */
  lemma {:induction false} PublishedIsServed(pf: Platform, m: Memory, req: Request, op: Op, engine: Engine, held: AiqResult, cadence: Interval, now: Memory)
    requires op == OpNeeded(pf, m, req) && op.Finish? && engine == Step(pf.sensor, m.engine, op)
    requires !FullRun(pf, m, req) ==> m.fullAt < |m.engine.published|
    requires !m.Own() ==> held == Prepared(m, req.ext.parameters)
    requires cadence == (if req.ext.paramsOk then req.ext.cadence else m.cadence)
    requires now == if FullRun(pf, m, req) then Memory(engine, op.result, op.result, |m.engine.published|, cadence, StatsRead(m, req))
                    else Memory(engine, if Rewritten(|engine.published|, |m.engine.published|, m.fullAt) then op.result else held,
                                m.full, m.fullAt, cadence, m.lastStats)
    ensures now == ServeNeeded(pf, m, req)
  {
    if !FullRun(pf, m, req) && m.Own() {
      FinishIsLonger(pf.sensor, m.engine, op);
      OwnSlotIsRewritten(|m.engine.published|, |engine.published| - |m.engine.published|, m.fullAt);
    }
  }

  /** Without per-frame control only needed runs do anything, so they are throttled. */
  lemma {:induction false} ServesThrottled(pf: Platform, m: Memory, req: Request)
    requires !pf.perFrame
    ensures Throttled(pf.sensor, m.engine, OpOf(pf, m, req))
  {
  }

  class AiqEngine {
    const storage: AiqResultStorage
    const sensor: SensorManager
    const perFrameControl: bool
    const aiqRunningInterval: Interval
    const library: Library
    var run3ACadence: Interval
    var firstAiqRunning: bool
    var historySlot: nat
    var historyStatsSequence: int
    ghost var session: nat

    /** The last result the algorithms computed, and how many results had been published before it. */
    ghost var full: AiqResult
    ghost var fullAt: nat

    ghost predicate Valid()
      reads this, storage, storage.results, sensor
    {
      && storage.Valid() && sensor.Valid()
      && storage as object != sensor && sensor.hw as object != storage && sensor.hw as object != sensor
      && this as object != storage && this as object != sensor && this as object != sensor.hw
      && historySlot < STORAGE_SIZE
      && (!firstAiqRunning ==> storage.published != [])
    }

    /** The history slot is that of the last full result. */
    ghost predicate Remembers()
      reads this, storage
    {
      && historySlot == SlotOf(fullAt)
      && (!firstAiqRunning ==> fullAt < |storage.published|)
    }

    ghost function Mem(): Memory
      reads this, storage, storage.results, sensor
      requires Valid()
    {
      Memory(Abs(), Plain(storage.results[historySlot]), full, fullAt, run3ACadence, historyStatsSequence)
    }

    ghost function Setup(): Platform
      reads this, sensor
    {
      Platform(sensor.cfg, perFrameControl, aiqRunningInterval, library)
    }

    /** What a slot holds once a result is published: the latest publication that shares it. */
    lemma {:induction false} SlotHolds(k: nat)
      requires storage.Valid() && k < |storage.published|
      requires storage.acquired ==> SlotOf(k) != storage.NextSlot()
      ensures SlotOf(k) < STORAGE_SIZE
      ensures storage.results[SlotOf(k)] == storage.published[LatestSharing(|storage.published|, k)]
    {
      LatestInSlot(|storage.published|, k);
    }

    ghost function Abs(): Engine
      reads this, storage, sensor
    {
      Engine(sensor.Abs(), storage.published, firstAiqRunning, session)
    }

    /** A fresh engine over a fresh storage. */
    constructor (sensor: SensorManager, storage: AiqResultStorage, perFrameControl: bool, aiqRunningInterval: Interval, library: Library)
      requires sensor.Valid() && storage.Valid() && storage.published == [] && storage.results[0] == NO_RESULT
      requires sensor.Abs() == RESET
      requires storage as object != sensor && sensor.hw as object != storage && sensor.hw as object != sensor
      ensures Valid() && Remembers() && Mem() == NOTHING && this.sensor == sensor && this.storage == storage
    {
      this.sensor, this.storage := sensor, storage;
      this.perFrameControl, this.aiqRunningInterval, this.library := perFrameControl, aiqRunningInterval, library;
      run3ACadence, firstAiqRunning, historySlot, historyStatsSequence := 1, true, 0, 0;
      session, full, fullAt := 0, Plain(NO_RESULT), 0;
    }

    method StartEngine()
      requires Valid() && Remembers()
      modifies this`firstAiqRunning, this`session, storage, sensor
      ensures Valid() && Remembers() && Mem() == Next(Setup(), old(Mem()), Restart)
      ensures storage.Stats() == S.Reset(old(storage.Stats()))
    {
      firstAiqRunning := true;
      storage.ResetAiqStatistics();
      sensor.Reset();
      session := |storage.published|;
    }

    method HandleSof(sequence: int)
      requires Valid() && Remembers()
      modifies sensor, sensor.hw
      ensures Valid() && Remembers() && Mem() == Next(Setup(), old(Mem()), Frame(sequence))
    {
      sensor.HandleSofEvent(sequence);
    }

    /** Whether a request needs a 3A run of its own. */
    method NeedRun3A(requestId: int, statsSequence: Option<int>, ghost ext: Algorithms) returns (need: bool)
      requires Valid()
      ensures need <==> Needs(Setup(), Mem(), Request(requestId, 0, statsSequence, ext))
      ensures need <==>
              || perFrameControl || firstAiqRunning
              || (&& requestId % run3ACadence == 0
                  && statsSequence.Some? && statsSequence.value != historyStatsSequence
                  && |sensor.Abs().exposures| + sensor.cfg.exposureLag <= 5)
    {
      if perFrameControl {
        return true;
      }
      if firstAiqRunning {
        return true;
      }
      if requestId % run3ACadence != 0 {
        return false;
      }
      if statsSequence.None? {
        return false;
      }
      var delay := sensor.GetCurrentExposureAppliedDelay();
      if historyStatsSequence == statsSequence.value {
        return false;
      } else if delay > MAX_APPLIED_DELAY {
        return false;
      }
      return true;
    }

    method GetSkippingNum(slot: nat) returns (n: nat)
      requires Valid() && slot < STORAGE_SIZE
      ensures n == SkipNum(firstAiqRunning, storage.published, storage.results[slot])
    {
      n := 0;
      if !firstAiqRunning {
        var latest := storage.GetLatestAiqResult();
        if storage.results[latest].tuningMode != storage.results[slot].tuningMode {
          n := SKIPS_ON_MODE_CHANGE;
        }
      }
    }

    /** Queues the exposure of the result being prepared and records the frame it takes effect on. */
    method SetSensorExposure(slot: nat, applyingSeq: int)
      requires Valid() && storage.acquired && slot == storage.NextSlot()
      modifies storage.results, sensor, sensor.hw
      ensures Valid()
      ensures var o := UpdateStep(sensor.cfg, old(sensor.Abs()), old(storage.results[slot].exposures), applyingSeq);
              && sensor.Abs() == o.next
              && storage.results[slot] == old(storage.results[slot]).(sequence := o.effect)
      ensures forall j :: 0 <= j < STORAGE_SIZE && j != slot ==> storage.results[j] == old(storage.results[j])
    {
      var r := storage.results[slot];
      var effect := sensor.UpdateSensorExposure(r.exposures, applyingSeq);
      storage.Write(slot, r.(sequence := effect));
    }

    method SetSkip(slot: nat, skip: bool)
      requires Valid() && storage.acquired && slot == storage.NextSlot()
      modifies storage.results
      ensures Valid() && storage.results[slot] == old(storage.results[slot]).(skip := skip)
      ensures forall j :: 0 <= j < STORAGE_SIZE && j != slot ==> storage.results[j] == old(storage.results[j])
    {
      storage.Write(slot, storage.results[slot].(skip := skip));
    }

    ghost function Now(tmp: nat): Copying
      reads sensor, storage, storage.results
      requires tmp < storage.results.Length
    {
      Copying(sensor.Abs(), storage.results[tmp], storage.published)
    }

    /** The result prepared in `tmp` is the original one in `slot`, or a copy of it with another frame. */
    ghost predicate Original(slot: nat, tmp: nat)
      reads storage.results
      requires slot < storage.results.Length && tmp < storage.results.Length
    {
      slot != tmp ==>
        && storage.results[tmp] == storage.results[slot].(sequence := storage.results[tmp].sequence)
        && storage.results[slot].skip
    }

    /** Publishes the prepared result flagged to be skipped, and prepares a copy of the original
        one, which is in `slot`, with an exposure update of its own. */
    method PublishSkipped(slot: nat, tmp: nat) returns (next: nat)
      requires Valid() && storage.acquired && tmp == storage.NextSlot()
      requires slot < STORAGE_SIZE && slot != SlotOf(|storage.published| + 1) && Original(slot, tmp)
      modifies storage`currentIndex, storage`published, storage`acquired, storage.results, sensor, sensor.hw
      ensures Valid() && storage.acquired && next == storage.NextSlot() && next != slot
      ensures Original(slot, next) && Now(next) == CopyOnce(sensor.cfg, old(Now(tmp)))
      ensures |storage.published| == |old(storage.published)| + 1
    {
      SetSkip(tmp, true);
      storage.UpdateAiqResult(storage.results[tmp].sequence);
      next := storage.AcquireAiqResult();
      storage.Write(next, storage.results[slot]);
      SetSensorExposure(next, -1);
    }

    /** Publishes `skipNum` copies to be skipped and prepares the last one. */
    method PublishSkips(slot: nat, skipNum: nat) returns (tmp: nat)
      requires Valid() && storage.acquired && slot == storage.NextSlot() && skipNum <= SKIPS_ON_MODE_CHANGE
      modifies storage`currentIndex, storage`published, storage`acquired, storage.results, sensor, sensor.hw
      ensures Valid() && storage.acquired && tmp == storage.NextSlot()
      ensures Now(tmp) == CopyTimes(sensor.cfg, old(Now(slot)), skipNum)
    {
      tmp := slot;
      ghost var states, n := [Now(slot)], |storage.published|;
      for i := 0 to skipNum
        invariant Valid() && storage.acquired && tmp == storage.NextSlot() && |storage.published| == n + i
        invariant Original(slot, tmp)
        invariant |states| == i + 1 && Turns(sensor.cfg, states) && states[0] == old(Now(slot)) && states[i] == Now(tmp)
      {
        LaterSlotsDiffer(n, |storage.published| + 1);
        tmp := PublishSkipped(slot, tmp);
        OneMoreTurn(sensor.cfg, states, Now(tmp));
        states := states + [Now(tmp)];
      }
      LastTurn(sensor.cfg, states, skipNum);
    }

    /** Publishes the prepared result, behind copies to be skipped if the tuning mode changed. */
    method Done(slot: nat)
      requires Valid() && storage.acquired && slot == storage.NextSlot()
      modifies this`firstAiqRunning
      modifies storage`currentIndex, storage`published, storage`acquired, storage.results, sensor, sensor.hw
      ensures Valid() && !firstAiqRunning && !storage.acquired
      ensures var r := old(storage.results[slot]);
              var (last, results) := DoneFrom(sensor.cfg, old(sensor.Abs()), r,
                                              SkipNum(old(firstAiqRunning), old(storage.published), r));
              sensor.Abs() == last && storage.published == old(storage.published) + results
    {
      var skipNum := GetSkippingNum(slot);
      LoopIsDone(sensor.cfg, Now(slot), skipNum);
      var tmp := PublishSkips(slot, skipNum);
      SetSkip(tmp, false);
      storage.UpdateAiqResult(storage.results[tmp].sequence);
      firstAiqRunning := false;
    }

    /** Prepares a result in `slot`: a new one, or a copy of what the history slot holds.  A run of the algorithms
        can fail before its exposure has been queued, which changes nothing, or after. */
    method RunAiq(requestId: int, applyingSeq: int, slot: nat, ext: Algorithms) returns (ok: bool, aiqRun: bool)
      requires Valid() && storage.acquired && slot == storage.NextSlot()
      modifies storage.results, sensor, sensor.hw
      ensures Valid()
      ensures forall j :: 0 <= j < STORAGE_SIZE && j != slot ==> storage.results[j] == old(storage.results[j])
      ensures aiqRun <==> ok && (requestId % aiqRunningInterval == 0 || firstAiqRunning)
      ensures ok <==> (requestId % aiqRunningInterval == 0 || firstAiqRunning ==> ext.aeOk && ext.aiqOk)
      ensures var was, r, s := old(storage.results[slot]), storage.results[slot], old(sensor.Abs());
              if !aiqRun && ok then
                var o := UpdateStep(sensor.cfg, s, old(storage.results[historySlot].exposures), applyingSeq);
                r == old(storage.results[historySlot]).(sequence := o.effect) && sensor.Abs() == o.next
              else if !ext.aeOk then r == was && sensor.Abs() == s
              else
                var o := UpdateStep(sensor.cfg, s, ext.exposures, applyingSeq);
                && sensor.Abs() == o.next
                && r == was.(exposures := ext.exposures, content := ext.content, sequence := o.effect,
                             frameId := if ok then requestId else was.frameId)
    {
      ok, aiqRun := false, false;
      if requestId % aiqRunningInterval == 0 || firstAiqRunning {
        if !ext.aeOk {
          return;
        }
        storage.Write(slot, storage.results[slot].(exposures := ext.exposures));
        SetSensorExposure(slot, applyingSeq);
        storage.Write(slot, storage.results[slot].(content := ext.content));
        if !ext.aiqOk {
          return;
        }
        aiqRun := true;
        storage.Write(slot, storage.results[slot].(frameId := requestId));
      } else {
        storage.Write(slot, storage.results[historySlot]);
        SetSensorExposure(slot, applyingSeq);
      }
      ok := true;
    }

    /** Lays the tone map of the parameters over a result's content. */
    method ApplyManualTonemaps(curves: int, p: Parameters, content: Content) returns (c: Content)
      ensures c == Toned(library, curves, p, content).(scene := content.scene)
    {
      c := content.(manual := true);
      if p.tonemap == FastTone || p.tonemap == HighQualityTone {
        c := c.(manual := false);
        if !p.autoExposure && p.manualIso != 0 && p.manualExpTimeUs != 0 {
          c := c.(manual := true);
        }
      }
      if !c.manual {
        return;
      }
      if p.tonemap == GammaTone {
        if p.gamma >= EPSILON && c.gammaSize >= MIN_TONEMAP_POINTS {
          c := c.(gammas := Gray(GammaTable(library, p.gamma, c.gammaSize)));
        }
      } else if p.tonemap == PresetTone {
        if c.gammaSize >= MIN_TONEMAP_POINTS {
          c := c.(gammas := Gray(PresetTable(library, p.preset, c.gammaSize)));
        }
      } else if p.tonemap == ContrastCurve && CurvesMatch(p.curveSizes) {
        if c.gammaSize > 1 {
          c := c.(gammas := library.draw(curves, p.curveSizes, c.gammaSize));
        }
        var gains := library.curveGains(curves, p.curveSizes);
        if gains.Some? {
          c := c.(gains := gains.value);
        }
      }
      c := c.(tones := Ones(|c.tones|));
    }

    method HandleAiqResult(slot: nat, curves: int)
      requires Valid() && storage.acquired && slot == storage.NextSlot()
      modifies storage.results
      ensures Valid() && storage.results[slot] == Handled(library, curves, old(storage.results[slot]))
      ensures forall j :: 0 <= j < STORAGE_SIZE && j != slot ==> storage.results[j] == old(storage.results[j])
    {
      var r := storage.results[slot];
      var scene := AutoScene;
      if r.parameters.autoScene {
        if r.content.bracket == HdrBracket {
          scene := HdrScene;
        } else if r.content.bracket == UllBracket {
          scene := UllScene;
        }
      }
      var content := ApplyManualTonemaps(curves, r.parameters, r.content.(scene := scene));
      storage.Write(slot, r.(content := content));
    }

    /** What the history slot holds once the results that copy `r` are published. */
    lemma {:induction false} HistoryAfterDone(published: seq<AiqResult>, results: seq<AiqResult>, r: AiqResult, held: AiqResult)
      requires storage.Valid() && !storage.acquired && storage.published == published + results && results != []
      requires AllCopies(results, r) && fullAt < |published| && historySlot == SlotOf(fullAt)
      requires historySlot != SlotOf(|published|) ==> held == published[LatestSharing(|published|, fullAt)]
      ensures historySlot < STORAGE_SIZE
      ensures Plain(storage.results[historySlot]) ==
              Plain(if Rewritten(|storage.published|, |published|, fullAt) then r else held)
    {
      var n, j := |published|, LatestSharing(|published + results|, fullAt);
      SlotHolds(fullAt);
      LatestGrows(n, |results|, fullAt);
      if j >= n {
        assert storage.published[j] == results[j - n];
      } else {
        if historySlot == SlotOf(n) {
          OwnSlotIsRewritten(n, |results|, fullAt);
        }
        assert storage.published[j] == published[j];
      }
    }

    /** The first of the results just published is in its own slot. */
    lemma {:induction false} FirstOfDone(published: seq<AiqResult>, results: seq<AiqResult>)
      requires storage.Valid() && !storage.acquired && storage.published == published + results
      requires 0 < |results| <= STORAGE_SIZE
      ensures SlotOf(|published|) < STORAGE_SIZE && storage.results[SlotOf(|published|)] == results[0]
    {
      var n := |published|;
      SlotHolds(n);
      assert LatestSharing(|published + results|, n) == n;
      assert storage.published[n] == results[0];
    }

    /** What the history slot holds, unless it is the one acquired. */
    ghost predicate HistoryHeld(slot: nat)
      reads this, storage, storage.results
      requires historySlot < storage.results.Length
    {
      fullAt < |storage.published| && historySlot != slot ==>
        storage.results[historySlot] == storage.published[LatestSharing(|storage.published|, fullAt)]
    }

    lemma {:induction false} HistoryIsHeld()
      requires Valid() && Remembers() && storage.acquired
      ensures HistoryHeld(storage.NextSlot())
    {
      if fullAt < |storage.published| && historySlot != storage.NextSlot() {
        SlotHolds(fullAt);
      }
    }

    /** Publishes the prepared result and, if the algorithms computed it, remembers its slot. */
    method PublishAndRemember(slot: nat, aiqRun: bool, stats: Option<int>)
      requires Valid() && Remembers() && storage.acquired && slot == storage.NextSlot()
      requires !aiqRun ==> !firstAiqRunning && HistoryHeld(slot)
      modifies this`firstAiqRunning, this`historySlot, this`historyStatsSequence, this`full, this`fullAt
      modifies storage`currentIndex, storage`published, storage`acquired, storage.results, sensor, sensor.hw
      ensures Valid() && Remembers() && !storage.acquired && !firstAiqRunning
      ensures var r, was := old(storage.results[slot]), old(Abs());
              var (last, results) := DoneFrom(sensor.cfg, was.sensor, r, SkipNum(was.first, was.published, r));
              var engine := Engine(last, was.published + results, false, was.session);
              Mem() == if aiqRun then
                         Memory(engine, Plain(r), Plain(r), |was.published|, run3ACadence, if stats.None? then -1 else stats.value)
                       else
                         Memory(engine, if Rewritten(|engine.published|, |was.published|, fullAt) then Plain(r) else old(Mem()).history,
                                old(full), old(fullAt), run3ACadence, old(historyStatsSequence))
    {
      ghost var published, r, held := storage.published, storage.results[slot], storage.results[historySlot];
      ghost var n := SkipNum(firstAiqRunning, published, r);
      ghost var results := DoneFrom(sensor.cfg, sensor.Abs(), r, n).1;
      DoneCopies(sensor.cfg, sensor.Abs(), r, n);
      Done(slot);
      if aiqRun {
        FirstOfDone(published, results);
        full, fullAt := Plain(r), |published|;
        historySlot := slot;
        historyStatsSequence := if stats.None? then -1 else stats.value;
      } else {
        HistoryAfterDone(published, results, r, held);
      }
    }

    /** Computes a result in the prepared slot, or copies one into it. */
    method ComputeInSlot(requestId: int, applyingSeq: int, slot: nat, ghost stats: Option<int>, ext: Algorithms) returns (ok: bool, aiqRun: bool, ghost op: Op)
      requires Valid() && Remembers() && storage.acquired && slot == storage.NextSlot()
      requires ext.paramsOk && ext.prepareOk && run3ACadence == ext.cadence && (firstAiqRunning ==> stats.None?)
      requires storage.results[slot] == WithParameters(storage.results[slot], ext.parameters)
      modifies storage.results, sensor, sensor.hw
      ensures Valid() && Remembers()
      ensures forall j :: 0 <= j < STORAGE_SIZE && j != slot ==> storage.results[j] == old(storage.results[j])
      ensures var m, req := old(Mem()), Request(requestId, applyingSeq, stats, ext);
              && op == OpNeeded(Setup(), m, req)
              && (ok <==> op.Finish?) && (aiqRun <==> ok && FullRun(Setup(), m, req))
              && (!ok ==> Mem() == ServeNeeded(Setup(), m, req))
      ensures ok ==>
                var r := storage.results[slot];
                var o := UpdateStep(sensor.cfg, old(sensor.Abs()), r.exposures, applyingSeq);
                op == Finish(Plain(r), applyingSeq) && sensor.Abs() == o.next && r.sequence == o.effect
      ensures op == Idle ==> storage.results[slot].sequence == old(storage.results[slot].sequence)
      ensures op.UpdateOnly? ==>
                storage.results[slot].sequence == UpdateStep(sensor.cfg, old(sensor.Abs()), ext.exposures, applyingSeq).effect
    {
      op := OpNeeded(Setup(), Mem(), Request(requestId, applyingSeq, stats, ext));
      ok, aiqRun := RunAiq(requestId, applyingSeq, slot, ext);
      if ok {
        HandleAiqResult(slot, ext.curves);
      }
    }

    /** Computes a result in the acquired slot and, if that succeeds, publishes it. */
    method ComputeAndPublish(requestId: int, applyingSeq: int, slot: nat, stats: Option<int>, ext: Algorithms)
      returns (ok: bool, ghost op: Op)
      requires Valid() && Remembers() && storage.acquired && slot == storage.NextSlot()
      requires ext.paramsOk && ext.prepareOk && run3ACadence == ext.cadence && (firstAiqRunning ==> stats.None?)
      requires storage.results[slot] == WithParameters(storage.results[slot], ext.parameters)
      modifies this`firstAiqRunning, this`historySlot, this`historyStatsSequence, this`full, this`fullAt
      modifies storage`currentIndex, storage`published, storage`acquired, storage.results, sensor, sensor.hw
      ensures Valid() && Remembers()
      ensures var req := Request(requestId, applyingSeq, stats, ext);
              op == OpNeeded(Setup(), old(Mem()), req) && Mem() == ServeNeeded(Setup(), old(Mem()), req)
      ensures ok <==> op.Finish?
      ensures if op.Finish? then !firstAiqRunning else storage.acquired && slot == storage.NextSlot()
      ensures op == Idle ==> storage.results[slot].sequence == old(storage.results[slot].sequence)
      ensures op.UpdateOnly? ==>
                storage.results[slot].sequence == UpdateStep(sensor.cfg, old(sensor.Abs()), ext.exposures, applyingSeq).effect
    {
      ghost var was := Mem();
      var aiqRun;
      ok, aiqRun, op := ComputeInSlot(requestId, applyingSeq, slot, stats, ext);
      if ok {
        HistoryIsHeld();
        ghost var m, r := Mem(), storage.results[slot];
        ghost var done := DoneFrom(sensor.cfg, m.engine.sensor, r, SkipNum(m.engine.first, m.engine.published, r));
        FinishStep(sensor.cfg, was.engine, m.engine.sensor, r, applyingSeq, done.0, done.1);
        PublishAndRemember(slot, aiqRun, stats);
        PublishedIsServed(Setup(), was, Request(requestId, applyingSeq, stats, ext), op, Abs(), m.history, run3ACadence, Mem());
      }
    }

    /** The parameters are set in the acquired slot before anything can fail. */
    method PrepareSlot(slot: nat, p: Parameters)
      requires Valid() && Remembers() && storage.acquired && slot == storage.NextSlot()
      modifies storage.results
      ensures Valid() && Remembers()
      ensures storage.results[slot] == WithParameters(old(storage.results[slot]), p)
      ensures Mem() == old(Mem()).(history := Prepared(old(Mem()), p))
    {
      storage.Write(slot, storage.results[slot].(parameters := p));
      storage.Write(slot, storage.results[slot].(tuningMode := storage.results[slot].parameters.tuningMode));
    }

    method AcquireSlot() returns (slot: nat)
      requires Valid() && Remembers()
      modifies storage`acquired, storage.results
      ensures Valid() && Remembers() && storage.acquired && slot == storage.NextSlot()
      ensures storage.results[slot].sequence == -1 && Mem() == old(Mem())
    {
      slot := storage.AcquireAiqResult();
    }

    /** What a needed run does once its slot is acquired. */
    method RunInSlot(requestId: int, applyingSeq: int, slot: nat, stats: Option<int>, ext: Algorithms) returns (ok: bool, ghost op: Op)
      requires Valid() && Remembers() && storage.acquired && slot == storage.NextSlot() && (firstAiqRunning ==> stats.None?)
      requires storage.results[slot].sequence == -1
      modifies this`firstAiqRunning, this`run3ACadence, this`historySlot, this`historyStatsSequence, this`full, this`fullAt
      modifies storage`currentIndex, storage`published, storage`acquired, storage.results, sensor, sensor.hw
      ensures Valid() && Remembers()
      ensures var req := Request(requestId, applyingSeq, stats, ext);
              op == OpNeeded(Setup(), old(Mem()), req) && Mem() == ServeNeeded(Setup(), old(Mem()), req)
      ensures ok <==> op.Finish?
      ensures if op.Finish? then !firstAiqRunning else storage.acquired && slot == storage.NextSlot()
      ensures op == Idle ==> storage.results[slot].sequence == -1
      ensures op.UpdateOnly? ==>
                storage.results[slot].sequence == UpdateStep(sensor.cfg, old(sensor.Abs()), ext.exposures, applyingSeq).effect
    {
      ghost var was := Mem();
      if ext.paramsOk {
        run3ACadence := ext.cadence;
      }
      PrepareSlot(slot, ext.parameters);
      PreparedServes(Setup(), was, Request(requestId, applyingSeq, stats, ext), Mem());
      if !ext.paramsOk || !ext.prepareOk {
        return false, Idle;
      }
      ok, op := ComputeAndPublish(requestId, applyingSeq, slot, stats, ext);
    }

    /** The part of `Run3A` between locking and releasing the statistics. */
    method RunOnStatistics(requestId: int, applyingSeq: int, stats: Option<int>, ext: Algorithms) returns (ok: bool, ghost op: Op)
      requires Valid() && Remembers() && (firstAiqRunning ==> stats.None?)
      modifies this`firstAiqRunning, this`run3ACadence, this`historySlot, this`historyStatsSequence, this`full, this`fullAt
      modifies storage`currentIndex, storage`published, storage`acquired, storage.results, sensor, sensor.hw
      ensures Valid() && Remembers()
      ensures var req := Request(requestId, applyingSeq, stats, ext);
              && op == OpOf(Setup(), old(Mem()), req) && Mem() == Serve(Setup(), old(Mem()), req)
              && (ok <==> op.Finish? || !Needs(Setup(), old(Mem()), req))
      ensures if op.Finish? then !firstAiqRunning else storage.acquired
      ensures op == Idle ==> storage.results[storage.NextSlot()].sequence == -1
      ensures op.UpdateOnly? ==>
                storage.results[storage.NextSlot()].sequence ==
                UpdateStep(sensor.cfg, old(sensor.Abs()), ext.exposures, applyingSeq).effect
    {
      var slot := AcquireSlot();
      var need := NeedRun3A(requestId, stats, ext);
      if !need {
        return true, Idle;
      }
      ok, op := RunInSlot(requestId, applyingSeq, slot, stats, ext);
    }

    /** The sequence of the statistics a run would read. */
    ghost function StatsSequence(): Option<int>
      reads this, storage, storage.stats
      requires storage.stats.Length == S.SLOTS
    {
      var index := S.LockedSlot(storage.Stats());
      if firstAiqRunning || index.None? then None else Some(storage.stats[index.value].sequence)
    }

    /** The same with the statistics locked while it lasts. */
    method RunLocked(requestId: int, applyingSeq: int, ext: Algorithms) returns (ok: bool, ghost op: Op)
      requires Valid() && Remembers()
      modifies this, storage, storage.results, storage.stats, sensor, sensor.hw
      ensures Valid() && Remembers()
      ensures var req := Request(requestId, applyingSeq, old(StatsSequence()), ext);
              && op == OpOf(Setup(), old(Mem()), req) && Mem() == Serve(Setup(), old(Mem()), req)
              && (ok <==> op.Finish? || !Needs(Setup(), old(Mem()), req))
      ensures if op.Finish? then !firstAiqRunning else storage.acquired
      ensures op == Idle ==> storage.results[storage.NextSlot()].sequence == -1
      ensures op.UpdateOnly? ==>
                storage.results[storage.NextSlot()].sequence ==
                UpdateStep(sensor.cfg, old(sensor.Abs()), ext.exposures, applyingSeq).effect
      ensures storage.Stats() == S.Unlock(if old(firstAiqRunning) then old(storage.Stats()) else S.Lock(old(storage.Stats())))
    {
      var stats := None;
      if !firstAiqRunning {
        var index := storage.GetAndLockAiqStatistics();
        stats := if index.None? then None else Some(storage.stats[index.value].sequence);
      }
      ok, op := RunOnStatistics(requestId, applyingSeq, stats, ext);
      storage.UnLockAiqStatistics();
    }

    /** One request: runs 3A if needed, publishes what it computes, and reports the frame from which
        the latest result is in force.  The statistics are locked only while this lasts. */
    method Run3A(requestId: int, applyingSeq: int, ext: Algorithms) returns (ok: bool, effectSeq: int, ghost op: Op)
      requires Valid() && Remembers()
      modifies this, storage, storage.results, storage.stats, sensor, sensor.hw
      ensures Valid() && Remembers()
      ensures var req := Request(requestId, applyingSeq, old(StatsSequence()), ext);
              && op == OpOf(Setup(), old(Mem()), req) && Mem() == Next(Setup(), old(Mem()), Ask(req))
              && (ok <==> op.Finish? || !Needs(Setup(), old(Mem()), req))
      ensures !perFrameControl ==> Throttled(sensor.cfg, old(Abs()), op)
      ensures effectSeq ==
              if storage.published != [] then storage.published[|storage.published| - 1].sequence
              else if op.UpdateOnly? then UpdateStep(sensor.cfg, old(sensor.Abs()), ext.exposures, applyingSeq).effect
              else -1
      ensures storage.Stats() == S.Unlock(if old(firstAiqRunning) then old(storage.Stats()) else S.Lock(old(storage.Stats())))
    {
      if !perFrameControl {
        ServesThrottled(Setup(), Mem(), Request(requestId, applyingSeq, StatsSequence(), ext));
      }
      ok, op := RunLocked(requestId, applyingSeq, ext);
      effectSeq := LatestSequence();
    }

    method LatestSequence() returns (sequence: int)
      requires Valid()
      ensures sequence == if storage.published != [] then storage.published[|storage.published| - 1].sequence
                          else storage.results[0].sequence
    {
      var latest := storage.GetLatestAiqResult();
      sequence := storage.results[latest].sequence;
    }

    /** The next three publications do not come back to the same slot. */
    lemma {:induction false} LaterSlotsDiffer(n: nat, k: nat)
      requires n < k <= n + SKIPS_ON_MODE_CHANGE
      ensures SlotOf(k) != SlotOf(n)
    {
      SlotReusedIff(k, n);
    }
  }
}
