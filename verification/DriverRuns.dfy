/** What the sensor driver receives over whole runs: for each request, in call order, its own exposure times and
    gains, each on the frame that lies its lag before the frame on which all of them take effect. */
module DriverRuns {
  import opened Basics
  import opened Timetable
  import opened ExposureSchedule
  import opened SensorManagement
  import opened ScheduleRuns

  function Stamped(at: int, calls: seq<HwCall>): (r: seq<Entry<HwCall>>)
    ensures |r| == |calls| && forall i :: 0 <= i < |calls| ==> r[i] == Entry(at, calls[i])
  {
    seq(|calls|, i requires 0 <= i < |calls| => Entry(at, calls[i]))
  }

  /** The driver calls of a run, each with the frame that had started last. */
  function DriverLog(cfg: Config, run: History): seq<Entry<HwCall>> {
    if run.Reset? then []
    else
      var o := Step(cfg, After(cfg, run.before), run.ev);
      DriverLog(cfg, run.before) + Stamped(o.next.lastSof, Issued([], o.writes))
  }

  /** The calls of one kind. */
  function Durations(log: seq<Entry<HwCall>>): seq<Entry<HwCall>> {
    if log == [] then []
    else Durations(log[..|log| - 1]) + if log[|log| - 1].value.SetFrameDuration? then [log[|log| - 1]] else []
  }

  function Exposures(log: seq<Entry<HwCall>>): seq<Entry<HwCall>> {
    if log == [] then []
    else Exposures(log[..|log| - 1]) + if log[|log| - 1].value.SetExposure? then [log[|log| - 1]] else []
  }

  function Gains(g: Gain, log: seq<Entry<HwCall>>): seq<Entry<HwCall>> {
    if log == [] then []
    else
      var last := log[|log| - 1];
      Gains(g, log[..|log| - 1]) + if (if g.Analog? then last.value.SetAnalogGains? else last.value.SetDigitalGains?) then [last] else []
  }

  lemma {:induction false} OneMoreCall(log: seq<Entry<HwCall>>, e: Entry<HwCall>)
    ensures Durations(log + [e]) == Durations(log) + if e.value.SetFrameDuration? then [e] else []
    ensures Exposures(log + [e]) == Exposures(log) + if e.value.SetExposure? then [e] else []
    ensures Gains(Analog, log + [e]) == Gains(Analog, log) + if e.value.SetAnalogGains? then [e] else []
    ensures Gains(Digital, log + [e]) == Gains(Digital, log) + if e.value.SetDigitalGains? then [e] else []
  {
    assert (log + [e])[..|log|] == log;
  }

  /** Handing out an exposure, or nothing. */
  function ExposureCalls(at: int, w: Writes): seq<Entry<HwCall>> {
    if w.exposure.None? then []
    else [Entry(at, SetFrameDuration(w.exposure.value.lineLength, w.exposure.value.frameLength)),
          Entry(at, SetExposure(w.exposure.value.coarse, w.exposure.value.fine))]
  }

  function AnalogCalls(at: int, w: Writes): seq<Entry<HwCall>> {
    if w.analog.None? then [] else [Entry(at, SetAnalogGains(w.analog.value))]
  }

  function DigitalCalls(at: int, w: Writes): seq<Entry<HwCall>> {
    if w.digital.None? then [] else [Entry(at, SetDigitalGains(w.digital.value))]
  }

  /** One step's calls: the frame duration, the exposure, the analog and then the digital gains. */
  lemma {:induction false} StampedInOrder(at: int, w: Writes)
    ensures Stamped(at, Issued([], w)) == ExposureCalls(at, w) + AnalogCalls(at, w) + DigitalCalls(at, w)
  {
    var calls, parts := Issued([], w), ExposureCalls(at, w) + AnalogCalls(at, w) + DigitalCalls(at, w);
    assert |calls| == |parts|;
    forall i | 0 <= i < |parts|
      ensures Entry(at, calls[i]) == parts[i]
    {
    }
  }

  lemma {:induction false} ExposureCallsAdd(log: seq<Entry<HwCall>>, at: int, w: Writes)
    ensures var all := log + ExposureCalls(at, w);
            && Durations(all) == Durations(log) +
               (if w.exposure.None? then []
                else [Entry(at, SetFrameDuration(w.exposure.value.lineLength, w.exposure.value.frameLength))])
            && Exposures(all) == Exposures(log) +
               (if w.exposure.None? then [] else [Entry(at, SetExposure(w.exposure.value.coarse, w.exposure.value.fine))])
            && Gains(Analog, all) == Gains(Analog, log) && Gains(Digital, all) == Gains(Digital, log)
  {
    var calls := ExposureCalls(at, w);
    if w.exposure.None? {
      assert log + calls == log;
    } else {
      OneMoreCall(log, calls[0]);
      OneMoreCall(log + [calls[0]], calls[1]);
      assert log + calls == log + [calls[0]] + [calls[1]];
    }
  }

  lemma {:induction false} GainCallsAdd(log: seq<Entry<HwCall>>, at: int, w: Writes)
    ensures var all := log + AnalogCalls(at, w) + DigitalCalls(at, w);
            && Durations(all) == Durations(log) && Exposures(all) == Exposures(log)
            && Gains(Analog, all) == Gains(Analog, log) + AnalogCalls(at, w)
            && Gains(Digital, all) == Gains(Digital, log) + DigitalCalls(at, w)
  {
    var analog, digital := AnalogCalls(at, w), DigitalCalls(at, w);
    if w.analog.None? {
      assert log + analog == log;
    } else {
      OneMoreCall(log, analog[0]);
    }
    if w.digital.None? {
      assert log + analog + digital == log + analog;
    } else {
      OneMoreCall(log + analog, digital[0]);
    }
  }

  /** The calls of each kind carry what the schedule logs. */
  ghost predicate Carries(calls: seq<Entry<HwCall>>, log: seq<Entry<seq<int>>>, g: Gain) {
    && |calls| == |log|
    && forall i :: 0 <= i < |log| ==>
         calls[i] == Entry(log[i].at, if g.Analog? then SetAnalogGains(log[i].value) else SetDigitalGains(log[i].value))
  }

  ghost predicate CarriesExposures(durations: seq<Entry<HwCall>>, exposures: seq<Entry<HwCall>>, log: seq<Entry<ExposureData>>) {
    && |durations| == |exposures| == |log|
    && forall i :: 0 <= i < |log| ==>
         && durations[i] == Entry(log[i].at, SetFrameDuration(log[i].value.lineLength, log[i].value.frameLength))
         && exposures[i] == Entry(log[i].at, SetExposure(log[i].value.coarse, log[i].value.fine))
  }

  ghost predicate Delivers(log: seq<Entry<HwCall>>, exposures: seq<Entry<ExposureData>>, analog: seq<Entry<seq<int>>>, digital: seq<Entry<seq<int>>>) {
    && CarriesExposures(Durations(log), Exposures(log), exposures)
    && Carries(Gains(Analog, log), analog, Analog)
    && Carries(Gains(Digital, log), digital, Digital)
  }

  lemma {:induction false} CarriesOneMore(calls: seq<Entry<HwCall>>, log: seq<Entry<seq<int>>>, g: Gain, at: int, v: Option<seq<int>>, more: seq<Entry<HwCall>>)
    requires Carries(calls, log, g)
    requires more == if v.None? then [] else [Entry(at, if g.Analog? then SetAnalogGains(v.value) else SetDigitalGains(v.value))]
    ensures Carries(calls + more, Logged(log, at, v), g)
  {
  }

  lemma {:induction false} CarriesOneMoreExposure(durations: seq<Entry<HwCall>>, exposures: seq<Entry<HwCall>>, log: seq<Entry<ExposureData>>,
                                                  at: int, v: Option<ExposureData>, duration: seq<Entry<HwCall>>, exposure: seq<Entry<HwCall>>)
    requires CarriesExposures(durations, exposures, log)
    requires duration == if v.None? then [] else [Entry(at, SetFrameDuration(v.value.lineLength, v.value.frameLength))]
    requires exposure == if v.None? then [] else [Entry(at, SetExposure(v.value.coarse, v.value.fine))]
    ensures CarriesExposures(durations + duration, exposures + exposure, Logged(log, at, v))
  {
  }

  /** The calls of one kind after a step. */
  lemma {:induction false} StepCalls(log: seq<Entry<HwCall>>, at: int, w: Writes)
    ensures var all := log + Stamped(at, Issued([], w));
            && Durations(all) == Durations(log) +
               (if w.exposure.None? then []
                else [Entry(at, SetFrameDuration(w.exposure.value.lineLength, w.exposure.value.frameLength))])
            && Exposures(all) == Exposures(log) +
               (if w.exposure.None? then [] else [Entry(at, SetExposure(w.exposure.value.coarse, w.exposure.value.fine))])
            && Gains(Analog, all) == Gains(Analog, log) + AnalogCalls(at, w)
            && Gains(Digital, all) == Gains(Digital, log) + DigitalCalls(at, w)
  {
    StampedInOrder(at, w);
    ExposureCallsAdd(log, at, w);
    var exposed := log + ExposureCalls(at, w);
    GainCallsAdd(exposed, at, w);
    assert log + Stamped(at, Issued([], w)) == exposed + AnalogCalls(at, w) + DigitalCalls(at, w);
  }

  lemma {:induction false} StepDelivers(log: seq<Entry<HwCall>>, exposures: seq<Entry<ExposureData>>, analog: seq<Entry<seq<int>>>,
                                        digital: seq<Entry<seq<int>>>, at: int, w: Writes, all: seq<Entry<HwCall>>)
    requires Delivers(log, exposures, analog, digital) && all == log + Stamped(at, Issued([], w))
    ensures Delivers(all, Logged(exposures, at, w.exposure), Logged(analog, at, w.analog), Logged(digital, at, w.digital))
  {
    StepCalls(log, at, w);
    var e := w.exposure;
    CarriesOneMoreExposure(Durations(log), Exposures(log), exposures, at, e,
                           if e.None? then [] else [Entry(at, SetFrameDuration(e.value.lineLength, e.value.frameLength))],
                           if e.None? then [] else [Entry(at, SetExposure(e.value.coarse, e.value.fine))]);
    CarriesOneMore(Gains(Analog, log), analog, Analog, at, w.analog, AnalogCalls(at, w));
    CarriesOneMore(Gains(Digital, log), digital, Digital, at, w.digital, DigitalCalls(at, w));
  }

  /** Over every run the driver receives, kind by kind, exactly what the schedule hands out. */
  lemma {:induction false} RunsDeliver(cfg: Config, run: History)
    ensures Delivers(DriverLog(cfg, run), ExposureLog(cfg, run), GainLog(Analog, cfg, run), GainLog(Digital, cfg, run))
  {
    if run.Then? {
      var before := run.before;
      var o := Step(cfg, After(cfg, before), run.ev);
      RunsDeliver(cfg, before);
      StepDelivers(DriverLog(cfg, before), ExposureLog(cfg, before), GainLog(Analog, cfg, before), GainLog(Digital, cfg, before),
                   o.next.lastSof, o.writes, DriverLog(cfg, run));
    }
  }

  /** Over every run of queued updates, the `i`-th call of each kind is for the `i`-th request and carries its values,
      on the frame that lies the lag of that kind before a common one, as soon as that frame has started. */
  lemma {:induction false} DriverGetsEachRequest(cfg: Config, run: History, i: nat, j: nat)
    requires LagsValid(cfg) && Follows(Booked, cfg, run) && i < |Requested(run)| && j < |Requested(run)[i]|
    requires GainsFit(Analog, cfg, run) && GainsFit(Digital, cfg, run)
    ensures |Assigned(cfg, run)| == |Requested(run)|
    ensures var exps, now, log := Requested(run)[i], After(cfg, run).lastSof, DriverLog(cfg, run);
            var frame := Assigned(cfg, run)[i] + cfg.exposureLag;
            var durations, exposures := Durations(log), Exposures(log);
            && (i < |durations| <==> i < |exposures|) && (i < |exposures| <==> frame - cfg.exposureLag <= now)
            && (i < |exposures| ==>
                  && durations[i] == Entry(frame - cfg.exposureLag, SetFrameDuration(exps[0].lineLength, exps[0].frameLength))
                  && exposures[i].at == frame - cfg.exposureLag && exposures[i].value.SetExposure?
                  && |exposures[i].value.coarse| == |exposures[i].value.fine| == |exps|
                  && exposures[i].value.coarse[j] == exps[j].coarse && exposures[i].value.fine[j] == exps[j].fine)
    ensures var exps, now, gains := Requested(run)[i], After(cfg, run).lastSof, Gains(Analog, DriverLog(cfg, run));
            var frame := Assigned(cfg, run)[i] + cfg.exposureLag;
            var due := frame - if cfg.analogGainLag > 0 then cfg.analogGainLag else cfg.exposureLag;
            && (i < |gains| <==> due <= now)
            && (i < |gains| ==>
                  && gains[i].at == due && gains[i].value.SetAnalogGains? && |gains[i].value.gains| == |exps|
                  && gains[i].value.gains[j] == exps[j].analogGain)
    ensures var exps, now, gains := Requested(run)[i], After(cfg, run).lastSof, Gains(Digital, DriverLog(cfg, run));
            var frame := Assigned(cfg, run)[i] + cfg.exposureLag;
            var due := frame - if cfg.digitalGainLag >= 0 then cfg.digitalGainLag
                               else if cfg.analogGainLag > 0 then cfg.analogGainLag else cfg.exposureLag;
            && (i < |gains| <==> due <= now)
            && (i < |gains| ==>
                  && gains[i].at == due && gains[i].value.SetDigitalGains? && |gains[i].value.gains| == |exps|
                  && gains[i].value.gains[j] ==
                     if cfg.usingIspDigitalGain then cfg.sensorDigitalGain(exps[j].realDigitalGain) else exps[j].digitalGain)
  {
    RunsDeliver(cfg, run);
    CollectedInOrder(cfg, Requested(run)[i]);
    GainsTakeEffectWithTheExposure(cfg, run, i, Analog);
    GainsTakeEffectWithTheExposure(cfg, run, i, Digital);
  }
}
