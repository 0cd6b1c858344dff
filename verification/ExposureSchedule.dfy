/** The exposure scheduler as a transition system: what one start-of-frame event
    or one exposure update does to the pending maps, which values it hands to the
    sensor driver, and which frame the update is reported to take effect on.

    Class `SensorManagement.SensorManager` is proved to perform exactly these steps.
  */
module ExposureSchedule {
  import opened Basics

  /** One exposure of an AE result. */
  datatype SensorExposure = SensorExposure(
    lineLength: int, frameLength: int, coarse: int, fine: int,
    analogGain: int, digitalGain: int, realDigitalGain: int)

  datatype ExposureData = ExposureData(coarse: seq<int>, fine: seq<int>, lineLength: int, frameLength: int)

  /** The platform settings the scheduler reads. */
  datatype Config = Config(
    exposureLag: int, analogGainLag: int, digitalGainLag: int,
    waitFirstStats: bool, isysEnabled: bool, initialSkipFrame: nat,
    usingIspDigitalGain: bool, sensorDigitalGain: int -> int)
  {
    function AnalogDelay(): int {
      if analogGainLag > 0 then exposureLag - analogGainLag else 0
    }

    function DigitalDelay(): int {
      if digitalGainLag >= 0 then exposureLag - digitalGainLag else AnalogDelay()
    }
  }

  datatype State = State(
    lastSof: int,
    exposures: map<int, ExposureData>, analog: map<int, seq<int>>, digital: map<int, seq<int>>)

  /** The values one step hands to the sensor driver. */
  datatype Writes = Writes(exposure: Option<ExposureData>, analog: Option<seq<int>>, digital: Option<seq<int>>)

  datatype Outcome = Outcome(next: State, writes: Writes, effect: int)

  const RESET := State(-1, map[], map[], map[])
  const NO_WRITES := Writes(None, None, None)

  function CoarseOf(exps: seq<SensorExposure>): seq<int> {
    if exps == [] then [] else CoarseOf(exps[..|exps| - 1]) + [exps[|exps| - 1].coarse]
  }

  function FineOf(exps: seq<SensorExposure>): seq<int> {
    if exps == [] then [] else FineOf(exps[..|exps| - 1]) + [exps[|exps| - 1].fine]
  }

  function ExposureOf(exps: seq<SensorExposure>): ExposureData
    requires exps != []
  {
    ExposureData(CoarseOf(exps), FineOf(exps), exps[0].lineLength, exps[0].frameLength)
  }

  function AnalogGainsOf(exps: seq<SensorExposure>): seq<int> {
    if exps == [] then [] else AnalogGainsOf(exps[..|exps| - 1]) + [exps[|exps| - 1].analogGain]
  }

  function DigitalGainOf(cfg: Config, e: SensorExposure): int {
    if cfg.usingIspDigitalGain then cfg.sensorDigitalGain(e.realDigitalGain) else e.digitalGain
  }

  function DigitalGainsOf(cfg: Config, exps: seq<SensorExposure>): seq<int> {
    if exps == [] then []
    else DigitalGainsOf(cfg, exps[..|exps| - 1]) + [DigitalGainOf(cfg, exps[|exps| - 1])]
  }

  /** The values handed out are those of the exposures, in order; the digital gains are the sensor's own, or those the
      platform gives for the gains asked of the ISP. */
  lemma {:induction false} CollectedInOrder(cfg: Config, exps: seq<SensorExposure>)
    ensures |CoarseOf(exps)| == |FineOf(exps)| == |AnalogGainsOf(exps)| == |DigitalGainsOf(cfg, exps)| == |exps|
    ensures forall i :: 0 <= i < |exps| ==>
              && CoarseOf(exps)[i] == exps[i].coarse && FineOf(exps)[i] == exps[i].fine
              && AnalogGainsOf(exps)[i] == exps[i].analogGain
              && DigitalGainsOf(cfg, exps)[i] ==
                 if cfg.usingIspDigitalGain then cfg.sensorDigitalGain(exps[i].realDigitalGain) else exps[i].digitalGain
    ensures exps != [] ==>
              var d := ExposureOf(exps);
              && d.coarse == CoarseOf(exps) && d.fine == FineOf(exps)
              && d.lineLength == exps[0].lineLength && d.frameLength == exps[0].frameLength
  {
    if exps != [] {
      CollectedInOrder(cfg, exps[..|exps| - 1]);
    }
  }

  function Lookup<V>(m: map<int, V>, k: int): Option<V> {
    if k in m then Some(m[k]) else None
  }

  /** A start-of-frame event hands out the entries whose key is exactly `sof`. */
  function SofStep(s: State, sof: int): Outcome {
    Outcome(State(sof, Without(s.exposures, sof), Without(s.analog, sof), Without(s.digital, sof)),
            Writes(Lookup(s.exposures, sof), Lookup(s.analog, sof), Lookup(s.digital, sof)),
            0)
  }

  /** The frame a setting applied now would affect, before queueing is counted. */
  function BaseEffect(cfg: Config, s: State): int {
    if s.lastSof >= 0 then s.lastSof + cfg.exposureLag
    else if cfg.waitFirstStats then 0
    else cfg.exposureLag
  }

  predicate Immediate(s: State, applyingSeq: int) {
    applyingSeq > 0 && applyingSeq == s.lastSof
  }

  /** The start-of-frame at which an update's exposure reaches the sensor. */
  function SensorSeq(s: State, applyingSeq: int): int {
    ToInt32(if Immediate(s, applyingSeq) then applyingSeq else s.lastSof + |s.exposures| + 1)
  }

  /** Queues an exposure and its gains, or writes those due at the current frame. */
  function ScheduleStep(
    cfg: Config, s: State, exposure: ExposureData, analog: seq<int>, digital: seq<int>, applyingSeq: int): Outcome
  {
    var sensorSeq := SensorSeq(s, applyingSeq);
    var analogSeq, digitalSeq := sensorSeq + cfg.AnalogDelay(), sensorSeq + cfg.DigitalDelay();
    var now, analogNow, digitalNow := Immediate(s, applyingSeq), analogSeq == s.lastSof, digitalSeq == s.lastSof;
    var next := State(s.lastSof,
                      if now then s.exposures else s.exposures[sensorSeq := exposure],
                      if analogNow then s.analog else s.analog[analogSeq := analog],
                      if digitalNow then s.digital else s.digital[digitalSeq := digital]);
    Outcome(next,
            Writes(if now then Some(exposure) else None,
                   if analogNow then Some(analog) else None,
                   if digitalNow then Some(digital) else None),
            ToUint32(BaseEffect(cfg, s) + |next.exposures|))
  }

  function UpdateStep(cfg: Config, s: State, exps: seq<SensorExposure>, applyingSeq: int): Outcome {
    var base := BaseEffect(cfg, s);
    if exps == [] then
      Outcome(s, NO_WRITES, ToUint32(base))
    else
      var exposure, analog, digital := ExposureOf(exps), AnalogGainsOf(exps), DigitalGainsOf(cfg, exps);
      if base > 0 then
        ScheduleStep(cfg, s, exposure, analog, digital, applyingSeq)
      else
        Outcome(s,
                if cfg.isysEnabled then Writes(Some(exposure), Some(analog), Some(digital)) else NO_WRITES,
                ToUint32(if base == 0 then cfg.initialSkipFrame else base))
  }

  // ---------------------------------------------------------------- one step

  /** The pending exposures sit on the frames right after the last one seen. */
  ghost predicate Contiguous(s: State) {
    forall k :: k in s.exposures <==> s.lastSof < k <= s.lastSof + |s.exposures|
  }

  /** Room left before a computed sequence number stops fitting 32 bits. */
  ghost predicate InRange(cfg: Config, s: State) {
    -1 <= s.lastSof && s.lastSof + |s.exposures| + cfg.exposureLag + 1 <= INT32_MAX
  }

  ghost predicate LagsValid(cfg: Config) {
    && 0 < cfg.exposureLag
    && cfg.initialSkipFrame <= INT32_MAX
  }

  /** A start of frame keeps the pending exposures on the next frames exactly when it
      is the next frame, or repeats the last one, or nothing was pending. */
  lemma {:induction false} SofKeepsContiguousIff(s: State, sof: int)
    requires Contiguous(s)
    ensures Contiguous(SofStep(s, sof).next) <==>
            sof == s.lastSof + 1 || sof == s.lastSof || s.exposures == map[]
  {
    var s' := SofStep(s, sof).next;
    var n := |s.exposures|;
    assert s'.exposures.Keys == s.exposures.Keys - {sof};
    if sof in s.exposures {
      assert s.exposures.Keys == s'.exposures.Keys + {sof};
      assert |s'.exposures| == n - 1;
      if sof == s.lastSof + 1 {
        assert Contiguous(s');
      } else {
        assert s.lastSof + 1 in s'.exposures;
        assert !Contiguous(s');
      }
    } else {
      assert s'.exposures == s.exposures;
      if n > 0 {
        assert s.lastSof + 1 in s.exposures && s.lastSof + n in s.exposures;
        if Contiguous(s') {
          assert sof < s.lastSof + 1;
          assert s.lastSof + n <= sof + n;
        }
      } else {
        assert s.exposures == map[];
        assert Contiguous(s');
      }
    }
  }

  /** The next frame takes one exposure off the front of the queue, if there is one. */
  lemma {:induction false} NextSofKeepsEnd(s: State)
    requires Contiguous(s)
    ensures var next := SofStep(s, s.lastSof + 1).next;
            && Contiguous(next)
            && |next.exposures| == (if s.exposures == map[] then 0 else |s.exposures| - 1)
  {
    var t := s.lastSof + 1;
    var next := SofStep(s, t).next;
    SofKeepsContiguousIff(s, t);
    if s.exposures != map[] {
      var k :| k in s.exposures;
      assert t in s.exposures;
      assert next.exposures.Keys + {t} == s.exposures.Keys;
    } else {
      assert next.exposures == map[];
    }
  }

  /** A queued update lands on the first free frame, so it overwrites no pending exposure. */
  lemma {:induction false} QueuedUpdateIsNew(cfg: Config, s: State, exps: seq<SensorExposure>, applyingSeq: int)
    requires LagsValid(cfg) && Contiguous(s) && InRange(cfg, s)
    requires exps != [] && BaseEffect(cfg, s) > 0 && !Immediate(s, applyingSeq)
    ensures var o := UpdateStep(cfg, s, exps, applyingSeq);
            var k := SensorSeq(s, applyingSeq);
            && k == s.lastSof + |s.exposures| + 1
            && k !in s.exposures
            && o.next.exposures == s.exposures[k := ExposureOf(exps)]
            && |o.next.exposures| == |s.exposures| + 1
            && o.writes.exposure == None
            && o.effect == k + cfg.exposureLag + (if s.lastSof < 0 then 1 else 0)
  {
    var k := SensorSeq(s, applyingSeq);
    var next := UpdateStep(cfg, s, exps, applyingSeq).next;
    assert next.exposures.Keys == s.exposures.Keys + {k};
  }

  lemma {:induction false} UpdateKeepsContiguous(cfg: Config, s: State, exps: seq<SensorExposure>, applyingSeq: int)
    requires LagsValid(cfg) && Contiguous(s) && InRange(cfg, s)
    ensures Contiguous(UpdateStep(cfg, s, exps, applyingSeq).next)
  {
    if exps != [] && BaseEffect(cfg, s) > 0 && !Immediate(s, applyingSeq) {
      QueuedUpdateIsNew(cfg, s, exps, applyingSeq);
    } else {
      assert UpdateStep(cfg, s, exps, applyingSeq).next.exposures == s.exposures;
    }
  }

  /** A start of frame hands out exactly what is due on it, and everything else stays. */
  lemma {:induction false} SofHandsOut(s: State, sof: int)
    ensures var o := SofStep(s, sof);
            && o.next.lastSof == sof
            && (if sof in s.exposures then o.writes.exposure == Some(s.exposures[sof]) else o.writes.exposure == None)
            && (if sof in s.analog then o.writes.analog == Some(s.analog[sof]) else o.writes.analog == None)
            && (if sof in s.digital then o.writes.digital == Some(s.digital[sof]) else o.writes.digital == None)
            && o.next.exposures.Keys == s.exposures.Keys - {sof} && o.next.analog.Keys == s.analog.Keys - {sof}
            && o.next.digital.Keys == s.digital.Keys - {sof}
            && (forall k :: k in o.next.exposures ==> o.next.exposures[k] == s.exposures[k])
            && (forall k :: k in o.next.analog ==> o.next.analog[k] == s.analog[k])
            && (forall k :: k in o.next.digital ==> o.next.digital[k] == s.digital[k])
  {
  }

  /** Before the first frame, in wait-first-stats mode, an update changes nothing that is pending and reports the initial
      skip count; its values are written at once exactly if the input system is in use. */
  lemma {:induction false} DirectUpdate(cfg: Config, s: State, exps: seq<SensorExposure>, applyingSeq: int)
    requires LagsValid(cfg) && cfg.waitFirstStats && s.lastSof < 0 && exps != []
    ensures var o := UpdateStep(cfg, s, exps, applyingSeq);
            && o.next == s && o.effect == cfg.initialSkipFrame
            && (cfg.isysEnabled ==> o.writes == Writes(Some(ExposureOf(exps)), Some(AnalogGainsOf(exps)), Some(DigitalGainsOf(cfg, exps))))
            && (!cfg.isysEnabled ==> o.writes == Writes(None, None, None))
  {
  }

  /** An update without exposures changes and writes nothing, and reports the frame the next SOF's setting would affect. */
  lemma {:induction false} EmptyUpdate(cfg: Config, s: State, applyingSeq: int)
    requires LagsValid(cfg) && InRange(cfg, s)
    ensures var o := UpdateStep(cfg, s, [], applyingSeq);
            && o.next == s && o.writes == Writes(None, None, None)
            && o.effect == if s.lastSof >= 0 then s.lastSof + cfg.exposureLag
                           else if cfg.waitFirstStats then 0 else cfg.exposureLag
  {
  }

  /** Where the gain of an update goes: it is written if due at the current frame, or else replaces what is pending for
      the frame it is due at. */
  ghost predicate GainGoes(pending: map<int, seq<int>>, next: map<int, seq<int>>, written: Option<seq<int>>, now: int, due: int, gains: seq<int>) {
    if due == now then written == Some(gains) && next == pending
    else written == None && next == pending[due := gains]
  }

  /** The SOF at which an update's exposure is written. */
  lemma {:induction false} SensorSeqIs(cfg: Config, s: State, applyingSeq: int)
    requires LagsValid(cfg) && InRange(cfg, s)
    ensures SensorSeq(s, applyingSeq) ==
            if 0 < applyingSeq && applyingSeq == s.lastSof then s.lastSof else s.lastSof + |s.exposures| + 1
  {
  }

  lemma {:induction false} ScheduleGoes(cfg: Config, s: State, exposure: ExposureData, analog: seq<int>, digital: seq<int>, applyingSeq: int, at: int)
    requires at == SensorSeq(s, applyingSeq)
    ensures var o := ScheduleStep(cfg, s, exposure, analog, digital, applyingSeq);
            var now := 0 < applyingSeq && applyingSeq == s.lastSof;
            var analogDelay := if cfg.analogGainLag > 0 then cfg.exposureLag - cfg.analogGainLag else 0;
            var digitalDelay := if cfg.digitalGainLag >= 0 then cfg.exposureLag - cfg.digitalGainLag else analogDelay;
            && o.next.lastSof == s.lastSof
            && (if now then o.writes.exposure == Some(exposure) && o.next.exposures == s.exposures
                else o.writes.exposure == None && o.next.exposures == s.exposures[at := exposure])
            && GainGoes(s.analog, o.next.analog, o.writes.analog, s.lastSof, at + analogDelay, analog)
            && GainGoes(s.digital, o.next.digital, o.writes.digital, s.lastSof, at + digitalDelay, digital)
  {
  }

  lemma {:induction false} UpdateSchedules(cfg: Config, s: State, exps: seq<SensorExposure>, applyingSeq: int)
    requires LagsValid(cfg) && InRange(cfg, s) && exps != [] && (s.lastSof >= 0 || !cfg.waitFirstStats)
    ensures UpdateStep(cfg, s, exps, applyingSeq) ==
            ScheduleStep(cfg, s, ExposureOf(exps), AnalogGainsOf(exps), DigitalGainsOf(cfg, exps), applyingSeq)
  {
  }

  /** An update with exposures once the frame it affects is known: applied at the current frame only if that is asked for by
      its number and the number is positive, queued behind all others otherwise, with each gain the difference of the lags
      after the exposure. */
  lemma {:induction false} UpdateGoes(cfg: Config, s: State, exps: seq<SensorExposure>, applyingSeq: int)
    requires LagsValid(cfg) && InRange(cfg, s) && exps != [] && (s.lastSof >= 0 || !cfg.waitFirstStats)
    ensures var o := UpdateStep(cfg, s, exps, applyingSeq);
            var now := 0 < applyingSeq && applyingSeq == s.lastSof;
            var at := if now then s.lastSof else s.lastSof + |s.exposures| + 1;
            var analogDelay := if cfg.analogGainLag > 0 then cfg.exposureLag - cfg.analogGainLag else 0;
            var digitalDelay := if cfg.digitalGainLag >= 0 then cfg.exposureLag - cfg.digitalGainLag else analogDelay;
            && o.next.lastSof == s.lastSof
            && (if now then o.writes.exposure == Some(ExposureOf(exps)) && o.next.exposures == s.exposures
                else o.writes.exposure == None && o.next.exposures == s.exposures[at := ExposureOf(exps)])
            && GainGoes(s.analog, o.next.analog, o.writes.analog, s.lastSof, at + analogDelay, AnalogGainsOf(exps))
            && GainGoes(s.digital, o.next.digital, o.writes.digital, s.lastSof, at + digitalDelay, DigitalGainsOf(cfg, exps))
  {
    var exposure, analog, digital := ExposureOf(exps), AnalogGainsOf(exps), DigitalGainsOf(cfg, exps);
    UpdateSchedules(cfg, s, exps, applyingSeq);
    SensorSeqIs(cfg, s, applyingSeq);
    ScheduleGoes(cfg, s, exposure, analog, digital, applyingSeq, SensorSeq(s, applyingSeq));
  }

  /** What such an update reports: the frame its exposure takes effect on, one later before the first frame; applied at the
      current frame, it counts those still queued. */
  lemma {:induction false} UpdateReports(cfg: Config, s: State, exps: seq<SensorExposure>, applyingSeq: int)
    requires LagsValid(cfg) && Contiguous(s) && InRange(cfg, s) && exps != [] && (s.lastSof >= 0 || !cfg.waitFirstStats)
    ensures UpdateStep(cfg, s, exps, applyingSeq).effect ==
            |s.exposures| + cfg.exposureLag + (if 0 < applyingSeq && applyingSeq == s.lastSof then 0 else 1) + (if s.lastSof >= 0 then s.lastSof else 0)
  {
    if !(0 < applyingSeq && applyingSeq == s.lastSof) {
      QueuedUpdateIsNew(cfg, s, exps, applyingSeq);
    }
  }

  /** The assigned frame is the first free one exactly while it fits a signed 32-bit integer. */
  lemma {:induction false} SensorSeqExactIff(s: State, applyingSeq: int)
    requires -1 <= s.lastSof && !Immediate(s, applyingSeq)
    ensures SensorSeq(s, applyingSeq) == s.lastSof + |s.exposures| + 1 <==>
            s.lastSof + |s.exposures| + 1 <= INT32_MAX
  {
  }
}
