/** The sensor manager object: queues exposures and gains per start-of-frame sequence
    and hands them to the sensor driver.  Each method is proved to perform the step of
    `ExposureSchedule` that bears on it, and to make exactly the driver calls of that step.
  */
module SensorManagement {
  import opened Basics
  import opened ExposureSchedule

  datatype HwCall =
    | SetFrameDuration(lineLength: int, frameLength: int)
    | SetExposure(coarse: seq<int>, fine: seq<int>)
    | SetAnalogGains(gains: seq<int>)
    | SetDigitalGains(gains: seq<int>)

  /** `calls` followed by the driver calls that hand out one step's values, in the order they are made. */
  function Issued(calls: seq<HwCall>, w: Writes): (r: seq<HwCall>)
    ensures calls <= r
    ensures var exposed := |calls| + if w.exposure.Some? then 2 else 0;
            && |r| == exposed + (if w.analog.Some? then 1 else 0) + (if w.digital.Some? then 1 else 0)
            && (w.exposure.Some? ==>
                  && r[|calls|] == SetFrameDuration(w.exposure.value.lineLength, w.exposure.value.frameLength)
                  && r[|calls| + 1] == SetExposure(w.exposure.value.coarse, w.exposure.value.fine))
            && (w.analog.Some? ==> r[exposed] == SetAnalogGains(w.analog.value))
            && (w.digital.Some? ==> r[|r| - 1] == SetDigitalGains(w.digital.value))
  {
    var exposed :=
      if w.exposure.Some?
      then calls + [SetFrameDuration(w.exposure.value.lineLength, w.exposure.value.frameLength),
                    SetExposure(w.exposure.value.coarse, w.exposure.value.fine)]
      else calls;
    var amplified := if w.analog.Some? then exposed + [SetAnalogGains(w.analog.value)] else exposed;
    if w.digital.Some? then amplified + [SetDigitalGains(w.digital.value)] else amplified
  }

  /** The sensor driver, reduced to the calls it has received. */
  class SensorHwCtrl {
    var calls: seq<HwCall>

    constructor ()
      ensures calls == []
    {
      calls := [];
    }

    method ApplyExposure(d: ExposureData)
      modifies this
      ensures calls == old(calls) + [SetFrameDuration(d.lineLength, d.frameLength), SetExposure(d.coarse, d.fine)]
    {
      calls := calls + [SetFrameDuration(d.lineLength, d.frameLength)];
      calls := calls + [SetExposure(d.coarse, d.fine)];
    }

    method ApplyAnalogGains(gains: seq<int>)
      modifies this
      ensures calls == old(calls) + [SetAnalogGains(gains)]
    {
      calls := calls + [SetAnalogGains(gains)];
    }

    method ApplyDigitalGains(gains: seq<int>)
      modifies this
      ensures calls == old(calls) + [SetDigitalGains(gains)]
    {
      calls := calls + [SetDigitalGains(gains)];
    }
  }

  class SensorManager {
    const cfg: Config
    const hw: SensorHwCtrl
    const analogGainDelay: int
    const digitalGainDelay: int
    var lastSofSequence: int
    var exposureDataMap: map<int, ExposureData>
    var analogGainMap: map<int, seq<int>>
    var digitalGainMap: map<int, seq<int>>

    ghost predicate Valid() {
      analogGainDelay == cfg.AnalogDelay() && digitalGainDelay == cfg.DigitalDelay()
    }

    ghost function Abs(): State
      reads this
    {
      State(lastSofSequence, exposureDataMap, analogGainMap, digitalGainMap)
    }

    constructor (cfg: Config, hw: SensorHwCtrl)
      ensures Valid() && this.cfg == cfg && this.hw == hw
      ensures Abs() == RESET
    {
      this.cfg := cfg;
      this.hw := hw;
      lastSofSequence, exposureDataMap, analogGainMap, digitalGainMap := -1, map[], map[], map[];
      var analogDelay, digitalDelay := 0, 0;
      if cfg.analogGainLag > 0 {
        analogDelay := cfg.exposureLag - cfg.analogGainLag;
        digitalDelay := analogDelay;
      }
      if cfg.digitalGainLag >= 0 {
        digitalDelay := cfg.exposureLag - cfg.digitalGainLag;
      }
      analogGainDelay, digitalGainDelay := analogDelay, digitalDelay;
    }

    method Reset()
      requires Valid()
      modifies this
      ensures Valid() && Abs() == RESET
    {
      lastSofSequence, exposureDataMap, analogGainMap, digitalGainMap := -1, map[], map[], map[];
    }

    method HandleSofEvent(sequence: int)
      requires Valid()
      modifies this, hw
      ensures Valid()
      ensures var o := SofStep(old(Abs()), sequence);
              Abs() == o.next && hw.calls == Issued(old(hw.calls), o.writes)
    {
      lastSofSequence := sequence;
      HandleSensorExposure();
    }

    method HandleSensorExposure()
      requires Valid()
      modifies this`exposureDataMap, this`analogGainMap, this`digitalGainMap, hw
      ensures Valid()
      ensures var o := SofStep(old(Abs()), lastSofSequence);
              Abs() == o.next && hw.calls == Issued(old(hw.calls), o.writes)
    {
      assert forall m: map<int, seq<int>>, k :: k !in m ==> Without(m, k) == m;
      if lastSofSequence in exposureDataMap {
        hw.ApplyExposure(exposureDataMap[lastSofSequence]);
        exposureDataMap := Without(exposureDataMap, lastSofSequence);
      } else {
        assert Without(exposureDataMap, lastSofSequence) == exposureDataMap;
      }
      if lastSofSequence in analogGainMap {
        hw.ApplyAnalogGains(analogGainMap[lastSofSequence]);
        analogGainMap := Without(analogGainMap, lastSofSequence);
      }
      if lastSofSequence in digitalGainMap {
        hw.ApplyDigitalGains(digitalGainMap[lastSofSequence]);
        digitalGainMap := Without(digitalGainMap, lastSofSequence);
      }
    }

    method GetCurrentExposureAppliedDelay() returns (delay: int)
      ensures delay == |Abs().exposures| + cfg.exposureLag
    {
      delay := |exposureDataMap| + cfg.exposureLag;
    }

    /** Collects the per-exposure values, in order. */
    method Collect(exps: seq<SensorExposure>) returns (data: ExposureData, analog: seq<int>, digital: seq<int>)
      requires exps != []
      ensures data == ExposureOf(exps)
      ensures analog == AnalogGainsOf(exps)
      ensures digital == DigitalGainsOf(cfg, exps)
    {
      var coarse, fine := [], [];
      analog, digital := [], [];
      for i := 0 to |exps|
        invariant coarse == CoarseOf(exps[..i]) && fine == FineOf(exps[..i])
        invariant analog == AnalogGainsOf(exps[..i]) && digital == DigitalGainsOf(cfg, exps[..i])
      {
        assert exps[..i + 1][..i] == exps[..i];
        var exp := exps[i];
        coarse, fine := coarse + [exp.coarse], fine + [exp.fine];
        analog := analog + [exp.analogGain];
        var digitalGain := exp.digitalGain;
        if cfg.usingIspDigitalGain {
          digitalGain := cfg.sensorDigitalGain(exp.realDigitalGain);
        }
        digital := digital + [digitalGain];
      }
      assert exps[..|exps|] == exps;
      data := ExposureData(coarse, fine, exps[0].lineLength, exps[0].frameLength);
    }

    /** The branch of `UpdateSensorExposure` that queues the values, or applies those due now. */
    method Schedule(data: ExposureData, analog: seq<int>, digital: seq<int>, applyingSeq: int)
      requires Valid()
      modifies this`exposureDataMap, this`analogGainMap, this`digitalGainMap, hw
      ensures Valid()
      ensures var o := ScheduleStep(cfg, old(Abs()), data, analog, digital, applyingSeq);
              Abs() == o.next && hw.calls == Issued(old(hw.calls), o.writes)
    {
      var sensorSeq := ToInt32(lastSofSequence + |exposureDataMap| + 1);
      if applyingSeq > 0 && applyingSeq == lastSofSequence {
        sensorSeq := ToInt32(applyingSeq);
        hw.ApplyExposure(data);
      } else {
        exposureDataMap := exposureDataMap[sensorSeq := data];
      }
      if sensorSeq + analogGainDelay == lastSofSequence {
        hw.ApplyAnalogGains(analog);
      } else {
        analogGainMap := analogGainMap[sensorSeq + analogGainDelay := analog];
      }
      if sensorSeq + digitalGainDelay == lastSofSequence {
        hw.ApplyDigitalGains(digital);
      } else {
        digitalGainMap := digitalGainMap[sensorSeq + digitalGainDelay := digital];
      }
    }

    method UpdateSensorExposure(sensorExposures: seq<SensorExposure>, applyingSeq: int) returns (effect: int)
      requires Valid()
      modifies this, hw
      ensures Valid()
      ensures var o := UpdateStep(cfg, old(Abs()), sensorExposures, applyingSeq);
              Abs() == o.next && effect == o.effect && hw.calls == Issued(old(hw.calls), o.writes)
    {
      var effectSeq := 0;
      if cfg.waitFirstStats {
        effectSeq := if lastSofSequence < 0 then 0 else lastSofSequence + cfg.exposureLag;
      } else {
        effectSeq := if lastSofSequence < 0 then cfg.exposureLag else lastSofSequence + cfg.exposureLag;
      }
      if sensorExposures == [] {
        return ToUint32(effectSeq);
      }
      var data, analog, digital := Collect(sensorExposures);
      if effectSeq > 0 {
        Schedule(data, analog, digital, applyingSeq);
        effectSeq := effectSeq + |exposureDataMap|;
      } else if cfg.isysEnabled {
        hw.ApplyExposure(data);
        hw.ApplyAnalogGains(analog);
        hw.ApplyDigitalGains(digital);
      }
      if effectSeq == 0 {
        effectSeq := cfg.initialSkipFrame;
      }
      return ToUint32(effectSeq);
    }
  }
}
