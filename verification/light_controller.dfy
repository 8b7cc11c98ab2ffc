/**
  `MultiDirectionalLightController`: per frame, read one feature, derive the rotation
  speed and the light intensity from it, and run a gate that decides when to pick a
  new random axis (`Resample`). The gate is either a hysteresis gate with a cooldown
  timer or a memoryless threshold.
*/
module LightController {
  import opened Wrappers
  import opened Vectors
  import opened FeatureLookup

  /** Inspector defaults. */
  const DefaultOnThreshold: real := 0.6
  const DefaultOffThreshold: real := 0.55
  const DefaultCooldown: real := 0.8

  /** The hysteresis rule: an open gate stays open above the off threshold, a closed
      gate opens above the on threshold. */
  function NextGate(open: bool, f: real, on: real, off: real): (r: bool)
    ensures open ==> (r <==> f > off)
    ensures !open ==> (r <==> f > on)
  {
    if open then f > off else f > on
  }

  /** With off at or below on, the gate opens only above on, closes only at or below off,
      and keeps its state in between. */
  lemma HysteresisBand(open: bool, f: real, on: real, off: real)
    requires off <= on
    ensures f > on ==> NextGate(open, f, on, off)
    ensures f <= off ==> !NextGate(open, f, on, off)
    ensures off < f <= on ==> NextGate(open, f, on, off) == open
  {
  }

  datatype GateState = GateState(open: bool, timer: real)
  datatype GateStep = GateStep(gate: GateState, resampled: bool)

  /** `HysteresisGate`: count the timer down by the frame time, update the gate, and
      resample when it is open and the timer has run out, restarting the timer. */
  function HysteresisGate(g: GateState, f: real, dt: real, on: real, off: real, cooldown: real): (s: GateStep)
    ensures s.gate.open == NextGate(g.open, f, on, off)
    ensures s.resampled <==> s.gate.open && g.timer - dt <= 0.0
    ensures s.resampled ==> s.gate.timer == cooldown
    ensures !s.resampled ==> s.gate.timer == g.timer - dt
  {
    var open := NextGate(g.open, f, on, off);
    var timer := g.timer - dt;
    if open && timer <= 0.0 then GateStep(GateState(open, cooldown), true)
    else GateStep(GateState(open, timer), false)
  }

  /** `SimpleGate`: open above the off threshold, resampling on every open frame; the
      timer is not touched. */
  function SimpleGate(g: GateState, f: real, off: real): (s: GateStep)
    ensures s.gate.open <==> f > off
    ensures s.resampled == s.gate.open && s.gate.timer == g.timer
  {
    GateStep(GateState(f > off, g.timer), f > off)
  }

  /** The simple gate has no memory: the previous state never changes the decision. */
  lemma SimpleGateIsMemoryless(g: GateState, h: GateState, f: real, off: real)
    ensures SimpleGate(g, f, off).gate.open == SimpleGate(h, f, off).gate.open
    ensures SimpleGate(g, f, off).resampled == SimpleGate(h, f, off).resampled
  {
  }

  /** One frame's input to the gate. */
  datatype Sample = Sample(feature: real, dt: real)

  function RunGate(g: GateState, samples: seq<Sample>, on: real, off: real, cooldown: real): GateState
    decreases |samples|
  {
    if samples == [] then g
    else RunGate(HysteresisGate(g, samples[0].feature, samples[0].dt, on, off, cooldown).gate, samples[1..], on, off, cooldown)
  }

  /** No frame of `samples` resamples. */
  predicate Quiet(g: GateState, samples: seq<Sample>, on: real, off: real, cooldown: real)
    decreases |samples|
  {
    samples == [] ||
    (var s := HysteresisGate(g, samples[0].feature, samples[0].dt, on, off, cooldown);
     !s.resampled && Quiet(s.gate, samples[1..], on, off, cooldown))
  }

  function SumDt(samples: seq<Sample>): real
    decreases |samples|
  {
    if samples == [] then 0.0 else samples[0].dt + SumDt(samples[1..])
  }

  lemma {:induction false} SumDtAppend(samples: seq<Sample>, last: Sample)
    ensures SumDt(samples + [last]) == SumDt(samples) + last.dt
    decreases |samples|
  {
    if samples != [] {
      assert (samples + [last])[1..] == samples[1..] + [last];
      SumDtAppend(samples[1..], last);
    }
  }

  /** Without a resample the timer only counts down by the elapsed time. */
  lemma {:induction false} QuietTimer(g: GateState, samples: seq<Sample>, on: real, off: real, cooldown: real)
    requires Quiet(g, samples, on, off, cooldown)
    ensures RunGate(g, samples, on, off, cooldown).timer == g.timer - SumDt(samples)
    decreases |samples|
  {
    if samples != [] {
      var s := HysteresisGate(g, samples[0].feature, samples[0].dt, on, off, cooldown);
      QuietTimer(s.gate, samples[1..], on, off, cooldown);
    }
  }

  /** Two successive resamples are at least `cooldown` of elapsed time apart: starting
      right after one (timer at `cooldown`), quiet frames followed by a resampling frame
      add up to at least `cooldown`. */
  lemma CooldownSpacing(g: GateState, quiet: seq<Sample>, last: Sample, on: real, off: real, cooldown: real)
    requires g.timer == cooldown && Quiet(g, quiet, on, off, cooldown)
    requires HysteresisGate(RunGate(g, quiet, on, off, cooldown), last.feature, last.dt, on, off, cooldown).resampled
    ensures SumDt(quiet + [last]) >= cooldown
  {
    QuietTimer(g, quiet, on, off, cooldown);
    SumDtAppend(quiet, last);
  }

  datatype LightConfig = LightConfig(
    intensitySwitch: bool,
    rotationSwitch: bool,
    hysteresisGateSwitch: bool,
    onThreshold: real,
    offThreshold: real,
    cooldown: real,
    featureIndex: int,
    intensitySeed: real,
    minIntensity: real,
    maxIntensity: real,
    rotationSeed: real,
    minRotationSpeed: real,
    maxRotationSpeed: real)

  datatype LightState = LightState(featureValue: real, rotationSpeed: real, intensity: real, gate: GateState)

  datatype LightTick = LightTick(state: LightState, resampled: bool)

  /** The values a newly read feature gives: the curve (`intensityCurve.Evaluate`) maps
      it, and each switched-on output interpolates its range by the curve value. */
  function TakeFeature(s: LightState, cfg: LightConfig, f: real, curve: real -> real): (r: LightState)
    ensures r.featureValue == f && r.gate == s.gate
    ensures !cfg.rotationSwitch ==> r.rotationSpeed == s.rotationSpeed
    ensures !cfg.intensitySwitch ==> r.intensity == s.intensity
    ensures cfg.rotationSwitch && cfg.rotationSeed >= 0.0 && cfg.minRotationSpeed <= cfg.maxRotationSpeed ==>
      cfg.rotationSeed * cfg.minRotationSpeed <= r.rotationSpeed <= cfg.rotationSeed * cfg.maxRotationSpeed
  {
    var cv := curve(f);
    var speed := if cfg.rotationSwitch then cfg.rotationSeed * LerpScalar(cfg.minRotationSpeed, cfg.maxRotationSpeed, cv) else s.rotationSpeed;
    var intensity := if cfg.intensitySwitch then cfg.intensitySeed * LerpScalar(cfg.minIntensity, cfg.maxIntensity, cv) else s.intensity;
    LerpWithinRange(cfg.minRotationSpeed, cfg.maxRotationSpeed, cv, cfg.rotationSeed);
    LightState(f, speed, intensity, s.gate)
  }

  lemma LerpWithinRange(a: real, b: real, t: real, k: real)
    ensures a <= b && k >= 0.0 ==> k * a <= k * LerpScalar(a, b, t) <= k * b
  {
    if a <= b && k >= 0.0 {
      var c := Clamp01(t);
      var x := LerpScalar(a, b, t);
      ProductNonNegative(b - a, c);
      ProductNonNegative(b - a, 1.0 - c);
      assert a <= x <= b;
      ProductNonNegative(k, x - a);
      ProductNonNegative(k, b - x);
    }
  }

  lemma ProductNonNegative(p: real, q: real)
    ensures p >= 0.0 && q >= 0.0 ==> p * q >= 0.0
  {
  }

  /** `Update`: take the feature when the guard admits it, then run the selected gate on
      the feature value, which is stale when no feature was read. `None` when a negative
      feature index throws, which happens before anything is assigned. */
  function Update(s: LightState, cfg: LightConfig, features: Option<seq<real>>, curve: real -> real, dt: real): (r: Option<LightTick>)
    ensures r.None? <==> Read(features, cfg.featureIndex).Throws?
    ensures r.Some? && Read(features, cfg.featureIndex).Absent? ==>
      (r.value.state.featureValue == s.featureValue && r.value.state.rotationSpeed == s.rotationSpeed
       && r.value.state.intensity == s.intensity)
    ensures r.Some? && Read(features, cfg.featureIndex).Found? ==>
      r.value.state.featureValue == Read(features, cfg.featureIndex).value
    ensures r.Some? && !cfg.rotationSwitch ==> r.value.state.rotationSpeed == s.rotationSpeed
    ensures r.Some? && !cfg.intensitySwitch ==> r.value.state.intensity == s.intensity
    ensures r.Some? && cfg.hysteresisGateSwitch ==>
      GateStep(r.value.state.gate, r.value.resampled)
        == HysteresisGate(s.gate, r.value.state.featureValue, dt, cfg.onThreshold, cfg.offThreshold, cfg.cooldown)
    ensures r.Some? && !cfg.hysteresisGateSwitch ==>
      GateStep(r.value.state.gate, r.value.resampled) == SimpleGate(s.gate, r.value.state.featureValue, cfg.offThreshold)
  {
    match Read(features, cfg.featureIndex)
    case Throws => None
    case Absent => Some(RunSelectedGate(s, cfg, dt))
    case Found(f) => Some(RunSelectedGate(TakeFeature(s, cfg, f, curve), cfg, dt))
  }

  /** The gate the switch selects, run on the current feature value. */
  function RunSelectedGate(t: LightState, cfg: LightConfig, dt: real): LightTick {
    var g := if cfg.hysteresisGateSwitch
             then HysteresisGate(t.gate, t.featureValue, dt, cfg.onThreshold, cfg.offThreshold, cfg.cooldown)
             else SimpleGate(t.gate, t.featureValue, cfg.offThreshold);
    LightTick(t.(gate := g.gate), g.resampled)
  }
}
