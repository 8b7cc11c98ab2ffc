/**
  `ParticleController`: an effect follows its parent and, depending on its tag, either
  fires once when a feature crosses the threshold upward ("oneshot") or keeps running
  with an opacity and size driven by the feature ("neverend").
*/
module ParticleEffects {
  import opened Wrappers
  import opened Vectors
  import opened FeatureLookup

  const OneshotTag: string := "oneshot"
  const NeverendTag: string := "neverend"

  datatype ParticleConfig = ParticleConfig(
    featureIndex: int,
    threshold: real,
    scaleOffset: real,
    valueScaler: real,    // `valueScaller`
    alphaScaler: real)    // `alphascaler`

  /** The threshold 1 would divide by zero; the model leaves that out. */
  predicate Usable(cfg: ParticleConfig) {
    cfg.threshold != 1.0
  }

  /** How far a feature lies above the threshold, relative to the room above it, cut at 0. */
  function Excess(f: real, cfg: ParticleConfig): (r: real)
    requires Usable(cfg)
    ensures r >= 0.0
    ensures cfg.threshold < 1.0 ==> (r > 0.0 <==> f > cfg.threshold)
  {
    var q := (f - cfg.threshold) / (1.0 - cfg.threshold);
    PositiveQuotient(f - cfg.threshold, 1.0 - cfg.threshold);
    Max(q, 0.0)
  }

  lemma PositiveQuotient(a: real, b: real)
    ensures b > 0.0 ==> (a / b > 0.0 <==> a > 0.0)
  {
    if b > 0.0 {
      if a > 0.0 { assert a / b * b == a; }
      if a / b > 0.0 { assert a == a / b * b; }
    }
  }

  /** `currentValue[0]`, `currentValue[1]`, the tint and the scale. */
  datatype ParticleState = ParticleState(current: real, previous: real, position: Vec3, alpha: real, scale: Vec3)

  /** Start: both values 0 and full opacity. */
  function StartState(position: Vec3, scale: Vec3): (s: ParticleState)
    ensures s.current == 0.0 && s.previous == 0.0 && s.alpha == 1.0
  {
    ParticleState(0.0, 0.0, position, 1.0, scale)
  }

  datatype ParticleTick = ParticleTick(state: ParticleState, play: bool)

  /** The oneshot branch: shift the current value into the previous one, read the new
      value (0 when the feature is missing), and play when it crossed the threshold
      upward. A negative feature index throws after the shift, before the read. */
  function OneshotStep(s: ParticleState, cfg: ParticleConfig, features: Option<seq<real>>): (t: ParticleTick)
    requires Usable(cfg)
    ensures t.state.previous == s.current
    ensures !Read(features, cfg.featureIndex).Throws? ==> t.state.current >= 0.0
    ensures t.play <==> t.state.current > cfg.threshold && t.state.previous <= cfg.threshold
    ensures Read(features, cfg.featureIndex).Found? ==> t.state.current == Excess(Read(features, cfg.featureIndex).value, cfg)
    ensures Read(features, cfg.featureIndex).Absent? ==> t.state.current == 0.0
    ensures Read(features, cfg.featureIndex).Throws? ==> t.state == s.(previous := s.current) && !t.play
    ensures t.state.position == s.position && t.state.alpha == s.alpha && t.state.scale == s.scale
  {
    var shifted := s.(previous := s.current);
    match Read(features, cfg.featureIndex)
    case Throws => ParticleTick(shifted, false)
    case Absent => Observe(shifted, 0.0, cfg)
    case Found(f) => Observe(shifted, Excess(f, cfg), cfg)
  }

  /** Store the new value and play on an upward crossing of the threshold. */
  function Observe(shifted: ParticleState, v: real, cfg: ParticleConfig): ParticleTick {
    ParticleTick(shifted.(current := v), v > cfg.threshold && shifted.previous <= cfg.threshold)
  }

  /** Starting from 0, the first oneshot frame plays exactly when the feature is present
      and its excess clears a non-negative threshold; a negative threshold is already
      exceeded by the starting value, so the first frame never plays. */
  lemma FirstFrameFromStart(position: Vec3, scale: Vec3, cfg: ParticleConfig, features: Option<seq<real>>)
    requires Usable(cfg)
    ensures var t := OneshotStep(StartState(position, scale), cfg, features);
      (cfg.threshold >= 0.0 ==>
        (t.play <==> Read(features, cfg.featureIndex).Found?
                     && Excess(Read(features, cfg.featureIndex).value, cfg) > cfg.threshold))
      && (cfg.threshold < 0.0 ==> !t.play)
  {
  }

  /** The effect never plays on two frames in a row. */
  lemma NoDoublePlay(s: ParticleState, cfg: ParticleConfig, f1: Option<seq<real>>, f2: Option<seq<real>>)
    requires Usable(cfg)
    ensures OneshotStep(s, cfg, f1).play ==> !OneshotStep(OneshotStep(s, cfg, f1).state, cfg, f2).play
  {
  }

  /** `featuresAlpha`: opacity and uniform scale from the feature; full opacity and the
      offset scale when it is missing. A negative index throws at the first read. */
  function NeverendStep(s: ParticleState, cfg: ParticleConfig, features: Option<seq<real>>): (r: ParticleState)
    requires Usable(cfg)
    ensures Read(features, cfg.featureIndex).Found? ==>
      var e := Excess(Read(features, cfg.featureIndex).value, cfg);
      r.scale == Vec3(e * cfg.valueScaler, e * cfg.valueScaler, e * cfg.valueScaler)
    ensures Read(features, cfg.featureIndex).Absent? ==>
      r.alpha == 1.0 && r.scale == Vec3(cfg.scaleOffset, cfg.scaleOffset, cfg.scaleOffset)
    ensures Read(features, cfg.featureIndex).Throws? ==> r == s
    ensures !Read(features, cfg.featureIndex).Throws? ==> r.alpha >= 0.0 && r.scale.x == r.scale.y == r.scale.z
    ensures r.current == s.current && r.previous == s.previous && r.position == s.position
  {
    match Read(features, cfg.featureIndex)
    case Throws => s
    case Absent => s.(alpha := 1.0, scale := Vec3(cfg.scaleOffset, cfg.scaleOffset, cfg.scaleOffset))
    case Found(f) =>
      var q := (f - cfg.threshold) / (1.0 - cfg.threshold);
      var e := Excess(f, cfg);
      s.(alpha := Max(q * cfg.alphaScaler, 0.0), scale := Vec3(e * cfg.valueScaler, e * cfg.valueScaler, e * cfg.valueScaler))
  }

  /** A non-negative alpha scaler makes the opacity the scaled excess. */
  lemma NeverendAlpha(s: ParticleState, cfg: ParticleConfig, features: Option<seq<real>>)
    requires Usable(cfg) && cfg.alphaScaler >= 0.0 && Read(features, cfg.featureIndex).Found?
    ensures NeverendStep(s, cfg, features).alpha == Excess(Read(features, cfg.featureIndex).value, cfg) * cfg.alphaScaler
  {
    var f := Read(features, cfg.featureIndex).value;
    var q := (f - cfg.threshold) / (1.0 - cfg.threshold);
    if q < 0.0 {
      assert q * cfg.alphaScaler <= 0.0;
    }
  }

  /** `Update`: follow the parent, then run the branch the tag selects; other tags only follow. */
  function Update(s: ParticleState, tag: string, parent: Vec3, cfg: ParticleConfig, features: Option<seq<real>>): (t: ParticleTick)
    requires Usable(cfg)
    ensures t.state.position == parent
    ensures t.play ==> tag == OneshotTag
    ensures tag != OneshotTag ==> t.state.current == s.current && t.state.previous == s.previous
    ensures tag != NeverendTag ==> t.state.alpha == s.alpha && t.state.scale == s.scale
  {
    var moved := s.(position := parent);
    if tag == OneshotTag then OneshotStep(moved, cfg, features)
    else if tag == NeverendTag then ParticleTick(NeverendStep(moved, cfg, features), false)
    else ParticleTick(moved, false)
  }
}
