/**
  `CameraView`: the externally driven camera. Commands from the TCP side switch it
  between key-driven movement, follow mode and a vector move; `LateUpdate` then
  advances whichever mode is active. Rotations (quaternions, `RotateAround`,
  `LookRotation`) are not modelled: the state keeps the position and the mode flags.
*/
module CameraViewModel {
  import opened Vectors

  /** Inspector defaults of the fields the model uses. */
  const DefaultFollowMargin: real := 0.2
  const DefaultStopFollowMargin: real := 0.1
  const DefaultMinVerticalAngle: real := -10.0
  const DefaultMaxVerticalAngle: real := 80.0
  const DefaultVectorMoveBaseSpeed: real := 50.0
  const DefaultLookAtLerpSpeed: real := 5.0
  /** `Vector3.Distance(...) < 0.01f`, compared on squared distances. */
  const SnapDistanceSquared: real := 0.0001

  datatype CameraState = CameraState(
    position: Vec3,
    hasTarget: bool,          // `currentTargetTransform != null`
    following: bool,          // `isFollowing`
    external: bool,           // `isExternalControl`
    moving: bool,             // `isMovingToVectorPosition`
    vectorTarget: Vec3,       // `vectorTargetPosition`
    speedFactor: real)        // `currentVectorMoveSpeedFactor`

  /** Following and a vector move are never active together. */
  predicate Valid(c: CameraState) {
    !(c.following && c.moving)
  }

  /** `Start`: the vector target is the current position, the factor 1, no mode active. */
  function Start(position: Vec3, hasTarget: bool): (c: CameraState)
    ensures Valid(c) && !c.external && !c.following && !c.moving
    ensures c.vectorTarget == c.position == position && c.speedFactor == 1.0
  {
    CameraState(position, hasTarget, false, false, false, position, 1.0)
  }

  /** The six per-key speed factors of `ApplyKeyMovement`. */
  datatype KeySpeeds = KeySpeeds(w: real, a: real, s: real, d: real, q: real, e: real)

  datatype Key = W | A | S | D | Q | E

  /** What the engine supplies to a key movement: whether the camera is farther from the
      target than `minZoomDistance`, and where the zoom steps and `RotateAround` calls of
      the active keys leave it. */
  datatype KeyMotion = KeyMotion(fartherThanMinZoom: bool, moved: Vec3)

  /** The public entry points the communicators call. */
  datatype Command =
    | ApplyKeyMovement(speeds: KeySpeeds, motion: KeyMotion)
    | SetFollowTarget
    | EnableFollowMode
    | DisableFollowMode
    | MoveToVectorPosition(target: Vec3, factor: real)
    | DisableAllModes

  /** The state after a command. `ApplyKeyMovement` and `DisableAllModes` both take
      external control and stop the other modes, before any check on the target; only a
      key movement with a target and an active key moves the camera. */
  function Perform(c: CameraState, cmd: Command): (r: CameraState)
    ensures !cmd.ApplyKeyMovement? ==> r.position == c.position
    ensures cmd.ApplyKeyMovement? && !c.hasTarget ==> r.position == c.position
    ensures cmd.ApplyKeyMovement? && MovedKeys(c, cmd.speeds, cmd.motion.fartherThanMinZoom) == {} ==>
      r.position == c.position
    ensures cmd.ApplyKeyMovement? && MovedKeys(c, cmd.speeds, cmd.motion.fartherThanMinZoom) != {} ==>
      r.position == cmd.motion.moved
    ensures cmd.ApplyKeyMovement? ==> r == c.(external := true, following := false, moving := false, position := r.position)
    ensures Valid(c) ==> Valid(r)
    ensures c.external ==> r.external
    ensures cmd.ApplyKeyMovement? || cmd.DisableAllModes? ==> r.external && !r.following && !r.moving
    ensures cmd.EnableFollowMode? ==> r.external && r.following && !r.moving
    ensures cmd.MoveToVectorPosition? ==>
      r.external && !r.following && r.moving && r.vectorTarget == cmd.target && r.speedFactor == cmd.factor
    ensures cmd.DisableFollowMode? ==> r == c.(following := false)
    ensures cmd.SetFollowTarget? ==> r == c.(hasTarget := true)
  {
    match cmd
    case ApplyKeyMovement(speeds, motion) =>
      var moves := MovedKeys(c, speeds, motion.fartherThanMinZoom) != {};
      c.(external := true, following := false, moving := false,
         position := if moves then motion.moved else c.position)
    case SetFollowTarget => c.(hasTarget := true)
    case EnableFollowMode => c.(external := true, following := true, moving := false)
    case DisableFollowMode => c.(following := false)
    case MoveToVectorPosition(t, f) =>
      c.(external := true, following := false, moving := true, vectorTarget := t, speedFactor := f)
    case DisableAllModes => c.(external := true, following := false, moving := false)
  }

  /** Which keys `ApplyKeyMovement` acts on: none without a target; otherwise each key
      whose factor is positive, W only while farther than `minZoomDistance`. */
  function MovedKeys(c: CameraState, speeds: KeySpeeds, fartherThanMinZoom: bool): (keys: set<Key>)
    ensures !c.hasTarget ==> keys == {}
    ensures c.hasTarget ==> (W in keys <==> speeds.w > 0.0 && fartherThanMinZoom)
    ensures c.hasTarget ==> (A in keys <==> speeds.a > 0.0) && (S in keys <==> speeds.s > 0.0)
    ensures c.hasTarget ==> (D in keys <==> speeds.d > 0.0) && (Q in keys <==> speeds.q > 0.0)
    ensures c.hasTarget ==> (E in keys <==> speeds.e > 0.0)
  {
    if !c.hasTarget then {}
    else
      (if speeds.w > 0.0 && fartherThanMinZoom then {W} else {})
      + (if speeds.s > 0.0 then {S} else {}) + (if speeds.a > 0.0 then {A} else {})
      + (if speeds.d > 0.0 then {D} else {}) + (if speeds.q > 0.0 then {Q} else {})
      + (if speeds.e > 0.0 then {E} else {})
  }

  /** Any sequence of commands keeps the state valid and never gives up external control. */
  function PerformAll(c: CameraState, cmds: seq<Command>): CameraState
    decreases |cmds|
  {
    if cmds == [] then c else PerformAll(Perform(c, cmds[0]), cmds[1..])
  }

  lemma {:induction false} PerformAllKeepsValid(c: CameraState, cmds: seq<Command>)
    requires Valid(c)
    ensures Valid(PerformAll(c, cmds))
    ensures c.external ==> PerformAll(c, cmds).external
    decreases |cmds|
  {
    if cmds != [] {
      PerformAllKeepsValid(Perform(c, cmds[0]), cmds[1..]);
    }
  }

  /** `Camera.main.WorldToViewportPoint` of the target. */
  datatype Viewport = Viewport(x: real, y: real, z: real)

  /** The follow margins, `followMargin` and `stopFollowMargin`. */
  datatype Margins = Margins(follow: real, stop: real)

  predicate NeedsToStart(v: Viewport, m: Margins) {
    !(v.z > 0.0) || v.x < m.follow || v.x > 1.0 - m.follow || v.y < m.follow || v.y > 1.0 - m.follow
  }

  /** As written: the stop test measures `stopFollowMargin` from the screen's edges. */
  predicate NeedsToStopAsWritten(v: Viewport, m: Margins) {
    v.z > 0.0 && 0.0 <= v.x <= 1.0 && 0.0 <= v.y <= 1.0
    && v.x >= m.stop && v.x <= 1.0 - m.stop && v.y >= m.stop && v.y <= 1.0 - m.stop
  }

  /** The follow decision of `ApplyFollowMovement` as written. */
  function FollowGateAsWritten(previous: bool, v: Viewport, m: Margins): (r: bool)
    ensures NeedsToStart(v, m) ==> r
    ensures !NeedsToStart(v, m) && previous && NeedsToStopAsWritten(v, m) ==> !r
    ensures !NeedsToStart(v, m) && !(previous && NeedsToStopAsWritten(v, m)) ==> r == previous
  {
    if NeedsToStart(v, m) then true
    else if previous && NeedsToStopAsWritten(v, m) then false
    else previous
  }

  predicate SaneMargins(m: Margins) {
    0.0 <= m.stop <= m.follow <= 0.5
  }

  /** With margins as documented (`0 <= stopFollowMargin <= followMargin <= 0.5`) the
      written gate has no memory: a target that does not need following stops it at
      once, so the decision is just "needs to start". */
  lemma FollowGateIsMemoryless(previous: bool, v: Viewport, m: Margins)
    requires SaneMargins(m)
    ensures FollowGateAsWritten(previous, v, m) == NeedsToStart(v, m)
  {
    if !NeedsToStart(v, m) {
      assert NeedsToStopAsWritten(v, m);
    }
  }

  /** The concrete case: following, target at (0.3, 0.5) in front, default margins.
      The target is 0.2 from the centre, more than the stop distance 0.1, yet
      following stops. */
  lemma FollowGateStopsEarly()
    ensures !FollowGateAsWritten(true, Viewport(0.3, 0.5, 1.0), Margins(DefaultFollowMargin, DefaultStopFollowMargin))
    ensures FollowGateCentred(true, Viewport(0.3, 0.5, 1.0), Margins(DefaultFollowMargin, DefaultStopFollowMargin))
  {
  }

  function Abs(a: real): (r: real)
    ensures r >= 0.0 && (r == a || r == -a)
  {
    if a < 0.0 then -a else a
  }

  /** As documented ("distance from the screen centre"): stop once the target in front is
      within `stopFollowMargin` of the centre on both axes. */
  predicate NeedsToStopCentred(v: Viewport, m: Margins) {
    v.z > 0.0 && Abs(v.x - 0.5) <= m.stop && Abs(v.y - 0.5) <= m.stop
  }

  /** The follow decision with the documented stop test. */
  function FollowGateCentred(previous: bool, v: Viewport, m: Margins): (r: bool)
    ensures NeedsToStart(v, m) ==> r
    ensures !NeedsToStart(v, m) && previous && NeedsToStopCentred(v, m) ==> !r
    ensures !NeedsToStart(v, m) && !(previous && NeedsToStopCentred(v, m)) ==> r == previous
  {
    if NeedsToStart(v, m) then true
    else if previous && NeedsToStopCentred(v, m) then false
    else previous
  }

  /** The documented gate has hysteresis: between the centre zone and the edge zone the
      previous decision is kept, so a target drifting back from the edge is followed
      until it is re-centred; the edge zone always starts following and the centre
      zone always stops it. */
  lemma FollowGateCentredHysteresis(previous: bool, v: Viewport, m: Margins)
    requires SaneMargins(m) && m.stop < 0.5 - m.follow
    ensures NeedsToStart(v, m) ==> FollowGateCentred(previous, v, m)
    ensures NeedsToStopCentred(v, m) ==> !FollowGateCentred(previous, v, m)
    ensures !NeedsToStart(v, m) && !NeedsToStopCentred(v, m) ==> FollowGateCentred(previous, v, m) == previous
  {
    if NeedsToStopCentred(v, m) {
      CentreIsNotEdge(v, m);
    }
  }

  lemma CentreIsNotEdge(v: Viewport, m: Margins)
    requires SaneMargins(m) && m.stop < 0.5 - m.follow
    requires NeedsToStopCentred(v, m)
    ensures !NeedsToStart(v, m)
  {
    assert m.follow <= 0.5 - m.stop <= v.x <= 0.5 + m.stop <= 1.0 - m.follow;
    assert m.follow <= 0.5 - m.stop <= v.y <= 0.5 + m.stop <= 1.0 - m.follow;
  }

  /** The inspector fields `LateUpdate` reads. */
  datatype Settings = Settings(margins: Margins, lookAtLerpSpeed: real, vectorMoveBaseSpeed: real)

  const DefaultSettings: Settings :=
    Settings(Margins(DefaultFollowMargin, DefaultStopFollowMargin), DefaultLookAtLerpSpeed, DefaultVectorMoveBaseSpeed)

  /** What `LateUpdate` needs from the engine for one frame. */
  datatype Frame = Frame(
    mainCamera: bool,         // `Camera.main != null`
    viewport: Viewport,       // the target in viewport coordinates
    desired: Vec3,            // target position - forward * distance + up * height
    dt: real,                 // `Time.deltaTime`
    manualPosition: Vec3)     // where the keyboard controls put the camera

  /** `ApplyFollowMovement` with the gate as written: nothing without a target or main
      camera; otherwise decide, and move toward the desired position by
      `Time.deltaTime * lookAtLerpSpeed` while following. */
  function FollowStep(c: CameraState, f: Frame, s: Settings): (r: CameraState)
    ensures r == c.(following := r.following, position := r.position)
    ensures !c.hasTarget || !f.mainCamera ==> r == c
    ensures c.hasTarget && f.mainCamera ==> r.following == FollowGateAsWritten(c.following, f.viewport, s.margins)
    ensures c.hasTarget && f.mainCamera && r.following ==>
      r.position == Lerp(c.position, f.desired, f.dt * s.lookAtLerpSpeed)
    ensures !r.following ==> r.position == c.position
  {
    if !c.hasTarget || !f.mainCamera then c
    else
      var following := FollowGateAsWritten(c.following, f.viewport, s.margins);
      c.(following := following,
         position := if following then Lerp(c.position, f.desired, f.dt * s.lookAtLerpSpeed) else c.position)
  }

  /** With the documented margins the follow step as written keeps following exactly
      while the target is in the start zone. */
  lemma FollowStepAsWritten(c: CameraState, f: Frame, s: Settings)
    requires c.hasTarget && f.mainCamera && SaneMargins(s.margins)
    ensures FollowStep(c, f, s).following <==> NeedsToStart(f.viewport, s.margins)
  {
    FollowGateIsMemoryless(c.following, f.viewport, s.margins);
  }

  /** `ApplyVectorPositionMovement`: within 0.01 of the target, snap and finish;
      otherwise interpolate with the clamped weight. */
  function VectorStep(c: CameraState, weight: real): (r: CameraState)
    ensures r == c.(position := r.position, moving := r.moving)
    ensures SqDist(c.position, c.vectorTarget) < SnapDistanceSquared ==>
      r.position == c.vectorTarget && !r.moving
    ensures SqDist(c.position, c.vectorTarget) >= SnapDistanceSquared ==>
      r.moving == c.moving && SqDist(r.position, c.vectorTarget)
        == (1.0 - Clamp01(weight)) * (1.0 - Clamp01(weight)) * SqDist(c.position, c.vectorTarget)
  {
    if SqDist(c.position, c.vectorTarget) < SnapDistanceSquared then
      c.(position := c.vectorTarget, moving := false)
    else
      LerpShrinksGap(c.position, c.vectorTarget, weight);
      c.(position := Lerp(c.position, c.vectorTarget, weight))
  }

  /** A weight of at least one reaches the target in one frame; the next frame snaps
      and ends the move. */
  lemma VectorMoveArrives(c: CameraState, weight: real, weight2: real)
    requires c.moving && weight >= 1.0
    ensures VectorStep(c, weight).position == c.vectorTarget
    ensures var r := VectorStep(VectorStep(c, weight), weight2);
      r.position == c.vectorTarget && !r.moving
  {
    VectorStepFullWeight(c, weight);
    VectorStepAtTarget(VectorStep(c, weight), weight2);
  }

  lemma VectorStepFullWeight(c: CameraState, weight: real)
    requires weight >= 1.0
    ensures VectorStep(c, weight).position == c.vectorTarget
    ensures VectorStep(c, weight).vectorTarget == c.vectorTarget
  {
    LerpFullWeight(c.position, c.vectorTarget, weight);
  }

  lemma VectorStepAtTarget(c: CameraState, weight: real)
    requires c.position == c.vectorTarget
    ensures VectorStep(c, weight).position == c.vectorTarget && !VectorStep(c, weight).moving
  {
    assert SqDist(c.position, c.vectorTarget) == 0.0;
  }

  lemma LerpFullWeight(a: Vec3, b: Vec3, t: real)
    requires t >= 1.0
    ensures Lerp(a, b, t) == b
  {
  }

  /** A positive weight brings the camera strictly closer while it is not yet there. */
  lemma VectorStepApproaches(c: CameraState, weight: real)
    requires weight > 0.0 && SqDist(c.position, c.vectorTarget) >= SnapDistanceSquared
    ensures SqDist(VectorStep(c, weight).position, c.vectorTarget) < SqDist(c.position, c.vectorTarget)
  {
    var k := 1.0 - Clamp01(weight);
    assert 0.0 <= k < 1.0;
    assert k * k < 1.0;
  }

  /** The interpolation weight of one vector-move frame:
      `Mathf.Clamp01(currentVectorMoveSpeedFactor * vectorMoveBaseSpeed * Time.deltaTime)`. */
  function VectorWeight(c: CameraState, f: Frame, s: Settings): (w: real)
    ensures 0.0 <= w <= 1.0
    ensures 0.0 <= c.speedFactor * s.vectorMoveBaseSpeed * f.dt <= 1.0 ==> w == c.speedFactor * s.vectorMoveBaseSpeed * f.dt
  {
    Clamp01(c.speedFactor * s.vectorMoveBaseSpeed * f.dt)
  }

  /** `LateUpdate`: under external control advance follow mode, else a vector move in
      progress, else nothing; otherwise the keyboard controls move the camera, which
      they cannot do without a target. */
  function LateUpdate(c: CameraState, f: Frame, s: Settings): (r: CameraState)
    ensures Valid(c) ==> Valid(r)
    ensures r.external == c.external
    ensures r.following ==> c.following
    ensures c.external && c.following ==> r == FollowStep(c, f, s)
    ensures c.external && !c.following && c.moving ==> r == VectorStep(c, VectorWeight(c, f, s))
    ensures c.external && !c.following && !c.moving ==> r == c
    ensures !c.external ==> r == c.(position := r.position)
    ensures !c.external && !c.hasTarget ==> r == c
    ensures !c.external && c.hasTarget ==> r.position == f.manualPosition
  {
    if c.external then
      if c.following then FollowStep(c, f, s)
      else if c.moving then VectorStep(c, VectorWeight(c, f, s))
      else c
    else if c.hasTarget then c.(position := f.manualPosition)
    else c
  }

  /** A vector move commanded with a factor for which `factor * vectorMoveBaseSpeed *
      Time.deltaTime` reaches one lands on its target in the next frame, and the frame
      after that ends the move. */
  lemma VectorMoveCommandArrives(c: CameraState, target: Vec3, factor: real, f: Frame, g: Frame, s: Settings)
    requires factor * s.vectorMoveBaseSpeed * f.dt >= 1.0
    ensures var moved := LateUpdate(Perform(c, MoveToVectorPosition(target, factor)), f, s);
      moved.position == target && !LateUpdate(moved, g, s).moving
  {
    var started := Perform(c, MoveToVectorPosition(target, factor));
    assert VectorWeight(started, f, s) == 1.0;
    VectorStepFullWeight(started, 1.0);
    var moved := LateUpdate(started, f, s);
    if moved.moving {
      VectorStepAtTarget(moved, VectorWeight(moved, g, s));
    }
  }

  /** A vector move with factor zero never gets closer: unless it already sits within the
      snap distance, the camera stays where it is. */
  lemma VectorMoveZeroFactorStalls(c: CameraState, f: Frame, s: Settings)
    requires c.external && !c.following && c.moving && c.speedFactor == 0.0
    requires SqDist(c.position, c.vectorTarget) >= SnapDistanceSquared
    ensures LateUpdate(c, f, s) == c
  {
    assert VectorWeight(c, f, s) == 0.0;
  }

  /** `Mathf.Clamp` (bounds applied in this order even when they cross). */
  function ClampRange(value: real, lo: real, hi: real): (r: real)
    ensures lo <= hi ==> lo <= r <= hi
    ensures lo <= value <= hi ==> r == value
  {
    if value < lo then lo else if value > hi then hi else value
  }

  /** The vertical angle of `ApplyAngleConstraintAndLookAtTarget`: Euler x in [0, 360)
      is read as signed (above 180 means negative), then clamped. */
  function ClampVerticalAngle(eulerX: real, minAngle: real, maxAngle: real): (r: real)
    requires 0.0 <= eulerX < 360.0
    ensures minAngle <= maxAngle ==> minAngle <= r <= maxAngle
    ensures eulerX <= 180.0 && minAngle <= eulerX <= maxAngle ==> r == eulerX
    ensures eulerX > 180.0 && minAngle <= eulerX - 360.0 <= maxAngle ==> r == eulerX - 360.0
  {
    var signed := if eulerX > 180.0 then eulerX - 360.0 else eulerX;
    ClampRange(signed, minAngle, maxAngle)
  }

  /** With the default limits, a camera pitched 30 degrees upward (Euler 330) is
      clamped to -10, and 45 degrees downward is kept. */
  lemma DefaultAngleLimits()
    ensures ClampVerticalAngle(330.0, DefaultMinVerticalAngle, DefaultMaxVerticalAngle) == -10.0
    ensures ClampVerticalAngle(45.0, DefaultMinVerticalAngle, DefaultMaxVerticalAngle) == 45.0
    ensures ClampVerticalAngle(350.0, DefaultMinVerticalAngle, DefaultMaxVerticalAngle) == -10.0
  {
  }
}
