/**
  `PipeServer`'s body: 23 landmark buffers that a receiver fills, turned once per
  frame into local position targets, a one-time calibration that centres the hips,
  and the per-frame step of each landmark toward its target.
*/
module PipeServerModel {
  import opened Wrappers
  import opened Vectors

  const LandmarkCount: nat := 23
  const Nose: nat := 0
  const LeftHip: nat := 13
  const RightHip: nat := 14

  /** Inspector defaults. */
  const DefaultMultiplier: real := 10.0
  const DefaultLandmarkScale: real := 1.0
  const DefaultMaxSpeed: real := 50.0
  const DefaultSamplesForPose: int := 1

  /** `AccumulatedBuffer`: a running sum of positions and how many went into it. */
  datatype AccBuffer = AccBuffer(value: Vec3, count: int)

  const EmptyBuffer: AccBuffer := AccBuffer(Zero, 0)

  datatype Body = Body(
    buffers: seq<AccBuffer>,      // `positionsBuffer`
    targets: seq<Vec3>,           // `localPositionTargets`
    active: bool,
    setCalibration: bool,
    calibrationOffset: Vec3)

  predicate WellSized(b: Body) {
    |b.buffers| == LandmarkCount && |b.targets| == LandmarkCount
  }

  /** A new body: empty buffers, targets at the origin, not calibrated. */
  function NewBody(): (b: Body)
    ensures WellSized(b) && !b.active && !b.setCalibration
    ensures forall i :: 0 <= i < LandmarkCount ==> b.buffers[i] == EmptyBuffer && b.targets[i] == Zero
    ensures b.calibrationOffset == Zero
  {
    Body(seq(LandmarkCount, _ => EmptyBuffer), seq(LandmarkCount, _ => Zero), false, false, Zero)
  }

  /** What one buffer does to its landmark's target in `UpdateBody`. */
  datatype Outcome =
    | Skip                 // fewer samples than `samplesForPose`
    | Target(v: Vec3)      // average times `multiplier`; the buffer is reset
    | DivideByZero         // a zero count accepted because `samplesForPose <= 0`

  function Aggregate(buf: AccBuffer, samplesForPose: int, multiplier: real): (o: Outcome)
    ensures o.Skip? <==> buf.count < samplesForPose
    ensures o.DivideByZero? <==> buf.count >= samplesForPose && buf.count == 0
    ensures o.Target? ==> o.v == Scale(buf.value, 1.0 / buf.count as real * multiplier)
  {
    if buf.count < samplesForPose then Skip
    else if buf.count == 0 then DivideByZero
    else
      var n := buf.count as real;
      Target(Vec3(buf.value.x / n * multiplier, buf.value.y / n * multiplier, buf.value.z / n * multiplier))
  }

  /** With at least one sample required, the division is always by a positive count. */
  lemma AggregateDivisorPositive(buf: AccBuffer, samplesForPose: int, multiplier: real)
    requires samplesForPose >= 1
    ensures !Aggregate(buf, samplesForPose, multiplier).DivideByZero?
    ensures Aggregate(buf, samplesForPose, multiplier).Target? ==> buf.count >= 1
  {
  }

  predicate Finite(b: Body, samplesForPose: int, multiplier: real)
    requires WellSized(b)
  {
    forall i :: 0 <= i < LandmarkCount ==> !Aggregate(b.buffers[i], samplesForPose, multiplier).DivideByZero?
  }

  function NewTarget(b: Body, i: nat, samplesForPose: int, multiplier: real): Vec3
    requires WellSized(b) && i < LandmarkCount
  {
    match Aggregate(b.buffers[i], samplesForPose, multiplier)
    case Target(v) => v
    case _ => b.targets[i]
  }

  function NewBuffer(b: Body, i: nat, samplesForPose: int, multiplier: real): AccBuffer
    requires WellSized(b) && i < LandmarkCount
  {
    if Aggregate(b.buffers[i], samplesForPose, multiplier).Skip? then b.buffers[i] else EmptyBuffer
  }

  /** Reference for the first loop of `UpdateBody`, landmark by landmark; `None` when a
      division by zero would make a target non-finite. */
  function AggregateAll(b: Body, samplesForPose: int, multiplier: real): (r: Option<Body>)
    requires WellSized(b)
    ensures r.Some? <==> Finite(b, samplesForPose, multiplier)
    ensures r.Some? ==> WellSized(r.value)
  {
    if Finite(b, samplesForPose, multiplier) then
      Some(b.(targets := seq(LandmarkCount, i requires 0 <= i < LandmarkCount => NewTarget(b, i, samplesForPose, multiplier)),
              buffers := seq(LandmarkCount, i requires 0 <= i < LandmarkCount => NewBuffer(b, i, samplesForPose, multiplier))))
    else None
  }

  /** A landmark with too few samples keeps its target and its buffer; a consumed one
      gets the average times the multiplier and an empty buffer. */
  lemma AggregateAllPerLandmark(b: Body, samplesForPose: int, multiplier: real, i: nat)
    requires WellSized(b) && i < LandmarkCount && AggregateAll(b, samplesForPose, multiplier).Some?
    ensures var r := AggregateAll(b, samplesForPose, multiplier).value;
      if b.buffers[i].count < samplesForPose then r.targets[i] == b.targets[i] && r.buffers[i] == b.buffers[i]
      else r.buffers[i] == EmptyBuffer && r.targets[i] == Scale(b.buffers[i].value, 1.0 / b.buffers[i].count as real * multiplier)
  {
  }

  /** The first loop of `UpdateBody`, statement for statement. */
  method UpdateTargets(b: Body, samplesForPose: int, multiplier: real) returns (r: Option<Body>)
    requires WellSized(b)
    ensures r == AggregateAll(b, samplesForPose, multiplier)
  {
    var targets := b.targets;
    var buffers := b.buffers;
    var i := 0;
    while i < LandmarkCount
      invariant 0 <= i <= LandmarkCount
      invariant |targets| == LandmarkCount && |buffers| == LandmarkCount
      invariant forall k :: 0 <= k < i ==> targets[k] == NewTarget(b, k, samplesForPose, multiplier)
      invariant forall k :: 0 <= k < i ==> buffers[k] == NewBuffer(b, k, samplesForPose, multiplier)
      invariant forall k :: i <= k < LandmarkCount ==> targets[k] == b.targets[k] && buffers[k] == b.buffers[k]
      invariant forall k :: 0 <= k < i ==> !Aggregate(b.buffers[k], samplesForPose, multiplier).DivideByZero?
    {
      var o := Aggregate(buffers[i], samplesForPose, multiplier);
      if o.DivideByZero? {
        return None;
      }
      if o.Target? {
        targets := targets[i := o.v];
        buffers := buffers[i := EmptyBuffer];
      }
      i := i + 1;
    }
    r := Some(b.(targets := targets, buffers := buffers));
    assert targets == seq(LandmarkCount, k requires 0 <= k < LandmarkCount => NewTarget(b, k, samplesForPose, multiplier));
    assert buffers == seq(LandmarkCount, k requires 0 <= k < LandmarkCount => NewBuffer(b, k, samplesForPose, multiplier));
  }

  /** `Body.Calibrate`: the offset that moves the midpoint of the hips to the origin. */
  function Calibrate(b: Body): (r: Body)
    requires WellSized(b)
    ensures WellSized(r) && r.setCalibration
    ensures Add(Scale(Add(b.targets[LeftHip], b.targets[RightHip]), 0.5), r.calibrationOffset) == Zero
    ensures r == b.(setCalibration := true, calibrationOffset := r.calibrationOffset)
  {
    var centre := Scale(Add(b.targets[LeftHip], b.targets[RightHip]), 0.5);
    b.(calibrationOffset := Neg(centre), setCalibration := true)
  }

  /** The calibration step of `UpdateBody`: only the first frame calibrates. */
  function CalibrateOnce(b: Body): (r: Body)
    requires WellSized(b)
    ensures WellSized(r) && r.setCalibration
    ensures b.setCalibration ==> r == b
  {
    if !b.setCalibration then Calibrate(b) else b
  }

  /** Later frames never move the offset, whatever the targets have become. */
  lemma CalibrationIsFixed(b: Body, later: seq<Vec3>)
    requires WellSized(b) && |later| == LandmarkCount
    ensures var c := CalibrateOnce(b);
      CalibrateOnce(c.(targets := later)).calibrationOffset == c.calibrationOffset
  {
  }

  /** The point a fraction `k` of the way from `current` to `target`, unclamped. */
  function Towards(current: Vec3, target: Vec3, k: real): Vec3 {
    Vec3(current.x + (target.x - current.x) * k, current.y + (target.y - current.y) * k,
         current.z + (target.z - current.z) * k)
  }

  /** `Vector3.MoveTowards`, with the distance between the points supplied (`dist`)
      since the model has no square root. The target is returned when it is within
      reach; otherwise the point moves by exactly `maxDelta` along the line to it (away
      from it when `maxDelta` is negative), so a non-negative step never overshoots. */
  function MoveTowards(current: Vec3, target: Vec3, maxDelta: real, dist: real): (r: Vec3)
    requires dist >= 0.0 && dist * dist == SqDist(current, target)
    ensures dist == 0.0 || (maxDelta >= 0.0 && dist <= maxDelta) ==> r == target
    ensures !(dist == 0.0 || (maxDelta >= 0.0 && dist <= maxDelta)) ==> SqDist(current, r) == maxDelta * maxDelta
    ensures maxDelta >= 0.0 ==> SqDist(current, r) <= maxDelta * maxDelta
  {
    if dist == 0.0 || (maxDelta >= 0.0 && dist <= maxDelta) then
      ReachLength(current, target, maxDelta, dist);
      target
    else
      FullStepLength(current, target, maxDelta, dist);
      Towards(current, target, maxDelta / dist)
  }

  lemma ReachLength(current: Vec3, target: Vec3, maxDelta: real, dist: real)
    requires dist >= 0.0 && dist * dist == SqDist(current, target)
    requires dist == 0.0 || (maxDelta >= 0.0 && dist <= maxDelta)
    ensures maxDelta >= 0.0 ==> SqDist(current, target) <= maxDelta * maxDelta
  {
    SquareBelow(dist, maxDelta);
  }

  lemma FullStepLength(current: Vec3, target: Vec3, maxDelta: real, dist: real)
    requires dist > 0.0 && dist * dist == SqDist(current, target)
    ensures SqDist(current, Towards(current, target, maxDelta / dist)) == maxDelta * maxDelta
  {
    var k := maxDelta / dist;
    TowardsLength(current, target, k);
    QuotientSquared(maxDelta, dist, k, SqDist(current, target));
  }

  /** Moving a fraction `k` of the way covers `k` squared of the squared distance. */
  lemma TowardsLength(current: Vec3, target: Vec3, k: real)
    ensures SqDist(current, Towards(current, target, k)) == k * k * SqDist(current, target)
  {
    var g := Sub(target, current);
    assert Sub(Towards(current, target, k), current) == Scale(g, k);
    SquareOfProduct(g.x, k);
    SquareOfProduct(g.y, k);
    SquareOfProduct(g.z, k);
    SumOfScaled(k * k, g.x * g.x, g.y * g.y, g.z * g.z);
  }

  lemma QuotientSquared(delta: real, dist: real, k: real, sq: real)
    requires dist > 0.0 && k == delta / dist && sq == dist * dist
    ensures k * k * sq == delta * delta
  {
    assert k * dist == delta;
    assert k * k * sq == (k * dist) * (k * dist);
  }

  lemma SquareBelow(a: real, b: real)
    ensures 0.0 <= a <= b ==> a * a <= b * b
    ensures b * b >= 0.0
  {
  }

  /** A non-negative step lands on the segment from `current` to `target`. */
  lemma MoveTowardsOnSegment(current: Vec3, target: Vec3, maxDelta: real, dist: real)
    requires dist >= 0.0 && dist * dist == SqDist(current, target) && maxDelta >= 0.0
    ensures exists w :: 0.0 <= w <= 1.0 && MoveTowards(current, target, maxDelta, dist) == Lerp(current, target, w)
  {
    if dist == 0.0 || dist <= maxDelta {
      assert Lerp(current, target, 1.0) == target;
    } else {
      var k := maxDelta / dist;
      assert 0.0 <= k < 1.0 by { DivBelowOne(maxDelta, dist); }
      StepIsLerp(current, target, k);
    }
  }

  /** Short of the target, a step covers exactly `maxDelta` of the distance. */
  lemma MoveTowardsCoversMaxDelta(current: Vec3, target: Vec3, maxDelta: real, dist: real)
    requires 0.0 <= maxDelta < dist && dist * dist == SqDist(current, target)
    ensures SqDist(MoveTowards(current, target, maxDelta, dist), target) == (dist - maxDelta) * (dist - maxDelta)
  {
    var k := maxDelta / dist;
    assert 0.0 <= k < 1.0 by { DivBelowOne(maxDelta, dist); }
    var step := MoveTowards(current, target, maxDelta, dist);
    assert step == Towards(current, target, k);
    StepIsLerp(current, target, k);
    LerpShrinksGap(current, target, k);
    RemainingSquared(dist, maxDelta, k, SqDist(current, target));
  }

  lemma CoversWhenShort(current: Vec3, target: Vec3, maxDelta: real, dist: real)
    requires dist >= 0.0 && dist * dist == SqDist(current, target)
    ensures 0.0 <= maxDelta < dist ==>
      SqDist(MoveTowards(current, target, maxDelta, dist), target) == (dist - maxDelta) * (dist - maxDelta)
  {
    if 0.0 <= maxDelta < dist {
      MoveTowardsCoversMaxDelta(current, target, maxDelta, dist);
    }
  }

  /** Within [0, 1] the weight is not clamped. */
  lemma StepIsLerp(current: Vec3, target: Vec3, k: real)
    requires 0.0 <= k <= 1.0
    ensures Lerp(current, target, k) == Towards(current, target, k)
  {
    var w := Clamp01(k);
    assert w == k;
    assert Lerp(current, target, k) == Vec3(current.x + (target.x - current.x) * w,
      current.y + (target.y - current.y) * w, current.z + (target.z - current.z) * w);
  }

  lemma DivBelowOne(a: real, d: real)
    requires 0.0 <= a < d
    ensures 0.0 <= a / d < 1.0
  {
  }

  lemma RemainingSquared(dist: real, delta: real, k: real, sq: real)
    requires dist > 0.0 && k == delta / dist && sq == dist * dist
    ensures (1.0 - k) * (1.0 - k) * sq == (dist - delta) * (dist - delta)
  {
    assert (1.0 - k) * dist == dist - delta;
  }

  /** The second loop of `UpdateBody` for one landmark: step toward the calibrated
      target by at most `Time.deltaTime * maxSpeed`. */
  function StepLandmark(b: Body, i: nat, local: Vec3, maxDelta: real, dist: real): (r: Vec3)
    requires WellSized(b) && i < LandmarkCount
    requires dist >= 0.0 && dist * dist == SqDist(local, Add(b.targets[i], b.calibrationOffset))
    ensures maxDelta >= 0.0 ==> SqDist(local, r) <= maxDelta * maxDelta
    ensures maxDelta >= dist ==> r == Add(b.targets[i], b.calibrationOffset)
    ensures 0.0 <= maxDelta < dist ==>
      SqDist(r, Add(b.targets[i], b.calibrationOffset)) == (dist - maxDelta) * (dist - maxDelta)
  {
    var goal := Add(b.targets[i], b.calibrationOffset);
    CoversWhenShort(local, goal, maxDelta, dist);
    MoveTowards(local, goal, maxDelta, dist)
  }

  /** A step long enough puts the landmark on its calibrated target. */
  lemma StepLandmarkReaches(b: Body, i: nat, local: Vec3, maxDelta: real, dist: real)
    requires WellSized(b) && i < LandmarkCount
    requires dist >= 0.0 && dist * dist == SqDist(local, Add(b.targets[i], b.calibrationOffset))
    requires maxDelta >= dist
    ensures StepLandmark(b, i, local, maxDelta, dist) == Add(b.targets[i], b.calibrationOffset)
  {
  }

  predicate IsHandOrFoot(i: nat) {
    i == 9 || i == 10 || i == 11 || i == 12 || i == 19 || i == 20 || i == 21 || i == 22
  }

  /** The local scale the `Body` constructor gives landmark `i`: hands and feet 0.5, the
      rest `landmarkScale`, and the face landmarks 0..2 hidden when a head is drawn. */
  function InstanceScale(i: nat, landmarkScale: real, hasHead: bool): (r: real)
    requires i < LandmarkCount
    ensures hasHead && i <= 2 ==> r == 0.0
    ensures !(hasHead && i <= 2) && IsHandOrFoot(i) ==> r == 0.5
    ensures !(hasHead && i <= 2) && !IsHandOrFoot(i) ==> r == landmarkScale
  {
    var base := if IsHandOrFoot(i) then 0.5 else landmarkScale;
    if hasHead && i <= 2 then 0.0 else base
  }

  /** Which landmarks the constructor hides and shrinks, by name: with a head the nose
      and both ears (indices 0 to 2) get scale 0; the pinkies, index fingers, heels and
      foot indices (9 to 12 and 19 to 22) get 0.5; every other landmark keeps
      `landmarkScale`, here any scale other than 0 and 0.5. */
  lemma InstanceScaleByPart(landmarkScale: real, hasHead: bool)
    requires landmarkScale != 0.0 && landmarkScale != 0.5
    ensures (set i: nat | i < LandmarkCount && InstanceScale(i, landmarkScale, hasHead) == 0.0)
      == (if hasHead then {0, 1, 2} else {})
    ensures (set i: nat | i < LandmarkCount && InstanceScale(i, landmarkScale, hasHead) == 0.5)
      == {9, 10, 11, 12, 19, 20, 21, 22}
    ensures forall i: nat :: i < LandmarkCount && 3 <= i ==>
      (InstanceScale(i, landmarkScale, hasHead) == landmarkScale <==> !(9 <= i <= 12 || 19 <= i))
  {
    var hidden := set i: nat | i < LandmarkCount && InstanceScale(i, landmarkScale, hasHead) == 0.0;
    var small := set i: nat | i < LandmarkCount && InstanceScale(i, landmarkScale, hasHead) == 0.5;
    forall i: nat | i < LandmarkCount
      ensures i in hidden <==> hasHead && i <= 2
      ensures i in small <==> IsHandOrFoot(i)
    {
    }
  }
}
