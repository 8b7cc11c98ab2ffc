/**
  The JSON pose channel of `TcpCommunicator` and `TcpCommunicatorV2` (null.cs). Each
  received line is decoded into `PoseData` on the main thread; the landmarks go to the
  body's buffers, the scalar and camera values to the `_latest…` fields under
  `_latestDataLock`, and `Update` takes them and drives the camera. Both versions
  share the decoding, the write, the take and the camera dispatch.
*/
module PoseChannel {
  import opened Wrappers
  import opened Vectors
  import CameraViewModel
  import opened PipeServerModel
  import TcpServerModel
  import opened FeedbackData

  /** `PoseData` as Json.NET fills it: a missing number is 0, a missing list `None`. */
  datatype PoseData = PoseData(
    frameNum: int,
    sectionNum: int,
    landmarks: Option<seq<Option<seq<real>>>>,
    param: real,
    noiseIntensity: real,
    noiseSpeed: real,
    cameraTransform: Option<seq<real>>,
    cameraMode: int,
    cameraKeySpeeds: Option<seq<real>>,
    cameraMoveSpeedFactor: real,
    features: Option<seq<real>>)

  /** `JsonConvert.DeserializeObject<PoseData>`: it throws, returns null, or an object. */
  datatype Decoded = Unreadable | NullPose | Pose(data: PoseData)

  const KeySpeedCount: nat := 6
  const ZeroSpeeds: seq<real> := [0.0, 0.0, 0.0, 0.0, 0.0, 0.0]

  /** The `_latest…` fields and `_newDataAvailable`. */
  datatype PoseMailbox = PoseMailbox(
    noiseIntensity: real,
    noiseSpeed: real,
    cameraTransform: Vec3,
    cameraMode: int,
    cameraKeySpeeds: seq<real>,
    moveSpeedFactor: real,
    sectionNum: int,
    frameNum: int,
    newDataAvailable: bool)

  /** `Start`: noise values read from the material when the grid has a renderer (else
      0), the camera's position (else the origin), key mode with six zero speeds. */
  function Init(material: Option<TcpServerModel.MaterialParams>, camera: Option<Vec3>): (m: PoseMailbox)
    ensures m.cameraKeySpeeds == ZeroSpeeds && !m.newDataAvailable && m.cameraMode == 0
    ensures material.Some? ==> m.noiseIntensity == material.value.noiseIntensity && m.noiseSpeed == material.value.noiseSpeed
    ensures material.None? ==> m.noiseIntensity == 0.0 && m.noiseSpeed == 0.0
    ensures m.cameraTransform == (if camera.Some? then camera.value else Zero)
  {
    PoseMailbox(if material.Some? then material.value.noiseIntensity else 0.0,
                if material.Some? then material.value.noiseSpeed else 0.0,
                camera.GetOr(Zero), 0, ZeroSpeeds, 0.0, 0, 0, false)
  }

  /** The locked write: the scalars are always overwritten (a missing one with 0), the
      camera position only from a list of exactly three, the key speeds from a list of
      exactly six or else six zeros; the flag is raised. */
  function Write(m: PoseMailbox, p: PoseData): (r: PoseMailbox)
    ensures r.noiseIntensity == p.noiseIntensity && r.noiseSpeed == p.noiseSpeed
    ensures r.cameraMode == p.cameraMode && r.moveSpeedFactor == p.cameraMoveSpeedFactor
    ensures r.sectionNum == p.sectionNum && r.frameNum == p.frameNum
    ensures p.cameraTransform.Some? && |p.cameraTransform.value| == 3 ==>
      r.cameraTransform == Vec3(p.cameraTransform.value[0], p.cameraTransform.value[1], p.cameraTransform.value[2])
    ensures !(p.cameraTransform.Some? && |p.cameraTransform.value| == 3) ==> r.cameraTransform == m.cameraTransform
    ensures p.cameraKeySpeeds.Some? && |p.cameraKeySpeeds.value| == KeySpeedCount ==>
      r.cameraKeySpeeds == p.cameraKeySpeeds.value
    ensures !(p.cameraKeySpeeds.Some? && |p.cameraKeySpeeds.value| == KeySpeedCount) ==> r.cameraKeySpeeds == ZeroSpeeds
    ensures |r.cameraKeySpeeds| == KeySpeedCount
    ensures r.newDataAvailable
  {
    var t := p.cameraTransform;
    var k := p.cameraKeySpeeds;
    PoseMailbox(
      p.noiseIntensity, p.noiseSpeed,
      if t.Some? && |t.value| == 3 then Vec3(t.value[0], t.value[1], t.value[2]) else m.cameraTransform,
      p.cameraMode,
      if k.Some? && |k.value| == KeySpeedCount then k.value else ZeroSpeeds,
      p.cameraMoveSpeedFactor, p.sectionNum, p.frameNum, true)
  }

  /** The last write decides every field except a camera position it did not supply. */
  lemma LastWriteWins(m: PoseMailbox, p: PoseData, q: PoseData)
    requires q.cameraTransform.Some? && |q.cameraTransform.value| == 3
    ensures Write(Write(m, p), q) == Write(m, q)
  {
  }

  /** The values `Update` copies under the lock. */
  datatype PoseSnapshot = PoseSnapshot(
    noiseIntensity: real,
    noiseSpeed: real,
    cameraTransform: Vec3,
    cameraMode: int,
    cameraKeySpeeds: seq<real>,
    moveSpeedFactor: real,
    sectionNum: int,
    frameNum: int)

  datatype Taken = Taken(mailbox: PoseMailbox, snapshot: Option<PoseSnapshot>)

  /** `Update`'s locked read: with the flag up, lower it and copy every field. */
  function Take(m: PoseMailbox): (t: Taken)
    ensures t.snapshot.Some? <==> m.newDataAvailable
    ensures !t.mailbox.newDataAvailable && t.mailbox == m.(newDataAvailable := false)
    ensures t.snapshot.Some? ==> t.snapshot.value == PoseSnapshot(m.noiseIntensity, m.noiseSpeed,
      m.cameraTransform, m.cameraMode, m.cameraKeySpeeds, m.moveSpeedFactor, m.sectionNum, m.frameNum)
  {
    if m.newDataAvailable then
      Taken(m.(newDataAvailable := false),
            Some(PoseSnapshot(m.noiseIntensity, m.noiseSpeed, m.cameraTransform, m.cameraMode,
                              m.cameraKeySpeeds, m.moveSpeedFactor, m.sectionNum, m.frameNum)))
    else Taken(m, None)
  }

  /** A second take with no write in between finds nothing; a write is always seen. */
  lemma TakeAfterWrite(m: PoseMailbox, p: PoseData)
    ensures Take(Take(m).mailbox).snapshot.None?
    ensures Take(Write(m, p)).snapshot.Some?
    ensures Take(Write(m, p)).snapshot.value.frameNum == p.frameNum
  {
  }

  /** Six key speeds survive any mix of writes and takes. */
  predicate SixSpeeds(m: PoseMailbox) {
    |m.cameraKeySpeeds| == KeySpeedCount
  }

  datatype Step = WriteStep(p: PoseData) | TakeStep

  function Run(m: PoseMailbox, steps: seq<Step>): PoseMailbox
    decreases |steps|
  {
    if steps == [] then m
    else
      var next := match steps[0] case WriteStep(p) => Write(m, p) case TakeStep => Take(m).mailbox;
      Run(next, steps[1..])
  }

  /** A fresh mailbox has nothing to take, and its key speeds have length six before and
      after any mix of writes and takes. */
  lemma InitReady(material: Option<TcpServerModel.MaterialParams>, camera: Option<Vec3>, steps: seq<Step>)
    ensures Take(Init(material, camera)).snapshot.None?
    ensures SixSpeeds(Init(material, camera)) && SixSpeeds(Run(Init(material, camera), steps))
  {
    RunKeepsSixSpeeds(Init(material, camera), steps);
  }

  lemma {:induction false} RunKeepsSixSpeeds(m: PoseMailbox, steps: seq<Step>)
    requires SixSpeeds(m)
    ensures SixSpeeds(Run(m, steps))
    decreases |steps|
  {
    if steps != [] {
      var next := match steps[0] case WriteStep(p) => Write(m, p) case TakeStep => Take(m).mailbox;
      RunKeepsSixSpeeds(next, steps[1..]);
    }
  }

  /** The six received key speeds in the order `ApplyKeyMovement` takes them: W, A, S, D, Q, E. */
  function SpeedsOf(k: seq<real>): (speeds: CameraViewModel.KeySpeeds)
    requires |k| == KeySpeedCount
    ensures [speeds.w, speeds.a, speeds.s, speeds.d, speeds.q, speeds.e] == k
  {
    CameraViewModel.KeySpeeds(k[0], k[1], k[2], k[3], k[4], k[5])
  }

  /** The camera commands `Update` issues for a snapshot, by mode: 0 keys (only with
      six speeds), 1 follow the avatar's head or, without one, switch modes off,
      2 move to the received position, anything else switch modes off. `motion` is
      what the engine's key movement does this frame. */
  function Dispatch(s: PoseSnapshot, headAvailable: bool, motion: CameraViewModel.KeyMotion): (cmds: seq<CameraViewModel.Command>)
    ensures s.cameraMode == 0 && |s.cameraKeySpeeds| != KeySpeedCount ==> cmds == []
    ensures s.cameraMode == 0 && |s.cameraKeySpeeds| == KeySpeedCount ==>
      cmds == [CameraViewModel.ApplyKeyMovement(SpeedsOf(s.cameraKeySpeeds), motion)]
    ensures s.cameraMode == 1 && headAvailable ==>
      cmds == [CameraViewModel.SetFollowTarget, CameraViewModel.EnableFollowMode]
    ensures s.cameraMode == 1 && !headAvailable ==>
      cmds == [CameraViewModel.DisableFollowMode, CameraViewModel.DisableAllModes]
    ensures s.cameraMode == 2 ==> cmds == [CameraViewModel.MoveToVectorPosition(s.cameraTransform, s.moveSpeedFactor)]
    ensures !(0 <= s.cameraMode <= 2) ==> cmds == [CameraViewModel.DisableAllModes]
  {
    if s.cameraMode == 0 then
      if |s.cameraKeySpeeds| == KeySpeedCount then
        [CameraViewModel.ApplyKeyMovement(SpeedsOf(s.cameraKeySpeeds), motion)]
      else []
    else if s.cameraMode == 1 then
      if headAvailable then [CameraViewModel.SetFollowTarget, CameraViewModel.EnableFollowMode]
      else [CameraViewModel.DisableFollowMode, CameraViewModel.DisableAllModes]
    else if s.cameraMode == 2 then
      [CameraViewModel.MoveToVectorPosition(s.cameraTransform, s.moveSpeedFactor)]
    else [CameraViewModel.DisableAllModes]
  }

  /** What the dispatched commands leave in the camera: every mode takes external control
      and keeps following and moving exclusive; mode 1 with a head follows it, mode 2
      moves to the received position, the others stop both. Only mode 0 moves the camera
      at once, and only when it has a target and some key is active. */
  lemma DispatchEffect(c: CameraViewModel.CameraState, s: PoseSnapshot, headAvailable: bool, motion: CameraViewModel.KeyMotion)
    requires CameraViewModel.Valid(c) && |s.cameraKeySpeeds| == KeySpeedCount
    ensures var r := CameraViewModel.PerformAll(c, Dispatch(s, headAvailable, motion));
      CameraViewModel.Valid(r) && r.external
      && (r.following <==> s.cameraMode == 1 && headAvailable)
      && (r.moving <==> s.cameraMode == 2)
      && (s.cameraMode == 1 && headAvailable ==> r.hasTarget)
      && (s.cameraMode == 2 ==> r.vectorTarget == s.cameraTransform && r.speedFactor == s.moveSpeedFactor)
      && (s.cameraMode != 0 ==> r.position == c.position)
      && (s.cameraMode == 0 && !c.hasTarget ==> r.position == c.position)
      && (s.cameraMode == 0 && c.hasTarget && s.cameraKeySpeeds[1] > 0.0 ==> r.position == motion.moved)
      && (s.cameraMode == 0 && CameraViewModel.MovedKeys(c, SpeedsOf(s.cameraKeySpeeds), motion.fartherThanMinZoom) == {} ==>
            r.position == c.position)
  {
    var cmds := Dispatch(s, headAvailable, motion);
    PerformAllUnfold(c, cmds);
    if s.cameraMode == 0 && c.hasTarget && s.cameraKeySpeeds[1] > 0.0 {
      assert CameraViewModel.A in CameraViewModel.MovedKeys(c, SpeedsOf(s.cameraKeySpeeds), motion.fartherThanMinZoom);
    }
  }

  lemma PerformAllUnfold(c: CameraViewModel.CameraState, cmds: seq<CameraViewModel.Command>)
    requires |cmds| <= 2
    ensures CameraViewModel.PerformAll(c, cmds) ==
      if |cmds| == 0 then c
      else if |cmds| == 1 then CameraViewModel.Perform(c, cmds[0])
      else CameraViewModel.Perform(CameraViewModel.Perform(c, cmds[0]), cmds[1])
  {
    if |cmds| >= 1 {
      assert CameraViewModel.PerformAll(c, cmds) == CameraViewModel.PerformAll(CameraViewModel.Perform(c, cmds[0]), cmds[1..]);
      if |cmds| == 2 {
        var c1 := CameraViewModel.Perform(c, cmds[0]);
        assert CameraViewModel.PerformAll(c1, cmds[1..])
          == CameraViewModel.PerformAll(CameraViewModel.Perform(c1, cmds[1]), cmds[1..][1..]);
      }
    }
  }

  /** Storing one landmark list in the body as written: each landmark with exactly three
      coordinates becomes a buffer holding that position with `samplesForPose` as its
      count; the body turns active whenever exactly 23 landmarks arrived. */
  function DeliverAsWritten(b: Body, landmarks: Option<seq<Option<seq<real>>>>, samplesForPose: int): (r: Body)
    requires WellSized(b)
    ensures WellSized(r) && r.targets == b.targets && r.calibrationOffset == b.calibrationOffset
    ensures r.active <==> b.active || (landmarks.Some? && |landmarks.value| == LandmarkCount)
    ensures !(landmarks.Some? && |landmarks.value| == LandmarkCount) ==> r == b
  {
    if landmarks.Some? && |landmarks.value| == LandmarkCount then
      b.(buffers := seq(LandmarkCount, i requires 0 <= i < LandmarkCount =>
           var c := landmarks.value[i];
           if c.Some? && |c.value| == 3 then AccBuffer(Vec3(c.value[0], c.value[1], c.value[2]), samplesForPose)
           else b.buffers[i]),
         active := true)
    else b
  }

  /** As written, a landmark with three coordinates replaces its buffer by that one point
      with the count `samplesForPose`, whatever the buffer held; other landmarks keep theirs. */
  lemma DeliveredAsWrittenLandmark(b: Body, landmarks: seq<Option<seq<real>>>, samplesForPose: int, i: nat)
    requires WellSized(b) && |landmarks| == LandmarkCount && i < LandmarkCount
    ensures var r := DeliverAsWritten(b, Some(landmarks), samplesForPose);
      var c := landmarks[i];
      (c.Some? && |c.value| == 3 ==>
        r.buffers[i].value == Vec3(c.value[0], c.value[1], c.value[2]) && r.buffers[i].count == samplesForPose)
      && (!(c.Some? && |c.value| == 3) ==> r.buffers[i] == b.buffers[i])
  {
  }

  /** As written, `UpdateBody` then divides the single stored position by
      `samplesForPose`: with two samples per pose and the default multiplier, a landmark
      received at x = 1 gets the target x = 5 instead of 10. */
  lemma DeliveredLandmarkIsShrunk()
    ensures var coords := Some([1.0, 0.0, 0.0]);
      var b := DeliverAsWritten(NewBody(), Some(seq(LandmarkCount, _ => coords)), 2);
      Aggregate(b.buffers[0], 2, DefaultMultiplier) == Target(Vec3(5.0, 0.0, 0.0))
  {
  }

  /** Corrected: the stored value is the position counted `samplesForPose` times, so the
      average `UpdateBody` takes is the received position. */
  function Deliver(b: Body, landmarks: Option<seq<Option<seq<real>>>>, samplesForPose: int): (r: Body)
    requires WellSized(b)
    ensures WellSized(r) && r.targets == b.targets && r.calibrationOffset == b.calibrationOffset
    ensures r.active <==> b.active || (landmarks.Some? && |landmarks.value| == LandmarkCount)
    ensures !(landmarks.Some? && |landmarks.value| == LandmarkCount) ==> r == b
    ensures samplesForPose == 1 ==> r == DeliverAsWritten(b, landmarks, samplesForPose)
  {
    var n := samplesForPose as real;
    if landmarks.Some? && |landmarks.value| == LandmarkCount then
      b.(buffers := seq(LandmarkCount, i requires 0 <= i < LandmarkCount =>
           var c := landmarks.value[i];
           if c.Some? && |c.value| == 3 then AccBuffer(Scale(Vec3(c.value[0], c.value[1], c.value[2]), n), samplesForPose)
           else b.buffers[i]),
         active := true)
    else b
  }

  /** With the correction, a received landmark's target is its position times the
      multiplier, whatever `samplesForPose` (at least one) is; a landmark without three
      coordinates keeps its buffer. */
  lemma DeliveredLandmarkTarget(b: Body, landmarks: seq<Option<seq<real>>>, samplesForPose: int, multiplier: real, i: nat)
    requires WellSized(b) && |landmarks| == LandmarkCount && i < LandmarkCount && samplesForPose >= 1
    ensures var r := Deliver(b, Some(landmarks), samplesForPose);
      var c := landmarks[i];
      (c.Some? && |c.value| == 3 ==>
        Aggregate(r.buffers[i], samplesForPose, multiplier) == Target(Scale(Vec3(c.value[0], c.value[1], c.value[2]), multiplier)))
      && (!(c.Some? && |c.value| == 3) ==> r.buffers[i] == b.buffers[i])
  {
    var c := landmarks[i];
    if c.Some? && |c.value| == 3 {
      AverageOfRepeated(c.value[0], samplesForPose as real, multiplier);
      AverageOfRepeated(c.value[1], samplesForPose as real, multiplier);
      AverageOfRepeated(c.value[2], samplesForPose as real, multiplier);
    }
  }

  lemma AverageOfRepeated(x: real, n: real, multiplier: real)
    requires n >= 1.0
    ensures x * n / n * multiplier == x * multiplier
  {
  }

  /** The receiving component's state besides the mailbox. */
  datatype Receiver = Receiver(
    mailbox: PoseMailbox,
    body: Option<Body>,          // `pipeServer.body`, when there is one
    features: seq<real>,
    param: real,                 // `receivedParam`
    rawData: string)             // `receivedRawData`

  predicate ReceiverOk(s: Receiver) {
    s.body.Some? ==> WellSized(s.body.value)
  }

  /** `features`: the received list copied, or empty when missing or empty. */
  function Features(p: PoseData): (f: seq<real>)
    ensures p.features.Some? && |p.features.value| > 0 ==> f == p.features.value
    ensures !(p.features.Some? && |p.features.value| > 0) ==> f == []
  {
    if p.features.Some? && |p.features.value| > 0 then p.features.value else []
  }

  function DeliverTo(body: Option<Body>, p: PoseData, samplesForPose: int): (r: Option<Body>)
    requires body.Some? ==> WellSized(body.value)
    ensures r.Some? <==> body.Some?
    ensures r.Some? ==> WellSized(r.value)
    ensures body.Some? && samplesForPose == 1 ==> r == Some(DeliverAsWritten(body.value, p.landmarks, samplesForPose))
  {
    if body.Some? then Some(Deliver(body.value, p.landmarks, samplesForPose)) else None
  }

  /** `TcpCommunicator.ProcessReceivedData`: the raw text is kept in any case; a failed
      decode changes nothing else, and so does a null result, because the features are
      read before the null check and the exception is caught. A pose updates features,
      body, mailbox and `receivedParam`. */
  function Process(s: Receiver, message: string, decoded: Decoded, samplesForPose: int): (r: Receiver)
    requires ReceiverOk(s)
    ensures ReceiverOk(r) && r.rawData == message
    ensures !decoded.Pose? ==> r == s.(rawData := message)
    ensures decoded.Pose? ==>
      (r.mailbox == Write(s.mailbox, decoded.data) && r.param == decoded.data.param
       && r.features == Features(decoded.data) && r.body == DeliverTo(s.body, decoded.data, samplesForPose))
  {
    match decoded
    case Pose(p) =>
      Receiver(Write(s.mailbox, p), DeliverTo(s.body, p, samplesForPose), Features(p), p.param, message)
    case _ => s.(rawData := message)
  }

  /** The trace line after the write in null.cs formats the key speeds and the first three
      camera coordinates; it throws when either list is missing or the position list is
      shorter than three. */
  predicate TraceThrows(p: PoseData) {
    p.cameraKeySpeeds.None? || p.cameraTransform.None? || |p.cameraTransform.value| < 3
  }

  datatype ProcessedV2 = ProcessedV2(receiver: Receiver, errorLogged: bool)

  /** `TcpCommunicatorV2.ProcessReceivedData` (null.cs): no features; a failed decode or a
      null result logs an error and changes nothing else; a pose updates body, mailbox
      and `receivedParam`, and only then may the trace line throw, so the error log
      never undoes the write. */
  function ProcessV2(s: Receiver, message: string, decoded: Decoded, samplesForPose: int): (r: ProcessedV2)
    requires ReceiverOk(s)
    ensures ReceiverOk(r.receiver) && r.receiver.rawData == message && r.receiver.features == s.features
    ensures !decoded.Pose? ==> r.receiver == s.(rawData := message) && r.errorLogged
    ensures decoded.Pose? ==>
      (r.receiver.mailbox == Write(s.mailbox, decoded.data)
       && r.receiver.param == decoded.data.param
       && r.receiver.body == DeliverTo(s.body, decoded.data, samplesForPose)
       && (r.errorLogged <==> TraceThrows(decoded.data)))
  {
    match decoded
    case Pose(p) =>
      ProcessedV2(Receiver(Write(s.mailbox, p), DeliverTo(s.body, p, samplesForPose), s.features, p.param, message),
                  TraceThrows(p))
    case _ => ProcessedV2(s.(rawData := message), true)
  }

  /** The two versions agree on everything they both keep. */
  lemma VersionsAgree(s: Receiver, message: string, decoded: Decoded, samplesForPose: int)
    requires ReceiverOk(s)
    ensures ProcessV2(s, message, decoded, samplesForPose).receiver
      == Process(s, message, decoded, samplesForPose).(features := s.features)
  {
  }

  /** A pose without key speeds still stores six zeros and raises the flag, although the
      trace line after it throws. */
  lemma WriteSurvivesTrace(s: Receiver, message: string, p: PoseData, samplesForPose: int)
    requires ReceiverOk(s) && p.cameraKeySpeeds.None?
    ensures var r := ProcessV2(s, message, Pose(p), samplesForPose);
      r.errorLogged && r.receiver.mailbox.cameraKeySpeeds == ZeroSpeeds && r.receiver.mailbox.newDataAvailable
  {
  }

  /** The scene objects `Update` applies to. */
  datatype Scene = Scene(
    material: Option<TcpServerModel.MaterialParams>,
    camera: Option<CameraViewModel.CameraState>,   // camera object with its `CameraView`
    headAvailable: bool,                           // the avatar's head exists
    keyMotion: CameraViewModel.KeyMotion)          // what the engine's key movement does this frame

  datatype Updated = Updated(mailbox: PoseMailbox, scene: Scene, section: Option<int>, frame: Option<int>)

  /** `Update`: take; with new data set the material's noise, dispatch the camera mode,
      and report section and frame numbers to the UI. */
  function Update(m: PoseMailbox, scene: Scene): (u: Updated)
    ensures u.mailbox == m.(newDataAvailable := false)
    ensures !m.newDataAvailable ==> u.scene == scene && u.section.None? && u.frame.None?
    ensures u.scene.material.Some? <==> scene.material.Some?
    ensures m.newDataAvailable ==> u.section == Some(m.sectionNum) && u.frame == Some(m.frameNum)
    ensures m.newDataAvailable && scene.material.Some? ==>
      u.scene.material == Some(TcpServerModel.MaterialParams(m.noiseIntensity, m.noiseSpeed))
    ensures u.scene.camera.Some? <==> scene.camera.Some?
    ensures u.scene.headAvailable == scene.headAvailable && u.scene.keyMotion == scene.keyMotion
    ensures !m.newDataAvailable || scene.camera.None? ==> u.scene.camera == scene.camera
    ensures m.newDataAvailable && scene.camera.Some? && CameraViewModel.Valid(scene.camera.value) && SixSpeeds(m) ==>
      var before, after := scene.camera.value, u.scene.camera.value;
      CameraViewModel.Valid(after) && after.external
      && (after.following <==> m.cameraMode == 1 && scene.headAvailable)
      && (after.moving <==> m.cameraMode == 2)
      && (m.cameraMode == 2 ==> after.vectorTarget == m.cameraTransform && after.speedFactor == m.moveSpeedFactor)
      && (m.cameraMode != 0 ==> after.position == before.position)
  {
    var t := Take(m);
    match t.snapshot
    case None => Updated(t.mailbox, scene, None, None)
    case Some(s) =>
      var material := if scene.material.Some? then Some(TcpServerModel.MaterialParams(s.noiseIntensity, s.noiseSpeed)) else None;
      var camera := if scene.camera.Some? then Some(CameraViewModel.PerformAll(scene.camera.value, Dispatch(s, scene.headAvailable, scene.keyMotion))) else None;
      UpdateCamera(scene, s);
      Updated(t.mailbox, Scene(material, camera, scene.headAvailable, scene.keyMotion), Some(s.sectionNum), Some(s.frameNum))
  }

  lemma UpdateCamera(scene: Scene, s: PoseSnapshot)
    ensures scene.camera.Some? && CameraViewModel.Valid(scene.camera.value) && |s.cameraKeySpeeds| == KeySpeedCount ==>
      var r := CameraViewModel.PerformAll(scene.camera.value, Dispatch(s, scene.headAvailable, scene.keyMotion));
      CameraViewModel.Valid(r) && r.external
      && (r.following <==> s.cameraMode == 1 && scene.headAvailable)
      && (r.moving <==> s.cameraMode == 2)
      && (s.cameraMode == 2 ==> r.vectorTarget == s.cameraTransform && r.speedFactor == s.moveSpeedFactor)
      && (s.cameraMode != 0 ==> r.position == scene.camera.value.position)
  {
    if scene.camera.Some? && CameraViewModel.Valid(scene.camera.value) && |s.cameraKeySpeeds| == KeySpeedCount {
      DispatchEffect(scene.camera.value, s, scene.headAvailable, scene.keyMotion);
    }
  }

  /** After a write and an `Update`, a camera in vector mode heads for the received
      position at the received speed factor. */
  lemma VectorModeReachesCamera(m: PoseMailbox, p: PoseData, scene: Scene)
    requires p.cameraMode == 2 && p.cameraTransform.Some? && |p.cameraTransform.value| == 3
    requires scene.camera.Some? && CameraViewModel.Valid(scene.camera.value)
    ensures var c := Update(Write(m, p), scene).scene.camera.value;
      c.moving && !c.following && c.external
      && c.vectorTarget == Vec3(p.cameraTransform.value[0], p.cameraTransform.value[1], p.cameraTransform.value[2])
      && c.speedFactor == p.cameraMoveSpeedFactor
  {
    var w := Write(m, p);
    DispatchEffect(scene.camera.value, Take(w).snapshot.value, scene.headAvailable, scene.keyMotion);
  }

  /** What the connection thread does per line: queue work for the main thread and
      write a reply. */
  datatype Event = SendReply | ProcessLine(line: string) | SendFeedback

  /** `ReadLine` results up to the first null, which ends the connection. */
  function UntilEnd(received: seq<Option<string>>): (lines: seq<string>)
    ensures |lines| <= |received|
    ensures forall k :: 0 <= k < |lines| ==> received[k] == Some(lines[k])
    ensures |lines| < |received| ==> received[|lines|].None?
  {
    if received == [] || received[0].None? then [] else [received[0].value] + UntilEnd(received[1..])
  }

  /** Unity refuses `transform` reads off the main thread. `TcpCommunicatorV2` builds its
      feedback on the connection thread and reads the camera's position when a camera
      object is assigned and the head's when the body has one, so either read throws. */
  predicate FeedbackReadThrows(camera: Option<Vec3>, head: Option<Vec3>) {
    camera.Some? || head.Some?
  }

  /** The jobs the connection thread issues for one line, in the order it issues them:
      `TcpCommunicator.HandleClientComm` queues the reply, then the processing;
      `TcpCommunicatorV2` queues the processing, then sends feedback itself, unless the
      read for the feedback throws (`readsThrow`), which leaves only the processing.
      When the queued jobs run on the main thread is not part of this order. */
  function Jobs(line: string, v2: bool, readsThrow: bool): (jobs: seq<Event>)
    ensures ProcessLine(line) in jobs
    ensures |jobs| == (if v2 && readsThrow then 1 else 2)
    ensures SendFeedback in jobs <==> v2 && !readsThrow
    ensures SendReply in jobs <==> !v2
  {
    if !v2 then [SendReply, ProcessLine(line)]
    else if readsThrow then [ProcessLine(line)]
    else [ProcessLine(line), SendFeedback]
  }

  /** The connection loop. In the second version a throwing feedback read is caught
      outside the loop, which ends the connection after the first line's jobs;
      otherwise the loop runs to the end of the stream. */
  function Handler(received: seq<Option<string>>, v2: bool, readsThrow: bool): (events: seq<Event>)
    ensures !(v2 && readsThrow) ==> |events| == 2 * |UntilEnd(received)|
    ensures v2 && readsThrow ==> |events| == (if |UntilEnd(received)| == 0 then 0 else 1)
  {
    if !(v2 && readsThrow) then Lines(received, v2)
    else if received == [] || received[0].None? then []
    else Jobs(received[0].value, v2, readsThrow)
  }

  /** The jobs of every line up to the end of the stream, no read throwing. */
  function Lines(received: seq<Option<string>>, v2: bool): (events: seq<Event>)
    ensures |events| == 2 * |UntilEnd(received)|
    decreases |received|
  {
    if received == [] || received[0].None? then [] else Jobs(received[0].value, v2, false) + Lines(received[1..], v2)
  }

  /** As written, the second version with a camera object or a head processes only the
      first line and never sends feedback: the read throws, the catch ends the loop and
      the client is closed. */
  lemma HandlerStopsAtFirstFeedback(received: seq<Option<string>>, camera: Option<Vec3>, head: Option<Vec3>)
    requires FeedbackReadThrows(camera, head)
    ensures var events := Handler(received, true, FeedbackReadThrows(camera, head));
      (UntilEnd(received) == [] ==> events == [])
      && (UntilEnd(received) != [] ==> events == [ProcessLine(UntilEnd(received)[0])])
      && SendFeedback !in events
  {
  }

  /** A concrete run: a camera object is assigned and two lines arrive; only the first
      line is queued, and no feedback is written. */
  lemma TwoLinesOneProcessed(camera: Vec3)
    ensures Handler([Some("a"), Some("b")], true, FeedbackReadThrows(Some(camera), None)) == [ProcessLine("a")]
  {
    assert UntilEnd([Some("a"), Some("b")]) == ["a", "b"];
  }

  /** Events `2k` and `2k + 1` are the jobs of the `k`-th line, in order, whenever no
      feedback read throws: always in the first version, and in the second when the reads
      are made where Unity allows them. */
  lemma HandlerPerLine(received: seq<Option<string>>, v2: bool, readsThrow: bool, k: nat)
    requires k < |UntilEnd(received)|
    ensures !(v2 && readsThrow) ==>
      Handler(received, v2, readsThrow)[2 * k..2 * k + 2] == Jobs(UntilEnd(received)[k], v2, readsThrow)
    ensures v2 && !readsThrow ==>
      Handler(received, v2, readsThrow)[2 * k..2 * k + 2] == [ProcessLine(UntilEnd(received)[k]), SendFeedback]
  {
    LinesPerLine(received, v2, k);
  }

  /** The induction behind `HandlerPerLine`. */
  lemma {:induction false} LinesPerLine(received: seq<Option<string>>, v2: bool, k: nat)
    requires k < |UntilEnd(received)|
    ensures Lines(received, v2)[2 * k..2 * k + 2] == Jobs(UntilEnd(received)[k], v2, false)
    decreases |received|
  {
    var tail := Lines(received[1..], v2);
    assert Lines(received, v2) == Jobs(received[0].value, v2, false) + tail;
    if k > 0 {
      LinesPerLine(received[1..], v2, k - 1);
      assert UntilEnd(received)[k] == UntilEnd(received[1..])[k - 1];
      PairAfterHead(Jobs(received[0].value, v2, false), tail, k);
    }
  }

  lemma PairAfterHead<T>(head: seq<T>, tail: seq<T>, k: nat)
    requires |head| == 2 && 1 <= k && 2 * k <= |tail|
    ensures (head + tail)[2 * k..2 * k + 2] == tail[2 * (k - 1)..2 * (k - 1) + 2]
  {
  }

  /** The reply of `TcpCommunicator`: head and camera positions, the origin for a missing one. */
  datatype Reply = Reply(headPosition: Vec3, cameraPosition: Vec3)

  function MakeReply(head: Option<Vec3>, camera: Option<Vec3>): (r: Reply)
    ensures head.Some? ==> r.headPosition == head.value
    ensures head.None? ==> r.headPosition == Zero
    ensures camera.Some? ==> r.cameraPosition == camera.value
    ensures camera.None? ==> r.cameraPosition == Zero
  {
    Reply(head.GetOr(Zero), camera.GetOr(Zero))
  }

  const AckMessage: string := "ACK from Unity"

  /** `TcpCommunicatorV2`'s feedback, built on the connection thread right after queuing
      the line: the camera and head positions (the origin for a missing one), the mode
      and frame number the mailbox holds at that moment, and the acknowledgement text.
      The line itself is only queued, so the numbers may be those of an earlier line. */
  function FeedbackV2(m: PoseMailbox, camera: Option<Vec3>, head: Option<Vec3>): (d: UnityFeedbackData)
    ensures d.frameNum == m.frameNum && d.cameraMode == m.cameraMode && d.message == AckMessage
    ensures |d.cameraPosition| == 3 && |d.targetPosition| == 3
    ensures FromComponents(d.cameraPosition) == camera.GetOr(Zero)
    ensures FromComponents(d.targetPosition) == head.GetOr(Zero)
  {
    FeedbackPositions(m.frameNum, camera.GetOr(Zero), head.GetOr(Zero), m.cameraMode, AckMessage);
    MakeFeedback(m.frameNum, camera.GetOr(Zero), head.GetOr(Zero), m.cameraMode, AckMessage)
  }

  /** The feedback as `TcpCommunicatorV2` actually gets it: nothing when a read throws,
      and otherwise, with neither a camera object nor a head, both positions at the
      origin. `FeedbackV2` is the feedback once the reads succeed. */
  function FeedbackAsWritten(m: PoseMailbox, camera: Option<Vec3>, head: Option<Vec3>): (r: Option<UnityFeedbackData>)
    ensures r.None? <==> FeedbackReadThrows(camera, head)
    ensures r.Some? ==> r.value.frameNum == m.frameNum && r.value.cameraMode == m.cameraMode
    ensures r.Some? ==> |r.value.cameraPosition| == 3 && |r.value.targetPosition| == 3
    ensures r.Some? ==> FromComponents(r.value.cameraPosition) == Zero && FromComponents(r.value.targetPosition) == Zero
  {
    if FeedbackReadThrows(camera, head) then None else Some(FeedbackV2(m, camera, head))
  }

  /** Feedback built after the queued line was processed reports that line's frame and
      mode, and the relative position points from the head to the camera. */
  lemma FeedbackAfterProcessing(m: PoseMailbox, p: PoseData, camera: Vec3, head: Vec3)
    ensures var d := FeedbackV2(Write(m, p), Some(camera), Some(head));
      d.frameNum == p.frameNum && d.cameraMode == p.cameraMode
      && Add(head, FromComponents(d.cameraToTargetRelativePosition)) == camera
  {
    FeedbackPositions(p.frameNum, camera, head, p.cameraMode, AckMessage);
  }

  /** Both versions report the same positions: the first version's reply and the second
      version's feedback carry the same head and camera, the origin standing in for a
      missing one. */
  lemma RepliesAgree(m: PoseMailbox, camera: Option<Vec3>, head: Option<Vec3>)
    ensures var r, d := MakeReply(head, camera), FeedbackV2(m, camera, head);
      FromComponents(d.targetPosition) == r.headPosition && FromComponents(d.cameraPosition) == r.cameraPosition
  {
  }
}
