/**
  `UnityFeedbackData`: the record sent back to the pose sender after each line.
  Vectors travel as three-element lists.
*/
module FeedbackData {
  import opened Vectors

  datatype UnityFeedbackData = UnityFeedbackData(
    frameNum: int,
    cameraPosition: seq<real>,
    targetPosition: seq<real>,
    cameraToTargetRelativePosition: seq<real>,
    cameraMode: int,
    message: string)

  /** The constructor's default message. */
  const DefaultMessage: string := ""

  /** A vector as the list `[x, y, z]`. */
  function Components(v: Vec3): (r: seq<real>)
    ensures |r| == 3
  {
    [v.x, v.y, v.z]
  }

  function FromComponents(r: seq<real>): Vec3
    requires |r| == 3
  {
    Vec3(r[0], r[1], r[2])
  }

  lemma ComponentsRoundTrip(v: Vec3)
    ensures FromComponents(Components(v)) == v
  {
  }

  /** The constructor: positions as lists, and the camera's position relative to the
      target (camera minus target). */
  function MakeFeedback(frameNum: int, camPos: Vec3, targetPos: Vec3, camMode: int, msg: string): (d: UnityFeedbackData)
    ensures |d.cameraPosition| == 3 && |d.targetPosition| == 3 && |d.cameraToTargetRelativePosition| == 3
    ensures d.frameNum == frameNum && d.cameraMode == camMode && d.message == msg
  {
    UnityFeedbackData(frameNum, Components(camPos), Components(targetPos),
                      Components(Sub(camPos, targetPos)), camMode, msg)
  }

  /** The lists hold the given positions, and target plus relative position is the camera. */
  lemma FeedbackPositions(frameNum: int, camPos: Vec3, targetPos: Vec3, camMode: int, msg: string)
    ensures var d := MakeFeedback(frameNum, camPos, targetPos, camMode, msg);
      FromComponents(d.cameraPosition) == camPos
      && FromComponents(d.targetPosition) == targetPos
      && Add(FromComponents(d.targetPosition), FromComponents(d.cameraToTargetRelativePosition)) == camPos
  {
  }
}
