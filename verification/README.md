# UnityMediapipeBody receiving core, modelled in Dafny

A Unity scene shows a tracked human body and drives camera, lights and particle effects
from data that an external pose estimator sends over TCP. This project models the core
of the receiving side as pure functions over immutable data, and proves properties
about them. Each `lock` block is one atomic state transition. Floats are reals.

The modelled parts:

- **`TcpServer`, text protocol.**
  - The receive loop keeps a per-connection character buffer and cuts it into lines
    (`reassembler.dfy`, module `LineReassembler`).
  - `ExtractData` parses `key:value,...` (`extract_data.dfy`, module `TcpParse`).
  - The partial-update mailbox, the `Update` take, and the client list are in
    `tcp_server.dfy`, module `TcpServerModel`.
  - .NET's `Split`, `Trim`, `IndexOf` and ordinal ignore-case comparison are in
    `text.dfy`, module `Text`.
- **`TcpCommunicator` and `TcpCommunicatorV2` (null.cs), JSON protocol**
  (`pose_mailbox.dfy`, module `PoseChannel`).
  - One shared mailbox write, take and camera-mode dispatch.
  - The two versions of `ProcessReceivedData`.
  - The forwarding of landmarks to the body.
  - The per-line jobs of both connection handlers, and the feedback record of the
    second version.
- **`UnityFeedbackData`**: the record's constructor (`feedback_data.dfy`).
- **`CameraView`**: the state machine of the flags `isExternalControl`, `isFollowing`
  and `isMovingToVectorPosition` (`camera_view.dfy`, module `CameraViewModel`). It also
  covers the entry points, the `LateUpdate` dispatch, the follow gate, the vector-move
  step and the vertical-angle clamp.
- **`PipeServer`**: the `UpdateBody` accumulation loop, the one-shot calibration, the
  per-landmark step, and the constructor's scale choice (`pipe_server.dfy`).
- **`MDLCmethods`**: `Permute`, and the permutation index and rotation sign of
  `ProcessVariousRotation` (`mdlc_methods.dfy`).
- **`MultiDirectionalLightController`**: the hysteresis gate with cooldown, the simple
  gate, the guarded feature read and the switches (`light_controller.dfy`). The guarded
  read shared with `ParticleController` is in `feature_lookup.dfy`.
- **`ParticleController`**: the oneshot rising-edge trigger, and the neverend opacity
  and scale (`particle_controller.dfy`).

How foreign code enters the model:

- `float.TryParse` is a parameter `string -> Option<real>`.
- JSON decoding is a `Decoded` value: it throws, gives null, or gives a `PoseData`
  whose missing numbers are 0 and whose missing lists are `None`.
- `intensityCurve.Evaluate` is a parameter `real -> real`.
- Viewport coordinates, frame times, whether engine objects exist, and distances
  (which need a square root) are inputs.

Behaviour that is easy to misread in the code, and that the model keeps:

- **TcpServer's write.** The dirty flag is raised only when at least one field was
  present (TcpServer.cs:345-366).
- **The JSON channel's write.** The scalars are always overwritten, and a missing one is
  written as 0 (TcpCommunicator.cs:437-462).
- **The follow gate.** The tooltip of `stopFollowMargin` (CameraView.cs:30) calls it a
  distance from the screen centre, but the stop test measures it from the edges
  (CameraView.cs:246-252). The model's `LateUpdate` runs the gate as written; the
  centre reading is stated beside it (see Findings).

## Model

| member | source | states |
|---|---|---|
| Text.IndexOf | Assets/Scripts/TcpServer.cs:321 | -1 exactly when the character is absent, otherwise the position of its first occurrence |
| Text.Split | Assets/Scripts/TcpServer.cs:120 | `Split` yields at least one piece and no piece contains the separator |
| Text.JoinSplit | Assets/Scripts/TcpServer.cs:120 | joining the pieces of `Split` with the separator gives back the input |
| Text.SplitJoin | Assets/Scripts/TcpServer.cs:120 | splitting a join of separator-free pieces gives back exactly those pieces |
| Text.SplitAround | Assets/Scripts/TcpServer.cs:120 | the pieces of `a + sep + b` are the pieces of `a` followed by those of `b` |
| Text.Trim | Assets/Scripts/TcpServer.cs:330 | the result has no white space at either end, is empty exactly when the input is blank, and is no longer than the input |
| Text.TrimIsSlice | Assets/Scripts/TcpServer.cs:330 | what `Trim` keeps is one contiguous slice of the input, with only white space before and after it |
| Text.TrimIdempotent | Assets/Scripts/TcpServer.cs:136-137 | trimming twice is trimming once |
| LineReassembler.Pending | Assets/Scripts/TcpServer.cs:318-333 | the text left in the buffer after draining contains no newline (the loop's exit condition) |
| LineReassembler.FramesAreSplitPieces | Assets/Scripts/TcpServer.cs:318-333 | the complete lines and the pending tail are exactly the newline-separated pieces of the buffer, and they rejoin to it |
| LineReassembler.NoNewlineAllPending | Assets/Scripts/TcpServer.cs:321-327 | a buffer without a newline yields no line and is kept whole |
| LineReassembler.FramesAtNewline | Assets/Scripts/TcpServer.cs:321-333 | the first line is the text before the first newline, and draining goes on with the text after it |
| LineReassembler.FramesAppend | Assets/Scripts/TcpServer.cs:313-333 | draining `a + b` gives the lines of `a`, then the lines of what was left of `a` followed by `b` |
| LineReassembler.Keep | Assets/Scripts/TcpServer.cs:330-339 | a line yields no message exactly when it is blank, otherwise its trimmed, non-empty text |
| LineReassembler.MessagesAppend | Assets/Scripts/TcpServer.cs:335-339 | skipping blank lines distributes over concatenation of line lists |
| LineReassembler.Receive | Assets/Scripts/TcpServer.cs:313-341 | after each read the buffer holds no newline |
| LineReassembler.ChunkingInvariance | Assets/Scripts/TcpServer.cs:302-343 | the messages from a sequence of reads, and the text left over, are those of the concatenated text read at once |
| LineReassembler.SameStreamSameMessages | Assets/Scripts/TcpServer.cs:302-343 | two read sequences with the same concatenation give the same messages and leftover |
| LineReassembler.OneTerminatedLine | Assets/Scripts/TcpServer.cs:321-333 | one newline-terminated line drains completely into that line |
| LineReassembler.TwoTerminatedLines | Assets/Scripts/TcpServer.cs:321-333 | two terminated lines in one buffer give two lines, in order, and nothing pending |
| LineReassembler.TwoLinesInOneRead | Assets/Scripts/TcpServer.cs:313-341 | two non-blank lines arriving in one read give two messages (their trimmed texts), not one |
| LineReassembler.DrainIteration | Assets/Scripts/TcpServer.cs:321-333 | one pass of the loop emits the trimmed text before the first newline and removes exactly that text and the newline |
| LineReassembler.DrainBuffer | Assets/Scripts/TcpServer.cs:318-341 | the loop emits exactly the trimmed non-blank lines before the last newline and keeps exactly the text after it |
| TcpParse.Get | Assets/Scripts/TcpServer.cs:115-118 | a result slot only ever holds a field of its own kind |
| TcpParse.ParseTransform | Assets/Scripts/TcpServer.cs:159-175 | a position exactly when the value has three '/'-separated parts that all parse; it is then those three numbers in order |
| TcpParse.Classify | Assets/Scripts/TcpServer.cs:127-175 | a segment yields a field only when it splits on ':' into exactly two parts, its trimmed key is one of the three keys (ignoring case), and its trimmed value parses; conversely every such segment yields the field of its key holding the parsed value; any other segment is ignored |
| TcpParse.KeysExclusive | Assets/Scripts/TcpServer.cs:141-159 | no key matches two of the three known keys, so the order of the tests in the if/else chain never matters |
| TcpParse.Apply | Assets/Scripts/TcpServer.cs:141-175 | a parsed field overwrites its own slot and leaves the other two unchanged; an ignored segment changes nothing |
| TcpParse.Classified | Assets/Scripts/TcpServer.cs:120-127 | one classification per comma-separated segment, in order |
| TcpParse.FoldIsLastSupplied | Assets/Scripts/TcpServer.cs:120-178 | each slot of the result is empty when no segment supplied it, otherwise the value of the last segment that did |
| TcpParse.LastSuppliedExtend | Assets/Scripts/TcpServer.cs:141-175 | a further segment changes the last supplier of a slot only when it fills that slot |
| TcpParse.ExtractDataLastValidWins | Assets/Scripts/TcpServer.cs:115-180 | `ExtractData` keeps, per field, the last successfully parsed occurrence; unparsable or unknown occurrences never overwrite |
| TcpParse.Merge | Assets/Scripts/TcpServer.cs:141-175 | slot by slot, the later record's field where it has one, else the earlier record's |
| TcpParse.FoldAppend | Assets/Scripts/TcpServer.cs:120-178 | folding two segment lists one after the other is merging their separate results |
| TcpParse.MergeApply | Assets/Scripts/TcpServer.cs:141-175 | applying a segment after a merge is merging with the segment applied to the later record |
| TcpParse.ClassifiedAppend | Assets/Scripts/TcpServer.cs:120-127 | classifying two segment lists together is classifying them separately |
| TcpParse.LaterSegmentsOverride | Assets/Scripts/TcpServer.cs:115-180 | parsing `a,b` is merging the results of `a` and of `b`: later segments override earlier ones field by field |
| TcpParse.IgnoredSegmentChangesNothing | Assets/Scripts/TcpServer.cs:129-134 | appending a segment that is ignored (wrong shape, unknown key or unparsable value) leaves the result unchanged |
| TcpParse.IgnoredSegmentAlone | Assets/Scripts/TcpServer.cs:129-134 | a message made of one ignored segment yields a record with no field |
| TcpParse.SingleSegment | Assets/Scripts/TcpServer.cs:120 | text without a comma is one segment |
| TcpServerModel.Init | Assets/Scripts/TcpServer.cs:65-107 | the cached noise values start from the material when the grid has a renderer (else 0), the camera value from the camera's position (else the origin); the flag is down |
| TcpServerModel.Write | Assets/Scripts/TcpServer.cs:345-366 | each field present overwrites its cached value and the others keep theirs; the flag is raised exactly when some field was present and is never lowered |
| TcpServerModel.WriteWrite | Assets/Scripts/TcpServer.cs:345-366 | two writes are one write of the merged record |
| TcpServerModel.MissingKeyKeepsInspectorValue | Assets/Scripts/TcpServer.cs:345-366 | a message without the intensity key leaves the material's initial intensity in place |
| TcpServerModel.WriteTwoMessages | Assets/Scripts/TcpServer.cs:335-366 | writing two messages in turn is writing the single message `a,b` |
| TcpServerModel.WriteMessages | Assets/Scripts/TcpServer.cs:335-366 | a run of messages never lowers the flag |
| TcpServerModel.WriteMessagesAppend | Assets/Scripts/TcpServer.cs:335-366 | writing two runs of messages is writing their concatenation |
| TcpServerModel.UntilClosed | Assets/Scripts/TcpServer.cs:305-311 | the connection uses the reads before the first empty read; every used read is non-empty |
| TcpServerModel.ConnectionDrains | Assets/Scripts/TcpServer.cs:302-375 | the connection writes the messages of the reads it uses, with the leftover carried between reads |
| TcpServerModel.ConnectionSeesOneStream | Assets/Scripts/TcpServer.cs:302-375 | a connection's effect on the mailbox depends only on the concatenation of the reads before it closed |
| TcpServerModel.Take | Assets/Scripts/TcpServer.cs:202-216 | a snapshot is returned exactly when the flag is up; it holds all three cached values; the flag is lowered and nothing else changes |
| TcpServerModel.TakeTwice | Assets/Scripts/TcpServer.cs:202-216 | a second take with no write in between returns nothing and changes nothing |
| TcpServerModel.WriteThenTake | Assets/Scripts/TcpServer.cs:202-216 | after a write with some field present the next take returns the written values |
| TcpServerModel.Update | Assets/Scripts/TcpServer.cs:194-250 | new data reaches whichever of material and camera exist; the cached values survive with only the flag lowered; the position sent back is target minus camera, exactly when both exist |
| TcpServerModel.UpdateSettles | Assets/Scripts/TcpServer.cs:194-250 | a second frame without new data changes nothing and sends the same vector |
| TcpServerModel.Accept | Assets/Scripts/TcpServer.cs:269-272 | an accepted client is appended and the list before it is unchanged |
| TcpServerModel.Remove | Assets/Scripts/TcpServer.cs:393-396 | removing an absent client changes nothing, otherwise the list shrinks by one and gains no one |
| TcpServerModel.RemoveCons | Assets/Scripts/TcpServer.cs:393-396 | removal takes out the first occurrence |
| TcpServerModel.RemoveOneCopy | Assets/Scripts/TcpServer.cs:393-396 | removal takes out exactly one copy of the client |
| TcpServerModel.AcceptThenRemove | Assets/Scripts/TcpServer.cs:269-272 | a handler that exits after its client was accepted restores the list |
| TcpServerModel.RemoveAbsentPrefix | Assets/Scripts/TcpServer.cs:393-396 | clients before the removed one keep their place |
| TcpServerModel.RemoveDistinct | Assets/Scripts/TcpServer.cs:393-396 | on a list without duplicates the removed client is gone afterwards and the list stays duplicate-free |
| TcpServerModel.AcceptDistinct | Assets/Scripts/TcpServer.cs:269-272 | accepting a new client keeps the list duplicate-free |
| TcpServerModel.Recipients | Assets/Scripts/TcpServer.cs:414-423 | the send goes to exactly the listed clients that are connected |
| TcpServerModel.StopForgetsClients | Assets/Scripts/TcpServer.cs:448-464 | after stopping no client is left to send to, removing a client finds nothing, and the next accepted client is the only one listed |
| PoseChannel.Write | Assets/Scripts/TcpCommunicator.cs:435-465 | noise, mode, speed factor, section and frame are always overwritten; the camera position only from a list of exactly three; the key speeds from a list of exactly six, else six zeros; the flag is raised |
| PoseChannel.LastWriteWins | Assets/Scripts/TcpCommunicator.cs:435-465 | a write that carries a camera position undoes everything an earlier write did |
| PoseChannel.Take | Assets/Scripts/TcpCommunicator.cs:159-189 | a snapshot of all eight fields exactly when the flag is up; the flag is lowered |
| PoseChannel.TakeAfterWrite | Assets/Scripts/null.cs:148-175 | a second take finds nothing, and a take after a write always finds the written frame |
| PoseChannel.RunKeepsSixSpeeds | Assets/Scripts/TcpCommunicator.cs:451-459 | the cached key speeds keep length six through any sequence of writes and takes |
| PoseChannel.InitReady | Assets/Scripts/TcpCommunicator.cs:40-125 | a fresh mailbox has nothing for `Update` to take, and its key speeds have length six then and after any mix of writes and takes |
| PoseChannel.Dispatch | Assets/Scripts/TcpCommunicator.cs:204-239 | the commands per mode: 0 is one key movement with the six speeds in order, or nothing without six; 1 is set-target then enable-follow with a head, disable-follow then disable-all without; 2 is one move to the received position at the received factor; any other mode is disable-all |
| PoseChannel.SpeedsOf | Assets/Scripts/TcpCommunicator.cs:209-211 | the six received speeds are passed to `ApplyKeyMovement` in list order as W, A, S, D, Q, E |
| PoseChannel.DispatchEffect | Assets/Scripts/null.cs:187-221 | after the commands, external control is on and the flags stay exclusive; the camera follows exactly in mode 1 with a head, and moves to the received position at the received factor exactly in mode 2; only mode 0 can move it at once, and then only with a target and an active key (a positive A speed always moves it) |
| PoseChannel.DeliverAsWritten | Assets/Scripts/TcpCommunicator.cs:414-432 | a landmark list reaches the body only with exactly 23 entries, which also turns the body active; targets and calibration are never touched |
| PoseChannel.DeliveredAsWrittenLandmark | Assets/Scripts/TcpCommunicator.cs:421-425 | as written, a landmark with three coordinates replaces its buffer by that single point with count `samplesForPose`; any other entry leaves its buffer alone |
| PoseChannel.DeliveredLandmarkIsShrunk | Assets/Scripts/TcpCommunicator.cs:424 | as written, with two samples per pose a landmark at x = 1 gets the target x = 5, not 10 |
| PoseChannel.Deliver | Assets/Scripts/TcpCommunicator.cs:414-432 | corrected forwarding with the same activation and buffer choice; identical to the code when one sample makes a pose (the default) |
| PoseChannel.DeliveredLandmarkTarget | Assets/Scripts/TcpCommunicator.cs:414-432 | with the correction, a forwarded landmark's target is its position times the multiplier; other landmarks keep their buffers |
| PoseChannel.Features | Assets/Scripts/TcpCommunicator.cs:395-407 | the features become the received list when it is non-empty, else the empty array |
| PoseChannel.DeliverTo | Assets/Scripts/TcpCommunicator.cs:420-430 | landmarks reach the body only when there is one; with one sample per pose this is the code's own delivery |
| PoseChannel.Process | Assets/Scripts/TcpCommunicator.cs:383-486 | the raw text is always kept; a failed decode or a null result changes nothing else; a pose updates mailbox, features, body and `receivedParam` |
| PoseChannel.ProcessV2 | Assets/Scripts/null.cs:375-457 | as in the first version, without features; an error is logged for a failed decode, a null result, or a pose whose trace line throws |
| PoseChannel.VersionsAgree | Assets/Scripts/null.cs:375-457 | both versions of `ProcessReceivedData` leave the same state apart from the features |
| PoseChannel.WriteSurvivesTrace | Assets/Scripts/null.cs:408-456 | a pose without key speeds still stores six zeros and raises the flag before the trace line throws |
| PoseChannel.Update | Assets/Scripts/TcpCommunicator.cs:154-262 | the cached fields survive with only the flag lowered; with new data, the material gets the noise values, section and frame are reported, and an existing camera ends under external control, following exactly in mode 1 with a head, moving exactly in mode 2 toward the received position, and unmoved in every mode but 0; without new data the scene is unchanged |
| PoseChannel.VectorModeReachesCamera | Assets/Scripts/TcpCommunicator.cs:230-233 | a written vector-mode pose makes the next `Update` send the camera to the received position at the received factor |
| PoseChannel.UntilEnd | Assets/Scripts/TcpCommunicator.cs:319-353 | the lines handled are the reads before the first null |
| PoseChannel.Jobs | Assets/Scripts/TcpCommunicator.cs:324-345 | per line, in the order the connection thread issues them: reply then processing in the first version; processing then feedback in the second, or the processing alone when the feedback read throws |
| PoseChannel.Handler | Assets/Scripts/null.cs:298-371 | two jobs per line read before the end of the stream; in the second version a throwing feedback read ends the connection after the first line's processing |
| PoseChannel.HandlerStopsAtFirstFeedback | Assets/Scripts/null.cs:324-328 | as written, the second version with a camera object or a head queues only the first line's processing and sends no feedback |
| PoseChannel.TwoLinesOneProcessed | Assets/Scripts/null.cs:326 | with a camera object assigned, two received lines lead to one queued job, the first line's processing |
| PoseChannel.HandlerPerLine | Assets/Scripts/null.cs:298-348 | whenever no feedback read throws, jobs `2k` and `2k+1` belong to line `k` in issue order; in the second version they are that line's processing and a feedback |
| PoseChannel.FeedbackV2 | Assets/Scripts/null.cs:316-337 | the feedback once the reads succeed: the cached frame and mode, camera and head positions (origin when missing) and "ACK from Unity" |
| PoseChannel.FeedbackAsWritten | Assets/Scripts/null.cs:324-337 | as written there is no feedback exactly when a camera object or a head exists; otherwise it reports the cached frame and mode with both positions at the origin |
| PoseChannel.FeedbackAfterProcessing | Assets/Scripts/null.cs:324-337 | once the line was processed, the feedback reports its frame and mode, and head plus relative position is the camera |
| PoseChannel.RepliesAgree | Assets/Scripts/TcpCommunicator.cs:328-333 | the first version's reply and the second version's feedback carry the same head and camera positions, the origin standing in for a missing one |
| FeedbackData.Components | Assets/Scripts/UnityFeedbackData.cs:32-36 | each position list has exactly three elements |
| FeedbackData.ComponentsRoundTrip | Assets/Scripts/UnityFeedbackData.cs:32-36 | reading a position list back gives the vector it was built from |
| FeedbackData.MakeFeedback | Assets/Scripts/UnityFeedbackData.cs:29-40 | three lists of three; frame number, mode and message stored unchanged |
| FeedbackData.FeedbackPositions | Assets/Scripts/UnityFeedbackData.cs:35-36 | the lists hold camera and target, and target plus relative position is the camera |
| CameraViewModel.Start | Assets/Scripts/CameraView.cs:61-66 | all three flags start false, the vector target at the camera |
| CameraViewModel.Perform | Assets/Scripts/CameraView.cs:130-204 | flag effects of each entry point: keys and disable-all set external and clear both modes, follow sets following only, vector move sets moving with target and factor, disable-follow clears only following; only a key movement with a target and an active key moves the camera, to where the engine's key motion puts it; exclusivity kept, external never cleared |
| CameraViewModel.MovedKeys | Assets/Scripts/CameraView.cs:132-147 | without a target nothing moves; otherwise each axis moves exactly when its speed is positive (forward also needs room to zoom) |
| CameraViewModel.PerformAllKeepsValid | Assets/Scripts/CameraView.cs:130-204 | any command sequence keeps following and moving exclusive and never clears external control |
| CameraViewModel.FollowGateAsWritten | Assets/Scripts/CameraView.cs:238-257 | start following whenever the start condition holds; stop only when previously following and the stop condition holds; otherwise keep the state |
| CameraViewModel.FollowGateIsMemoryless | Assets/Scripts/CameraView.cs:238-257 | with margins 0 <= stop <= follow <= 0.5 the written gate equals the start condition alone |
| CameraViewModel.FollowGateStopsEarly | Assets/Scripts/CameraView.cs:246-252 | with the default margins a target at (0.3, 0.5) in front stops following as written, but keeps following under the centre reading |
| CameraViewModel.FollowGateCentred | Assets/Scripts/CameraView.cs:30-31 | the gate with the stop margin measured from the screen centre |
| CameraViewModel.FollowGateCentredHysteresis | Assets/Scripts/CameraView.cs:238-257 | the corrected gate starts at the edges, stops near the centre, and keeps its state in the band between |
| CameraViewModel.CentreIsNotEdge | Assets/Scripts/CameraView.cs:238-257 | under sane margins the centred stop zone and the start zone are disjoint |
| CameraViewModel.FollowStep | Assets/Scripts/CameraView.cs:229-272 | nothing happens without a target or main camera; otherwise the flag follows the gate as written, and while following the camera moves toward the desired position by the weight frame time times `lookAtLerpSpeed`; otherwise it stays |
| CameraViewModel.FollowStepAsWritten | Assets/Scripts/CameraView.cs:238-257 | with margins 0 <= stop <= follow <= 0.5, a frame with a target follows exactly when the target is in the start zone, whatever it did before |
| CameraViewModel.VectorStep | Assets/Scripts/CameraView.cs:278-306 | within 0.01 of the target the camera snaps onto it and stops moving; otherwise the gap is scaled by one minus the clamped weight |
| CameraViewModel.VectorMoveArrives | Assets/Scripts/CameraView.cs:281-303 | a full-weight step lands on the target and the next step ends the move |
| CameraViewModel.VectorStepFullWeight | Assets/Scripts/CameraView.cs:294-303 | a weight of at least one puts the camera on the target |
| CameraViewModel.VectorStepAtTarget | Assets/Scripts/CameraView.cs:281-286 | a camera already on the target stays there and stops moving |
| CameraViewModel.VectorStepApproaches | Assets/Scripts/CameraView.cs:294-303 | away from the target, a positive weight strictly reduces the distance |
| Vectors.LerpShrinksGap | Assets/Scripts/CameraView.cs:294-303 | `Vector3.Lerp` with a clamped weight leaves the gap to the target scaled by one minus the weight |
| CameraViewModel.LateUpdate | Assets/Scripts/CameraView.cs:69-122 | under external control a following camera takes the follow step, else a moving one takes the vector step with the weight `VectorWeight`, else nothing changes; external control is never switched and the flags stay valid; a frame can end following but never start it; under manual control only the position changes, and not at all without a target |
| CameraViewModel.VectorWeight | Assets/Scripts/CameraView.cs:294-297 | the weight lies in [0, 1] and is the product of speed factor, base speed and frame time whenever that product does |
| CameraViewModel.VectorMoveCommandArrives | Assets/Scripts/CameraView.cs:183-306 | a move commanded with factor times base speed times frame time at least one lands on its target in the next frame, and the frame after ends the move |
| CameraViewModel.VectorMoveZeroFactorStalls | Assets/Scripts/CameraView.cs:278-303 | a move with factor zero, not yet within the snap distance, leaves the camera unchanged |
| CameraViewModel.ClampRange | Assets/Scripts/CameraView.cs:218 | `Mathf.Clamp` lands in the range when min <= max and keeps a value already inside it |
| CameraViewModel.ClampVerticalAngle | Assets/Scripts/CameraView.cs:211-224 | angles above 180 count as negative; the result lies within [min, max] when min <= max, and an angle already inside is kept |
| CameraViewModel.DefaultAngleLimits | Assets/Scripts/CameraView.cs:23-25 | with the default limits, 330 becomes -10 and 45 stays 45 |
| PipeServerModel.NewBody | Assets/Scripts/PipeServer.cs:59-122 | 23 empty buffers, 23 targets at the origin, a zero calibration offset, not active and not calibrated |
| PipeServerModel.Aggregate | Assets/Scripts/PipeServer.cs:255-261 | a buffer with fewer than `samplesForPose` samples is skipped; otherwise its average times the multiplier, or a division by a zero count |
| PipeServerModel.AggregateDivisorPositive | Assets/Scripts/PipeServer.cs:257-259 | with `samplesForPose` >= 1 the divisor is always at least one |
| PipeServerModel.AggregateAll | Assets/Scripts/PipeServer.cs:255-261 | the loop's outcome is defined exactly when no division by zero occurs |
| PipeServerModel.AggregateAllPerLandmark | Assets/Scripts/PipeServer.cs:255-261 | skipped landmarks keep buffer and target; consumed ones get the scaled average and an empty buffer |
| PipeServerModel.UpdateTargets | Assets/Scripts/PipeServer.cs:255-261 | the imperative loop computes exactly the landmark-by-landmark reference |
| PipeServerModel.Calibrate | Assets/Scripts/PipeServer.cs:179-185 | the offset moves the midpoint of the hips (13, 14) to the origin; calibration is marked done |
| PipeServerModel.CalibrateOnce | Assets/Scripts/PipeServer.cs:263-270 | a calibrated body is left alone |
| PipeServerModel.CalibrationIsFixed | Assets/Scripts/PipeServer.cs:263-270 | later frames never move the offset, whatever the targets become |
| PipeServerModel.MoveTowards | Assets/Scripts/PipeServer.cs:272-275 | a step that can cover the distance lands on the target; otherwise the point moves by exactly `maxDelta`; a non-negative step never moves farther than `maxDelta` |
| PipeServerModel.MoveTowardsOnSegment | Assets/Scripts/PipeServer.cs:272-275 | a non-negative step lands on the segment between the current point and the target |
| PipeServerModel.MoveTowardsCoversMaxDelta | Assets/Scripts/PipeServer.cs:272-275 | a step that cannot reach the target leaves exactly the distance minus `maxDelta` to go |
| PipeServerModel.StepLandmarkReaches | Assets/Scripts/PipeServer.cs:272-275 | a long enough step puts the landmark on its calibrated target |
| PipeServerModel.StepLandmark | Assets/Scripts/PipeServer.cs:272-275 | a landmark moves at most the frame's `maxDelta`, lands on its calibrated target when that is within reach, and otherwise is left exactly the distance minus `maxDelta` from it |
| PipeServerModel.InstanceScaleByPart | Assets/Scripts/PipeServer.cs:76-110 | with a head the nose and ears (0-2) are exactly the hidden landmarks, and without one none is; the pinkies, index fingers, heels and foot indices (9-12, 19-22) are exactly the half-size ones; every other landmark has the landmark scale |
| Vectors.CsRem | Assets/Scripts/MDLCmethods.cs:53 | C#'s `%` on ints: the dividend is the divisor times the quotient rounded toward zero plus the result, and the result has the dividend's sign and is smaller than the divisor in magnitude |
| Vectors.CsRemUnique | Assets/Scripts/MDLCmethods.cs:53 | truncating division is the only way to write the dividend as divisor times a quotient plus a remainder of its sign and smaller magnitude |
| LightRotation.PermuteRearranges | Assets/Scripts/MDLCmethods.cs:53-61 | every case rearranges the components: same multiset, same squared length |
| LightRotation.PermuteDependsOnRemainder | Assets/Scripts/MDLCmethods.cs:53-55 | the result depends only on the C# remainder of the index by 6, and index 0 is the identity |
| LightRotation.NegativeIndexIsDefault | Assets/Scripts/MDLCmethods.cs:53-60 | a negative index with non-zero remainder falls to the default (z, y, x) |
| LightRotation.PermutationsDistinct | Assets/Scripts/MDLCmethods.cs:55-60 | for distinct components the six cases give six different vectors |
| LightRotation.LightPermutation | Assets/Scripts/MDLCmethods.cs:32 | with a non-negative base the index lies in 0..5 |
| LightRotation.LightPermutationsDistinct | Assets/Scripts/MDLCmethods.cs:32 | up to six consecutive lights get pairwise different indices |
| LightRotation.LightAxes | Assets/Scripts/MDLCmethods.cs:29-33 | one target axis per light: light `i` gets the base axis permuted by the index `(pBase + i) % 6` |
| LightRotation.LightAxesRearrange | Assets/Scripts/MDLCmethods.cs:29-33 | every light's axis has the base axis's components rearranged, hence its length |
| LightRotation.LightAxesDistinct | Assets/Scripts/MDLCmethods.cs:29-33 | up to six lights turn about pairwise different axes |
| LightRotation.RotationDirection | Assets/Scripts/MDLCmethods.cs:36 | with positive speed and frame time the light turns forward exactly when the direction feature exceeds the feature value; exchanging two different values reverses the turn |
| FeatureLookup.Read | Assets/Scripts/ParticleController.cs:52-54 | a value exactly for an index inside the array; nothing when the array is missing or the index too large; an exception for a negative index |
| LightController.NextGate | Assets/Scripts/MultiDirectionalLightController.cs:165 | an open gate stays open above the off threshold, a closed one opens above the on threshold |
| LightController.HysteresisBand | Assets/Scripts/MultiDirectionalLightController.cs:165 | with off <= on the gate opens only above on, closes only at or below off, and holds in between |
| LightController.HysteresisGate | Assets/Scripts/MultiDirectionalLightController.cs:161-168 | a resample happens exactly when the new gate is open and the decremented timer has run out; the timer then restarts at the cooldown |
| LightController.SimpleGate | Assets/Scripts/MultiDirectionalLightController.cs:169-173 | open exactly above the off threshold and resampling on every open frame |
| LightController.SimpleGateIsMemoryless | Assets/Scripts/MultiDirectionalLightController.cs:171 | the previous gate state never changes the simple gate's decision |
| LightController.QuietTimer | Assets/Scripts/MultiDirectionalLightController.cs:163 | without a resample the timer only counts down by the elapsed time |
| LightController.CooldownSpacing | Assets/Scripts/MultiDirectionalLightController.cs:163-166 | successive resamples are at least the cooldown of summed frame time apart |
| LightController.TakeFeature | Assets/Scripts/MultiDirectionalLightController.cs:118-135 | a switched-off output keeps its value; a switched-on rotation speed lies within its scaled range |
| LightController.Update | Assets/Scripts/MultiDirectionalLightController.cs:113-147 | the outputs change only when the feature is read; the gate runs on the possibly stale value; a negative index throws before any change |
| ParticleEffects.Excess | Assets/Scripts/ParticleController.cs:53 | never negative, and positive exactly when the feature exceeds a threshold below 1 |
| ParticleEffects.OneshotStep | Assets/Scripts/ParticleController.cs:49-61 | the previous value is the prior current value; the new value is the excess, or 0 when missing; play exactly on an upward crossing |
| ParticleEffects.NoDoublePlay | Assets/Scripts/ParticleController.cs:55-60 | the effect never plays on two frames in a row |
| ParticleEffects.FirstFrameFromStart | Assets/Scripts/ParticleController.cs:33-60 | from the start values, the first oneshot frame plays exactly when the feature is present and its excess clears a non-negative threshold, and never under a negative one |
| ParticleEffects.NeverendStep | Assets/Scripts/ParticleController.cs:73-90 | scale is three equal components from the excess, or the offset when missing; opacity never negative |
| ParticleEffects.NeverendAlpha | Assets/Scripts/ParticleController.cs:75-77 | with a non-negative scaler the opacity is the excess times the scaler |
| ParticleEffects.Update | Assets/Scripts/ParticleController.cs:45-71 | the effect always follows its parent; only the oneshot tag plays or touches the values, only the neverend tag touches opacity and scale |

## Left out

- Threads, sockets, `ReadAsync`/`ReadLine`, stream writes and flushes, the main-thread
  dispatcher queue, `Thread.Abort` and cancellation. Each `lock` block is one atomic
  transition; the dispatcher queue appears only as the ordered jobs of a line.
- UTF-8 decoding: reads are already decoded to characters. A multi-byte character
  split across two reads is not modelled.
- JSON (de)serialisation and `float.TryParse` are inputs, not models. NaN and the
  infinities are not representable as reals.
- Quaternions, Euler angles, `Slerp`, `LookRotation`, `RotateAround`,
  `WorldToViewportPoint`, normalisation and other square roots. Viewport points and
  distances are inputs. The smoothed rotation axis and the light rotation itself are
  not modelled.
- `RotateLights`, `Resample` and the random light colours (randomness and float `%`).
  Which frames resample is modelled.
- The UI calls in `Update`, the log lines (except the one whose exception matters in
  null.cs), the head and line rendering of `UpdateBody`, and `PipeServer.Run` (empty).
- `CameraView`'s keyboard input and the movement itself (`RotateAround` and the zoom
  steps). Under manual control, and for `ApplyKeyMovement`, the model takes the
  resulting position as an input; only which keys act is modelled.
- `fadeExample` in `ParticleController`: nothing calls it.
- PipeServerModel.MoveTowards: takes the distance between the points as an argument
  tied to the squared distance, because the model has no square root.
- ParticleEffects.Excess: a threshold of exactly 1 divides by zero in the code and
  gives an infinite or NaN value. The model requires another threshold.
- CameraViewModel.ClampVerticalAngle: requires an Euler angle in [0, 360), which is
  the range Unity reports.
- TcpServerModel.Recipients: a client that disconnects during the send is not modelled.
- PoseChannel.Process: a record that decodes to null throws at its first dereference
  (TcpCommunicator.cs:393). The model takes the effect of the catch, which leaves
  everything but the raw text unchanged, and does not model the exception.
- PoseChannel.Process: stores landmarks with the corrected `Deliver` (see Findings).
  That equals the code for the default of one sample per pose.
- PoseChannel.ProcessV2: stores landmarks with the corrected `Deliver`, as the first
  version does; the code's delivery is `DeliverAsWritten`.
- PipeServerModel.AggregateAll: a zero count accepted when `samplesForPose <= 0` makes
  the whole result `None`, where the code writes NaN targets for that landmark only.
- CameraViewModel.LateUpdate: runs the follow gate as the code has it
  (`FollowGateAsWritten`). The centred reading (`FollowGateCentredHysteresis`, see
  Findings) is proved on its own and no frame uses it.
- null.cs refers to `PipeServerV2`, which is not part of this model. The model assumes
  its body has the layout and delivery of `PipeServer`'s.

## Findings

| source | as written | input that shows it | evidently intended | confidence | as-written member | corrected member |
|---|---|---|---|---|---|---|
| Assets/Scripts/CameraView.cs:246-252 | the stop condition measures `stopFollowMargin` from the screen edges, so the stop zone contains everything outside the start zone, and the gate forgets its previous state whenever 0 <= stop <= follow <= 0.5 | previously following, target in front at viewport (0.3, 0.5), default margins 0.2 and 0.1: following stops although the target is far from the centre | the tooltip (line 30) describes the stop margin as a distance from the screen centre, which gives a real band in which the state holds | medium, not executed | CameraViewModel.FollowGateStopsEarly | CameraViewModel.FollowGateCentredHysteresis |
| Assets/Scripts/TcpCommunicator.cs:423-424 | a received landmark is stored as the buffer value with `samplesForPose` as its count, so `UpdateBody` divides the single position by `samplesForPose` | `samplesForPose` = 2, multiplier 10, a landmark received at x = 1: target x = 5 instead of 10 | the buffer holds a sum of `samplesForPose` samples, so the received position should be counted that many times and the average be the position itself | low, not executed | PoseChannel.DeliveredLandmarkIsShrunk | PoseChannel.DeliveredLandmarkTarget |
| Assets/Scripts/null.cs:324-328 | the second version reads the camera's and the head's `transform.position` on the connection thread, which Unity refuses with an exception; the catch at line 359 ends the loop and the finally block at 363-371 closes the client | a camera object assigned and two lines received: the first line's processing is queued, the read throws, no feedback is written and the second line is never read | the comment at line 311 says the Unity reads are to go through the main thread, as the first version does for its reply (TcpCommunicator.cs:328-341), so that every line gets its feedback | medium, not executed | PoseChannel.HandlerStopsAtFirstFeedback | PoseChannel.HandlerPerLine |
