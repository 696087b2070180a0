# Verification of the video engine

This project models the concurrency, scheduling and geometry of a multi-channel video engine in
Dafny and proves what its code promises. Each part of the engine is modelled twice. State
machines and specification functions say what one critical section, one frame or one request
does; lemmas about their runs state the guarantees. Classes and methods hold the program's own
fields, arrays and loops, and their contracts tie every change of state to those functions.

`dafny verify dfyconfig.toml` checks everything.

## The parts

| files | part of the engine |
|---|---|
| `SetFacts`, `Matching`, `Rules`, `RulesMeaning`, `Gate` | dataset rules: the maximum matching, conditions over it and what they ask of the boxes, the time gate |
| `RecorderChannel`, `Recorder`, `RecorderSafety`, `RecorderWindow`, `RecorderLatest`, `RecorderRequests`, `RecorderCode` | the event video recorder |
| `Reconnect`, `ReconnectSafety`, `ReconnectOnce`, `ReconnectCode` | offline, seek and online transitions against frames in flight |
| `Nms`, `ModelBarrier`, `ResultSlot`, `ResultSlotCode`, `WorkerLayout`, `Reload` | the inference engine |
| `Capture`, `CaptureSafety`, `CaptureOrder`, `CaptureCode` | budgeted dataset capture |
| `TripleBuffer`, `Pacing`, `TextCache`, `TextCacheCode`, `Utf8` | display hand-off, pacing, text |
| `RoiGeometry`, `ResultMapping`, `TileLayout`, `Outbox` | geometry and retention |

## How the source is modelled

- A section under a mutex is one step. Work between sections (copying, conversion, encoding,
  inference) is not atomic: its beginning and its end are steps of their own, and it may fail.
- Runs are sequences of steps, in any interleaving; the theorems speak of every reachable state.
- History that the program does not keep (what was pushed, converted, accepted, taken) is part of
  the model's state, so that completeness and conservation can be stated.
- Objects reached through shared pointers are named by numbers, so that replacing one is visible.
- `std::sort` is any function that returns an ordered permutation; the overlap of two boxes is any
  function of them; loading a model, creating a thread, allocating memory and rendering a mask
  succeed or fail as parameters say.
- Floating point numbers are reals. Seconds in the recorder are whole milliseconds.

## What turned out not to hold

- The sequence barrier alone does not keep old frames out
  (`engine/src/pipeline/result_dispatch.cpp:82-83`). It stops exactly the frames numbered before the
  last transition (`BarrierPassesIff`), so a frame past it is old exactly if the channel reconnected
  between the frame's time stamp and its number, or between the barrier test and the processing lock
  (`OldPastTheBarrierIff`); `OldFrameAboveTheBarrier` and `BarrierCanBeOutrun` give the runs. The
  time stamp test under the lock is what protects the state.
- An event can miss a frame of its own window (`engine/src/recorder/event_video_recorder.cpp:741-772`):
  the trigger's stamp is taken before the lock, and the ring may not reach back far enough. A sealed
  event holds its window exactly if, when it was triggered, every converted frame of the window was
  still in the ring and not newer than the stamp (`SealedEventHoldsItsWindowIff`);
  `EarlyStampMissesFrame` is a run in which one was newer, `ShortRingMissesFrame` one in which one
  had left the ring.
- An event can be sealed while a frame of its window is still to come, since a push takes its stamp
  before its first section, and enters the queue only in its second
  (`engine/src/recorder/event_video_recorder.cpp:649-728`). Two pushes can come late: one that has a
  stamp of the window in hand, and one that has taken its stamp but whose first section is still to
  run. `SealedWindowStaysIff` says that a running recorder can still convert such a frame exactly if
  the channel's push in hand has a stamp of the window, or the channel's last push, if there was one,
  lies at least the shortest period before the event's end; `LatePushIsMissed` is a run.
- The mask of active capture channels can miss an enabled channel: a request for a known task sets
  the switch before it reads two numbers, and a malformed number throws before the mask is
  refreshed (`engine/src/control/remote_dataset.cpp:365-373`). A refused removal also leaves the
  mask, and the channels already passed, behind. `MaskStaysExact` says exactly when;
  `EnabledChannelCanBeMasked` and `RefusedRemovalLeavesMask` give the runs.
- A pane of a composite report need not be where the channel is on the screen, although the comment at
  `engine/src/event/event_report.cpp:714-715` says so: the report's grid is made for the panes it has
  (lines 1461-1462), and channels without a frame are skipped. On one grid the two agree
  (`ReportHasScreenTiles`); `AllInPlaceIff` says exactly when all panes are in place, `PaneIsTileIff`
  when one is, and `LonePaneMoves` is a screen of two by two with one pane.
- Tiles overlap when a direction of the screen is divided into cells of less than four pixels across
  or two down (`TilesAreDisjointIff`, `CrampedScreen`), and leave a screen that is less than four
  pixels wide or two high, which the validator lets through (`TilesStayOnScreenIff`).

## Model

| member | source | states |
|---|---|---|
| `BipartiteMatching.Assign` | engine/src/dataset/rules.cpp:259-272 | the recursive search ends because fewer vertices are unvisited; success adds exactly the searching vertex to the owners and keeps every other owner; failure changes no owner and leaves a visited set all of whose vertices are owned by vertices with no way out |
| `BipartiteMatching.MaximumMatching` | engine/src/dataset/rules.cpp:258-280 | the count is the size of a maximum matching, for every graph and every order of the edges |
| `BipartiteMatching.CoverBoundsMatching` | engine/src/dataset/rules.cpp:257-280 | a vertex cover bounds every matching |
| `BipartiteMatching.RegionCover` | engine/src/dataset/rules.cpp:273-280 | the visited sets of the failed searches, with the left vertices outside them, cover every edge, and no matching exceeds the owned vertices |
| `BipartiteMatching.OwnedPairs` | engine/src/dataset/rules.cpp:258-280 | the owner array is itself a matching of the graph |
| `BipartiteMatching.OwnedIsMaximum` | engine/src/dataset/rules.cpp:273-280 | once every left vertex is owned or sealed off, the owned vertices are a maximum matching |
| `BipartiteMatching.RenamePreservesNumber` | engine/src/dataset/rules.cpp:245-249 | renaming the vertices does not change the size of a maximum matching |
| `DatasetRules.GraphIsLinks` | engine/src/dataset/rules.cpp:229-249 | the adjacency lists built from candidate positions have the maximum matching of the subjects and objects of the frame |
| `DatasetRules.MatchingCount` | engine/src/dataset/rules.cpp:227-281 | number of subjects, and per mode the number counted, having candidates, or matched one to one |
| `DatasetRules.PairingMatches` | engine/src/dataset/rules.cpp:313-325 | an association with its state, quantifier and comparison; no subjects is never a match |
| `DatasetRules.Matches` | engine/src/dataset/rules.cpp:305-344 | the recursive evaluation decides the meaning of the condition |
| `DatasetRules.OrderDoesNotMatter` | engine/src/dataset/rules.cpp:305-344 | a condition has the same value on any reordering of the detections |
| `DatasetRules.MatchedAtMostSubjects` | engine/src/dataset/rules.cpp:319 | the count never exceeds the number of subjects, so the unmatched count is never negative |
| `DatasetRules.UnmatchedMeansNoFullAssignment` | engine/src/dataset/rules.cpp:257-280 | some subject is unmatched exactly if no assignment gives every subject an object of its own |
| `RulesMeaning.CenterInsideIff` | engine/src/dataset/rules.cpp:207-217 | containment holds exactly if the centre of the object is a point of the subject's box, without its right and lower edges; for the inverse relation with the roles exchanged |
| `RulesMeaning.NearIff` | engine/src/dataset/rules.cpp:218-222 | nearness holds exactly if the squared distance of the two centres is at most the square of the factor times that of the subject's diagonal |
| `RulesMeaning.OverlapIff` | engine/src/dataset/rules.cpp:223-225 | overlap holds exactly if the area common to both boxes is at least the given part of the object's area, or of the subject's |
| `RulesMeaning.InsideOverlaps` | engine/src/dataset/rules.cpp:223-225 | a box inside the other one always overlaps |
| `RulesMeaning.OverlapMeansCommonPoint` | engine/src/dataset/rules.cpp:223-225 | boxes that overlap by a positive part have a point in common |
| `RulesMeaning.AnyMatchedIff` | engine/src/dataset/rules.cpp:305-344 | "any subject matched" holds exactly if some subject has an object in relation to it, matched one to one or not |
| `RulesMeaning.SomeCenterInsideIff` | engine/src/dataset/rules.cpp:305-344 | for containment: exactly if the centre of some object lies in the box of some other detection that is a subject |
| `RulesMeaning.PlainQuantifiersIff` | engine/src/dataset/rules.cpp:313-325 | without one-to-one matching, matched and unmatched with all and any are the four quantifiers over the subjects, of which there must be one |
| `RulesMeaning.AllMatchedIff` | engine/src/dataset/rules.cpp:257-280 | one to one, "all subjects matched" holds exactly if there is a subject and an assignment gives every subject an object of its own |
| `RulesMeaning.ObjectCountsIff` | engine/src/dataset/rules.cpp:250-253 | counting objects, the condition holds exactly if some subject's own number of objects compares as asked |
| `RulesMeaning.LeafCountsIff` | engine/src/dataset/rules.cpp:339-343 | the six comparisons of a count say that so many different detections in scope, or one more, are of the kind and sure enough |
| `RulesMeaning.MoreOfOneIff` | engine/src/dataset/rules.cpp:326-337 | comparing two kinds: there is a number that the one reaches and the other does not |
| `CaptureGate.Gate.Update` | engine/src/dataset/rules.cpp:353-384 | one frame extends the legal history of the gate: same frame ignored, reset on going back or a gap, rules updated, due rules fired unless blocked |
| `CaptureGate.Gate.Reset` | engine/src/dataset/rules.cpp:345-352 | a reset forgets the rules' state but not the interval already used |
| `CaptureGate.FiringsAreSpaced` | engine/src/dataset/rules.cpp:377-380 | two firings are at least the interval apart, resets between them included |
| `CaptureGate.SinceIsUnbroken` | engine/src/dataset/rules.cpp:363-373 | the time a rule has been matching since begins an unbroken stretch of matching frames, and the frame before it did not match |
| `CaptureGate.FiringIsConfirmed` | engine/src/dataset/rules.cpp:363-376 | a fired rule matched every evaluated frame for at least the confirmation time, with no reset and no gap too long |
| `CaptureGate.EnteringRearms` | engine/src/dataset/rules.cpp:365-382 | on entering, a rule fires again only after a frame that did not match or a reset |
| `CaptureGate.RuleFiresIff` | engine/src/dataset/rules.cpp:353-384 | a rule fires on a frame exactly if it has matched every frame for the confirmation time, the interval since the last firing is over, and, on entering, it has not fired in this stretch |
| `RecorderSafety.EveryEventInOnePlace` | engine/src/recorder/event_video_recorder.cpp:549-614 | every accepted event is at all times in exactly one of active, job queue, being encoded and finished; one encoder at most; queues within four; a worker leaves only when all are finished |
| `RecorderSafety.StepKeeps` | engine/src/recorder/event_video_recorder.cpp:230-298 | every section keeps the recorder's invariant |
| `RecorderSafety.ExpireIsExact` | engine/src/recorder/event_video_recorder.cpp:243-260 | an expiry moves exactly the events that may be sealed |
| `RecorderSafety.SealedIsComplete` | engine/src/recorder/event_video_recorder.cpp:230-260 | an event sealed without force has exactly the frames that belong to it, ascending, once each, and no pushed frame up to its end is still queued or in conversion |
| `RecorderSafety.TriggerGetsItsWindowIff` | engine/src/recorder/event_video_recorder.cpp:763-773 | a new event gets every converted frame of its window exactly if all of them are above the ring's floor and not newer than the trigger's stamp |
| `RecorderSafety.RingCoversPreRoll` | engine/src/recorder/event_video_recorder.cpp:763-773 | which is so when the ring was asked to keep the pre-roll and nothing newer than the stamp has been converted |
| `RecorderSafety.EarlyStampMissesFrame` | engine/src/recorder/event_video_recorder.cpp:741-772 | a run in which a trigger's early stamp loses a frame of its window |
| `RecorderSafety.ShortRingMissesFrame` | engine/src/recorder/event_video_recorder.cpp:282-288 | a run in which a trigger asks for a longer past than the pushes did and loses a frame of its window |
| `RecorderWindow.SealedEventHoldsItsWindowIff` | engine/src/recorder/event_video_recorder.cpp:267-298 | over all runs: the frames of a sealed event are exactly its channel's converted frames from its trigger less the pre-roll asked for to the end it then had, if and only if its trigger had the window in reach |
| `RecorderWindow.RunGrantsIff` | engine/src/recorder/event_video_recorder.cpp:267-298 | no step of a run other than the trigger itself changes what an event was granted of its past |
| `RecorderWindow.SealedWindowStaysIff` | engine/src/recorder/event_video_recorder.cpp:230-260 | once an event may be sealed, no run converts another frame of its window, if and only if the recorder is stopped or no push of the channel may still deliver a stamp of the window |
| `RecorderWindow.HeadIsConverted` | engine/src/recorder/event_video_recorder.cpp:549-598 | while the recorder runs, one worker can always get to convert the next frame of a channel that waits |
| `RecorderWindow.LatePushIsMissed` | engine/src/recorder/event_video_recorder.cpp:649-728 | a run in which an event is written without the frame whose push it overtook |
| `RecorderWindow.RunStartsAsAsked` | engine/src/recorder/event_video_recorder.cpp:763-773 | in every run each active event starts as long before its trigger as was asked for |
| `RecorderRequests.TriggerStartsEvent` | engine/src/recorder/event_video_recorder.cpp:733-778 | a trigger of a new identifier makes one active event, with the stamp, the pre-roll and the post-roll asked for and the ring's frames of that time, and leaves all other events alone |
| `RecorderRequests.EventSpansRequest` | engine/src/recorder/event_video_recorder.cpp:763-773 | in plain arithmetic: start and pre-roll make the stamp, or the start is zero; stamp and post-roll make the end; requests beyond two minutes or below zero are cut |
| `RecorderRequests.ExtensionSetsEnd` | engine/src/recorder/event_video_recorder.cpp:780-788 | an extension gives its event an end as long after now as its request asked for, and changes nothing else |
| `RecorderRequests.OfflineCutsLaterEnds` | engine/src/recorder/event_video_recorder.cpp:790-805 | an offline notice cuts exactly the later ends of its channel's events, and changes nothing else |
| `RecorderRequests.PushIsTakenIff` | engine/src/recorder/event_video_recorder.cpp:649-672 | a push takes its frame in hand exactly if the recorder runs and a whole period at 1 to 30 frames per second has passed since the last; at four queued frames the oldest makes way |
| `RecorderRequests.RingHoldsPreRolls` | engine/src/recorder/event_video_recorder.cpp:281-288 | the ring holds exactly the converted frames that lie within every pre-roll asked for so far |
| `RecorderRequests.SealedIff` | engine/src/recorder/event_video_recorder.cpp:230-260 | an expiry seals an event exactly if it is forced, or its end has come and no frame up to it is queued or in conversion |
| `RecorderRequests.StoppedSealsAll` | engine/src/recorder/event_video_recorder.cpp:549-560 | once the recorder is stopped and no frame is queued or in conversion, a worker's pass seals every event |
| `RecorderLatest.LatestNeverDangles` | engine/src/recorder/event_video_recorder.cpp:243-260 | every entry of the table of latest events names an active event of its channel and kind, and only one |
| `RecorderLatest.RepeatedAlarmExtends` | engine/src/recorder/event_video_recorder.cpp:750-759 | a repeated alarm gives its event a new end and changes nothing else |
| `RecorderChannel.RingKeeps` | engine/src/recorder/event_video_recorder.cpp:282-288 | appending to the ring and popping old frames leaves exactly the frames not older than the highest floor so far |
| `RecorderSafety.ServedInTurn` | engine/src/recorder/event_video_recorder.cpp:532-547 | while a channel that is not busy has frames, fewer frames are taken from others than there are channels |
| `RecorderSafety.PickIsNearest` | engine/src/recorder/event_video_recorder.cpp:532-547 | the scan takes the nearest channel, going round, that may be served |
| `RecorderCode.EventVideoRecorder.BeginPush` | engine/src/recorder/event_video_recorder.cpp:653-672 | first section of a push: throttle, room in the queue |
| `RecorderCode.EventVideoRecorder.Trigger` | engine/src/recorder/event_video_recorder.cpp:733-778 | trigger: extend the same event, or start one with the ring's frames |
| `RecorderCode.EventVideoRecorder.Extend` | engine/src/recorder/event_video_recorder.cpp:780-788 | extending an active event |
| `RecorderCode.EventVideoRecorder.ChannelOffline` | engine/src/recorder/event_video_recorder.cpp:790-805 | the loop that cuts the channel's events at the offline time |
| `RecorderCode.EventVideoRecorder.ExpireLocked` | engine/src/recorder/event_video_recorder.cpp:243-265 | the loop over active events is the model's expiry |
| `RecorderCode.EventVideoRecorder.PopRaw` | engine/src/recorder/event_video_recorder.cpp:532-547 | the round-robin scan |
| `RecorderCode.EventVideoRecorder.StoreFrame` | engine/src/recorder/event_video_recorder.cpp:281-298 | ring, events and expiry after a conversion |
| `RecorderCode.EventVideoRecorder.Poll` | engine/src/recorder/event_video_recorder.cpp:549-614 | a worker's pass: expire, drain, encode, take a frame, or leave |
| `ReconnectSafety.OldFramesNeverCommit` | engine/src/pipeline/channel_pipeline.cpp:545-558 | in every interleaving, a published frame was stamped after the last transition, while online; publications are numbered one by one through every reset |
| `ReconnectSafety.OfflineShowsNothing` | engine/src/pipeline/pipeline_runtime.cpp:208-258 | while offline no results, outputs or logic state are written and no thread has passed the tests |
| `ReconnectSafety.LogicStateIsOfThisEpoch` | engine/src/pipeline/pipeline_runtime.cpp:260-301 | the logic state was built only from frames stamped since the last transition, and `logic_frame_id` counts them |
| `ReconnectSafety.TestsAreExact` | engine/src/pipeline/channel_pipeline.cpp:538-558 | under the lock exactly the frames later than the last online time pass, with inference on |
| `ReconnectSafety.TaskTestsAreExact` | engine/src/pipeline/traditional_logic_worker.cpp:21-39 | a traditional task passes exactly if it is of the current configuration, which has the channel enabled, its frame is later than the last online time, and inference is off |
| `ReconnectSafety.ExactlyOnePathTakes` | engine/src/pipeline/traditional_logic_worker.cpp:29-38 | under one configuration that has the channel enabled, exactly one of the two paths takes a fresh frame |
| `ReconnectSafety.RouteFollowsSwitch` | engine/src/pipeline/frame_inlet.cpp:107-229 | a frame gets the next number and goes to inference if that is on, and to the traditional path otherwise, tagged with the current generation |
| `ReconnectOnce.FrameIsInOnePlace` | engine/src/pipeline/frame_inlet.cpp:208-229 | in every reachable state a numbered frame is in one place at most: with its producer, on one of the two paths, or published |
| `ReconnectOnce.PublishedOnce` | engine/src/pipeline/channel_pipeline.cpp:485-509 | no frame is published twice, through whatever transitions and switches between the paths |
| `ReconnectSafety.PublishedFrameIsShown` | engine/src/pipeline/channel_pipeline.cpp:485-509 | the frame shown, its number and its time belong together in every reachable state; inference results show their own number, traditional frames the count of frames since the reset |
| `ReconnectSafety.ChangedLogicStartsClean` | engine/src/pipeline/channel_pipeline.cpp:201-277 | a configuration that changes the logic of a channel it keeps starts the logic anew, and any other leaves the channel's state alone |
| `ReconnectSafety.BarrierPassesIff` | engine/src/pipeline/result_dispatch.cpp:76-83 | the sequence barrier lets a frame pass exactly if it was numbered after the last transition |
| `ReconnectSafety.BarrierSparesNewFrames` | engine/src/pipeline/result_dispatch.cpp:76-83 | the sequence barrier never drops a frame stamped since the last transition |
| `ReconnectSafety.OldPastTheBarrierIff` | engine/src/pipeline/result_dispatch.cpp:76-89 | a frame past the barrier test is older than the last transition exactly if one fell between its stamp and its number, or between the barrier read and the lock |
| `ReconnectSafety.TasksKeepTheirGeneration` | engine/src/pipeline/traditional_logic_worker.cpp:21-39 | a traditional task is committed under the configuration generation it was tagged with |
| `ReconnectSafety.BarrierCanBeOutrun` | engine/src/pipeline/result_dispatch.cpp:76-89 | a run in which a frame below the barrier is past the barrier test |
| `ReconnectSafety.OldFrameAboveTheBarrier` | engine/src/pipeline/pipeline_runtime.cpp:290 | a run in which a frame stamped before a transition is numbered above its barrier |
| `ReconnectSafety.StepKeeps` | engine/src/pipeline/channel_pipeline.cpp:201-277 | every step, publication of a configuration included, keeps the invariant |
| `ReconnectCode.ChannelState.CommitPublication` | engine/src/runtime/app_ctrl.h:152-171 | a publication counts up by one and sets what it publishes |
| `ReconnectCode.ChannelState.GoOffline` | engine/src/pipeline/pipeline_runtime.cpp:226-252 | the offline reset |
| `ReconnectCode.ChannelState.ComeOnline` | engine/src/pipeline/pipeline_runtime.cpp:271-297 | the online reset |
| `ReconnectCode.ChannelState.TakesResult` | engine/src/pipeline/channel_pipeline.cpp:523-558 | the rejection tests on an inference result |
| `ReconnectCode.ChannelState.ShouldRunTraditional` | engine/src/pipeline/traditional_logic_worker.cpp:21-39 | the tests on a traditional task |
| `ReconnectCode.ChannelState.CommitFrame` | engine/src/pipeline/channel_pipeline.cpp:485-509 | results, outputs and logic state are written back together |
| `ReconnectCode.LogicQueue.Put` | engine/src/pipeline/traditional_logic_worker.cpp:43-60 | the newest task replaces the one waiting |
| `NonMaximumSuppression.Suppress` | engine/src/inference/inference_executor.cpp:65-111 | both suppression loops keep exactly the detections that no kept one hits |
| `NonMaximumSuppression.GroupedIsPlainPerModel` | engine/src/inference/inference_executor.cpp:88-111 | of one model's results the grouped run keeps what a plain run on them alone keeps with that model's threshold |
| `NonMaximumSuppression.SortThenPick` | engine/src/inference/inference_executor.cpp:91 | a model's part of the sorted list is that model's results, sorted |
| `NonMaximumSuppression.KeptNeverOverlap` | engine/src/inference/inference_executor.cpp:70-85 | no kept detection is hit by an earlier kept one |
| `NonMaximumSuppression.DroppedWasHit` | engine/src/inference/inference_executor.cpp:70-85 | whatever is dropped was hit by a kept one that scores no less |
| `NonMaximumSuppression.KeptStayBelow` | engine/src/inference/inference_executor.cpp:70-85 | two kept detections of one kind overlap by no more than the threshold |
| `NonMaximumSuppression.KeptStayBelowPerModel` | engine/src/inference/inference_executor.cpp:97-107 | grouped, two of one kind and model overlap by no more than that model's threshold |
| `NonMaximumSuppression.DroppedWasCovered` | engine/src/inference/inference_executor.cpp:70-85 | whatever is dropped overlaps a kept one of its kind, no less sure, by more than the threshold |
| `NonMaximumSuppression.DroppedWasCoveredPerModel` | engine/src/inference/inference_executor.cpp:97-107 | grouped, a kept one of its kind and model, by more than that model's threshold |
| `NonMaximumSuppression.KindsDoNotInterfere` | engine/src/inference/inference_executor.cpp:70-85 | of one kind stays what stays of that kind's detections alone |
| `NonMaximumSuppression.DepthIsNeverDropped` | engine/src/inference/inference_executor.cpp:79-80 | all depth results stay, in order |
| `NonMaximumSuppression.SuppressionIsIdempotent` | engine/src/inference/inference_executor.cpp:65-86 | suppressing twice is suppressing once |
| `NonMaximumSuppression.UnknownModelKeepsAll` | engine/src/inference/inference_executor.cpp:99-101 | a model index without a threshold loses nothing |
| `ModelBarrier.RemainingCountsTheOwing` | engine/src/inference/inference_executor.cpp:446-466 | `remaining_` is the number of children undispatched, flagged or at work |
| `ModelBarrier.ReturnMeansAllDone` | engine/src/inference/inference_executor.cpp:463-467 | when a run returns every child has executed every task so far exactly once and none holds a task |
| `ModelBarrier.ChildrenWorkOnTheCurrentTask` | engine/src/inference/inference_executor.cpp:484-517 | a child works only on the current task, and never after the shutdown |
| `ModelBarrier.ParallelCompositeExecutor.ReportDone` | engine/src/inference/inference_executor.cpp:510-516 | a child's report |
| `ResultSlot.TakesRise` | engine/src/inference/inference_engine.cpp:111-136 | taken results rise strictly, with any number of workers out of order and across reloads |
| `ResultSlot.TasksAreConserved` | engine/src/inference/inference_engine.cpp:504-520 | accepted tasks are, in order of arrival, those taken, displaced and cleared, and those waiting |
| `ResultSlot.NewestIsKept` | engine/src/inference/inference_engine.cpp:504-517 | after queueing, the new frame is last, the queue has grown by one or has its full depth, and what made way was older than what stays |
| `ResultSlot.LaterResultIsWritten` | engine/src/inference/inference_executor.cpp:665-679 | a result is written, and is then new, exactly if its frame is later than all written before |
| `ResultSlot.ResultIsWithinReach` | engine/src/inference/inference_executor.cpp:665-687 | a new result is announced, about to be announced or about to be taken: at most three such steps stand before its delivery |
| `ResultSlot.QuietMeansDelivered` | engine/src/inference/inference_engine.cpp:547-575 | with all threads at rest no result waits |
| `ResultSlotCode.InferenceChannel.Enqueue` | engine/src/inference/inference_engine.cpp:504-520 | the displacement loop and its return code |
| `ResultSlotCode.InferenceChannel.WriteResult` | engine/src/inference/inference_executor.cpp:665-679 | only a later frame overwrites the slot |
| `ResultSlotCode.InferenceChannel.TakeResults` | engine/src/inference/inference_engine.cpp:111-136 | taking empties the slot |
| `WorkerLayout.QueueIndexOf` | engine/src/inference/inference_executor.cpp:113-127 | the queue index is the rank among channels with models |
| `WorkerLayout.RangesAreDisjoint` | engine/src/inference/inference_engine.cpp:694-697 | the worker slots of two channels never meet |
| `WorkerLayout.RangesCover` | engine/src/inference/inference_engine.cpp:325-360 | every worker slot belongs to a channel |
| `WorkerLayout.QueuesAreDistinct` | engine/src/inference/inference_engine.cpp:475-484 | channels with models have queues of their own |
| `WorkerLayout.QueuesAreUsed` | engine/src/inference/inference_engine.cpp:306-317 | every queue has a channel |
| `WorkerLayout.LayoutFollowsSizes` | engine/src/inference/inference_engine.cpp:746-747 | ranks and ranges depend on the sizes alone |
| `WorkerLayout.PlanAfter` | engine/src/inference/inference_engine.cpp:746-776 | new models for one channel change what its own slots run and no others |
| `HotReload.InferenceRuntime.constructor` | engine/src/inference/inference_engine.cpp:301-362 | queues and workers are created in that layout |
| `HotReload.InferenceRuntime.Reload` | engine/src/inference/inference_engine.cpp:660-917 | all or nothing: it succeeds exactly if all models load and all threads start; otherwise models, thresholds and classes are as before and all old workers run, unless the failed restore is reported; sizes and other channels are untouched |
| `HotReload.ReloadIsTriedIff` | engine/src/inference/inference_engine.cpp:660-700 | a reload is tried exactly if the engine runs, the channel has models, and as many threads are asked for as it has workers |
| `HotReload.InstalledSettings` | engine/src/inference/inference_engine.cpp:889-907 | one model brings its thresholds, its classes and itself for each worker; several bring neutral settings and their group in the order configured; other channels keep theirs |
| `HotReload.SwitchedOffSettings` | engine/src/inference/inference_engine.cpp:807-820 | switching inference off leaves the channel's workers without a model and its settings alone |
| `HotReload.WorkersRunTheirModels` | engine/src/inference/inference_engine.cpp:746-806 | afterwards every slot of the channel runs the new model of that slot, or the old one after a rollback |
| `HotReload.BuildModels` | engine/src/inference/inference_engine.cpp:826-880 | one model for each worker, or a failure |
| `DatasetCaptureSafety.BudgetHolds` | engine/src/control/remote_dataset.cpp:305-335 | the counters are the exact sums, never negative, together within 64 MiB, and at most two jobs wait |
| `DatasetCaptureSafety.TasksAreAccounted` | engine/src/control/remote_dataset.cpp:305-335 | at most eight images of a task are encoding or stored; skipped, encoding, stored and acknowledged are at most matched, and equal it with the frames that could not be read |
| `DatasetCaptureSafety.TasksInFlightStay` | engine/src/control/remote_dataset.cpp:377-379 | a task with a frame queued or being encoded is neither replaced nor removed |
| `DatasetCaptureSafety.EncodedTaskIsCurrent` | engine/src/control/remote_dataset.cpp:194-211 | in every reachable state the encoder's check that its task is current succeeds, and the image or the skip counts on that task |
| `DatasetCaptureSafety.FrameIsTakenIff` | engine/src/control/remote_dataset.cpp:303-335 | a frame is taken exactly if its task is enabled, before its deadline and below its limit, has fewer than eight images, fewer than two jobs wait, the frame can be read, and both its estimate and its size fit into 64 MiB with what is held; otherwise it is skipped, unread, or not wanted |
| `DatasetCaptureSafety.KnownTaskIsUpdated` | engine/src/control/remote_dataset.cpp:364-374 | a well-formed request for a known task sets its switch, the larger count and the deadline, and leaves everything else of it |
| `DatasetCaptureSafety.NewTaskIsInstalledIff` | engine/src/control/remote_dataset.cpp:375-404 | a new task replaces an idle one or none exactly if the request is well-formed, with the request's numbers; otherwise nothing changes |
| `DatasetCaptureSafety.StepKeeps` | engine/src/control/remote_dataset.cpp:345-455 | observing, encoding and every command keep the invariant |
| `DatasetCaptureOrder.ImagesAreInMatchOrder` | engine/src/control/remote_dataset.cpp:325-335 | a task's stored images, and behind them its frames on the way, are in match order, each number once |
| `DatasetCaptureOrder.AckReleasesTheNamedImage` | engine/src/control/remote_dataset.cpp:406-423 | an acknowledgement releases exactly the image it names, raises the count of saved images to the one it reports, and leaves every other image and task |
| `DatasetCaptureSafety.RemovalReaches` | engine/src/control/remote_dataset.cpp:440-455 | a removal reaches the channels below the first that cannot give up its task |
| `DatasetCaptureSafety.MaskStaysExact` | engine/src/control/remote_dataset.cpp:108-115 | the mask of active channels stays exact in every step but two kinds of refused requests, and in those it does not |
| `DatasetCaptureSafety.EnabledChannelCanBeMasked` | engine/src/control/remote_dataset.cpp:365-373 | a run in which an enabled channel is not in the mask |
| `DatasetCaptureSafety.RefusedRemovalLeavesMask` | engine/src/control/remote_dataset.cpp:440-455 | a run after which a refused removal leaves a channel without a task in the mask |
| `DatasetCaptureCode.RemoteDataset.ObserveHit` | engine/src/control/remote_dataset.cpp:303-335 | a frame on which the rules fired |
| `DatasetCaptureCode.RemoteDataset.FinishJob` | engine/src/control/remote_dataset.cpp:194-211 | the encoder's second section |
| `DatasetCaptureCode.RemoteDataset.ConfigureTask` | engine/src/control/remote_dataset.cpp:356-405 | the configure command |
| `DatasetCaptureCode.RemoteDataset.Acknowledge` | engine/src/control/remote_dataset.cpp:406-423 | the acknowledge command |
| `DatasetCaptureCode.RemoteDataset.RemoveTask` | engine/src/control/remote_dataset.cpp:440-455 | the remove command |
| `TripleBuffer.WriterAndReaderNeverMeet` | engine/src/pipeline/pipeline_internal.h:96-193 | the three indices stay different, `has_task` equals `mid_dirty`, and the slot written or reallocated is never the slot read |
| `TripleBuffer.ReaderSeesOneFrame` | engine/src/display/display_pipeline.cpp:59-80 | while it reads, the consumer sees one published frame whole, with its metadata |
| `TripleBuffer.TakesAreNewest` | engine/src/display/display_pipeline.cpp:72-82 | each take delivers the newest published frame, in strictly rising order |
| `TripleBuffer.NewestWaits` | engine/src/pipeline/frame_inlet.cpp:286-305 | a published frame waits until it is taken or replaced by a newer one |
| `TripleBuffer.CopyNeedsMemory` | engine/src/pipeline/pipeline_internal.h:142-152 | a frame is copied exactly if the back slot is large enough or memory for it can be had, and the slot then is large enough |
| `TripleBuffer.DisplayFramePool.BackBuf` | engine/src/pipeline/pipeline_internal.h:142-152 | growing the back slot touches no other slot |
| `FramePacing.SelectionIsBounded` | engine/src/pipeline/frame_inlet.cpp:123-164 | without failures a window of length L holds at most L / period + 3 selected frames |
| `FramePacing.SelectionIsBoundedWithFailures` | engine/src/pipeline/frame_inlet.cpp:213-228 | with failures every selected frame still costs half a period |
| `FramePacing.SelectionAdvances` | engine/src/pipeline/frame_inlet.cpp:154-163 | a selected frame moves the due time by a period, a failed one by half of it |
| `FramePacing.FullRateIsMet` | engine/src/pipeline/frame_inlet.cpp:123-164 | a feed with gaps no longer than the period is served at the full rate: as many frames are selected as there were periods, give or take one |
| `FramePacing.SteadyFeedIsServed` | engine/src/pipeline/frame_inlet.cpp:123-164 | whatever the gaps of a feed, one frame at least is selected for each period and gap |
| `FramePacing.LateFrameRestarts` | engine/src/pipeline/frame_inlet.cpp:156-158 | after a frame more than two periods late the next one is due half a period after it |
| `FramePacing.FailureIsRetried` | engine/src/pipeline/frame_inlet.cpp:222-227 | a failed hand-over is tried again half a period after it is noticed |
| `FramePacing.PhasesAreSpread` | engine/src/pipeline/frame_inlet.cpp:133-145 | channels start at an equal share of the period after one another, to the microsecond, all within one period |
| `FramePacing.FirstFrameWaits` | engine/src/pipeline/frame_inlet.cpp:133-153 | a channel seen for the first time has its first frame selected when its phase is over |
| `FramePacing.PreviewIsBounded` | engine/src/pipeline/frame_inlet.cpp:238-274 | a window of length L admits at most 2 + 30 L previews and one more for each restart |
| `FramePacing.SlowFeedIsPreviewed` | engine/src/pipeline/frame_inlet.cpp:238-274 | a feed of at most thirty frames per second is previewed whole from the first frame admitted on |
| `FramePacing.FirstGlanceIsAdmitted` | engine/src/pipeline/frame_inlet.cpp:241-246 | whoever starts to watch gets the next frame at once |
| `FramePacing.PauseEarnsTwo` | engine/src/pipeline/frame_inlet.cpp:257-267 | after a fifteenth of a second without a frame two at once are previewed, and no third |
| `FramePacing.FeedStats.Throttle` | engine/src/pipeline/frame_inlet.cpp:125-164 | the selection loop |
| `FramePacing.FeedStats.PreviewDue` | engine/src/pipeline/frame_inlet.cpp:238-274 | the token bucket |
| `TextMaskCache.LookupMatchesList` | engine/src/display/text_overlay.cpp:245-304 | lookup and list correspond one to one by key |
| `TextMaskCache.BytesAreExact` | engine/src/display/text_overlay.cpp:245-304 | the byte count is the sum of the entries, at most 8 MiB in at most 96 entries, the table of misses holds at most 256; the clamp of the subtraction never binds |
| `TextMaskCache.AnswersFitTheKey` | engine/src/display/text_overlay.cpp:256-304 | a returned mask was built for the key asked for; a cached key is always answered |
| `TextMaskCache.MissesAreCounted` | engine/src/display/text_overlay.cpp:272-277 | in any sequence of requests the table counts, up to three, how often a line was missed since it was last absent from the table |
| `TextMaskCache.AdmittedFromTheThird` | engine/src/display/text_overlay.cpp:272-304 | a miss lets a line in exactly if it is the third at least since then, and the mask can be built and is not too large |
| `TextMaskCache.CachedMeansThreeMisses` | engine/src/display/text_overlay.cpp:256-304 | every cached line was let in by such a miss and has stayed since |
| `TextMaskCache.OnlyOldestLeave` | engine/src/display/text_overlay.cpp:298-301 | only the least recently used entries make way |
| `TextMaskCache.LineLeavesIff` | engine/src/display/text_overlay.cpp:245-304 | when a line enters, a cached line leaves exactly if the lines used since, itself included, and the new one would be more than 96 or more than 8 MiB |
| `TextMaskCache.MissesAreForgottenIff` | engine/src/display/text_overlay.cpp:272-277 | a line that was missed but not let in is forgotten exactly when the table holds 256 lines and another is missed |
| `TextMaskCacheCode.ThreadTextMaskCache.CachedMask` | engine/src/display/text_overlay.cpp:256-306 | the cache function |
| `Utf8Segmentation.MasksAreHighBits` | engine/src/display/text_overlay.cpp:310-323 | the four tests by mask are tests of a byte's high bits |
| `Utf8Segmentation.CodepointWidth` | engine/src/display/text_overlay.cpp:308-325 | the width function |
| `Utf8Segmentation.WidthIff` | engine/src/display/text_overlay.cpp:308-325 | a piece has two, three or four bytes exactly if a lead byte of that range has the continuation bytes it announces |
| `Utf8Segmentation.PiecesMakeUpTheText` | engine/src/display/text_overlay.cpp:396-407 | any bytes are cut into pieces of one to four bytes that make them up again |
| `Utf8Segmentation.PiecesAreCodePoints` | engine/src/display/text_overlay.cpp:396-407 | valid UTF-8 (section 3 of RFC 3629) is cut into exactly its code points |
| `Utf8Segmentation.LayOut` | engine/src/display/text_overlay.cpp:394-408 | the layout loop places each piece after the advances before it |
| `RoiGeometry.InputNeverRejects` | engine/src/inference/inference_roi_geometry.cpp:35-44 | the input stage accepts the transform of every selection that meets the source, and of no other |
| `RoiGeometry.CropIsRight` | engine/src/inference/inference_roi_geometry.cpp:70-134 | for every mode and size the crop lies in the source, contains the clipped selection, and starts on even coordinates if asked |
| `RoiGeometry.SelectedPixelsAreCropped` | engine/src/inference/inference_roi_geometry.cpp:70-134 | every selected pixel of the source is in the crop |
| `RoiGeometry.ExpandedKeeps` | engine/src/inference/inference_roi_geometry.cpp:82-124 | the expanded crop has the smallest extents of the canvas's shape that hold the selection, rounded up and cut at the source |
| `RoiGeometry.ExpandedHasCanvasShape` | engine/src/inference/inference_roi_geometry.cpp:82-124 | in whole pixels: one side of the selection stays, and the other grows to the least number that gives the canvas's shape, or to the source's extent |
| `RoiGeometry.PlainCropIsSelection` | engine/src/inference/inference_roi_geometry.cpp:70-134 | unless it is to be expanded the crop is the clipped selection, or that grown to pairs by at most a pixel a side |
| `RoiGeometry.ExpandedCropIsExpanded` | engine/src/inference/inference_roi_geometry.cpp:70-134 | expanded, it is the expanded crop, or that grown so |
| `RoiGeometry.AlignKeeps` | engine/src/inference/inference_roi_geometry.cpp:18-32 | alignment grows a crop by at most one pixel a side and stays inside |
| `RoiGeometry.ContentFits` | engine/src/inference/inference_roi_geometry.cpp:9-16 | the content lies on the canvas, centred, and fills it in one direction |
| `RoiGeometry.ContentKeepsProportions` | engine/src/inference/inference_roi_geometry.cpp:9-16 | the other direction keeps the crop's proportions to the nearest pixel, with one pixel for less than half of one |
| `RoiGeometry.ExpandSelection` | engine/src/inference/inference_roi_geometry.cpp:82-124 | the step-by-step adjustment of the bounds |
| `RoiGeometry.AlignToPairs` | engine/src/inference/inference_roi_geometry.cpp:18-32 | the step-by-step alignment |
| `ResultMapping.MapResults` | engine/src/inference/inference_result_mapping.cpp:8-110 | every box is replaced by its mapped box; nothing changes when there is nothing to map |
| `ResultMapping.MappedBoxStaysOnCanvas` | engine/src/inference/inference_result_mapping.cpp:97-110 | mapped boxes lie on the 640 canvas or are empty |
| `ResultMapping.MappedBoxVanishesIff` | engine/src/inference/inference_result_mapping.cpp:99-110 | a box centred in the content maps to nothing exactly if its image lies beyond an edge of the canvas or ends on it |
| `ResultMapping.MappedBoxCoversImage` | engine/src/inference/inference_result_mapping.cpp:99-108 | otherwise it covers the image of each of its points on the canvas, the edges included |
| `ResultMapping.MappedBoxIsTight` | engine/src/inference/inference_result_mapping.cpp:99-108 | and reaches less than a pixel beyond it |
| `ResultMapping.EdgesMatch` | engine/src/inference/inference_result_mapping.cpp:74-79 | the content's edges map to the crop's edges in the scaled source |
| `ResultMapping.SeenPointMapsBack` | engine/src/inference/inference_result_mapping.cpp:74-79 | where the model sees a point of the source, the map gives that point in the source scaled to 640 |
| `ResultMapping.TestPointIsCentre` | engine/src/inference/inference_result_mapping.cpp:93-97 | the point held against the content is the centre of the box, or half a pixel before it |
| `ResultMapping.IdentityShortcutAgrees` | engine/src/inference/inference_result_mapping.cpp:52-73 | the identity short cut gives what the general map gives |
| `ResultMapping.BoxSurvivesIffCentred` | engine/src/inference/inference_result_mapping.cpp:93-110 | with the input stage's transform a box survives exactly if its centre lies in the content |
| `TileLayout.ChannelsAreOnGrid` | engine/src/runtime/app_ctrl.cpp:889-898 | the grid has a place for every channel |
| `TileLayout.TilesAreDisjointIff` | engine/src/display/display_render.cpp:37-83 | no two tiles share a pixel exactly if each divided direction has cells of at least four pixels across, two down |
| `TileLayout.CrampedScreen` | engine/src/display/display_render.cpp:56-83 | a configuration whose tiles overlap |
| `TileLayout.TilesCoverTheScreen` | engine/src/display/display_render.cpp:37-83 | on every screen each pixel of the aligned screen is in a tile |
| `TileLayout.TilesStayOnScreenIff` | engine/src/display/display_render.cpp:37-83 | all tiles of a configured screen stay on it exactly if it is at least four pixels wide and two high |
| `TileLayout.TilesAreAligned` | engine/src/display/display_render.cpp:56-83 | places and sizes are multiples of four and two |
| `TileLayout.TilesReadOn` | engine/src/display/display_render.cpp:37-83 | tiles follow one another to the right, and from the end of a row to the start of the next |
| `TileLayout.TilesAreEven` | engine/src/display/display_render.cpp:37-83 | tiles are as wide and as high as their shares of the screen, to a unit of alignment; the last ones take what is left over |
| `TileLayout.TilesShowSomething` | engine/src/display/display_render.cpp:56-83 | on every screen, a cramped one included, a tile is at least two pixels wide and high, and even |
| `TileLayout.TilePixelsFitTheBuffer` | engine/src/display/display_render.cpp:85-88 | on such a screen every pixel of a tile is written at its screen place inside the frame buffer |
| `TileLayout.OffsetsAreDistinct` | engine/src/display/display_render.cpp:85-88 | no two screen pixels share a byte offset |
| `TileLayout.SameGridSameTile` | engine/src/event/event_report.cpp:703-723 | on one grid a report's rectangle is the screen's tile exactly if the place is on the grid and its cell has a pixel to show |
| `TileLayout.ReportHasScreenTiles` | engine/src/event/event_report.cpp:712-722 | on every configured screen with room for its cells, a report on the same grid has the screen's tiles |
| `TileLayout.PaneIsTileIff` | engine/src/event/event_report.cpp:1460-1462 | on a spacious screen a pane covers a tile exactly if it has the tile's index and the panes fill the screen's grid |
| `TileLayout.FullGridKeepsTiles` | engine/src/event/event_report.cpp:1460-1462 | panes that fill the screen's grid are at the tiles of their index, on any screen with room for its cells |
| `TileLayout.AllInPlaceIff` | engine/src/event/event_report.cpp:1460-1462 | on every screen with room for its cells, all panes cover the tiles of their channels exactly if they show the first channels in display order and fill the screen's grid |
| `TileLayout.ReportKeepsAllPlacesIff` | engine/src/event/event_report.cpp:1423-1462 | the same for the channels asked for, less those without a frame |
| `TileLayout.ChannelKeepsItsPlaceIff` | engine/src/event/event_report.cpp:1423-1462 | with channels left out for want of a frame, a channel is in its place exactly if its pane's index is its display order and the panes fill the grid |
| `TileLayout.PaneIndexIsOrderIff` | engine/src/event/event_report.cpp:1423-1456 | asked for in display order, a pane has its channel's index exactly if all channels up to it are shown |
| `TileLayout.LonePaneMoves` | engine/src/event/event_report.cpp:1460-1462 | a two by two screen whose report has one pane, in another place |
| `TileLayout.CrampedGridsCoincide` | engine/src/event/event_report.cpp:712-722 | a screen, not spacious, on which a pane covers a tile of another grid |
| `OutboxRetention.NeedRetention` | engine/src/event/event_retention.h:8-21 | keep unless there are deliveries and all are delivered |
| `OutboxRetention.HasActiveWork` | engine/src/event/event_report.cpp:247-281 | an unreadable state file, media in production or a pending delivery keeps an event |
| `OutboxRetention.EnforceCap` | engine/src/event/event_report.cpp:283-347 | what goes is the shortest oldest-first prefix of the candidates that meets both limits, or all of them; the totals are exact; pressure is reported exactly if the bytes left exceed the cap or the free space is below the minimum |
| `OutboxRetention.OnlyDisposableEventsGo` | engine/src/event/event_report.cpp:318-336 | whatever is deleted has deliveries, all of them delivered, and no media requested or being generated |
| `OutboxRetention.PressureMeansNothingLeft` | engine/src/event/event_report.cpp:337-347 | if a limit is not met, each event that stays has an unreadable file, no deliveries or an open one, or media in production |
| `OutboxRetention.LastOneWasNeeded` | engine/src/event/event_report.cpp:326-336 | nothing goes in vain: without the last event deleted, a limit would not be met |
| `OutboxRetention.DeletionIsDetermined` | engine/src/event/event_report.cpp:326-336 | the outbox, the limits and the free space determine what is deleted |
| `OutboxRetention.OldestGoFirst` | engine/src/event/event_report.cpp:326-336 | no event that may go and stays is older than one that is deleted |

## Left out

- Pixels, colour conversion, encoding, fonts, sockets, threads and files are outside the model; each is a step that succeeds or fails.
- JSON parsing and rule parsing: conditions and requests are given as values.
- Polygon containment of an anchor point is a property of the detection, decided beforehand.
- Liveness that depends on the operating system's scheduler, spurious wake-ups and timeouts of condition variables.
- Overlays, snapshots and cross-channel logic that only read the published state.
- Dense depth maps, key points and masks in the mapping of results to the common canvas.
- Writing an event's state files and merging delivery states beside the outbox eviction.
- RecorderWindow.SealedEventHoldsItsWindowIff: assumes one producer for each channel and an identifier triggered again only while its event can be extended, as the callers do; a second event under a live identifier would replace the first.
- RecorderCode.EventVideoRecorder.Trigger: event identifiers are ranks in the map's order, an identifier is not used again after its event was sealed, and fractions of a millisecond in the pre- and post-roll are not modelled.
- ReconnectSafety.OldFramesNeverCommit: the generation published by a transition may be an older one, since the configuration is read before the lock; only the numbering of publications is claimed to rise.
- ReconnectCode.ChannelState.CommitPublication: sets the number, the generation and the frame time; the commit time, the media and the source size that are published with them are not modelled.
- ReconnectCode.ChannelState.GoOffline: resets the fields that the tests and the logic depend on; drawing commands, the logic's display frame and its last time are not modelled.
- ReconnectCode.ChannelState.ComeOnline: as GoOffline.
- ReconnectCode.ChannelState.CommitFrame: the elapsed time handed to the logic and the display frame it may submit are not modelled.
- NonMaximumSuppression.Suppress: scores that are not numbers are not modelled; the order among equal scores is whatever the sort gives.
- ResultSlot.TakesRise: the filters between inference and the slot are not modelled; they do not affect which frame is written.
- HotReload.InferenceRuntime.Reload: status reports and rate counters are not modelled.
- DatasetCaptureSafety.StepKeeps: sizes are unbounded integers, so the estimate of a frame cannot overflow; the gate and rules it consults are proved in their own modules.
- FramePacing.SelectionIsBounded: assumes that the channel's schedule is not reset and its rate not changed inside the window.
- ResultMapping.MappedBoxCoversImage: single-precision rounding can move an edge by a pixel; the claim is for exact arithmetic.
- TileLayout.PaneIsTileIff: is stated for spacious screens, on which alignment cannot make up for a missing cell; elsewhere a single pane can cover a tile of another grid (CrampedGridsCoincide), and AllInPlaceIff says what holds for all panes together.
- TileLayout.ChannelKeepsItsPlaceIff: as PaneIsTileIff; ReportKeepsAllPlacesIff holds on every screen with room for its cells.
