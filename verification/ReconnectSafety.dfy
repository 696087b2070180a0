/**
 * What every reachable state of a channel satisfies across offline, seek and online transitions
 * (engine/src/pipeline/pipeline_runtime.cpp, result_dispatch.cpp, channel_pipeline.cpp,
 * traditional_logic_worker.cpp).
 */
module ReconnectSafety {
  import opened ReconnectBarrier

  // ---------------------------------------------------------------------------
  // The invariant.

  function LastTs(ch: Channel): nat { if ch.online then ch.onlineTs else ch.offlineTs }

  /** A stamp taken before the last transition is not later than it. */
  ghost predicate Dated(s: State, stamp: nat, epoch: nat) {
    && 0 < stamp <= s.clock && epoch <= s.transitions
    && (epoch < s.transitions ==> stamp <= LastTs(s.channel))
  }

  /** A frame is above the barrier exactly if it was numbered after the last transition. */
  ghost predicate Known(s: State, f: Frame) {
    && Dated(s, f.stamp, f.epoch) && f.number <= s.channel.inputSeq
    && f.epoch <= f.numberedIn <= s.transitions
    && (f.number > s.channel.acceptAfter <==> f.numberedIn == s.transitions)
  }

  ghost predicate ProducerInv(s: State) {
    match s.producer
    case Ready => true
    case Stamped(stamp, epoch) => Dated(s, stamp, epoch)
    case Routed(stamp, epoch, _) => Dated(s, stamp, epoch)
    case Numbered(f, _) => Known(s, f)
    case Tagged(t) => Known(s, t.frame)
  }

  ghost predicate CarriedInv(s: State) {
    && (forall f | f in s.npu :: Known(s, f))
    && (s.result.Some? ==> Known(s, s.result.value))
    && (s.slot.Some? ==> Known(s, s.slot.value.frame))
    && (!s.dispatcher.Waiting? ==> Known(s, s.dispatcher.frame))
    && (!s.logic.Resting? ==> Known(s, s.logic.task.frame))
  }

  ghost predicate LockInv(s: State) {
    && (s.holder.ByDispatcher? <==> s.dispatcher.Judging? || s.dispatcher.Accepted?)
    && (s.holder.ByLogic? <==> s.logic.Checking? || s.logic.Cleared? || s.logic.Consulted?)
  }

  ghost predicate OfThisEpoch(s: State, f: Frame) {
    f.epoch == s.transitions && s.channel.online && f.stamp > s.channel.onlineTs
  }

  /** Past the barrier test: numbered after the transitions of that moment. */
  ghost predicate PassedInv(s: State) {
    s.dispatcher.Passed? || s.dispatcher.Judging? ==> s.dispatcher.frame.numberedIn == s.dispatcher.readIn
  }

  ghost predicate DecidedInv(s: State) {
    && (s.dispatcher.Accepted? ==> OfThisEpoch(s, s.dispatcher.frame))
    && (s.logic.Cleared? || s.logic.Consulted? ==> OfThisEpoch(s, s.logic.task.frame))
  }

  ghost predicate TaggedInv(s: State)
    requires s.configs != []
  {
    && (s.logic.Cleared? && Current(s).present ==> Current(s).generation == s.logic.task.generation)
    && (s.logic.Consulted? ==> s.logic.config.generation == s.logic.task.generation)
  }

  ghost predicate TimesInv(s: State) {
    && s.clock > 0 && s.channel.acceptAfter <= s.channel.inputSeq
    && (s.transitions == 0 ==> s.channel.online && s.channel.onlineTs == 0)
    && (s.transitions > 0 ==> 0 < LastTs(s.channel) <= s.clock)
  }

  /** What the channel shows and remembers comes from frames of this epoch alone, counted by `logicId`. */
  ghost predicate MemoryInv(s: State) {
    && s.channel.logicId == |s.channel.memory|
    && (forall k | 0 <= k < |s.channel.memory| :: OfThisEpoch(s, s.channel.memory[k]))
    && s.channel.shown == if s.channel.memory == [] then None else Some(s.channel.memory[|s.channel.memory| - 1])
  }

  /** Publications are numbered one by one, and a published frame was of its moment. */
  ghost predicate Sound(p: Publication) {
    p.frame.Some? ==> p.frame.value.epoch == p.transitions && p.online && p.frame.value.stamp > p.onlineTs
  }

  ghost predicate LogInv(s: State) {
    && |s.log| == s.channel.publications
    && forall k | 0 <= k < |s.log| :: s.log[k].number == k + 1 && Sound(s.log[k])
  }

  ghost predicate Inv(s: State) {
    && s.configs != [] && ProducerInv(s) && CarriedInv(s) && LockInv(s) && PassedInv(s) && DecidedInv(s) && TaggedInv(s)
    && TimesInv(s) && MemoryInv(s) && LogInv(s)
  }

  // ---------------------------------------------------------------------------
  // Every step keeps it.

  /** What all steps other than a transition leave alone. */
  ghost predicate SameEpoch(s: State, t: State) {
    && s.clock <= t.clock && t.transitions == s.transitions
    && t.channel.online == s.channel.online && t.channel.onlineTs == s.channel.onlineTs && t.channel.offlineTs == s.channel.offlineTs
    && t.channel.acceptAfter == s.channel.acceptAfter && s.channel.inputSeq <= t.channel.inputSeq
  }

  /** A transition happens at the clock and lifts the barrier to the newest frame. */
  ghost predicate NextEpoch(s: State, t: State) {
    && t.clock == s.clock && t.transitions == s.transitions + 1 && LastTs(t.channel) == s.clock
    && t.channel.acceptAfter == t.channel.inputSeq == s.channel.inputSeq
  }

  lemma DatedStays(s: State, t: State, stamp: nat, epoch: nat)
    requires SameEpoch(s, t) || NextEpoch(s, t)
    requires Dated(s, stamp, epoch)
    ensures Dated(t, stamp, epoch)
  {
  }

  lemma KnownStays(s: State, t: State, f: Frame)
    requires SameEpoch(s, t) || NextEpoch(s, t)
    requires Known(s, f)
    ensures Known(t, f)
  {
  }

  /** Frames change hands but are never made up. */
  ghost predicate Handed(s: State, t: State) {
    && t.npu <= s.npu + (if s.producer.Numbered? then {s.producer.frame} else {})
    && (t.result.Some? ==> t.result == s.result || t.result.value in s.npu)
    && (t.slot.Some? ==> t.slot == s.slot || (s.producer.Tagged? && t.slot == Some(s.producer.task)))
    && (!t.dispatcher.Waiting? ==> (!s.dispatcher.Waiting? && t.dispatcher.frame == s.dispatcher.frame) || s.result == Some(t.dispatcher.frame))
    && (!t.logic.Resting? ==> (!s.logic.Resting? && t.logic.task == s.logic.task) || s.slot == Some(t.logic.task))
  }

  lemma CarriedStays(s: State, t: State)
    requires SameEpoch(s, t) || NextEpoch(s, t)
    requires ProducerInv(s) && CarriedInv(s) && Handed(s, t)
    ensures CarriedInv(t)
  {
    forall f | Known(s, f) ensures Known(t, f) { KnownStays(s, t, f); }
  }

  lemma ProducerStays(s: State, t: State)
    requires SameEpoch(s, t) || NextEpoch(s, t)
    requires ProducerInv(s) && t.producer == s.producer
    ensures ProducerInv(t)
  {
    match s.producer
    case Ready =>
    case Stamped(stamp, epoch) => DatedStays(s, t, stamp, epoch);
    case Routed(stamp, epoch, _) => DatedStays(s, t, stamp, epoch);
    case Numbered(f, _) => KnownStays(s, t, f);
    case Tagged(task) => KnownStays(s, t, task.frame);
  }

  lemma HandedByStep(s: State, a: Action)
    requires Inv(s) && Enabled(s, a)
    ensures Handed(s, Do(s, a))
  {
  }

  lemma EpochOfStep(s: State, a: Action)
    requires Inv(s) && Enabled(s, a)
    ensures if a.AOffline? || a.AOnline? then NextEpoch(s, Do(s, a)) else SameEpoch(s, Do(s, a))
  {
  }

  lemma ProducerStep(s: State, a: Action)
    requires Inv(s) && Enabled(s, a)
    ensures ProducerInv(Do(s, a))
  {
    EpochOfStep(s, a);
    if Do(s, a).producer == s.producer {
      ProducerStays(s, Do(s, a));
    }
  }

  lemma LockStep(s: State, a: Action)
    requires Inv(s) && Enabled(s, a)
    ensures LockInv(Do(s, a))
  {
  }

  /** Accepted at the test: online, and stamped after the last transition, hence of this epoch. */
  lemma TestFindsThisEpoch(s: State, f: Frame)
    requires TimesInv(s) && Known(s, f) && s.channel.online && !Stale(s.channel, f.stamp)
    ensures OfThisEpoch(s, f)
  {
  }

  /** Past the tests and inside the lock, the transitions and the time stamps stand still. */
  lemma DecidedStep(s: State, a: Action)
    requires Inv(s) && Enabled(s, a)
    ensures DecidedInv(Do(s, a))
  {
    if a.AJudgeResult? && AcceptsResult(s.channel, Current(s), s.dispatcher.frame.stamp) {
      TestFindsThisEpoch(s, s.dispatcher.frame);
    } else if a.AJudgeTask? && AcceptsTask(s.channel, Current(s), s.logic.task) {
      TestFindsThisEpoch(s, s.logic.task.frame);
    }
  }

  lemma PassedStep(s: State, a: Action)
    requires Inv(s) && Enabled(s, a)
    ensures PassedInv(Do(s, a))
  {
  }

  /** A configuration that keeps the channel waits for the lock, so the one a task was tested under stays. */
  lemma TaggedStep(s: State, a: Action)
    requires Inv(s) && Enabled(s, a)
    ensures TaggedInv(Do(s, a))
  {
  }

  lemma TimesStep(s: State, a: Action)
    requires Inv(s) && Enabled(s, a)
    ensures TimesInv(Do(s, a))
  {
    hide Do;
    EpochOfStep(s, a);
  }

  lemma MemoryStep(s: State, a: Action)
    requires Inv(s) && Enabled(s, a)
    ensures MemoryInv(Do(s, a))
  {
    var t := Do(s, a);
    if t.channel.memory == s.channel.memory {
      EpochOfStep(s, a);
    } else if t.channel.memory != [] {
      assert a.ACommitResult? || a.ACommitTask?;
      var f := if a.ACommitResult? then s.dispatcher.frame else s.logic.task.frame;
      assert t.channel.memory == s.channel.memory + [f];
    }
  }

  ghost predicate Quiet(a: Action) {
    !(a.ACommitResult? || a.ACommitTask? || a.AOffline? || a.AOnline? || a.APublish?)
  }

  lemma LogStep(s: State, a: Action)
    requires Inv(s) && Enabled(s, a)
    ensures LogInv(Do(s, a))
  {
    if Quiet(a) {
      assert Do(s, a).log == s.log && Do(s, a).channel.publications == s.channel.publications;
    } else {
      LoudLogStep(s, a);
    }
  }

  lemma LoudLogStep(s: State, a: Action)
    requires Inv(s) && Enabled(s, a) && !Quiet(a)
    ensures LogInv(Do(s, a))
  {
  }

  lemma StepKeeps(s: State, a: Action)
    requires Inv(s) && Enabled(s, a)
    ensures Inv(Do(s, a))
  {
    EpochOfStep(s, a);
    HandedByStep(s, a);
    CarriedStays(s, Do(s, a));
    ProducerStep(s, a);
    LockStep(s, a);
    PassedStep(s, a);
    DecidedStep(s, a);
    TaggedStep(s, a);
    TimesStep(s, a);
    MemoryStep(s, a);
    LogStep(s, a);
  }

  lemma {:induction false} RunKeeps(s: State, run: seq<Action>, t: State)
    requires Inv(s) && Executes(s, run, t)
    ensures Inv(t)
    decreases |run|
  {
    if run != [] {
      StepKeeps(s, run[0]);
      RunKeeps(Do(s, run[0]), run[1..], t);
    }
  }

  lemma ReachableInv(start: nat, config: Config, s: State)
    requires Reachable(start, config, s)
    ensures Inv(s)
  {
    var run :| Executes(Fresh(start, config), run, s);
    RunKeeps(Fresh(start, config), run, s);
  }

  // ---------------------------------------------------------------------------
  // The claims.

  /**
   * Whatever the interleaving: a frame that was published had been stamped after the last
   * transition before its publication, and the channel was online; publications are numbered
   * 1, 2, 3 and so on through every reset.
   */
  lemma OldFramesNeverCommit(start: nat, config: Config, s: State, k: nat)
    requires Reachable(start, config, s) && k < |s.log|
    ensures s.log[k].number == k + 1
    ensures s.log[k].frame.Some? ==>
              s.log[k].online && s.log[k].frame.value.stamp > s.log[k].onlineTs
              && s.log[k].frame.value.epoch == s.log[k].transitions
  {
    ReachableInv(start, config, s);
  }

  lemma MemoryMeansOnline(s: State)
    requires MemoryInv(s)
    ensures s.channel.memory != [] ==> s.channel.online
  {
    if s.channel.memory != [] {
      assert OfThisEpoch(s, s.channel.memory[0]);
    }
  }

  /** While the channel is offline nothing but a reset has been written since it went offline. */
  lemma OfflineShowsNothing(start: nat, config: Config, s: State)
    requires Reachable(start, config, s) && !s.channel.online
    ensures s.channel.memory == [] && s.channel.shown == None && s.channel.logicId == 0
    ensures !s.dispatcher.Accepted? && !s.logic.Cleared? && !s.logic.Consulted?
  {
    ReachableInv(start, config, s);
    MemoryMeansOnline(s);
  }

  /** The logic state was built from frames of this epoch only, and counts them. */
  lemma LogicStateIsOfThisEpoch(start: nat, config: Config, s: State)
    requires Reachable(start, config, s)
    ensures s.channel.logicId == |s.channel.memory|
    ensures forall k | 0 <= k < |s.channel.memory| ::
              s.channel.memory[k].epoch == s.transitions && s.channel.memory[k].stamp > s.channel.onlineTs
  {
    ReachableInv(start, config, s);
    forall k | 0 <= k < |s.channel.memory|
      ensures s.channel.memory[k].epoch == s.transitions && s.channel.memory[k].stamp > s.channel.onlineTs
    {
      assert OfThisEpoch(s, s.channel.memory[k]);
    }
  }

  /** The sequence barrier lets through exactly the frames numbered after the last transition. */
  lemma BarrierPassesIff(start: nat, config: Config, s: State)
    requires Reachable(start, config, s) && s.dispatcher.Took?
    ensures Do(s, AReadBarrier).dispatcher == Passed(s.dispatcher.frame, s.transitions) <==>
              s.dispatcher.frame.numberedIn == s.transitions
  {
    ReachableInv(start, config, s);
  }

  /** A frame stamped since the last transition always passes the sequence barrier. */
  lemma BarrierSparesNewFrames(start: nat, config: Config, s: State)
    requires Reachable(start, config, s) && s.dispatcher.Took? && s.dispatcher.frame.epoch == s.transitions
    ensures Do(s, AReadBarrier).dispatcher == Passed(s.dispatcher.frame, s.transitions)
  {
    ReachableInv(start, config, s);
    BarrierPassesIff(start, config, s);
  }

  /**
   * A frame past the barrier test was stamped before the last transition exactly if a transition
   * fell between its stamp and its number, or after the barrier was read. It is at or below the
   * barrier exactly in the second case. Under the lock no transition happens any more.
   */
  lemma OldPastTheBarrierIff(start: nat, config: Config, s: State)
    requires Reachable(start, config, s) && (s.dispatcher.Passed? || s.dispatcher.Judging?)
    ensures var f := s.dispatcher.frame;
            && (f.epoch < s.transitions <==> f.epoch < f.numberedIn || s.dispatcher.readIn < s.transitions)
            && (f.number <= s.channel.acceptAfter <==> s.dispatcher.readIn < s.transitions)
    ensures s.dispatcher.Judging? ==> forall k :: !Enabled(s, AOnline(k)) && !Enabled(s, AOffline(k))
  {
    ReachableInv(start, config, s);
  }

  /** The lock-side tests let through exactly the frames stamped later than the last online time. */
  lemma TestsAreExact(start: nat, config: Config, s: State)
    requires Reachable(start, config, s) && s.dispatcher.Judging?
    ensures Do(s, AJudgeResult).dispatcher.Accepted? <==>
              Current(s).present && Current(s).infer && s.channel.inferRuntime
              && OfThisEpoch(s, s.dispatcher.frame)
  {
    ReachableInv(start, config, s);
  }

  /** The tests on a traditional task let through exactly the fresh frames of the current configuration, with inference off. */
  lemma TaskTestsAreExact(start: nat, config: Config, s: State)
    requires Reachable(start, config, s) && s.logic.Checking?
    ensures Do(s, AJudgeTask).logic.Cleared? <==>
              && Current(s).generation == s.logic.task.generation && Current(s).present && Current(s).enabled
              && !(Current(s).infer && s.channel.inferRuntime) && OfThisEpoch(s, s.logic.task.frame)
  {
    ReachableInv(start, config, s);
  }

  /** Under one configuration that has the channel enabled, exactly one of the two paths takes a fresh frame. */
  lemma ExactlyOnePathTakes(start: nat, config: Config, s: State, f: Frame)
    requires Reachable(start, config, s) && OfThisEpoch(s, f) && Current(s).present && Current(s).enabled
    ensures AcceptsResult(s.channel, Current(s), f.stamp) <==> !AcceptsTask(s.channel, Current(s), Task(f, Current(s).generation))
  {
    ReachableInv(start, config, s);
  }

  /** A frame goes to inference if that is switched on, and to the traditional path otherwise, tagged with the current generation. */
  lemma RouteFollowsSwitch(s: State)
    requires s.configs != [] && s.producer.Stamped?
    ensures var routed := Do(s, ARoute);
            var numbered := Do(routed, ANumber);
            var f := Frame(s.channel.inputSeq + 1, s.producer.stamp, s.producer.epoch, s.transitions);
            && numbered.channel.inputSeq == s.channel.inputSeq + 1
            && if Current(s).infer && s.channel.inferRuntime
               then Do(numbered, ASend).npu == s.npu + {f} && Do(numbered, ASend).producer == Ready
               else Do(numbered, ASend).npu == s.npu && Do(numbered, ASend).producer == Tagged(Task(f, Current(s).generation))
  {
  }

  /** What is shown, numbered and dated belongs to one frame. */
  ghost predicate ShowsOneFrame(ch: Channel) {
    match ch.shown
    case None => ch.shownSeq == 0 && ch.frameSteady == 0
    case Some(f) => ch.frameSteady == f.stamp && (ch.shownSeq == f.number || ch.shownSeq == ch.logicId)
  }

  lemma {:induction false} RunShowsOneFrame(s: State, run: seq<Action>, t: State)
    requires Inv(s) && ShowsOneFrame(s.channel) && Executes(s, run, t)
    ensures ShowsOneFrame(t.channel)
    decreases |run|
  {
    if run != [] {
      StepShowsOneFrame(s, run[0]);
      hide Inv, Do, Enabled, ShowsOneFrame;
      StepKeeps(s, run[0]);
      RunShowsOneFrame(Do(s, run[0]), run[1..], t);
    }
  }

  lemma StepShowsOneFrame(s: State, a: Action)
    requires s.configs != [] && ShowsOneFrame(s.channel) && Enabled(s, a)
    ensures ShowsOneFrame(Do(s, a).channel)
  {
  }

  /** In every reachable state; and a commit shows its frame under the number of its path. */
  lemma PublishedFrameIsShown(start: nat, config: Config, s: State)
    requires Reachable(start, config, s)
    ensures ShowsOneFrame(s.channel)
    ensures s.dispatcher.Accepted? ==>
              var ch := Do(s, ACommitResult).channel;
              ch.shown == Some(s.dispatcher.frame) && ch.shownSeq == s.dispatcher.frame.number && ch.generation == s.dispatcher.config.generation
    ensures s.logic.Consulted? ==>
              var ch := Do(s, ACommitTask).channel;
              ch.shown == Some(s.logic.task.frame) && ch.shownSeq == |ch.memory| == ch.logicId
  {
    var run :| Executes(Fresh(start, config), run, s);
    RunShowsOneFrame(Fresh(start, config), run, s);
    ReachableInv(start, config, s);
  }

  /** A configuration that changes the logic of a channel it keeps starts the logic anew, and any other leaves it alone. */
  lemma ChangedLogicStartsClean(s: State, next: Config, changed: bool)
    requires s.configs != [] && Enabled(s, APublish(next, changed))
    ensures var ch := Do(s, APublish(next, changed)).channel;
            if next.present && changed
            then ch.memory == [] && ch.logicId == 0 && ch.shown == None && ch.generation == next.generation
                 && ch.publications == s.channel.publications + 1 && ch.acceptAfter == s.channel.acceptAfter
            else ch == s.channel
  {
  }

  /** A frame of the traditional path is committed under the configuration its task was tagged with. */
  lemma TasksKeepTheirGeneration(start: nat, config: Config, s: State)
    requires Reachable(start, config, s) && s.logic.Consulted?
    ensures Do(s, ACommitTask).channel.generation == s.logic.task.generation
  {
    ReachableInv(start, config, s);
  }

  // ---------------------------------------------------------------------------
  // Why the sequence barrier alone would not do.

  lemma {:induction false} Then(s: State, run: seq<Action>, t: State, a: Action)
    requires s.configs != [] && t.configs != [] && Executes(s, run, t) && Enabled(t, a)
    ensures Executes(s, run + [a], Do(t, a))
    decreases |run|
  {
    if run == [] {
      assert [a][1..] == [];
      assert run + [a] == [a];
    } else {
      Then(Do(s, run[0]), run[1..], t, a);
      assert (run + [a])[1..] == run[1..] + [a];
    }
  }

  lemma ThenReachable(start: nat, config: Config, s: State, a: Action) returns (t: State)
    requires Reachable(start, config, s) && s.configs != [] && Enabled(s, a)
    ensures t == Do(s, a) && Reachable(start, config, t) && t.configs != []
  {
    var run :| Executes(Fresh(start, config), run, s);
    Then(Fresh(start, config), run, s, a);
    t := Do(s, a);
  }

  const CAMERA := Config(1, true, true, true)

  lemma FreshIsReachable() returns (s: State)
    ensures s == Fresh(5, CAMERA) && Reachable(5, CAMERA, s)
  {
    s := Fresh(5, CAMERA);
    assert Executes(s, [], s);
  }

  /** A frame handed to the NPU, taken by the dispatcher. */
  lemma FrameInDispatcher(s0: State) returns (s: State)
    requires s0 == Fresh(5, CAMERA) && Reachable(5, CAMERA, s0)
    ensures Reachable(5, CAMERA, s) && s.configs == [CAMERA] && s.clock == 5 && s.transitions == 0 && s.holder.Free?
    ensures s.dispatcher == Took(Frame(1, 5, 0, 0)) && s.channel.acceptAfter == 0 && s.channel.inputSeq == 1
  {
    s := ThenReachable(5, CAMERA, s0, AStamp);
    s := ThenReachable(5, CAMERA, s, ARoute);
    s := ThenReachable(5, CAMERA, s, ANumber);
    s := ThenReachable(5, CAMERA, s, ASend);
    s := ThenReachable(5, CAMERA, s, AInferred(Frame(1, 5, 0, 0)));
    s := ThenReachable(5, CAMERA, s, ATake);
  }

  /** The channel reconnects between the barrier test and the lock: a frame at or below the barrier is past the test. */
  lemma BarrierCanBeOutrun() returns (s: State)
    ensures Reachable(5, CAMERA, s) && s.dispatcher.Judging? && s.channel.online
    ensures s.dispatcher.frame.number <= s.channel.acceptAfter && s.dispatcher.frame.epoch == s.dispatcher.frame.numberedIn
    ensures s.dispatcher.frame.epoch < s.transitions
    ensures Do(s, AJudgeResult).dispatcher.Waiting?
  {
    s := FreshIsReachable();
    s := FrameInDispatcher(s);
    s := ThenReachable(5, CAMERA, s, AReadBarrier);
    s := ThenReachable(5, CAMERA, s, AOnline(0));
    s := ThenReachable(5, CAMERA, s, ALockResult);
  }

  /** The channel reconnects between a frame's stamp and its number: the frame is old, yet above the barrier for good. */
  lemma OldFrameAboveTheBarrier() returns (s: State)
    ensures Reachable(5, CAMERA, s) && s.producer.Numbered?
    ensures s.producer.frame.epoch < s.transitions && s.producer.frame.number > s.channel.acceptAfter
  {
    s := FreshIsReachable();
    s := ThenReachable(5, CAMERA, s, AStamp);
    s := ThenReachable(5, CAMERA, s, AOnline(0));
    s := ThenReachable(5, CAMERA, s, ARoute);
    s := ThenReachable(5, CAMERA, s, ANumber);
  }
}
