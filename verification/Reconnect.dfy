/**
 * One channel across offline, seek and online transitions (engine/src/pipeline/pipeline_runtime.cpp,
 * result_dispatch.cpp, channel_pipeline.cpp, traditional_logic_worker.cpp and
 * engine/src/runtime/app_ctrl.h).
 *
 * Threads interleave at their lock sections. The processing lock is explicit because the
 * dispatcher reads the sequence barrier before taking it. `transitions` counts the offline and
 * online transitions; `epoch`, `numberedIn` and `readIn` say how many there had been when a frame
 * was stamped, when it was numbered, and when the barrier was read. The program keeps none of them.
 */
module ReconnectBarrier {
  datatype Option<T> = None | Some(value: T)

  datatype Frame = Frame(number: nat, stamp: nat, epoch: nat, numberedIn: nat)
  datatype Config = Config(generation: nat, present: bool, enabled: bool, infer: bool)
  datatype Task = Task(frame: Frame, generation: nat)

  /** What `ChannelState` holds. `memory` is the frames whose logic ran since the last reset. */
  datatype Channel = Channel(
    online: bool, offlineTs: nat, onlineTs: nat, inputSeq: nat, acceptAfter: nat, inferRuntime: bool,
    logicId: nat, shown: Option<Frame>, shownSeq: nat, memory: seq<Frame>,
    publications: nat, generation: nat, frameSteady: nat)

  datatype Producer =
    | Ready
    | Stamped(stamp: nat, epoch: nat)
    | Routed(stamp: nat, epoch: nat, infer: bool)
    | Numbered(frame: Frame, infer: bool)
    | Tagged(task: Task)

  datatype Dispatcher =
    | Waiting
    | Took(frame: Frame)
    | Passed(frame: Frame, readIn: nat)
    | Judging(frame: Frame, readIn: nat)
    | Accepted(frame: Frame, config: Config)
  datatype Logic = Resting | Holding(task: Task) | Checking(task: Task) | Cleared(task: Task) | Consulted(task: Task, config: Config)
  datatype Holder = Free | ByDispatcher | ByLogic

  /** A publication, with the moment it was made. */
  datatype Publication = Publication(number: nat, frame: Option<Frame>, generation: nat, transitions: nat, online: bool, onlineTs: nat)

  datatype State = State(
    clock: nat, configs: seq<Config>, channel: Channel, holder: Holder,
    producer: Producer, npu: set<Frame>, result: Option<Frame>, dispatcher: Dispatcher,
    slot: Option<Task>, logic: Logic, transitions: nat, log: seq<Publication>)

  // ---------------------------------------------------------------------------
  // The sections that change `ChannelState`.

  /** `commit_publication`. */
  function Published(ch: Channel, generation: nat, frameSteady: nat): Channel {
    ch.(publications := ch.publications + 1, generation := generation, frameSteady := frameSteady)
  }

  /** The reset shared by the transitions and by a changed logic. */
  function Cleaned(ch: Channel): Channel {
    ch.(logicId := 0, shown := None, shownSeq := 0, memory := [])
  }

  function WentOffline(ch: Channel, now: nat, generation: nat): Channel {
    Published(Cleaned(ch).(online := false, offlineTs := now, acceptAfter := ch.inputSeq), generation, 0)
  }

  function CameOnline(ch: Channel, now: nat, generation: nat): Channel {
    Published(Cleaned(ch).(online := true, onlineTs := now, acceptAfter := ch.inputSeq), generation, 0)
  }

  predicate Stale(ch: Channel, stamp: nat) {
    ch.onlineTs != 0 && stamp != 0 && stamp <= ch.onlineTs
  }

  /** The tests of `process_channel_results` on an inference result. */
  predicate AcceptsResult(ch: Channel, config: Config, stamp: nat) {
    config.present && ch.online && !Stale(ch, stamp) && config.infer && ch.inferRuntime
  }

  predicate AcceptsTask(ch: Channel, config: Config, task: Task) {
    && config.generation == task.generation && config.present && config.enabled
    && ch.online && !Stale(ch, task.frame.stamp) && !(config.infer && ch.inferRuntime)
  }

  /** A processed frame: results, outputs and logic state written back together. */
  function Committed(ch: Channel, f: Frame, byInference: bool, generation: nat): Channel {
    Published(ch.(logicId := ch.logicId + 1, shown := Some(f), shownSeq := if byInference then f.number else ch.logicId + 1,
                  memory := ch.memory + [f]), generation, f.stamp)
  }

  // ---------------------------------------------------------------------------
  // Runs.

  datatype Action =
    | ATick(now: nat)
    | AStamp | ARoute | ANumber | ASend | APut
    | AInferred(frame: Frame) | ALose(frame: Frame)
    | ATake | AReadBarrier | ALockResult | AJudgeResult | ACommitResult
    | ATakeTask(keep: bool) | ALockTask | AJudgeTask | AConsultTask | ACommitTask
    | AClearSlot
    | AOffline(snapshot: nat) | AOnline(snapshot: nat)
    | AToggle(infer: bool)
    | APublish(next: Config, changed: bool)

  function Current(s: State): Config
    requires s.configs != []
  {
    s.configs[|s.configs| - 1]
  }

  /**
   * Offline and online carry the index of a configuration read at any earlier time; taking and
   * releasing the processing lock inside them is part of the step. A configuration that drops
   * the channel is stored without its processing lock.
   */
  ghost predicate Enabled(s: State, a: Action) {
    match a
    case ATick(now) => s.clock <= now
    case AStamp => s.producer.Ready?
    case ARoute => s.producer.Stamped?
    case ANumber => s.producer.Routed?
    case ASend => s.producer.Numbered?
    case APut => s.producer.Tagged?
    case AInferred(f) => f in s.npu
    case ALose(f) => f in s.npu
    case ATake => s.dispatcher.Waiting? && s.result.Some?
    case AReadBarrier => s.dispatcher.Took?
    case ALockResult => s.dispatcher.Passed? && s.holder.Free?
    case AJudgeResult => s.dispatcher.Judging?
    case ACommitResult => s.dispatcher.Accepted?
    case ATakeTask(_) => s.logic.Resting? && s.slot.Some?
    case ALockTask => s.logic.Holding? && s.holder.Free?
    case AJudgeTask => s.logic.Checking?
    case AConsultTask => s.logic.Cleared?
    case ACommitTask => s.logic.Consulted?
    case AClearSlot => true
    case AOffline(k) => s.holder.Free? && k < |s.configs|
    case AOnline(k) => s.holder.Free? && k < |s.configs|
    case AToggle(_) => true
    case APublish(next, _) => next.present ==> s.holder.Free?
  }

  function Note(s: State, ch: Channel, frame: Option<Frame>, transitions: nat): seq<Publication> {
    s.log + [Publication(ch.publications, frame, ch.generation, transitions, ch.online, ch.onlineTs)]
  }

  function Send(s: State): State
    requires s.producer.Numbered? && s.configs != []
  {
    var f := s.producer.frame;
    if s.producer.infer then s.(npu := s.npu + {f}, producer := Ready)
    else s.(producer := Tagged(Task(f, Current(s).generation)))
  }

  function Transition(s: State, ch: Channel): State {
    s.(channel := ch, transitions := s.transitions + 1, log := Note(s, ch, None, s.transitions + 1))
  }

  function Publish(s: State, next: Config, changed: bool): State {
    var stored := s.(configs := s.configs + [next]);
    if next.present && changed
    then
      var ch := Published(Cleaned(s.channel), next.generation, 0);
      stored.(channel := ch, log := Note(s, ch, None, s.transitions))
    else stored
  }

  function CommitResult(s: State): State
    requires s.dispatcher.Accepted?
  {
    var ch := Committed(s.channel, s.dispatcher.frame, true, s.dispatcher.config.generation);
    s.(channel := ch, log := Note(s, ch, Some(s.dispatcher.frame), s.transitions), holder := Free, dispatcher := Waiting)
  }

  function CommitTask(s: State): State
    requires s.logic.Consulted?
  {
    var ch := Committed(s.channel, s.logic.task.frame, false, s.logic.config.generation);
    s.(channel := ch, log := Note(s, ch, Some(s.logic.task.frame), s.transitions), holder := Free, logic := Resting)
  }

  ghost function Do(s: State, a: Action): State
    requires Enabled(s, a) && s.configs != []
  {
    match a
    case ATick(now) => s.(clock := now)
    case AStamp => s.(producer := Stamped(s.clock, s.transitions))
    case ARoute => s.(producer := Routed(s.producer.stamp, s.producer.epoch, Current(s).infer && s.channel.inferRuntime))
    case ANumber => s.(channel := s.channel.(inputSeq := s.channel.inputSeq + 1),
                       producer := Numbered(Frame(s.channel.inputSeq + 1, s.producer.stamp, s.producer.epoch, s.transitions), s.producer.infer))
    case ASend => Send(s)
    case APut => s.(slot := Some(s.producer.task), producer := Ready)
    case AInferred(f) => s.(npu := s.npu - {f}, result := Some(f))
    case ALose(f) => s.(npu := s.npu - {f})
    case ATake => s.(result := None, dispatcher := Took(s.result.value))
    case AReadBarrier =>
      s.(dispatcher := if s.dispatcher.frame.number <= s.channel.acceptAfter then Waiting else Passed(s.dispatcher.frame, s.transitions))
    case ALockResult => s.(holder := ByDispatcher, dispatcher := Judging(s.dispatcher.frame, s.dispatcher.readIn))
    case AJudgeResult =>
      if AcceptsResult(s.channel, Current(s), s.dispatcher.frame.stamp)
      then s.(dispatcher := Accepted(s.dispatcher.frame, Current(s)))
      else s.(holder := Free, dispatcher := Waiting)
    case ACommitResult => CommitResult(s)
    case ATakeTask(keep) => s.(slot := None, logic := if keep then Holding(s.slot.value) else Resting)
    case ALockTask => s.(holder := ByLogic, logic := Checking(s.logic.task))
    case AJudgeTask =>
      if AcceptsTask(s.channel, Current(s), s.logic.task) then s.(logic := Cleared(s.logic.task))
      else s.(holder := Free, logic := Resting)
    case AConsultTask =>
      if Current(s).present then s.(logic := Consulted(s.logic.task, Current(s)))
      else s.(holder := Free, logic := Resting)
    case ACommitTask => CommitTask(s)
    case AClearSlot => s.(slot := None)
    case AOffline(k) => Transition(s, WentOffline(s.channel, s.clock, s.configs[k].generation))
    case AOnline(k) => Transition(s, CameOnline(s.channel, s.clock, s.configs[k].generation))
    case AToggle(infer) => s.(channel := s.channel.(inferRuntime := infer))
    case APublish(next, changed) => Publish(s, next, changed)
  }

  function Fresh(start: nat, config: Config): State {
    State(start, [config], Channel(true, 0, 0, 0, 0, true, 0, None, 0, [], 0, 0, 0), Free,
      Ready, {}, None, Waiting, None, Resting, 0, [])
  }

  ghost predicate Executes(s: State, run: seq<Action>, t: State)
    requires s.configs != []
    decreases |run|
  {
    if run == [] then s == t
    else Enabled(s, run[0]) && Executes(Do(s, run[0]), run[1..], t)
  }

  /** The steady clock is never zero. */
  ghost predicate Reachable(start: nat, config: Config, s: State) {
    start > 0 && s.configs != [] && exists run :: Executes(Fresh(start, config), run, s)
  }
}
