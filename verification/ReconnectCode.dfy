/**
 * The fields of one channel and the sections that update them in place
 * (engine/src/runtime/app_ctrl.h, engine/src/pipeline/pipeline_runtime.cpp, channel_pipeline.cpp,
 * traditional_logic_worker.cpp).
 */
module ReconnectCode {
  import opened ReconnectBarrier

  class ChannelState {
    var online: bool
    var offlineTs: nat
    var onlineTs: nat
    var inputSeq: nat
    var acceptAfter: nat
    var inferRuntime: bool
    var logicId: nat
    var lastFrame: Option<Frame>
    var publishedFrameSeq: nat
    var publicationSeq: nat
    var publishedGeneration: nat
    var frameSteady: nat
    ghost var memory: seq<Frame>

    ghost function Value(): Channel
      reads this
    {
      Channel(online, offlineTs, onlineTs, inputSeq, acceptAfter, inferRuntime,
        logicId, lastFrame, publishedFrameSeq, memory, publicationSeq, publishedGeneration, frameSteady)
    }

    constructor ()
      ensures Value() == Fresh(0, Config(0, true, true, true)).channel
    {
      online, offlineTs, onlineTs, inputSeq, acceptAfter, inferRuntime := true, 0, 0, 0, 0, true;
      logicId, lastFrame, publishedFrameSeq, publicationSeq, publishedGeneration, frameSteady := 0, None, 0, 0, 0, 0;
      memory := [];
    }

    method CommitPublication(generation: nat, sourceSteady: nat)
      modifies this
      ensures Value() == Published(old(Value()), generation, sourceSteady)
    {
      publicationSeq := publicationSeq + 1;
      frameSteady := sourceSteady;
      publishedGeneration := generation;
    }

    method ResetLogic()
      modifies this
      ensures Value() == Cleaned(old(Value()))
    {
      memory := [];
      lastFrame := None;
      logicId := 0;
      publishedFrameSeq := 0;
    }

    method GoOffline(now: nat, snapshotGeneration: nat)
      modifies this
      ensures Value() == WentOffline(old(Value()), now, snapshotGeneration)
    {
      online := false;
      offlineTs := now;
      ResetLogic();
      acceptAfter := inputSeq;
      CommitPublication(snapshotGeneration, 0);
    }

    method ComeOnline(now: nat, snapshotGeneration: nat)
      modifies this
      ensures Value() == CameOnline(old(Value()), now, snapshotGeneration)
    {
      online := true;
      onlineTs := now;
      ResetLogic();
      acceptAfter := inputSeq;
      CommitPublication(snapshotGeneration, 0);
    }

    method ChangeLogic(generation: nat)
      modifies this
      ensures Value() == Published(Cleaned(old(Value())), generation, 0)
    {
      ResetLogic();
      CommitPublication(generation, 0);
    }

    /** `process_channel_results` on an inference result, up to its decision. */
    method TakesResult(config: Config, stamp: nat) returns (take: bool)
      ensures take == AcceptsResult(Value(), config, stamp)
    {
      if !config.present {
        return false;
      }
      var inferEnabled := config.infer;
      if inferEnabled {
        inferEnabled := inferRuntime;
      }
      var stale := onlineTs != 0 && stamp != 0 && stamp <= onlineTs;
      if !online || stale {
        return false;
      }
      return inferEnabled;
    }

    /** `channel_should_run_traditional_logic`. */
    method ShouldRunTraditional(config: Config, stamp: nat, generation: nat) returns (run: bool)
      ensures run == AcceptsTask(Value(), config, Task(Frame(0, stamp, 0, 0), generation))
    {
      if config.generation != generation {
        return false;
      }
      if !config.present || !config.enabled {
        return false;
      }
      var inferEnabled := config.infer && inferRuntime;
      var stale := onlineTs != 0 && stamp != 0 && stamp <= onlineTs;
      return online && !stale && !inferEnabled;
    }

    /** The write-back of `invoke_channel_logic`. */
    method CommitFrame(f: Frame, byInference: bool, generation: nat)
      modifies this
      ensures Value() == Committed(old(Value()), f, byInference, generation)
    {
      logicId := logicId + 1;
      lastFrame := Some(f);
      memory := memory + [f];
      publishedFrameSeq := if byInference then f.number else logicId;
      CommitPublication(generation, f.stamp);
    }

    method NumberFrame() returns (number: nat)
      modifies this
      ensures number == old(inputSeq) + 1 && Value() == old(Value()).(inputSeq := number)
    {
      inputSeq := inputSeq + 1;
      return inputSeq;
    }
  }

  /** The single-slot queue of the traditional path. */
  class LogicQueue {
    var hasTask: bool
    var task: Task

    ghost function Slot(): Option<Task>
      reads this
    {
      if hasTask then Some(task) else None
    }

    constructor ()
      ensures Slot() == None
    {
      hasTask, task := false, Task(Frame(0, 0, 0, 0), 0);
    }

    method Put(t: Task)
      modifies this
      ensures Slot() == Some(t)
    {
      task := t;
      hasTask := true;
    }

    method Take() returns (t: Option<Task>)
      modifies this
      ensures t == old(Slot()) && Slot() == None
    {
      if !hasTask {
        return None;
      }
      t := Some(task);
      hasTask := false;
    }

    method Clear()
      modifies this
      ensures Slot() == None
    {
      task := Task(Frame(0, 0, 0, 0), 0);
      hasTask := false;
    }
  }
}
