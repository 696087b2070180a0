/**
 * One channel's queue, slot and flag as the program's variables, with the sections that update
 * them in place (engine/src/inference/inference_engine.cpp, inference_executor.cpp).
 */
module ResultSlotCode {
  import opened ResultSlot

  class InferenceChannel {
    var q: seq<Task>
    var maxQueueSize: nat
    var reloadStop: bool
    var result: Task
    var latestSeq: nat
    var hasNew: bool
    var dispatchPending: bool
    ghost var workers: seq<Worker>
    ghost var woken: bool
    ghost var accepted: seq<Task>
    ghost var gone: seq<Exit>
    ghost var takes: seq<Task>

    ghost function Value(): State
      reads this
    {
      State(q, maxQueueSize, reloadStop, workers, result, latestSeq, hasNew, dispatchPending, woken, accepted, gone, takes)
    }

    constructor (count: nat, queueSize: nat)
      ensures Value() == Fresh(count, queueSize)
    {
      q, maxQueueSize, reloadStop := [], queueSize, false;
      result, latestSeq, hasNew, dispatchPending := Task(0, 0), 0, false, false;
      workers, woken, accepted, gone, takes := seq(count, _ => Idle), false, [], [], [];
    }

    /** The locked part of `inference_process_source`: 1 plus the number of displaced frames. */
    method Enqueue(task: Task) returns (code: nat)
      requires Enabled(Value(), AEnqueue(task))
      modifies this
      ensures Value() == Do(old(Value()), AEnqueue(task))
      ensures code == 1 + Surplus(old(q), old(maxQueueSize))
    {
      var limit := if maxQueueSize < 1 then 1 else maxQueueSize;
      var discarded := 0;
      ghost var before := q;
      while |q| >= limit
        invariant discarded <= Surplus(before, maxQueueSize) && q == before[discarded..]
        modifies `q
      {
        q := q[1..];
        discarded := discarded + 1;
      }
      q := q + [task];
      accepted, gone := accepted + [task], gone + Left(before[..discarded], Displaced);
      return 1 + discarded;
    }

    /** A worker's wait has ended with a task in the queue. */
    method PopTask(w: nat) returns (task: Task)
      requires Enabled(Value(), APop(w))
      modifies this
      ensures Value() == Do(old(Value()), APop(w)) && workers[w] == Holding(task)
    {
      task := q[0];
      q := q[1..];
      gone, workers := gone + [Exit(task, Taken)], workers[w := Holding(task)];
    }

    /** The slot is written only by a later frame. */
    method WriteResult(w: nat, task: Task) returns (wroteNew: bool)
      requires Enabled(Value(), AWrite(w)) && task == workers[w].task
      modifies this
      ensures Value() == Do(old(Value()), AWrite(w)) && wroteNew == workers[w].Wrote?
    {
      wroteNew := false;
      if task.number > latestSeq {
        result := task;
        latestSeq := task.number;
        hasNew := true;
        wroteNew := true;
      }
      workers := workers[w := if wroteNew then Wrote else Idle];
    }

    method SignalReady(w: nat)
      requires Enabled(Value(), ASignal(w))
      modifies this
      ensures Value() == Do(old(Value()), ASignal(w))
    {
      dispatchPending := true;
      workers := workers[w := Idle];
    }

    /** The end of `inference_wait_result` while the engine runs. */
    method WaitResult() returns (ready: bool)
      requires !woken
      modifies this
      ensures ready == old(dispatchPending)
      ensures Value() == if ready then Do(old(Value()), AWait) else old(Value())
    {
      ready := dispatchPending;
      if ready {
        dispatchPending := false;
        woken := true;
      }
    }

    method TakeResults() returns (taken: bool, task: Task)
      requires woken
      modifies this
      ensures Value() == Do(old(Value()), ATake)
      ensures taken == old(hasNew) && (taken ==> takes == old(takes) + [task])
    {
      task := result;
      taken := hasNew;
      if hasNew {
        hasNew := false;
        takes := takes + [task];
      }
      woken := false;
    }

    /** A reload empties the queue once the workers are gone. */
    method ClearQueue()
      requires Enabled(Value(), AReloadClear)
      modifies this
      ensures Value() == Do(old(Value()), AReloadClear)
    {
      gone := gone + Left(q, Cleared);
      while q != []
        modifies `q
        decreases |q|
      {
        q := q[1..];
      }
    }

    method ForgetResult()
      requires Enabled(Value(), AReloadForget)
      modifies this
      ensures Value() == Do(old(Value()), AReloadForget)
    {
      hasNew := false;
    }
  }
}
