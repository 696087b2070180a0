/**
 * The barrier of the multi-model executor (engine/src/inference/inference_executor.cpp,
 * `ParallelCompositeExecutor`). One thread runs tasks; every model has a slot and a child
 * thread. A step is one section under a slot's mutex or under `done_mtx_`.
 *
 * Tasks are numbered by the run that carries them. `executed` counts, for each child, the
 * tasks it has finished; the program does not keep it.
 */
module ModelBarrier {
  /** A slot keeps pointing at the last task; only `hasJob` tells whether it may be read. */
  datatype Slot = Slot(stop: bool, hasJob: bool, task: nat)
  datatype Child = Waiting | Running(task: nat) | Finished(task: nat) | Gone
  datatype Runner = Resting | Dispatching(next: nat) | Awaiting | Down
  datatype Executor = Executor(slots: seq<Slot>, children: seq<Child>, runner: Runner, remaining: nat, runs: nat, executed: seq<nat>)

  datatype Action =
    | ABeginRun | ADispatch | AReturn | AShutdown
    | ATakeJob(child: nat) | AExecuted(child: nat) | AReport(child: nat) | AExit(child: nat)

  function Size(e: Executor): nat { |e.children| }

  ghost predicate Enabled(e: Executor, a: Action) {
    match a
    case ABeginRun => e.runner.Resting?
    case ADispatch => e.runner.Dispatching? && e.runner.next < |e.slots|
    case AReturn => e.runner.Awaiting? && e.remaining == 0
    case AShutdown => e.runner.Resting?
    case ATakeJob(k) => k < |e.children| && k < |e.slots| && e.children[k].Waiting? && !e.slots[k].stop && e.slots[k].hasJob
    case AExecuted(k) => k < |e.children| && k < |e.executed| && e.children[k].Running?
    case AReport(k) => k < |e.children| && e.children[k].Finished?
    case AExit(k) => k < |e.children| && k < |e.slots| && e.children[k].Waiting? && e.slots[k].stop
  }

  /** `next` has reached the last slot: the runner waits for `remaining` to be zero. */
  function Sent(next: nat, size: nat): Runner { if next == size then Awaiting else Dispatching(next) }

  function Stopped(slots: seq<Slot>): seq<Slot> {
    seq(|slots|, k requires 0 <= k < |slots| => slots[k].(stop := true))
  }

  ghost function Do(e: Executor, a: Action): Executor
    requires Enabled(e, a)
  {
    match a
    case ABeginRun => e.(remaining := |e.slots|, runs := e.runs + 1, runner := Sent(0, |e.slots|))
    case ADispatch =>
      var i := e.runner.next;
      e.(slots := e.slots[i := e.slots[i].(task := e.runs, hasJob := true)], runner := Sent(i + 1, |e.slots|))
    case AReturn => e.(runner := Resting)
    case AShutdown => e.(slots := Stopped(e.slots), runner := Down)
    case ATakeJob(k) => e.(slots := e.slots[k := e.slots[k].(hasJob := false)], children := e.children[k := Running(e.slots[k].task)])
    case AExecuted(k) => e.(children := e.children[k := Finished(e.children[k].task)], executed := e.executed[k := e.executed[k] + 1])
    case AReport(k) => e.(children := e.children[k := Waiting], remaining := if e.remaining > 0 then e.remaining - 1 else 0)
    case AExit(k) => e.(children := e.children[k := Gone])
  }

  /** An executor starts only with two or more models. */
  function Started(size: nat): Executor {
    Executor(seq(size, _ => Slot(false, false, 0)), seq(size, _ => Waiting), Resting, 0, 0, seq(size, _ => 0))
  }

  ghost predicate Executes(e: Executor, run: seq<Action>, f: Executor)
    decreases |run|
  {
    if run == [] then e == f
    else Enabled(e, run[0]) && Executes(Do(e, run[0]), run[1..], f)
  }

  ghost predicate Reachable(size: nat, e: Executor) {
    size >= 2 && exists run :: Executes(Started(size), run, e)
  }

  // ---------------------------------------------------------------------------

  predicate Undispatched(e: Executor, k: nat) { e.runner.Dispatching? && e.runner.next <= k }

  predicate Flagged(e: Executor, k: nat) { k < |e.slots| && e.slots[k].hasJob }

  predicate Busy(e: Executor, k: nat) { k < |e.children| && (e.children[k].Running? || e.children[k].Finished?) }

  predicate Owes(e: Executor, k: nat) { Undispatched(e, k) || Flagged(e, k) || Busy(e, k) }

  ghost function Owing(e: Executor): set<nat> { set k: nat | k < |e.children| && Owes(e, k) }

  predicate InRun(e: Executor) { e.runner.Dispatching? || e.runner.Awaiting? }

  ghost predicate ChildInv(e: Executor, k: nat) {
    && k < |e.children| == |e.slots| == |e.executed|
    && !(Undispatched(e, k) && Flagged(e, k)) && !(Undispatched(e, k) && Busy(e, k)) && !(Flagged(e, k) && Busy(e, k))
    && (Flagged(e, k) ==> e.slots[k].task == e.runs)
    && (Busy(e, k) ==> e.children[k].task == e.runs)
    && (e.children[k].Gone? ==> e.slots[k].stop)
    && (e.slots[k].stop <==> e.runner.Down?)
    && e.executed[k] + (if Undispatched(e, k) || Flagged(e, k) || e.children[k].Running? then 1 else 0) == e.runs
  }

  ghost predicate Inv(e: Executor) {
    && |e.slots| == |e.children| == |e.executed| >= 2
    && (e.runner.Dispatching? ==> e.runner.next < |e.slots|)
    && (!InRun(e) ==> e.remaining == 0)
    && e.remaining == |Owing(e)|
    && forall k: nat | k < |e.children| :: ChildInv(e, k)
  }

  lemma EachChildStep(e: Executor, a: Action)
    requires Inv(e) && Enabled(e, a)
    requires a.ABeginRun? || a.AShutdown? ==> Owing(e) == {}
    ensures forall k: nat | k < |e.children| :: ChildInv(Do(e, a), k)
  {
    forall k: nat | k < |e.children| ensures ChildInv(Do(e, a), k) {
      assert ChildInv(e, k);
      assert k in Owing(e) <==> Owes(e, k);
    }
  }

  ghost function Below(n: nat): set<nat> {
    if n == 0 then {} else Below(n - 1) + {n - 1}
  }

  lemma {:induction false} BelowIsFull(n: nat)
    ensures |Below(n)| == n
    ensures forall k: nat :: k in Below(n) <==> k < n
  {
    if n > 0 {
      BelowIsFull(n - 1);
    }
  }

  lemma OwingStep(e: Executor, a: Action)
    requires Inv(e) && Enabled(e, a)
    ensures Do(e, a).remaining == |Owing(Do(e, a))|
  {
    var f := Do(e, a);
    match a
    case ABeginRun =>
      BelowIsFull(|e.children|);
      assert Owing(f) == Below(|e.children|);
    case AReport(k) =>
      assert ChildInv(e, k);
      assert k in Owing(e);
      assert Owing(f) == Owing(e) - {k};
    case ADispatch =>
      assert ChildInv(e, e.runner.next);
      assert Owing(f) == Owing(e);
    case AReturn => assert Owing(f) == Owing(e);
    case AShutdown => assert Owing(f) == Owing(e);
    case ATakeJob(k) =>
      assert ChildInv(e, k);
      assert Owing(f) == Owing(e);
    case AExecuted(k) => assert Owing(f) == Owing(e);
    case AExit(k) => assert Owing(f) == Owing(e);
  }

  lemma StepKeeps(e: Executor, a: Action)
    requires Inv(e) && Enabled(e, a)
    ensures Inv(Do(e, a))
  {
    EachChildStep(e, a);
    OwingStep(e, a);
    if a.AReport? {
      assert a.child in Owing(e);
    }
  }

  lemma {:induction false} RunKeeps(e: Executor, run: seq<Action>, f: Executor)
    requires Inv(e) && Executes(e, run, f)
    ensures Inv(f) && Size(f) == Size(e)
    decreases |run|
  {
    if run != [] {
      StepKeeps(e, run[0]);
      RunKeeps(Do(e, run[0]), run[1..], f);
    }
  }

  /** `remaining_` is the number of children still to be dispatched, flagged, or at work. */
  lemma RemainingCountsTheOwing(size: nat, e: Executor)
    requires Reachable(size, e)
    ensures |e.children| == size && e.remaining == |Owing(e)|
  {
    var run :| Executes(Started(size), run, e);
    RunKeeps(Started(size), run, e);
  }

  /** When `run` returns, every child has executed every task so far exactly once and none holds one. */
  lemma ReturnMeansAllDone(size: nat, e: Executor, k: nat)
    requires Reachable(size, e) && Enabled(e, AReturn) && k < size
    ensures |e.children| == |e.slots| == |e.executed| == size
    ensures e.executed[k] == e.runs && e.children[k].Waiting? && !e.slots[k].hasJob
  {
    var run :| Executes(Started(size), run, e);
    RunKeeps(Started(size), run, e);
    assert ChildInv(e, k);
    assert k !in Owing(e);
  }

  /** A child only ever works on the task of the current run, at most once, and never after the shutdown. */
  lemma ChildrenWorkOnTheCurrentTask(size: nat, e: Executor, k: nat)
    requires Reachable(size, e) && k < size
    ensures |e.children| == |e.slots| == |e.executed| == size
    ensures e.children[k].Running? ==> InRun(e) && e.children[k].task == e.runs && e.executed[k] == e.runs - 1
    ensures e.runner.Down? ==> e.slots[k].stop && !e.slots[k].hasJob && (e.children[k].Waiting? || e.children[k].Gone?)
  {
    var run :| Executes(Started(size), run, e);
    RunKeeps(Started(size), run, e);
    assert ChildInv(e, k);
    assert k in Owing(e) <==> Owes(e, k);
  }

  // ---------------------------------------------------------------------------
  // The object and its sections.

  class ParallelCompositeExecutor {
    var slots: seq<Slot>
    var remaining: nat
    ghost var children: seq<Child>
    ghost var runner: Runner
    ghost var runs: nat
    ghost var executed: seq<nat>

    ghost function Value(): Executor
      reads this
    {
      Executor(slots, children, runner, remaining, runs, executed)
    }

    constructor (count: nat)
      ensures Value() == Started(count)
    {
      slots := seq(count, _ => Slot(false, false, 0));
      remaining := 0;
      children, runner, runs, executed := seq(count, _ => Waiting), Resting, 0, seq(count, _ => 0);
    }

    method BeginRun()
      requires Enabled(Value(), ABeginRun)
      modifies this
      ensures Value() == Do(old(Value()), ABeginRun)
    {
      remaining := |slots|;
      runs, runner := runs + 1, Sent(0, |slots|);
    }

    method Dispatch(i: nat, task: nat)
      requires Enabled(Value(), ADispatch) && i == runner.next && task == runs
      modifies this
      ensures Value() == Do(old(Value()), ADispatch)
    {
      slots := slots[i := slots[i].(task := task, hasJob := true)];
      runner := Sent(i + 1, |slots|);
    }

    /** The wait predicate of `run`. */
    method MayReturn() returns (done: bool)
      ensures runner.Awaiting? ==> done == Enabled(Value(), AReturn)
    {
      return remaining == 0;
    }

    /** The child's wait has ended: stop, or a task and a lowered flag. */
    method WakeChild(k: nat) returns (stop: bool, task: nat)
      requires Inv(Value()) && k < |slots| && children[k].Waiting? && (slots[k].stop || slots[k].hasJob)
      modifies this
      ensures stop == old(slots[k].stop)
      ensures Value() == if stop then Do(old(Value()), AExit(k)) else Do(old(Value()), ATakeJob(k))
      ensures !stop ==> children[k] == Running(task)
    {
      stop, task := slots[k].stop, slots[k].task;
      if stop {
        children := children[k := Gone];
      } else {
        slots := slots[k := slots[k].(hasJob := false)];
        children := children[k := Running(task)];
      }
    }

    method ReportDone(k: nat) returns (last: bool)
      requires Inv(Value()) && Enabled(Value(), AReport(k))
      modifies this
      ensures Value() == Do(old(Value()), AReport(k)) && last == (remaining == 0)
    {
      if remaining > 0 {
        remaining := remaining - 1;
      }
      children := children[k := Waiting];
      return remaining == 0;
    }

    method Shutdown()
      requires Enabled(Value(), AShutdown)
      modifies this
      ensures Value() == Do(old(Value()), AShutdown)
    {
      ghost var before := slots;
      for k := 0 to |slots|
        invariant |slots| == |before|
        invariant forall j | 0 <= j < |slots| :: slots[j] == if j < k then before[j].(stop := true) else before[j]
        modifies `slots
      {
        slots := slots[k := slots[k].(stop := true)];
      }
      assert slots == Stopped(before);
      runner := Down;
    }
  }
}
