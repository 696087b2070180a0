/**
 * One channel's task queue, its workers, and the result slot with its separate wake-up flag
 * (engine/src/inference/inference_engine.cpp, inference_executor.cpp). A step is one section
 * under the queue's, the slot's or the flag's mutex; a reload runs in steps of its own.
 *
 * `accepted`, `gone` and `takes` record what happened; the program does not keep them.
 */
module ResultSlot {
  datatype Task = Task(number: nat, frame: nat)
  datatype Fate = Taken | Displaced | Cleared
  datatype Exit = Exit(task: Task, fate: Fate)
  datatype Worker = Idle | Holding(task: Task) | Ready(task: Task) | Wrote | Gone

  datatype State = State(
    queue: seq<Task>, limit: nat, stop: bool, workers: seq<Worker>,
    result: Task, latest: nat, hasNew: bool, pending: bool, woken: bool,
    accepted: seq<Task>, gone: seq<Exit>, takes: seq<Task>)

  datatype Action =
    | AEnqueue(task: Task) | ALimit(limit: nat)
    | APop(worker: nat) | ADrop(worker: nat) | AInfer(worker: nat) | AWrite(worker: nat) | ASignal(worker: nat) | AExit(worker: nat)
    | AWait | ATake
    | AReloadStop | AReloadClear | AReloadForget | AReloadRestart(started: seq<bool>)

  function Depth(limit: nat): nat { if limit < 1 then 1 else limit }

  /** How many of the oldest tasks make way for one more. */
  function Surplus(queue: seq<Task>, limit: nat): nat {
    if |queue| >= Depth(limit) then |queue| - Depth(limit) + 1 else 0
  }

  function Left(tasks: seq<Task>, fate: Fate): seq<Exit> {
    seq(|tasks|, i requires 0 <= i < |tasks| => Exit(tasks[i], fate))
  }

  predicate AllGone(workers: seq<Worker>) { forall w | 0 <= w < |workers| :: workers[w].Gone? }

  /** Frame numbers come from one producer and rise. A reload holds the lock that keeps new tasks out. */
  ghost predicate Enabled(s: State, a: Action) {
    match a
    case AEnqueue(t) => !s.stop && (s.accepted != [] ==> s.accepted[|s.accepted| - 1].number < t.number)
    case ALimit(_) => true
    case APop(w) => w < |s.workers| && s.workers[w].Idle? && s.queue != []
    case ADrop(w) => w < |s.workers| && s.workers[w].Holding?
    case AInfer(w) => w < |s.workers| && s.workers[w].Holding?
    case AWrite(w) => w < |s.workers| && s.workers[w].Ready?
    case ASignal(w) => w < |s.workers| && s.workers[w].Wrote?
    case AExit(w) => w < |s.workers| && s.workers[w].Idle? && s.stop
    case AWait => !s.woken && s.pending
    case ATake => s.woken
    case AReloadStop => !s.stop
    case AReloadClear => s.stop && AllGone(s.workers)
    case AReloadForget => s.stop && AllGone(s.workers)
    case AReloadRestart(started) => s.stop && AllGone(s.workers) && |started| == |s.workers|
  }

  function Enqueue(s: State, t: Task): State {
    var n := Surplus(s.queue, s.limit);
    s.(queue := s.queue[n..] + [t], accepted := s.accepted + [t], gone := s.gone + Left(s.queue[..n], Displaced))
  }

  function Write(s: State, w: nat): State
    requires w < |s.workers| && s.workers[w].Ready?
  {
    var t := s.workers[w].task;
    if t.number > s.latest then s.(result := t, latest := t.number, hasNew := true, workers := s.workers[w := Wrote])
    else s.(workers := s.workers[w := Idle])
  }

  function Take(s: State): State {
    if s.hasNew then s.(woken := false, hasNew := false, takes := s.takes + [s.result]) else s.(woken := false)
  }

  function Restarted(started: seq<bool>): seq<Worker> {
    seq(|started|, w requires 0 <= w < |started| => if started[w] then Idle else Gone)
  }

  ghost function Do(s: State, a: Action): State
    requires Enabled(s, a)
  {
    match a
    case AEnqueue(t) => Enqueue(s, t)
    case ALimit(limit) => s.(limit := limit)
    case APop(w) => s.(queue := s.queue[1..], gone := s.gone + [Exit(s.queue[0], Taken)], workers := s.workers[w := Holding(s.queue[0])])
    case ADrop(w) => s.(workers := s.workers[w := if s.stop then Gone else Idle])
    case AInfer(w) => s.(workers := s.workers[w := Ready(s.workers[w].task)])
    case AWrite(w) => Write(s, w)
    case ASignal(w) => s.(workers := s.workers[w := Idle], pending := true)
    case AExit(w) => s.(workers := s.workers[w := Gone])
    case AWait => s.(pending := false, woken := true)
    case ATake => Take(s)
    case AReloadStop => s.(stop := true)
    case AReloadClear => s.(queue := [], gone := s.gone + Left(s.queue, Cleared))
    case AReloadForget => s.(hasNew := false)
    case AReloadRestart(started) => s.(stop := false, workers := Restarted(started))
  }

  function Fresh(workers: nat, limit: nat): State {
    State([], limit, false, seq(workers, _ => Idle), Task(0, 0), 0, false, false, false, [], [], [])
  }

  ghost predicate Executes(s: State, run: seq<Action>, t: State)
    decreases |run|
  {
    if run == [] then s == t
    else Enabled(s, run[0]) && Executes(Do(s, run[0]), run[1..], t)
  }

  ghost predicate Reachable(workers: nat, limit: nat, s: State) {
    exists run :: Executes(Fresh(workers, limit), run, s)
  }

  // ---------------------------------------------------------------------------

  function Tasks(gone: seq<Exit>): seq<Task> {
    seq(|gone|, i requires 0 <= i < |gone| => gone[i].task)
  }

  ghost predicate Rising(tasks: seq<Task>) {
    forall i, j | 0 <= i < j < |tasks| :: tasks[i].number < tasks[j].number
  }

  /** Tasks leave in the order they came, by one of three doors. */
  ghost predicate QueueInv(s: State) {
    s.accepted == Tasks(s.gone) + s.queue && Rising(s.accepted)
  }

  ghost predicate SomeoneWrote(workers: seq<Worker>) { exists w | 0 <= w < |workers| :: workers[w].Wrote? }

  /** A new result has been announced, is about to be announced, or is about to be taken. */
  ghost predicate WakeInv(s: State) {
    s.hasNew ==> s.pending || s.woken || SomeoneWrote(s.workers)
  }

  ghost predicate OrderInv(s: State) {
    && Rising(s.takes)
    && (s.takes != [] ==> s.takes[|s.takes| - 1].number <= s.latest)
    && (s.hasNew ==> s.result.number == s.latest && (s.takes != [] ==> s.takes[|s.takes| - 1].number < s.latest))
  }

  /** Every result belongs to a task that was accepted and that a worker took. */
  ghost predicate OriginInv(s: State) {
    && (s.hasNew ==> Exit(s.result, Taken) in s.gone)
    && (forall i | 0 <= i < |s.takes| :: Exit(s.takes[i], Taken) in s.gone)
    && (forall w | 0 <= w < |s.workers| :: HasOrigin(s, s.workers[w]))
  }

  ghost predicate HasOrigin(s: State, worker: Worker) {
    worker.Holding? || worker.Ready? ==> Exit(worker.task, Taken) in s.gone
  }

  ghost predicate Inv(s: State) { QueueInv(s) && WakeInv(s) && OrderInv(s) && OriginInv(s) }

  lemma LeftTasks(tasks: seq<Task>, fate: Fate)
    ensures Tasks(Left(tasks, fate)) == tasks
  {
  }

  lemma TasksAppend(a: seq<Exit>, b: seq<Exit>)
    ensures Tasks(a + b) == Tasks(a) + Tasks(b)
  {
  }

  lemma OldestLeave(gone: seq<Exit>, queue: seq<Task>, n: nat, t: Task)
    requires n <= |queue|
    ensures Tasks(gone + Left(queue[..n], Displaced)) + (queue[n..] + [t]) == (Tasks(gone) + queue) + [t]
  {
    LeftTasks(queue[..n], Displaced);
    TasksAppend(gone, Left(queue[..n], Displaced));
    assert queue == queue[..n] + queue[n..];
  }

  lemma EnqueueKeepsQueue(s: State, t: Task)
    requires QueueInv(s) && Enabled(s, AEnqueue(t))
    ensures QueueInv(Enqueue(s, t))
  {
    OldestLeave(s.gone, s.queue, Surplus(s.queue, s.limit), t);
  }

  lemma QueueStep(s: State, a: Action)
    requires QueueInv(s) && Enabled(s, a)
    ensures QueueInv(Do(s, a))
  {
    match a
    case AEnqueue(t) => EnqueueKeepsQueue(s, t);
    case APop(w) =>
      TasksAppend(s.gone, [Exit(s.queue[0], Taken)]);
      assert Tasks([Exit(s.queue[0], Taken)]) == [s.queue[0]];
      assert Tasks(Do(s, a).gone) + Do(s, a).queue == Tasks(s.gone) + s.queue;
    case AReloadClear =>
      LeftTasks(s.queue, Cleared);
      TasksAppend(s.gone, Left(s.queue, Cleared));
    case _ =>
  }

  lemma WakeStep(s: State, a: Action)
    requires WakeInv(s) && Enabled(s, a)
    ensures WakeInv(Do(s, a))
  {
    var t := Do(s, a);
    if a.AWrite? && t.hasNew && !s.hasNew {
      assert t.workers[a.worker].Wrote?;
    } else if SomeoneWrote(s.workers) && t.hasNew && !t.pending && !t.woken {
      var w :| 0 <= w < |s.workers| && s.workers[w].Wrote?;
      if a.AWrite? && a.worker == w {
      } else {
        assert t.workers[w].Wrote?;
      }
    }
  }

  lemma OrderStep(s: State, a: Action)
    requires OrderInv(s) && Enabled(s, a)
    ensures OrderInv(Do(s, a))
  {
    if a.ATake? && s.hasNew {
    }
  }

  lemma OriginStep(s: State, a: Action)
    requires OriginInv(s) && Enabled(s, a)
    ensures OriginInv(Do(s, a))
  {
    var t := Do(s, a);
    assert s.gone <= t.gone;
    forall e | e in s.gone ensures e in t.gone {}
    forall w | 0 <= w < |t.workers| ensures HasOrigin(t, t.workers[w]) {
      if w < |s.workers| {
        assert HasOrigin(s, s.workers[w]);
      }
      if a.APop? {
        assert t.gone[|s.gone|] == Exit(s.queue[0], Taken);
      }
    }
  }

  lemma StepKeeps(s: State, a: Action)
    requires Inv(s) && Enabled(s, a)
    ensures Inv(Do(s, a))
  {
    QueueStep(s, a);
    WakeStep(s, a);
    OrderStep(s, a);
    OriginStep(s, a);
  }

  lemma {:induction false} RunKeeps(s: State, run: seq<Action>, t: State)
    requires Inv(s) && Executes(s, run, t)
    ensures Inv(t)
    decreases |run|
  {
    if run != [] {
      StepKeeps(s, run[0]);
      RunKeeps(Do(s, run[0]), run[1..], t);
    }
  }

  lemma ReachableInv(workers: nat, limit: nat, s: State)
    requires Reachable(workers, limit, s)
    ensures Inv(s)
  {
    var run :| Executes(Fresh(workers, limit), run, s);
    RunKeeps(Fresh(workers, limit), run, s);
  }

  // ---------------------------------------------------------------------------
  // The claims.

  /** Results are taken in strictly rising order, whatever the workers' order and across reloads. */
  lemma TakesRise(workers: nat, limit: nat, s: State)
    requires Reachable(workers, limit, s)
    ensures Rising(s.takes)
    ensures forall i | 0 <= i < |s.takes| :: s.takes[i] in s.accepted
  {
    ReachableInv(workers, limit, s);
    forall i | 0 <= i < |s.takes| ensures s.takes[i] in s.accepted {
      var k :| 0 <= k < |s.gone| && s.gone[k] == Exit(s.takes[i], Taken);
      assert Tasks(s.gone)[k] == s.takes[i];
    }
  }

  function Count(gone: seq<Exit>, fate: Fate): nat {
    if gone == [] then 0 else Count(gone[..|gone| - 1], fate) + (if gone[|gone| - 1].fate == fate then 1 else 0)
  }

  lemma {:induction false} ThreeDoors(gone: seq<Exit>)
    ensures |gone| == Count(gone, Taken) + Count(gone, Displaced) + Count(gone, Cleared)
    decreases |gone|
  {
    if gone != [] {
      ThreeDoors(gone[..|gone| - 1]);
    }
  }

  /** Accepted tasks are those workers took, those displaced, those a reload cleared and those waiting, in that order of arrival. */
  lemma TasksAreConserved(workers: nat, limit: nat, s: State)
    requires Reachable(workers, limit, s)
    ensures s.accepted == Tasks(s.gone) + s.queue
    ensures |s.accepted| == Count(s.gone, Taken) + Count(s.gone, Displaced) + Count(s.gone, Cleared) + |s.queue|
  {
    ReachableInv(workers, limit, s);
    ThreeDoors(s.gone);
  }

  lemma LaterStays(queue: seq<Task>, n: nat, i: nat)
    requires n <= |queue| && i < |queue|
    ensures i >= n ==> queue[i] in queue[n..]
  {
    if i >= n {
      assert queue[n..][i - n] == queue[i];
    }
  }

  /** After a frame is queued it is the last in line, within the depth, and what made way was oldest. */
  lemma NewestIsKept(workers: nat, limit: nat, s: State, t: Task)
    requires Reachable(workers, limit, s) && Enabled(s, AEnqueue(t))
    ensures var q := Do(s, AEnqueue(t)).queue;
            && |q| == (if |s.queue| < s.limit then |s.queue| + 1 else if s.limit < 1 then 1 else s.limit)
            && q[|q| - 1] == t
            && forall x, y | x in s.queue && x !in q && y in q :: x.number < y.number
  {
    ReachableInv(workers, limit, s);
    var n := Surplus(s.queue, s.limit);
    var q := Do(s, AEnqueue(t)).queue;
    var base := |s.gone|;
    forall x, y | x in s.queue && x !in q && y in q ensures x.number < y.number {
      var i :| 0 <= i < |s.queue| && s.queue[i] == x;
      assert s.accepted[base + i] == x;
      LaterStays(s.queue, n, i);
      var j :| 0 <= j < |q| && q[j] == y;
      if j < |q| - 1 {
        assert s.accepted[base + n + j] == y;
      }
    }
  }

  /** A result is written exactly if its frame is later than all written before, and is then new. */
  lemma LaterResultIsWritten(s: State, w: nat)
    requires Enabled(s, AWrite(w))
    ensures var t, u := s.workers[w].task, Do(s, AWrite(w));
            if t.number > s.latest then u.result == t && u.latest == t.number && u.hasNew && u.workers[w].Wrote?
            else u.result == s.result && u.latest == s.latest && u.hasNew == s.hasNew && u.workers[w].Idle?
  {
  }

  /** A result is never stranded: announcing, waking and taking it are the only steps that stand before its delivery. */
  lemma ResultIsWithinReach(workers: nat, limit: nat, s: State) returns (run: seq<Action>, t: State)
    requires Reachable(workers, limit, s) && s.hasNew
    ensures |run| <= 3 && forall i | 0 <= i < |run| :: run[i].ASignal? || run[i].AWait? || run[i].ATake?
    ensures Executes(s, run, t) && t.takes == s.takes + [s.result]
  {
    ReachableInv(workers, limit, s);
    if s.woken {
      run, t := Deliver(s);
    } else if s.pending {
      run, t := Deliver(Do(s, AWait));
      run := PrependRun(s, AWait, run, t);
    } else {
      var w :| 0 <= w < |s.workers| && s.workers[w].Wrote?;
      var u := Do(s, ASignal(w));
      run, t := Deliver(Do(u, AWait));
      run := PrependRun(u, AWait, run, t);
      run := PrependRun(s, ASignal(w), run, t);
    }
  }

  lemma Deliver(s: State) returns (run: seq<Action>, t: State)
    requires s.woken && s.hasNew
    ensures run == [ATake] && Executes(s, run, t) && t.takes == s.takes + [s.result]
  {
    run, t := [ATake], Do(s, ATake);
    assert run[1..] == [];
  }

  lemma PrependRun(s: State, a: Action, rest: seq<Action>, t: State) returns (run: seq<Action>)
    requires Enabled(s, a) && Executes(Do(s, a), rest, t)
    ensures run == [a] + rest && Executes(s, run, t)
  {
    run := [a] + rest;
    assert run[1..] == rest;
  }

  /** With every thread at rest nothing waits to be taken. */
  lemma QuietMeansDelivered(workers: nat, limit: nat, s: State)
    requires Reachable(workers, limit, s) && !s.pending && !s.woken
    requires forall w | 0 <= w < |s.workers| :: s.workers[w].Idle? || s.workers[w].Gone?
    ensures !s.hasNew
  {
    ReachableInv(workers, limit, s);
  }
}
