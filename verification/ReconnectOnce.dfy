/**
 * Every frame takes one path, once: from its number to its publication it is in one place at a time
 * (engine/src/pipeline/channel_pipeline.cpp, result_dispatch.cpp, traditional_logic_worker.cpp).
 */
module ReconnectOnce {
  import opened ReconnectBarrier

  predicate AtProducer(p: Producer, n: nat) {
    match p
    case Numbered(f, _) => f.number == n
    case Tagged(t) => t.frame.number == n
    case _ => false
  }

  ghost predicate AtNpu(npu: set<Frame>, n: nat) { exists f | f in npu :: f.number == n }

  predicate AtResult(result: Option<Frame>, n: nat) { result.Some? && result.value.number == n }
  predicate AtDispatcher(d: Dispatcher, n: nat) { !d.Waiting? && d.frame.number == n }
  predicate AtSlot(slot: Option<Task>, n: nat) { slot.Some? && slot.value.frame.number == n }
  predicate AtLogic(l: Logic, n: nat) { !l.Resting? && l.task.frame.number == n }

  predicate Shows(p: Publication, n: nat) { p.frame.Some? && p.frame.value.number == n }

  ghost predicate InLog(log: seq<Publication>, n: nat) { exists k | 0 <= k < |log| :: Shows(log[k], n) }

  function Tally(b: bool): nat { if b then 1 else 0 }

  /** In how many places the frame of this number is. */
  ghost function Copies(s: State, n: nat): nat {
    Tally(AtProducer(s.producer, n)) + Tally(AtNpu(s.npu, n)) + Tally(AtResult(s.result, n)) + Tally(AtDispatcher(s.dispatcher, n))
    + Tally(AtSlot(s.slot, n)) + Tally(AtLogic(s.logic, n)) + Tally(InLog(s.log, n))
  }

  ghost predicate OneEach(npu: set<Frame>) { forall f, g | f in npu && g in npu && f.number == g.number :: f == g }

  ghost predicate LoggedOnce(log: seq<Publication>) {
    forall j, k, n | 0 <= j < k < |log| && Shows(log[j], n) :: !Shows(log[k], n)
  }

  ghost predicate Once(s: State) {
    && s.configs != [] && OneEach(s.npu) && LoggedOnce(s.log)
    && (forall n :: Copies(s, n) <= 1)
    && (forall n | n > s.channel.inputSeq :: Copies(s, n) == 0)
  }

  lemma InLogAppend(log: seq<Publication>, p: Publication, n: nat)
    ensures InLog(log + [p], n) <==> InLog(log, n) || Shows(p, n)
  {
    assert (log + [p])[|log|] == p;
    if k :| 0 <= k < |log| && Shows(log[k], n) {
      assert Shows((log + [p])[k], n);
    }
  }

  /** Only a new number puts a frame anywhere; every other step moves frames on, or loses them. */
  lemma CopiesStep(s: State, a: Action, n: nat)
    requires Once(s) && Enabled(s, a)
    ensures Copies(Do(s, a), n) <= if a.ANumber? && n == s.channel.inputSeq + 1 then 1 else Copies(s, n)
  {
    assert Copies(s, s.channel.inputSeq + 1) == 0;
    hide Once;
    hide InLog, AtNpu, OneEach;
    NpuStep(s, a, n);
    LogStep(s, a, n);
  }

  /** The frame a step publishes. */
  predicate Commits(s: State, a: Action, n: nat) {
    (a.ACommitResult? && AtDispatcher(s.dispatcher, n)) || (a.ACommitTask? && AtLogic(s.logic, n))
  }

  lemma LogStep(s: State, a: Action, n: nat)
    requires s.configs != [] && Enabled(s, a)
    ensures InLog(Do(s, a).log, n) <==> InLog(s.log, n) || Commits(s, a, n)
  {
    var t := Do(s, a);
    if t.log != s.log {
      var p := t.log[|s.log|];
      assert t.log == s.log + [p];
      InLogAppend(s.log, p, n);
    }
  }

  lemma NpuStep(s: State, a: Action, n: nat)
    requires s.configs != [] && OneEach(s.npu) && Enabled(s, a)
    ensures AtNpu(Do(s, a).npu, n) <==>
              if a.AInferred? || a.ALose? then AtNpu(s.npu, n) && n != a.frame.number
              else AtNpu(s.npu, n) || (a.ASend? && s.producer.infer && n == s.producer.frame.number)
    ensures a.AInferred? || a.ALose? ==> AtNpu(s.npu, a.frame.number)
  {
  }

  lemma OnceStep(s: State, a: Action)
    requires Once(s) && Enabled(s, a)
    ensures Once(Do(s, a))
  {
    var t := Do(s, a);
    forall n: nat ensures Copies(t, n) <= 1 && (n > t.channel.inputSeq ==> Copies(t, n) == 0) {
      CopiesStep(s, a, n);
      assert t.channel.inputSeq >= s.channel.inputSeq;
    }
    NpuStaysSingle(s, a);
    LogStaysSingle(s, a);
  }

  lemma NpuStaysSingle(s: State, a: Action)
    requires Once(s) && Enabled(s, a)
    ensures OneEach(Do(s, a).npu)
  {
    if a.ASend? && s.producer.infer {
      assert Copies(s, s.producer.frame.number) <= 1;
      assert !AtNpu(s.npu, s.producer.frame.number);
    }
  }

  lemma NotLoggedYet(log: seq<Publication>, p: Publication, n: nat)
    requires LoggedOnce(log) && Shows(p, n) && !InLog(log, n)
    ensures LoggedOnce(log + [p])
  {
  }

  lemma LogStaysSingle(s: State, a: Action)
    requires Once(s) && Enabled(s, a)
    ensures LoggedOnce(Do(s, a).log)
  {
    var t := Do(s, a);
    if t.log != s.log {
      var p := t.log[|s.log|];
      assert t.log == s.log + [p];
      if p.frame.Some? {
        var n := p.frame.value.number;
        assert Commits(s, a, n) && Copies(s, n) <= 1;
        NotLoggedYet(s.log, p, n);
      }
    }
  }

  lemma {:induction false} OnceRun(s: State, run: seq<Action>, t: State)
    requires Once(s) && Executes(s, run, t)
    ensures Once(t)
    decreases |run|
  {
    if run != [] {
      OnceStep(s, run[0]);
      OnceRun(Do(s, run[0]), run[1..], t);
    }
  }

  /** In every reachable state a frame is in one place at most: on one of the two paths, or published. */
  lemma FrameIsInOnePlace(start: nat, config: Config, s: State, n: nat)
    requires Reachable(start, config, s)
    ensures Copies(s, n) <= 1
  {
    var run :| Executes(Fresh(start, config), run, s);
    OnceRun(Fresh(start, config), run, s);
  }

  /** No frame is published twice, through whatever transitions and switches between the paths. */
  lemma PublishedOnce(start: nat, config: Config, s: State, j: nat, k: nat)
    requires Reachable(start, config, s) && j < k < |s.log| && s.log[j].frame.Some? && s.log[k].frame.Some?
    ensures s.log[j].frame.value.number != s.log[k].frame.value.number
  {
    var run :| Executes(Fresh(start, config), run, s);
    OnceRun(Fresh(start, config), run, s);
    assert Shows(s.log[j], s.log[j].frame.value.number);
  }
}
