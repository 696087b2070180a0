/**
 * Hot reload of one channel's models (engine/src/inference/inference_engine.cpp). Loading a
 * model and creating a thread may fail; both come as functions of what is being attempted.
 */
module HotReload {
  import opened WorkerLayout

  datatype Built = Built(child: nat) | Unsupported | Throws
  datatype ModelSpec = ModelSpec(obj: real, nms: real, classes: set<int>)
  datatype Config = Config(inferEnable: bool, threads: int, active: seq<ModelSpec>)

  /** The outcome of loading model `index` for worker `t`. */
  type Loader = (nat, nat) -> Built

  /** Whether the thread of a slot can be created, in the first attempt and when restoring. */
  type Starter = (bool, nat) -> bool

  function Wanted(cfg: Config): int { if cfg.threads > 0 then cfg.threads else 1 }

  predicate Infers(cfg: Config) { cfg.inferEnable && cfg.active != [] }

  ghost predicate AllBuilt(cfg: Config, load: Loader, workers: nat) {
    forall t: nat, k: nat | t < workers && k < |cfg.active| :: load(t, k).Built?
  }

  ghost predicate AllStart(start: Starter, restoring: bool, lo: nat, hi: nat) {
    forall w: nat | lo <= w < hi :: start(restoring, w)
  }

  ghost function Children(cfg: Config, load: Loader, t: nat, k: nat): seq<nat>
    requires forall j: nat | j < k :: load(t, j).Built?
  {
    if k == 0 then [] else Children(cfg, load, t, k - 1) + [load(t, k - 1).child]
  }

  /** The models a successful load yields: one for each worker. */
  ghost function Loaded(cfg: Config, load: Loader, workers: nat): seq<Option<ModelRef>>
    requires cfg.active != [] && AllBuilt(cfg, load, workers)
  {
    seq(workers, t requires 0 <= t < workers =>
      if |cfg.active| > 1 then Some(Group(Children(cfg, load, t, |cfg.active|))) else Some(Single(load(t, 0).child)))
  }

  function NewObj(cfg: Config): real
    requires cfg.active != []
  {
    if |cfg.active| > 1 then 0.0 else cfg.active[0].obj
  }

  function NewNms(cfg: Config): real
    requires cfg.active != []
  {
    if |cfg.active| > 1 then 1.0 else cfg.active[0].nms
  }

  function NewClasses(cfg: Config): set<int>
    requires cfg.active != []
  {
    if |cfg.active| > 1 then {} else cfg.active[0].classes
  }

  /** Every started slot runs the thread planned for it. */
  ghost predicate AsPlanned(plan: seq<Thread>, threads: seq<Thread>, started: seq<bool>) {
    |threads| == |started| == |plan| && forall w | 0 <= w < |started| :: started[w] ==> threads[w] == plan[w]
  }

  ghost predicate AllIn(started: seq<bool>, lo: nat, hi: nat, value: bool) {
    hi <= |started| && forall w | lo <= w < hi :: started[w] == value
  }

  class InferenceRuntime {
    var running: bool
    var models: Rows
    var obj: seq<real>
    var nms: seq<real>
    var classes: seq<set<int>>
    var queues: seq<seq<nat>>
    var threads: seq<Thread>
    var started: seq<bool>
    var reloadStop: seq<bool>

    ghost predicate Shaped()
      reads this
    {
      && |obj| == |nms| == |classes| == |reloadStop| == |models|
      && |queues| == Rank(models, |models|)
    }

    ghost predicate Valid()
      reads this
    {
      Shaped() && AsPlanned(Plan(models, |models|), threads, started)
    }

    /** The end of `inference_init`: a queue for each channel with models, a worker for each model. */
    constructor (rows: Rows, objThresh: seq<real>, nmsThresh: seq<real>, detect: seq<set<int>>, start: nat -> bool)
      requires |objThresh| == |nmsThresh| == |detect| == |rows|
      ensures Valid() && running && models == rows && |started| == Total(rows, |rows|)
      ensures forall w | 0 <= w < |started| :: started[w] == start(w)
    {
      running, models, obj, nms, classes := true, rows, objThresh, nmsThresh, detect;
      reloadStop := seq(|rows|, _ => false);
      queues, threads, started := [], [], [];
      new;
      for i := 0 to |rows|
        invariant |queues| == Rank(rows, i)
        modifies `queues
      {
        if rows[i] != [] {
          queues := queues + [[]];
        }
      }
      var q := 0;
      for i := 0 to |rows|
        invariant q == Rank(rows, i) && threads == Plan(rows, i) && |started| == |threads|
        invariant forall w | 0 <= w < |started| :: started[w] == start(w)
        modifies `threads, `started
      {
        if rows[i] != [] {
          CreateRow(rows, i, q, start);
          q := q + 1;
        }
      }
    }

    method CreateRow(rows: Rows, i: nat, q: nat, start: nat -> bool)
      requires i < |rows| && q == Rank(rows, i) && threads == Plan(rows, i) && |started| == |threads|
      requires forall w | 0 <= w < |started| :: started[w] == start(w)
      modifies `threads, `started
      ensures threads == Plan(rows, i + 1) && |started| == |threads|
      ensures forall w | 0 <= w < |started| :: started[w] == start(w)
    {
      for m := 0 to |rows[i]|
        invariant threads == Plan(rows, i) + RowPlan(rows, i)[..m] && |started| == |threads|
        invariant forall w | 0 <= w < |started| :: started[w] == start(w)
      {
        started := started + [start(|threads|)];
        threads := threads + [Thread(i, q, rows[i][m])];
      }
    }

    /** Join the started workers in a range of slots. */
    method JoinWorkers(lo: nat, hi: nat)
      requires Valid() && lo <= hi <= |started|
      modifies `started
      ensures Valid() && SameOutside(started, old(started), lo, hi) && AllIn(started, lo, hi, false)
    {
      for w := lo to hi
        invariant Valid() && SameOutside(started, old(started), lo, w) && AllIn(started, lo, w, false)
      {
        if started[w] {
          started := started[w := false];
        }
      }
    }

    /** Install models and create the channel's workers. */
    method RestartWorkers(chn: nat, row: seq<Option<ModelRef>>, lo: nat, hi: nat, queue: nat, restoring: bool, start: Starter)
      returns (all: bool)
      requires Valid() && chn < |models| && |row| == |models[chn]|
      requires lo == Total(models, chn) && hi == lo + |row| && queue == Rank(models, chn) && hi <= |started|
      requires AllIn(started, lo, hi, false)
      modifies `models, `reloadStop, `threads, `started
      ensures Valid() && models == old(models)[chn := row] && reloadStop == old(reloadStop)[chn := false]
      ensures lo == Total(models, chn) && queue == Rank(models, chn)
      ensures SameOutside(started, old(started), lo, hi) && SameOutside(threads, old(threads), lo, hi)
      ensures all <==> AllStart(start, restoring, lo, hi)
      ensures all ==> AllIn(started, lo, hi, true)
    {
      PlanAfter(models, chn, row);
      LayoutAfter(models, chn, row);
      models := models[chn := row];
      reloadStop := reloadStop[chn := false];
      all := CreateWorkers(chn, row, lo, queue, restoring, start, Plan(models, |models|));
    }

    /** One thread for each slot, each with its own model. */
    method CreateWorkers(chn: nat, row: seq<Option<ModelRef>>, lo: nat, queue: nat, restoring: bool, start: Starter, ghost plan: seq<Thread>)
      returns (all: bool)
      requires AsPlanned(plan, threads, started) && lo + |row| <= |plan|
      requires forall w | lo <= w < lo + |row| :: plan[w] == Thread(chn, queue, row[w - lo])
      modifies `threads, `started
      ensures AsPlanned(plan, threads, started)
      ensures SameOutside(started, old(started), lo, lo + |row|) && SameOutside(threads, old(threads), lo, lo + |row|)
      ensures forall w | lo <= w < lo + |row| :: started[w] == start(restoring, w)
      ensures all <==> AllStart(start, restoring, lo, lo + |row|)
    {
      all := true;
      for w := lo to lo + |row|
        invariant AsPlanned(plan, threads, started)
        invariant SameOutside(started, old(started), lo, w) && SameOutside(threads, old(threads), lo, w)
        invariant forall v | lo <= v < w :: started[v] == start(restoring, v)
        invariant all <==> AllStart(start, restoring, lo, w)
      {
        threads := threads[w := Thread(chn, queue, row[w - lo])];
        if start(restoring, w) {
          started := started[w := true];
        } else {
          started := started[w := false];
          all := false;
        }
      }
    }

    /** Put back what the reload found and start the old workers again. */
    method RestoreOldWorkers(chn: nat, row: seq<Option<ModelRef>>, oldObj: real, oldNms: real, oldClasses: set<int>,
                             lo: nat, hi: nat, queue: nat, start: Starter)
      returns (lost: bool)
      requires Valid() && chn < |models| && |row| == |models[chn]|
      requires lo == Total(models, chn) && hi == lo + |row| && queue == Rank(models, chn) && hi <= |started|
      requires AllIn(started, lo, hi, false)
      modifies `models, `obj, `nms, `classes, `reloadStop, `threads, `started
      ensures Valid() && models == old(models)[chn := row] && reloadStop == old(reloadStop)[chn := false]
      ensures obj == old(obj)[chn := oldObj] && nms == old(nms)[chn := oldNms] && classes == old(classes)[chn := oldClasses]
      ensures SameOutside(started, old(started), lo, hi) && SameOutside(threads, old(threads), lo, hi)
      ensures lost <==> !AllStart(start, true, lo, hi)
      ensures !lost ==> AllIn(started, lo, hi, true)
    {
      obj, nms, classes := obj[chn := oldObj], nms[chn := oldNms], classes[chn := oldClasses];
      var all := RestartWorkers(chn, row, lo, hi, queue, true, start);
      lost := !all;
    }

    /** Stop the channel's workers and empty its queue. */
    method StopChannel(chn: nat, lo: nat, hi: nat, queue: nat)
      requires Valid() && chn < |models| && lo <= hi <= |started| && queue < |queues|
      modifies `reloadStop, `started, `queues
      ensures Valid() && SameOutside(started, old(started), lo, hi) && AllIn(started, lo, hi, false)
      ensures reloadStop == old(reloadStop)[chn := true] && queues == old(queues)[queue := []]
    {
      reloadStop := reloadStop[chn := true];
      JoinWorkers(lo, hi);
      while queues[queue] != []
        invariant queue < |queues| && |queues| == |old(queues)| && SameOutside(queues, old(queues), queue, queue + 1)
        modifies `queues
        decreases if queue < |queues| then |queues[queue]| else 0
      {
        queues := queues[queue := queues[queue][1..]];
      }
    }

    /**
     * `inference_reload_channel_model`. `lost` is the report that the restore itself failed.
     */
    method Reload(chn: int, cfg: Config, load: Loader, start: Starter) returns (ok: bool, lost: bool)
      requires Valid()
      modifies this
      ensures Valid() && running == old(running) && SameSizes(models, old(models))
      ensures Refuses(old(running), old(models), chn, cfg) ==>
                !ok && !lost && Value() == old(Value())
      ensures !Refuses(old(running), old(models), chn, cfg) ==>
                Outcome(old(Value()), Value(), chn, cfg, load, start, ok, lost)
    {
      if chn < 0 || chn >= |models| || !running {
        SizesOfSelf(models);
        return false, false;
      }
      var q := QueueIndexOf(models, chn);
      SizesOfSelf(models);
      if q < 0 || q >= |queues| {
        assert models[chn] != [] ==> q < |queues| by { if models[chn] != [] { RankGrows(models, chn, |models|); } }
        return false, false;
      }
      var lo := WorkerStart(models, chn);
      var count := |models[chn]|;
      if Wanted(cfg) != count {
        return false, false;
      }
      ok, lost := ReloadAdmitted(chn, cfg, q, lo, lo + count, load, start);
    }

    ghost function Value(): Engine
      reads this
    {
      Engine(models, obj, nms, classes, queues, threads, started, reloadStop)
    }

    method ReloadAdmitted(chn: nat, cfg: Config, q: nat, lo: nat, hi: nat, load: Loader, start: Starter) returns (ok: bool, lost: bool)
      requires Valid() && running && !Refuses(running, models, chn, cfg)
      requires q == Rank(models, chn) && lo == Total(models, chn) && hi == lo + |models[chn]|
      modifies `models, `obj, `nms, `classes, `queues, `reloadStop, `threads, `started
      ensures Valid() && SameSizes(models, old(models)) && running == old(running)
      ensures Outcome(old(Value()), Value(), chn, cfg, load, start, ok, lost)
    {
      TotalGrows(models, chn, |models|);
      RankGrows(models, chn, |models|);
      SizesOfSelf(models);
      StopChannel(chn, lo, hi, q);
      ok, lost := ReloadStopped(chn, cfg, q, lo, hi, load, start);
    }

    /** The reload once the old workers are gone. */
    method ReloadStopped(chn: nat, cfg: Config, q: nat, lo: nat, hi: nat, load: Loader, start: Starter) returns (ok: bool, lost: bool)
      requires Valid() && chn < |models| && q == Rank(models, chn) && lo == Total(models, chn) && hi == lo + |models[chn]| <= |started|
      requires AllIn(started, lo, hi, false)
      modifies `models, `obj, `nms, `classes, `reloadStop, `threads, `started
      ensures Valid() && reloadStop == old(reloadStop)[chn := false]
      ensures ok <==> (Infers(cfg) ==> AllBuilt(cfg, load, hi - lo)) && AllStart(start, false, lo, hi)
      ensures lost <==> !ok && !AllStart(start, true, lo, hi)
      ensures SameOutside(started, old(started), lo, hi) && SameOutside(threads, old(threads), lo, hi)
      ensures !lost ==> AllIn(started, lo, hi, true)
      ensures !ok ==> models == old(models) && obj == old(obj) && nms == old(nms) && classes == old(classes)
      ensures ok ==> models == old(models)[chn := NewRow(old(models), chn, cfg, load)]
      ensures ok && !Infers(cfg) ==> obj == old(obj) && nms == old(nms) && classes == old(classes)
      ensures ok && Infers(cfg) ==>
                obj == old(obj)[chn := NewObj(cfg)] && nms == old(nms)[chn := NewNms(cfg)] && classes == old(classes)[chn := NewClasses(cfg)]
    {
      var oldModels, oldObj, oldNms, oldClasses := models[chn], obj[chn], nms[chn], classes[chn];
      var row: seq<Option<ModelRef>> := seq(hi - lo, _ => None);
      if Infers(cfg) {
        var built;
        built, row := BuildModels(cfg, load, hi - lo);
        if !built || |row| != hi - lo {
          ok := false;
          lost := RestoreOldWorkers(chn, oldModels, oldObj, oldNms, oldClasses, lo, hi, q, start);
          assert models == old(models) && obj == old(obj) && nms == old(nms) && classes == old(classes);
          return;
        }
        obj, nms, classes := obj[chn := NewObj(cfg)], nms[chn := NewNms(cfg)], classes[chn := NewClasses(cfg)];
      }
      ok, lost := InstallOrRestore(chn, row, oldModels, oldObj, oldNms, oldClasses, lo, hi, q, start);
      if !ok {
        assert obj == old(obj) && nms == old(nms) && classes == old(classes);
      }
    }

    /** Start the new workers; if one does not start, stop the others and go back. */
    method InstallOrRestore(chn: nat, row: seq<Option<ModelRef>>, oldRow: seq<Option<ModelRef>>, oldObj: real, oldNms: real, oldClasses: set<int>,
                            lo: nat, hi: nat, queue: nat, start: Starter)
      returns (ok: bool, lost: bool)
      requires Valid() && chn < |models| && |row| == |models[chn]| && oldRow == models[chn]
      requires lo == Total(models, chn) && hi == lo + |row| && queue == Rank(models, chn) && hi <= |started|
      requires AllIn(started, lo, hi, false)
      modifies `models, `obj, `nms, `classes, `reloadStop, `threads, `started
      ensures Valid() && reloadStop == old(reloadStop)[chn := false]
      ensures ok <==> AllStart(start, false, lo, hi)
      ensures lost <==> !ok && !AllStart(start, true, lo, hi)
      ensures SameOutside(started, old(started), lo, hi) && SameOutside(threads, old(threads), lo, hi)
      ensures !lost ==> AllIn(started, lo, hi, true)
      ensures if ok then models == old(models)[chn := row] && obj == old(obj) && nms == old(nms) && classes == old(classes)
              else models == old(models) && obj == old(obj)[chn := oldObj] && nms == old(nms)[chn := oldNms] && classes == old(classes)[chn := oldClasses]
    {
      lost := false;
      ok := RestartWorkers(chn, row, lo, hi, queue, false, start);
      if !ok {
        reloadStop := reloadStop[chn := true];
        JoinWorkers(lo, hi);
        lost := RestoreOldWorkers(chn, oldRow, oldObj, oldNms, oldClasses, lo, hi, queue, start);
        assert models == old(models);
      }
    }
  }

  /** The runtime's variables at one moment. */
  datatype Engine = Engine(
    models: Rows, obj: seq<real>, nms: seq<real>, classes: seq<set<int>>, queues: seq<seq<nat>>,
    threads: seq<Thread>, started: seq<bool>, reloadStop: seq<bool>)

  predicate Refuses(running: bool, models: Rows, chn: int, cfg: Config) {
    !running || !(0 <= chn < |models|) || models[chn] == [] || Wanted(cfg) != |models[chn]|
  }

  ghost predicate Succeeds(rows: Rows, chn: nat, cfg: Config, load: Loader, start: Starter)
    requires chn < |rows|
  {
    && (Infers(cfg) ==> AllBuilt(cfg, load, |rows[chn]|))
    && AllStart(start, false, Total(rows, chn), Total(rows, chn) + |rows[chn]|)
  }

  ghost function NewRow(rows: Rows, chn: nat, cfg: Config, load: Loader): seq<Option<ModelRef>>
    requires chn < |rows| && (Infers(cfg) ==> AllBuilt(cfg, load, |rows[chn]|))
  {
    if Infers(cfg) then Loaded(cfg, load, |rows[chn]|) else seq(|rows[chn]|, _ => None)
  }

  /** Only the channel's own slots, queue and stop flag are touched; the queue is empty and the flag down. */
  ghost predicate OthersUntouched(a: Engine, b: Engine, chn: nat)
    requires chn < |a.models|
  {
    && Rank(a.models, chn) < |a.queues| && b.queues == a.queues[Rank(a.models, chn) := []]
    && chn < |a.reloadStop| && b.reloadStop == a.reloadStop[chn := false]
    && SameOutside(b.started, a.started, Total(a.models, chn), Total(a.models, chn) + |a.models[chn]|)
    && SameOutside(b.threads, a.threads, Total(a.models, chn), Total(a.models, chn) + |a.models[chn]|)
  }

  /** All or nothing: the reload succeeds exactly if every model loads and every thread starts. */
  ghost predicate Outcome(a: Engine, b: Engine, chn: nat, cfg: Config, load: Loader, start: Starter, ok: bool, lost: bool)
    requires chn < |a.models|
  {
    var lo, hi := Total(a.models, chn), Total(a.models, chn) + |a.models[chn]|;
    && (ok <==> Succeeds(a.models, chn, cfg, load, start))
    && (lost <==> !ok && !AllStart(start, true, lo, hi))
    && OthersUntouched(a, b, chn)
    && (!lost ==> AllIn(b.started, lo, hi, true))
    && (!ok ==> b.models == a.models && b.obj == a.obj && b.nms == a.nms && b.classes == a.classes)
    && (ok ==> Installed(a, b, chn, cfg, load))
  }

  ghost predicate Installed(a: Engine, b: Engine, chn: nat, cfg: Config, load: Loader)
    requires chn < |a.models| && (Infers(cfg) ==> AllBuilt(cfg, load, |a.models[chn]|))
  {
    && b.models == a.models[chn := NewRow(a.models, chn, cfg, load)]
    && if Infers(cfg)
       then chn < |a.obj| && chn < |a.nms| && chn < |a.classes| && b.obj == a.obj[chn := NewObj(cfg)]
         && b.nms == a.nms[chn := NewNms(cfg)] && b.classes == a.classes[chn := NewClasses(cfg)]
       else b.obj == a.obj && b.nms == a.nms && b.classes == a.classes
  }

  /** A channel whose slots are all running as planned runs the model of each slot's position. */
  lemma SlotRunsItsModel(rows: Rows, b: Engine, chn: nat, row: seq<Option<ModelRef>>, m: nat)
    requires chn < |rows| && |row| == |rows[chn]| && m < |row| && b.models == rows[chn := row]
    requires AsPlanned(Plan(b.models, |b.models|), b.threads, b.started)
    requires AllIn(b.started, Total(rows, chn), Total(rows, chn) + |row|, true)
    ensures var w := Total(rows, chn) + m;
            w < |b.started| && b.started[w] && b.threads[w] == Thread(chn, Rank(rows, chn), row[m])
  {
    PlanAfter(rows, chn, row);
    hide Plan, Total, Rank;
    var w := Total(rows, chn) + m;
    assert b.started[w];
  }

  /**
   * After a reload that did not lose its workers, every worker slot of the channel runs: the
   * new model of that slot if the reload succeeded, the old one if it did not.
   */
  lemma WorkersRunTheirModels(a: Engine, b: Engine, chn: nat, cfg: Config, load: Loader, start: Starter, ok: bool, m: nat)
    requires chn < |a.models| && m < |a.models[chn]| && Outcome(a, b, chn, cfg, load, start, ok, false)
    requires AsPlanned(Plan(b.models, |b.models|), b.threads, b.started)
    ensures ok ==> (Infers(cfg) ==> AllBuilt(cfg, load, |a.models[chn]|))
    ensures var w := Total(a.models, chn) + m;
            w < |b.started| && b.started[w]
            && b.threads[w] == Thread(chn, Rank(a.models, chn), if ok then NewRow(a.models, chn, cfg, load)[m] else a.models[chn][m])
  {
    hide Plan, Total, Rank, AllIn, AsPlanned, AllBuilt, AllStart;
    if ok {
      SlotRunsItsModel(a.models, b, chn, NewRow(a.models, chn, cfg, load), m);
    } else {
      assert a.models[chn := a.models[chn]] == a.models;
      SlotRunsItsModel(a.models, b, chn, a.models[chn], m);
    }
  }

  /** A reload is tried exactly if the engine runs, the channel has models, and as many threads are asked for as it has workers. */
  lemma ReloadIsTriedIff(running: bool, models: Rows, chn: int, cfg: Config)
    ensures !Refuses(running, models, chn, cfg) <==>
              && running && 0 <= chn < |models| && |models[chn]| > 0
              && (cfg.threads == |models[chn]| || (cfg.threads <= 0 && |models[chn]| == 1))
  {
  }

  lemma {:induction false} ChildrenAt(cfg: Config, load: Loader, t: nat, n: nat)
    requires forall j: nat | j < n :: load(t, j).Built?
    ensures |Children(cfg, load, t, n)| == n
    ensures forall k: nat | k < n :: Children(cfg, load, t, n)[k] == load(t, k).child
    decreases n
  {
    if n > 0 {
      ChildrenAt(cfg, load, t, n - 1);
    }
  }

  /**
   * What a successful reload with inference installs: for one model its thresholds and classes and,
   * for each worker, the model loaded for it; for several models neutral settings, since each has its
   * own, and the group of models loaded for the worker, in the order configured. Other channels keep theirs.
   */
  lemma InstalledSettings(a: Engine, b: Engine, chn: nat, cfg: Config, load: Loader, t: nat)
    requires chn < |a.models| && cfg.inferEnable && cfg.active != [] && AllBuilt(cfg, load, |a.models[chn]|)
    requires Installed(a, b, chn, cfg, load) && t < |a.models[chn]|
    ensures chn < |b.models| && chn < |b.obj| && chn < |b.nms| && chn < |b.classes| && t < |b.models[chn]|
    ensures |cfg.active| == 1 ==>
              b.obj[chn] == cfg.active[0].obj && b.nms[chn] == cfg.active[0].nms && b.classes[chn] == cfg.active[0].classes
              && load(t, 0).Built? && b.models[chn][t] == Some(Single(load(t, 0).child))
    ensures |cfg.active| > 1 ==>
              b.obj[chn] == 0.0 && b.nms[chn] == 1.0 && b.classes[chn] == {}
              && b.models[chn][t].Some? && b.models[chn][t].value.Group? && |b.models[chn][t].value.children| == |cfg.active|
              && forall k: nat | k < |cfg.active| :: load(t, k).Built? && b.models[chn][t].value.children[k] == load(t, k).child
    ensures forall i | 0 <= i < |a.models| && i != chn :: b.models[i] == a.models[i]
    ensures |b.obj| == |a.obj| && |b.nms| == |a.nms| && |b.classes| == |a.classes|
    ensures forall i | 0 <= i < |a.obj| && i != chn :: b.obj[i] == a.obj[i]
    ensures forall i | 0 <= i < |a.nms| && i != chn :: b.nms[i] == a.nms[i]
    ensures forall i | 0 <= i < |a.classes| && i != chn :: b.classes[i] == a.classes[i]
  {
    ChildrenAt(cfg, load, t, |cfg.active|);
  }

  /** Switching inference off, or configuring no model, leaves the channel's workers without a model and its settings alone. */
  lemma SwitchedOffSettings(a: Engine, b: Engine, chn: nat, cfg: Config, load: Loader, t: nat)
    requires chn < |a.models| && (!cfg.inferEnable || cfg.active == []) && Installed(a, b, chn, cfg, load) && t < |a.models[chn]|
    ensures t < |b.models[chn]| && b.models[chn][t] == None && b.obj == a.obj && b.nms == a.nms && b.classes == a.classes
  {
  }

  lemma SizesOfSelf(rows: Rows)
    ensures SameSizes(rows, rows)
  {
  }

  /** Load every worker's model. A missing single model leaves a gap; anything else that fails ends the load. */
  method BuildModels(cfg: Config, load: Loader, workers: nat) returns (ok: bool, row: seq<Option<ModelRef>>)
    requires cfg.active != []
    ensures ok && |row| == workers <==> AllBuilt(cfg, load, workers)
    ensures ok && |row| == workers ==> row == Loaded(cfg, load, workers)
  {
    row := [];
    for t := 0 to workers
      invariant |row| <= t
      invariant |row| == t <==> AllBuilt(cfg, load, t)
      invariant |row| == t ==> row == Loaded(cfg, load, t)
    {
      if |cfg.active| > 1 {
        var entries: seq<nat> := [];
        for k := 0 to |cfg.active|
          invariant forall j: nat | j < k :: load(t, j).Built?
          invariant entries == Children(cfg, load, t, k)
        {
          var child := load(t, k);
          if !child.Built? {
            return false, row;
          }
          entries := entries + [child.child];
        }
        row := row + [Some(Group(entries))];
      } else {
        var model := load(t, 0);
        if model.Throws? {
          return false, row;
        }
        if model.Unsupported? {
          continue;
        }
        row := row + [Some(Single(model.child))];
      }
    }
    return true, row;
  }

  lemma LayoutAfter(a: Rows, chn: nat, row: seq<Option<ModelRef>>)
    requires chn < |a| && |row| == |a[chn]|
    ensures SameSizes(a, a[chn := row]) && Rank(a, |a|) == Rank(a[chn := row], |a|)
    ensures Rank(a, chn) == Rank(a[chn := row], chn) && Total(a, chn) == Total(a[chn := row], chn)
  {
    LayoutFollowsSizes(a, a[chn := row], |a|);
    LayoutFollowsSizes(a, a[chn := row], chn);
  }
}
