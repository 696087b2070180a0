/**
 * The layout that ties channels to task queues and worker slots
 * (engine/src/inference/inference_engine.cpp, inference_executor.cpp). Nothing stores it: the
 * queue of a channel is its rank among the channels with models, and its worker slots follow
 * those of the channels before it.
 */
module WorkerLayout {
  datatype Option<T> = None | Some(value: T)

  /** One model, or several that run together. */
  datatype ModelRef = Single(child: nat) | Group(children: seq<nat>)

  /** What a worker thread is given: its channel, its queue and its model. */
  datatype Thread = Thread(channel: nat, queue: nat, model: Option<ModelRef>)

  type Rows = seq<seq<Option<ModelRef>>>

  /** How many worker slots the first `n` channels have. */
  function Total(rows: Rows, n: nat): nat
    requires n <= |rows|
  {
    if n == 0 then 0 else Total(rows, n - 1) + |rows[n - 1]|
  }

  /** How many of the first `n` channels have models. */
  function Rank(rows: Rows, n: nat): nat
    requires n <= |rows|
  {
    if n == 0 then 0 else Rank(rows, n - 1) + (if rows[n - 1] != [] then 1 else 0)
  }

  function RowPlan(rows: Rows, i: nat): seq<Thread>
    requires i < |rows|
  {
    seq(|rows[i]|, m requires 0 <= m < |rows[i]| => Thread(i, Rank(rows, i), rows[i][m]))
  }

  /** The thread each worker slot of the first `n` channels is meant to run. */
  function Plan(rows: Rows, n: nat): (p: seq<Thread>)
    requires n <= |rows|
    ensures |p| == Total(rows, n)
  {
    if n == 0 then [] else Plan(rows, n - 1) + RowPlan(rows, n - 1)
  }

  lemma {:induction false} PlanAt(rows: Rows, n: nat, i: nat, m: nat)
    requires i < n <= |rows| && m < |rows[i]|
    ensures Total(rows, i) + m < Total(rows, n)
    ensures Plan(rows, n)[Total(rows, i) + m] == Thread(i, Rank(rows, i), rows[i][m])
    decreases n
  {
    if i < n - 1 {
      PlanAt(rows, n - 1, i, m);
    }
  }

  ghost predicate SameOutside<T>(a: seq<T>, b: seq<T>, lo: nat, hi: nat) {
    |a| == |b| && forall w | 0 <= w < |a| && !(lo <= w < hi) :: a[w] == b[w]
  }

  /** New models of one channel change the plan of its own slots only. */
  lemma {:induction false} PlanElsewhere(a: Rows, chn: nat, row: seq<Option<ModelRef>>, n: nat)
    requires chn < |a| && n <= |a| && |row| == |a[chn]|
    ensures Total(a[chn := row], n) == Total(a, n) && Rank(a[chn := row], n) == Rank(a, n)
    ensures SameOutside(Plan(a, n), Plan(a[chn := row], n), Total(a, chn), Total(a, chn) + |row|)
    decreases n
  {
    if n > 0 {
      PlanElsewhere(a, chn, row, n - 1);
      if n - 1 != chn {
        assert RowPlan(a, n - 1) == RowPlan(a[chn := row], n - 1);
      }
    }
  }

  /** What the plan is after new models for one channel. */
  lemma PlanAfter(a: Rows, chn: nat, row: seq<Option<ModelRef>>)
    requires chn < |a| && |row| == |a[chn]|
    ensures var b, lo := a[chn := row], Total(a, chn);
            lo + |row| <= |Plan(b, |b|)| && SameOutside(Plan(a, |a|), Plan(b, |b|), lo, lo + |row|)
            && forall w | lo <= w < lo + |row| :: Plan(b, |b|)[w] == Thread(chn, Rank(a, chn), row[w - lo])
  {
    var b, lo := a[chn := row], Total(a, chn);
    PlanElsewhere(a, chn, row, |a|);
    PlanElsewhere(a, chn, row, chn);
    TotalGrows(a, chn, |a|);
    forall w | lo <= w < lo + |row| ensures Plan(b, |b|)[w] == Thread(chn, Rank(a, chn), row[w - lo]) {
      PlanAt(b, |b|, chn, w - lo);
    }
  }

  ghost predicate SameSizes(a: Rows, b: Rows) {
    |a| == |b| && forall i | 0 <= i < |a| :: |a[i]| == |b[i]|
  }

  lemma {:induction false} TotalGrows(rows: Rows, i: nat, j: nat)
    requires i < j <= |rows|
    ensures Total(rows, i) + |rows[i]| <= Total(rows, j)
    decreases j
  {
    if i < j - 1 {
      TotalGrows(rows, i, j - 1);
    }
  }

  /** The slots of two channels never meet, and all lie below the total. */
  lemma RangesAreDisjoint(rows: Rows, i: nat, j: nat, m: nat, n: nat)
    requires i < |rows| && j < |rows| && i != j && m < |rows[i]| && n < |rows[j]|
    ensures Total(rows, i) + m != Total(rows, j) + n
    ensures Total(rows, i) + m < Total(rows, |rows|)
  {
    TotalGrows(rows, i, |rows|);
    if i < j {
      TotalGrows(rows, i, j);
    } else {
      TotalGrows(rows, j, i);
    }
  }

  /** Every slot belongs to some channel. */
  lemma {:induction false} RangesCover(rows: Rows, n: nat, w: nat) returns (i: nat, m: nat)
    requires n <= |rows| && w < Total(rows, n)
    ensures i < n && m < |rows[i]| && Total(rows, i) + m == w
    decreases n
  {
    if w >= Total(rows, n - 1) {
      i, m := n - 1, w - Total(rows, n - 1);
    } else {
      i, m := RangesCover(rows, n - 1, w);
    }
  }

  lemma {:induction false} RankGrows(rows: Rows, i: nat, j: nat)
    requires i < j <= |rows|
    ensures Rank(rows, i) + (if rows[i] != [] then 1 else 0) <= Rank(rows, j)
    decreases j
  {
    if i < j - 1 {
      RankGrows(rows, i, j - 1);
    }
  }

  /** Channels with models have queues of their own. */
  lemma QueuesAreDistinct(rows: Rows, i: nat, j: nat)
    requires i < |rows| && j < |rows| && i != j && rows[i] != [] && rows[j] != []
    ensures Rank(rows, i) != Rank(rows, j) && Rank(rows, i) < Rank(rows, |rows|)
  {
    RankGrows(rows, i, |rows|);
    if i < j {
      RankGrows(rows, i, j);
    } else {
      RankGrows(rows, j, i);
    }
  }

  /** Every queue has a channel. */
  lemma {:induction false} QueuesAreUsed(rows: Rows, n: nat, q: nat) returns (i: nat)
    requires n <= |rows| && q < Rank(rows, n)
    ensures i < n && rows[i] != [] && Rank(rows, i) == q
    decreases n
  {
    if rows[n - 1] != [] && q == Rank(rows, n - 1) {
      i := n - 1;
    } else {
      i := QueuesAreUsed(rows, n - 1, q);
    }
  }

  /** The layout depends on the sizes alone. */
  lemma {:induction false} LayoutFollowsSizes(a: Rows, b: Rows, n: nat)
    requires SameSizes(a, b) && n <= |a|
    ensures Total(a, n) == Total(b, n) && Rank(a, n) == Rank(b, n)
    decreases n
  {
    if n > 0 {
      LayoutFollowsSizes(a, b, n - 1);
      assert |a[n - 1]| == |b[n - 1]|;
    }
  }

  /** `get_queue_idx_for_chn`; the loop of `inference_process_source` is the same. */
  method QueueIndexOf(rows: Rows, chn: int) returns (index: int)
    ensures index == if 0 <= chn < |rows| && rows[chn] != [] then Rank(rows, chn) else -1
  {
    var q := 0;
    for i := 0 to |rows|
      invariant q == Rank(rows, i)
      invariant 0 <= chn < i ==> rows[chn] == []
    {
      if rows[i] != [] {
        if i == chn {
          return q;
        }
        q := q + 1;
      }
    }
    return -1;
  }

  /** The first worker slot of a channel. */
  method WorkerStart(rows: Rows, chn: nat) returns (start: nat)
    requires chn <= |rows|
    ensures start == Total(rows, chn)
  {
    start := 0;
    for i := 0 to chn
      invariant start == Total(rows, i)
    {
      start := start + |rows[i]|;
    }
  }
}
