/**
 * The images of a capture task are stored in the order of their matches, each under a number of
 * its own; an acknowledgement therefore releases the one image it names and no other
 * (engine/src/control/remote_dataset.cpp).
 */
module DatasetCaptureOrder {
  import opened DatasetCapture
  import opened DatasetCaptureSafety

  function Numbers(images: seq<Image>): seq<nat> {
    seq(|images|, i requires 0 <= i < |images| => images[i].sample.number)
  }

  /** The numbers of a task's jobs, first to be encoded first. */
  function Pending(jobs: seq<Job>, k: nat): seq<nat> {
    if jobs == [] then []
    else (if jobs[0].task == k then [jobs[0].sample.number] else []) + Pending(jobs[1..], k)
  }

  function Line(s: Store, k: nat): seq<nat>
    requires k in s.tasks
  {
    Numbers(s.tasks[k].images) + Pending(Flight(s), k)
  }

  ghost predicate Rising(line: seq<nat>, top: nat) {
    (forall i, j | 0 <= i < j < |line| :: line[i] < line[j]) && forall i | 0 <= i < |line| :: line[i] <= top
  }

  ghost predicate InOrder(s: Store, c: nat)
    requires Held(s, c)
  {
    Rising(Line(s, s.table[c]), TaskOf(s, c).matched)
  }

  ghost predicate OrderInv(s: Store) { forall c | Held(s, c) :: InOrder(s, c) }

  lemma {:induction false} PendingAppend(jobs: seq<Job>, j: Job, k: nat)
    ensures Pending(jobs + [j], k) == Pending(jobs, k) + (if j.task == k then [j.sample.number] else [])
    decreases |jobs|
  {
    if jobs == [] {
      assert jobs + [j] == [j] && [j][1..] == [];
    } else {
      PendingAppend(jobs[1..], j, k);
      assert (jobs + [j])[1..] == jobs[1..] + [j];
    }
  }

  lemma {:induction false} NothingPending(jobs: seq<Job>, k: nat)
    requires JobsOf(jobs, k) == 0
    ensures Pending(jobs, k) == []
    decreases |jobs|
  {
    if jobs != [] {
      NothingPending(jobs[1..], k);
    }
  }

  /** Taking one out leaves a line in order. */
  lemma RisingWithout(a: seq<nat>, x: nat, b: seq<nat>, top: nat)
    requires Rising(a + [x] + b, top)
    ensures Rising(a + b, top)
  {
    var whole, less := a + [x] + b, a + b;
    forall k | 0 <= k < |less| ensures less[k] == whole[if k < |a| then k else k + 1] {}
    forall i, j | 0 <= i < j < |less| ensures less[i] < less[j] {
      assert whole[if i < |a| then i else i + 1] < whole[if j < |a| then j else j + 1];
    }
    forall k | 0 <= k < |less| ensures less[k] <= top {
      assert whole[if k < |a| then k else k + 1] <= top;
    }
  }

  /** A change of one task that leaves its images alone and does not lower its count. */
  lemma ChangeStaysInOrder(s: Store, c: nat, t: Task)
    requires TableInv(s) && OrderInv(s) && Held(s, c) && t.images == TaskOf(s, c).images && t.matched >= TaskOf(s, c).matched
    ensures OrderInv(With(s, s.table[c], t))
  {
    var u := With(s, s.table[c], t);
    assert Flight(u) == Flight(s);
    forall d | Held(u, d) ensures InOrder(u, d) {
      assert Held(s, d) && InOrder(s, d);
      if d == c {
      } else {
        TasksAreApart(s, c, d);
      }
    }
  }

  lemma AcceptedLine(s: Store, c: nat, j: Job, d: nat)
    requires TableInv(s) && Held(s, c) && Held(s, d) && j.task == s.table[c]
    ensures var u := Accept(s, c, j);
            Held(u, d) && u.table == s.table
            && Line(u, s.table[d]) == Line(s, s.table[d]) + (if d == c then [j.sample.number] else [])
            && TaskOf(u, d).matched == TaskOf(s, d).matched + (if d == c then 1 else 0)
  {
    assert Flight(Accept(s, c, j)) == Flight(s) + [j];
    PendingAppend(Flight(s), j, s.table[d]);
    if d != c {
      TasksAreApart(s, c, d);
    }
  }

  lemma AcceptStaysInOrder(s: Store, c: nat, frame: nat, bytes: nat)
    requires TableInv(s) && OrderInv(s) && Held(s, c)
    ensures OrderInv(Accept(s, c, Job(s.table[c], Sample(c, frame, TaskOf(s, c).matched + 1), bytes)))
  {
    var j := Job(s.table[c], Sample(c, frame, TaskOf(s, c).matched + 1), bytes);
    var u := Accept(s, c, j);
    forall d | Held(u, d) ensures InOrder(u, d) {
      assert Held(s, d) && InOrder(s, d);
      AcceptedLine(s, c, j, d);
      hide Line, Rising;
      if d == c {
      } else {
        assert Line(s, s.table[d]) + [] == Line(s, s.table[d]);
      }
    }
  }

  lemma ObserveStaysInOrder(s: Store, c: nat, now: nat, frame: nat, estimate: nat, source: Option<nat>)
    requires TableInv(s) && OrderInv(s) && Held(s, c)
    ensures OrderInv(Observe(s, c, now, frame, estimate, source))
  {
    hide OrderInv, With, Accept;
    ChangeStaysInOrder(s, c, Skipped(TaskOf(s, c)));
    ChangeStaysInOrder(s, c, Unread(TaskOf(s, c)));
    var bytes := if source.Some? then source.value else 0;
    AcceptStaysInOrder(s, c, frame, bytes);
  }

  lemma NumbersAppend(images: seq<Image>, x: Image)
    ensures Numbers(images + [x]) == Numbers(images) + [x.sample.number]
  {
  }

  lemma FinishStaysInOrder(s: Store, ok: bool, size: nat)
    requires Inv(s) && OrderInv(s) && s.encode.Some? && s.encode.value.task in s.tasks
    ensures OrderInv(FinishEncoding(s, ok, size))
  {
    var j, v := s.encode.value, FinishEncoding(s, ok, size);
    EncodedJobIsCurrent(s);
    var c := s.tasks[j.task].channel;
    assert Flight(s) == [j] + Flight(v) && Flight(s)[1..] == Flight(v);
    forall d | Held(v, d) ensures InOrder(v, d) {
      assert Held(s, d) && InOrder(s, d);
      if d == c {
        FinishedLine(s.tasks[j.task].images, v.tasks[j.task].images, Image(j.sample, size), Pending(Flight(v), j.task), TaskOf(s, c).matched);
      } else {
        TasksAreApart(s, c, d);
        assert Line(v, s.table[d]) == Line(s, s.table[d]);
      }
    }
  }

  lemma FinishedLine(before: seq<Image>, after: seq<Image>, x: Image, rest: seq<nat>, top: nat)
    requires Rising(Numbers(before) + ([x.sample.number] + rest), top) && (after == before || after == before + [x])
    ensures Rising(Numbers(after) + rest, top)
  {
    NumbersAppend(before, x);
    assert Numbers(before) + ([x.sample.number] + rest) == Numbers(before) + [x.sample.number] + rest;
    RisingWithout(Numbers(before), x.sample.number, rest, top);
  }

  lemma AckStaysInOrder(s: Store, c: nat, id: string, sample: Sample, saved: nat)
    requires TableInv(s) && OrderInv(s)
    ensures OrderInv(AckOne(s, c, id, sample, saved))
  {
    if Held(s, c) && TaskOf(s, c).id == id {
      var t := Counted(TaskOf(s, c), saved);
      var i := IndexOf(t.images, sample);
      if i < |t.images| {
        ReleaseStaysInOrder(s, c, t, i);
      } else {
        ChangeStaysInOrder(s, c, t);
      }
    }
  }

  lemma ReleaseStaysInOrder(s: Store, c: nat, t: Task, i: nat)
    requires TableInv(s) && OrderInv(s) && Held(s, c)
    requires t.images == TaskOf(s, c).images && t.matched == TaskOf(s, c).matched && i < |t.images|
    ensures forall jpeg :: OrderInv(With(s, s.table[c], Released(t, i)).(jpeg := jpeg))
  {
    forall jpeg ensures OrderInv(With(s, s.table[c], Released(t, i)).(jpeg := jpeg)) {
      var u := With(s, s.table[c], Released(t, i)).(jpeg := jpeg);
      assert Flight(u) == Flight(s);
      forall d | Held(u, d) ensures InOrder(u, d) {
        assert Held(s, d) && InOrder(s, d);
        if d == c {
          ReleasedLine(t.images, i, Pending(Flight(s), s.table[c]), t.matched);
        } else {
          TasksAreApart(s, c, d);
        }
      }
    }
  }

  lemma ReleasedLine(images: seq<Image>, i: nat, rest: seq<nat>, top: nat)
    requires i < |images| && Rising(Numbers(images) + rest, top)
    ensures Rising(Numbers(images[..i] + images[i + 1..]) + rest, top)
  {
    var a, x, b := Numbers(images[..i]), images[i].sample.number, Numbers(images[i + 1..]) + rest;
    assert Numbers(images) + rest == a + [x] + b;
    RisingWithout(a, x, b, top);
    assert Numbers(images[..i] + images[i + 1..]) + rest == a + b;
  }

  lemma {:induction false} AckAllStaysInOrder(s: Store, id: string, sample: Sample, saved: nat, n: nat)
    requires Inv(s) && OrderInv(s)
    ensures Inv(AckAll(s, id, sample, saved, n)) && OrderInv(AckAll(s, id, sample, saved, n))
    decreases n
  {
    hide Inv, OrderInv, AckOne, TableInv;
    if n > 0 {
      AckAllStaysInOrder(s, id, sample, saved, n - 1);
      AckAllKeeps(s, id, sample, saved, n);
      InvHasTable(AckAll(s, id, sample, saved, n - 1));
      AckStaysInOrder(AckAll(s, id, sample, saved, n - 1), n - 1, id, sample, saved);
    }
  }

  lemma InvHasTable(s: Store)
    requires Inv(s)
    ensures TableInv(s)
  {
  }

  lemma ConfigureStaysInOrder(s: Store, r: Request)
    requires Inv(s) && OrderInv(s) && r.channel < CHANNELS
    ensures OrderInv(Configure(s, r))
  {
    if Held(s, r.channel) && Same(TaskOf(s, r.channel), r.id, r.revision) {
      ResumeStaysInOrder(s, r);
    } else if Vacant(s, r.channel) && r.saved.Some? && r.deadline.Some? && r.valid {
      InstallStaysInOrder(s, r.channel, NewTask(r));
    }
  }

  lemma ResumeStaysInOrder(s: Store, r: Request)
    requires TableInv(s) && OrderInv(s) && Held(s, r.channel)
    ensures OrderInv(Resumed(s, r))
  {
    var k := s.table[r.channel];
    var u := With(s, k, Resumed(s, r).tasks[k]);
    ChangeStaysInOrder(s, r.channel, Resumed(s, r).tasks[k]);
    SameLines(u, Resumed(s, r));
  }

  /** The mask has no part in the order. */
  lemma SameLines(u: Store, v: Store)
    requires OrderInv(u) && v.table == u.table && v.tasks == u.tasks && v.jobs == u.jobs && v.encode == u.encode
    ensures OrderInv(v)
  {
    assert Flight(v) == Flight(u);
    forall d | Held(v, d) ensures InOrder(v, d) {
      assert Held(u, d) && InOrder(u, d);
    }
  }

  lemma InstallStaysInOrder(s: Store, c: nat, t: Task)
    requires Inv(s) && OrderInv(s) && Idle(t)
    ensures OrderInv(Refreshed(s.(table := s.table[c := s.next], tasks := s.tasks[s.next := t], next := s.next + 1)))
  {
    var v := Refreshed(s.(table := s.table[c := s.next], tasks := s.tasks[s.next := t], next := s.next + 1));
    assert Flight(v) == Flight(s);
    NewSerialHasNoJobs(s);
    NothingPending(Flight(s), s.next);
    forall d | Held(v, d) ensures InOrder(v, d) {
      if d != c {
        assert Held(s, d) && InOrder(s, d);
        assert s.table[d] != s.next;
      }
    }
  }

  lemma RemoveStaysInOrder(s: Store, id: string)
    requires OrderInv(s)
    ensures OrderInv(Remove(s, id))
  {
    RemovalReaches(s, id, CHANNELS);
    var v := Remove(s, id);
    assert Flight(v) == Flight(s);
    forall d | Held(v, d) ensures InOrder(v, d) {
      assert Held(s, d) && InOrder(s, d);
    }
  }

  lemma StepStaysInOrder(s: Store, a: Action)
    requires Inv(s) && OrderInv(s) && Can(s, a)
    ensures OrderInv(Do(s, a))
  {
    match a
    case AObserve(c, now, frame, estimate, source) => ObserveStaysInOrder(s, c, now, frame, estimate, source);
    case AStartEncoding => StartStaysInOrder(s);
    case AFinishEncoding(ok, size) => FinishStaysInOrder(s, ok, size);
    case AConfigure(r) => ConfigureStaysInOrder(s, r);
    case AAck(id, sample, saved) => AckAllStaysInOrder(s, id, sample, saved, CHANNELS);
    case ARemove(id) => RemoveStaysInOrder(s, id);
  }

  lemma StartStaysInOrder(s: Store)
    requires OrderInv(s) && s.encode.None? && s.jobs != []
    ensures OrderInv(StartEncoding(s))
  {
    var v := StartEncoding(s);
    assert Flight(v) == Flight(s);
    forall d | Held(v, d) ensures InOrder(v, d) {
      assert Held(s, d) && InOrder(s, d);
    }
  }

  lemma {:induction false} RunStaysInOrder(s: Store, run: seq<Action>, t: Store)
    requires Inv(s) && OrderInv(s) && Executes(s, run, t)
    ensures Inv(t) && OrderInv(t)
    decreases |run|
  {
    hide Inv, OrderInv, Do, Can;
    if run != [] {
      StepKeeps(s, run[0]);
      StepStaysInOrder(s, run[0]);
      RunStaysInOrder(Do(s, run[0]), run[1..], t);
    }
  }

  lemma ReachableOrder(s: Store)
    requires Reachable(s)
    ensures Inv(s) && OrderInv(s)
  {
    var run :| Executes(EMPTY, run, s);
    NothingStored(CHANNELS);
    RunStaysInOrder(EMPTY, run, s);
  }

  // ---------------------------------------------------------------------------
  // The claims.

  /** A task's stored images and its frames on the way are in match order, each number once. */
  lemma ImagesAreInMatchOrder(s: Store, c: nat)
    requires Reachable(s) && Held(s, c)
    ensures forall i, j | 0 <= i < j < |TaskOf(s, c).images| ::
              TaskOf(s, c).images[i].sample.number < TaskOf(s, c).images[j].sample.number <= TaskOf(s, c).matched
    ensures forall i, p | 0 <= i < |TaskOf(s, c).images| && p in Pending(Flight(s), s.table[c]) ::
              TaskOf(s, c).images[i].sample.number < p <= TaskOf(s, c).matched
  {
    ReachableOrder(s);
    assert InOrder(s, c);
    var images, line := TaskOf(s, c).images, Line(s, s.table[c]);
    assert forall i | 0 <= i < |images| :: line[i] == images[i].sample.number;
    forall i, p | 0 <= i < |images| && p in Pending(Flight(s), s.table[c]) ensures images[i].sample.number < p <= TaskOf(s, c).matched {
      var q :| 0 <= q < |Pending(Flight(s), s.table[c])| && Pending(Flight(s), s.table[c])[q] == p;
      assert line[|images| + q] == p;
    }
  }

  function Acked(t: Task, sample: Sample, saved: nat): Task {
    var u := Counted(t, saved);
    if IndexOf(u.images, sample) < |u.images| then Released(u, IndexOf(u.images, sample)) else u
  }

  /** The acknowledgement loop treats each channel's task on its own. */
  lemma {:induction false} AckAllAt(s: Store, id: string, sample: Sample, saved: nat, n: nat, c: nat)
    requires TableInv(s) && Held(s, c)
    ensures var t := AckAll(s, id, sample, saved, n);
            TableInv(t) && t.table == s.table && Held(t, c)
            && TaskOf(t, c) == if c < n && TaskOf(s, c).id == id then Acked(TaskOf(s, c), sample, saved) else TaskOf(s, c)
    decreases n
  {
    hide AckOne, Acked;
    if n > 0 {
      AckAllAt(s, id, sample, saved, n - 1, c);
      AckOneAt(AckAll(s, id, sample, saved, n - 1), id, sample, saved, n - 1, c);
    }
  }

  lemma AckOneAt(s: Store, id: string, sample: Sample, saved: nat, d: nat, c: nat)
    requires TableInv(s) && Held(s, c)
    ensures var t := AckOne(s, d, id, sample, saved);
            TableInv(t) && t.table == s.table && Held(t, c)
            && TaskOf(t, c) == if c == d && TaskOf(s, c).id == id then Acked(TaskOf(s, c), sample, saved) else TaskOf(s, c)
  {
    if Held(s, d) && d != c {
      TasksAreApart(s, c, d);
    }
  }

  lemma {:induction false} IndexIsFirst(images: seq<Image>, sample: Sample)
    ensures var i := IndexOf(images, sample);
            (i < |images| ==> images[i].sample == sample) && forall k | 0 <= k < i :: images[k].sample != sample
    decreases |images|
  {
    if images != [] && images[0].sample != sample {
      IndexIsFirst(images[1..], sample);
      var i := IndexOf(images, sample);
      forall k | 0 <= k < i ensures images[k].sample != sample {
        assert k > 0 ==> images[k] == images[1..][k - 1];
      }
    }
  }

  /** An acknowledgement releases exactly the image it names from the tasks it names, and leaves all other images and tasks. */
  lemma AckReleasesTheNamedImage(s: Store, id: string, sample: Sample, saved: nat, c: nat)
    requires Reachable(s) && Held(s, c)
    ensures var t := Do(s, AAck(id, sample, saved));
            Held(t, c)
            && (TaskOf(s, c).id != id ==> TaskOf(t, c) == TaskOf(s, c))
            && (TaskOf(s, c).id == id ==>
                  && (forall x :: x in TaskOf(t, c).images <==> x in TaskOf(s, c).images && x.sample != sample)
                  && TaskOf(t, c).saved == if saved > TaskOf(s, c).saved then saved else TaskOf(s, c).saved)
  {
    ReachableOrder(s);
    ImagesAreInMatchOrder(s, c);
    AckAllAt(s, id, sample, saved, CHANNELS, c);
    if TaskOf(s, c).id == id {
      ReleaseIsExact(TaskOf(s, c).images, sample);
    }
  }

  function Without(images: seq<Image>, i: nat): seq<Image>
    requires i < |images|
  {
    images[..i] + images[i + 1..]
  }

  lemma WithoutAt(images: seq<Image>, i: nat, k: nat)
    requires i < |images| && k < |Without(images, i)|
    ensures Without(images, i)[k] == images[if k < i then k else k + 1]
  {
  }

  lemma WithoutHolds(images: seq<Image>, i: nat, k: nat)
    requires i < |images| && k < |images| && k != i
    ensures images[k] in Without(images, i)
  {
    var at := if k < i then k else k - 1;
    WithoutAt(images, i, at);
    assert Without(images, i)[at] == images[k];
  }

  lemma OnlyOneOfItsName(images: seq<Image>, sample: Sample, k: nat)
    requires forall i, j | 0 <= i < j < |images| :: images[i].sample.number < images[j].sample.number
    requires k < |images| && images[k].sample == sample
    ensures k == IndexOf(images, sample)
  {
    IndexIsFirst(images, sample);
  }

  lemma ReleaseIsExact(images: seq<Image>, sample: Sample)
    requires forall i, j | 0 <= i < j < |images| :: images[i].sample.number < images[j].sample.number
    ensures var i := IndexOf(images, sample);
            var rest := if i < |images| then images[..i] + images[i + 1..] else images;
            forall x :: x in rest <==> x in images && x.sample != sample
  {
    IndexIsFirst(images, sample);
    var i := IndexOf(images, sample);
    if i < |images| {
      forall x ensures x in Without(images, i) <==> x in images && x.sample != sample {
        if x in images && x.sample != sample {
          var k :| 0 <= k < |images| && images[k] == x;
          WithoutHolds(images, i, k);
        }
        if x in Without(images, i) {
          var k :| 0 <= k < |Without(images, i)| && Without(images, i)[k] == x;
          WithoutAt(images, i, k);
          NotOfThatName(images, sample, if k < i then k else k + 1);
        }
      }
    }
  }

  lemma NotOfThatName(images: seq<Image>, sample: Sample, k: nat)
    requires forall i, j | 0 <= i < j < |images| :: images[i].sample.number < images[j].sample.number
    requires k < |images| && k != IndexOf(images, sample)
    ensures images[k].sample != sample
  {
    if images[k].sample == sample {
      OnlyOneOfItsName(images, sample, k);
    }
  }
}
