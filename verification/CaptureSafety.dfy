/**
 * What every reachable state of the budgeted capture satisfies
 * (engine/src/control/remote_dataset.cpp).
 */
module DatasetCaptureSafety {
  import opened DatasetCapture

  // ---------------------------------------------------------------------------
  // The invariant.

  function Flight(s: Store): seq<Job> { (if s.encode.Some? then [s.encode.value] else []) + s.jobs }

  function RawBytes(jobs: seq<Job>): nat { if jobs == [] then 0 else jobs[0].bytes + RawBytes(jobs[1..]) }

  function JobsOf(jobs: seq<Job>, k: nat): nat {
    if jobs == [] then 0 else (if jobs[0].task == k then 1 else 0) + JobsOf(jobs[1..], k)
  }

  function ImageBytes(images: seq<Image>): nat { if images == [] then 0 else images[0].bytes + ImageBytes(images[1..]) }

  function ChannelBytes(table: map<nat, nat>, tasks: map<nat, Task>, c: nat): nat {
    if c in table && table[c] in tasks then ImageBytes(tasks[table[c]].images) else 0
  }

  /** The stored bytes of the first `n` channels. */
  function StoredBytes(table: map<nat, nat>, tasks: map<nat, Task>, n: nat): nat {
    if n == 0 then 0 else StoredBytes(table, tasks, n - 1) + ChannelBytes(table, tasks, n - 1)
  }

  ghost predicate TableInv(s: Store) {
    && (forall c | c in s.table :: c < CHANNELS && s.table[c] in s.tasks && s.tasks[s.table[c]].channel == c)
    && (forall k | k in s.tasks :: k < s.next)
  }

  /** Whose frame is queued or being encoded is still the task its channel holds. */
  ghost predicate JobsInv(s: Store) {
    && |s.jobs| <= MAX_JOBS
    && forall i | 0 <= i < |Flight(s)| :: StillCurrent(s, Flight(s)[i].task)
  }

  /** Every match is accounted for, exactly. */
  ghost predicate Fair(t: Task) {
    && 0 <= t.encoding && t.encoding + |t.images| <= TASK_SLOTS
    && t.matched == t.skipped + t.encoding + |t.images| + t.acked + t.unread
    && forall i | 0 <= i < |t.images| :: 0 < t.images[i].bytes <= MAX_JPEG
  }

  ghost predicate TasksInv(s: Store) {
    forall c | Held(s, c) :: Fair(TaskOf(s, c)) && TaskOf(s, c).encoding == JobsOf(Flight(s), s.table[c])
  }

  ghost predicate BytesInv(s: Store) {
    && s.raw == RawBytes(Flight(s)) && s.jpeg == StoredBytes(s.table, s.tasks, CHANNELS)
    && s.raw + s.jpeg <= BUDGET
  }

  ghost predicate Inv(s: Store) { TableInv(s) && JobsInv(s) && TasksInv(s) && BytesInv(s) }

  // ---------------------------------------------------------------------------
  // Sums.

  lemma {:induction false} RawBytesAppend(jobs: seq<Job>, j: Job)
    ensures RawBytes(jobs + [j]) == RawBytes(jobs) + j.bytes
    ensures forall k :: JobsOf(jobs + [j], k) == JobsOf(jobs, k) + (if j.task == k then 1 else 0)
    decreases |jobs|
  {
    if jobs == [] {
      assert jobs + [j] == [j] && [j][1..] == [];
    } else {
      RawBytesAppend(jobs[1..], j);
      assert (jobs + [j])[1..] == jobs[1..] + [j];
    }
  }

  lemma {:induction false} ImageBytesAppend(images: seq<Image>, x: Image)
    ensures ImageBytes(images + [x]) == ImageBytes(images) + x.bytes
    decreases |images|
  {
    if images == [] {
      assert images + [x] == [x] && [x][1..] == [];
    } else {
      ImageBytesAppend(images[1..], x);
      assert (images + [x])[1..] == images[1..] + [x];
    }
  }

  lemma {:induction false} ImageBytesWithout(images: seq<Image>, i: nat)
    requires i < |images|
    ensures ImageBytes(images[..i] + images[i + 1..]) == ImageBytes(images) - images[i].bytes
    decreases i
  {
    if i == 0 {
      assert images[..0] + images[1..] == images[1..];
    } else {
      ImageBytesWithout(images[1..], i - 1);
      assert (images[..i] + images[i + 1..])[1..] == images[1..][..i - 1] + images[1..][i..];
    }
  }

  lemma {:induction false} NoJobs(jobs: seq<Job>, k: nat)
    requires forall i | 0 <= i < |jobs| :: jobs[i].task != k
    ensures JobsOf(jobs, k) == 0
    decreases |jobs|
  {
    if jobs != [] {
      NoJobs(jobs[1..], k);
    }
  }

  lemma {:induction false} SomeJob(jobs: seq<Job>, i: nat)
    requires i < |jobs|
    ensures JobsOf(jobs, jobs[i].task) > 0
    decreases i
  {
    if i > 0 {
      SomeJob(jobs[1..], i - 1);
    }
  }

  /** Changing one held task changes the sum by the change of its images. */
  lemma {:induction false} StoredBytesWith(s: Store, c: nat, t: Task, n: nat)
    requires TableInv(s) && Held(s, c)
    ensures StoredBytes(s.table, s.tasks[s.table[c] := t], n)
         == StoredBytes(s.table, s.tasks, n) + (if c < n then ImageBytes(t.images) - ImageBytes(TaskOf(s, c).images) else 0)
    decreases n
  {
    if n > 0 {
      StoredBytesWith(s, c, t, n - 1);
    }
  }

  lemma {:induction false} StoredBytesAgree(a: Store, b: Store, n: nat)
    requires forall c: nat | c < n :: ChannelBytes(a.table, a.tasks, c) == ChannelBytes(b.table, b.tasks, c)
    ensures StoredBytes(a.table, a.tasks, n) == StoredBytes(b.table, b.tasks, n)
    decreases n
  {
    if n > 0 {
      StoredBytesAgree(a, b, n - 1);
    }
  }

  // ---------------------------------------------------------------------------
  // Every step keeps it.

  lemma ChangeKeepsTable(s: Store, c: nat, t: Task)
    requires TableInv(s) && Held(s, c) && t.channel == c
    ensures TableInv(With(s, s.table[c], t)) && (JobsInv(s) ==> JobsInv(With(s, s.table[c], t)))
  {
    var u := With(s, s.table[c], t);
    assert Flight(u) == Flight(s);
    if JobsInv(s) {
      forall i | 0 <= i < |Flight(u)| ensures StillCurrent(u, Flight(u)[i].task) {
        assert StillCurrent(s, Flight(s)[i].task);
      }
    }
  }

  /** Two channels never hold the same task. */
  lemma TasksAreApart(s: Store, c: nat, d: nat)
    requires TableInv(s) && Held(s, c) && Held(s, d) && c != d
    ensures s.table[c] != s.table[d]
  {
  }

  /** Everything but the stored bytes and the budget. */
  ghost predicate Loose(s: Store) { TableInv(s) && JobsInv(s) && TasksInv(s) && s.raw == RawBytes(Flight(s)) }

  lemma HeldIsFair(s: Store, c: nat)
    requires Inv(s) && Held(s, c)
    ensures Fair(TaskOf(s, c)) && TaskOf(s, c).channel == c && s.raw + s.jpeg <= BUDGET
  {
  }

  /** A change of one task that leaves its number of jobs alone. */
  lemma ChangeKeeps(s: Store, c: nat, t: Task)
    requires Inv(s) && Held(s, c) && t.channel == c && Fair(t) && t.encoding == TaskOf(s, c).encoding
    ensures var u := With(s, s.table[c], t);
            Loose(u) && StoredBytes(u.table, u.tasks, CHANNELS) == s.jpeg + ImageBytes(t.images) - ImageBytes(TaskOf(s, c).images)
  {
    var u := With(s, s.table[c], t);
    ChangeKeepsTable(s, c, t);
    StoredBytesWith(s, c, t, CHANNELS);
    assert Flight(u) == Flight(s);
    forall d | Held(u, d) ensures Fair(TaskOf(u, d)) && TaskOf(u, d).encoding == JobsOf(Flight(u), u.table[d]) {
      assert Held(s, d);
    }
  }

  lemma SkipKeeps(s: Store, c: nat, t: Task)
    requires Inv(s) && Held(s, c) && t.images == TaskOf(s, c).images && t.encoding == TaskOf(s, c).encoding && t.channel == c && Fair(t)
    ensures Inv(With(s, s.table[c], t))
  {
    ChangeKeeps(s, c, t);
  }

  lemma PassedOverKeeps(s: Store, c: nat)
    requires Inv(s) && Held(s, c)
    ensures Inv(With(s, s.table[c], Skipped(TaskOf(s, c)))) && Inv(With(s, s.table[c], Unread(TaskOf(s, c))))
  {
    HeldIsFair(s, c);
    hide Inv;
    SkipKeeps(s, c, Skipped(TaskOf(s, c)));
    SkipKeeps(s, c, Unread(TaskOf(s, c)));
  }

  lemma ObserveKeeps(s: Store, c: nat, now: nat, frame: nat, estimate: nat, source: Option<nat>)
    requires Inv(s) && Held(s, c)
    ensures Inv(Observe(s, c, now, frame, estimate, source))
  {
    hide Inv, With, Accept;
    PassedOverKeeps(s, c);
    var t := TaskOf(s, c);
    if Collecting(t, now) && !Full(s, t, estimate) && source.Some? && s.raw + s.jpeg + source.value <= BUDGET {
      AcceptKeeps(s, c, Job(s.table[c], Sample(c, frame, t.matched + 1), source.value));
    }
  }

  /** A new job and a task that counts it. */
  lemma AcceptKeeps(s: Store, c: nat, j: Job)
    requires Inv(s) && Held(s, c) && j.task == s.table[c]
    requires TaskOf(s, c).encoding + |TaskOf(s, c).images| < TASK_SLOTS && |s.jobs| < MAX_JOBS && s.raw + s.jpeg + j.bytes <= BUDGET
    ensures Inv(Accept(s, c, j))
  {
    HeldIsFair(s, c);
    var t := Taken(TaskOf(s, c));
    var u := With(s, s.table[c], t);
    var v := Accept(s, c, j);
    ChangeKeepsTable(s, c, t);
    StoredBytesWith(s, c, t, CHANNELS);
    assert Flight(v) == Flight(s) + [j];
    RawBytesAppend(Flight(s), j);
    AcceptKeepsJobs(u, v, j);
    AcceptKeepsTasks(s, c, t, v, j);
  }

  lemma AcceptKeepsJobs(u: Store, v: Store, j: Job)
    requires JobsInv(u) && |u.jobs| < MAX_JOBS && v == u.(jobs := u.jobs + [j], raw := v.raw) && StillCurrent(u, j.task)
    ensures JobsInv(v)
  {
    assert Flight(v) == Flight(u) + [j];
    forall i | 0 <= i < |Flight(v)| ensures StillCurrent(v, Flight(v)[i].task) {
      assert i < |Flight(u)| ==> StillCurrent(u, Flight(u)[i].task);
    }
  }

  lemma AcceptKeepsTasks(s: Store, c: nat, t: Task, v: Store, j: Job)
    requires TableInv(s) && TasksInv(s) && Held(s, c) && j.task == s.table[c] && Fair(t) && t.encoding == TaskOf(s, c).encoding + 1
    requires v.table == s.table && v.tasks == s.tasks[s.table[c] := t] && Flight(v) == Flight(s) + [j]
    ensures TasksInv(v)
  {
    RawBytesAppend(Flight(s), j);
    forall d | Held(v, d) ensures Fair(TaskOf(v, d)) && TaskOf(v, d).encoding == JobsOf(Flight(v), v.table[d]) {
      assert Held(s, d);
      if d != c {
        TasksAreApart(s, c, d);
      }
    }
  }

  lemma StartKeeps(s: Store)
    requires Inv(s) && s.encode.None? && s.jobs != []
    ensures Inv(StartEncoding(s))
  {
    assert Flight(StartEncoding(s)) == Flight(s);
    forall c | Held(StartEncoding(s), c) ensures Fair(TaskOf(s, c)) && TaskOf(s, c).encoding == JobsOf(Flight(s), s.table[c]) {
      assert Held(s, c);
    }
  }

  lemma EncodedJobIsCurrent(s: Store)
    requires JobsInv(s) && s.encode.Some?
    ensures StillCurrent(s, s.encode.value.task)
  {
    assert Flight(s)[0] == s.encode.value;
  }

  lemma FinishKeeps(s: Store, ok: bool, size: nat)
    requires Inv(s) && s.encode.Some? && s.encode.value.task in s.tasks
    ensures Inv(FinishEncoding(s, ok, size))
  {
    hide JobsInv, TasksInv, BytesInv;
    var j := s.encode.value;
    EncodedJobIsCurrent(s);
    var c := s.tasks[j.task].channel;
    var v := FinishEncoding(s, ok, size);
    var t := v.tasks[j.task];
    FinishedTaskIsFair(s, ok, size);
    assert Flight(s) == [j] + Flight(v) && Flight(s)[1..] == Flight(v);
    ChangeKeepsTable(s, c, t);
    FinishKeepsJobs(s, v);
    FinishKeepsTasks(s, c, t, v, j);
    FinishKeepsBytes(s, ok, size);
  }

  /** A job is done, and one task and the counters have changed accordingly. */
  lemma DoneKeepsBytes(s: Store, v: Store, c: nat, t: Task, j: Job)
    requires TableInv(s) && BytesInv(s) && Held(s, c) && Flight(s) == [j] + Flight(v)
    requires v.table == s.table && v.tasks == s.tasks[s.table[c] := t] && v.raw == s.raw - j.bytes
    requires v.jpeg - s.jpeg == ImageBytes(t.images) - ImageBytes(TaskOf(s, c).images) && v.raw + v.jpeg <= BUDGET
    ensures BytesInv(v)
  {
    StoredBytesWith(s, c, t, CHANNELS);
    assert Flight(s)[1..] == Flight(v);
  }

  lemma FinishKeepsBytes(s: Store, ok: bool, size: nat)
    requires Inv(s) && s.encode.Some? && StillCurrent(s, s.encode.value.task)
    ensures BytesInv(FinishEncoding(s, ok, size))
  {
    hide StoredBytes, JobsInv, TasksInv, RawBytes, ImageBytes, Fair;
    var j, v := s.encode.value, FinishEncoding(s, ok, size);
    FinishedTaskIsFair(s, ok, size);
    JpegIsStored(s);
    assert Flight(s) == [j] + Flight(v);
    DoneKeepsBytes(s, v, s.tasks[j.task].channel, v.tasks[j.task], j);
  }

  lemma FinishedTaskIsFair(s: Store, ok: bool, size: nat)
    requires Inv(s) && s.encode.Some? && StillCurrent(s, s.encode.value.task)
    ensures var t, u := s.tasks[s.encode.value.task], FinishEncoding(s, ok, size).tasks[s.encode.value.task];
            Fair(u) && u.channel == t.channel && u.encoding == t.encoding - 1
            && ImageBytes(u.images) - ImageBytes(t.images) == FinishEncoding(s, ok, size).jpeg - s.jpeg
  {
    var j := s.encode.value;
    HeldIsFair(s, s.tasks[j.task].channel);
    assert Flight(s)[0] == j;
    SomeJob(Flight(s), 0);
    ImageBytesAppend(s.tasks[j.task].images, Image(j.sample, size));
  }

  lemma FinishKeepsJobs(s: Store, v: Store)
    requires JobsInv(s) && s.encode.Some? && v.table == s.table && v.encode.None? && v.jobs == s.jobs
    requires forall k | StillCurrent(s, k) :: StillCurrent(v, k)
    ensures JobsInv(v)
  {
    forall i | 0 <= i < |Flight(v)| ensures StillCurrent(v, Flight(v)[i].task) {
      assert Flight(v)[i] == Flight(s)[i + 1];
      assert StillCurrent(s, Flight(s)[i + 1].task);
    }
  }

  lemma FinishKeepsTasks(s: Store, c: nat, t: Task, v: Store, j: Job)
    requires TableInv(s) && TasksInv(s) && Held(s, c) && j.task == s.table[c] && Fair(t) && t.encoding == TaskOf(s, c).encoding - 1
    requires v.table == s.table && v.tasks == s.tasks[s.table[c] := t] && Flight(s) == [j] + Flight(v)
    ensures TasksInv(v)
  {
    assert Flight(s)[1..] == Flight(v);
    forall d | Held(v, d) ensures Fair(TaskOf(v, d)) && TaskOf(v, d).encoding == JobsOf(Flight(v), v.table[d]) {
      assert Held(s, d);
      if d != c {
        TasksAreApart(s, c, d);
      }
    }
  }

  lemma ResumeKeeps(s: Store, r: Request)
    requires Inv(s) && Held(s, r.channel)
    ensures Inv(Resumed(s, r))
  {
    var k := s.table[r.channel];
    SkipKeeps(s, r.channel, Resumed(s, r).tasks[k]);
    RefreshKeeps(With(s, k, Resumed(s, r).tasks[k]));
  }

  lemma RefreshKeeps(s: Store)
    requires Inv(s)
    ensures Inv(Refreshed(s))
  {
    assert Flight(Refreshed(s)) == Flight(s);
    forall c | Held(Refreshed(s), c) ensures Fair(TaskOf(s, c)) && TaskOf(s, c).encoding == JobsOf(Flight(s), s.table[c]) {
      assert Held(s, c);
    }
  }

  /** A channel whose task is idle, or that has none. */
  predicate Vacant(s: Store, c: nat) { !Held(s, c) || Idle(TaskOf(s, c)) }

  lemma VacantHasNoJobs(s: Store, c: nat, i: nat)
    requires JobsInv(s) && TasksInv(s) && TableInv(s) && Vacant(s, c) && i < |Flight(s)|
    ensures s.tasks[Flight(s)[i].task].channel != c
  {
    SomeJob(Flight(s), i);
    assert StillCurrent(s, Flight(s)[i].task);
    assert Held(s, s.tasks[Flight(s)[i].task].channel);
  }

  lemma VacatedKeepsJobs(s: Store, v: Store, c: nat)
    requires JobsInv(s) && TasksInv(s) && TableInv(s) && Vacant(s, c) && v.jobs == s.jobs && v.encode == s.encode
    requires forall k | StillCurrent(s, k) && s.tasks[k].channel != c :: StillCurrent(v, k)
    ensures JobsInv(v)
  {
    assert Flight(v) == Flight(s);
    forall i | 0 <= i < |Flight(v)| ensures StillCurrent(v, Flight(v)[i].task) {
      VacantHasNoJobs(s, c, i);
      assert StillCurrent(s, Flight(s)[i].task);
    }
  }

  lemma NewSerialHasNoJobs(s: Store)
    requires TableInv(s) && JobsInv(s)
    ensures JobsOf(Flight(s), s.next) == 0
  {
    forall i | 0 <= i < |Flight(s)| ensures Flight(s)[i].task != s.next {
      assert StillCurrent(s, Flight(s)[i].task);
    }
    NoJobs(Flight(s), s.next);
  }

  /** Outside channel `c` the two stores hold the same tasks. */
  ghost predicate SameBut(s: Store, v: Store, c: nat) {
    && v.jobs == s.jobs && v.encode == s.encode && v.raw == s.raw && v.jpeg == s.jpeg
    && forall d | d != c :: (Held(v, d) <==> Held(s, d)) && (Held(s, d) ==> v.table[d] == s.table[d] && TaskOf(v, d) == TaskOf(s, d))
  }

  lemma SameButKeepsTasks(s: Store, v: Store, c: nat)
    requires TasksInv(s) && SameBut(s, v, c)
    requires Held(v, c) ==> Fair(TaskOf(v, c)) && TaskOf(v, c).encoding == JobsOf(Flight(s), v.table[c])
    ensures TasksInv(v)
  {
    assert Flight(v) == Flight(s);
    forall d | Held(v, d) ensures Fair(TaskOf(v, d)) && TaskOf(v, d).encoding == JobsOf(Flight(v), v.table[d]) {
      assert d != c ==> Held(s, d);
    }
  }

  lemma SameButKeepsBytes(s: Store, v: Store, c: nat)
    requires BytesInv(s) && SameBut(s, v, c) && Vacant(s, c) && Vacant(v, c)
    ensures BytesInv(v)
  {
    assert Flight(v) == Flight(s);
    forall d: nat | d < CHANNELS ensures ChannelBytes(s.table, s.tasks, d) == ChannelBytes(v.table, v.tasks, d) {
      assert d != c ==> (Held(v, d) <==> Held(s, d));
    }
    StoredBytesAgree(s, v, CHANNELS);
  }

  lemma InstallKeeps(s: Store, c: nat, t: Task)
    requires Inv(s) && c < CHANNELS && Vacant(s, c) && t.channel == c && Idle(t) && t.matched == t.skipped == t.acked == t.unread == 0
    ensures Inv(s.(table := s.table[c := s.next], tasks := s.tasks[s.next := t], next := s.next + 1))
  {
    var v := s.(table := s.table[c := s.next], tasks := s.tasks[s.next := t], next := s.next + 1);
    NewSerialHasNoJobs(s);
    hide JobsInv, TasksInv, BytesInv;
    assert TableInv(v) && SameBut(s, v, c);
    VacatedKeepsJobs(s, v, c);
    SameButKeepsTasks(s, v, c);
    SameButKeepsBytes(s, v, c);
  }

  lemma DropKeeps(s: Store, c: nat)
    requires Inv(s) && Held(s, c) && Idle(TaskOf(s, c))
    ensures Inv(s.(table := s.table - {c}))
  {
    hide JobsInv, TasksInv, BytesInv;
    var v := s.(table := s.table - {c});
    VacatedKeepsJobs(s, v, c);
    SameButKeepsTasks(s, v, c);
    SameButKeepsBytes(s, v, c);
  }

  lemma CountedKeeps(s: Store, c: nat, saved: nat)
    requires Inv(s) && Held(s, c)
    ensures Inv(With(s, s.table[c], Counted(TaskOf(s, c), saved)))
  {
    HeldIsFair(s, c);
    hide Inv;
    SkipKeeps(s, c, Counted(TaskOf(s, c), saved));
  }

  lemma ReleasedIsFair(t: Task, i: nat)
    requires Fair(t) && i < |t.images|
    ensures var u := Released(t, i);
            Fair(u) && u.channel == t.channel && u.encoding == t.encoding && ImageBytes(u.images) == ImageBytes(t.images) - t.images[i].bytes
  {
    ImageBytesWithout(t.images, i);
  }

  /** A change of one task by which its images lose so many bytes. */
  lemma LighterKeeps(s: Store, c: nat, t: Task, bytes: nat)
    requires Inv(s) && Held(s, c) && t.channel == c && Fair(t) && t.encoding == TaskOf(s, c).encoding
    requires ImageBytes(t.images) == ImageBytes(TaskOf(s, c).images) - bytes
    ensures Inv(With(s, s.table[c], t).(jpeg := s.jpeg - bytes))
  {
    HeldIsFair(s, c);
    ChangeKeeps(s, c, t);
    hide Inv, Loose, StoredBytes, ImageBytes, Fair;
    LowerKeeps(With(s, s.table[c], t), s.jpeg - bytes);
  }

  lemma ReleasedKeeps(s: Store, c: nat, saved: nat, i: nat)
    requires Inv(s) && Held(s, c) && i < |TaskOf(s, c).images|
    ensures var t := Counted(TaskOf(s, c), saved);
            Inv(With(s, s.table[c], Released(t, i)).(jpeg := s.jpeg - t.images[i].bytes))
  {
    var t := Counted(TaskOf(s, c), saved);
    HeldIsFair(s, c);
    assert Fair(t);
    hide Inv, With, Fair;
    ReleasedIsFair(t, i);
    LighterKeeps(s, c, Released(t, i), t.images[i].bytes);
  }

  lemma AckKeeps(s: Store, c: nat, id: string, sample: Sample, saved: nat)
    requires Inv(s)
    ensures Inv(AckOne(s, c, id, sample, saved))
  {
    hide Inv, With, Released;
    if Held(s, c) && TaskOf(s, c).id == id {
      CountedKeeps(s, c, saved);
      var i := IndexOf(TaskOf(s, c).images, sample);
      if i < |TaskOf(s, c).images| {
        ReleasedKeeps(s, c, saved, i);
      }
    }
  }

  lemma JpegIsStored(s: Store)
    requires Inv(s)
    ensures s.jpeg == StoredBytes(s.table, s.tasks, CHANNELS) && s.raw + s.jpeg <= BUDGET
  {
  }

  lemma LowerKeeps(u: Store, jpeg: int)
    requires Loose(u) && u.raw + jpeg <= BUDGET && jpeg == StoredBytes(u.table, u.tasks, CHANNELS)
    ensures Inv(u.(jpeg := jpeg))
  {
    var v := u.(jpeg := jpeg);
    assert Flight(v) == Flight(u);
    forall c | Held(v, c) ensures Fair(TaskOf(v, c)) && TaskOf(v, c).encoding == JobsOf(Flight(v), v.table[c]) {
      assert Held(u, c);
    }
  }

  lemma {:induction false} AckAllKeeps(s: Store, id: string, sample: Sample, saved: nat, n: nat)
    requires Inv(s)
    ensures Inv(AckAll(s, id, sample, saved, n))
    decreases n
  {
    hide Inv, AckOne;
    if n > 0 {
      AckAllKeeps(s, id, sample, saved, n - 1);
      AckKeeps(AckAll(s, id, sample, saved, n - 1), n - 1, id, sample, saved);
    }
  }

  lemma {:induction false} RemoveKeeps(s: Store, id: string, n: nat)
    requires Inv(s)
    ensures Inv(RemoveTo(s, id, n).store)
    decreases n
  {
    if n > 0 {
      RemoveKeeps(s, id, n - 1);
      var before := RemoveTo(s, id, n - 1);
      if !(before.refused || !Held(before.store, n - 1) || TaskOf(before.store, n - 1).id != id) && Idle(TaskOf(before.store, n - 1)) {
        DropKeeps(before.store, n - 1);
      }
    }
  }

  lemma ConfigureKeeps(s: Store, r: Request)
    requires Inv(s) && r.channel < CHANNELS
    ensures Inv(Configure(s, r))
  {
    if Held(s, r.channel) && Same(TaskOf(s, r.channel), r.id, r.revision) {
      ResumeKeeps(s, r);
    } else if Vacant(s, r.channel) && r.saved.Some? && r.deadline.Some? && r.valid {
      InstallKeeps(s, r.channel, NewTask(r));
      RefreshKeeps(s.(table := s.table[r.channel := s.next], tasks := s.tasks[s.next := NewTask(r)], next := s.next + 1));
    }
  }

  lemma StepKeeps(s: Store, a: Action)
    requires Inv(s) && Can(s, a)
    ensures Inv(Do(s, a))
  {
    match a
    case AObserve(c, now, frame, estimate, source) => ObserveKeeps(s, c, now, frame, estimate, source);
    case AStartEncoding => StartKeeps(s);
    case AFinishEncoding(ok, size) => FinishKeeps(s, ok, size);
    case AConfigure(r) => ConfigureKeeps(s, r);
    case AAck(id, sample, saved) => AckAllKeeps(s, id, sample, saved, CHANNELS);
    case ARemove(id) =>
      RemoveKeeps(s, id, CHANNELS);
      RefreshKeeps(RemoveTo(s, id, CHANNELS).store);
  }

  lemma {:induction false} NothingStored(n: nat)
    ensures StoredBytes(map[], map[], n) == 0
    decreases n
  {
    if n > 0 {
      NothingStored(n - 1);
    }
  }

  lemma {:induction false} RunKeeps(s: Store, run: seq<Action>, t: Store)
    requires Inv(s) && Executes(s, run, t)
    ensures Inv(t)
    decreases |run|
  {
    if run != [] {
      StepKeeps(s, run[0]);
      RunKeeps(Do(s, run[0]), run[1..], t);
    }
  }

  lemma ReachableInv(s: Store)
    requires Reachable(s)
    ensures Inv(s)
  {
    var run :| Executes(EMPTY, run, s);
    NothingStored(CHANNELS);
    RunKeeps(EMPTY, run, s);
  }

  // ---------------------------------------------------------------------------
  // The claims.

  /** The counters are exact, never negative, and together within the budget. */
  lemma BudgetHolds(s: Store)
    requires Reachable(s)
    ensures s.raw == RawBytes(Flight(s)) && s.jpeg == StoredBytes(s.table, s.tasks, CHANNELS)
    ensures 0 <= s.raw && 0 <= s.jpeg && s.raw + s.jpeg <= 67108864 && |s.jobs| <= 2
  {
    ReachableInv(s);
  }

  /** A task has at most eight images encoding or stored, and its counts add up to its matches. */
  lemma TasksAreAccounted(s: Store, c: nat)
    requires Reachable(s) && Held(s, c)
    ensures var t := TaskOf(s, c);
            t.encoding == JobsOf(Flight(s), s.table[c]) && t.encoding + |t.images| <= TASK_SLOTS
            && t.skipped + t.encoding + |t.images| + t.acked <= t.matched
            && t.matched == t.skipped + t.encoding + |t.images| + t.acked + t.unread
  {
    ReachableInv(s);
    assert Fair(TaskOf(s, c));
  }

  /** The encoder's check that its task is still current never fails, and what it encoded counts there. */
  lemma EncodedTaskIsCurrent(s: Store, ok: bool, size: nat)
    requires Reachable(s) && s.encode.Some?
    ensures StillCurrent(s, s.encode.value.task)
    ensures var k, u := s.encode.value.task, FinishEncoding(s, ok, size);
            StillCurrent(u, k) && u.tasks[k].encoding == s.tasks[k].encoding - 1
            && if ok && 0 < size <= 12582912 && s.jpeg + s.raw - s.encode.value.bytes + size <= 67108864
               then u.tasks[k].images == s.tasks[k].images + [Image(s.encode.value.sample, size)]
               else u.tasks[k].images == s.tasks[k].images && u.tasks[k].skipped == s.tasks[k].skipped + 1
  {
    ReachableInv(s);
    EncodedJobIsCurrent(s);
  }

  /**
   * A frame on which the rules fired is taken exactly if its task is enabled, before its deadline and
   * below its limit, has fewer than eight images, at most one job waits, the frame can be read, and
   * both its estimate and its size fit into 64 MiB with what is held.
   */
  lemma FrameIsTakenIff(s: Store, c: nat, now: nat, frame: nat, estimate: nat, source: Option<nat>)
    requires Held(s, c)
    ensures var t, u := TaskOf(s, c), Do(s, AObserve(c, now, frame, estimate, source));
            var wanted := t.enabled && (t.deadline == 0 || now < t.deadline) && (t.limit == 0 || t.saved + t.encoding + |t.images| < t.limit);
            var room := t.encoding + |t.images| < 8 && |s.jobs| < 2 && estimate <= 67108864 && s.raw + s.jpeg + estimate <= 67108864;
            && (!wanted ==> u == s)
            && (wanted ==> Held(u, c) && TaskOf(u, c).matched == t.matched + 1)
            && (if wanted && room && source.Some? && s.raw + s.jpeg + source.value <= 67108864
                then u.jobs == s.jobs + [Job(s.table[c], Sample(c, frame, t.matched + 1), source.value)]
                     && TaskOf(u, c) == t.(matched := t.matched + 1, encoding := t.encoding + 1)
                else u.jobs == s.jobs && u.raw == s.raw)
            && (wanted && room && source.None? ==> TaskOf(u, c) == t.(matched := t.matched + 1, unread := t.unread + 1))
            && (wanted && !(room && source.None?) && u.jobs == s.jobs ==> TaskOf(u, c) == t.(matched := t.matched + 1, skipped := t.skipped + 1))
  {
  }

  /** What a configuration of a known task does once its numbers are read: the switch, the larger count, the deadline. */
  lemma KnownTaskIsUpdated(s: Store, r: Request)
    requires Held(s, r.channel) && TaskOf(s, r.channel).id == r.id && TaskOf(s, r.channel).revision == r.revision
    requires r.saved.Some? && r.deadline.Some?
    ensures var t, u := TaskOf(s, r.channel), Configure(s, r);
            && Held(u, r.channel) && u.table == s.table && u.jobs == s.jobs && u.raw == s.raw && u.jpeg == s.jpeg
            && TaskOf(u, r.channel) == t.(enabled := r.enabled, deadline := r.deadline.value,
                                          saved := if r.saved.value > t.saved then r.saved.value else t.saved)
  {
  }

  /** A new task replaces an idle one or none, exactly if the request is well-formed; otherwise nothing changes. */
  lemma NewTaskIsInstalledIff(s: Store, r: Request)
    requires TableInv(s)
    requires Held(s, r.channel) ==> TaskOf(s, r.channel).id != r.id || TaskOf(s, r.channel).revision != r.revision
    ensures var u := Configure(s, r);
            if (Held(s, r.channel) ==> TaskOf(s, r.channel).images == [] && TaskOf(s, r.channel).encoding == 0)
               && r.saved.Some? && r.deadline.Some? && r.valid
            then Held(u, r.channel)
                 && (var t := TaskOf(u, r.channel);
                     && t.channel == r.channel && t.id == r.id && t.revision == r.revision && t.enabled == r.enabled
                     && t.saved == r.saved.value && t.limit == r.limit && t.deadline == r.deadline.value
                     && t.matched == t.skipped == t.acked == t.unread == t.encoding == 0 && t.images == [])
                 && forall d | d != r.channel && Held(s, d) :: Held(u, d) && TaskOf(u, d) == TaskOf(s, d)
            else u == s
  {
  }

  /** While a frame is queued or being encoded its task is neither replaced nor removed. */
  lemma TasksInFlightStay(s: Store, a: Action, i: nat)
    requires Reachable(s) && Can(s, a) && i < |Flight(s)|
    ensures StillCurrent(s, Flight(s)[i].task)
    ensures !a.AFinishEncoding? ==> StillCurrent(Do(s, a), Flight(s)[i].task)
  {
    ReachableInv(s);
    StepKeeps(s, a);
    assert StillCurrent(s, Flight(s)[i].task);
    if !a.AFinishEncoding? {
      JobsAreNeverLost(s, a);
      assert Flight(Do(s, a))[i] == Flight(s)[i];
      assert StillCurrent(Do(s, a), Flight(Do(s, a))[i].task);
    }
  }

  lemma {:induction false} AckLeavesJobs(s: Store, id: string, sample: Sample, saved: nat, n: nat)
    ensures var u := AckAll(s, id, sample, saved, n);
            Flight(u) == Flight(s) && u.table == s.table && Enabled(u.table, u.tasks) == Enabled(s.table, s.tasks) && u.mask == s.mask
    decreases n
  {
    if n > 0 {
      hide AckOne;
      AckLeavesJobs(s, id, sample, saved, n - 1);
      AckOneLeaves(AckAll(s, id, sample, saved, n - 1), n - 1, id, sample, saved);
    }
  }

  lemma AckOneLeaves(s: Store, c: nat, id: string, sample: Sample, saved: nat)
    ensures var u := AckOne(s, c, id, sample, saved);
            Flight(u) == Flight(s) && u.table == s.table && Enabled(u.table, u.tasks) == Enabled(s.table, s.tasks) && u.mask == s.mask
  {
  }

  lemma ConfigureLeavesJobs(s: Store, r: Request)
    ensures Flight(Configure(s, r)) == Flight(s)
  {
  }

  lemma ObserveAppends(s: Store, a: Action)
    requires a.AObserve? && Can(s, a)
    ensures Flight(s) <= Flight(Do(s, a))
  {
  }

  // ---------------------------------------------------------------------------
  // Removal stops half way, and the mask of active channels.

  predicate Holds(s: Store, c: nat, id: string) { Held(s, c) && TaskOf(s, c).id == id }

  predicate Blocks(s: Store, c: nat, id: string) { Holds(s, c, id) && !Idle(TaskOf(s, c)) }

  ghost predicate Clear(s: Store, id: string, n: nat) { forall c: nat | c < n :: !Blocks(s, c, id) }

  lemma ClearStep(s: Store, id: string, n: nat)
    ensures Clear(s, id, n + 1) <==> Clear(s, id, n) && !Blocks(s, n, id)
  {
    if Clear(s, id, n) && !Blocks(s, n, id) {
      forall c: nat | c < n + 1 ensures !Blocks(s, c, id) {
        assert c < n || c == n;
      }
    }
  }

  /** No channel up to `d` stands in the way of removing the task from `d`. */
  ghost predicate Goes(s: Store, d: nat, id: string) { Holds(s, d, id) && Clear(s, id, d + 1) }

  /** A removal takes the task from the channels below the first that cannot give it up, and is refused if there is one. */
  lemma {:induction false} RemovalReaches(s: Store, id: string, n: nat)
    ensures var r := RemoveTo(s, id, n);
            r.store == s.(table := r.store.table)
            && (r.refused <==> !Clear(s, id, n))
            && (forall d: nat :: d in r.store.table <==> d in s.table && !(d < n && Goes(s, d, id)))
            && (forall d | d in r.store.table :: r.store.table[d] == s.table[d])
    decreases n
  {
    if n > 0 {
      RemovalReaches(s, id, n - 1);
      var before := RemoveTo(s, id, n - 1);
      ClearStep(s, id, n - 1);
      assert Held(before.store, n - 1) <==> Held(s, n - 1);
      assert Goes(s, n - 1, id) <==> Holds(s, n - 1, id) && !before.refused && Idle(TaskOf(s, n - 1));
    }
  }

  ghost predicate MaskExact(s: Store) { s.mask == Enabled(s.table, s.tasks) }

  /** The two requests that change who is enabled and throw before the mask is refreshed. */
  ghost predicate LeavesMaskBehind(s: Store, a: Action) {
    match a
    case AConfigure(r) =>
      && Held(s, r.channel) && Same(TaskOf(s, r.channel), r.id, r.revision)
      && (r.saved.None? || r.deadline.None?) && r.enabled != TaskOf(s, r.channel).enabled
    case ARemove(id) =>
      && !Clear(s, id, CHANNELS)
      && (exists d: nat | d < CHANNELS :: Goes(s, d, id) && TaskOf(s, d).enabled)
    case _ => false
  }

  lemma MaskAfterResume(s: Store, r: Request)
    requires TableInv(s) && MaskExact(s) && Held(s, r.channel)
    ensures MaskExact(Resumed(s, r)) <==> (r.saved.Some? && r.deadline.Some?) || r.enabled == TaskOf(s, r.channel).enabled
  {
    var u := Resumed(s, r);
    var k := s.table[r.channel];
    assert u.tasks[k].enabled == r.enabled;
    assert r.channel in Enabled(u.table, u.tasks) <==> r.enabled;
    assert r.channel in s.mask <==> TaskOf(s, r.channel).enabled;
    if r.enabled == TaskOf(s, r.channel).enabled {
      assert Enabled(u.table, u.tasks) == Enabled(s.table, s.tasks);
    }
  }

  lemma MaskAfterRemove(s: Store, id: string)
    requires TableInv(s) && MaskExact(s)
    ensures MaskExact(Remove(s, id)) <==> !LeavesMaskBehind(s, ARemove(id))
  {
    RemovalReaches(s, id, CHANNELS);
    var r := RemoveTo(s, id, CHANNELS);
    if r.refused {
      forall d | d in s.mask ensures d in Enabled(r.store.table, s.tasks) <==> !Goes(s, d, id) {
        assert d in s.table;
      }
      assert MaskExact(r.store) <==> forall d | d in s.mask :: !Goes(s, d, id);
    }
  }

  lemma MaskAfterConfigure(s: Store, r: Request)
    requires TableInv(s) && MaskExact(s) && r.channel < CHANNELS
    ensures MaskExact(Configure(s, r)) <==> !LeavesMaskBehind(s, AConfigure(r))
  {
    if Held(s, r.channel) && Same(TaskOf(s, r.channel), r.id, r.revision) {
      MaskAfterResume(s, r);
    }
  }

  /** The mask of active channels stays exact in every step but those two. */
  lemma MaskStaysExact(s: Store, a: Action)
    requires Inv(s) && Can(s, a) && MaskExact(s)
    ensures MaskExact(Do(s, a)) <==> !LeavesMaskBehind(s, a)
  {
    match a
    case AObserve(_, _, _, _, _) => MaskAfterObserve(s, a);
    case AStartEncoding =>
    case AFinishEncoding(ok, size) => MaskAfterFinish(s, ok, size);
    case AConfigure(r) => MaskAfterConfigure(s, r);
    case AAck(id, sample, saved) => AckLeavesJobs(s, id, sample, saved, CHANNELS);
    case ARemove(id) => MaskAfterRemove(s, id);
  }

  lemma MaskAfterObserve(s: Store, a: Action)
    requires MaskExact(s) && a.AObserve? && Can(s, a)
    ensures MaskExact(Do(s, a))
  {
  }

  lemma MaskAfterFinish(s: Store, ok: bool, size: nat)
    requires MaskExact(s) && s.encode.Some? && s.encode.value.task in s.tasks
    ensures MaskExact(FinishEncoding(s, ok, size))
  {
    var u := FinishEncoding(s, ok, size);
    assert u.tasks[s.encode.value.task].enabled == s.tasks[s.encode.value.task].enabled;
  }

  /** A request that switches a task on and carries a malformed number leaves an enabled channel out of the mask. */
  lemma EnabledChannelCanBeMasked() returns (s: Store)
    ensures Reachable(s) && Held(s, 3) && TaskOf(s, 3).enabled && 3 !in s.mask
  {
    var off := Request(3, "a", "1", false, Some(0), Some(0), 0, true);
    var on := Request(3, "a", "1", true, None, Some(0), 0, true);
    var one := Do(EMPTY, AConfigure(off));
    s := Do(one, AConfigure(on));
    var run := [AConfigure(off), AConfigure(on)];
    assert run[1..] == [AConfigure(on)] && run[1..][1..] == [];
    assert Executes(s, run[1..][1..], s);
    assert Executes(one, run[1..], s);
    assert Executes(EMPTY, run, s);
  }

  lemma {:induction false} Then(s: Store, run: seq<Action>, t: Store, a: Action)
    requires Executes(s, run, t) && Can(t, a)
    ensures Executes(s, run + [a], Do(t, a))
    decreases |run|
  {
    if run == [] {
      assert [a][1..] == [];
      assert run + [a] == [a];
    } else {
      Then(Do(s, run[0]), run[1..], t, a);
      assert (run + [a])[1..] == run[1..] + [a];
    }
  }

  lemma ThenReachable(s: Store, a: Action) returns (t: Store)
    requires Reachable(s) && Can(s, a)
    ensures t == Do(s, a) && Reachable(t)
  {
    var run :| Executes(EMPTY, run, s);
    Then(EMPTY, run, s, a);
    t := Do(s, a);
  }

  /** Channels 1 and 2 hold the task "a", and channel 2 has a frame waiting. */
  lemma SharedTask() returns (s: Store)
    ensures Reachable(s) && MaskExact(s)
    ensures s.table.Keys == {1, 2} && Held(s, 1) && Held(s, 2)
    ensures TaskOf(s, 1).id == TaskOf(s, 2).id == "a" && TaskOf(s, 1).enabled
    ensures Idle(TaskOf(s, 1)) && TaskOf(s, 2).encoding == 1
  {
    assert Executes(EMPTY, [], EMPTY);
    s := ThenReachable(EMPTY, AConfigure(Request(1, "a", "1", true, Some(0), Some(0), 0, true)));
    assert s.table == map[1 := 0];
    s := ThenReachable(s, AConfigure(Request(2, "a", "1", true, Some(0), Some(0), 0, true)));
    assert s.table == map[1 := 0, 2 := 1];
    var before := s;
    s := ThenReachable(s, AObserve(2, 0, 0, 100, Some(100)));
    MaskAfterObserve(before, AObserve(2, 0, 0, 100, Some(100)));
  }

  /** A removal refused because of channel 2 has already taken the task from channel 1, which stays in the mask. */
  lemma RefusedRemovalLeavesMask() returns (s: Store, id: string)
    ensures Reachable(s) && MaskExact(s) && LeavesMaskBehind(s, ARemove(id))
    ensures !MaskExact(Do(s, ARemove(id))) && 1 in Do(s, ARemove(id)).mask && 1 !in Do(s, ARemove(id)).table
  {
    s := SharedTask();
    id := "a";
    ReachableInv(s);
    hide Inv, LeavesMaskBehind, MaskExact;
    SecondHolderBlocks(s, id, 1, 2);
    MaskStaysExact(s, ARemove(id));
  }

  lemma SecondHolderBlocks(s: Store, id: string, c: nat, d: nat)
    requires MaskExact(s) && c < d < CHANNELS && s.table.Keys == {c, d} && Holds(s, c, id) && Blocks(s, d, id)
    requires TaskOf(s, c).enabled && Idle(TaskOf(s, c))
    ensures LeavesMaskBehind(s, ARemove(id)) && c in Remove(s, id).mask && c !in Remove(s, id).table
  {
    FirstGoes(s, id, c, d);
    hide RemoveTo, Clear, Blocks;
    RemovalReaches(s, id, CHANNELS);
    assert c in s.mask;
  }

  lemma FirstGoes(s: Store, id: string, c: nat, d: nat)
    requires c < d < CHANNELS && s.table.Keys == {c, d} && Holds(s, c, id) && Blocks(s, d, id) && Idle(TaskOf(s, c))
    ensures Goes(s, c, id) && !Clear(s, id, CHANNELS)
  {
    assert forall e: nat | e < c + 1 && Held(s, e) :: e == c;
  }

  lemma JobsAreNeverLost(s: Store, a: Action)
    requires Can(s, a) && !a.AFinishEncoding?
    ensures Flight(s) <= Flight(Do(s, a))
  {
    hide With, Resumed, NewTask, AckOne;
    if a.AAck? {
      AckLeavesJobs(s, a.id, a.sample, a.saved, CHANNELS);
    } else if a.ARemove? {
      RemovalReaches(s, a.id, CHANNELS);
    } else if a.AConfigure? {
      ConfigureLeavesJobs(s, a.request);
    } else if a.AObserve? {
      ObserveAppends(s, a);
    }
  }
}
