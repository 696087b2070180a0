/**
 * Budgeted dataset capture (engine/src/control/remote_dataset.cpp): an observer, one encoder
 * and a command handler share a task table, a job queue and two byte counters under one mutex.
 *
 * A task object is named by a serial number, so that replacing a channel's task is visible:
 * `table` says which object a channel holds, `tasks` what each object contains. `acked` and
 * `unread` record what happened; the program does not keep them.
 */
module DatasetCapture {
  datatype Option<T> = None | Some(value: T)

  datatype Sample = Sample(channel: nat, frame: nat, number: nat)
  datatype Image = Image(sample: Sample, bytes: nat)

  datatype Task = Task(
    channel: nat, id: string, revision: string, enabled: bool, saved: nat, limit: nat, deadline: nat,
    matched: nat, skipped: nat, encoding: int, images: seq<Image>, acked: nat, unread: nat)

  datatype Job = Job(task: nat, sample: Sample, bytes: nat)

  datatype Store = Store(
    table: map<nat, nat>, tasks: map<nat, Task>, jobs: seq<Job>, encode: Option<Job>,
    raw: int, jpeg: int, mask: set<nat>, next: nat)

  const CHANNELS: nat := 32
  const BUDGET: nat := 64 * 1024 * 1024
  const MAX_JPEG: nat := 12 * 1024 * 1024
  const TASK_SLOTS: nat := 8
  const MAX_JOBS: nat := 2

  // ---------------------------------------------------------------------------
  // The sections.

  function With(s: Store, k: nat, t: Task): Store { s.(tasks := s.tasks[k := t]) }

  predicate Held(s: Store, c: nat) { c in s.table && s.table[c] in s.tasks }

  function TaskOf(s: Store, c: nat): Task
    requires Held(s, c)
  {
    s.tasks[s.table[c]]
  }

  predicate Collecting(t: Task, now: nat) {
    && t.enabled && !(t.deadline != 0 && now >= t.deadline)
    && !(t.limit != 0 && t.saved + t.encoding + |t.images| >= t.limit)
  }

  predicate Full(s: Store, t: Task, estimate: nat) {
    t.encoding + |t.images| >= TASK_SLOTS || |s.jobs| >= MAX_JOBS || estimate > BUDGET || s.raw + s.jpeg + estimate > BUDGET
  }

  function Skipped(t: Task): Task { t.(matched := t.matched + 1, skipped := t.skipped + 1) }
  function Unread(t: Task): Task { t.(matched := t.matched + 1, unread := t.unread + 1) }
  function Taken(t: Task): Task { t.(matched := t.matched + 1, encoding := t.encoding + 1) }

  function Accept(s: Store, c: nat, j: Job): Store
    requires Held(s, c)
  {
    With(s, s.table[c], Taken(TaskOf(s, c))).(jobs := s.jobs + [j], raw := s.raw + j.bytes)
  }

  /** A frame on which the rules fired; `source` is the size of its pixels if they could be read. */
  function Observe(s: Store, c: nat, now: nat, frame: nat, estimate: nat, source: Option<nat>): Store
    requires Held(s, c)
  {
    var k, t := s.table[c], TaskOf(s, c);
    if !Collecting(t, now) then s
    else if Full(s, t, estimate) then With(s, k, Skipped(t))
    else if source.None? then With(s, k, Unread(t))
    else if s.raw + s.jpeg + source.value > BUDGET then With(s, k, Skipped(t))
    else Accept(s, c, Job(k, Sample(c, frame, t.matched + 1), source.value))
  }

  function StartEncoding(s: Store): Store
    requires s.jobs != []
  {
    s.(encode := Some(s.jobs[0]), jobs := s.jobs[1..])
  }

  predicate StillCurrent(s: Store, k: nat) {
    k in s.tasks && s.tasks[k].channel in s.table && s.table[s.tasks[k].channel] == k
  }

  function FinishEncoding(s: Store, ok: bool, size: nat): Store
    requires s.encode.Some? && s.encode.value.task in s.tasks
  {
    var j := s.encode.value;
    var t := s.tasks[j.task].(encoding := s.tasks[j.task].encoding - 1);
    var raw := s.raw - j.bytes;
    if ok && 0 < size <= MAX_JPEG && s.jpeg + raw + size <= BUDGET && StillCurrent(s, j.task)
    then With(s, j.task, t.(images := t.images + [Image(j.sample, size)])).(encode := None, raw := raw, jpeg := s.jpeg + size)
    else With(s, j.task, t.(skipped := t.skipped + 1)).(encode := None, raw := raw)
  }

  function Enabled(table: map<nat, nat>, tasks: map<nat, Task>): set<nat> {
    set c | c in table && table[c] in tasks && tasks[table[c]].enabled
  }

  function Refreshed(s: Store): Store { s.(mask := Enabled(s.table, s.tasks)) }

  function Larger(a: nat, b: nat): nat { if a < b then b else a }

  predicate Same(t: Task, id: string, revision: string) { t.id == id && t.revision == revision }

  predicate Idle(t: Task) { t.images == [] && t.encoding == 0 }

  /**
   * The fields of a request that are read late: a malformed one throws where it is read.
   * `valid` is the outcome of the remaining checks on a new task.
   */
  datatype Request = Request(channel: nat, id: string, revision: string, enabled: bool, saved: Option<nat>, deadline: Option<nat>, limit: nat, valid: bool)

  /** The same task again: the switch is set first, then the two numbers are read. */
  function Resumed(s: Store, r: Request): Store
    requires Held(s, r.channel)
  {
    var k := s.table[r.channel];
    var on := s.tasks[k].(enabled := r.enabled);
    if r.saved.None? then With(s, k, on)
    else
      var counted := on.(saved := Larger(on.saved, r.saved.value));
      if r.deadline.None? then With(s, k, counted)
      else Refreshed(With(s, k, counted.(deadline := r.deadline.value)))
  }

  function NewTask(r: Request): Task
    requires r.saved.Some? && r.deadline.Some?
  {
    Task(r.channel, r.id, r.revision, r.enabled, r.saved.value, r.limit, r.deadline.value, 0, 0, 0, [], 0, 0)
  }

  function Configure(s: Store, r: Request): Store {
    if Held(s, r.channel) && Same(TaskOf(s, r.channel), r.id, r.revision) then Resumed(s, r)
    else if Held(s, r.channel) && !Idle(TaskOf(s, r.channel)) then s
    else if r.saved.None? || r.deadline.None? || !r.valid then s
    else Refreshed(s.(table := s.table[r.channel := s.next], tasks := s.tasks[s.next := NewTask(r)], next := s.next + 1))
  }

  function IndexOf(images: seq<Image>, sample: Sample): nat
    ensures IndexOf(images, sample) <= |images|
  {
    if images == [] || images[0].sample == sample then 0 else 1 + IndexOf(images[1..], sample)
  }

  function Counted(t: Task, saved: nat): Task { t.(saved := Larger(t.saved, saved)) }

  function Released(t: Task, i: nat): Task
    requires i < |t.images|
  {
    t.(images := t.images[..i] + t.images[i + 1..], acked := t.acked + 1)
  }

  /** One channel of the acknowledgement loop. */
  function AckOne(s: Store, c: nat, id: string, sample: Sample, saved: nat): Store {
    if !Held(s, c) || TaskOf(s, c).id != id then s
    else
      var t := Counted(TaskOf(s, c), saved);
      var i := IndexOf(t.images, sample);
      if i < |t.images| then With(s, s.table[c], Released(t, i)).(jpeg := s.jpeg - t.images[i].bytes)
      else With(s, s.table[c], t)
  }

  function AckAll(s: Store, id: string, sample: Sample, saved: nat, n: nat): Store {
    if n == 0 then s else AckOne(AckAll(s, id, sample, saved, n - 1), n - 1, id, sample, saved)
  }

  /** Removal goes up the channels and stops at a task that still has images or jobs. */
  datatype Removal = Removal(store: Store, refused: bool)

  function RemoveTo(s: Store, id: string, n: nat): Removal {
    if n == 0 then Removal(s, false)
    else
      var before := RemoveTo(s, id, n - 1);
      if before.refused || !Held(before.store, n - 1) || TaskOf(before.store, n - 1).id != id then before
      else if !Idle(TaskOf(before.store, n - 1)) then Removal(before.store, true)
      else Removal(before.store.(table := before.store.table - {n - 1}), false)
  }

  function Remove(s: Store, id: string): Store {
    var r := RemoveTo(s, id, CHANNELS);
    if r.refused then r.store else Refreshed(r.store)
  }

  // ---------------------------------------------------------------------------
  // Runs.

  datatype Action =
    | AObserve(channel: nat, now: nat, frame: nat, estimate: nat, source: Option<nat>)
    | AStartEncoding
    | AFinishEncoding(ok: bool, size: nat)
    | AConfigure(request: Request)
    | AAck(id: string, sample: Sample, saved: nat)
    | ARemove(id: string)

  /** There is one encoder. A frame without a task, or on which nothing fired, changes nothing here. */
  ghost predicate Can(s: Store, a: Action) {
    match a
    case AObserve(c, _, _, _, _) => Held(s, c)
    case AStartEncoding => s.encode.None? && s.jobs != []
    case AFinishEncoding(_, _) => s.encode.Some? && s.encode.value.task in s.tasks
    case AConfigure(r) => r.channel < CHANNELS
    case AAck(_, _, _) => true
    case ARemove(_) => true
  }

  ghost function Do(s: Store, a: Action): Store
    requires Can(s, a)
  {
    match a
    case AObserve(c, now, frame, estimate, source) => Observe(s, c, now, frame, estimate, source)
    case AStartEncoding => StartEncoding(s)
    case AFinishEncoding(ok, size) => FinishEncoding(s, ok, size)
    case AConfigure(r) => Configure(s, r)
    case AAck(id, sample, saved) => AckAll(s, id, sample, saved, CHANNELS)
    case ARemove(id) => Remove(s, id)
  }

  const EMPTY := Store(map[], map[], [], None, 0, 0, {}, 0)

  ghost predicate Executes(s: Store, run: seq<Action>, t: Store)
    decreases |run|
  {
    if run == [] then s == t
    else Can(s, run[0]) && Executes(Do(s, run[0]), run[1..], t)
  }

  ghost predicate Reachable(s: Store) { exists run :: Executes(EMPTY, run, s) }
}
