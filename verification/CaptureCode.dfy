/**
 * The capture's shared variables and the sections that update them in place
 * (engine/src/control/remote_dataset.cpp).
 */
module DatasetCaptureCode {
  import opened DatasetCapture

  class RemoteDataset {
    var table: map<nat, nat>
    var tasks: map<nat, Task>
    var jobs: seq<Job>
    var rawBytes: int
    var jpegBytes: int
    var activeMask: set<nat>
    var nextSerial: nat
    ghost var encode: Option<Job>

    ghost function Value(): Store
      reads this
    {
      Store(table, tasks, jobs, encode, rawBytes, jpegBytes, activeMask, nextSerial)
    }

    constructor ()
      ensures Value() == EMPTY
    {
      table, tasks, jobs, rawBytes, jpegBytes, activeMask, nextSerial, encode := map[], map[], [], 0, 0, {}, 0, None;
    }

    /** The end of `remote_dataset_observe`, once the gate has fired. */
    method ObserveHit(c: nat, now: nat, frame: nat, estimate: nat, source: Option<nat>)
      requires Held(Value(), c)
      modifies this
      ensures Value() == Observe(old(Value()), c, now, frame, estimate, source)
    {
      var k := table[c];
      var task := tasks[k];
      if !task.enabled || (task.deadline != 0 && now >= task.deadline)
         || (task.limit != 0 && task.saved + task.encoding + |task.images| >= task.limit) {
        return;
      }
      task := task.(matched := task.matched + 1);
      if task.encoding + |task.images| >= TASK_SLOTS || |jobs| >= MAX_JOBS || estimate > BUDGET
         || rawBytes + jpegBytes + estimate > BUDGET {
        tasks := tasks[k := task.(skipped := task.skipped + 1)];
        return;
      }
      if source.None? {
        tasks := tasks[k := task.(unread := task.unread + 1)];
        return;
      }
      var bytes := source.value;
      if rawBytes + jpegBytes + bytes > BUDGET {
        tasks := tasks[k := task.(skipped := task.skipped + 1)];
        return;
      }
      jobs := jobs + [Job(k, Sample(c, frame, task.matched), bytes)];
      rawBytes := rawBytes + bytes;
      tasks := tasks[k := task.(encoding := task.encoding + 1)];
    }

    method TakeJob() returns (job: Job)
      requires Can(Value(), AStartEncoding)
      modifies this
      ensures Value() == StartEncoding(old(Value())) && encode == Some(job)
    {
      job := jobs[0];
      jobs := jobs[1..];
      encode := Some(job);
    }

    method FinishJob(job: Job, ok: bool, bytes: nat)
      requires encode == Some(job) && job.task in tasks
      modifies this
      ensures Value() == FinishEncoding(old(Value()), ok, bytes)
    {
      rawBytes := rawBytes - job.bytes;
      var task := tasks[job.task];
      task := task.(encoding := task.encoding - 1);
      var current := task.channel in table && table[task.channel] == job.task;
      if ok && bytes != 0 && bytes <= MAX_JPEG && jpegBytes + rawBytes + bytes <= BUDGET && current {
        jpegBytes := jpegBytes + bytes;
        task := task.(images := task.images + [Image(job.sample, bytes)]);
      } else {
        task := task.(skipped := task.skipped + 1);
      }
      tasks := tasks[job.task := task];
      encode := None;
    }

    method RefreshMask()
      modifies `activeMask
      ensures Value() == Refreshed(old(Value())) && activeMask == Enabled(table, tasks)
    {
      activeMask := set c | c in table && table[c] in tasks && tasks[table[c]].enabled;
    }

    /** The task is known already: set the switch, then read the two numbers. */
    method ResumeTask(r: Request) returns (done: bool)
      requires Held(Value(), r.channel)
      modifies this
      ensures Value() == Resumed(old(Value()), r)
      ensures done ==> activeMask == Enabled(table, tasks)
    {
      var k := table[r.channel];
      tasks := tasks[k := tasks[k].(enabled := r.enabled)];
      if r.saved.None? {
        return false;
      }
      tasks := tasks[k := tasks[k].(saved := if tasks[k].saved < r.saved.value then r.saved.value else tasks[k].saved)];
      if r.deadline.None? {
        return false;
      }
      tasks := tasks[k := tasks[k].(deadline := r.deadline.value)];
      RefreshMask();
      return true;
    }

    /** A returned `false` stands for the exception; what was assigned before it stays assigned. */
    method ConfigureTask(r: Request) returns (done: bool)
      modifies this
      ensures Value() == Configure(old(Value()), r)
      ensures done ==> activeMask == Enabled(table, tasks)
    {
      var known := r.channel in table && table[r.channel] in tasks;
      if known {
        var k := table[r.channel];
        if tasks[k].id == r.id && tasks[k].revision == r.revision {
          done := ResumeTask(r);
          return;
        }
        if tasks[k].images != [] || tasks[k].encoding != 0 {
          return false;
        }
      }
      if r.saved.None? || r.deadline.None? || !r.valid {
        return false;
      }
      table, tasks := table[r.channel := nextSerial], tasks[nextSerial := NewTask(r)];
      nextSerial := nextSerial + 1;
      RefreshMask();
      return true;
    }

    method Acknowledge(id: string, sample: Sample, saved: nat)
      modifies this
      ensures Value() == AckAll(old(Value()), id, sample, saved, CHANNELS)
    {
      for c := 0 to CHANNELS
        invariant Value() == AckAll(old(Value()), id, sample, saved, c)
      {
        AcknowledgeOne(c, id, sample, saved);
      }
    }

    method AcknowledgeOne(c: nat, id: string, sample: Sample, saved: nat)
      modifies this
      ensures Value() == AckOne(old(Value()), c, id, sample, saved)
    {
      if c !in table || table[c] !in tasks {
        return;
      }
      var task := tasks[table[c]];
      if task.id != id {
        return;
      }
      task := task.(saved := if task.saved < saved then saved else task.saved);
      var i := FindImage(task.images, sample);
      if i < |task.images| {
        jpegBytes := jpegBytes - task.images[i].bytes;
        task := task.(images := task.images[..i] + task.images[i + 1..], acked := task.acked + 1);
      }
      tasks := tasks[table[c] := task];
    }

    /** The error return leaves the channels already passed without their task, and the mask as it was. */
    method RemoveTask(id: string) returns (refused: bool)
      modifies this
      ensures Value() == Remove(old(Value()), id) && refused == RemoveTo(old(Value()), id, CHANNELS).refused
    {
      for c := 0 to CHANNELS
        invariant RemoveTo(old(Value()), id, c) == Removal(Value(), false)
      {
        var there := c in table && table[c] in tasks && tasks[table[c]].id == id;
        if there {
          var busy := tasks[table[c]].images != [] || tasks[table[c]].encoding != 0;
          if busy {
            assert RemoveTo(old(Value()), id, c + 1) == Removal(Value(), true);
            RefusalLasts(old(Value()), id, c + 1, CHANNELS);
            return true;
          }
          table := table - {c};
        }
      }
      RefreshMask();
      return false;
    }
  }

  method FindImage(images: seq<Image>, sample: Sample) returns (i: nat)
    ensures i == IndexOf(images, sample)
  {
    i := 0;
    while i < |images| && images[i].sample != sample
      invariant i <= |images| && IndexOf(images, sample) == i + IndexOf(images[i..], sample)
    {
      i := i + 1;
    }
  }

  lemma {:induction false} RefusalLasts(s: Store, id: string, m: nat, n: nat)
    requires m <= n && RemoveTo(s, id, m).refused
    ensures RemoveTo(s, id, n) == RemoveTo(s, id, m)
    decreases n
  {
    if m < n {
      RefusalLasts(s, id, m, n - 1);
    }
  }
}
