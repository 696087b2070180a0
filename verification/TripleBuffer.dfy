/**
 * The triple buffer between the decoder callback and the display thread
 * (engine/src/pipeline/pipeline_internal.h, frame_inlet.cpp, engine/src/display/display_pipeline.cpp).
 *
 * Copying into the back slot and reading the front slot happen outside the lock, so a slot's
 * pixels are unknown (`None`) while they are being written. `published` and `taken` record
 * what happened; the program does not keep them.
 */
module TripleBuffer {
  datatype Option<T> = None | Some(value: T)

  /** The pixels of a frame and the metadata published with them. */
  datatype Frame = Frame(pixels: nat, meta: nat)

  /** `capacity` is zero when the slot has no memory. */
  datatype Slot = Slot(capacity: nat, pixels: Option<nat>)

  datatype Pool = Pool(slots: seq<Slot>, back: nat, mid: nat, front: nat, midDirty: bool)

  datatype Producer = Idle | Copying(slot: nat, frame: Frame) | Copied(slot: nat, frame: Frame)
  datatype Consumer = Waiting | Reading(slot: nat, meta: nat)

  datatype Queue = Queue(pool: Pool, task: nat, hasTask: bool, producer: Producer, consumer: Consumer, published: seq<Frame>, taken: seq<nat>)

  /** The three roles are three different slots. */
  predicate Roles(p: Pool) {
    |p.slots| == 3 && p.back < 3 && p.mid < 3 && p.front < 3 && p.back != p.mid && p.back != p.front && p.mid != p.front
  }

  /** `back_buf`: grow the slot if it is too small; its old memory is freed first. */
  function Prepared(p: Pool, needed: nat, allocates: bool): Pool
    requires p.back < |p.slots|
  {
    if needed > p.slots[p.back].capacity
    then p.(slots := p.slots[p.back := Slot(if allocates then needed else 0, None)])
    else p
  }

  function Swapped(p: Pool): Pool { p.(back := p.mid, mid := p.back, midDirty := true) }

  function Fronted(p: Pool): Pool { if p.midDirty then p.(mid := p.front, front := p.mid, midDirty := false) else p }

  function Painted(p: Pool, slot: nat, pixels: Option<nat>): Pool
    requires slot < |p.slots|
  {
    p.(slots := p.slots[slot := p.slots[slot].(pixels := pixels)])
  }

  datatype Action =
    | ABegin(frame: Frame, needed: nat, allocates: bool)
    | AFinishCopy
    | APublish
    | ATake
    | ARelease

  ghost predicate Enabled(q: Queue, a: Action) {
    match a
    case ABegin(_, needed, _) => q.producer.Idle? && needed > 0 && q.pool.back < |q.pool.slots|
    case AFinishCopy => q.producer.Copying? && q.producer.slot < |q.pool.slots|
    case APublish => q.producer.Copied?
    case ATake => q.consumer.Waiting? && q.hasTask
    case ARelease => q.consumer.Reading?
  }

  /** Preparing and starting to write the back slot; without memory the frame is skipped. */
  function Begin(q: Queue, frame: Frame, needed: nat, allocates: bool): Queue
    requires q.pool.back < |q.pool.slots|
  {
    var p := Prepared(q.pool, needed, allocates);
    if p.slots[p.back].capacity == 0 then q.(pool := p)
    else q.(pool := Painted(p, p.back, None), producer := Copying(p.back, frame))
  }

  function Publish(q: Queue): Queue
    requires q.producer.Copied?
  {
    q.(pool := Swapped(q.pool), task := q.producer.frame.meta, hasTask := true, producer := Idle,
       published := q.published + [q.producer.frame])
  }

  function Take(q: Queue): Queue {
    q.(pool := Fronted(q.pool), hasTask := false, consumer := Reading(Fronted(q.pool).front, q.task),
       taken := if |q.published| > 0 then q.taken + [|q.published| - 1] else q.taken)
  }

  ghost function Do(q: Queue, a: Action): Queue
    requires Enabled(q, a)
  {
    match a
    case ABegin(frame, needed, allocates) => Begin(q, frame, needed, allocates)
    case AFinishCopy => q.(pool := Painted(q.pool, q.producer.slot, Some(q.producer.frame.pixels)), producer := Copied(q.producer.slot, q.producer.frame))
    case APublish => Publish(q)
    case ATake => Take(q)
    case ARelease => q.(consumer := Waiting)
  }

  function Fresh(capacity: nat): Queue {
    Queue(Pool([Slot(capacity, None), Slot(capacity, None), Slot(capacity, None)], 0, 1, 2, false), 0, false, Idle, Waiting, [], [])
  }

  ghost predicate Executes(q: Queue, run: seq<Action>, r: Queue)
    decreases |run|
  {
    if run == [] then q == r
    else Enabled(q, run[0]) && Executes(Do(q, run[0]), run[1..], r)
  }

  ghost predicate Reachable(capacity: nat, q: Queue) { exists run :: Executes(Fresh(capacity), run, q) }

  // ---------------------------------------------------------------------------

  function Last(s: seq<Frame>): Frame
    requires s != []
  {
    s[|s| - 1]
  }

  ghost predicate ProducerInv(q: Queue) {
    && Roles(q.pool)
    && (!q.producer.Idle? ==> q.producer.slot == q.pool.back && q.pool.slots[q.pool.back].capacity > 0)
    && (q.producer.Copied? ==> q.pool.slots[q.pool.back].pixels == Some(q.producer.frame.pixels))
  }

  /** A ready slot holds the frame published last, with its metadata. */
  ghost predicate ReadyInv(q: Queue) {
    && Roles(q.pool)
    && q.hasTask == q.pool.midDirty
    && (q.hasTask ==>
          && q.published != [] && q.task == Last(q.published).meta
          && q.pool.slots[q.pool.mid] == Slot(q.pool.slots[q.pool.mid].capacity, Some(Last(q.published).pixels))
          && q.pool.slots[q.pool.mid].capacity > 0)
  }

  /** The slot being read holds the frame taken last, untouched. */
  ghost predicate ReadInv(q: Queue) {
    && Roles(q.pool)
    && (q.consumer.Reading? ==>
      && q.taken != [] && q.taken[|q.taken| - 1] < |q.published| && q.consumer.slot == q.pool.front
      && q.pool.slots[q.pool.front].capacity > 0
      && q.pool.slots[q.pool.front].pixels == Some(q.published[q.taken[|q.taken| - 1]].pixels)
      && q.consumer.meta == q.published[q.taken[|q.taken| - 1]].meta)
  }

  ghost predicate TakenInv(q: Queue) {
    && (forall i, j | 0 <= i < j < |q.taken| :: q.taken[i] < q.taken[j])
    && (forall i | 0 <= i < |q.taken| :: q.taken[i] < |q.published|)
    && (q.taken != [] && q.hasTask ==> q.taken[|q.taken| - 1] < |q.published| - 1)
    && (q.published != [] && !q.hasTask ==> q.taken != [] && q.taken[|q.taken| - 1] == |q.published| - 1)
  }

  ghost predicate Inv(q: Queue) { ProducerInv(q) && ReadyInv(q) && ReadInv(q) && TakenInv(q) }

  lemma ReadStep(q: Queue, a: Action)
    requires Inv(q) && Enabled(q, a)
    ensures ReadInv(Do(q, a))
  {
    if a.ATake? {
      assert Do(q, a).taken[|q.taken|] == |q.published| - 1;
    }
  }

  lemma TakenStep(q: Queue, a: Action)
    requires Inv(q) && Enabled(q, a)
    ensures TakenInv(Do(q, a))
  {
  }

  lemma StepKeeps(q: Queue, a: Action)
    requires Inv(q) && Enabled(q, a)
    ensures Inv(Do(q, a))
  {
    hide ReadInv, TakenInv;
    ReadStep(q, a);
    TakenStep(q, a);
  }

  lemma {:induction false} RunKeeps(q: Queue, run: seq<Action>, r: Queue)
    requires Inv(q) && Executes(q, run, r)
    ensures Inv(r)
    decreases |run|
  {
    hide Inv, Do;
    if run != [] {
      StepKeeps(q, run[0]);
      RunKeeps(Do(q, run[0]), run[1..], r);
    }
  }

  lemma ReachableInv(capacity: nat, q: Queue)
    requires Reachable(capacity, q)
    ensures Inv(q)
  {
    var run :| Executes(Fresh(capacity), run, q);
    RunKeeps(Fresh(capacity), run, q);
  }

  /** The slot being written or reallocated is never the slot being read. */
  lemma WriterAndReaderNeverMeet(capacity: nat, q: Queue)
    requires Reachable(capacity, q)
    ensures Roles(q.pool) && q.hasTask == q.pool.midDirty
    ensures q.consumer.Reading? ==> q.consumer.slot != q.pool.back
    ensures q.consumer.Reading? && !q.producer.Idle? ==> q.producer.slot != q.consumer.slot
  {
    ReachableInv(capacity, q);
  }

  /** For as long as it reads, the consumer sees one published frame whole, with that frame's metadata. */
  lemma ReaderSeesOneFrame(capacity: nat, q: Queue, a: Action)
    requires Reachable(capacity, q) && q.consumer.Reading? && Enabled(q, a) && !a.ARelease?
    ensures q.consumer.slot < |q.pool.slots| && |Do(q, a).pool.slots| == |q.pool.slots|
    ensures Do(q, a).consumer == q.consumer && Do(q, a).pool.slots[q.consumer.slot] == q.pool.slots[q.consumer.slot]
    ensures exists f | f in q.published :: q.pool.slots[q.consumer.slot].pixels == Some(f.pixels) && q.consumer.meta == f.meta
  {
    ReachableInv(capacity, q);
    assert q.published[q.taken[|q.taken| - 1]] in q.published;
  }

  /** Each take delivers the newest published frame, in strictly rising order, and none is delivered twice. */
  lemma TakesAreNewest(capacity: nat, q: Queue)
    requires Reachable(capacity, q) && Enabled(q, ATake)
    ensures var r := Do(q, ATake);
            q.published != [] && r.taken == q.taken + [|q.published| - 1] && r.consumer.Reading?
            && r.consumer.slot < |r.pool.slots|
            && r.pool.slots[r.consumer.slot].pixels == Some(Last(q.published).pixels) && r.consumer.meta == Last(q.published).meta
    ensures forall i, j | 0 <= i < j < |Do(q, ATake).taken| :: Do(q, ATake).taken[i] < Do(q, ATake).taken[j]
  {
    ReachableInv(capacity, q);
    StepKeeps(q, ATake);
  }

  /** A published frame waits exactly until it is taken or a newer one replaces it. */
  lemma NewestWaits(capacity: nat, q: Queue)
    requires Reachable(capacity, q) && q.published != []
    ensures q.hasTask <==> !(q.taken != [] && q.taken[|q.taken| - 1] == |q.published| - 1)
  {
    ReachableInv(capacity, q);
  }

  /** A frame is copied exactly if the back slot is large enough or memory for it can be had; the slot is then large enough. */
  lemma CopyNeedsMemory(capacity: nat, q: Queue, frame: Frame, needed: nat, allocates: bool)
    requires Reachable(capacity, q) && Enabled(q, ABegin(frame, needed, allocates))
    ensures var r, back := Do(q, ABegin(frame, needed, allocates)), q.pool.back;
            && back < |r.pool.slots| == |q.pool.slots|
            && (r.producer == Copying(back, frame) <==> allocates || q.pool.slots[back].capacity >= needed)
            && (r.producer == Copying(back, frame) ==> r.pool.slots[back].capacity >= needed)
            && (r.producer != Copying(back, frame) ==> r.producer == Idle && r.pool.slots[back].capacity == 0)
  {
    ReachableInv(capacity, q);
  }

  // ---------------------------------------------------------------------------
  // The object.

  class DisplayFramePool {
    const slots: array<Slot>
    var backIdx: nat
    var midIdx: nat
    var frontIdx: nat
    var midDirty: bool

    ghost function Value(): Pool
      reads this, slots
    {
      Pool(slots[..], backIdx, midIdx, frontIdx, midDirty)
    }

    constructor (capacity: nat)
      ensures Value() == Fresh(capacity).pool && fresh(slots)
    {
      slots := new Slot[3](_ => Slot(capacity, None));
      backIdx, midIdx, frontIdx, midDirty := 0, 1, 2, false;
      new;
      assert slots[..] == [Slot(capacity, None), Slot(capacity, None), Slot(capacity, None)];
    }

    /** The writing slot, or -1 without memory. */
    method BackBuf(needed: nat, allocates: bool) returns (slot: int)
      requires Roles(Value()) && needed > 0
      modifies slots
      ensures Value() == Prepared(old(Value()), needed, allocates)
      ensures slot == if slots[backIdx].capacity == 0 then -1 else backIdx
      ensures slots[frontIdx] == old(slots[frontIdx]) && slots[midIdx] == old(slots[midIdx])
    {
      if needed > slots[backIdx].capacity {
        slots[backIdx] := Slot(if allocates then needed else 0, None);
      }
      return if slots[backIdx].capacity == 0 then -1 else backIdx;
    }

    method PublishBack()
      modifies this
      ensures Value() == Swapped(old(Value()))
    {
      var tmp := backIdx;
      backIdx := midIdx;
      midIdx := tmp;
      midDirty := true;
    }

    method SwapFrontIfDirty() returns (fresher: bool)
      modifies this
      ensures Value() == Fronted(old(Value())) && fresher == old(midDirty)
    {
      if !midDirty {
        return false;
      }
      var tmp := midIdx;
      midIdx := frontIdx;
      frontIdx := tmp;
      midDirty := false;
      return true;
    }
  }
}
