/**
 * The event video recorder (engine/src/recorder/event_video_recorder.cpp) as a state machine.
 *
 * Every section the program runs under its mutex is one step. A producer's push is two steps,
 * with its time stamp taken before the first; a trigger and an offline notice also carry a
 * stamp taken before the section. Conversion and encoding happen between steps and may fail.
 * Times are milliseconds of the steady clock; event identifiers are ranks (only equality and
 * the map order matter).
 *
 * Besides the program's variables the state holds what each thread has in hand and what has
 * happened: the frames a channel has finished, with the ends of the active events at that
 * moment, and where every accepted event has gone.
 */
module EventRecorder {
  import opened RecorderChannel

  datatype Key = Key(channel: nat, kind: string)
  datatype Request = Request(id: nat, channel: nat, kind: string, pre: int, post: int)
  datatype Event = Event(request: Request, trigger: nat, start: nat, end: nat, frames: seq<nat>)

  datatype Worker = Idle | Converting(channel: nat, raw: Raw) | Releasing(channel: nat) | Encoding(event: Event) | Exited

  datatype State = State(
    clock: nat, running: bool, channels: seq<Channel>, next: nat,
    active: seq<Event>, latest: map<Key, nat>, jobs: seq<Event>, encoders: nat,
    workers: seq<Worker>, encoding: Option<Event>, finished: seq<Event>,
    accepted: set<nat>, lower: map<nat, nat>)

  const MAX_ENCODERS: nat := 1

  function KeyOf(r: Request): Key { Key(r.channel, r.kind) }

  // ---------------------------------------------------------------------------
  // The critical sections.

  predicate Pending(channels: seq<Channel>, e: Event)
    requires e.request.channel < |channels|
  {
    var ch := channels[e.request.channel];
    ch.busy || (ch.queue != [] && ch.queue[0].ts <= e.end)
  }

  predicate Sealable(channels: seq<Channel>, e: Event, now: nat, force: bool) {
    e.request.channel < |channels| && (force || (now >= e.end && !Pending(channels, e)))
  }

  datatype Expiry = Expiry(active: seq<Event>, jobs: seq<Event>, latest: map<Key, nat>)

  function Forget(latest: map<Key, nat>, e: Event): map<Key, nat> {
    if KeyOf(e.request) in latest && latest[KeyOf(e.request)] == e.request.id
    then latest - {KeyOf(e.request)} else latest
  }

  function ExpireList(s: State, list: seq<Event>, now: nat, force: bool): Expiry {
    if list == [] then Expiry([], s.jobs, s.latest)
    else
      var x := ExpireList(s, list[..|list| - 1], now, force);
      var e := list[|list| - 1];
      if Sealable(s.channels, e, now, force)
      then Expiry(x.active, x.jobs + [e], Forget(x.latest, e))
      else x.(active := x.active + [e])
  }

  function Expire(s: State, now: nat, force: bool): State {
    var x := ExpireList(s, s.active, now, force);
    s.(active := x.active, jobs := x.jobs, latest := x.latest)
  }

  function BeginPush(s: State, c: nat, stamp: nat, fps: int, pre: int): State
    requires c < |s.channels| && s.channels[c].captured <= stamp
  {
    s.(channels := s.channels[c := Caught(s.channels[c], s.running, stamp, fps, pre)])
  }

  function EndPush(s: State, c: nat): State
    requires c < |s.channels| && s.channels[c].pushing.Some?
  {
    s.(channels := s.channels[c := Delivered(s.channels[c], s.running)])
  }

  function Within(ring: seq<nat>, lo: nat, hi: nat): seq<nat> {
    if ring == [] then []
    else Within(ring[..|ring| - 1], lo, hi) + (if lo <= ring[|ring| - 1] <= hi then [ring[|ring| - 1]] else [])
  }

  /** Assignment through the ordered map. */
  function Put(active: seq<Event>, e: Event): seq<Event> {
    if active == [] then [e]
    else if active[0].request.id == e.request.id then [e] + active[1..]
    else if e.request.id < active[0].request.id then [e] + active
    else [active[0]] + Put(active[1..], e)
  }

  function WithEnd(active: seq<Event>, id: nat, end: nat): seq<Event> {
    seq(|active|, i requires 0 <= i < |active| => if active[i].request.id == id then active[i].(end := end) else active[i])
  }

  predicate IsActive(active: seq<Event>, id: nat) {
    exists k | 0 <= k < |active| :: active[k].request.id == id
  }

  predicate Merges(s: State, r: Request) {
    KeyOf(r) in s.latest && s.latest[KeyOf(r)] == r.id && IsActive(s.active, r.id)
  }

  function NewEvent(s: State, r: Request, stamp: nat): Event
    requires r.channel < |s.channels|
  {
    var start := Back(stamp, Span(r.pre));
    Event(r, stamp, start, stamp + Span(r.post), Within(s.channels[r.channel].ring, start, stamp))
  }

  function Trigger(s: State, r: Request, stamp: nat): State
    requires r.channel < |s.channels|
  {
    if !s.running then s
    else if Merges(s, r) then s.(active := WithEnd(s.active, r.id, stamp + Span(r.post)))
    else s.(active := Put(s.active, NewEvent(s, r, stamp)), latest := s.latest[KeyOf(r) := r.id],
            accepted := s.accepted + {r.id}, lower := s.lower[r.id := s.channels[r.channel].floor])
  }

  function PostOf(active: seq<Event>, id: nat): nat {
    if active == [] then 0
    else if active[0].request.id == id then Span(active[0].request.post)
    else PostOf(active[1..], id)
  }

  function Extend(s: State, id: nat): State {
    s.(active := Extended(s, id))
  }

  function Extended(s: State, id: nat): seq<Event> {
    if IsActive(s.active, id) then WithEnd(s.active, id, s.clock + PostOf(s.active, id)) else s.active
  }

  function CutOne(e: Event, c: nat, cutoff: nat): Event {
    if e.request.channel == c && e.end > cutoff then e.(end := cutoff) else e
  }

  function CutAll(active: seq<Event>, c: nat, cutoff: nat): seq<Event> {
    seq(|active|, i requires 0 <= i < |active| => CutOne(active[i], c, cutoff))
  }

  function Offline(s: State, c: nat, cutoff: nat): State {
    s.(active := CutAll(s.active, c, cutoff))
  }

  predicate QueuesEmpty(channels: seq<Channel>) { forall c | 0 <= c < |channels| :: channels[c].queue == [] }
  predicate NoneBusy(channels: seq<Channel>) { forall c | 0 <= c < |channels| :: !channels[c].busy }

  predicate Servable(s: State, c: nat) {
    c < |s.channels| && !s.channels[c].busy && s.channels[c].queue != []
  }

  /** The first channel a worker may serve, scanning round from `next`. */
  function Pick(s: State, offset: nat): Option<nat>
    requires offset <= |s.channels|
    decreases |s.channels| - offset
  {
    if offset == |s.channels| then None
    else if Servable(s, (s.next + offset) % |s.channels|) then Some((s.next + offset) % |s.channels|)
    else Pick(s, offset + 1)
  }

  function Serve(s: State, w: nat, c: nat): State
    requires w < |s.workers| && Servable(s, c)
  {
    s.(channels := s.channels[c := Served(s.channels[c])], next := (c + 1) % |s.channels|,
       workers := s.workers[w := Converting(c, s.channels[c].queue[0])])
  }

  function StartEncoding(s: State, w: nat): State
    requires w < |s.workers| && s.jobs != []
  {
    s.(jobs := s.jobs[1..], encoders := s.encoders + 1, encoding := Some(s.jobs[0]),
       workers := s.workers[w := Encoding(s.jobs[0])])
  }

  predicate Drained(s: State) {
    !s.running && QueuesEmpty(s.channels) && s.active == [] && s.jobs == [] && s.encoders == 0
  }

  function Sweep(s: State): State {
    var x := Expire(s, s.clock, false);
    if !x.running && QueuesEmpty(x.channels) && NoneBusy(x.channels) && x.active != []
    then Expire(x, x.clock, true) else x
  }

  function Choose(s: State, w: nat): State
    requires w < |s.workers|
    ensures |Choose(s, w).channels| == |s.channels|
  {
    if s.jobs != [] && s.encoders < MAX_ENCODERS then StartEncoding(s, w)
    else
      PickIsServable(s, 0);
      if Pick(s, 0).Some? then Serve(s, w, Pick(s, 0).value)
      else if Drained(s) then s.(workers := s.workers[w := Exited])
      else s
  }

  lemma {:induction false} PickIsServable(s: State, offset: nat)
    requires offset <= |s.channels|
    ensures Pick(s, offset).Some? ==> Servable(s, Pick(s, offset).value)
    decreases |s.channels| - offset
  {
    if offset < |s.channels| && !Servable(s, (s.next + offset) % |s.channels|) {
      PickIsServable(s, offset + 1);
    }
  }

  function Poll(s: State, w: nat): State
    requires w < |s.workers|
  {
    Choose(Sweep(s), w)
  }

  function EndsOf(active: seq<Event>): map<nat, nat> {
    if active == [] then map[]
    else EndsOf(active[..|active| - 1])[active[|active| - 1].request.id := active[|active| - 1].end]
  }

  function AbsorbOne(e: Event, c: nat, ts: nat): Event {
    if e.request.channel == c && e.start <= ts <= e.end then e.(frames := e.frames + [ts]) else e
  }

  function AbsorbAll(active: seq<Event>, c: nat, ts: nat): seq<Event> {
    seq(|active|, i requires 0 <= i < |active| => AbsorbOne(active[i], c, ts))
  }

  /** The locked part of `process_raw`; the channel stays busy until it is released. */
  function Absorb(s: State, w: nat): State
    requires w < |s.workers| && s.workers[w].Converting? && s.workers[w].channel < |s.channels|
  {
    Expire(Converted(s, w), s.workers[w].raw.ts, false)
  }

  function Converted(s: State, w: nat): State
    requires w < |s.workers| && s.workers[w].Converting? && s.workers[w].channel < |s.channels|
  {
    var c, raw := s.workers[w].channel, s.workers[w].raw;
    s.(channels := s.channels[c := Stored(s.channels[c], raw, EndsOf(s.active))],
       active := AbsorbAll(s.active, c, raw.ts), workers := s.workers[w := Releasing(c)])
  }

  function FailConversion(s: State, w: nat): State
    requires w < |s.workers| && s.workers[w].Converting? && s.workers[w].channel < |s.channels|
  {
    var c, raw := s.workers[w].channel, s.workers[w].raw;
    s.(channels := s.channels[c := Failed(s.channels[c], raw)], workers := s.workers[w := Releasing(c)])
  }

  function Release(s: State, w: nat): State
    requires w < |s.workers| && s.workers[w].Releasing? && s.workers[w].channel < |s.channels|
  {
    var c := s.workers[w].channel;
    s.(channels := s.channels[c := s.channels[c].(busy := false)], workers := s.workers[w := Idle])
  }

  function FinishEncoding(s: State, w: nat): State
    requires w < |s.workers| && s.workers[w].Encoding? && s.encoders > 0
  {
    s.(encoders := s.encoders - 1, encoding := None, finished := s.finished + [s.workers[w].event],
       workers := s.workers[w := Idle])
  }

  // ---------------------------------------------------------------------------
  // Runs.

  datatype Action =
    | ATick(now: nat)
    | ABeginPush(channel: nat, stamp: nat, fps: int, pre: int)
    | AEndPush(channel: nat)
    | ATrigger(request: Request, stamp: nat)
    | AExtend(id: nat)
    | AOffline(channel: nat, stamp: nat)
    | AStop
    | APoll(worker: nat)
    | AAbsorb(worker: nat)
    | AFailConversion(worker: nat)
    | ARelease(worker: nat)
    | AFinishEncoding(worker: nat)

  /**
   * One producer per channel, whose stamps come from the steady clock; an identifier is
   * triggered again only to extend the event it named before.
   */
  ghost predicate Enabled(s: State, a: Action) {
    match a
    case ATick(now) => s.clock <= now
    case ABeginPush(c, stamp, _, _) =>
      c < |s.channels| && s.channels[c].pushing.None? && 0 < stamp <= s.clock && s.channels[c].captured <= stamp
    case AEndPush(c) => c < |s.channels| && s.channels[c].pushing.Some?
    case ATrigger(r, stamp) => r.channel < |s.channels| && stamp <= s.clock && (r.id !in s.accepted || Merges(s, r))
    case AExtend(_) => true
    case AOffline(_, stamp) => stamp <= s.clock
    case AStop => true
    case APoll(w) => w < |s.workers| && s.workers[w].Idle?
    case AAbsorb(w) => w < |s.workers| && s.workers[w].Converting? && s.workers[w].channel < |s.channels|
    case AFailConversion(w) => w < |s.workers| && s.workers[w].Converting? && s.workers[w].channel < |s.channels|
    case ARelease(w) => w < |s.workers| && s.workers[w].Releasing? && s.workers[w].channel < |s.channels|
    case AFinishEncoding(w) => w < |s.workers| && s.workers[w].Encoding? && s.encoders > 0
  }

  ghost function Do(s: State, a: Action): State
    requires Enabled(s, a)
  {
    match a
    case ATick(now) => s.(clock := now)
    case ABeginPush(c, stamp, fps, pre) => BeginPush(s, c, stamp, fps, pre)
    case AEndPush(c) => EndPush(s, c)
    case ATrigger(r, stamp) => Trigger(s, r, stamp)
    case AExtend(id) => Extend(s, id)
    case AOffline(c, stamp) => Offline(s, c, stamp)
    case AStop => s.(running := false)
    case APoll(w) => Poll(s, w)
    case AAbsorb(w) => Absorb(s, w)
    case AFailConversion(w) => FailConversion(s, w)
    case ARelease(w) => Release(s, w)
    case AFinishEncoding(w) => FinishEncoding(s, w)
  }

  function Fresh(channels: nat, workers: nat): State {
    State(0, true, seq(channels, _ => Channel([], 0, [], false, None, None, [], 0, {}, {})), 0,
      [], map[], [], 0, seq(workers, _ => Idle), None, [], {}, map[])
  }

  /** The actions of `run` are possible one after another from `s`, and end in `t`. */
  ghost predicate Executes(s: State, run: seq<Action>, t: State)
    decreases |run|
  {
    if run == [] then s == t
    else Enabled(s, run[0]) && Executes(Do(s, run[0]), run[1..], t)
  }

  /** `s` can be reached by a recorder with this many channels and workers. */
  ghost predicate Reachable(channels: nat, workers: nat, s: State) {
    exists run :: Executes(Fresh(channels, workers), run, s)
  }
}
