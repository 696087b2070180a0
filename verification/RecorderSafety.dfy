/** What every reachable state of the event video recorder satisfies. */
module RecorderSafety {
  import opened RecorderChannel
  import opened EventRecorder

  // ---------------------------------------------------------------------------
  // Which frames belong to an event: the reference definition.

  /**
   * A frame converted while the event was active belongs to it if its stamp lies between the
   * event's start and the end the event had at that moment; one converted before, if it was
   * still in the ring and not newer than the trigger's stamp.
   */
  predicate Belongs(p: Seen, id: nat, start: nat, trigger: nat, lower: nat) {
    start <= p.ts && if id in p.ends then p.ts <= p.ends[id] else lower <= p.ts <= trigger
  }

  function Members(log: seq<Seen>, id: nat, start: nat, trigger: nat, lower: nat): seq<nat> {
    if log == [] then []
    else
      var p := log[|log| - 1];
      Members(log[..|log| - 1], id, start, trigger, lower) + (if Belongs(p, id, start, trigger, lower) then [p.ts] else [])
  }

  ghost predicate EventOk(channels: seq<Channel>, accepted: set<nat>, lower: map<nat, nat>, e: Event) {
    && e.request.channel < |channels|
    && e.request.id in accepted && e.request.id in lower
    && e.frames == Members(channels[e.request.channel].log, e.request.id, e.start, e.trigger, lower[e.request.id])
  }

  ghost predicate ActiveOk(s: State) {
    forall k | 0 <= k < |s.active| :: EventOk(s.channels, s.accepted, s.lower, s.active[k])
  }

  /** Only accepted events appear in the log. */
  ghost predicate LogsOk(s: State) {
    forall c, k | 0 <= c < |s.channels| && 0 <= k < |s.channels[c].log| :: s.channels[c].log[k].ends.Keys <= s.accepted
  }

  ghost predicate ChannelsOk(s: State) {
    && |s.channels| > 0 && s.next < |s.channels|
    && forall c | 0 <= c < |s.channels| :: ChannelInv(s.channels[c], s.clock)
  }

  function Count(list: seq<Event>, id: nat): nat {
    if list == [] then 0
    else Count(list[..|list| - 1], id) + if list[|list| - 1].request.id == id then 1 else 0
  }

  function Held(o: Option<Event>): seq<Event> { if o.Some? then [o.value] else [] }

  function Places(s: State, id: nat): nat {
    Count(s.active, id) + Count(s.jobs, id) + Count(Held(s.encoding), id) + Count(s.finished, id)
  }

  /** Every accepted event is in exactly one place, and nothing else is anywhere. */
  ghost predicate Conserved(s: State) {
    forall id :: Places(s, id) == if id in s.accepted then 1 else 0
  }

  predicate HoldsChannel(w: Worker) { w.Converting? || w.Releasing? }

  ghost predicate WorkersOk(s: State) {
    && (forall w | 0 <= w < |s.workers| && HoldsChannel(s.workers[w]) :: InHand(s.channels, s.workers[w]))
    && (forall v, w | 0 <= v < |s.workers| && 0 <= w < |s.workers| && v != w ::
          HoldsChannel(s.workers[v]) && HoldsChannel(s.workers[w]) ==> s.workers[v].channel != s.workers[w].channel)
  }

  /** The channel a worker holds is busy, and knows the frame being converted. */
  ghost predicate InHand(channels: seq<Channel>, w: Worker)
    requires HoldsChannel(w)
  {
    && w.channel < |channels| && channels[w.channel].busy
    && channels[w.channel].converting == (if w.Converting? then Some(w.raw) else None)
  }

  ghost predicate EncodersOk(s: State) {
    && s.encoders == |Held(s.encoding)|
    && (forall w | 0 <= w < |s.workers| && s.workers[w].Encoding? :: s.encoding == Some(s.workers[w].event))
    && (forall v, w | 0 <= v < |s.workers| && 0 <= w < |s.workers| && s.workers[v].Encoding? && s.workers[w].Encoding? :: v == w)
  }

  ghost predicate ExitsOk(s: State) {
    forall w | 0 <= w < |s.workers| && s.workers[w].Exited? :: Drained(s)
  }

  ghost predicate Inv(s: State) {
    ChannelsOk(s) && ActiveOk(s) && LogsOk(s) && Conserved(s) && WorkersOk(s) && EncodersOk(s) && ExitsOk(s)
  }

  // ---------------------------------------------------------------------------
  // Identifiers.

  lemma CountSnoc(list: seq<Event>, e: Event, id: nat)
    ensures Count(list + [e], id) == Count(list, id) + if e.request.id == id then 1 else 0
  {
    assert (list + [e])[..|list|] == list;
  }

  lemma {:induction false} CountCons(list: seq<Event>, id: nat)
    requires list != []
    ensures Count(list, id) == Count(list[1..], id) + if list[0].request.id == id then 1 else 0
    decreases |list|
  {
    if |list| > 1 {
      CountCons(list[..|list| - 1], id);
      assert list[..|list| - 1][1..] == list[1..][..|list| - 2];
    }
  }

  lemma {:induction false} CountSame(a: seq<Event>, b: seq<Event>, id: nat)
    requires |a| == |b| && forall i | 0 <= i < |a| :: a[i].request.id == b[i].request.id
    ensures Count(a, id) == Count(b, id)
    decreases |a|
  {
    if a != [] {
      CountSame(a[..|a| - 1], b[..|b| - 1], id);
    }
  }

  lemma {:induction false} CountPut(active: seq<Event>, e: Event, id: nat)
    requires !IsActive(active, e.request.id)
    ensures Count(Put(active, e), id) == Count(active, id) + if e.request.id == id then 1 else 0
    decreases |active|
  {
    if active == [] {
      CountSnoc([], e, id);
    } else if e.request.id < active[0].request.id {
      CountCons([e] + active, id);
      assert ([e] + active)[1..] == active;
    } else {
      assert forall k | 0 <= k < |active[1..]| :: active[1..][k] == active[k + 1];
      CountPut(active[1..], e, id);
      CountCons(active, id);
      CountCons([active[0]] + Put(active[1..], e), id);
      assert ([active[0]] + Put(active[1..], e))[1..] == Put(active[1..], e);
    }
  }

  lemma {:induction false} PutElements(active: seq<Event>, e: Event)
    ensures forall x | x in Put(active, e) :: x == e || x in active
    decreases |active|
  {
    if active != [] {
      PutElements(active[1..], e);
      assert forall x | x in active[1..] :: x in active;
    }
  }

  lemma {:induction false} PutHolds(active: seq<Event>, e: Event)
    requires !IsActive(active, e.request.id)
    ensures e in Put(active, e) && forall f | f in active :: f in Put(active, e)
    decreases |active|
  {
    if active != [] && !(e.request.id < active[0].request.id) {
      assert active[0].request.id != e.request.id;
      assert forall k | 0 <= k < |active[1..]| :: active[1..][k] == active[k + 1];
      PutHolds(active[1..], e);
      assert active == [active[0]] + active[1..];
    }
  }

  lemma {:induction false} CountMember(list: seq<Event>, k: nat)
    requires k < |list|
    ensures Count(list, list[k].request.id) >= 1
    decreases |list|
  {
    if k < |list| - 1 {
      CountMember(list[..|list| - 1], k);
    }
  }

  lemma {:induction false} CountTwo(list: seq<Event>, j: nat, k: nat)
    requires j < k < |list|
    ensures list[j].request.id == list[k].request.id ==> Count(list, list[k].request.id) >= 2
    decreases |list|
  {
    if k < |list| - 1 {
      CountTwo(list[..|list| - 1], j, k);
    } else {
      CountMember(list[..|list| - 1], j);
    }
  }

  lemma {:induction false} CountAbsent(list: seq<Event>, id: nat)
    ensures Count(list, id) == 0 ==> !IsActive(list, id)
    decreases |list|
  {
    forall k | 0 <= k < |list| ensures Count(list, list[k].request.id) >= 1 {
      CountMember(list, k);
    }
  }

  lemma ActiveDistinct(s: State)
    requires Conserved(s)
    ensures forall j, k | 0 <= j < k < |s.active| :: s.active[j].request.id != s.active[k].request.id
    ensures forall k | 0 <= k < |s.active| :: s.active[k].request.id in s.accepted
  {
    forall j, k | 0 <= j < k < |s.active| ensures s.active[j].request.id != s.active[k].request.id {
      CountTwo(s.active, j, k);
      assert Places(s, s.active[k].request.id) <= 1;
    }
    forall k | 0 <= k < |s.active| ensures s.active[k].request.id in s.accepted {
      CountMember(s.active, k);
      assert Places(s, s.active[k].request.id) >= 1;
    }
  }

  lemma NotActive(s: State, id: nat)
    requires Inv(s) && id !in s.accepted
    ensures !IsActive(s.active, id)
  {
    assert Places(s, id) == 0;
    CountAbsent(s.active, id);
  }

  // ---------------------------------------------------------------------------
  // Sealing.

  lemma {:induction false} ExpireListCount(s: State, list: seq<Event>, now: nat, force: bool, id: nat)
    ensures var x := ExpireList(s, list, now, force);
            Count(x.active, id) + Count(x.jobs, id) == Count(list, id) + Count(s.jobs, id)
    decreases |list|
  {
    if list != [] {
      var front, e := list[..|list| - 1], list[|list| - 1];
      ExpireListCount(s, front, now, force, id);
      var x := ExpireList(s, front, now, force);
      CountSnoc(x.active, e, id);
      CountSnoc(x.jobs, e, id);
    }
  }

  lemma {:induction false} ExpireListActive(s: State, list: seq<Event>, now: nat, force: bool)
    ensures forall e | e in ExpireList(s, list, now, force).active :: e in list
    decreases |list|
  {
    if list != [] {
      ExpireListActive(s, list[..|list| - 1], now, force);
      assert forall e | e in list[..|list| - 1] :: e in list;
    }
  }

  lemma ExpireKeeps(s: State, now: nat, force: bool)
    requires Inv(s)
    ensures Inv(Expire(s, now, force))
  {
    var t := Expire(s, now, force);
    assert Conserved(t) by {
      forall id ensures Places(t, id) == Places(s, id) {
        ExpireListCount(s, s.active, now, force, id);
      }
    }
    assert ActiveOk(t) by {
      ExpireListActive(s, s.active, now, force);
      forall k | 0 <= k < |t.active| ensures EventOk(t.channels, t.accepted, t.lower, t.active[k]) {
        assert t.active[k] in s.active;
      }
    }
    assert ExitsOk(t) by {
      if exists w :: 0 <= w < |s.workers| && s.workers[w].Exited? {
        assert Drained(s) && s.active == [];
      }
    }
  }

  /** An expiry moves exactly the sealable events, and moves them unchanged. */
  lemma {:induction false} ExpireIsExact(s: State, list: seq<Event>, now: nat, force: bool, e: Event)
    requires e in list
    ensures var x := ExpireList(s, list, now, force);
            if Sealable(s.channels, e, now, force) then e in x.jobs else e in x.active
    decreases |list|
  {
    if e != list[|list| - 1] {
      ExpireIsExact(s, list[..|list| - 1], now, force, e);
    }
  }

  // ---------------------------------------------------------------------------
  // Steps on one channel.

  /** The conditions other than the channel's own survive a change that keeps its log and its worker. */
  lemma ChannelStep(s: State, c: nat, ch: Channel)
    requires Inv(s) && c < |s.channels| && ChannelInv(ch, s.clock)
    requires ch.log == s.channels[c].log && ch.busy == s.channels[c].busy && ch.converting == s.channels[c].converting
    requires !s.running ==> ch.queue == s.channels[c].queue
    ensures Inv(s.(channels := s.channels[c := ch]))
  {
    var t := s.(channels := s.channels[c := ch]);
    SameLogsKeepEvents(s, t);
    assert WorkersOk(t) by {
      forall w | 0 <= w < |t.workers| && HoldsChannel(t.workers[w]) ensures InHand(t.channels, t.workers[w]) {
        assert InHand(s.channels, s.workers[w]);
      }
    }
  }

  lemma PushKeeps(s: State, a: Action)
    requires Inv(s) && Enabled(s, a) && (a.ABeginPush? || a.AEndPush?)
    ensures Inv(Do(s, a))
  {
    var c := a.channel;
    if a.ABeginPush? {
      CaughtKeeps(s.channels[c], s.clock, s.running, a.stamp, a.fps, a.pre);
      ChannelStep(s, c, Caught(s.channels[c], s.running, a.stamp, a.fps, a.pre));
    } else {
      DeliveredKeeps(s.channels[c], s.clock, s.running);
      ChannelStep(s, c, Delivered(s.channels[c], s.running));
    }
  }

  ghost predicate ThreadsOk(s: State) {
    ChannelsOk(s) && WorkersOk(s) && EncodersOk(s) && ExitsOk(s)
  }

  /** A worker moves on with channel `c`, which no other worker holds. */
  lemma WorkerStep(s: State, w: nat, c: nat, ch: Channel, next: Worker)
    requires ThreadsOk(s)
    requires w < |s.workers| && c < |s.channels| && ChannelInv(ch, s.clock)
    requires !s.workers[w].Exited? && !s.workers[w].Encoding? && !next.Exited? && !next.Encoding?
    requires if s.workers[w].Idle? then !s.channels[c].busy else s.workers[w].channel == c
    requires !next.Idle? ==> next.channel == c
    requires ch.busy == !next.Idle? && ch.converting == (if next.Converting? then Some(next.raw) else None)
    requires |ch.queue| <= |s.channels[c].queue|
    ensures ThreadsOk(s.(channels := s.channels[c := ch], workers := s.workers[w := next]))
  {
    var t := s.(channels := s.channels[c := ch], workers := s.workers[w := next]);
    assert WorkersOk(t) by {
      forall v | 0 <= v < |t.workers| && HoldsChannel(t.workers[v]) ensures InHand(t.channels, t.workers[v]) {
        if v != w {
          assert InHand(s.channels, s.workers[v]);
          assert s.workers[v].channel != c;
        }
      }
      forall v | 0 <= v < |t.workers| && v != w && HoldsChannel(t.workers[v]) ensures t.workers[v].channel != c {
        assert InHand(s.channels, s.workers[v]);
      }
    }
    assert ExitsOk(t) by {
      forall v | 0 <= v < |t.workers| && t.workers[v].Exited? ensures Drained(t) {
        assert s.workers[v].Exited?;
        assert Drained(s.(channels := s.channels[c := ch]));
      }
    }
  }

  lemma SameLogsKeepEvents(s: State, t: State)
    requires ActiveOk(s) && LogsOk(s) && Conserved(s)
    requires t.active == s.active && t.jobs == s.jobs && t.encoding == s.encoding && t.finished == s.finished
    requires t.accepted == s.accepted && t.lower == s.lower && |t.channels| == |s.channels|
    requires forall c | 0 <= c < |s.channels| :: t.channels[c].log == s.channels[c].log
    ensures ActiveOk(t) && LogsOk(t) && Conserved(t)
  {
    forall k | 0 <= k < |t.active| ensures EventOk(t.channels, t.accepted, t.lower, t.active[k]) {
      assert EventOk(s.channels, s.accepted, s.lower, s.active[k]);
    }
    forall id ensures Places(t, id) == Places(s, id) {}
  }

  lemma ServeKeeps(s: State, w: nat, c: nat)
    requires Inv(s) && w < |s.workers| && s.workers[w].Idle? && Servable(s, c)
    ensures Inv(Serve(s, w, c))
  {
    ServedKeeps(s.channels[c], s.clock);
    WorkerStep(s, w, c, Served(s.channels[c]), Converting(c, s.channels[c].queue[0]));
    SameLogsKeepEvents(s, Serve(s, w, c));
  }

  lemma FailKeeps(s: State, w: nat)
    requires Inv(s) && Enabled(s, AFailConversion(w))
    ensures Inv(FailConversion(s, w))
  {
    var c, raw := s.workers[w].channel, s.workers[w].raw;
    assert InHand(s.channels, s.workers[w]);
    FailedKeeps(s.channels[c], s.clock, raw);
    WorkerStep(s, w, c, Failed(s.channels[c], raw), Releasing(c));
    SameLogsKeepEvents(s, FailConversion(s, w));
  }

  lemma ReleaseKeeps(s: State, w: nat)
    requires Inv(s) && Enabled(s, ARelease(w))
    ensures Inv(Release(s, w))
  {
    var c := s.workers[w].channel;
    assert InHand(s.channels, s.workers[w]);
    WorkerStep(s, w, c, s.channels[c].(busy := false), Idle);
    SameLogsKeepEvents(s, Release(s, w));
  }

  // ---------------------------------------------------------------------------
  // A converted frame joins exactly the events it belongs to.

  lemma {:induction false} EndsOfActive(active: seq<Event>, k: nat)
    requires forall i, j | 0 <= i < j < |active| :: active[i].request.id != active[j].request.id
    requires k < |active|
    ensures active[k].request.id in EndsOf(active) && EndsOf(active)[active[k].request.id] == active[k].end
    decreases |active|
  {
    if k < |active| - 1 {
      EndsOfActive(active[..|active| - 1], k);
    }
  }

  lemma {:induction false} EndsOfKeys(active: seq<Event>, accepted: set<nat>)
    requires forall k | 0 <= k < |active| :: active[k].request.id in accepted
    ensures EndsOf(active).Keys <= accepted
    decreases |active|
  {
    if active != [] {
      EndsOfKeys(active[..|active| - 1], accepted);
    }
  }

  lemma MembersSnoc(log: seq<Seen>, p: Seen, id: nat, start: nat, trigger: nat, lower: nat)
    ensures Members(log + [p], id, start, trigger, lower)
         == Members(log, id, start, trigger, lower) + if Belongs(p, id, start, trigger, lower) then [p.ts] else []
  {
    assert (log + [p])[..|log|] == log;
  }

  lemma ConvertedEvents(s: State, w: nat)
    requires Inv(s) && Enabled(s, AAbsorb(w))
    ensures ActiveOk(Converted(s, w)) && Conserved(Converted(s, w))
  {
    var t := Converted(s, w);
    ActiveDistinct(s);
    assert Conserved(t) by {
      forall id ensures Places(t, id) == Places(s, id) {
        CountSame(s.active, t.active, id);
      }
    }
    forall k | 0 <= k < |t.active| ensures EventOk(t.channels, t.accepted, t.lower, t.active[k]) {
      AbsorbedEvent(s, w, k);
    }
  }

  lemma ConvertedLogs(s: State, w: nat)
    requires LogsOk(s) && Conserved(s) && Enabled(s, AAbsorb(w))
    ensures LogsOk(Converted(s, w))
  {
    ActiveDistinct(s);
    EndsOfKeys(s.active, s.accepted);
  }

  lemma AbsorbedEvent(s: State, w: nat, k: nat)
    requires ActiveOk(s) && Enabled(s, AAbsorb(w)) && k < |s.active|
    requires forall i, j | 0 <= i < j < |s.active| :: s.active[i].request.id != s.active[j].request.id
    ensures EventOk(Converted(s, w).channels, s.accepted, s.lower, Converted(s, w).active[k])
  {
    var c, raw := s.workers[w].channel, s.workers[w].raw;
    var e := s.active[k];
    assert EventOk(s.channels, s.accepted, s.lower, e);
    EndsOfActive(s.active, k);
    MembersSnoc(s.channels[c].log, Seen(raw.ts, raw.pre, EndsOf(s.active)), e.request.id, e.start, e.trigger, s.lower[e.request.id]);
  }

  lemma ConvertedKeeps(s: State, w: nat)
    requires Inv(s) && Enabled(s, AAbsorb(w))
    ensures Inv(Converted(s, w))
  {
    var c, raw := s.workers[w].channel, s.workers[w].raw;
    ConvertedEvents(s, w);
    ConvertedLogs(s, w);
    assert InHand(s.channels, s.workers[w]);
    StoredKeeps(s.channels[c], s.clock, raw, EndsOf(s.active));
    var ch := Stored(s.channels[c], raw, EndsOf(s.active));
    WorkerStep(s, w, c, ch, Releasing(c));
    var u := s.(channels := s.channels[c := ch], workers := s.workers[w := Releasing(c)]);
    var t := Converted(s, w);
    assert t == u.(active := t.active);
    assert ExitsOk(t) by {
      forall v | 0 <= v < |t.workers| && t.workers[v].Exited? ensures Drained(t) {
        assert Drained(u);
      }
    }
  }

  // ---------------------------------------------------------------------------
  // Triggers, extensions, offline notices.

  lemma FromSnoc(times: seq<nat>, t: nat, floor: nat)
    ensures From(times + [t], floor) == if t >= floor then From(times, floor) + [t] else From(times, floor)
  {
    assert (times + [t])[..|times|] == times;
  }

  lemma WithinSnoc(ring: seq<nat>, t: nat, lo: nat, hi: nat)
    ensures Within(ring + [t], lo, hi) == if lo <= t <= hi then Within(ring, lo, hi) + [t] else Within(ring, lo, hi)
  {
    assert (ring + [t])[..|ring|] == ring;
  }

  /** What a trigger copies out of the ring: the earlier frames that belong to the new event. */
  lemma {:induction false} RingIsMembers(log: seq<Seen>, floor: nat, id: nat, start: nat, trigger: nat)
    requires forall k | 0 <= k < |log| :: id !in log[k].ends
    ensures Within(From(Times(log), floor), start, trigger) == Members(log, id, start, trigger, floor)
    decreases |log|
  {
    if log != [] {
      var front, p := log[..|log| - 1], log[|log| - 1];
      RingIsMembers(front, floor, id, start, trigger);
      assert front + [p] == log;
      TimesAppend(front, p);
      FromSnoc(Times(front), p.ts, floor);
      WithinSnoc(From(Times(front), floor), p.ts, start, trigger);
    }
  }

  /** A pointwise change of ends, or none, leaves every active event as it must be. */
  lemma EndsChange(s: State, active: seq<Event>)
    requires Inv(s) && |active| == |s.active|
    requires forall k | 0 <= k < |active| :: active[k] == s.active[k].(end := active[k].end)
    ensures Inv(s.(active := active))
  {
    var t := s.(active := active);
    forall id ensures Places(t, id) == Places(s, id) {
      CountSame(s.active, active, id);
    }
    forall k | 0 <= k < |t.active| ensures EventOk(t.channels, t.accepted, t.lower, t.active[k]) {
      assert EventOk(s.channels, s.accepted, s.lower, s.active[k]);
    }
    assert ExitsOk(t) by {
      forall w | 0 <= w < |t.workers| && t.workers[w].Exited? ensures Drained(t) {
        assert Drained(s);
      }
    }
  }

  lemma NewEventOk(s: State, r: Request, stamp: nat)
    requires Inv(s) && Enabled(s, ATrigger(r, stamp)) && r.id !in s.accepted
    ensures EventOk(s.channels, s.accepted + {r.id}, s.lower[r.id := s.channels[r.channel].floor], NewEvent(s, r, stamp))
  {
    var ch := s.channels[r.channel];
    assert ChannelInv(ch, s.clock);
    forall k | 0 <= k < |ch.log| ensures r.id !in ch.log[k].ends {
      assert s.channels[r.channel].log[k].ends.Keys <= s.accepted;
    }
    RingIsMembers(ch.log, ch.floor, r.id, Back(stamp, Span(r.pre)), stamp);
  }

  lemma AcceptConserves(s: State, r: Request, stamp: nat)
    requires Conserved(s) && r.channel < |s.channels| && s.running && r.id !in s.accepted
    ensures !Merges(s, r) && Conserved(Trigger(s, r, stamp))
  {
    var t := Trigger(s, r, stamp);
    assert Places(s, r.id) == 0;
    CountAbsent(s.active, r.id);
    forall id ensures Places(t, id) == if id in t.accepted then 1 else 0 {
      CountPut(s.active, NewEvent(s, r, stamp), id);
      assert Places(s, id) == if id in s.accepted then 1 else 0;
    }
  }

  lemma AcceptKeeps(s: State, r: Request, stamp: nat)
    requires Inv(s) && Enabled(s, ATrigger(r, stamp)) && s.running && r.id !in s.accepted
    ensures Inv(Trigger(s, r, stamp))
  {
    var t := Trigger(s, r, stamp);
    var e := NewEvent(s, r, stamp);
    AcceptConserves(s, r, stamp);
    assert ActiveOk(t) by {
      NewEventOk(s, r, stamp);
      PutElements(s.active, e);
      forall k | 0 <= k < |t.active| ensures EventOk(t.channels, t.accepted, t.lower, t.active[k]) {
        if t.active[k] != e {
          OldEventOk(s, r.id, s.channels[r.channel].floor, t.active[k]);
        }
      }
    }
    assert ExitsOk(t);
  }

  lemma OldEventOk(s: State, id: nat, floor: nat, e: Event)
    requires ActiveOk(s) && id !in s.accepted && e in s.active
    ensures EventOk(s.channels, s.accepted + {id}, s.lower[id := floor], e)
  {
    var k :| 0 <= k < |s.active| && s.active[k] == e;
    assert EventOk(s.channels, s.accepted, s.lower, s.active[k]);
  }

  lemma TriggerKeeps(s: State, r: Request, stamp: nat)
    requires Inv(s) && Enabled(s, ATrigger(r, stamp))
    ensures Inv(Trigger(s, r, stamp))
  {
    if s.running {
      if Merges(s, r) {
        WithEndKeeps(s, r.id, stamp + Span(r.post));
      } else {
        AcceptKeeps(s, r, stamp);
      }
    }
  }

  lemma WithEndKeeps(s: State, id: nat, end: nat)
    requires Inv(s)
    ensures Inv(s.(active := WithEnd(s.active, id, end)))
  {
    EndsChange(s, WithEnd(s.active, id, end));
  }

  // ---------------------------------------------------------------------------
  // Encoding and leaving.

  lemma NobodyLeft(s: State)
    requires ExitsOk(s) && !Drained(s)
    ensures forall v | 0 <= v < |s.workers| :: !s.workers[v].Exited?
  {
  }

  lemma CountHeld(e: Event, id: nat)
    ensures Count(Held(Some(e)), id) == if e.request.id == id then 1 else 0
  {
    assert Held(Some(e))[..0] == [];
  }

  lemma MoveToEncoder(s: State, w: nat, id: nat)
    requires EncodersOk(s) && w < |s.workers| && s.jobs != [] && s.encoders == 0
    ensures Places(StartEncoding(s, w), id) == Places(s, id)
  {
    CountCons(s.jobs, id);
    CountHeld(s.jobs[0], id);
  }

  lemma StartEncodingKeeps(s: State, w: nat)
    requires Inv(s) && w < |s.workers| && s.workers[w].Idle? && s.jobs != [] && s.encoders < MAX_ENCODERS
    ensures Inv(StartEncoding(s, w))
  {
    var t := StartEncoding(s, w);
    assert Conserved(t) by {
      forall id ensures Places(t, id) == Places(s, id) {
        MoveToEncoder(s, w, id);
      }
    }
    assert ActiveOk(t) by { SameActive(s, t); }
    assert WorkersOk(t) by { OtherWorker(s, t, w); }
    NobodyLeft(s);
    assert ExitsOk(t);
  }

  lemma SameActive(s: State, t: State)
    requires ActiveOk(s) && t.active == s.active && t.channels == s.channels && t.accepted == s.accepted && t.lower == s.lower
    ensures ActiveOk(t)
  {
    forall k | 0 <= k < |t.active| ensures EventOk(t.channels, t.accepted, t.lower, t.active[k]) {
      assert EventOk(s.channels, s.accepted, s.lower, s.active[k]);
    }
  }

  lemma OtherWorker(s: State, t: State, w: nat)
    requires WorkersOk(s) && w < |s.workers| && t.channels == s.channels
    requires !HoldsChannel(s.workers[w]) && |t.workers| == |s.workers| && !HoldsChannel(t.workers[w])
    requires forall v | 0 <= v < |s.workers| && v != w :: t.workers[v] == s.workers[v]
    ensures WorkersOk(t)
  {
    forall v | 0 <= v < |t.workers| && HoldsChannel(t.workers[v]) ensures InHand(t.channels, t.workers[v]) {
      assert InHand(s.channels, s.workers[v]);
    }
  }

  lemma MoveToFinished(s: State, w: nat, id: nat)
    requires EncodersOk(s) && Enabled(s, AFinishEncoding(w))
    ensures Places(FinishEncoding(s, w), id) == Places(s, id)
  {
    CountSnoc(s.finished, s.workers[w].event, id);
    CountHeld(s.workers[w].event, id);
    assert s.encoding == Some(s.workers[w].event);
  }

  lemma FinishEncodingKeeps(s: State, w: nat)
    requires Inv(s) && Enabled(s, AFinishEncoding(w))
    ensures Inv(FinishEncoding(s, w))
  {
    var t := FinishEncoding(s, w);
    var e := s.workers[w].event;
    assert Conserved(t) by {
      forall id ensures Places(t, id) == Places(s, id) {
        MoveToFinished(s, w, id);
      }
    }
    assert ActiveOk(t) by { SameActive(s, t); }
    assert WorkersOk(t) by { OtherWorker(s, t, w); }
    NobodyLeft(s);
    assert ExitsOk(t);
  }

  lemma SweepKeeps(s: State)
    requires Inv(s)
    ensures Inv(Sweep(s))
  {
    ExpireKeeps(s, s.clock, false);
    ExpireKeeps(Expire(s, s.clock, false), s.clock, true);
  }

  lemma ChooseKeeps(s: State, w: nat)
    requires Inv(s) && w < |s.workers| && s.workers[w].Idle?
    ensures Inv(Choose(s, w))
  {
    if s.jobs != [] && s.encoders < MAX_ENCODERS {
      StartEncodingKeeps(s, w);
    } else {
      PickIsServable(s, 0);
      if Pick(s, 0).Some? {
        ServeKeeps(s, w, Pick(s, 0).value);
      } else if Drained(s) {
        var t := s.(workers := s.workers[w := Exited]);
        SameLogsKeepEvents(s, t);
        OtherWorker(s, t, w);
      }
    }
  }

  lemma ChooseKeepsEvents(x: State, w: nat)
    requires w < |x.workers|
    ensures Choose(x, w).active == x.active && Choose(x, w).latest == x.latest
  {
  }

  lemma RequestKeeps(s: State, a: Action)
    requires Inv(s) && Enabled(s, a) && (a.AExtend? || a.AOffline?)
    ensures Inv(Do(s, a))
  {
    if a.AExtend? {
      EndsChange(s, Extended(s, a.id));
    } else {
      EndsChange(s, CutAll(s.active, a.channel, a.stamp));
    }
  }

  lemma WorkKeeps(s: State, a: Action)
    requires Inv(s) && Enabled(s, a)
    requires a.APoll? || a.AAbsorb? || a.AFailConversion? || a.ARelease? || a.AFinishEncoding?
    ensures Inv(Do(s, a))
  {
    match a
    case APoll(w) => SweepKeeps(s); ChooseKeeps(Sweep(s), w);
    case AAbsorb(w) => ConvertedKeeps(s, w); ExpireKeeps(Converted(s, w), s.workers[w].raw.ts, false);
    case AFailConversion(w) => FailKeeps(s, w);
    case ARelease(w) => ReleaseKeeps(s, w);
    case AFinishEncoding(w) => FinishEncodingKeeps(s, w);
  }

  lemma StepKeeps(s: State, a: Action)
    requires Inv(s) && Enabled(s, a)
    ensures Inv(Do(s, a))
  {
    match a
    case ATick(_) =>
    case ABeginPush(_, _, _, _) => PushKeeps(s, a);
    case AEndPush(_) => PushKeeps(s, a);
    case ATrigger(r, stamp) => TriggerKeeps(s, r, stamp);
    case AExtend(_) => RequestKeeps(s, a);
    case AOffline(_, _) => RequestKeeps(s, a);
    case AStop =>
    case _ => WorkKeeps(s, a);
  }

  lemma {:induction false} RunKeeps(s: State, run: seq<Action>, t: State)
    requires Inv(s) && Executes(s, run, t)
    ensures Inv(t)
    decreases |run|
  {
    if run != [] {
      StepKeeps(s, run[0]);
      RunKeeps(Do(s, run[0]), run[1..], t);
    }
  }

  lemma FreshInv(channels: nat, workers: nat)
    requires channels > 0
    ensures Inv(Fresh(channels, workers))
  {
    var s := Fresh(channels, workers);
    assert forall c | 0 <= c < channels :: Stream(s.channels[c]) == [];
    assert forall id :: Places(s, id) == 0;
  }

  // ---------------------------------------------------------------------------
  // The promises, in every reachable state.

  /**
   * In every reachable state: every accepted event is in exactly one of active, waiting,
   * being encoded and finished; at most one encoder runs; no queue exceeds its capacity; and
   * once any worker has left, every accepted event is finished.
   */
  lemma EveryEventInOnePlace(channels: nat, workers: nat, s: State)
    requires channels > 0 && Reachable(channels, workers, s)
    ensures forall id :: Places(s, id) == if id in s.accepted then 1 else 0
    ensures s.encoders <= 1
    ensures forall v, w | 0 <= v < |s.workers| && 0 <= w < |s.workers| && s.workers[v].Encoding? && s.workers[w].Encoding? :: v == w
    ensures forall c | 0 <= c < |s.channels| :: |s.channels[c].queue| <= CAPACITY
    ensures (exists w | 0 <= w < |s.workers| :: s.workers[w].Exited?) ==>
              forall id | id in s.accepted :: Count(s.finished, id) == 1
  {
    var run :| Executes(Fresh(channels, workers), run, s);
    FreshInv(channels, workers);
    RunKeeps(Fresh(channels, workers), run, s);
    forall c | 0 <= c < |s.channels| ensures |s.channels[c].queue| <= CAPACITY {
      assert ChannelInv(s.channels[c], s.clock);
    }
    if exists w | 0 <= w < |s.workers| :: s.workers[w].Exited? {
      assert Drained(s);
      forall id | id in s.accepted ensures Count(s.finished, id) == 1 {
        assert Places(s, id) == 1;
      }
    }
  }

  ghost predicate Joined(log: seq<Seen>, x: nat, id: nat, start: nat, trigger: nat, lower: nat) {
    exists k | 0 <= k < |log| :: log[k].ts == x && Belongs(log[k], id, start, trigger, lower)
  }

  lemma JoinedSnoc(log: seq<Seen>, x: nat, id: nat, start: nat, trigger: nat, lower: nat)
    requires log != []
    ensures Joined(log, x, id, start, trigger, lower) <==>
              Joined(log[..|log| - 1], x, id, start, trigger, lower)
              || (log[|log| - 1].ts == x && Belongs(log[|log| - 1], id, start, trigger, lower))
  {
    var front := log[..|log| - 1];
    if Joined(front, x, id, start, trigger, lower) {
      var k :| 0 <= k < |front| && front[k].ts == x && Belongs(front[k], id, start, trigger, lower);
      assert log[k] == front[k];
    }
    if Joined(log, x, id, start, trigger, lower) {
      var k :| 0 <= k < |log| && log[k].ts == x && Belongs(log[k], id, start, trigger, lower);
      assert k < |front| ==> log[k] == front[k];
    }
  }

  /** The members are exactly the frames that belong. */
  lemma {:induction false} MembersBelong(log: seq<Seen>, id: nat, start: nat, trigger: nat, lower: nat)
    ensures forall x :: x in Members(log, id, start, trigger, lower) <==> Joined(log, x, id, start, trigger, lower)
    decreases |log|
  {
    if log != [] {
      MembersBelong(log[..|log| - 1], id, start, trigger, lower);
      forall x ensures x in Members(log, id, start, trigger, lower) <==> Joined(log, x, id, start, trigger, lower) {
        JoinedSnoc(log, x, id, start, trigger, lower);
      }
    }
  }

  /** They are in increasing time order, each once. */
  lemma {:induction false} MembersAscend(log: seq<Seen>, id: nat, start: nat, trigger: nat, lower: nat)
    requires Ascending(Times(log))
    ensures Ascending(Members(log, id, start, trigger, lower))
    decreases |log|
  {
    if log != [] {
      var front, p := log[..|log| - 1], log[|log| - 1];
      assert Times(log) == Times(front) + [p.ts];
      AscendingPrefix(Times(front), [p.ts]);
      MembersAscend(front, id, start, trigger, lower);
      MembersBelong(front, id, start, trigger, lower);
      var m := Members(front, id, start, trigger, lower);
      forall i | 0 <= i < |m| ensures m[i] < p.ts {
        assert m[i] in m && Joined(front, m[i], id, start, trigger, lower);
        var k :| 0 <= k < |front| && front[k].ts == m[i] && Belongs(front[k], id, start, trigger, lower);
        assert Times(log)[k] < Times(log)[|log| - 1];
      }
    }
  }

  /** An active event may be sealed without force: what its frames then are. */
  ghost predicate Complete(s: State, e: Event)
    requires e.request.channel < |s.channels| && e.request.id in s.lower
  {
    var ch := s.channels[e.request.channel];
    && Ascending(e.frames)
    && (forall x :: x in e.frames <==>
          Joined(ch.log, x, e.request.id, e.start, e.trigger, s.lower[e.request.id]))
    // nothing pushed that is not newer than the end is still on its way
    && (forall t | t in ch.pushed && t <= e.end :: t in Times(ch.log) || t in ch.dropped)
    && ch.converting.None? && (forall k | 0 <= k < |ch.queue| :: ch.queue[k].ts > e.end)
  }

  lemma FramesAreMembers(s: State, k: nat)
    requires Inv(s) && k < |s.active|
    ensures EventOk(s.channels, s.accepted, s.lower, s.active[k])
    ensures var e := s.active[k];
            var log := s.channels[e.request.channel].log;
            && Ascending(e.frames)
            && (forall x :: x in e.frames <==>
                  Joined(log, x, e.request.id, e.start, e.trigger, s.lower[e.request.id]))
  {
    var e := s.active[k];
    assert EventOk(s.channels, s.accepted, s.lower, e);
    var ch := s.channels[e.request.channel];
    assert ChannelInv(ch, s.clock);
    assert Stream(ch) == Times(ch.log) + (One(ch.converting) + Stamps(ch.queue) + One(ch.pushing));
    AscendingPrefix(Times(ch.log), One(ch.converting) + Stamps(ch.queue) + One(ch.pushing));
    MembersBelong(ch.log, e.request.id, e.start, e.trigger, s.lower[e.request.id]);
    MembersAscend(ch.log, e.request.id, e.start, e.trigger, s.lower[e.request.id]);
  }

  lemma NothingOnItsWay(ch: Channel, clock: nat, end: nat)
    requires ChannelInv(ch, clock) && !ch.busy && (ch.queue == [] || ch.queue[0].ts > end)
    ensures ch.converting.None? && forall k | 0 <= k < |ch.queue| :: ch.queue[k].ts > end
    ensures forall t | t in ch.pushed && t <= end :: t in Times(ch.log) || t in ch.dropped
  {
    var before := Times(ch.log) + One(ch.converting);
    forall k | 0 <= k < |ch.queue| ensures ch.queue[k].ts > end {
      assert Stream(ch)[|before|] == ch.queue[0].ts && Stream(ch)[|before| + k] == ch.queue[k].ts;
    }
    assert forall k | 0 <= k < |Stamps(ch.queue)| :: Stamps(ch.queue)[k] > end;
  }

  /**
   * Whenever a worker seals an event because its window is over, the event is complete: its
   * frames are the converted frames that belong to it, once each in increasing time order, and
   * every frame of its channel that was pushed with a stamp in the window has been converted or
   * lost to a full queue or a failed conversion. `s` is the state the expiry works on.
   */
  lemma SealedIsComplete(s: State, now: nat, k: nat)
    requires Inv(s) && k < |s.active| && Sealable(s.channels, s.active[k], now, false)
    ensures EventOk(s.channels, s.accepted, s.lower, s.active[k])
    ensures now >= s.active[k].end && Complete(s, s.active[k])
    ensures s.active[k] in Expire(s, now, false).jobs
  {
    var e := s.active[k];
    FramesAreMembers(s, k);
    assert ChannelInv(s.channels[e.request.channel], s.clock);
    NothingOnItsWay(s.channels[e.request.channel], s.clock, e.end);
    ExpireIsExact(s, s.active, now, false, e);
  }

  /** A new event gets exactly the converted frames from its start to its stamp that are above the ring's floor. */
  lemma TriggerCopies(s: State, r: Request, stamp: nat, k: nat)
    requires Inv(s) && Enabled(s, ATrigger(r, stamp)) && r.id !in s.accepted && k < |s.channels[r.channel].log|
    ensures var e, ch := NewEvent(s, r, stamp), s.channels[r.channel];
            ch.log[k].ts in e.frames <==> e.start <= ch.log[k].ts <= stamp && ch.floor <= ch.log[k].ts
  {
    var e, ch := NewEvent(s, r, stamp), s.channels[r.channel];
    NewEventOk(s, r, stamp);
    assert ch.log[k].ends.Keys <= s.accepted;
    MembersBelong(ch.log, r.id, e.start, stamp, ch.floor);
    if ch.log[k].ts in e.frames {
      assert Joined(ch.log, ch.log[k].ts, r.id, e.start, stamp, ch.floor);
      var j :| 0 <= j < |ch.log| && ch.log[j].ts == ch.log[k].ts && Belongs(ch.log[j], r.id, e.start, stamp, ch.floor);
      assert ch.log[j].ends.Keys <= s.accepted;
    }
  }

  /** The converted frames in the window of the event that a trigger would start are in the ring and not newer than its stamp. */
  ghost predicate WindowInReach(s: State, r: Request, stamp: nat)
    requires r.channel < |s.channels|
  {
    var e, ch := NewEvent(s, r, stamp), s.channels[r.channel];
    forall k | 0 <= k < |ch.log| && e.start <= ch.log[k].ts <= e.end :: ch.floor <= ch.log[k].ts <= stamp
  }

  /** A trigger gets every converted frame of its event's window exactly if all of them are in reach. */
  lemma TriggerGetsItsWindowIff(s: State, r: Request, stamp: nat)
    requires Inv(s) && Enabled(s, ATrigger(r, stamp)) && r.id !in s.accepted
    ensures var e, log := NewEvent(s, r, stamp), s.channels[r.channel].log;
            (forall k | 0 <= k < |log| && e.start <= log[k].ts <= e.end :: log[k].ts in e.frames) <==> WindowInReach(s, r, stamp)
  {
    forall k | 0 <= k < |s.channels[r.channel].log|
      ensures var e, ch := NewEvent(s, r, stamp), s.channels[r.channel];
              ch.log[k].ts in e.frames <==> e.start <= ch.log[k].ts <= stamp && ch.floor <= ch.log[k].ts
    {
      TriggerCopies(s, r, stamp, k);
    }
  }

  /**
   * All are in reach when the pre-roll is no longer than the ring was asked to keep and no
   * converted frame is newer than the stamp.
   */
  lemma RingCoversPreRoll(s: State, r: Request, stamp: nat)
    requires Inv(s) && r.channel < |s.channels|
    requires forall k | 0 <= k < |s.channels[r.channel].log| ::
               s.channels[r.channel].log[k].pre >= Span(r.pre) && s.channels[r.channel].log[k].ts <= stamp
    ensures WindowInReach(s, r, stamp)
  {
    var ch := s.channels[r.channel];
    assert ChannelInv(ch, s.clock);
    if ch.floor != 0 {
      var k :| 0 <= k < |ch.log| && ch.floor == Back(ch.log[k].ts, ch.log[k].pre);
    }
  }

  lemma {:induction false} ExecutesSnoc(s: State, run: seq<Action>, t: State, a: Action)
    requires Executes(s, run, t) && Enabled(t, a)
    ensures Executes(s, run + [a], Do(t, a))
    decreases |run|
  {
    if run != [] {
      ExecutesSnoc(Do(s, run[0]), run[1..], t, a);
      assert (run + [a])[1..] == run[1..] + [a];
    }
  }

  /** A recorder with one channel and one worker, before any event. */
  function Solo(clock: nat, ch: Channel, w: Worker): State {
    State(clock, true, [ch], 0, [], map[], [], 0, [w], None, [], {}, map[])
  }

  /** A channel with nothing on its way, after a frame at `ts`. */
  function Rested(ring: seq<nat>, ts: nat, log: seq<Seen>, floor: nat, pushed: set<nat>): Channel {
    Channel(ring, ts, [], false, None, None, log, floor, pushed, {})
  }

  predicate AtRest(ch: Channel) { ch == Rested(ch.ring, ch.captured, ch.log, ch.floor, ch.pushed) }

  lemma SoloBegins(clock: nat, ch: Channel, pre: nat)
    requires AtRest(ch) && 0 < clock && (ch.captured == 0 || clock - ch.captured >= 40) && pre <= 120000
    ensures Enabled(Solo(clock, ch, Idle), ABeginPush(0, clock, 25, pre))
    ensures Do(Solo(clock, ch, Idle), ABeginPush(0, clock, 25, pre)) == Solo(clock, ch.(captured := clock, pushing := Some(Raw(clock, pre))), Idle)
  {
    assert Period(25) == 40 && Span(pre) == pre;
    assert [ch][0 := Caught(ch, true, clock, 25, pre)] == [Caught(ch, true, clock, 25, pre)];
  }

  lemma SoloDelivers(clock: nat, ch: Channel, raw: Raw)
    requires ch.pushing == Some(raw) && ch.queue == []
    ensures Enabled(Solo(clock, ch, Idle), AEndPush(0))
    ensures Do(Solo(clock, ch, Idle), AEndPush(0)) == Solo(clock, ch.(pushing := None, queue := [raw], pushed := ch.pushed + {raw.ts}), Idle)
  {
    assert [] + [raw] == [raw];
    assert [ch][0 := Delivered(ch, true)] == [Delivered(ch, true)];
  }

  lemma SoloServes(clock: nat, ch: Channel, raw: Raw)
    requires ch.queue == [raw] && !ch.busy
    ensures Enabled(Solo(clock, ch, Idle), APoll(0))
    ensures Do(Solo(clock, ch, Idle), APoll(0)) == Solo(clock, ch.(queue := [], busy := true, converting := Some(raw)), Converting(0, raw))
  {
    var s := Solo(clock, ch, Idle);
    assert Servable(s, 0) && (s.next + 0) % 1 == 0 && Pick(s, 0) == Some(0) && Sweep(s) == s;
    assert [raw][1..] == [] && [ch][0 := Served(ch)] == [Served(ch)];
    assert [Idle][0 := Converting(0, raw)] == [Converting(0, raw)];
  }

  lemma SoloConverts(clock: nat, ch: Channel, raw: Raw)
    ensures Enabled(Solo(clock, ch, Converting(0, raw)), AAbsorb(0))
    ensures Do(Solo(clock, ch, Converting(0, raw)), AAbsorb(0)) == Solo(clock, Stored(ch, raw, map[]), Releasing(0))
  {
    assert [ch][0 := Stored(ch, raw, map[])] == [Stored(ch, raw, map[])];
    assert [Converting(0, raw)][0 := Releasing(0)] == [Releasing(0)];
  }

  lemma SoloReleases(clock: nat, ch: Channel)
    ensures Enabled(Solo(clock, ch, Releasing(0)), ARelease(0))
    ensures Do(Solo(clock, ch, Releasing(0)), ARelease(0)) == Solo(clock, ch.(busy := false), Idle)
  {
    assert [ch][0 := ch.(busy := false)] == [ch.(busy := false)];
    assert [Releasing(0)][0 := Idle] == [Idle];
  }

  /** A frame is pushed at `ts` and converted. */
  lemma FrameThrough(run: seq<Action>, clock: nat, ch: Channel, ts: nat, pre: nat) returns (after: seq<Action>)
    requires Executes(Fresh(1, 1), run, Solo(clock, ch, Idle)) && AtRest(ch) && pre <= 120000
    requires clock <= ts && 0 < ts && (ch.captured == 0 || ts - ch.captured >= 40)
    ensures var keep := Back(ts, pre);
            Executes(Fresh(1, 1), after,
              Solo(ts, Rested(Trim(ch.ring + [ts], keep), ts, ch.log + [Seen(ts, pre, map[])], Larger(ch.floor, keep), ch.pushed + {ts}), Idle))
  {
    var o, raw := Fresh(1, 1), Raw(ts, pre);
    ExecutesSnoc(o, run, Solo(clock, ch, Idle), ATick(ts));
    after := run + [ATick(ts)];
    assert Do(Solo(clock, ch, Idle), ATick(ts)) == Solo(ts, ch, Idle);
    hide Do, Enabled, Executes, Solo, Trim;
    SoloBegins(ts, ch, pre);
    ExecutesSnoc(o, after, Solo(ts, ch, Idle), ABeginPush(0, ts, 25, pre));
    after := after + [ABeginPush(0, ts, 25, pre)];
    var held := ch.(captured := ts, pushing := Some(raw));
    SoloDelivers(ts, held, raw);
    ExecutesSnoc(o, after, Solo(ts, held, Idle), AEndPush(0));
    after := after + [AEndPush(0)];
    var queued := held.(pushing := None, queue := [raw], pushed := ch.pushed + {ts});
    SoloServes(ts, queued, raw);
    ExecutesSnoc(o, after, Solo(ts, queued, Idle), APoll(0));
    after := after + [APoll(0)];
    var busy := queued.(queue := [], busy := true, converting := Some(raw));
    SoloConverts(ts, busy, raw);
    ExecutesSnoc(o, after, Solo(ts, busy, Converting(0, raw)), AAbsorb(0));
    after := after + [AAbsorb(0)];
    SoloReleases(ts, Stored(busy, raw, map[]));
    ExecutesSnoc(o, after, Solo(ts, Stored(busy, raw, map[]), Releasing(0)), ARelease(0));
    after := after + [ARelease(0)];
  }

  /** The frame stamped 10 has been converted and lies in the ring; it asked the ring to keep `pre`. */
  lemma FrameStored(pre: nat) returns (run: seq<Action>)
    requires pre <= 120000
    ensures Executes(Fresh(1, 1), run, Solo(10, Rested([10], 10, [Seen(10, pre, map[])], Back(10, pre), {10}), Idle))
  {
    var silent := Rested([], 0, [], 0, {});
    assert Fresh(1, 1).channels == [silent] && Fresh(1, 1).workers == [Idle];
    run := FrameThrough([], 0, silent, 10, pre);
    assert [] + [10] == [10] && {} + {10} == {10} && [] + [Seen(10, pre, map[])] == [Seen(10, pre, map[])];
  }

  /**
   * A trigger whose stamp was taken before a frame was converted does not get that frame,
   * although it lies in the event's window.
   */
  lemma EarlyStampMissesFrame() returns (s: State, r: Request, t: State)
    ensures Reachable(1, 1, s) && Enabled(s, ATrigger(r, 9)) && t == Do(s, ATrigger(r, 9))
    ensures |t.active| == 1 && t.active[0].start <= 10 <= t.active[0].end
    ensures |t.channels[0].log| == 1 && t.channels[0].log[0].ts == 10 && t.active[0].frames == []
  {
    var run := FrameStored(5000);
    s := Solo(10, Rested([10], 10, [Seen(10, 5000, map[])], Back(10, 5000), {10}), Idle);
    r := Request(7, 0, "alarm", 5000, 5000);
    t := Do(s, ATrigger(r, 9));
    assert [10][..0] == [];
    assert NewEvent(s, r, 9).frames == [];
  }

  /**
   * A trigger that asks for a longer past than the pushed frames did gets a shorter one: the frame
   * stamped 10 lies in the event's window, but the next one has pushed it out of the ring.
   */
  lemma ShortRingMissesFrame() returns (s: State, r: Request, t: State)
    ensures Reachable(1, 1, s) && Enabled(s, ATrigger(r, 50)) && t == Do(s, ATrigger(r, 50))
    ensures |t.active| == 1 && t.active[0].start < s.channels[0].floor && t.active[0].start <= 10 <= t.active[0].end
    ensures |t.channels[0].log| == 2 && t.channels[0].log[0].ts == 10 && t.channels[0].log[1].ts == 50 && t.active[0].frames == [50]
  {
    var run := FrameStored(0);
    run := FrameThrough(run, 10, Rested([10], 10, [Seen(10, 0, map[])], 10, {10}), 50, 0);
    s := Solo(50, Rested(Trim([10] + [50], 50), 50, [Seen(10, 0, map[])] + [Seen(50, 0, map[])], 50, {10} + {50}), Idle);
    r := Request(7, 0, "alarm", 5000, 5000);
    t := Do(s, ATrigger(r, 50));
    LastOneKept(10, 50);
    assert NewEvent(s, r, 50).frames == [50];
  }

  lemma LastOneKept(first: nat, last: nat)
    requires first < last
    ensures Trim([first] + [last], last) == [last] && Within([last], 0, last) == [last]
  {
    assert ([first] + [last])[1..] == [last] && [last][..0] == [];
  }

  // ---------------------------------------------------------------------------
  // Fairness between channels.

  /** How far round from `next` channel `c` lies. */
  function Distance(s: State, c: nat): nat
    requires c < |s.channels| && s.next < |s.channels|
  {
    if c >= s.next then c - s.next else c + |s.channels| - s.next
  }

  lemma OffsetOf(s: State, c: nat, offset: nat)
    requires c < |s.channels| && s.next < |s.channels| && offset < |s.channels|
    ensures ((s.next + offset) % |s.channels| == c) <==> offset == Distance(s, c)
  {
    var n := |s.channels|;
    if s.next + offset < n {
      assert (s.next + offset) % n == s.next + offset;
    } else {
      assert (s.next + offset) % n == s.next + offset - n;
    }
  }

  lemma {:induction false} PickIsNearest(s: State, c: nat, offset: nat)
    requires Servable(s, c) && s.next < |s.channels| && offset <= Distance(s, c)
    ensures Pick(s, offset).Some?
    ensures var d := Pick(s, offset).value; d < |s.channels| && Distance(s, d) <= Distance(s, c)
    decreases |s.channels| - offset
  {
    var here := (s.next + offset) % |s.channels|;
    OffsetOf(s, c, offset);
    OffsetOf(s, here, offset);
    if !Servable(s, here) {
      PickIsNearest(s, c, offset + 1);
    }
  }

  /** The worker of this action takes a frame from a channel. */
  predicate Pops(s: State, a: Action) {
    a.APoll? && a.worker < |s.workers| && !(Sweep(s).jobs != [] && s.encoders < MAX_ENCODERS) && Pick(Sweep(s), 0).Some?
  }

  lemma SweepSame(s: State)
    ensures Sweep(s).channels == s.channels && Sweep(s).next == s.next && Sweep(s).workers == s.workers && Sweep(s).encoders == s.encoders
  {
  }

  lemma NextRound(d: nat, n: nat)
    requires d < n
    ensures (d + 1) % n == if d + 1 < n then d + 1 else 0
  {
  }

  lemma ServeApproaches(s: State, w: nat, c: nat, d: nat)
    requires w < |s.workers| && Servable(s, c) && Servable(s, d) && s.next < |s.channels|
    requires Distance(s, d) <= Distance(s, c)
    ensures var t := Serve(s, w, d);
            && |t.channels| == |s.channels| && t.next < |t.channels|
            && if c == d then !Servable(t, c) else Distance(t, c) < Distance(s, c)
  {
    NextRound(d, |s.channels|);
  }

  lemma PollPops(s: State, w: nat, c: nat)
    requires Enabled(s, APoll(w)) && Servable(s, c) && s.next < |s.channels|
    ensures var t := Poll(s, w); |t.channels| == |s.channels| && t.next < |t.channels|
    ensures if Pops(s, APoll(w)) then !Servable(Poll(s, w), c) || Distance(Poll(s, w), c) < Distance(s, c)
            else Poll(s, w).next == s.next
  {
    SweepSame(s);
    var x := Sweep(s);
    if Pops(s, APoll(w)) {
      PickIsNearest(x, c, 0);
      PickIsServable(x, 0);
      assert Poll(s, w) == Serve(x, w, Pick(x, 0).value);
      ServeApproaches(x, w, c, Pick(x, 0).value);
    }
  }

  lemma OnlyPollMovesOn(s: State, a: Action)
    requires Enabled(s, a) && !a.APoll?
    ensures Do(s, a).next == s.next && |Do(s, a).channels| == |s.channels|
  {
  }

  lemma PopApproaches(s: State, a: Action, c: nat)
    requires s.next < |s.channels| && Enabled(s, a) && Servable(s, c) && Servable(Do(s, a), c)
    ensures |Do(s, a).channels| == |s.channels| && Do(s, a).next < |s.channels|
    ensures Pops(s, a) ==> Distance(Do(s, a), c) < Distance(s, c)
    ensures !Pops(s, a) ==> Distance(Do(s, a), c) == Distance(s, c)
  {
    if a.APoll? {
      PollPops(s, a.worker, c);
    } else {
      OnlyPollMovesOn(s, a);
    }
  }

  /** Channel `c` stays non-busy and non-empty throughout the run. */
  ghost predicate Waits(s: State, run: seq<Action>, c: nat)
    decreases |run|
  {
    Servable(s, c) && (run != [] ==> Enabled(s, run[0]) && Waits(Do(s, run[0]), run[1..], c))
  }

  ghost function PopCount(s: State, run: seq<Action>): nat
    decreases |run|
  {
    if run == [] || !Enabled(s, run[0]) then 0
    else PopCount(Do(s, run[0]), run[1..]) + if Pops(s, run[0]) then 1 else 0
  }

  /** While a non-busy channel with frames waits, fewer frames are taken from others than there are channels. */
  lemma {:induction false} ServedInTurn(s: State, run: seq<Action>, c: nat)
    requires s.next < |s.channels| && Waits(s, run, c)
    ensures PopCount(s, run) <= Distance(s, c) < |s.channels|
    decreases |run|
  {
    if run != [] {
      PopApproaches(s, run[0], c);
      ServedInTurn(Do(s, run[0]), run[1..], c);
    }
  }
}
