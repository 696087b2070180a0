/**
 * What each call of the event video recorder does, in the caller's terms
 * (engine/src/recorder/event_video_recorder.cpp): milliseconds asked for, frames in the ring and
 * in the queue, and the ends of events.
 */
module RecorderRequests {
  import opened RecorderChannel
  import opened EventRecorder
  import opened RecorderSafety
  import opened RecorderWindow

  // ---------------------------------------------------------------------------
  // Triggers, extensions, offline notices.

  lemma {:induction false} WithinIs(ring: seq<nat>, lo: nat, hi: nat)
    ensures forall x :: x in Within(ring, lo, hi) <==> x in ring && lo <= x <= hi
    decreases |ring|
  {
    if ring != [] {
      WithinIs(ring[..|ring| - 1], lo, hi);
      assert ring == ring[..|ring| - 1] + [ring[|ring| - 1]];
    }
  }

  /**
   * A new event starts as long before its stamp and ends as long after it as was asked for, and
   * holds the ring's frames between its start and its stamp.
   */
  ghost predicate StartedBy(e: Event, r: Request, stamp: nat, ring: seq<nat>) {
    && e.request == r && e.trigger == stamp && StartsAsAsked(e) && e.end == stamp + Asked(r.post)
    && forall x :: x in e.frames <==> x in ring && stamp <= x + Asked(r.pre) && x <= stamp
  }

  lemma NewEventIsAsked(s: State, r: Request, stamp: nat)
    requires r.channel < |s.channels|
    ensures StartedBy(NewEvent(s, r, stamp), r, stamp, s.channels[r.channel].ring)
  {
    WithinIs(s.channels[r.channel].ring, NewEvent(s, r, stamp).start, stamp);
    hide Within;
  }

  lemma TriggerStartsEvent(s: State, r: Request, stamp: nat)
    requires Inv(s) && s.running && Enabled(s, ATrigger(r, stamp)) && r.id !in s.accepted
    ensures var t := Do(s, ATrigger(r, stamp));
            && (exists e | e in t.active :: StartedBy(e, r, stamp, s.channels[r.channel].ring))
            && (forall f: Event | f.request.id != r.id :: f in t.active <==> f in s.active)
            && KeyOf(r) in t.latest && t.latest[KeyOf(r)] == r.id && t.channels == s.channels && t.jobs == s.jobs
  {
    NotActive(s, r.id);
    hide Inv, Put, NewEvent, StartedBy;
    assert !Merges(s, r);
    NewEventIsAsked(s, r, stamp);
    PutHolds(s.active, NewEvent(s, r, stamp));
    forall f: Event | f.request.id != r.id ensures f in Trigger(s, r, stamp).active <==> f in s.active {
      StartKeepsEvents(s, r, stamp, f.request.id);
    }
  }

  /** In plain arithmetic: a pre-roll of up to two minutes that fits before the stamp, and a post-roll. */
  lemma EventSpansRequest(e: Event, r: Request, stamp: nat, ring: seq<nat>)
    requires StartedBy(e, r, stamp, ring)
    ensures 0 <= r.pre <= 120000 && r.pre <= stamp ==> e.start + r.pre == stamp
    ensures 0 <= r.pre <= 120000 && r.pre > stamp ==> e.start == 0
    ensures 0 <= r.post <= 120000 ==> e.end == stamp + r.post
    ensures (r.pre < 0 ==> e.start == stamp) && (r.post < 0 ==> e.end == stamp)
    ensures (r.pre > 120000 && stamp >= 120000 ==> e.start + 120000 == stamp) && (r.post > 120000 ==> e.end == stamp + 120000)
  {
  }

  lemma ActivePosts(active: seq<Event>, id: nat, k: nat)
    requires k < |active| && active[k].request.id == id
    requires forall i, j | 0 <= i < j < |active| :: active[i].request.id != active[j].request.id
    ensures PostOf(active, id) == Asked(active[k].request.post)
    decreases k
  {
    if k > 0 {
      assert active[0].request.id != active[k].request.id;
      ActivePosts(active[1..], id, k - 1);
    }
  }

  lemma ExtendedAt(s: State, id: nat, k: nat)
    requires k < |s.active| && forall i, j | 0 <= i < j < |s.active| :: s.active[i].request.id != s.active[j].request.id
    ensures |Extended(s, id)| == |s.active|
    ensures Extended(s, id)[k]
         == if s.active[k].request.id == id then s.active[k].(end := s.clock + Asked(s.active[k].request.post)) else s.active[k]
  {
    if s.active[k].request.id == id {
      ActivePosts(s.active, id, k);
      hide PostOf;
      assert IsActive(s.active, id);
    }
  }

  /** An extension gives its event a new end, as long after now as its request asked for, and changes nothing else. */
  lemma ExtensionSetsEnd(s: State, id: nat, k: nat)
    requires Inv(s) && k < |s.active|
    ensures var t := Do(s, AExtend(id));
            t == s.(active := t.active) && |t.active| == |s.active|
            && t.active[k] == if s.active[k].request.id == id then s.active[k].(end := s.clock + Asked(s.active[k].request.post)) else s.active[k]
  {
    ActiveDistinct(s);
    hide Inv, Extended;
    ExtendedAt(s, id, k);
  }

  /** An offline notice cuts the ends of its channel's events that lie later, and changes nothing else. */
  lemma OfflineCutsLaterEnds(s: State, c: nat, stamp: nat, k: nat)
    requires stamp <= s.clock && k < |s.active|
    ensures var t := Do(s, AOffline(c, stamp));
            && t == s.(active := t.active) && |t.active| == |s.active|
            && t.active[k] == s.active[k].(end := t.active[k].end)
            && t.active[k].end <= s.active[k].end
            && (s.active[k].request.channel == c ==> t.active[k].end <= stamp)
            && (t.active[k].end < s.active[k].end ==> s.active[k].request.channel == c && t.active[k].end == stamp)
  {
  }

  // ---------------------------------------------------------------------------
  // Pushes.

  /** Frames per second as they count: at least one, at most thirty. */
  function Rate(fps: int): int { if fps < 1 then 1 else if fps > 30 then 30 else fps }

  /** A push takes its frame in hand exactly if the recorder runs and a whole period has passed since the last one. */
  lemma PushIsTakenIff(s: State, c: nat, stamp: nat, fps: int, pre: int)
    requires Enabled(s, ABeginPush(c, stamp, fps, pre))
    ensures var ch, next := s.channels[c], Do(s, ABeginPush(c, stamp, fps, pre)).channels[c];
            var due := ch.captured == 0 || ch.captured + 1000 / Rate(fps) <= stamp;
            && next.pushing == (if s.running && due then Some(Raw(stamp, Asked(pre))) else None)
            && next.captured == (if due then stamp else ch.captured)
            && next.queue == if s.running && due && |ch.queue| >= 4 then ch.queue[1..] else ch.queue
  {
  }

  /** What was in hand becomes the newest frame of the queue. */
  lemma PushIsNewest(s: State, c: nat)
    requires Enabled(s, AEndPush(c)) && s.running
    ensures Do(s, AEndPush(c)).channels[c].queue == s.channels[c].queue + [s.channels[c].pushing.value]
  {
  }

  // ---------------------------------------------------------------------------
  // The ring.

  lemma {:induction false} FromMembers(times: seq<nat>, floor: nat)
    ensures forall x :: x in From(times, floor) <==> x in times && x >= floor
    decreases |times|
  {
    if times != [] {
      FromMembers(times[..|times| - 1], floor);
      assert times == times[..|times| - 1] + [times[|times| - 1]];
    }
  }

  /** The ring holds exactly the converted frames that lie within every pre-roll asked for so far. */
  lemma RingHoldsPreRolls(s: State, c: nat, x: nat)
    requires Inv(s) && c < |s.channels|
    ensures var ch := s.channels[c];
            x in ch.ring <==> x in Times(ch.log) && forall k | 0 <= k < |ch.log| :: ch.log[k].ts <= x + ch.log[k].pre
  {
    var ch := s.channels[c];
    assert ChannelInv(ch, s.clock);
    FromMembers(Times(ch.log), ch.floor);
    if x in Times(ch.log) && x < ch.floor {
      var k :| 0 <= k < |ch.log| && ch.floor == Back(ch.log[k].ts, ch.log[k].pre);
      assert ch.log[k].ts > x + ch.log[k].pre;
    }
    if x >= ch.floor {
      forall k | 0 <= k < |ch.log| ensures ch.log[k].ts <= x + ch.log[k].pre {
        assert Back(ch.log[k].ts, ch.log[k].pre) <= ch.floor;
      }
    }
  }

  // ---------------------------------------------------------------------------
  // Sealing.

  /** An expiry seals an event exactly if it is forced, or the event's end has come and no frame up to it is queued or being converted. */
  lemma SealedIff(s: State, now: nat, force: bool, k: nat)
    requires Inv(s) && k < |s.active|
    ensures var e, t := s.active[k], Expire(s, now, force);
            var ch := s.channels[e.request.channel];
            e.request.channel < |s.channels|
            && (if force || (now >= e.end && !ch.busy && forall i | 0 <= i < |ch.queue| :: ch.queue[i].ts > e.end)
                then e in t.jobs && e !in t.active else e in t.active)
  {
    var e := s.active[k];
    assert EventOk(s.channels, s.accepted, s.lower, e);
    var ch := s.channels[e.request.channel];
    assert ChannelInv(ch, s.clock);
    if ch.queue != [] && ch.queue[0].ts > e.end && !ch.busy {
      NothingOnItsWay(ch, s.clock, e.end);
    }
    ExpireIsExact(s, s.active, now, force, e);
    SealedLeaves(s, now, force, e);
  }

  lemma SealedLeaves(s: State, now: nat, force: bool, e: Event)
    ensures Sealable(s.channels, e, now, force) ==> e !in Expire(s, now, force).active
  {
    StaysIffNotSealable(s, s.active, now, force);
  }

  lemma {:induction false} StaysIffNotSealable(s: State, list: seq<Event>, now: nat, force: bool)
    ensures forall e | e in ExpireList(s, list, now, force).active :: !Sealable(s.channels, e, now, force)
    decreases |list|
  {
    if list != [] {
      StaysIffNotSealable(s, list[..|list| - 1], now, force);
    }
  }

  lemma {:induction false} AllSealed(s: State, list: seq<Event>, now: nat, force: bool)
    requires forall k | 0 <= k < |list| :: Sealable(s.channels, list[k], now, force)
    ensures ExpireList(s, list, now, force).active == []
    decreases |list|
  {
    if list != [] {
      AllSealed(s, list[..|list| - 1], now, force);
    }
  }

  lemma ForcedSealsAll(x: State, now: nat)
    requires ActiveOk(x)
    ensures Expire(x, now, true).active == []
  {
    forall k | 0 <= k < |x.active| ensures Sealable(x.channels, x.active[k], now, true) {
      assert EventOk(x.channels, x.accepted, x.lower, x.active[k]);
    }
    AllSealed(x, x.active, now, true);
  }

  /** Once the recorder is stopped and no frame is queued or being converted, a worker's pass seals every event. */
  lemma StoppedSealsAll(s: State, w: nat)
    requires Inv(s) && Enabled(s, APoll(w)) && !s.running
    requires forall c | 0 <= c < |s.channels| :: s.channels[c].queue == [] && !s.channels[c].busy
    ensures Do(s, APoll(w)).active == []
  {
    ExpireKeeps(s, s.clock, false);
    var x := Expire(s, s.clock, false);
    assert QueuesEmpty(x.channels) && NoneBusy(x.channels);
    ForcedSealsAll(x, x.clock);
    hide Inv, Expire, Choose;
    ChooseKeepsEvents(Sweep(s), w);
  }
}
