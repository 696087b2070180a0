/**
 * What a sealed event holds, over whole runs: its window, exactly if its trigger had the window in
 * reach; and when another frame of the window can still follow.
 */
module RecorderWindow {
  import opened RecorderChannel
  import opened EventRecorder
  import opened RecorderSafety

  /** The end an event had when a frame was converted; for the frames before it, as long after the trigger as was asked for. */
  function EndThen(p: Seen, e: Event): nat {
    if e.request.id in p.ends then p.ends[e.request.id] else e.trigger + Asked(e.request.post)
  }

  /** A converted frame with stamp `x`, no earlier than the pre-roll asked for and no later than the event's end then. */
  ghost predicate InWindow(log: seq<Seen>, x: nat, e: Event) {
    exists k | 0 <= k < |log| :: log[k].ts == x && e.trigger <= x + Asked(e.request.pre) && x <= EndThen(log[k], e)
  }

  /** The event starts as long before its trigger as was asked for, if there was so much time. */
  predicate StartsAsAsked(e: Event) {
    if e.trigger >= Asked(e.request.pre) then e.start + Asked(e.request.pre) == e.trigger else e.start == 0
  }

  /** The frames of the window that were there before the event were above the ring's floor and not newer than the trigger. */
  ghost predicate Granted(log: seq<Seen>, e: Event, lower: nat) {
    forall k | 0 <= k < |log| && e.request.id !in log[k].ends && e.start <= log[k].ts <= EndThen(log[k], e) ::
      lower <= log[k].ts <= e.trigger
  }

  /** The members are the frames of the window exactly if the past was granted. */
  lemma MembersFillWindowIff(log: seq<Seen>, e: Event, lower: nat)
    requires Ascending(Times(log)) && StartsAsAsked(e)
    ensures (forall x :: Joined(log, x, e.request.id, e.start, e.trigger, lower) <==> InWindow(log, x, e)) <==> Granted(log, e, lower)
  {
    if Granted(log, e, lower) {
      forall x ensures Joined(log, x, e.request.id, e.start, e.trigger, lower) <==> InWindow(log, x, e) {
        JoinedIsInWindow(log, x, e, lower);
      }
    } else {
      var k :| 0 <= k < |log| && e.request.id !in log[k].ends && e.start <= log[k].ts <= EndThen(log[k], e)
               && !(lower <= log[k].ts <= e.trigger);
      assert InWindow(log, log[k].ts, e);
      forall j | 0 <= j < |log| && log[j].ts == log[k].ts ensures j == k {
        assert Times(log)[j] == Times(log)[k];
      }
    }
  }

  lemma JoinedIsInWindow(log: seq<Seen>, x: nat, e: Event, lower: nat)
    requires Granted(log, e, lower) && StartsAsAsked(e)
    ensures Joined(log, x, e.request.id, e.start, e.trigger, lower) <==> InWindow(log, x, e)
  {
    if Joined(log, x, e.request.id, e.start, e.trigger, lower) {
      var k :| 0 <= k < |log| && log[k].ts == x && Belongs(log[k], e.request.id, e.start, e.trigger, lower);
      assert e.trigger <= x + Asked(e.request.pre) && x <= EndThen(log[k], e);
    }
    if InWindow(log, x, e) {
      var k :| 0 <= k < |log| && log[k].ts == x && e.trigger <= x + Asked(e.request.pre) && x <= EndThen(log[k], e);
      assert Belongs(log[k], e.request.id, e.start, e.trigger, lower);
    }
  }

  // ---------------------------------------------------------------------------
  // Steps do not change what was granted.

  ghost predicate EventGranted(channels: seq<Channel>, lower: map<nat, nat>, e: Event) {
    e.request.channel < |channels| && e.request.id in lower && Granted(channels[e.request.channel].log, e, lower[e.request.id])
  }

  /** The active event of this identifier, if there is one, was granted its past. */
  ghost predicate GrantedIn(s: State, id: nat) {
    forall e | e in s.active && e.request.id == id :: EventGranted(s.channels, s.lower, e)
  }

  /** The same event, perhaps with another end or more frames. */
  predicate Kin(e: Event, f: Event) { e.request == f.request && e.start == f.start && e.trigger == f.trigger }

  ghost predicate Descends(s: State, t: State) { forall e | e in t.active :: exists f | f in s.active :: Kin(f, e) }

  /** Logs only grow, by frames that know every active event. */
  ghost predicate LogGrew(before: seq<Seen>, after: seq<Seen>, active: seq<Event>) {
    before <= after && forall k, e | |before| <= k < |after| && e in active :: e.request.id in after[k].ends
  }

  ghost predicate Grew(s: State, t: State) {
    && |t.channels| == |s.channels|
    && (forall c | 0 <= c < |s.channels| :: LogGrew(s.channels[c].log, t.channels[c].log, s.active))
    && t.lower == s.lower
  }

  lemma GrantStays(s: State, t: State, f: Event, e: Event)
    requires Grew(s, t) && f in s.active && Kin(f, e)
    ensures EventGranted(s.channels, s.lower, f) <==> EventGranted(t.channels, t.lower, e)
  {
    if f.request.channel < |s.channels| {
      var before, after := s.channels[f.request.channel].log, t.channels[f.request.channel].log;
      assert LogGrew(before, after, s.active);
      forall k | 0 <= k < |after| ensures k < |before| ==> after[k] == before[k] {}
    }
  }

  lemma ActiveIsAccepted(s: State, e: Event)
    requires ActiveOk(s) && e in s.active
    ensures e.request.id in s.accepted
  {
    var k :| 0 <= k < |s.active| && s.active[k] == e;
    assert EventOk(s.channels, s.accepted, s.lower, s.active[k]);
  }

  lemma DescentKeepsGrant(s: State, t: State, id: nat)
    requires Conserved(s) && Grew(s, t) && Descends(s, t) && IsActive(t.active, id)
    ensures GrantedIn(s, id) <==> GrantedIn(t, id)
  {
    var k :| 0 <= k < |t.active| && t.active[k].request.id == id;
    assert t.active[k] in t.active;
    var g :| g in s.active && Kin(g, t.active[k]);
    ActiveDistinct(s);
    GrantStays(s, t, g, t.active[k]);
    forall f | f in s.active && f.request.id == id ensures f == g {
      var i :| 0 <= i < |s.active| && s.active[i] == f;
      var j :| 0 <= j < |s.active| && s.active[j] == g;
    }
    forall e | e in t.active && e.request.id == id && GrantedIn(s, id) ensures EventGranted(t.channels, t.lower, e) {
      var f :| f in s.active && Kin(f, e);
      GrantStays(s, t, f, e);
    }
  }

  ghost predicate AllKin(a: seq<Event>, b: seq<Event>) { |a| == |b| && forall k | 0 <= k < |a| :: Kin(a[k], b[k]) }

  lemma KinDescend(s: State, t: State)
    requires AllKin(s.active, t.active)
    ensures Descends(s, t)
  {
    forall e | e in t.active ensures exists f | f in s.active :: Kin(f, e) {
      var k :| 0 <= k < |t.active| && t.active[k] == e;
      assert s.active[k] in s.active;
    }
  }

  /** A part of the descendants, with the logs as they are. */
  lemma SubsetDescends(s: State, u: State, t: State)
    requires Grew(s, u) && Descends(s, u) && t.lower == u.lower && |t.channels| == |u.channels|
    requires forall c | 0 <= c < |u.channels| :: t.channels[c].log == u.channels[c].log
    requires forall e | e in t.active :: e in u.active
    ensures Grew(s, t) && Descends(s, t)
  {
  }

  lemma SelfDescends(s: State)
    ensures Grew(s, s) && Descends(s, s)
  {
    assert forall e | e in s.active :: Kin(e, e);
  }

  lemma SweepShrinks(s: State)
    ensures forall e | e in Sweep(s).active :: e in s.active
    ensures Sweep(s).channels == s.channels && Sweep(s).lower == s.lower && Sweep(s).workers == s.workers
  {
    hide ExpireList;
    ExpireListActive(s, s.active, s.clock, false);
    var x := Expire(s, s.clock, false);
    ExpireListActive(x, x.active, x.clock, true);
  }

  lemma ChooseKeepsLogs(x: State, w: nat)
    requires w < |x.workers|
    ensures Choose(x, w).lower == x.lower
    ensures forall c | 0 <= c < |x.channels| :: Choose(x, w).channels[c].log == x.channels[c].log
  {
  }

  lemma PollDescends(s: State, w: nat)
    requires w < |s.workers|
    ensures Grew(s, Poll(s, w)) && Descends(s, Poll(s, w))
  {
    hide Sweep, Choose, Grew, Descends;
    SweepShrinks(s);
    ChooseKeepsEvents(Sweep(s), w);
    ChooseKeepsLogs(Sweep(s), w);
    SelfDescends(s);
    SubsetDescends(s, s, Poll(s, w));
  }

  lemma EndsKnowActive(s: State)
    requires Inv(s)
    ensures forall e | e in s.active :: e.request.id in EndsOf(s.active)
  {
    ActiveDistinct(s);
    forall e | e in s.active ensures e.request.id in EndsOf(s.active) {
      var k :| 0 <= k < |s.active| && s.active[k] == e;
      EndsOfActive(s.active, k);
    }
  }

  lemma ConvertedDescends(s: State, w: nat)
    requires Enabled(s, AAbsorb(w)) && forall e | e in s.active :: e.request.id in EndsOf(s.active)
    ensures Grew(s, Converted(s, w)) && Descends(s, Converted(s, w))
  {
    KinDescend(s, Converted(s, w));
  }

  lemma AbsorbDescends(s: State, w: nat)
    requires Inv(s) && Enabled(s, AAbsorb(w))
    ensures Grew(s, Absorb(s, w)) && Descends(s, Absorb(s, w))
  {
    hide Grew, Descends, Inv, Converted, ExpireList;
    EndsKnowActive(s);
    ConvertedDescends(s, w);
    var u, ts := Converted(s, w), s.workers[w].raw.ts;
    ExpireListActive(u, u.active, ts, false);
    SubsetDescends(s, u, Absorb(s, w));
  }

  /** The action starts an event under this identifier. */
  predicate Starts(s: State, a: Action, id: nat) {
    a.ATrigger? && a.request.id == id && a.request.channel < |s.channels| && s.running && !Merges(s, a.request)
  }

  lemma EndsDescend(s: State, a: Action)
    requires Enabled(s, a) && (a.AExtend? || a.AOffline? || (a.ATrigger? && !Starts(s, a, a.request.id)))
    ensures Grew(s, Do(s, a)) && Descends(s, Do(s, a))
  {
    KinDescend(s, Do(s, a));
  }

  lemma StepDescends(s: State, a: Action)
    requires Inv(s) && Enabled(s, a) && (a.ATrigger? ==> !Starts(s, a, a.request.id))
    ensures Grew(s, Do(s, a)) && Descends(s, Do(s, a))
  {
    hide Inv, Grew, Descends;
    match a
    case ATrigger(_, _) => EndsDescend(s, a);
    case AExtend(_) => EndsDescend(s, a);
    case AOffline(_, _) => EndsDescend(s, a);
    case APoll(w) => PollDescends(s, w);
    case AAbsorb(w) => AbsorbDescends(s, w);
    case _ =>
      SelfDescends(s);
      SubsetDescends(s, s, Do(s, a));
  }

  // ---------------------------------------------------------------------------
  // A trigger that starts an event.

  /** The new event is granted its past exactly if its window is in reach. */
  lemma StartGrantsIff(s: State, r: Request, stamp: nat)
    requires Inv(s) && s.running && Enabled(s, ATrigger(r, stamp)) && !Merges(s, r)
    ensures GrantedIn(Trigger(s, r, stamp), r.id) <==> WindowInReach(s, r, stamp)
  {
    var e, t := NewEvent(s, r, stamp), Trigger(s, r, stamp);
    NotActive(s, r.id);
    PutHolds(s.active, e);
    PutElements(s.active, e);
    forall f | f in t.active && f.request.id == r.id ensures f == e {
      if f != e {
        ActiveIsAccepted(s, f);
      }
    }
    var log := s.channels[r.channel].log;
    forall k | 0 <= k < |log| ensures r.id !in log[k].ends {
      assert s.channels[r.channel].log[k].ends.Keys <= s.accepted;
    }
    assert GrantedIn(t, r.id) <==> EventGranted(t.channels, t.lower, e);
  }

  /** The events under another identifier are the same as before. */
  lemma StartKeepsEvents(s: State, r: Request, stamp: nat, id: nat)
    requires Inv(s) && s.running && Enabled(s, ATrigger(r, stamp)) && !Merges(s, r) && id != r.id
    ensures forall f: Event | f.request.id == id :: f in Trigger(s, r, stamp).active <==> f in s.active
  {
    NotActive(s, r.id);
    hide Inv, Put, IsActive;
    PutHolds(s.active, NewEvent(s, r, stamp));
    PutElements(s.active, NewEvent(s, r, stamp));
  }

  /** The other events keep what they were granted. */
  lemma StartKeepsOthers(s: State, r: Request, stamp: nat, id: nat)
    requires Inv(s) && s.running && Enabled(s, ATrigger(r, stamp)) && !Merges(s, r) && id != r.id
    ensures GrantedIn(s, id) <==> GrantedIn(Trigger(s, r, stamp), id)
    ensures IsActive(Trigger(s, r, stamp).active, id) ==> IsActive(s.active, id)
  {
    StartKeepsEvents(s, r, stamp, id);
    hide Inv, Put, Merges, Granted;
    var t := Trigger(s, r, stamp);
    if k :| 0 <= k < |t.active| && t.active[k].request.id == id {
      assert t.active[k] in t.active;
    }
  }

  /** One step: the event was granted its past before, or is started by this action with its window in reach. */
  lemma StepGrantsIff(s: State, a: Action, id: nat)
    requires Inv(s) && Enabled(s, a) && IsActive(Do(s, a).active, id)
    ensures GrantedIn(s, id) && (Starts(s, a, id) ==> WindowInReach(s, a.request, a.stamp)) <==> GrantedIn(Do(s, a), id)
  {
    if Starts(s, a, id) {
      StartGrantsIff(s, a.request, a.stamp);
      NotActive(s, id);
      assert forall e | e in s.active :: e.request.id != id by {
        forall e | e in s.active ensures e.request.id != id { ActiveIsAccepted(s, e); }
      }
    } else if a.ATrigger? && Starts(s, a, a.request.id) {
      StartKeepsOthers(s, a.request, a.stamp, id);
    } else {
      StepDescends(s, a);
      DescentKeepsGrant(s, Do(s, a), id);
    }
  }

  // ---------------------------------------------------------------------------
  // Runs.

  ghost predicate AllStartAsAsked(s: State) { forall e | e in s.active :: StartsAsAsked(e) }

  lemma NewStartsAsAsked(s: State, r: Request, stamp: nat)
    requires r.channel < |s.channels| && AllStartAsAsked(s)
    ensures forall e | e in Put(s.active, NewEvent(s, r, stamp)) :: StartsAsAsked(e)
  {
    PutElements(s.active, NewEvent(s, r, stamp));
    hide Put, Within;
  }

  lemma DescentStartsAsAsked(s: State, t: State)
    requires AllStartAsAsked(s) && Descends(s, t)
    ensures AllStartAsAsked(t)
  {
    forall e | e in t.active ensures StartsAsAsked(e) {
      var f :| f in s.active && Kin(f, e);
    }
  }

  lemma StepStartsAsAsked(s: State, a: Action)
    requires Inv(s) && AllStartAsAsked(s) && Enabled(s, a)
    ensures AllStartAsAsked(Do(s, a))
  {
    hide Inv, Put, NewEvent, Descends;
    if a.ATrigger? && Starts(s, a, a.request.id) {
      NewStartsAsAsked(s, a.request, a.stamp);
      assert Do(s, a).active == Put(s.active, NewEvent(s, a.request, a.stamp));
    } else {
      StepDescends(s, a);
      hide Do, Enabled, AllStartAsAsked;
      DescentStartsAsAsked(s, Do(s, a));
    }
  }

  /** In every reachable state each active event starts as long before its trigger as was asked for. */
  lemma {:induction false} RunStartsAsAsked(s: State, run: seq<Action>, t: State)
    requires Inv(s) && AllStartAsAsked(s) && Executes(s, run, t)
    ensures AllStartAsAsked(t)
    decreases |run|
  {
    hide Inv, Do, Enabled, AllStartAsAsked;
    if run != [] {
      StepKeeps(s, run[0]);
      StepStartsAsAsked(s, run[0]);
      RunStartsAsAsked(Do(s, run[0]), run[1..], t);
    }
  }

  /** An accepted event that is not active does not come back. */
  lemma OutStaysOut(s: State, a: Action, id: nat)
    requires Inv(s) && Enabled(s, a) && id in s.accepted && !IsActive(s.active, id)
    ensures !IsActive(Do(s, a).active, id) && id in Do(s, a).accepted
  {
    hide Inv, Grew, Descends;
    AcceptedGrows(s, a);
    if a.ATrigger? && Starts(s, a, a.request.id) {
      StartKeepsOthers(s, a.request, a.stamp, id);
    } else {
      StepDescends(s, a);
      hide Do, Enabled, Starts;
      if IsActive(Do(s, a).active, id) {
        DescentsAreActive(s, Do(s, a), id);
      }
    }
  }

  lemma DescentsAreActive(s: State, t: State, id: nat)
    requires Descends(s, t) && IsActive(t.active, id)
    ensures IsActive(s.active, id)
  {
    var k :| 0 <= k < |t.active| && t.active[k].request.id == id;
    assert t.active[k] in t.active;
    var f :| f in s.active && Kin(f, t.active[k]);
    var j :| 0 <= j < |s.active| && s.active[j] == f;
  }

  lemma AcceptedGrows(s: State, a: Action)
    requires Enabled(s, a)
    ensures s.accepted <= Do(s, a).accepted
    ensures forall id | Starts(s, a, id) :: id in Do(s, a).accepted
  {
    hide Put, NewEvent, Merges, ExpireList, Pick;
  }

  lemma {:induction false} RunStaysOut(s: State, run: seq<Action>, t: State, id: nat)
    requires Inv(s) && Executes(s, run, t) && id in s.accepted && !IsActive(s.active, id)
    ensures !IsActive(t.active, id)
    decreases |run|
  {
    hide Inv, Do, Enabled, IsActive;
    if run != [] {
      StepKeeps(s, run[0]);
      OutStaysOut(s, run[0], id);
      RunStaysOut(Do(s, run[0]), run[1..], t, id);
    }
  }

  /** Every step of the run that starts an event under this identifier has the event's window in reach. */
  ghost predicate StartsInReach(s: State, run: seq<Action>, id: nat)
    decreases |run|
  {
    run == []
    || (Enabled(s, run[0])
        && (Starts(s, run[0], id) ==> WindowInReach(s, run[0].request, run[0].stamp))
        && StartsInReach(Do(s, run[0]), run[1..], id))
  }

  lemma NothingBefore(s: State, a: Action, id: nat)
    requires Inv(s) && Enabled(s, a) && Inv(Do(s, a)) && id !in Do(s, a).accepted
    ensures GrantedIn(s, id) && GrantedIn(Do(s, a), id) && !Starts(s, a, id)
  {
    AcceptedGrows(s, a);
    forall e | e in s.active ensures e.request.id != id { ActiveIsAccepted(s, e); }
    forall e | e in Do(s, a).active ensures e.request.id != id { ActiveIsAccepted(Do(s, a), e); }
  }

  lemma {:induction false} RunGrantsIff(s: State, run: seq<Action>, t: State, id: nat)
    requires Inv(s) && Executes(s, run, t) && IsActive(t.active, id)
    ensures GrantedIn(s, id) && StartsInReach(s, run, id) <==> GrantedIn(t, id)
    decreases |run|
  {
    hide Inv, Do, Enabled, IsActive, GrantedIn, Starts, WindowInReach;
    if run != [] {
      var u := Do(s, run[0]);
      StepKeeps(s, run[0]);
      RunGrantsIff(u, run[1..], t, id);
      if IsActive(u.active, id) {
        StepGrantsIff(s, run[0], id);
      } else if id in u.accepted {
        RunStaysOut(u, run[1..], t, id);
      } else {
        NothingBefore(s, run[0], id);
      }
    }
  }

  /**
   * An event sealed because its window is over holds exactly the frames of its channel that were
   * converted with a stamp from its trigger less the pre-roll asked for to the end it then had, if
   * and only if the trigger that started it had its window in reach. In any case they are in increasing order, once each, and
   * every frame pushed up to its end has been converted or lost to a full queue or a failed
   * conversion.
   */
  lemma SealedEventHoldsItsWindowIff(channels: nat, workers: nat, run: seq<Action>, s: State, now: nat, k: nat)
    requires channels > 0 && Executes(Fresh(channels, workers), run, s)
    requires k < |s.active| && Sealable(s.channels, s.active[k], now, false)
    ensures var e := s.active[k];
            e in Expire(s, now, false).jobs && e.request.channel < |s.channels|
            && var ch := s.channels[e.request.channel];
               Ascending(e.frames)
               && ((forall x :: x in e.frames <==> InWindow(ch.log, x, e))
                   <==> StartsInReach(Fresh(channels, workers), run, e.request.id))
               && (forall t | t in ch.pushed && t <= e.end :: t in Times(ch.log) || t in ch.dropped)
  {
    var e, id := s.active[k], s.active[k].request.id;
    FreshInv(channels, workers);
    RunKeeps(Fresh(channels, workers), run, s);
    SealedIsComplete(s, now, k);
    var ch := s.channels[e.request.channel];
    LogAscends(ch, s.clock);
    RunStartsAsAsked(Fresh(channels, workers), run, s);
    MembersFillWindowIff(ch.log, e, s.lower[id]);
    RunGrantsIff(Fresh(channels, workers), run, s, id);
    assert GrantedIn(s, id) <==> EventGranted(s.channels, s.lower, e) by {
      OnlyOne(s, k);
    }
  }

  lemma OnlyOne(s: State, k: nat)
    requires Inv(s) && k < |s.active|
    ensures forall f | f in s.active && f.request.id == s.active[k].request.id :: f == s.active[k]
  {
    ActiveDistinct(s);
  }

  lemma LogAscends(ch: Channel, clock: nat)
    requires ChannelInv(ch, clock)
    ensures Ascending(Times(ch.log))
  {
    assert Stream(ch) == Times(ch.log) + (One(ch.converting) + Stamps(ch.queue) + One(ch.pushing));
    AscendingPrefix(Times(ch.log), One(ch.converting) + Stamps(ch.queue) + One(ch.pushing));
  }

  // ---------------------------------------------------------------------------
  // After the sealing.

  predicate Between(ts: nat, lo: nat, hi: nat) { lo <= ts <= hi }

  /** Beyond `log` the channel has converted, in hand and queued no frame with a stamp from `lo` to `hi`. */
  ghost predicate Beyond(ch: Channel, log: seq<Seen>, lo: nat, hi: nat) {
    && NoneConverted(ch, log, lo, hi)
    && (ch.converting.Some? ==> !Between(ch.converting.value.ts, lo, hi))
    && (forall k | 0 <= k < |ch.queue| :: !Between(ch.queue[k].ts, lo, hi))
  }

  ghost predicate NoneConverted(ch: Channel, log: seq<Seen>, lo: nat, hi: nat) {
    log <= ch.log && forall k | |log| <= k < |ch.log| :: !Between(ch.log[k].ts, lo, hi)
  }

  /** The least time between two pushes of a channel. */
  const SHORTEST: nat := 33

  /**
   * A push may still deliver a stamp from `lo` to `hi`: one that has it in hand, or one whose first
   * section is to come and will find the channel's last push long enough ago.
   */
  predicate MayStillPush(ch: Channel, lo: nat, hi: nat) {
    || (ch.pushing.Some? && Between(ch.pushing.value.ts, lo, hi))
    || (lo <= hi && if ch.captured == 0 then hi > 0 else ch.captured + SHORTEST <= hi)
  }

  predicate Open(s: State, c: nat, lo: nat, hi: nat) {
    s.running && c < |s.channels| && MayStillPush(s.channels[c], lo, hi)
  }

  lemma PeriodIsLong(fps: int)
    ensures Period(fps) >= SHORTEST && Period(30) == SHORTEST
  {
    var d := Clamp(1, 30, fps);
    assert 1 <= d <= 30;
    assert 1000 / d * d + 1000 % d == 1000;
  }

  lemma PollStaysBeyond(s: State, w: nat, c: nat, log: seq<Seen>, lo: nat, hi: nat)
    requires w < |s.workers| && c < |s.channels| && Beyond(s.channels[c], log, lo, hi)
    ensures |Poll(s, w).channels| == |s.channels| && Beyond(Poll(s, w).channels[c], log, lo, hi)
  {
    SweepSame(s);
    var x := Sweep(s);
    hide Sweep;
    PickIsServable(x, 0);
  }

  lemma WorkStaysBeyond(s: State, a: Action, c: nat, log: seq<Seen>, lo: nat, hi: nat)
    requires WorkersOk(s) && Enabled(s, a) && c < |s.channels| && Beyond(s.channels[c], log, lo, hi)
    requires a.AAbsorb? || a.AFailConversion? || a.ARelease?
    ensures |Do(s, a).channels| == |s.channels| && Beyond(Do(s, a).channels[c], log, lo, hi)
  {
    assert InHand(s.channels, s.workers[a.worker]);
  }

  lemma StepStaysBeyond(s: State, a: Action, c: nat, log: seq<Seen>, lo: nat, hi: nat)
    requires WorkersOk(s) && Enabled(s, a) && !Open(s, c, lo, hi)
    requires c < |s.channels| && Beyond(s.channels[c], log, lo, hi)
    ensures |Do(s, a).channels| == |s.channels| && Beyond(Do(s, a).channels[c], log, lo, hi)
  {
    match a
    case APoll(w) => PollStaysBeyond(s, w, c, log, lo, hi);
    case AAbsorb(_) => WorkStaysBeyond(s, a, c, log, lo, hi);
    case AFailConversion(_) => WorkStaysBeyond(s, a, c, log, lo, hi);
    case ARelease(_) => WorkStaysBeyond(s, a, c, log, lo, hi);
    case _ =>
  }

  /** Once no push may deliver such a stamp, none ever may. */
  lemma StepStaysShut(s: State, a: Action, c: nat, lo: nat, hi: nat)
    requires Enabled(s, a) && c < |s.channels| && !Open(s, c, lo, hi)
    ensures !Open(Do(s, a), c, lo, hi)
  {
    if a.ABeginPush? {
      PeriodIsLong(a.fps);
    } else if a.APoll? {
      PollKeepsProducers(s, a.worker);
    }
  }

  lemma PollKeepsProducers(s: State, w: nat)
    requires w < |s.workers|
    ensures Poll(s, w).running == s.running && |Poll(s, w).channels| == |s.channels|
    ensures forall c | 0 <= c < |s.channels| ::
              Poll(s, w).channels[c].captured == s.channels[c].captured && Poll(s, w).channels[c].pushing == s.channels[c].pushing
  {
    SweepSame(s);
    assert Sweep(s).running == s.running;
    hide Sweep;
    PickIsServable(Sweep(s), 0);
  }

  lemma {:induction false} RunStaysBeyond(s: State, run: seq<Action>, t: State, c: nat, log: seq<Seen>, lo: nat, hi: nat)
    requires Inv(s) && Executes(s, run, t) && !Open(s, c, lo, hi)
    requires c < |s.channels| && Beyond(s.channels[c], log, lo, hi)
    ensures |t.channels| == |s.channels| && Beyond(t.channels[c], log, lo, hi)
    decreases |run|
  {
    hide Beyond, Open, Do, Enabled;
    if run != [] {
      StepKeeps(s, run[0]);
      StepStaysBeyond(s, run[0], c, log, lo, hi);
      StepStaysShut(s, run[0], c, lo, hi);
      RunStaysBeyond(Do(s, run[0]), run[1..], t, c, log, lo, hi);
    }
  }

  lemma SealableIsBeyond(s: State, now: nat, k: nat)
    requires Inv(s) && k < |s.active| && Sealable(s.channels, s.active[k], now, false)
    ensures var e := s.active[k];
            var c := e.request.channel;
            && c < |s.channels| && !s.channels[c].busy && Beyond(s.channels[c], s.channels[c].log, e.start, e.end)
  {
    var ch := s.channels[s.active[k].request.channel];
    assert ChannelInv(ch, s.clock);
    NothingOnItsWay(ch, s.clock, s.active[k].end);
  }

  // ---------------------------------------------------------------------------
  // A late push is converted in some run.

  ghost predicate Leads(s: State, t: State) { exists run :: Executes(s, run, t) }

  lemma LeadsOn(o: State, s: State, a: Action)
    requires Inv(s) && Leads(o, s) && Enabled(s, a)
    ensures Inv(Do(s, a)) && Leads(o, Do(s, a))
  {
    var run :| Executes(o, run, s);
    ExecutesSnoc(o, run, s, a);
    StepKeeps(s, a);
  }

  /** Channel `c` as a worker finds it: its frames are waiting, and nobody holds it. */
  ghost predicate Waiting(s: State, c: nat, log: seq<Seen>, queue: seq<Raw>) {
    && s.running && |s.workers| > 0 && Servable(s, c)
    && s.channels[c].log == log && s.channels[c].queue == queue
  }

  /** The head of the queue has been converted. */
  ghost predicate Advanced(t: State, c: nat, log: seq<Seen>, queue: seq<Raw>)
    requires queue != []
  {
    && t.running && |t.workers| > 0 && c < |t.channels| && !t.channels[c].busy && t.channels[c].queue == queue[1..]
    && |t.channels[c].log| == |log| + 1 && log <= t.channels[c].log && t.channels[c].log[|log|].ts == queue[0].ts
  }

  function Rank(w: Worker): nat { if w.Idle? || w.Exited? then 0 else if w.Releasing? then 1 else 2 }

  lemma {:induction false} ExpireListSize(s: State, list: seq<Event>, now: nat, force: bool)
    ensures var x := ExpireList(s, list, now, force); |x.active| + |x.jobs| == |list| + |s.jobs|
    decreases |list|
  {
    if list != [] {
      ExpireListSize(s, list[..|list| - 1], now, force);
    }
  }

  lemma SweepSize(s: State)
    ensures |Sweep(s).active| + |Sweep(s).jobs| == |s.active| + |s.jobs| && Sweep(s).running == s.running
  {
    ExpireListSize(s, s.active, s.clock, false);
    var x := Expire(s, s.clock, false);
    ExpireListSize(x, x.active, x.clock, true);
  }

  /** What a worker that is not idle does next; a running recorder has none that has left. */
  function Next(w: Worker): Action {
    match w
    case Converting(_, _) => AFailConversion(0)
    case Releasing(_) => ARelease(0)
    case _ => AFinishEncoding(0)
  }

  lemma BusyWorkerMovesOn(s: State, c: nat, log: seq<Seen>, queue: seq<Raw>)
    requires Inv(s) && Waiting(s, c, log, queue) && !s.workers[0].Idle?
    ensures Enabled(s, Next(s.workers[0]))
    ensures var t := Do(s, Next(s.workers[0]));
            && Waiting(t, c, log, queue) && t.active == s.active && t.jobs == s.jobs
            && t.next == s.next && |t.channels| == |s.channels| && Rank(t.workers[0]) < Rank(s.workers[0])
  {
    assert !s.workers[0].Exited?;
    if HoldsChannel(s.workers[0]) {
      assert InHand(s.channels, s.workers[0]);
    }
  }

  /** An idle worker starts an encoding, takes a frame from a nearer channel, or takes this one's. */
  lemma IdleWorkerPolls(s: State, c: nat, log: seq<Seen>, queue: seq<Raw>)
    requires Waiting(s, c, log, queue) && s.workers[0].Idle? && s.next < |s.channels|
    ensures var t := Poll(s, 0);
            || (t.workers[0] == Converting(c, queue[0]) && t.running && |t.workers| > 0 && c < |t.channels|
                && t.channels[c] == Served(s.channels[c]))
            || (Waiting(t, c, log, queue) && t.next < |t.channels| && |t.active| + |t.jobs| < |s.active| + |s.jobs|)
            || (Waiting(t, c, log, queue) && t.next < |t.channels| && |t.active| + |t.jobs| == |s.active| + |s.jobs|
                && Distance(t, c) < Distance(s, c))
  {
    SweepSame(s);
    SweepSize(s);
    var x := Sweep(s);
    hide Sweep;
    if !(x.jobs != [] && x.encoders < MAX_ENCODERS) {
      PickIsNearest(x, c, 0);
      PickIsServable(x, 0);
      if Pick(x, 0).value != c {
        ServeApproaches(x, 0, c, Pick(x, 0).value);
      }
    }
  }

  lemma ConversionAdvances(s: State, c: nat, log: seq<Seen>, queue: seq<Raw>)
    requires Inv(s) && s.running && c < |s.channels| && |s.workers| > 0 && queue != []
    requires s.workers[0] == Converting(c, queue[0]) && s.channels[c].log == log && s.channels[c].queue == queue[1..]
    ensures Enabled(s, AAbsorb(0)) && Enabled(Do(s, AAbsorb(0)), ARelease(0))
    ensures Advanced(Do(Do(s, AAbsorb(0)), ARelease(0)), c, log, queue)
  {
  }

  /** One worker can always get to convert the next frame of a channel that waits. */
  lemma {:induction false} HeadIsConverted(o: State, s: State, c: nat, log: seq<Seen>, queue: seq<Raw>) returns (t: State)
    requires Inv(s) && Leads(o, s) && Waiting(s, c, log, queue)
    ensures Inv(t) && Leads(o, t) && Advanced(t, c, log, queue)
    decreases |s.active| + |s.jobs|, Distance(s, c), Rank(s.workers[0])
  {
    hide Leads, Do, Enabled, Poll;
    if !s.workers[0].Idle? {
      BusyWorkerMovesOn(s, c, log, queue);
      LeadsOn(o, s, Next(s.workers[0]));
      t := HeadIsConverted(o, Do(s, Next(s.workers[0])), c, log, queue);
    } else {
      IdleWorkerPolls(s, c, log, queue);
      PollIsAction(s, 0);
      LeadsOn(o, s, APoll(0));
      var u := Poll(s, 0);
      if u.workers[0] == Converting(c, queue[0]) {
        ConversionAdvances(u, c, log, queue);
        LeadsOn(o, u, AAbsorb(0));
        LeadsOn(o, Do(u, AAbsorb(0)), ARelease(0));
        t := Do(Do(u, AAbsorb(0)), ARelease(0));
      } else {
        t := HeadIsConverted(o, u, c, log, queue);
      }
    }
  }

  lemma PollIsAction(s: State, w: nat)
    requires w < |s.workers| && s.workers[w].Idle?
    ensures Enabled(s, APoll(w)) && Do(s, APoll(w)) == Poll(s, w)
  {
  }

  /** So every frame in the queue of a channel that nobody holds is converted in some run. */
  lemma {:induction false} QueuedIsConverted(o: State, s: State, c: nat, i: nat) returns (t: State)
    requires Inv(s) && Leads(o, s) && s.running && |s.workers| > 0 && c < |s.channels| && !s.channels[c].busy && i < |s.channels[c].queue|
    ensures Inv(t) && Leads(o, t) && c < |t.channels| && s.channels[c].log <= t.channels[c].log
    ensures exists k | |s.channels[c].log| <= k < |t.channels[c].log| :: t.channels[c].log[k].ts == s.channels[c].queue[i].ts
    decreases i
  {
    hide Inv, Leads;
    var log, queue := s.channels[c].log, s.channels[c].queue;
    t := HeadIsConverted(o, s, c, log, queue);
    if i > 0 {
      var u := t;
      t := QueuedIsConverted(o, u, c, i - 1);
      var k :| |u.channels[c].log| <= k < |t.channels[c].log| && t.channels[c].log[k].ts == u.channels[c].queue[i - 1].ts;
    }
  }

  /** The queue ends with a frame whose stamp lies between `lo` and `hi`. */
  predicate Arrived(ch: Channel, lo: nat, hi: nat) { ch.queue != [] && Between(ch.queue[|ch.queue| - 1].ts, lo, hi) }

  /** Pushes of channel `c` change neither its log nor its worker, nor the recorder's workers. */
  ghost predicate OnlyPushed(s: State, t: State, c: nat) {
    && t.running == s.running && t.workers == s.workers && c < |s.channels| && c < |t.channels|
    && t.channels[c].log == s.channels[c].log && t.channels[c].busy == s.channels[c].busy
  }

  /** The push in hand is delivered. */
  lemma HeldPushArrives(o: State, s: State, c: nat) returns (t: State)
    requires Inv(s) && Leads(o, s) && s.running && c < |s.channels| && s.channels[c].pushing.Some?
    ensures Inv(t) && Leads(o, t) && OnlyPushed(s, t, c)
    ensures t.channels[c].pushing.None? && t.channels[c].captured == s.channels[c].captured
    ensures t.channels[c].queue == s.channels[c].queue + [s.channels[c].pushing.value]
  {
    LeadsOn(o, s, AEndPush(c));
    t := Do(s, AEndPush(c));
  }

  /** A new push with the stamp `hi` takes it in hand. */
  lemma NewPushBegins(o: State, s: State, c: nat, hi: nat) returns (t: State)
    requires Inv(s) && Leads(o, s) && s.running && c < |s.channels| && s.channels[c].pushing.None?
    requires if s.channels[c].captured == 0 then hi > 0 else s.channels[c].captured + SHORTEST <= hi
    ensures Inv(t) && Leads(o, t) && OnlyPushed(s, t, c) && t.channels[c].pushing == Some(Raw(hi, 0))
  {
    hide Inv, Leads;
    PeriodIsLong(30);
    LeadsOn(o, s, ATick(Larger(s.clock, hi)));
    var u := Do(s, ATick(Larger(s.clock, hi)));
    LeadsOn(o, u, ABeginPush(c, hi, 30, 0));
    t := Do(u, ABeginPush(c, hi, 30, 0));
  }

  /** A push that may still deliver a stamp of the window can do so. */
  lemma LatePushArrives(o: State, s: State, c: nat, lo: nat, hi: nat) returns (t: State)
    requires Inv(s) && Leads(o, s) && Open(s, c, lo, hi)
    ensures Inv(t) && Leads(o, t) && OnlyPushed(s, t, c) && Arrived(t.channels[c], lo, hi)
  {
    hide Inv, Leads;
    t := s;
    if t.channels[c].pushing.Some? {
      t := HeldPushArrives(o, t, c);
    }
    if !Arrived(t.channels[c], lo, hi) || s.channels[c].pushing.None? {
      t := NewPushBegins(o, t, c, hi);
      t := HeldPushArrives(o, t, c);
    }
  }

  lemma LeadsToItself(s: State)
    ensures Leads(s, s)
  {
    assert Executes(s, [], s);
  }

  lemma RunBetween(s: State, t: State) returns (run: seq<Action>)
    requires Leads(s, t)
    ensures Executes(s, run, t)
  {
    run :| Executes(s, run, t);
  }

  /** Then a run converts a frame with such a stamp. */
  lemma WindowIsMissed(s: State, c: nat, lo: nat, hi: nat) returns (run: seq<Action>, t: State)
    requires Inv(s) && Open(s, c, lo, hi) && !s.channels[c].busy && |s.workers| > 0
    ensures Executes(s, run, t) && c < |t.channels| && !NoneConverted(t.channels[c], s.channels[c].log, lo, hi)
  {
    LeadsToItself(s);
    hide Inv, Leads, Between, Executes;
    var u := LatePushArrives(s, s, c, lo, hi);
    t := QueuedIsConverted(s, u, c, |u.channels[c].queue| - 1);
    run := RunBetween(s, t);
  }

  /**
   * From the moment an event may be sealed no run converts another frame of its window, if and only
   * if the recorder has been stopped or no push may still deliver a stamp of the window: none has one
   * in hand, and none whose first section is still to come could pass the throttle with one.
   * A recorder does not run without a worker.
   */
  lemma SealedWindowStaysIff(channels: nat, workers: nat, s: State, now: nat, k: nat)
    requires channels > 0 && Reachable(channels, workers, s) && |s.workers| > 0
    requires k < |s.active| && Sealable(s.channels, s.active[k], now, false)
    ensures var e := s.active[k];
            var c := e.request.channel;
            (forall run, t | Executes(s, run, t) :: c < |t.channels| && NoneConverted(t.channels[c], s.channels[c].log, e.start, e.end))
            <==> !(s.running && MayStillPush(s.channels[c], e.start, e.end))
  {
    var first :| Executes(Fresh(channels, workers), first, s);
    FreshInv(channels, workers);
    RunKeeps(Fresh(channels, workers), first, s);
    SealableIsBeyond(s, now, k);
    hide Inv, Executes, Sealable, Between;
    var e, c := s.active[k], s.active[k].request.channel;
    if Open(s, c, e.start, e.end) {
      var run, t := WindowIsMissed(s, c, e.start, e.end);
    } else {
      forall run, t | Executes(s, run, t)
        ensures c < |t.channels| && NoneConverted(t.channels[c], s.channels[c].log, e.start, e.end)
      {
        RunStaysBeyond(s, run, t, c, s.channels[c].log, e.start, e.end);
      }
    }
  }

  /**
   * A push takes its stamp before it enters the queue. Here the event whose window is the stamp's
   * millisecond is sealed in between: it is written without the frame.
   */
  lemma LatePushIsMissed() returns (t: State)
    ensures Reachable(1, 1, t) && |t.finished| == 1 && |t.channels| == 1 && |t.channels[0].log| == 1
    ensures t.finished[0].start == t.finished[0].end == t.channels[0].log[0].ts && t.finished[0].frames == []
  {
    var s, run := FrameAfterSealing();
    assert Servable(s, 0) && (s.next + 0) % 1 == 0 && Pick(s, 0) == Some(0);
    assert Sweep(s) == s;
    ExecutesSnoc(Fresh(1, 1), run, s, APoll(0));
    run, s := run + [APoll(0)], Do(s, APoll(0));
    ExecutesSnoc(Fresh(1, 1), run, s, AAbsorb(0));
    t := Do(s, AAbsorb(0));
  }

  lemma FrameAfterSealing() returns (s: State, run: seq<Action>)
    ensures Executes(Fresh(1, 1), run, s)
    ensures |s.channels| == |s.workers| == 1 && s.running && s.active == s.jobs == [] && s.encoders == 0 && s.workers[0].Idle?
    ensures |s.finished| == 1 && s.finished[0].frames == [] && s.finished[0].start == s.finished[0].end == 10
    ensures s.channels[0] == Channel([], 10, [Raw(10, 0)], false, None, None, [], 0, {10}, {}) && s.next == 0
  {
    s, run := SealedWhilePushing();
    ExecutesSnoc(Fresh(1, 1), run, s, AFinishEncoding(0));
    run, s := run + [AFinishEncoding(0)], Do(s, AFinishEncoding(0));
    ExecutesSnoc(Fresh(1, 1), run, s, AEndPush(0));
    run, s := run + [AEndPush(0)], Do(s, AEndPush(0));
  }

  lemma SealedWhilePushing() returns (s: State, run: seq<Action>)
    ensures Executes(Fresh(1, 1), run, s)
    ensures |s.channels| == |s.workers| == 1 && s.running && s.active == s.jobs == s.finished == [] && s.encoders == 1
    ensures s.workers[0].Encoding? && s.workers[0].event.frames == [] && s.workers[0].event.start == s.workers[0].event.end == 10
    ensures s.channels[0] == Channel([], 10, [], false, Some(Raw(10, 0)), None, [], 0, {}, {}) && s.next == 0
  {
    var o := Fresh(1, 1);
    run := [];
    s := o;
    ExecutesSnoc(o, run, s, ATick(10));
    run, s := run + [ATick(10)], Do(s, ATick(10));
    ExecutesSnoc(o, run, s, ABeginPush(0, 10, 25, 0));
    run, s := run + [ABeginPush(0, 10, 25, 0)], Do(s, ABeginPush(0, 10, 25, 0));
    var r := Request(7, 0, "alarm", 0, 0);
    ExecutesSnoc(o, run, s, ATrigger(r, 10));
    run, s := run + [ATrigger(r, 10)], Do(s, ATrigger(r, 10));
    var e := Event(r, 10, 10, 10, []);
    assert s.active == [e];
    assert s.active[..0] == [];
    ExecutesSnoc(o, run, s, APoll(0));
    run, s := run + [APoll(0)], Do(s, APoll(0));
  }
}
