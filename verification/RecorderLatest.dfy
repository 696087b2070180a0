/**
 * The table that says which event a new alarm of a kind may extend: in every reachable state
 * each entry names an event that is still active, of that channel and kind.
 */
module RecorderLatest {
  import opened RecorderChannel
  import opened EventRecorder
  import opened RecorderSafety

  predicate Names(e: Event, key: Key, id: nat) { e.request.id == id && KeyOf(e.request) == key }

  ghost predicate Alive(active: seq<Event>, key: Key, id: nat) { exists e | e in active :: Names(e, key, id) }

  ghost predicate LatestIsLive(s: State) { forall key | key in s.latest :: Alive(s.active, key, s.latest[key]) }

  /** An expiry forgets exactly the entries whose event it seals. */
  lemma {:induction false} ExpireForgets(s: State, list: seq<Event>, now: nat, force: bool, key: Key)
    ensures var x := ExpireList(s, list, now, force);
            (key in x.latest ==> key in s.latest && x.latest[key] == s.latest[key]
                                 && forall e | e in list && Names(e, key, s.latest[key]) :: !Sealable(s.channels, e, now, force))
            && (key in s.latest && key !in x.latest ==>
                  exists e | e in list :: Names(e, key, s.latest[key]) && Sealable(s.channels, e, now, force))
    decreases |list|
  {
    if list != [] {
      var front, last := list[..|list| - 1], list[|list| - 1];
      ExpireForgets(s, front, now, force, key);
      assert list == front + [last];
      assert last in list;
    }
  }

  lemma ExpireStaysLive(s: State, now: nat, force: bool)
    requires LatestIsLive(s)
    ensures LatestIsLive(Expire(s, now, force))
  {
    var t := Expire(s, now, force);
    forall key | key in t.latest ensures Alive(t.active, key, t.latest[key]) {
      ExpireForgets(s, s.active, now, force, key);
      assert Alive(s.active, key, s.latest[key]);
      var e :| e in s.active && Names(e, key, s.latest[key]);
      ExpireIsExact(s, s.active, now, force, e);
      assert e in t.active;
    }
  }

  ghost predicate SameRequests(a: seq<Event>, b: seq<Event>) {
    |a| == |b| && forall k | 0 <= k < |a| :: a[k].request == b[k].request
  }

  lemma SameRequestsStayLive(s: State, t: State)
    requires LatestIsLive(s) && t.latest == s.latest && SameRequests(s.active, t.active)
    ensures LatestIsLive(t)
  {
    forall key | key in t.latest ensures Alive(t.active, key, t.latest[key]) {
      assert Alive(s.active, key, s.latest[key]);
      var e :| e in s.active && Names(e, key, s.latest[key]);
      var k :| 0 <= k < |s.active| && s.active[k] == e;
      assert Names(t.active[k], key, t.latest[key]);
    }
  }

  lemma TriggerStaysLive(s: State, r: Request, stamp: nat)
    requires Inv(s) && LatestIsLive(s) && Enabled(s, ATrigger(r, stamp))
    ensures LatestIsLive(Trigger(s, r, stamp))
  {
    var t := Trigger(s, r, stamp);
    if s.running && Merges(s, r) {
      SameRequestsStayLive(s, t);
    } else if s.running {
      NotActive(s, r.id);
      PutHolds(s.active, NewEvent(s, r, stamp));
      forall key | key in t.latest ensures Alive(t.active, key, t.latest[key]) {
        if key == KeyOf(r) {
          assert Names(NewEvent(s, r, stamp), key, r.id);
        } else {
          assert Alive(s.active, key, s.latest[key]);
          var e :| e in s.active && Names(e, key, s.latest[key]);
          assert e in t.active;
        }
      }
    }
  }

  lemma SweepStaysLive(s: State)
    requires LatestIsLive(s)
    ensures LatestIsLive(Sweep(s))
  {
    hide LatestIsLive, ExpireList;
    ExpireStaysLive(s, s.clock, false);
    ExpireStaysLive(Expire(s, s.clock, false), s.clock, true);
  }

  lemma PollStaysLive(s: State, w: nat)
    requires LatestIsLive(s) && w < |s.workers|
    ensures LatestIsLive(Poll(s, w))
  {
    SweepStaysLive(s);
    ChooseKeepsEvents(Sweep(s), w);
    hide LatestIsLive, Sweep, Choose;
    SameRequestsStayLive(Sweep(s), Choose(Sweep(s), w));
  }

  lemma AbsorbStaysLive(s: State, w: nat)
    requires LatestIsLive(s) && Enabled(s, AAbsorb(w))
    ensures LatestIsLive(Absorb(s, w))
  {
    SameRequestsStayLive(s, Converted(s, w));
    ExpireStaysLive(Converted(s, w), s.workers[w].raw.ts, false);
  }

  lemma StepStaysLive(s: State, a: Action)
    requires Inv(s) && LatestIsLive(s) && Enabled(s, a)
    ensures LatestIsLive(Do(s, a))
  {
    match a
    case ATrigger(r, stamp) => TriggerStaysLive(s, r, stamp);
    case APoll(w) => PollStaysLive(s, w);
    case AAbsorb(w) => AbsorbStaysLive(s, w);
    case _ => OtherStaysLive(s, a);
  }

  lemma OtherStaysLive(s: State, a: Action)
    requires LatestIsLive(s) && Enabled(s, a) && !a.ATrigger? && !a.APoll? && !a.AAbsorb?
    ensures LatestIsLive(Do(s, a))
  {
    hide LatestIsLive;
    SameRequestsStayLive(s, Do(s, a));
  }

  lemma {:induction false} RunStaysLive(s: State, run: seq<Action>, t: State)
    requires Inv(s) && LatestIsLive(s) && Executes(s, run, t)
    ensures Inv(t) && LatestIsLive(t)
    decreases |run|
  {
    hide Inv, LatestIsLive, Do, Enabled;
    if run != [] {
      StepKeeps(s, run[0]);
      StepStaysLive(s, run[0]);
      RunStaysLive(Do(s, run[0]), run[1..], t);
    }
  }

  /** In every reachable state an entry of the table names an active event of its channel and kind, and only one. */
  lemma LatestNeverDangles(channels: nat, workers: nat, s: State, key: Key)
    requires channels > 0 && Reachable(channels, workers, s) && key in s.latest
    ensures exists k | 0 <= k < |s.active| :: Names(s.active[k], key, s.latest[key])
    ensures forall j, k | 0 <= j < |s.active| && 0 <= k < |s.active| && s.active[j].request.id == s.latest[key] == s.active[k].request.id :: j == k
  {
    var run :| Executes(Fresh(channels, workers), run, s);
    FreshInv(channels, workers);
    RunStaysLive(Fresh(channels, workers), run, s);
    ActiveDistinct(s);
    assert Alive(s.active, key, s.latest[key]);
  }

  /**
   * A second alarm with the identifier of its kind's latest event gives that event a new end
   * and changes nothing else: no event is started, and no other event is touched.
   */
  lemma RepeatedAlarmExtends(channels: nat, workers: nat, s: State, r: Request, stamp: nat, k: nat)
    requires channels > 0 && Reachable(channels, workers, s) && s.running && Enabled(s, ATrigger(r, stamp))
    requires KeyOf(r) in s.latest && s.latest[KeyOf(r)] == r.id && k < |s.active|
    ensures var t := Do(s, ATrigger(r, stamp));
            |t.active| == |s.active| && t == s.(active := t.active)
            && t.active[k] == if s.active[k].request.id == r.id then s.active[k].(end := stamp + Asked(r.post)) else s.active[k]
  {
    LatestNeverDangles(channels, workers, s, KeyOf(r));
    assert Merges(s, r);
  }
}
