/**
 * One channel of the event video recorder (engine/src/recorder/event_video_recorder.cpp): its
 * pre-roll ring, its raw queue, and the frames its producer and its worker have in hand.
 *
 * `log`, `floor`, `pushed` and `dropped` record what happened; the program does not keep them.
 */
module RecorderChannel {
  datatype Option<T> = None | Some(value: T)

  /** A queued source frame: its time stamp and the pre-roll the ring must keep behind it. */
  datatype Raw = Raw(ts: nat, pre: nat)

  /** A frame that was converted, and the end of each active event when that happened. */
  datatype Seen = Seen(ts: nat, pre: nat, ends: map<nat, nat>)

  datatype Channel = Channel(
    ring: seq<nat>, captured: nat, queue: seq<Raw>, busy: bool,
    pushing: Option<Raw>, converting: Option<Raw>,
    log: seq<Seen>, floor: nat, pushed: set<nat>, dropped: set<nat>)

  const CAPACITY: nat := 4

  function Clamp(lo: int, hi: int, v: int): int { if v < lo then lo else if v > hi then hi else v }
  function Period(fps: int): nat { 1000 / Clamp(1, 30, fps) }
  function Span(ms: int): nat { Clamp(0, 120000, ms) }

  /** A time asked for, in milliseconds: at least none, at most two minutes. */
  function Asked(ms: int): nat { if ms < 0 then 0 else if ms > 120000 then 120000 else ms }

  function Back(now: nat, span: nat): nat { if now > span then now - span else 0 }
  function Larger(a: nat, b: nat): nat { if a < b then b else a }

  /** First section of a push: throttle, make room, take the stamp in hand. */
  function Caught(ch: Channel, running: bool, stamp: nat, fps: int, pre: int): Channel
    requires ch.captured <= stamp
  {
    if ch.captured != 0 && stamp - ch.captured < Period(fps) then ch
    else if !running then ch.(captured := stamp)
    else
      var room := if |ch.queue| >= CAPACITY
                  then ch.(queue := ch.queue[1..], dropped := ch.dropped + {ch.queue[0].ts}) else ch;
      room.(captured := stamp, pushing := Some(Raw(stamp, Span(pre))))
  }

  /** Second section of a push. */
  function Delivered(ch: Channel, running: bool): Channel
    requires ch.pushing.Some?
  {
    if !running then ch.(pushing := None)
    else ch.(pushing := None, queue := ch.queue + [ch.pushing.value], pushed := ch.pushed + {ch.pushing.value.ts})
  }

  function Served(ch: Channel): Channel
    requires ch.queue != []
  {
    ch.(queue := ch.queue[1..], busy := true, converting := Some(ch.queue[0]))
  }

  function Trim(ring: seq<nat>, keep: nat): seq<nat> {
    if ring == [] || ring[0] >= keep then ring else Trim(ring[1..], keep)
  }

  function Stored(ch: Channel, raw: Raw, ends: map<nat, nat>): Channel {
    var keep := Back(raw.ts, raw.pre);
    ch.(ring := Trim(ch.ring + [raw.ts], keep), floor := Larger(ch.floor, keep),
        log := ch.log + [Seen(raw.ts, raw.pre, ends)], converting := None)
  }

  function Failed(ch: Channel, raw: Raw): Channel {
    ch.(converting := None, dropped := ch.dropped + {raw.ts})
  }

  // ---------------------------------------------------------------------------

  function Times(log: seq<Seen>): seq<nat> { seq(|log|, i requires 0 <= i < |log| => log[i].ts) }
  function Stamps(raws: seq<Raw>): seq<nat> { seq(|raws|, i requires 0 <= i < |raws| => raws[i].ts) }
  function One(o: Option<Raw>): seq<nat> { if o.Some? then [o.value.ts] else [] }

  /** Every frame still known to the channel, oldest first. */
  function Stream(ch: Channel): seq<nat> {
    Times(ch.log) + One(ch.converting) + Stamps(ch.queue) + One(ch.pushing)
  }

  ghost predicate Ascending(s: seq<nat>) { forall i, j | 0 <= i < j < |s| :: s[i] < s[j] }

  /** The frames not older than `floor`. */
  function From(times: seq<nat>, floor: nat): seq<nat> {
    if times == [] then []
    else From(times[..|times| - 1], floor) + (if times[|times| - 1] >= floor then [times[|times| - 1]] else [])
  }

  ghost predicate Bounded(s: seq<nat>, hi: nat) { forall i | 0 <= i < |s| :: 0 < s[i] <= hi }
  ghost function Elements(s: seq<nat>): set<nat> { set x | x in s }

  /** The floor is the newest of the times back to which converted frames asked the ring to keep. */
  ghost predicate FloorOf(log: seq<Seen>, floor: nat) {
    && (floor == 0 || exists k | 0 <= k < |log| :: floor == Back(log[k].ts, log[k].pre))
    && forall k | 0 <= k < |log| :: Back(log[k].ts, log[k].pre) <= floor
  }

  lemma FloorStep(log: seq<Seen>, floor: nat, p: Seen)
    requires FloorOf(log, floor)
    ensures FloorOf(log + [p], Larger(floor, Back(p.ts, p.pre)))
  {
    var after := log + [p];
    assert after[|log|] == p;
    if floor >= Back(p.ts, p.pre) && floor != 0 {
      var k :| 0 <= k < |log| && floor == Back(log[k].ts, log[k].pre);
      assert after[k] == log[k];
    }
  }

  ghost predicate ChannelInv(ch: Channel, clock: nat) {
    && Ascending(Stream(ch)) && Bounded(Stream(ch), ch.captured) && ch.captured <= clock
    && ch.ring == From(Times(ch.log), ch.floor)
    && (ch.floor == 0 || (ch.log != [] && ch.floor <= ch.log[|ch.log| - 1].ts))
    && FloorOf(ch.log, ch.floor)
    && |ch.queue| + |One(ch.pushing)| <= CAPACITY
    && (!ch.busy ==> ch.converting.None?)
    && ch.pushed == Elements(Times(ch.log)) + Elements(One(ch.converting)) + Elements(Stamps(ch.queue)) + ch.dropped
  }

  lemma CaughtKeeps(ch: Channel, clock: nat, running: bool, stamp: nat, fps: int, pre: int)
    requires ChannelInv(ch, clock) && ch.pushing.None? && ch.captured <= stamp <= clock && 0 < stamp
    ensures ChannelInv(Caught(ch, running, stamp, fps, pre), clock)
  {
    if !(ch.captured != 0 && stamp - ch.captured < Period(fps)) && running {
      var room := if |ch.queue| >= CAPACITY
                  then ch.(queue := ch.queue[1..], dropped := ch.dropped + {ch.queue[0].ts}) else ch;
      if |ch.queue| >= CAPACITY {
        EvictedKeeps(ch, clock);
      }
      AppendLater(Stream(room), ch.captured, stamp);
      assert Stream(room) == Times(room.log) + One(room.converting) + Stamps(room.queue);
      assert Stream(Caught(ch, running, stamp, fps, pre)) == Stream(room) + [stamp];
    }
  }

  lemma EvictedKeeps(ch: Channel, clock: nat)
    requires ChannelInv(ch, clock) && ch.pushing.None? && ch.queue != []
    ensures ChannelInv(ch.(queue := ch.queue[1..], dropped := ch.dropped + {ch.queue[0].ts}), clock)
  {
    var older, rest := Times(ch.log) + One(ch.converting), Stamps(ch.queue[1..]);
    StampsSplit(ch.queue);
    assert Stream(ch) == older + [ch.queue[0].ts] + rest;
    DropMiddle(older, ch.queue[0].ts, rest);
    assert Stream(ch.(queue := ch.queue[1..])) == older + rest;
  }

  lemma StampsSplit(raws: seq<Raw>)
    requires raws != []
    ensures Stamps(raws) == [raws[0].ts] + Stamps(raws[1..])
    ensures Elements(Stamps(raws)) == {raws[0].ts} + Elements(Stamps(raws[1..]))
  {
  }

  lemma StampsAppend(raws: seq<Raw>, raw: Raw)
    ensures Stamps(raws + [raw]) == Stamps(raws) + [raw.ts]
    ensures Elements(Stamps(raws + [raw])) == Elements(Stamps(raws)) + {raw.ts}
  {
    assert Stamps(raws + [raw]) == Stamps(raws) + [raw.ts];
  }

  lemma TimesAppend(log: seq<Seen>, p: Seen)
    ensures Times(log + [p]) == Times(log) + [p.ts]
    ensures Elements(Times(log + [p])) == Elements(Times(log)) + {p.ts}
  {
    assert Times(log + [p]) == Times(log) + [p.ts];
  }

  lemma DropMiddle(a: seq<nat>, x: nat, b: seq<nat>)
    requires Ascending(a + [x] + b)
    ensures Ascending(a + b)
    ensures forall hi | Bounded(a + [x] + b, hi) :: Bounded(a + b, hi)
    ensures Elements(a + [x] + b) == Elements(a + b) + {x}
  {
    var whole, less := a + [x] + b, a + b;
    forall k | 0 <= k < |less| ensures less[k] == whole[if k < |a| then k else k + 1] {}
    forall i, j | 0 <= i < j < |less| ensures less[i] < less[j] {
      assert whole[if i < |a| then i else i + 1] < whole[if j < |a| then j else j + 1];
    }
    forall hi | Bounded(whole, hi) ensures Bounded(less, hi) {
      forall k | 0 <= k < |less| ensures 0 < less[k] <= hi {
        assert 0 < whole[if k < |a| then k else k + 1] <= hi;
      }
    }
  }

  /** A stamp later than every frame so far: the period keeps it strictly later unless nothing was captured. */
  lemma AppendLater(s: seq<nat>, captured: nat, stamp: nat)
    requires Ascending(s) && Bounded(s, captured) && (captured < stamp || (captured == 0 && 0 < stamp))
    ensures Ascending(s + [stamp]) && Bounded(s + [stamp], stamp)
  {
    assert forall i | 0 <= i < |s| :: s[i] < stamp;
  }

  lemma DeliveredKeeps(ch: Channel, clock: nat, running: bool)
    requires ChannelInv(ch, clock) && ch.pushing.Some?
    ensures ChannelInv(Delivered(ch, running), clock)
  {
    var raw := ch.pushing.value;
    var older := Times(ch.log) + One(ch.converting) + Stamps(ch.queue);
    if running {
      StampsAppend(ch.queue, raw);
      assert Stream(Delivered(ch, true)) == Stream(ch);
    } else {
      assert Stream(ch) == older + [raw.ts] + [];
      DropMiddle(older, raw.ts, []);
      assert Stream(Delivered(ch, false)) == older + [];
    }
  }

  lemma ServedKeeps(ch: Channel, clock: nat)
    requires ChannelInv(ch, clock) && !ch.busy && ch.queue != []
    ensures ChannelInv(Served(ch), clock)
  {
    StampsSplit(ch.queue);
    assert Stream(Served(ch)) == Stream(ch);
  }

  lemma FailedKeeps(ch: Channel, clock: nat, raw: Raw)
    requires ChannelInv(ch, clock) && ch.converting == Some(raw)
    ensures ChannelInv(Failed(ch, raw), clock)
  {
    var rest := Stamps(ch.queue) + One(ch.pushing);
    assert Stream(ch) == Times(ch.log) + [raw.ts] + rest;
    DropMiddle(Times(ch.log), raw.ts, rest);
    assert Stream(Failed(ch, raw)) == Times(ch.log) + rest;
  }

  lemma StoredKeeps(ch: Channel, clock: nat, raw: Raw, ends: map<nat, nat>)
    requires ChannelInv(ch, clock) && ch.converting == Some(raw)
    ensures ChannelInv(Stored(ch, raw, ends), clock)
  {
    TimesAppend(ch.log, Seen(raw.ts, raw.pre, ends));
    assert Stream(Stored(ch, raw, ends)) == Stream(ch);
    assert Stream(ch) == Times(ch.log) + [raw.ts] + (Stamps(ch.queue) + One(ch.pushing));
    AscendingPrefix(Times(ch.log) + [raw.ts], Stamps(ch.queue) + One(ch.pushing));
    AscendingPrefix(Times(ch.log), [raw.ts]);
    FloorStep(ch.log, ch.floor, Seen(raw.ts, raw.pre, ends));
    RingKeeps(Times(ch.log), raw.ts, ch.floor, Back(raw.ts, raw.pre));
  }

  lemma AscendingPrefix(a: seq<nat>, b: seq<nat>)
    requires Ascending(a + b)
    ensures Ascending(a)
  {
    forall i, j | 0 <= i < j < |a| ensures a[i] < a[j] {
      assert (a + b)[i] < (a + b)[j];
    }
  }

  /** Appending a newer frame and popping the too old ones leaves exactly the frames above the higher floor. */
  lemma RingKeeps(times: seq<nat>, t: nat, floor: nat, keep: nat)
    requires Ascending(times + [t])
    requires floor == 0 || (times != [] && floor <= times[|times| - 1])
    ensures Trim(From(times, floor) + [t], keep) == From(times + [t], Larger(floor, keep))
  {
    var after := times + [t];
    if times != [] {
      assert after[|times| - 1] < after[|times|];
    }
    assert after[..|times|] == times;
    assert From(after, floor) == From(times, floor) + [t];
    FromKeepsOrder(after, floor);
    TrimIsFrom(From(after, floor), keep);
    FromFrom(after, floor, keep);
  }

  lemma {:induction false} FromKeepsOrder(times: seq<nat>, floor: nat)
    requires Ascending(times)
    ensures Ascending(From(times, floor))
    ensures forall x | x in From(times, floor) :: x in times
    decreases |times|
  {
    if times != [] {
      var front, last := times[..|times| - 1], times[|times| - 1];
      FromKeepsOrder(front, floor);
      forall x | x in front ensures x < last {
        var k :| 0 <= k < |front| && front[k] == x;
        assert times[k] < times[|times| - 1];
      }
      forall k | 0 <= k < |From(front, floor)| ensures From(front, floor)[k] < last {
        assert From(front, floor)[k] in front;
      }
    }
  }

  lemma {:induction false} TrimIsFrom(ring: seq<nat>, keep: nat)
    requires Ascending(ring)
    ensures Trim(ring, keep) == From(ring, keep)
    decreases |ring|
  {
    if ring != [] {
      if ring[0] >= keep {
        FromAll(ring, keep);
      } else {
        TrimIsFrom(ring[1..], keep);
        FromSkips(ring, keep);
      }
    }
  }

  lemma {:induction false} FromAll(ring: seq<nat>, keep: nat)
    requires forall i | 0 <= i < |ring| :: ring[i] >= keep
    ensures From(ring, keep) == ring
    decreases |ring|
  {
    if ring != [] {
      FromAll(ring[..|ring| - 1], keep);
    }
  }

  lemma {:induction false} FromSkips(ring: seq<nat>, keep: nat)
    requires ring != [] && ring[0] < keep
    ensures From(ring, keep) == From(ring[1..], keep)
    decreases |ring|
  {
    if |ring| > 1 {
      FromSkips(ring[..|ring| - 1], keep);
      assert ring[..|ring| - 1][1..] == ring[1..][..|ring| - 2];
    } else {
      assert ring[..0] == [];
    }
  }

  lemma {:induction false} FromFrom(times: seq<nat>, a: nat, b: nat)
    ensures From(From(times, a), b) == From(times, Larger(a, b))
    decreases |times|
  {
    if times != [] {
      FromFrom(times[..|times| - 1], a, b);
      if times[|times| - 1] >= a {
        var inner := From(times[..|times| - 1], a);
        assert (inner + [times[|times| - 1]])[..|inner|] == inner;
      } else {
        assert From(times, a) == From(times[..|times| - 1], a);
      }
    }
  }
}
