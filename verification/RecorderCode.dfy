/**
 * The recorder's variables and the sections that update them in place
 * (engine/src/recorder/event_video_recorder.cpp). `model` is the state the sections are
 * proved to move exactly as the state machine does.
 */
module RecorderCode {
  import opened RecorderChannel
  import opened EventRecorder

  class EventVideoRecorder {
    var rings: seq<seq<nat>>
    var lastCapture: seq<nat>
    var queues: seq<seq<Raw>>
    var channelBusy: seq<bool>
    var nextChannel: nat
    var active: seq<Event>
    var latestByKey: map<Key, nat>
    var videoJobs: seq<Event>
    var activeEncoders: nat
    var running: bool
    ghost var model: State

    ghost predicate Valid()
      reads this
    {
      && |rings| == |lastCapture| == |queues| == |channelBusy| == |model.channels| > 0
      && nextChannel == model.next < |rings| && active == model.active && latestByKey == model.latest
      && videoJobs == model.jobs && activeEncoders == model.encoders && running == model.running
      && forall c | 0 <= c < |rings| :: ChannelAgrees(c, model.channels[c])
    }

    ghost predicate ChannelAgrees(c: nat, ch: Channel)
      reads this
      requires c < |rings| && c < |lastCapture| && c < |queues| && c < |channelBusy|
    {
      rings[c] == ch.ring && lastCapture[c] == ch.captured && queues[c] == ch.queue && channelBusy[c] == ch.busy
    }

    constructor (channels: nat, ghost workers: nat)
      requires channels > 0
      ensures Valid() && model == Fresh(channels, workers)
    {
      rings := seq(channels, _ => []);
      lastCapture := seq(channels, _ => 0);
      queues := seq(channels, _ => []);
      channelBusy := seq(channels, _ => false);
      nextChannel, active, latestByKey, videoJobs, activeEncoders, running := 0, [], map[], [], 0, true;
      model := Fresh(channels, workers);
    }

    /** First section of `push_source_frame`. The result says whether the frame is to be copied. */
    method BeginPush(c: nat, stamp: nat, fps: int, ghost pre: int) returns (take: bool)
      requires Valid() && Enabled(model, ABeginPush(c, stamp, fps, pre))
      modifies this
      ensures Valid() && model == Do(old(model), ABeginPush(c, stamp, fps, pre))
      ensures take == model.channels[c].pushing.Some?
    {
      model := Do(model, ABeginPush(c, stamp, fps, pre));
      if lastCapture[c] != 0 && stamp - lastCapture[c] < Period(fps) {
        return false;
      }
      lastCapture := lastCapture[c := stamp];
      if !running {
        return false;
      }
      if |queues[c]| >= CAPACITY {
        queues := queues[c := queues[c][1..]];
      }
      return true;
    }

    /** Second section of `push_source_frame`. */
    method EndPush(c: nat, raw: Raw)
      requires Valid() && Enabled(model, AEndPush(c)) && model.channels[c].pushing == Some(raw)
      modifies this
      ensures Valid() && model == Do(old(model), AEndPush(c))
    {
      model := Do(model, AEndPush(c));
      if !running {
        return;
      }
      queues := queues[c := queues[c] + [raw]];
    }

    method ExpireLocked(now: nat, force: bool)
      requires Valid() && InRange(active, |rings|)
      modifies this
      ensures Valid() && model == Expire(old(model), now, force)
    {
      var kept: seq<Event> := [];
      ghost var before := model;
      for i := 0 to |active|
        invariant Expiry(kept, videoJobs, latestByKey) == ExpireList(before, active[..i], now, force)
        modifies `videoJobs, `latestByKey
      {
        var e := active[i];
        assert active[..i + 1][..i] == active[..i];
        var c := e.request.channel;
        assert ChannelAgrees(c, before.channels[c]);
        var pending := channelBusy[c] || (queues[c] != [] && queues[c][0].ts <= e.end);
        if force || (now >= e.end && !pending) {
          if KeyOf(e.request) in latestByKey && latestByKey[KeyOf(e.request)] == e.request.id {
            latestByKey := latestByKey - {KeyOf(e.request)};
          }
          videoJobs := videoJobs + [e];
        } else {
          kept := kept + [e];
        }
      }
      assert active[..|active|] == active;
      active := kept;
      model := Expire(before, now, force);
    }

    method Trigger(r: Request, stamp: nat) returns (accepted: bool)
      requires Valid() && Enabled(model, ATrigger(r, stamp))
      modifies this
      ensures Valid() && model == Do(old(model), ATrigger(r, stamp)) && accepted == running
    {
      hide Within, Put, WithEnd, Back, Span;
      model := Do(model, ATrigger(r, stamp));
      if !running {
        return false;
      }
      var end := stamp + Span(r.post);
      if KeyOf(r) in latestByKey {
        var existing := Find(active, latestByKey[KeyOf(r)]);
        if existing < |active| && active[existing].request.id == r.id {
          active := WithEnd(active, r.id, end);
          return true;
        }
        if existing == |active| {
          latestByKey := latestByKey - {KeyOf(r)};
        }
      }
      var start := Back(stamp, Span(r.pre));
      var frames := CopyWindow(rings[r.channel], start, stamp);
      active := Put(active, Event(r, stamp, start, end, frames));
      latestByKey := latestByKey[KeyOf(r) := r.id];
      return true;
    }

    method Extend(id: nat, now: nat)
      requires Valid() && now == model.clock
      modifies this
      ensures Valid() && model == Do(old(model), AExtend(id))
    {
      model := Do(model, AExtend(id));
      var found := Find(active, id);
      if found < |active| {
        PostOfFound(active, id, found);
        active := WithEnd(active, id, now + Span(active[found].request.post));
      }
    }

    method ChannelOffline(c: nat, cutoff: nat)
      requires Valid() && cutoff <= model.clock
      modifies this
      ensures Valid() && model == Do(old(model), AOffline(c, cutoff))
    {
      ghost var before := active;
      for i := 0 to |active|
        invariant |active| == |before|
        invariant forall k | 0 <= k < |active| :: active[k] == if k < i then CutOne(before[k], c, cutoff) else before[k]
        modifies `active
      {
        if active[i].request.channel == c && active[i].end > cutoff {
          active := active[i := active[i].(end := cutoff)];
        }
      }
      assert active == CutAll(before, c, cutoff);
      model := Do(model, AOffline(c, cutoff));
    }

    method RequestStop()
      requires Valid()
      modifies this
      ensures Valid() && model == Do(old(model), AStop)
    {
      running := false;
      model := Do(model, AStop);
    }

    method RawQueuesEmpty() returns (b: bool)
      requires Valid()
      ensures b == QueuesEmpty(model.channels)
    {
      for c := 0 to |queues|
        invariant forall d | 0 <= d < c :: model.channels[d].queue == []
      {
        assert ChannelAgrees(c, model.channels[c]);
        if queues[c] != [] { return false; }
      }
      return true;
    }

    method ChannelsBusy() returns (b: bool)
      requires Valid()
      ensures b == !NoneBusy(model.channels)
    {
      for c := 0 to |channelBusy|
        invariant forall d | 0 <= d < c :: !model.channels[d].busy
      {
        assert ChannelAgrees(c, model.channels[c]);
        if channelBusy[c] { return true; }
      }
      return false;
    }

    /** Take the next raw frame, scanning the channels round from `nextChannel`. */
    method PopRaw(ghost w: nat) returns (popped: Option<(nat, Raw)>)
      requires Valid() && w < |model.workers|
      modifies this
      ensures Valid()
      ensures popped.None? <==> Pick(old(model), 0).None?
      ensures model == PopAs(old(model), w)
      ensures popped.Some? ==> model.workers[w] == Converting(popped.value.0, popped.value.1)
      ensures active == old(active)
    {
      PickIsServable(model, 0);
      for offset := 0 to |rings|
        invariant Valid() && model == old(model) && Pick(model, offset) == Pick(model, 0)
      {
        var index := (nextChannel + offset) % |rings|;
        assert ChannelAgrees(index, model.channels[index]);
        if channelBusy[index] || queues[index] == [] {
          continue;
        }
        var raw := TakeFront(w, index);
        return Some((index, raw));
      }
      return None;
    }

    method TakeFront(ghost w: nat, c: nat) returns (raw: Raw)
      requires Valid() && w < |model.workers| && Servable(model, c)
      modifies this
      ensures Valid() && model == Serve(old(model), w, c) && active == old(active)
      ensures model.workers[w] == Converting(c, raw)
    {
      assert ChannelAgrees(c, model.channels[c]);
      raw := queues[c][0];
      queues := queues[c := queues[c][1..]];
      channelBusy := channelBusy[c := true];
      nextChannel := (c + 1) % |rings|;
      model := Serve(model, w, c);
    }

    /** Expire what is due and, while stopping with nothing left to come, everything. */
    method SweepLocked(now: nat)
      requires Valid() && InRange(active, |rings|) && now == model.clock
      modifies this
      ensures Valid() && model == Sweep(old(model))
    {
      ghost var before := model;
      ExpireLocked(now, false);
      var empty := RawQueuesEmpty();
      var busy := ChannelsBusy();
      if !running && empty && !busy && active != [] {
        ExpireKeepsRange(before, before.active, now, |rings|);
        ExpireLocked(now, true);
      }
    }

    /** Give the worker an encoding job, a raw frame, or leave to go. */
    method ChooseWork(w: nat)
      requires Valid() && w < |model.workers|
      modifies this
      ensures Valid() && model == Choose(old(model), w)
    {
      if videoJobs != [] && activeEncoders < MAX_ENCODERS {
        model := StartEncoding(model, w);
        videoJobs := videoJobs[1..];
        activeEncoders := activeEncoders + 1;
        return;
      }
      var popped := PopRaw(w);
      if popped.None? {
        var empty := RawQueuesEmpty();
        if !running && empty && active == [] && videoJobs == [] && activeEncoders == 0 {
          model := model.(workers := model.workers[w := Exited]);
        }
      }
    }

    /** One pass of a worker through its locked section. */
    method Poll(w: nat, now: nat)
      requires Valid() && Enabled(model, APoll(w)) && InRange(active, |rings|) && now == model.clock
      modifies this
      ensures Valid() && model == Do(old(model), APoll(w))
    {
      SweepLocked(now);
      ChooseWork(w);
    }

    /** The locked part of `process_raw`: keep the frame, trim the ring, give the frame to its events. */
    method StoreFrame(w: nat, c: nat, raw: Raw)
      requires Valid() && Enabled(model, AAbsorb(w)) && model.workers[w] == Converting(c, raw)
      requires InRange(active, |rings|)
      modifies this
      ensures Valid() && model == Do(old(model), AAbsorb(w))
    {
      ghost var before := model;
      var ring := TrimRing(rings[c] + [raw.ts], Back(raw.ts, raw.pre));
      rings := rings[c := ring];
      GiveToEvents(c, raw.ts);
      model := Converted(before, w);
      assert InRange(active, |rings|);
      ExpireLocked(raw.ts, false);
    }

    /** Append a converted frame to every active event whose window holds it. */
    method GiveToEvents(c: nat, ts: nat)
      modifies `active
      ensures active == AbsorbAll(old(active), c, ts)
    {
      ghost var before := active;
      for i := 0 to |active|
        invariant |active| == |before|
        invariant forall k | 0 <= k < |active| :: active[k] == if k < i then AbsorbOne(before[k], c, ts) else before[k]
      {
        if active[i].request.channel == c && active[i].start <= ts <= active[i].end {
          active := active[i := active[i].(frames := active[i].frames + [ts])];
        }
      }
    }

    method ReleaseChannel(w: nat, c: nat)
      requires Valid() && Enabled(model, ARelease(w)) && model.workers[w] == Releasing(c)
      modifies this
      ensures Valid() && model == Do(old(model), ARelease(w))
    {
      channelBusy := channelBusy[c := false];
      model := Do(model, ARelease(w));
    }

    method EncoderDone(w: nat)
      requires Valid() && Enabled(model, AFinishEncoding(w))
      modifies this
      ensures Valid() && model == Do(old(model), AFinishEncoding(w))
    {
      activeEncoders := activeEncoders - 1;
      model := Do(model, AFinishEncoding(w));
    }
  }

  ghost predicate InRange(list: seq<Event>, channels: nat) {
    forall k | 0 <= k < |list| :: list[k].request.channel < channels
  }

  lemma {:induction false} ExpireKeepsRange(s: State, list: seq<Event>, now: nat, channels: nat)
    requires InRange(list, channels)
    ensures InRange(ExpireList(s, list, now, false).active, channels)
    decreases |list|
  {
    if list != [] {
      ExpireKeepsRange(s, list[..|list| - 1], now, channels);
    }
  }

  ghost function PopAs(s: State, w: nat): State
    requires w < |s.workers|
  {
    PickIsServable(s, 0);
    if Pick(s, 0).None? then s else Serve(s, w, Pick(s, 0).value)
  }

  /** The ring frames in a window. */
  method CopyWindow(ring: seq<nat>, lo: nat, hi: nat) returns (frames: seq<nat>)
    ensures frames == Within(ring, lo, hi)
  {
    frames := [];
    for i := 0 to |ring|
      invariant frames == Within(ring[..i], lo, hi)
    {
      assert ring[..i + 1][..i] == ring[..i];
      if lo <= ring[i] <= hi {
        frames := frames + [ring[i]];
      }
    }
    assert ring[..|ring|] == ring;
  }

  /** Pop the frames older than `keep` from the front. */
  method TrimRing(full: seq<nat>, keep: nat) returns (ring: seq<nat>)
    ensures ring == Trim(full, keep)
  {
    ring := full;
    while ring != [] && ring[0] < keep
      invariant Trim(ring, keep) == Trim(full, keep)
      decreases |ring|
    {
      ring := ring[1..];
    }
  }

  /** `g_active.find(id)`. */
  method Find(list: seq<Event>, id: nat) returns (k: nat)
    ensures k <= |list|
    ensures k < |list| ==> list[k].request.id == id && forall j | 0 <= j < k :: list[j].request.id != id
    ensures k == |list| <==> !IsActive(list, id)
  {
    k := 0;
    while k < |list| && list[k].request.id != id
      invariant k <= |list| && forall j | 0 <= j < k :: list[j].request.id != id
    {
      k := k + 1;
    }
  }

  lemma {:induction false} PostOfFound(active: seq<Event>, id: nat, k: nat)
    requires k < |active| && active[k].request.id == id && forall j | 0 <= j < k :: active[j].request.id != id
    ensures PostOf(active, id) == Span(active[k].request.post)
    decreases k
  {
    if k > 0 {
      assert forall j | 0 <= j < k - 1 :: active[1..][j].request.id == active[j + 1].request.id;
      PostOfFound(active[1..], id, k - 1);
    }
  }
}
