/**
 * Making room in the event outbox (engine/src/event/event_report.cpp,
 * engine/src/event/event_retention.h). A directory's three state files are given by what a
 * parser makes of them.
 */
module OutboxRetention {
  /** A file that is missing, damaged or not an object is `Unreadable`. */
  datatype File<T> = Unreadable | Object(content: T)

  datatype Status = Text(value: string) | NotText

  /** The `media` member's entries; a missing member has none. */
  datatype Media = Media(entries: seq<Status>)

  datatype Deliveries = NotAnArray | Array(entries: seq<Status>)

  datatype Event = Event(path: string, mtime: int, bytes: nat, event: File<()>, media: File<Media>, delivery: File<Deliveries>)

  // ---------------------------------------------------------------------------
  // Which events may go.

  predicate Delivered(s: Status) { s == Text("delivered") }
  predicate Generating(s: Status) { s == Text("requested") || s == Text("generating") }

  /** Fully delivered: there were deliveries, and each has completed. */
  predicate AllDelivered(d: Deliveries) {
    d.Array? && d.entries != [] && forall k | 0 <= k < |d.entries| :: Delivered(d.entries[k])
  }

  predicate MediaFinished(m: Media) { forall k | 0 <= k < |m.entries| :: !Generating(m.entries[k]) }

  predicate Disposable(e: Event) {
    && e.event.Object? && e.media.Object? && e.delivery.Object?
    && MediaFinished(e.media.content) && AllDelivered(e.delivery.content)
  }

  /** `event_deliveries_need_retention`. */
  method NeedRetention(d: Deliveries) returns (keep: bool)
    ensures keep == !AllDelivered(d)
  {
    if d.NotAnArray? || |d.entries| == 0 {
      return true;
    }
    for k := 0 to |d.entries|
      invariant forall j | 0 <= j < k :: Delivered(d.entries[j])
    {
      if d.entries[k].NotText? || d.entries[k].value != "delivered" {
        return true;
      }
    }
    return false;
  }

  /** `event_has_active_work`. */
  method HasActiveWork(e: Event) returns (active: bool)
    ensures active == !Disposable(e)
  {
    if e.event.Unreadable? || e.media.Unreadable? || e.delivery.Unreadable? {
      return true;
    }
    var generating := false;
    var entries := e.media.content.entries;
    for k := 0 to |entries|
      invariant generating == exists j | 0 <= j < k :: Generating(entries[j])
    {
      if entries[k].Text? && (entries[k].value == "requested" || entries[k].value == "generating") {
        generating := true;
        break;
      }
    }
    var undelivered := NeedRetention(e.delivery.content);
    return generating || undelivered;
  }

  // ---------------------------------------------------------------------------
  // How many go.

  function Bytes(events: seq<Event>): nat {
    if events == [] then 0 else Bytes(events[..|events| - 1]) + events[|events| - 1].bytes
  }

  function Candidates(events: seq<Event>): seq<Event> {
    if events == [] then []
    else Candidates(events[..|events| - 1]) + (if Disposable(events[|events| - 1]) then [events[|events| - 1]] else [])
  }

  ghost predicate OldestFirst(events: seq<Event>) {
    forall i, j | 0 <= i < j < |events| :: events[i].mtime <= events[j].mtime
  }

  ghost predicate Sorts(sort: seq<Event> -> seq<Event>) {
    forall events :: multiset(sort(events)) == multiset(events) && OldestFirst(sort(events))
  }

  datatype Limits = Limits(cap: int, minFree: int)

  predicate Met(limits: Limits, total: int, free: int, freed: int) {
    total - freed <= limits.cap && free + freed >= limits.minFree
  }

  /** Enough has gone after `n`, and no sooner; or all candidates are gone. */
  ghost predicate ShortestPrefix(candidates: seq<Event>, limits: Limits, total: int, free: int, n: nat) {
    && n <= |candidates|
    && (n < |candidates| ==> Met(limits, total, free, Bytes(candidates[..n])))
    && forall m | 0 <= m < n :: !Met(limits, total, free, Bytes(candidates[..m]))
  }

  /** What is deleted from these events: the shortest oldest-first prefix that is enough. */
  ghost predicate Deletes(events: seq<Event>, limits: Limits, free: int, sort: seq<Event> -> seq<Event>, removed: seq<Event>) {
    removed <= sort(Candidates(events)) && ShortestPrefix(sort(Candidates(events)), limits, Bytes(events), free, |removed|)
  }

  /** `enforce_outbox_cap`, on the events found in the outbox and the free space found beside it. */
  method EnforceCap(events: seq<Event>, limits: Limits, freeSpace: int, sort: seq<Event> -> seq<Event>)
    returns (removed: seq<Event>, total: int, free: int, pressure: bool)
    requires Sorts(sort)
    ensures Deletes(events, limits, freeSpace, sort, removed)
    ensures total == Bytes(events) - Bytes(removed) && free == freeSpace + Bytes(removed)
    ensures pressure <==> total > limits.cap || free < limits.minFree
  {
    var candidates := [];
    total := 0;
    free := freeSpace;
    for i := 0 to |events|
      invariant total == Bytes(events[..i]) && candidates == Candidates(events[..i])
    {
      assert events[..i + 1][..i] == events[..i];
      total := total + events[i].bytes;
      var active := HasActiveWork(events[i]);
      if !active {
        candidates := candidates + [events[i]];
      }
    }
    assert events[..|events|] == events;
    var sorted := sort(candidates);
    ghost var all := total;
    removed := [];
    for i := 0 to |sorted|
      invariant removed == sorted[..i]
      invariant total == all - Bytes(removed) && free == freeSpace + Bytes(removed)
      invariant forall m | 0 <= m < i :: !Met(limits, all, freeSpace, Bytes(sorted[..m]))
    {
      if total <= limits.cap && free >= limits.minFree {
        break;
      }
      assert sorted[..i + 1][..i] == sorted[..i];
      removed := removed + [sorted[i]];
      total := total - sorted[i].bytes;
      free := free + sorted[i].bytes;
    }
    pressure := total > limits.cap || free < limits.minFree;
  }

  lemma {:induction false} CandidatesAreDisposable(events: seq<Event>, e: Event)
    ensures e in Candidates(events) <==> e in events && Disposable(e)
    decreases |events|
  {
    if events != [] {
      CandidatesAreDisposable(events[..|events| - 1], e);
      assert events == events[..|events| - 1] + [events[|events| - 1]];
    }
  }

  lemma SortedSameElements(sort: seq<Event> -> seq<Event>, events: seq<Event>, e: Event)
    requires Sorts(sort)
    ensures e in sort(events) <==> e in events
  {
    assert multiset(sort(events)) == multiset(events) && OldestFirst(sort(events));
    assert e in sort(events) <==> e in multiset(sort(events));
    assert e in events <==> e in multiset(events);
  }

  /** Nothing is deleted but fully delivered events whose media are finished. */
  lemma OnlyDisposableEventsGo(events: seq<Event>, limits: Limits, free: int, sort: seq<Event> -> seq<Event>, removed: seq<Event>, e: Event)
    requires Sorts(sort) && Deletes(events, limits, free, sort, removed) && e in removed
    ensures e in events && e.event.Object? && e.media.Object? && e.delivery.Object? && e.delivery.content.Array?
    ensures e.delivery.content.entries != [] && forall d | d in e.delivery.content.entries :: d == Text("delivered")
    ensures forall m | m in e.media.content.entries :: m != Text("requested") && m != Text("generating")
  {
    var k :| 0 <= k < |removed| && removed[k] == e;
    assert sort(Candidates(events))[k] == e;
    SortedSameElements(sort, Candidates(events), e);
    CandidatesAreDisposable(events, e);
  }

  /** The outbox, the limits and the free space determine what goes. */
  lemma DeletionIsDetermined(events: seq<Event>, limits: Limits, free: int, sort: seq<Event> -> seq<Event>, a: seq<Event>, b: seq<Event>)
    requires Deletes(events, limits, free, sort, a) && Deletes(events, limits, free, sort, b)
    ensures a == b
  {
    var sorted := sort(Candidates(events));
    assert a == sorted[..|a|] && b == sorted[..|b|];
    assert |a| == |b|;
  }

  lemma KeptIsNotDisposable(events: seq<Event>, limits: Limits, free: int, sort: seq<Event> -> seq<Event>, removed: seq<Event>, e: Event)
    requires Sorts(sort) && Deletes(events, limits, free, sort, removed)
    requires !Met(limits, Bytes(events), free, Bytes(removed)) && e in events && e !in removed
    ensures !Disposable(e)
  {
    var sorted := sort(Candidates(events));
    assert removed == sorted[..|removed|];
    assert |removed| == |sorted| && sorted[..|sorted|] == sorted;
    SortedSameElements(sort, Candidates(events), e);
    CandidatesAreDisposable(events, e);
  }

  /** Why an event whose files can be read may not go: no deliveries, an open one, or media in production. */
  predicate HasReason(e: Event)
    requires e.media.Object? && e.delivery.Object?
  {
    || e.delivery.content.NotAnArray? || e.delivery.content.entries == []
    || (exists d | d in e.delivery.content.entries :: d != Text("delivered"))
    || Text("requested") in e.media.content.entries || Text("generating") in e.media.content.entries
  }

  lemma NotDisposableIff(e: Event)
    requires e.event.Object? && e.media.Object? && e.delivery.Object?
    ensures !Disposable(e) <==> HasReason(e)
  {
    var media := e.media.content.entries;
    if !MediaFinished(e.media.content) {
      var k :| 0 <= k < |media| && Generating(media[k]);
      assert media[k] in media;
    }
    if e.delivery.content.Array? {
      var entries := e.delivery.content.entries;
      if k :| 0 <= k < |entries| && !Delivered(entries[k]) {
        assert entries[k] in entries;
      }
    }
  }

  /** If the limits are not met, everything that stays has a reason: a file that cannot be read, or one of these. */
  lemma PressureMeansNothingLeft(events: seq<Event>, limits: Limits, free: int, sort: seq<Event> -> seq<Event>, removed: seq<Event>, e: Event)
    requires Sorts(sort) && Deletes(events, limits, free, sort, removed)
    requires Bytes(events) - Bytes(removed) > limits.cap || free + Bytes(removed) < limits.minFree
    requires e in events && e !in removed
    ensures e.event.Unreadable? || e.media.Unreadable? || e.delivery.Unreadable? || HasReason(e)
  {
    KeptIsNotDisposable(events, limits, free, sort, removed, e);
    hide Disposable, HasReason, Deletes, Sorts;
    if e.event.Object? && e.media.Object? && e.delivery.Object? {
      NotDisposableIff(e);
    }
  }

  lemma {:induction false} BytesAddUp(a: seq<Event>, b: seq<Event>)
    ensures Bytes(a + b) == Bytes(a) + Bytes(b)
    decreases |b|
  {
    if b == [] {
      assert a + b == a;
    } else {
      assert (a + b)[..|a + b| - 1] == a + b[..|b| - 1];
      BytesAddUp(a, b[..|b| - 1]);
    }
  }

  /** Nothing goes in vain: without the last event deleted, a limit would not be met. */
  lemma LastOneWasNeeded(events: seq<Event>, limits: Limits, free: int, sort: seq<Event> -> seq<Event>, rest: seq<Event>, last: Event)
    requires Deletes(events, limits, free, sort, rest + [last])
    ensures Bytes(rest + [last]) == Bytes(rest) + last.bytes
    ensures Bytes(events) - Bytes(rest) > limits.cap || free + Bytes(rest) < limits.minFree
  {
    BytesAddUp(rest, [last]);
    assert Bytes([last]) == last.bytes;
    assert sort(Candidates(events))[..|rest|] == rest;
  }

  /** No event that may go and stays is older than one that goes. */
  lemma OldestGoFirst(events: seq<Event>, limits: Limits, free: int, sort: seq<Event> -> seq<Event>, removed: seq<Event>, e: Event, f: Event)
    requires Sorts(sort) && Deletes(events, limits, free, sort, removed)
    requires e in removed && f in events && Disposable(f) && f !in removed
    ensures e.mtime <= f.mtime
  {
    var sorted := sort(Candidates(events));
    CandidatesAreDisposable(events, f);
    SortedSameElements(sort, Candidates(events), f);
    var i :| 0 <= i < |removed| && removed[i] == e;
    var j :| 0 <= j < |sorted| && sorted[j] == f;
    forall k | 0 <= k < |removed| ensures sorted[k] in removed {
      assert removed[k] == sorted[k];
    }
    assert OldestFirst(sorted) && sorted[i] == e;
  }
}
