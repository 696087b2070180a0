/**
 * The capture gate (class Gate of engine/src/dataset/rules.cpp). The gate keeps one start time
 * and one flag per rule; the reference is the whole log of what it was shown.
 *
 * Times are the unsigned millisecond stamps of the source, modelled as naturals: every
 * subtraction below is shown not to go negative.
 */
module CaptureGate {

  datatype Settings = Settings(confirm: nat, interval: nat, gap: nat, onEnter: bool)

  /** A reset (asked for, or made by `Update` itself) or one evaluated frame with the rules it fired. */
  datatype Entry =
    | Cleared
    | Evaluated(frame: int, now: nat, matches: seq<bool>, settings: Settings, fired: seq<nat>)

  type Log = seq<Entry>

  ghost predicate MatchedLast(log: Log, r: nat) {
    log != [] && log[|log| - 1].Evaluated? && r < |log[|log| - 1].matches| && log[|log| - 1].matches[r]
  }

  /** When the unbroken run of matching frames of rule `r` at the end of `log` began; 0 if there is none. */
  ghost function Since(log: Log, r: nat): nat {
    if !MatchedLast(log, r) then 0
    else if Since(log[..|log| - 1], r) > 0 then Since(log[..|log| - 1], r)
    else log[|log| - 1].now
  }

  /** Rule `r` fired during that unbroken run. */
  ghost predicate FiredSince(log: Log, r: nat) {
    MatchedLast(log, r) && (r in log[|log| - 1].fired || FiredSince(log[..|log| - 1], r))
  }

  datatype Instant = Never | At(time: nat)

  /** The last frame on which anything fired, resets notwithstanding. */
  ghost function LastFiring(log: Log): Instant {
    if log == [] then Never
    else if log[|log| - 1].Evaluated? && log[|log| - 1].fired != [] then At(log[|log| - 1].now)
    else LastFiring(log[..|log| - 1])
  }

  /** When the run of rule `r` began, if the frame shown at `now` also matches. */
  ghost function Began(log: Log, r: nat, now: nat): nat {
    if Since(log, r) > 0 then Since(log, r) else now
  }

  /** Rule `r` is confirmed, and new if only entering counts, when `e` is shown after `log`. */
  ghost predicate Due(log: Log, e: Entry, r: nat)
    requires e.Evaluated?
  {
    && r < |e.matches| && e.matches[r]
    && e.now >= Began(log, r, e.now) + e.settings.confirm
    && (e.settings.onEnter ==> !FiredSince(log, r))
  }

  ghost predicate Blocked(log: Log, now: nat, interval: nat) {
    LastFiring(log).At? && LastFiring(log).time <= now < LastFiring(log).time + interval
  }

  ghost predicate Ascending(s: seq<nat>) {
    forall i, j | 0 <= i < j < |s| :: s[i] < s[j]
  }

  /** `e` may follow `log`: no unreported gap, and exactly the due rules fired unless blocked. */
  ghost predicate Follows(log: Log, e: Entry) {
    e.Evaluated? ==>
      && e.now > 0
      && (log != [] && log[|log| - 1].Evaluated? ==>
            log[|log| - 1].frame < e.frame && log[|log| - 1].now <= e.now <= log[|log| - 1].now + e.settings.gap)
      && Ascending(e.fired)
      && (if Blocked(log, e.now, e.settings.interval) then e.fired == []
          else forall r: nat :: r in e.fired <==> Due(log, e, r))
  }

  ghost predicate Legal(log: Log) {
    log == [] || (Legal(log[..|log| - 1]) && Follows(log[..|log| - 1], log[|log| - 1]))
  }

  lemma {:induction false} LegalAt(log: Log, k: nat)
    requires Legal(log) && k < |log|
    ensures Legal(log[..k]) && Follows(log[..k], log[k])
    decreases |log|
  {
    if k < |log| - 1 {
      LegalAt(log[..|log| - 1], k);
      assert log[..|log| - 1][..k] == log[..k];
    }
  }

  class Gate {
    var frame: int
    var time: nat
    var attempt: nat
    var attempted: bool
    const since: array<nat>
    const previous: array<bool>
    ghost var log: Log

    ghost predicate Valid()
      reads this, since, previous
    {
      && since.Length == previous.Length
      && Legal(log)
      && (if log != [] && log[|log| - 1].Evaluated?
          then frame == log[|log| - 1].frame && time == log[|log| - 1].now
          else frame == -1 && time == 0)
      && (LastFiring(log) == if attempted then At(attempt) else Never)
      && forall r | 0 <= r < since.Length ::
           since[r] == Since(log, r) && previous[r] == FiredSince(log, r) && since[r] <= time
    }

    constructor (rules: nat)
      ensures Valid() && log == [] && since.Length == rules
      ensures fresh(since) && fresh(previous)
    {
      frame, time, attempt, attempted := -1, 0, 0, false;
      since := new nat[rules](_ => 0);
      previous := new bool[rules](_ => false);
      log := [];
    }

    method Reset()
      requires Valid()
      modifies this, since, previous
      ensures Valid() && log == old(log) + [Cleared]
    {
      forall i | 0 <= i < since.Length { since[i] := 0; }
      forall i | 0 <= i < previous.Length { previous[i] := false; }
      frame := -1;
      time := 0;
      LegalPush(log, Cleared);
      log := log + [Cleared];
    }

    /** One frame: the returned rules are those that fire. */
    method Update(f: int, now: nat, matches: seq<bool>, s: Settings) returns (ready: seq<nat>)
      requires Valid() && |matches| == since.Length && now > 0
      modifies this, since, previous
      ensures Valid()
      ensures f == old(frame) ==> ready == [] && log == old(log)
      ensures f != old(frame) ==>
                log == old(log)
                     + (if f < old(frame) || now < old(time) || (old(time) != 0 && now - old(time) > s.gap) then [Cleared] else [])
                     + [Evaluated(f, now, matches, s, ready)]
    {
      if f == frame {
        return [];
      }
      if f < frame || now < time || (time != 0 && now - time > s.gap) {
        Reset();
      }
      ready := Advance(f, now, matches, s);
    }

    /** The frame continues the log: update every rule, then fire the due ones unless blocked. */
    method Advance(f: int, now: nat, matches: seq<bool>, s: Settings) returns (ready: seq<nat>)
      requires Valid() && |matches| == since.Length && now > 0
      requires time <= now && (time != 0 ==> frame < f && now - time <= s.gap)
      modifies this, since, previous
      ensures Valid() && log == old(log) + [Evaluated(f, now, matches, s, ready)]
    {
      ghost var probe := Evaluated(f, now, matches, s, []);
      frame := f;
      time := now;
      var due := Scan(probe, now, matches, s);
      ready := Fire(due, now, s.interval);
      Extend(log, probe.(fired := ready), due);
      AfterFrame(log, probe.(fired := ready));
      log := log + [probe.(fired := ready)];
    }

    /** The due rules fire, unless there are none or the interval since the last firing is not over. */
    method Fire(due: seq<nat>, now: nat, interval: nat) returns (ready: seq<nat>)
      requires forall r | r in due :: r < previous.Length
      modifies `attempt, `attempted, previous
      ensures ready == if old(attempted) && old(attempt) <= now < old(attempt) + interval then [] else due
      ensures attempted == (old(attempted) || ready != []) && attempt == (if ready != [] then now else old(attempt))
      ensures forall r | 0 <= r < previous.Length :: previous[r] == (old(previous[r]) || r in ready)
    {
      if due == [] || (attempted && now >= attempt && now - attempt < interval) {
        return [];
      }
      attempted := true;
      attempt := now;
      Mark(due);
      return due;
    }

    method Scan(ghost probe: Entry, now: nat, matches: seq<bool>, s: Settings) returns (ready: seq<nat>)
      requires probe.Evaluated? && probe == Evaluated(probe.frame, now, matches, s, [])
      requires since.Length == previous.Length == |matches| && now > 0
      requires forall r | 0 <= r < since.Length :: since[r] == Since(log, r) <= now && previous[r] == FiredSince(log, r)
      modifies since, previous
      ensures Ascending(ready) && forall r: nat :: r in ready <==> Due(log, probe, r)
      ensures forall r | 0 <= r < since.Length ::
                since[r] == if matches[r] then Began(log, r, now) else 0
      ensures forall r | 0 <= r < since.Length :: previous[r] == (matches[r] && FiredSince(log, r))
    {
      hide Since, FiredSince;
      ready := [];
      for i := 0 to |matches|
        invariant forall r | 0 <= r < i :: since[r] == if matches[r] then Began(log, r, now) else 0
        invariant forall r | 0 <= r < i :: previous[r] == (matches[r] && FiredSince(log, r))
        invariant forall r | i <= r < since.Length :: since[r] == Since(log, r) <= now && previous[r] == FiredSince(log, r)
        invariant Ascending(ready) && forall k | 0 <= k < |ready| :: ready[k] < i
        invariant forall r: nat | r < i :: r in ready <==> Due(log, probe, r)
      {
        if !matches[i] {
          since[i] := 0;
          previous[i] := false;
          continue;
        }
        if since[i] == 0 {
          since[i] := now;
        }
        var confirmed := now - since[i] >= s.confirm;
        if confirmed && (!s.onEnter || !previous[i]) {
          ready := ready + [i];
        }
      }
    }

    method Mark(ready: seq<nat>)
      requires forall r | r in ready :: r < previous.Length
      modifies previous
      ensures forall r | 0 <= r < previous.Length :: previous[r] == (old(previous[r]) || r in ready)
    {
      for n := 0 to |ready|
        invariant forall r | 0 <= r < previous.Length :: previous[r] == (old(previous[r]) || r in ready[..n])
      {
        assert ready[n] in ready;
        previous[ready[n]] := true;
      }
      assert ready[..|ready|] == ready;
    }
  }

  lemma LegalPush(log: Log, e: Entry)
    requires Legal(log) && Follows(log, e)
    ensures Legal(log + [e])
    ensures (log + [e])[..|log|] == log
  {
    assert (log + [e])[..|log|] == log;
  }

  /** The log grows by a frame that fires the due rules, or nothing when there are none or they are blocked. */
  lemma Extend(log: Log, e: Entry, due: seq<nat>)
    requires Legal(log) && e.Evaluated? && e.now > 0 && Ascending(due)
    requires log != [] && log[|log| - 1].Evaluated? ==>
               log[|log| - 1].frame < e.frame && log[|log| - 1].now <= e.now <= log[|log| - 1].now + e.settings.gap
    requires forall r: nat :: r in due <==> Due(log, e.(fired := []), r)
    requires e.fired == if Blocked(log, e.now, e.settings.interval) then [] else due
    ensures Legal(log + [e]) && (log + [e])[..|log|] == log
  {
    assert forall r: nat :: Due(log, e, r) == Due(log, e.(fired := []), r);
    LegalPush(log, e);
  }

  /** The reference functions after one more frame. */
  lemma AfterFrame(log: Log, e: Entry)
    requires e.Evaluated?
    ensures LastFiring(log + [e]) == if e.fired != [] then At(e.now) else LastFiring(log)
    ensures forall r | 0 <= r < |e.matches| ::
              && Since(log + [e], r) == (if e.matches[r] then Began(log, r, e.now) else 0)
              && FiredSince(log + [e], r) == (e.matches[r] && (r in e.fired || FiredSince(log, r)))
  {
    assert (log + [e])[..|log|] == log;
  }

  // ---------------------------------------------------------------------------
  // What every log of a gate satisfies.

  ghost predicate TimesNeverDecrease(log: Log) {
    forall i, j | 0 <= i < j < |log| && log[i].Evaluated? && log[j].Evaluated? :: log[i].now <= log[j].now
  }

  lemma {:induction false} LastFiringIsLatest(log: Log, i: nat)
    requires TimesNeverDecrease(log)
    requires i < |log| && log[i].Evaluated? && log[i].fired != []
    ensures LastFiring(log).At? && LastFiring(log).time >= log[i].now
    ensures exists k | 0 <= k < |log| :: log[k].Evaluated? && LastFiring(log).time == log[k].now
    decreases |log|
  {
    if i < |log| - 1 && !(log[|log| - 1].Evaluated? && log[|log| - 1].fired != []) {
      LastFiringIsLatest(log[..|log| - 1], i);
      var k :| 0 <= k < |log| - 1 && log[..|log| - 1][k].Evaluated? && LastFiring(log[..|log| - 1]).time == log[..|log| - 1][k].now;
      assert log[k] == log[..|log| - 1][k];
    }
  }

  /** Any two firings of a gate, even with resets between, are at least the later one's interval apart. */
  lemma FiringsAreSpaced(log: Log, i: nat, j: nat)
    requires Legal(log) && TimesNeverDecrease(log)
    requires i < j < |log| && log[i].Evaluated? && log[j].Evaluated?
    requires log[i].fired != [] && log[j].fired != []
    ensures log[j].now - log[i].now >= log[j].settings.interval
  {
    LegalAt(log, j);
    LastFiringIsLatest(log[..j], i);
    assert log[..j][i] == log[i];
    var k :| 0 <= k < j && log[..j][k].Evaluated? && LastFiring(log[..j]).time == log[..j][k].now;
    assert log[k] == log[..j][k];
  }

  /** Rule `r` matched every frame of `log[from..to]`, with no reset and no long gap between frames. */
  ghost predicate Unbroken(log: Log, r: nat, from: nat, to: nat) {
    && from < to <= |log|
    && (forall k | from <= k < to :: log[k].Evaluated? && r < |log[k].matches| && log[k].matches[r])
    && (forall k, n | from <= k < n < to && n == k + 1 ::
          log[k].frame < log[n].frame && log[k].now <= log[n].now <= log[k].now + log[n].settings.gap)
  }

  lemma UnbrokenStep(log: Log, r: nat, from: nat)
    requires Legal(log) && MatchedLast(log, r) && MatchedLast(log[..|log| - 1], r)
    requires Unbroken(log[..|log| - 1], r, from, |log| - 1)
    ensures Unbroken(log, r, from, |log|)
  {
    assert forall k | from <= k < |log| - 1 :: log[..|log| - 1][k] == log[k];
  }

  /** `Since` is the first frame of a run that cannot be extended backwards. */
  lemma {:induction false} SinceIsUnbroken(log: Log, r: nat) returns (from: nat)
    requires Legal(log) && MatchedLast(log, r)
    ensures Unbroken(log, r, from, |log|) && log[from].now == Since(log, r)
    ensures !MatchedLast(log[..from], r)
    decreases |log|
  {
    var front := log[..|log| - 1];
    if MatchedLast(front, r) {
      from := SinceIsUnbroken(front, r);
      UnbrokenStep(log, r, from);
      assert front[..from] == log[..from];
      assert front[from] == log[from];
    } else {
      from := |log| - 1;
    }
  }

  /** A rule fires only after matching every frame for at least the confirmation time, without a gap. */
  lemma FiringIsConfirmed(log: Log, j: nat, r: nat)
    requires Legal(log) && j < |log| && log[j].Evaluated? && r in log[j].fired
    ensures exists from: nat :: Unbroken(log, r, from, j + 1) && log[j].now - log[from].now >= log[j].settings.confirm
  {
    LegalAt(log, j);
    var shown := log[..j + 1];
    assert shown[..j] == log[..j] && shown[j] == log[j];
    var from := SinceIsUnbroken(shown, r);
    UnbrokenInPrefix(log, r, from, j + 1);
    assert shown[from] == log[from];
  }

  lemma UnbrokenInPrefix(log: Log, r: nat, from: nat, to: nat)
    requires to <= |log| && Unbroken(log[..to], r, from, to)
    ensures Unbroken(log, r, from, to)
  {
    assert forall k | from <= k < to :: log[..to][k] == log[k];
  }

  /** In on-enter mode a rule fires again only after a reset or a frame it does not match. */
  lemma {:induction false} EnteringRearms(log: Log, i: nat, j: nat, r: nat)
    requires Legal(log) && i < j < |log| && log[i].Evaluated? && log[j].Evaluated?
    requires r in log[i].fired && r in log[j].fired && log[j].settings.onEnter
    ensures exists k | i < k < j :: log[k].Cleared? || !(r < |log[k].matches| && log[k].matches[r])
  {
    LegalAt(log, j);
    LegalAt(log, i);
    if forall k | i < k < j :: log[k].Evaluated? && r < |log[k].matches| && log[k].matches[r] {
      StaysFired(log[..j], i, r);
    }
  }

  lemma {:induction false} StaysFired(log: Log, i: nat, r: nat)
    requires i < |log| && log[i].Evaluated? && r in log[i].fired
    requires forall k | i <= k < |log| :: log[k].Evaluated? && r < |log[k].matches| && log[k].matches[r]
    ensures FiredSince(log, r)
    decreases |log|
  {
    if i < |log| - 1 {
      assert log[..|log| - 1][i] == log[i];
      StaysFired(log[..|log| - 1], i, r);
    }
  }

  // ---------------------------------------------------------------------------
  // When a rule fires.

  lemma {:induction false} SinceIsPast(log: Log, r: nat)
    requires Legal(log) && MatchedLast(log, r)
    ensures 0 < Since(log, r) <= log[|log| - 1].now
    decreases |log|
  {
    var front := log[..|log| - 1];
    if MatchedLast(front, r) {
      SinceIsPast(front, r);
    }
  }

  /** The run that `Since` dates began no later than any unbroken stretch up to the end. */
  lemma {:induction false} SinceIsEarliest(log: Log, r: nat, from: nat)
    requires Legal(log) && Unbroken(log, r, from, |log|)
    ensures MatchedLast(log, r) && 0 < Since(log, r) <= log[from].now
    decreases |log|
  {
    SinceIsPast(log, r);
    var front := log[..|log| - 1];
    if from < |front| {
      assert front[from] == log[from];
      assert forall k | from <= k < |front| :: front[k] == log[k];
      SinceIsEarliest(front, r, from);
    }
  }

  /** The last entry before `j` that fired anything did so less than the interval before it. */
  ghost predicate Resting(log: Log, j: nat)
    requires j < |log| && log[j].Evaluated?
  {
    exists i | 0 <= i < j && IsLastFiring(log, i, j) :: log[i].now <= log[j].now < log[i].now + log[j].settings.interval
  }

  ghost predicate IsLastFiring(log: Log, i: nat, j: nat)
    requires i < j <= |log|
  {
    log[i].Evaluated? && log[i].fired != [] && forall m | i < m < j && log[m].Evaluated? :: log[m].fired == []
  }

  lemma {:induction false} LastFiringIs(log: Log, i: nat)
    requires i < |log| && IsLastFiring(log, i, |log|)
    ensures LastFiring(log) == At(log[i].now)
    decreases |log|
  {
    if i < |log| - 1 {
      var front := log[..|log| - 1];
      assert forall m | 0 <= m < |front| :: front[m] == log[m];
      LastFiringIs(front, i);
    }
  }

  lemma {:induction false} LastFiringWhere(log: Log) returns (i: nat)
    requires LastFiring(log).At?
    ensures i < |log| && IsLastFiring(log, i, |log|)
    decreases |log|
  {
    if log[|log| - 1].Evaluated? && log[|log| - 1].fired != [] {
      i := |log| - 1;
    } else {
      var front := log[..|log| - 1];
      i := LastFiringWhere(front);
      assert forall m | 0 <= m < |front| :: front[m] == log[m];
    }
  }

  lemma BlockedIsResting(log: Log, j: nat)
    requires j < |log| && log[j].Evaluated?
    ensures Blocked(log[..j], log[j].now, log[j].settings.interval) <==> Resting(log, j)
  {
    var before := log[..j];
    assert forall m | 0 <= m < j :: before[m] == log[m];
    if LastFiring(before).At? {
      var i := LastFiringWhere(before);
      LastFiringIs(before, i);
      assert IsLastFiring(log, i, j);
    }
    if i: nat :| i < j && IsLastFiring(log, i, j) && log[i].now <= log[j].now < log[i].now + log[j].settings.interval {
      assert IsLastFiring(before, i, |before|);
      LastFiringIs(before, i);
    }
  }

  lemma {:induction false} FiredSinceWhere(log: Log, r: nat) returns (i: nat)
    requires Legal(log) && FiredSince(log, r)
    ensures i < |log| && Unbroken(log, r, i, |log|) && r in log[i].fired
    decreases |log|
  {
    if r in log[|log| - 1].fired {
      i := |log| - 1;
    } else {
      var front := log[..|log| - 1];
      i := FiredSinceWhere(front, r);
      UnbrokenStep(log, r, i);
      assert front[i] == log[i];
    }
  }

  /** Rule `r` fired in the unbroken stretch of matching frames that ends with frame `j`. */
  ghost predicate FiredInRun(log: Log, j: nat, r: nat)
    requires j < |log|
  {
    exists i | 0 <= i < j && Unbroken(log, r, i, j + 1) :: r in log[i].fired
  }

  /** A stretch that reaches the frame before `j` goes on to `j` if that matches. */
  lemma UnbrokenGoesOn(log: Log, r: nat, i: nat, j: nat)
    requires Legal(log) && i < j < |log| && log[j].Evaluated? && r < |log[j].matches| && log[j].matches[r]
    requires Unbroken(log[..j], r, i, j)
    ensures Unbroken(log, r, i, j + 1)
  {
    LegalAt(log, j);
    UnbrokenInPrefix(log, r, i, j);
    assert log[..j][j - 1] == log[j - 1];
    hide Legal, Blocked, Due, Ascending;
  }

  lemma FiredEarlierInRun(log: Log, j: nat, r: nat)
    requires Legal(log) && j < |log| && log[j].Evaluated? && r < |log[j].matches| && log[j].matches[r]
    requires FiredSince(log[..j], r)
    ensures FiredInRun(log, j, r)
  {
    LegalAt(log, j);
    hide Legal, Follows, FiredSince, Unbroken;
    var i := FiredSinceWhere(log[..j], r);
    UnbrokenGoesOn(log, r, i, j);
    assert log[..j][i] == log[i];
  }

  lemma FiredInRunIsSince(log: Log, j: nat, r: nat)
    requires j < |log| && FiredInRun(log, j, r)
    ensures FiredSince(log[..j], r)
  {
    var i: nat :| i < j && Unbroken(log, r, i, j + 1) && r in log[i].fired;
    assert forall m | 0 <= m < j :: log[..j][m] == log[m];
    hide FiredSince;
    StaysFired(log[..j], i, r);
  }

  /** Rule `r` has matched every frame for the confirmation time. */
  ghost predicate Confirmed(log: Log, j: nat, r: nat)
    requires j < |log| && log[j].Evaluated?
  {
    exists from: nat :: Unbroken(log, r, from, j + 1) && log[j].now - log[from].now >= log[j].settings.confirm
  }

  lemma LegalUpTo(log: Log, j: nat)
    requires Legal(log) && j < |log|
    ensures Legal(log[..j + 1])
  {
    LegalAt(log, j);
    hide Follows;
    assert log[..j + 1][..j] == log[..j] && log[..j + 1][j] == log[j];
  }

  lemma SinceUpTo(log: Log, j: nat, r: nat)
    requires j < |log| && log[j].Evaluated? && r < |log[j].matches|
    ensures Since(log[..j + 1], r) == if log[j].matches[r] then Began(log[..j], r, log[j].now) else 0
  {
    hide Since, Began;
    assert log[..j + 1] == log[..j] + [log[j]];
    AfterFrame(log[..j], log[j]);
  }

  lemma UnbrokenPrefix(log: Log, r: nat, from: nat, to: nat)
    requires Unbroken(log, r, from, to)
    ensures Unbroken(log[..to], r, from, to)
  {
    assert forall m | 0 <= m < to :: log[..to][m] == log[m];
  }

  lemma ConfirmedSinceBegan(log: Log, j: nat, r: nat, from: nat)
    requires Legal(log) && j < |log| && log[j].Evaluated? && Unbroken(log, r, from, j + 1)
    ensures r < |log[j].matches| && log[j].matches[r] && Began(log[..j], r, log[j].now) <= log[from].now
  {
    hide Legal, Since, Began;
    LegalUpTo(log, j);
    UnbrokenPrefix(log, r, from, j + 1);
    SinceIsEarliest(log[..j + 1], r, from);
    SinceUpTo(log, j, r);
  }

  lemma ConfirmedIsDue(log: Log, j: nat, r: nat)
    requires Legal(log) && j < |log| && log[j].Evaluated? && Confirmed(log, j, r)
    requires log[j].settings.onEnter ==> !FiredInRun(log, j, r)
    ensures Due(log[..j], log[j], r)
  {
    var from: nat :| Unbroken(log, r, from, j + 1) && log[j].now - log[from].now >= log[j].settings.confirm;
    ConfirmedSinceBegan(log, j, r, from);
    hide Legal, Unbroken, FiredSince, FiredInRun, Began;
    if FiredSince(log[..j], r) {
      FiredEarlierInRun(log, j, r);
    }
  }

  /**
   * A rule fires on a frame exactly if it has matched every frame for the confirmation time, the
   * interval since the last firing is over, and, on entering, it has not fired in this stretch.
   */
  lemma RuleFiresIff(log: Log, j: nat, r: nat)
    requires Legal(log) && j < |log| && log[j].Evaluated?
    ensures r in log[j].fired <==>
              Confirmed(log, j, r) && !Resting(log, j) && (log[j].settings.onEnter ==> !FiredInRun(log, j, r))
  {
    LegalAt(log, j);
    BlockedIsResting(log, j);
    hide Legal, Blocked, Resting, Confirmed, FiredInRun, FiredSince, Began;
    if r in log[j].fired {
      ConfirmedAt(log, j, r);
      if FiredInRun(log, j, r) {
        FiredInRunIsSince(log, j, r);
      }
    } else if Confirmed(log, j, r) && (log[j].settings.onEnter ==> !FiredInRun(log, j, r)) {
      ConfirmedIsDue(log, j, r);
    }
  }

  lemma ConfirmedAt(log: Log, j: nat, r: nat)
    requires Legal(log) && j < |log| && log[j].Evaluated? && r in log[j].fired
    ensures Confirmed(log, j, r)
  {
    FiringIsConfirmed(log, j, r);
  }
}
