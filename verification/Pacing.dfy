/**
 * Frame selection and preview admission of one channel (engine/src/pipeline/frame_inlet.cpp).
 * Times are microseconds of the steady clock; tokens are real numbers.
 */
module FramePacing {
  /**
   * One decoded frame: when it is looked at, whether handing it to the inference queue fails,
   * and when that failure is noticed.
   */
  datatype Arrival = Arrival(now: nat, fails: bool, noticed: nat)

  function Period(maxFps: int): nat { 1000000 / (if maxFps < 1 then 1 else maxFps) }

  /** The due time a frame is held against; zero means none was set yet. */
  function Due(due: nat, phase: nat, now: nat): nat { if due == 0 then now + phase else due }

  predicate Selects(due: nat, phase: nat, now: nat) { now >= Due(due, phase, now) }

  /** On time the schedule keeps its grid; more than two periods late it starts again half a period from now. */
  function Advanced(due: nat, period: nat, now: nat): nat {
    if now > due + period * 2 then now + period / 2 else due + period
  }

  function NextDue(due: nat, phase: nat, period: nat, a: Arrival): nat {
    var d := Due(due, phase, a.now);
    if a.now < d then d
    else if a.fails then a.noticed + period / 2
    else Advanced(d, period, a.now)
  }

  // ---------------------------------------------------------------------------
  // How many frames are selected in a window.

  ghost predicate InOrder(arrivals: seq<Arrival>) {
    && (forall i | 0 <= i < |arrivals| :: 0 < arrivals[i].now <= arrivals[i].noticed)
    && forall i, j | 0 <= i < j < |arrivals| :: arrivals[i].noticed <= arrivals[j].now
  }

  predicate Inside(a: Arrival, lo: nat, hi: nat) { lo <= a.now <= hi }

  /** The frames selected between `lo` and `hi`. */
  function Selected(due: nat, phase: nat, period: nat, arrivals: seq<Arrival>, lo: nat, hi: nat): nat
    decreases |arrivals|
  {
    if arrivals == [] then 0
    else (if Inside(arrivals[0], lo, hi) && Selects(due, phase, arrivals[0].now) then 1 else 0)
         + Selected(NextDue(due, phase, period, arrivals[0]), phase, period, arrivals[1..], lo, hi)
  }

  /** The same frames, each weighed by the period, or by half of it if it failed. */
  function Weight(due: nat, phase: nat, period: nat, arrivals: seq<Arrival>, lo: nat, hi: nat): nat
    decreases |arrivals|
  {
    if arrivals == [] then 0
    else (if Inside(arrivals[0], lo, hi) && Selects(due, phase, arrivals[0].now) then (if arrivals[0].fails then period / 2 else period) else 0)
         + Weight(NextDue(due, phase, period, arrivals[0]), phase, period, arrivals[1..], lo, hi)
  }

  function Excess(hi: nat, due: nat, period: nat): nat { if hi + period > due then hi + period - due else 0 }

  /** A selected frame moves the due time by at least its weight. */
  lemma SelectionAdvances(due: nat, phase: nat, period: nat, a: Arrival)
    requires Selects(due, phase, a.now) && a.now <= a.noticed
    ensures NextDue(due, phase, period, a) >= Due(due, phase, a.now) + (if a.fails then period / 2 else period)
  {
  }

  /** From a due time `d` on, the weights up to `hi` fit between `d` and one period past `hi`. */
  lemma {:induction false} WeightFromDue(due: nat, phase: nat, period: nat, arrivals: seq<Arrival>, lo: nat, hi: nat)
    requires due > 0 && InOrder(arrivals)
    ensures Weight(due, phase, period, arrivals, lo, hi) <= Excess(hi, due, period)
    decreases |arrivals|
  {
    if arrivals != [] {
      var a := arrivals[0];
      var next := NextDue(due, phase, period, a);
      assert a.now <= a.noticed;
      if Selects(due, phase, a.now) {
        SelectionAdvances(due, phase, period, a);
      }
      WeightFromDue(next, phase, period, arrivals[1..], lo, hi);
    }
  }

  /** Whatever the schedule was before, the weights inside a window exceed its length by at most three periods. */
  lemma {:induction false} WeightInWindow(due: nat, phase: nat, period: nat, arrivals: seq<Arrival>, lo: nat, hi: nat)
    requires InOrder(arrivals) && lo <= hi
    ensures Weight(due, phase, period, arrivals, lo, hi) <= hi - lo + 3 * period
    decreases |arrivals|
  {
    if arrivals != [] {
      var a := arrivals[0];
      assert 0 < a.now <= a.noticed;
      var next := NextDue(due, phase, period, a);
      if Inside(a, lo, hi) && Selects(due, phase, a.now) {
        SelectionAdvances(due, phase, period, a);
        WeightFromDue(next, phase, period, arrivals[1..], lo, hi);
      } else {
        WeightInWindow(next, phase, period, arrivals[1..], lo, hi);
      }
    }
  }

  ghost predicate NoneFails(arrivals: seq<Arrival>) { forall i | 0 <= i < |arrivals| :: !arrivals[i].fails }

  /** `n * unit`, one unit at a time. */
  function Times(n: nat, unit: nat): nat { if n == 0 then 0 else unit + Times(n - 1, unit) }

  lemma {:induction false} TimesIsProduct(n: nat, unit: nat)
    ensures Times(n, unit) == n * unit
    decreases n
  {
    if n > 0 {
      TimesIsProduct(n - 1, unit);
    }
  }

  lemma {:induction false} WeightWithoutFailures(due: nat, phase: nat, period: nat, arrivals: seq<Arrival>, lo: nat, hi: nat)
    requires NoneFails(arrivals)
    ensures Weight(due, phase, period, arrivals, lo, hi) == Times(Selected(due, phase, period, arrivals, lo, hi), period)
    decreases |arrivals|
  {
    hide NextDue, Selects;
    if arrivals != [] {
      WeightWithoutFailures(NextDue(due, phase, period, arrivals[0]), phase, period, arrivals[1..], lo, hi);
    }
  }

  lemma ProductGrows(n: nat, m: nat, unit: nat)
    ensures n >= m ==> n * unit >= m * unit
  {
  }

  lemma HowManyFit(n: nat, period: nat, length: nat)
    requires period > 0 && n * period <= length + 3 * period
    ensures n <= length / period + 3
  {
    var q := length / period;
    assert length < q * period + period;
    ProductGrows(n, q + 4, period);
    assert (q + 4) * period == q * period + 4 * period;
  }

  /** With a fixed rate and no failure, a window of length L holds at most L / period + 3 selected frames. */
  lemma SelectionIsBounded(due: nat, phase: nat, maxFps: int, arrivals: seq<Arrival>, lo: nat, hi: nat)
    requires InOrder(arrivals) && NoneFails(arrivals) && lo <= hi && maxFps <= 1000000
    ensures Period(maxFps) > 0
    ensures Selected(due, phase, Period(maxFps), arrivals, lo, hi) <= (hi - lo) / Period(maxFps) + 3
  {
    var period := Period(maxFps);
    WeightInWindow(due, phase, period, arrivals, lo, hi);
    WeightWithoutFailures(due, phase, period, arrivals, lo, hi);
    TimesIsProduct(Selected(due, phase, period, arrivals, lo, hi), period);
    HowManyFit(Selected(due, phase, period, arrivals, lo, hi), period, hi - lo);
  }

  /** With failures allowed, every frame still costs half a period. */
  lemma SelectionIsBoundedWithFailures(due: nat, phase: nat, period: nat, arrivals: seq<Arrival>, lo: nat, hi: nat)
    requires InOrder(arrivals) && lo <= hi
    ensures Selected(due, phase, period, arrivals, lo, hi) * (period / 2) <= hi - lo + 3 * period
  {
    WeightInWindow(due, phase, period, arrivals, lo, hi);
    HalfWeight(due, phase, period, arrivals, lo, hi);
    TimesIsProduct(Selected(due, phase, period, arrivals, lo, hi), period / 2);
  }

  lemma {:induction false} HalfWeight(due: nat, phase: nat, period: nat, arrivals: seq<Arrival>, lo: nat, hi: nat)
    ensures Times(Selected(due, phase, period, arrivals, lo, hi), period / 2) <= Weight(due, phase, period, arrivals, lo, hi)
    decreases |arrivals|
  {
    hide NextDue, Selects;
    if arrivals != [] {
      HalfWeight(NextDue(due, phase, period, arrivals[0]), phase, period, arrivals[1..], lo, hi);
    }
  }

  // ---------------------------------------------------------------------------
  // How many frames are selected at least.

  /** From each frame to the next it takes no longer than `gap`. */
  ghost predicate Steady(arrivals: seq<Arrival>, gap: nat) {
    forall i | 0 <= i < |arrivals| - 1 :: arrivals[i + 1].now <= arrivals[i].now + gap
  }

  /** The stagger of a channel with this place in the display order, of so many channels. */
  function Phase(period: nat, order: int, channels: int): nat {
    period * (if order < 0 then 0 else order) / (if channels < 1 then 1 else channels)
  }

  lemma Quotient(x: nat, q: nat, n: nat)
    requires n > 0 && q * n <= x < q * n + n
    ensures x / n == q
  {
    var r := x / n;
    assert r * n <= x < r * n + n;
    if r < q {
      ProductGrows(q, r + 1, n);
    } else if r > q {
      ProductGrows(r, q + 1, n);
    }
  }

  lemma Remainder(x: nat, n: nat)
    requires n > 0
    ensures x / n * n <= x < x / n * n + n
  {
  }

  lemma Sum(a: nat, b: nat, n: nat)
    ensures (a + b) * n == a * n + b * n && (a + b + 1) * n == a * n + b * n + n
  {
  }

  lemma SumBetween(x: nat, y: nat, a: nat, b: nat, n: nat)
    requires n > 0 && a * n <= x < a * n + n && b * n <= y < b * n + n
    ensures (x + y) / n == a + b || (x + y) / n == a + b + 1
  {
    Sum(a, b, n);
    var s := a + b;
    if x + y < s * n + n {
      Quotient(x + y, s, n);
    } else {
      Quotient(x + y, s + 1, n);
    }
  }

  lemma SumOfQuotients(x: nat, y: nat, n: nat)
    requires n > 0
    ensures (x + y) / n == x / n + y / n || (x + y) / n == x / n + y / n + 1
  {
    Remainder(x, n);
    Remainder(y, n);
    SumBetween(x, y, x / n, y / n, n);
  }

  /** Neighbours in the display order are an equal share of the period apart, to the microsecond, and all phases lie within a period. */
  lemma PhasesAreSpread(period: nat, order: nat, channels: nat)
    requires order < channels && period > 0
    ensures Phase(period, 0, channels) == 0 && Phase(period, order, channels) < period
    ensures var step := Phase(period, order + 1, channels) - Phase(period, order, channels);
            step == period / channels || step == period / channels + 1
  {
    var sofar := period * order;
    assert period * (order + 1) == sofar + period;
    SumOfQuotients(sofar, period, channels);
    Remainder(sofar, channels);
    ProductGrows(channels - 1, order, period);
    assert (channels - 1) * period == channels * period - period;
    if sofar / channels >= period {
      ProductGrows(sofar / channels, period, channels);
    }
  }

  /** A channel seen for the first time waits for its phase; its first frame is selected if that is over. */
  lemma FirstFrameWaits(phase: nat, maxFps: int, a: Arrival, t: nat)
    requires a.now > 0
    ensures Selects(0, phase, a.now) <==> phase == 0
    ensures phase > 0 ==> (Selects(NextDue(0, phase, Period(maxFps), a), phase, t) <==> t >= a.now + phase)
  {
  }

  function Later(a: nat, b: nat): nat { if a < b then b else a }

  /** A selected frame that is handed over moves the due time to one period after it at most. */
  lemma SelectionAdvancesAtMost(due: nat, phase: nat, period: nat, a: Arrival)
    requires Selects(due, phase, a.now) && !a.fails
    ensures NextDue(due, phase, period, a) <= a.now + period
  {
  }

  /** A failed one is tried again half a period after the failure is noticed. */
  lemma FailureIsRetried(due: nat, phase: nat, maxFps: int, a: Arrival)
    requires a.now >= (if due == 0 then a.now + phase else due) && a.fails && 1 <= maxFps
    ensures NextDue(due, phase, Period(maxFps), a) == a.noticed + 1000000 / maxFps / 2
  {
  }

  /**
   * While frames keep coming and none fails, from one selected frame to the next it takes no longer
   * than a period and a gap: the last frame lies no further from the first due time than that, for
   * each frame selected.
   */
  lemma {:induction false} SteadyFeedIsServed(due: nat, phase: nat, period: nat, arrivals: seq<Arrival>, gap: nat)
    requires arrivals != [] && InOrder(arrivals) && NoneFails(arrivals) && Steady(arrivals, gap)
    ensures var last := arrivals[|arrivals| - 1].now;
            last <= Later(arrivals[0].now, Due(due, phase, arrivals[0].now) + gap)
                    + Times(Selected(due, phase, period, arrivals, 0, last), period + gap)
    decreases |arrivals|
  {
    var a, rest := arrivals[0], arrivals[1..];
    var last := arrivals[|arrivals| - 1].now;
    var next := NextDue(due, phase, period, a);
    if rest != [] {
      assert rest[|rest| - 1] == arrivals[|arrivals| - 1] && rest[0].now <= a.now + gap && a.now <= last;
      assert 0 < a.now <= a.noticed && a.noticed <= arrivals[|arrivals| - 1].now;
      SteadyFeedIsServed(next, phase, period, rest, gap);
      if Selects(due, phase, a.now) {
        SelectionAdvancesAtMost(due, phase, period, a);
        SelectionAdvances(due, phase, period, a);
      }
    }
  }

  /** A frame that is more than two periods late starts a new schedule: the next one is due half a period after it. */
  lemma LateFrameRestarts(due: nat, phase: nat, maxFps: int, a: Arrival, t: nat)
    requires due > 0 && 1 <= maxFps && !a.fails && a.now > due + 2 * (1000000 / maxFps)
    ensures Selects(NextDue(due, phase, Period(maxFps), a), phase, t) <==> t >= a.now + 1000000 / maxFps / 2
  {
  }

  /** A frame at most two periods late moves the due time by exactly a period, and an early one leaves it. */
  lemma OnTimeKeepsTheGrid(due: nat, phase: nat, period: nat, a: Arrival)
    requires 0 < due && a.now <= due + 2 * period && !a.fails
    ensures NextDue(due, phase, period, a) == (if a.now >= due then due + period else due)
    ensures Selects(due, phase, a.now) <==> a.now >= due
  {
  }

  /**
   * A feed with gaps no longer than the period is served at the full rate: as many frames are selected
   * as there were periods since the due time, give or take one.
   */
  lemma {:induction false} FullRateIsMet(due: nat, phase: nat, period: nat, arrivals: seq<Arrival>, gap: nat)
    requires due > 0 && arrivals != [] && InOrder(arrivals) && NoneFails(arrivals) && Steady(arrivals, gap)
    requires gap <= period && arrivals[0].now <= due + 2 * period
    ensures var last := arrivals[|arrivals| - 1].now;
            var expected := due + Times(Selected(due, phase, period, arrivals, 0, last), period);
            last <= expected + period && (expected == due || expected <= last + period)
    decreases |arrivals|
  {
    hide NextDue, Selects, Due;
    var a, rest := arrivals[0], arrivals[1..];
    var last := arrivals[|arrivals| - 1].now;
    assert 0 < a.now <= a.noticed;
    OnTimeKeepsTheGrid(due, phase, period, a);
    if rest != [] {
      assert rest[|rest| - 1] == arrivals[|arrivals| - 1] && rest[0].now <= a.now + gap;
      assert a.noticed <= last;
      FullRateIsMet(NextDue(due, phase, period, a), phase, period, rest, gap);
    }
  }

  // ---------------------------------------------------------------------------
  // Preview admission.

  const PREVIEW_MAX_FPS := 30.0

  /** `stamp` is zero while nobody watches. */
  datatype Bucket = Bucket(stamp: nat, tokens: real)
  datatype Glance = Glance(now: nat, watched: bool)

  function Earned(from: nat, until: nat): real {
    if until > from then (until - from) as real * PREVIEW_MAX_FPS / 1000000.0 else 0.0
  }

  function Filled(b: Bucket, now: nat): Bucket {
    if b.stamp == 0 then Bucket(now, 1.0)
    else Bucket(now, if b.tokens + Earned(b.stamp, now) < 2.0 then b.tokens + Earned(b.stamp, now) else 2.0)
  }

  predicate Admits(b: Bucket, g: Glance) { g.watched && Filled(b, g.now).tokens >= 1.0 }

  function Next(b: Bucket, g: Glance): Bucket {
    if !g.watched then Bucket(0, 1.0)
    else
      var f := Filled(b, g.now);
      if f.tokens >= 1.0 then f.(tokens := f.tokens - 1.0) else f
  }

  ghost predicate Watching(glances: seq<Glance>) {
    && (forall i | 0 <= i < |glances| :: 0 < glances[i].now)
    && forall i, j | 0 <= i < j < |glances| :: glances[i].now <= glances[j].now
  }

  function Admitted(b: Bucket, glances: seq<Glance>, lo: nat, hi: nat): nat
    decreases |glances|
  {
    if glances == [] then 0
    else (if lo <= glances[0].now <= hi && Admits(b, glances[0]) then 1 else 0) + Admitted(Next(b, glances[0]), glances[1..], lo, hi)
  }

  /** How often somebody started to watch in the window. */
  function Restarts(b: Bucket, glances: seq<Glance>, lo: nat, hi: nat): nat
    decreases |glances|
  {
    if glances == [] then 0
    else (if lo <= glances[0].now <= hi && glances[0].watched && b.stamp == 0 then 1 else 0) + Restarts(Next(b, glances[0]), glances[1..], lo, hi)
  }

  /** The tokens at hand, if somebody watches. */
  function Held(b: Bucket): real { if b.stamp == 0 then 0.0 else b.tokens }

  lemma {:induction false} NoneAfter(b: Bucket, glances: seq<Glance>, lo: nat, hi: nat)
    requires forall i | 0 <= i < |glances| :: glances[i].now > hi
    ensures Admitted(b, glances, lo, hi) == 0
    decreases |glances|
  {
    if glances != [] {
      NoneAfter(Next(b, glances[0]), glances[1..], lo, hi);
    }
  }

  /** What a glance admits and leaves is no more than what was there, what was earned, and one for a restart. */
  lemma GlanceSpends(b: Bucket, g: Glance, from: nat)
    requires from <= g.now && 0 < g.now && b.tokens >= 0.0 && (b.stamp == 0 || b.stamp == from)
    ensures var n := Next(b, g);
            n.tokens >= 0.0 && (n.stamp == 0 || n.stamp == g.now)
            && (if Admits(b, g) then 1.0 else 0.0) + Held(n)
               <= Held(b) + Earned(from, g.now) + (if g.watched && b.stamp == 0 then 1.0 else 0.0)
  {
  }

  lemma {:induction false} AdmittedSince(b: Bucket, glances: seq<Glance>, from: nat, lo: nat, hi: nat)
    requires Watching(glances) && b.tokens >= 0.0 && (b.stamp == 0 || b.stamp == from)
    requires lo <= from <= hi && (glances != [] ==> from <= glances[0].now)
    ensures Admitted(b, glances, lo, hi) as real <= Held(b) + Earned(from, hi) + Restarts(b, glances, lo, hi) as real
    decreases |glances|
  {
    if glances != [] {
      var g := glances[0];
      if g.now <= hi {
        GlanceSpends(b, g, from);
        AdmittedSince(Next(b, g), glances[1..], g.now, lo, hi);
      } else {
        NoneAfter(b, glances, lo, hi);
      }
    }
  }

  /** The first glance of a window leaves, with what it admits, at most two tokens. */
  lemma FirstGlance(b: Bucket, g: Glance)
    requires 0 < g.now && b.tokens >= 0.0
    ensures var n := Next(b, g);
            n.tokens >= 0.0 && (n.stamp == 0 || n.stamp == g.now) && (if Admits(b, g) then 1.0 else 0.0) + Held(n) <= 2.0
  {
  }

  /** A window of length L admits at most 2 + 30 L frames, and one more for each time somebody starts to watch in it. */
  lemma {:induction false} PreviewIsBounded(b: Bucket, glances: seq<Glance>, lo: nat, hi: nat)
    requires Watching(glances) && b.tokens >= 0.0 && lo <= hi
    ensures Admitted(b, glances, lo, hi) as real <= 2.0 + 30.0 * ((hi - lo) as real / 1000000.0) + Restarts(b, glances, lo, hi) as real
    decreases |glances|
  {
    if glances != [] {
      var g := glances[0];
      FirstGlance(b, g);
      if lo <= g.now <= hi {
        AdmittedSince(Next(b, g), glances[1..], g.now, lo, hi);
      } else {
        PreviewIsBounded(Next(b, g), glances[1..], lo, hi);
      }
    }
  }

  /** Somebody watches, and from one frame to the next it takes a thirtieth of a second at least. */
  ghost predicate Slow(glances: seq<Glance>) {
    && (forall i | 0 <= i < |glances| :: 0 < glances[i].now && glances[i].watched)
    && forall i | 0 <= i < |glances| - 1 :: 30 * (glances[i + 1].now - glances[i].now) >= 1000000
  }

  /** A feed of at most thirty frames per second is previewed whole from the moment somebody watches. */
  lemma {:induction false} SlowFeedIsPreviewed(b: Bucket, glances: seq<Glance>, lo: nat, hi: nat)
    requires Slow(glances) && forall i | 0 <= i < |glances| :: lo <= glances[i].now <= hi
    requires glances != [] ==> Admits(b, glances[0]) && b.tokens >= 0.0
    ensures Admitted(b, glances, lo, hi) == |glances|
    decreases |glances|
  {
    if glances != [] {
      var n, rest := Next(b, glances[0]), glances[1..];
      if rest != [] {
        assert rest[0] == glances[1] && 30 * (glances[1].now - glances[0].now) >= 1000000;
        AThirtiethEarnsOne(n, glances[0].now, rest[0]);
      }
      assert forall i | 0 <= i < |rest| :: rest[i] == glances[i + 1];
      SlowFeedIsPreviewed(n, rest, lo, hi);
    }
  }

  lemma AThirtiethEarnsOne(b: Bucket, from: nat, g: Glance)
    requires b.stamp == from > 0 && b.tokens >= 0.0 && g.watched && 30 * (g.now - from) >= 1000000
    ensures Admits(b, g)
  {
    assert Earned(from, g.now) >= 1.0;
  }

  /** Whoever starts to watch gets the next frame at once. */
  lemma FirstGlanceIsAdmitted(b: Bucket, idle: Glance, g: Glance)
    requires !idle.watched && g.watched && 0 < g.now
    ensures Admits(Next(b, idle), g)
  {
  }

  /** After a fifteenth of a second without a frame two frames at once are previewed, and no third. */
  lemma PauseEarnsTwo(b: Bucket, g: Glance)
    requires 0 < b.stamp && 0.0 <= b.tokens && g.watched && 15 * (g.now - b.stamp) >= 1000000
    ensures Admits(b, g) && Admits(Next(b, g), g) && !Admits(Next(Next(b, g), g), g)
  {
    assert Earned(b.stamp, g.now) >= 2.0;
  }

  // ---------------------------------------------------------------------------
  // The state and its updates.

  class FeedStats {
    var nextDueUs: nat
    var previewTokenTsUs: nat
    var previewTokens: real
    var throttled: nat

    constructor ()
      ensures nextDueUs == 0 && previewTokenTsUs == 0 && previewTokens == 1.0 && throttled == 0
    {
      nextDueUs, previewTokenTsUs, previewTokens, throttled := 0, 0, 1.0, 0;
    }

    /** The selection loop; a channel starts at its place in the display order. */
    method Throttle(nowUs: nat, maxFps: int, displayOrder: int, channels: int) returns (selected: bool)
      requires nowUs > 0
      modifies `nextDueUs, `throttled
      ensures selected == Selects(old(nextDueUs), Phase(Period(maxFps), displayOrder, channels), nowUs)
      ensures nextDueUs == NextDue(old(nextDueUs), Phase(Period(maxFps), displayOrder, channels), Period(maxFps), Arrival(nowUs, false, nowUs))
      ensures throttled == old(throttled) + if selected then 0 else 1
    {
      hide Period;
      ghost var phase := Phase(Period(maxFps), displayOrder, channels);
      var period := Period(maxFps);
      var dueUs := nextDueUs;
      selected := false;
      while true
        invariant throttled == old(throttled) && !selected && dueUs == nextDueUs
        invariant nextDueUs == old(nextDueUs) || (old(nextDueUs) == 0 && nextDueUs == Due(0, phase, nowUs))
        decreases if dueUs == 0 then 1 else 0
      {
        if dueUs == 0 {
          var order := if displayOrder > 0 then displayOrder else 0;
          nextDueUs := nowUs + period * order / (if channels > 1 then channels else 1);
          dueUs := nextDueUs;
          continue;
        }
        if nowUs < dueUs {
          throttled := throttled + 1;
          break;
        }
        nextDueUs := if nowUs > dueUs + period * 2 then nowUs + period / 2 else dueUs + period;
        selected := true;
        break;
      }
    }

    /** A failed hand-over moves the due time to half a period after it is noticed. */
    method EnqueueFailed(noticedUs: nat, maxFps: int, ghost due: nat, ghost phase: nat, ghost nowUs: nat)
      requires Selects(due, phase, nowUs)
      modifies `nextDueUs
      ensures nextDueUs == NextDue(due, phase, Period(maxFps), Arrival(nowUs, true, noticedUs))
    {
      nextDueUs := noticedUs + Period(maxFps) / 2;
    }

    method PreviewDue(nowUs: nat, watched: bool) returns (due: bool)
      requires nowUs > 0
      modifies `previewTokenTsUs, `previewTokens
      ensures Bucket(previewTokenTsUs, previewTokens) == Next(old(Bucket(previewTokenTsUs, previewTokens)), Glance(nowUs, watched))
      ensures due == Admits(old(Bucket(previewTokenTsUs, previewTokens)), Glance(nowUs, watched))
    {
      due := false;
      if watched {
        if previewTokenTsUs == 0 {
          previewTokenTsUs := nowUs;
          previewTokens := 1.0;
        } else {
          var elapsedUs := if nowUs >= previewTokenTsUs then nowUs - previewTokenTsUs else 0;
          previewTokenTsUs := nowUs;
          var refill := elapsedUs as real * PREVIEW_MAX_FPS / 1000000.0;
          previewTokens := if previewTokens + refill < 2.0 then previewTokens + refill else 2.0;
        }
        if previewTokens >= 1.0 {
          previewTokens := previewTokens - 1.0;
          due := true;
        }
      } else {
        previewTokenTsUs := 0;
        previewTokens := 1.0;
      }
    }
  }
}
