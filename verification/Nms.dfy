/**
 * Non-maximum suppression over one list and over the lists of several models at once
 * (engine/src/inference/inference_executor.cpp). The overlap of two boxes is any function, and
 * the sort any function that orders by falling score.
 */
module NonMaximumSuppression {
  datatype Box = Box(x: int, y: int, w: int, h: int)
  datatype Detection = Detection(score: real, kind: int, model: int, depth: bool, box: Box)

  /** Plain uses one threshold; grouped compares within a model and uses that model's threshold. */
  datatype Rule = Plain(threshold: real) | Grouped(thresholds: seq<real>)

  type Overlap = (Box, Box) -> real

  function ThresholdOf(thresholds: seq<real>, model: int): real {
    if 0 <= model < |thresholds| then thresholds[model] else 1.0
  }

  predicate Hits(rule: Rule, iou: Overlap, a: Detection, b: Detection) {
    && !a.depth && !b.depth && a.kind == b.kind
    && match rule
       case Plain(threshold) => iou(a.box, b.box) > threshold
       case Grouped(thresholds) => a.model == b.model && iou(a.box, b.box) > ThresholdOf(thresholds, a.model)
  }

  predicate Beaten(rule: Rule, iou: Overlap, kept: seq<Detection>, d: Detection) {
    exists k | 0 <= k < |kept| :: Hits(rule, iou, kept[k], d)
  }

  /** Each detection in turn stays unless one that stayed before hits it. */
  ghost function Survivors(rule: Rule, iou: Overlap, dets: seq<Detection>): seq<Detection> {
    if dets == [] then []
    else
      var s := Survivors(rule, iou, dets[..|dets| - 1]);
      if Beaten(rule, iou, s, dets[|dets| - 1]) then s else s + [dets[|dets| - 1]]
  }

  ghost predicate Falling(dets: seq<Detection>) {
    forall i, j | 0 <= i < j < |dets| :: dets[i].score >= dets[j].score
  }

  /** What `std::sort` with the falling-score comparison promises. */
  ghost predicate Sorts(sort: seq<Detection> -> seq<Detection>) {
    forall dets :: multiset(sort(dets)) == multiset(dets) && Falling(sort(dets))
  }

  /** `nms_inplace` and `nms_per_model_inplace`: the two differ in the rule alone. */
  method Suppress(given: seq<Detection>, rule: Rule, iou: Overlap, sort: seq<Detection> -> seq<Detection>) returns (out: seq<Detection>)
    requires Sorts(sort)
    ensures out == Survivors(rule, iou, sort(given))
  {
    var dets := sort(given);
    out := [];
    var removed := new bool[|dets|](_ => false);
    for i := 0 to |dets|
      invariant out == Survivors(rule, iou, dets[..i])
      invariant forall j | i <= j < |dets| :: removed[j] == Beaten(rule, iou, out, dets[j])
    {
      assert dets[..i + 1][..i] == dets[..i];
      if removed[i] {
        continue;
      }
      ghost var before := out;
      out := out + [dets[i]];
      for j := i + 1 to |dets|
        invariant forall l | i < l < |dets| :: removed[l] == (Beaten(rule, iou, before, dets[l]) || (l < j && Hits(rule, iou, dets[i], dets[l])))
      {
        if !removed[j] && Hits(rule, iou, dets[i], dets[j]) {
          removed[j] := true;
        }
      }
      forall l | i < l < |dets| ensures removed[l] == Beaten(rule, iou, out, dets[l]) {
        BeatenSnoc(rule, iou, before, dets[i], dets[l]);
      }
    }
    assert dets[..|dets|] == dets;
  }

  lemma BeatenSnoc(rule: Rule, iou: Overlap, s: seq<Detection>, x: Detection, d: Detection)
    ensures Beaten(rule, iou, s + [x], d) <==> Beaten(rule, iou, s, d) || Hits(rule, iou, x, d)
  {
    var after := s + [x];
    assert after[|s|] == x;
    if Beaten(rule, iou, s, d) {
      var k :| 0 <= k < |s| && Hits(rule, iou, s[k], d);
      assert after[k] == s[k];
    }
  }

  // ---------------------------------------------------------------------------
  // What suppression promises.

  lemma {:induction false} SurvivorsAreAmong(rule: Rule, iou: Overlap, dets: seq<Detection>)
    ensures forall k | 0 <= k < |Survivors(rule, iou, dets)| :: Survivors(rule, iou, dets)[k] in dets
    decreases |dets|
  {
    if dets != [] {
      SurvivorsAreAmong(rule, iou, dets[..|dets| - 1]);
      assert forall d | d in dets[..|dets| - 1] :: d in dets;
    }
  }

  /** No detection that stayed is hit by an earlier one that stayed. */
  lemma {:induction false} KeptNeverOverlap(rule: Rule, iou: Overlap, dets: seq<Detection>, a: nat, b: nat)
    requires a < b < |Survivors(rule, iou, dets)|
    ensures !Hits(rule, iou, Survivors(rule, iou, dets)[a], Survivors(rule, iou, dets)[b])
    decreases |dets|
  {
    var s := Survivors(rule, iou, dets[..|dets| - 1]);
    if b < |s| {
      KeptNeverOverlap(rule, iou, dets[..|dets| - 1], a, b);
    }
  }

  ghost predicate HitByBetter(rule: Rule, iou: Overlap, kept: seq<Detection>, d: Detection) {
    exists k | 0 <= k < |kept| :: Hits(rule, iou, kept[k], d) && kept[k].score >= d.score
  }

  /** Every detection stayed, or was hit by one that stayed and scores no less. */
  lemma {:induction false} DroppedWasHit(rule: Rule, iou: Overlap, dets: seq<Detection>, j: nat)
    requires Falling(dets) && j < |dets|
    ensures dets[j] in Survivors(rule, iou, dets) || HitByBetter(rule, iou, Survivors(rule, iou, dets), dets[j])
    decreases |dets|
  {
    var front, x := dets[..|dets| - 1], dets[|dets| - 1];
    var s := Survivors(rule, iou, front);
    if j < |front| {
      DroppedWasHit(rule, iou, front, j);
      assert dets[j] == front[j];
      if HitByBetter(rule, iou, s, front[j]) {
        var k :| 0 <= k < |s| && Hits(rule, iou, s[k], front[j]) && s[k].score >= front[j].score;
        assert Survivors(rule, iou, dets)[k] == s[k];
      }
    } else if Beaten(rule, iou, s, x) {
      var k :| 0 <= k < |s| && Hits(rule, iou, s[k], x);
      SurvivorsAreAmong(rule, iou, front);
      assert s[k] in front;
    } else {
      assert Survivors(rule, iou, dets)[|s|] == x;
    }
  }

  /** Two detections that suppression may set against each other: of one kind, neither a depth result. */
  predicate Comparable(a: Detection, b: Detection) { !a.depth && !b.depth && a.kind == b.kind }

  /** Of the kept detections of one kind, a later one overlaps an earlier one by no more than the threshold. */
  lemma KeptStayBelow(threshold: real, iou: Overlap, dets: seq<Detection>, a: nat, b: nat)
    requires a < b < |Survivors(Plain(threshold), iou, dets)|
    ensures var kept := Survivors(Plain(threshold), iou, dets);
            Comparable(kept[a], kept[b]) ==> iou(kept[a].box, kept[b].box) <= threshold
  {
    KeptNeverOverlap(Plain(threshold), iou, dets, a, b);
  }

  /** The same within each model, with that model's threshold. */
  lemma KeptStayBelowPerModel(thresholds: seq<real>, iou: Overlap, dets: seq<Detection>, a: nat, b: nat)
    requires a < b < |Survivors(Grouped(thresholds), iou, dets)|
    ensures var kept := Survivors(Grouped(thresholds), iou, dets);
            Comparable(kept[a], kept[b]) && kept[a].model == kept[b].model && 0 <= kept[a].model < |thresholds| ==>
              iou(kept[a].box, kept[b].box) <= thresholds[kept[a].model]
  {
    KeptNeverOverlap(Grouped(thresholds), iou, dets, a, b);
  }

  /** Whatever is dropped overlaps a kept detection of its kind, no less sure, by more than the threshold. */
  lemma DroppedWasCovered(threshold: real, iou: Overlap, dets: seq<Detection>, j: nat)
    requires Falling(dets) && j < |dets| && dets[j] !in Survivors(Plain(threshold), iou, dets)
    ensures exists d | d in Survivors(Plain(threshold), iou, dets) ::
              Comparable(d, dets[j]) && d.score >= dets[j].score && iou(d.box, dets[j].box) > threshold
  {
    DroppedWasHit(Plain(threshold), iou, dets, j);
    var kept := Survivors(Plain(threshold), iou, dets);
    var k :| 0 <= k < |kept| && Hits(Plain(threshold), iou, kept[k], dets[j]) && kept[k].score >= dets[j].score;
    assert kept[k] in kept;
  }

  lemma DroppedWasCoveredPerModel(thresholds: seq<real>, iou: Overlap, dets: seq<Detection>, j: nat)
    requires Falling(dets) && j < |dets| && dets[j] !in Survivors(Grouped(thresholds), iou, dets)
    ensures exists d | d in Survivors(Grouped(thresholds), iou, dets) ::
              Comparable(d, dets[j]) && d.model == dets[j].model && d.score >= dets[j].score
              && iou(d.box, dets[j].box) > if 0 <= d.model < |thresholds| then thresholds[d.model] else 1.0
  {
    DroppedWasHit(Grouped(thresholds), iou, dets, j);
    var kept := Survivors(Grouped(thresholds), iou, dets);
    var k :| 0 <= k < |kept| && Hits(Grouped(thresholds), iou, kept[k], dets[j]) && kept[k].score >= dets[j].score;
    assert kept[k] in kept;
  }

  function OfKind(dets: seq<Detection>, kind: int): seq<Detection> {
    if dets == [] then []
    else OfKind(dets[..|dets| - 1], kind) + (if dets[|dets| - 1].kind == kind then [dets[|dets| - 1]] else [])
  }

  lemma OfKindSnoc(s: seq<Detection>, x: Detection, kind: int)
    ensures OfKind(s + [x], kind) == OfKind(s, kind) + (if x.kind == kind then [x] else [])
  {
    assert (s + [x])[..|s|] == s;
  }

  lemma {:induction false} BeatenWithinKind(rule: Rule, iou: Overlap, s: seq<Detection>, d: Detection)
    ensures Beaten(rule, iou, s, d) <==> Beaten(rule, iou, OfKind(s, d.kind), d)
    decreases |s|
  {
    if s != [] {
      var front, x := s[..|s| - 1], s[|s| - 1];
      BeatenWithinKind(rule, iou, front, d);
      assert s == front + [x];
      BeatenSnoc(rule, iou, front, x, d);
      BeatenSnoc(rule, iou, OfKind(front, d.kind), x, d);
      assert OfKind(s, d.kind) == if x.kind == d.kind then OfKind(front, d.kind) + [x] else OfKind(front, d.kind);
    }
  }

  /** Kinds do not interfere: of one kind stays what stays of that kind alone. */
  lemma {:induction false} KindsDoNotInterfere(rule: Rule, iou: Overlap, dets: seq<Detection>, kind: int)
    ensures OfKind(Survivors(rule, iou, dets), kind) == Survivors(rule, iou, OfKind(dets, kind))
    decreases |dets|
  {
    if dets != [] {
      var front, x := dets[..|dets| - 1], dets[|dets| - 1];
      var s := Survivors(rule, iou, front);
      KindsDoNotInterfere(rule, iou, front, kind);
      OfKindSnoc(s, x, kind);
      if x.kind == kind {
        BeatenWithinKind(rule, iou, s, x);
        assert (OfKind(front, kind) + [x])[..|OfKind(front, kind)|] == OfKind(front, kind);
      } else {
        assert OfKind(dets, kind) == OfKind(front, kind);
      }
    }
  }

  function Depths(dets: seq<Detection>): seq<Detection> {
    if dets == [] then []
    else Depths(dets[..|dets| - 1]) + (if dets[|dets| - 1].depth then [dets[|dets| - 1]] else [])
  }

  lemma DepthsSnoc(s: seq<Detection>, x: Detection)
    ensures Depths(s + [x]) == Depths(s) + (if x.depth then [x] else [])
  {
    assert (s + [x])[..|s|] == s;
  }

  /** Depth results all stay, in order. */
  lemma {:induction false} DepthIsNeverDropped(rule: Rule, iou: Overlap, dets: seq<Detection>)
    ensures Depths(Survivors(rule, iou, dets)) == Depths(dets)
    decreases |dets|
  {
    if dets != [] {
      DepthIsNeverDropped(rule, iou, dets[..|dets| - 1]);
      DepthsSnoc(Survivors(rule, iou, dets[..|dets| - 1]), dets[|dets| - 1]);
    }
  }

  /** The result is ordered like the input. */
  lemma {:induction false} SurvivorsFall(rule: Rule, iou: Overlap, dets: seq<Detection>)
    requires Falling(dets)
    ensures Falling(Survivors(rule, iou, dets))
    decreases |dets|
  {
    if dets != [] {
      var front := dets[..|dets| - 1];
      var s := Survivors(rule, iou, front);
      SurvivorsFall(rule, iou, front);
      SurvivorsAreAmong(rule, iou, front);
      forall k | 0 <= k < |s| ensures s[k].score >= dets[|dets| - 1].score {
        assert s[k] in front;
      }
    }
  }

  /** Suppressing twice is suppressing once. */
  lemma {:induction false} SuppressionIsIdempotent(rule: Rule, iou: Overlap, dets: seq<Detection>)
    ensures Survivors(rule, iou, Survivors(rule, iou, dets)) == Survivors(rule, iou, dets)
    decreases |dets|
  {
    if dets != [] {
      var s, x := Survivors(rule, iou, dets[..|dets| - 1]), dets[|dets| - 1];
      SuppressionIsIdempotent(rule, iou, dets[..|dets| - 1]);
      assert (s + [x])[..|s|] == s;
    }
  }

  // ---------------------------------------------------------------------------
  // Grouping by model is the same as suppressing each model's results alone.

  function Only(dets: seq<Detection>, model: int): seq<Detection> {
    if dets == [] then []
    else Only(dets[..|dets| - 1], model) + (if dets[|dets| - 1].model == model then [dets[|dets| - 1]] else [])
  }

  lemma OnlySnoc(s: seq<Detection>, x: Detection, model: int)
    ensures Only(s + [x], model) == Only(s, model) + (if x.model == model then [x] else [])
  {
    assert (s + [x])[..|s|] == s;
  }

  lemma {:induction false} BeatenWithinModel(thresholds: seq<real>, iou: Overlap, s: seq<Detection>, d: Detection)
    ensures Beaten(Grouped(thresholds), iou, s, d)
       <==> Beaten(Plain(ThresholdOf(thresholds, d.model)), iou, Only(s, d.model), d)
    decreases |s|
  {
    if s != [] {
      var front, x := s[..|s| - 1], s[|s| - 1];
      BeatenWithinModel(thresholds, iou, front, d);
      assert s == front + [x];
      BeatenSnoc(Grouped(thresholds), iou, front, x, d);
      BeatenSnoc(Plain(ThresholdOf(thresholds, d.model)), iou, Only(front, d.model), x, d);
      assert Only(s, d.model) == if x.model == d.model then Only(front, d.model) + [x] else Only(front, d.model);
    }
  }

  /** Of one model's results, the grouped run keeps what a plain run on them alone keeps. */
  lemma {:induction false} GroupedIsPlainPerModel(thresholds: seq<real>, iou: Overlap, dets: seq<Detection>, model: int)
    ensures Only(Survivors(Grouped(thresholds), iou, dets), model)
         == Survivors(Plain(ThresholdOf(thresholds, model)), iou, Only(dets, model))
    decreases |dets|
  {
    if dets != [] {
      var front, x := dets[..|dets| - 1], dets[|dets| - 1];
      var s := Survivors(Grouped(thresholds), iou, front);
      GroupedIsPlainPerModel(thresholds, iou, front, model);
      OnlySnoc(s, x, model);
      if x.model == model {
        BeatenWithinModel(thresholds, iou, s, x);
        assert (Only(front, model) + [x])[..|Only(front, model)|] == Only(front, model);
      } else {
        assert Only(dets, model) == Only(front, model);
      }
    }
  }

  /** One model's part of the sorted list is that model's results, sorted. */
  lemma {:induction false} PartOfSortedIsSorted(dets: seq<Detection>, model: int)
    requires Falling(dets)
    ensures Falling(Only(dets, model))
    ensures forall k | 0 <= k < |Only(dets, model)| :: Only(dets, model)[k] in dets
    decreases |dets|
  {
    if dets != [] {
      var front := dets[..|dets| - 1];
      PartOfSortedIsSorted(front, model);
      forall k | 0 <= k < |Only(front, model)|
        ensures Only(front, model)[k].score >= dets[|dets| - 1].score && Only(front, model)[k] in dets
      {
        assert Only(front, model)[k] in front;
      }
    }
  }

  lemma {:induction false} PartCounts(dets: seq<Detection>, model: int, d: Detection)
    ensures multiset(Only(dets, model))[d] == if d.model == model then multiset(dets)[d] else 0
    decreases |dets|
  {
    if dets != [] {
      PartCounts(dets[..|dets| - 1], model, d);
      assert dets == dets[..|dets| - 1] + [dets[|dets| - 1]];
    }
  }

  lemma SortThenPick(given: seq<Detection>, sort: seq<Detection> -> seq<Detection>, model: int)
    requires Sorts(sort)
    ensures Falling(Only(sort(given), model))
    ensures multiset(Only(sort(given), model)) == multiset(Only(given, model))
  {
    assert multiset(sort(given)) == multiset(given) && Falling(sort(given));
    PartOfSortedIsSorted(sort(given), model);
    forall d: Detection ensures multiset(Only(sort(given), model))[d] == multiset(Only(given, model))[d] {
      PartCounts(sort(given), model, d);
      PartCounts(given, model, d);
    }
  }

  /** A model without a threshold of its own loses nothing, as an overlap never exceeds one. */
  lemma {:induction false} UnknownModelKeepsAll(thresholds: seq<real>, iou: Overlap, dets: seq<Detection>, model: int)
    requires !(0 <= model < |thresholds|) && forall a: Box, b: Box :: iou(a, b) <= 1.0
    ensures Only(Survivors(Grouped(thresholds), iou, dets), model) == Only(dets, model)
    decreases |dets|
  {
    if dets != [] {
      UnknownModelKeepsAll(thresholds, iou, dets[..|dets| - 1], model);
      OnlySnoc(Survivors(Grouped(thresholds), iou, dets[..|dets| - 1]), dets[|dets| - 1], model);
    }
  }
}
