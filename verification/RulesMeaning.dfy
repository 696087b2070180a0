/**
 * What a dataset condition asks of the boxes of a frame (engine/src/dataset/rules.cpp): the
 * spatial relations on points and areas, and the quantifiers on the detections themselves.
 */
module RulesMeaning {
  import opened SetFacts
  import opened BipartiteMatching
  import opened DatasetRules

  datatype Point = Point(x: real, y: real)

  /** An interval of one coordinate, without its upper end. */
  datatype Span = Span(lo: real, hi: real)

  /** Finite coordinates and a positive extent. */
  predicate Proper(d: Detection) {
    && d.x.Finite? && d.y.Finite? && d.width.Finite? && d.height.Finite?
    && 0.0 < d.width.value && 0.0 < d.height.value
  }

  function Across(d: Detection): Span
    requires Proper(d)
  {
    Span(d.x.value, d.x.value + d.width.value)
  }

  function Down(d: Detection): Span
    requires Proper(d)
  {
    Span(d.y.value, d.y.value + d.height.value)
  }

  function Middle(s: Span): real { (s.lo + s.hi) / 2.0 }
  function Length(s: Span): real { if s.lo < s.hi then s.hi - s.lo else 0.0 }
  function Common(s: Span, t: Span): Span { Span(if s.lo < t.lo then t.lo else s.lo, if s.hi < t.hi then s.hi else t.hi) }
  predicate Within(v: real, s: Span) { s.lo <= v < s.hi }

  function Centre(d: Detection): Point
    requires Proper(d)
  {
    Point(Middle(Across(d)), Middle(Down(d)))
  }

  /** The point belongs to the box. */
  predicate In(p: Point, d: Detection)
    requires Proper(d)
  {
    Within(p.x, Across(d)) && Within(p.y, Down(d))
  }

  function Area(d: Detection): real
    requires Proper(d)
  {
    Length(Across(d)) * Length(Down(d))
  }

  /** The area of the points that belong to both boxes. */
  function CommonArea(a: Detection, b: Detection): real
    requires Proper(a) && Proper(b)
  {
    Length(Common(Across(a), Across(b))) * Length(Common(Down(a), Down(b)))
  }

  function SquaredDistance(p: Point, q: Point): real { (q.x - p.x) * (q.x - p.x) + (q.y - p.y) * (q.y - p.y) }

  // ---------------------------------------------------------------------------
  // The spatial relations.

  lemma ProperIsValid(d: Detection)
    ensures Proper(d) <==> ValidBox(d)
  {
  }

  lemma CommonIsIntersection(a: Detection, b: Detection, p: Point)
    requires Proper(a) && Proper(b)
    ensures In(p, a) && In(p, b) <==> Within(p.x, Common(Across(a), Across(b))) && Within(p.y, Common(Down(a), Down(b)))
  {
  }

  /** Containment is about the centre of the one box and the points of the other. */
  lemma CenterInsideIff(a: Detection, b: Detection, c: Pairing)
    requires Proper(a) && Proper(b)
    ensures c.relation == CenterInside ==> (Related(a, b, c) <==> In(Centre(b), a))
    ensures c.relation == SubjectCenterInside ==> (Related(a, b, c) <==> In(Centre(a), b))
  {
    MiddleOfExtent(a.x.value, a.width.value);
    MiddleOfExtent(a.y.value, a.height.value);
    MiddleOfExtent(b.x.value, b.width.value);
    MiddleOfExtent(b.y.value, b.height.value);
    hide Middle;
  }

  lemma MiddleOfExtent(lo: real, extent: real)
    ensures Middle(Span(lo, lo + extent)) == lo + extent / 2.0
  {
  }

  /** Nearness is about the distance of the centres and the diagonal of the subject. */
  lemma NearIff(a: Detection, b: Detection, c: Pairing)
    requires Proper(a) && Proper(b) && c.relation == Near
    ensures Related(a, b, c) <==>
              SquaredDistance(Centre(a), Centre(b))
              <= c.maxDistance * c.maxDistance * SquaredDistance(Point(Across(a).lo, Down(a).lo), Point(Across(a).hi, Down(a).hi))
  {
    MiddleOfExtent(a.x.value, a.width.value);
    MiddleOfExtent(a.y.value, a.height.value);
    MiddleOfExtent(b.x.value, b.width.value);
    MiddleOfExtent(b.y.value, b.height.value);
    hide Middle;
    assert b.x.value + b.width.value / 2.0 - a.x.value - a.width.value / 2.0 == Centre(b).x - Centre(a).x;
    assert b.y.value + b.height.value / 2.0 - a.y.value - a.height.value / 2.0 == Centre(b).y - Centre(a).y;
    assert Across(a).hi - Across(a).lo == a.width.value && Down(a).hi - Down(a).lo == a.height.value;
  }

  lemma QuotientAtLeast(n: real, d: real, m: real)
    requires d > 0.0
    ensures n / d >= m <==> n >= m * d
  {
    var q := n / d;
    assert q * d == n;
    assert n - m * d == (q - m) * d;
  }

  lemma AreaIsProduct(d: Detection)
    requires Proper(d)
    ensures Area(d) == d.width.value * d.height.value && Area(d) > 0.0
  {
    assert Length(Across(d)) == d.width.value && Length(Down(d)) == d.height.value;
  }

  lemma LengthIsClamped(s: Span, t: Span)
    ensures Length(Common(s, t)) == Max(0.0, Min(s.hi, t.hi) - Max(s.lo, t.lo))
  {
  }

  /** Whose area an overlap is measured against. */
  function Measured(a: Detection, b: Detection, c: Pairing): Detection { if c.relation == SubjectOverlap then a else b }

  lemma OverlapIsShare(a: Detection, b: Detection, c: Pairing)
    requires Proper(a) && Proper(b) && (c.relation == Overlap || c.relation == SubjectOverlap)
    ensures Related(a, b, c) <==>
              Share(Length(Common(Across(a), Across(b))), Length(Common(Down(a), Down(b))), Measured(a, b, c)) >= c.minOverlap
  {
    hide Length, Common, Share;
    LengthIsClamped(Across(a), Across(b));
    LengthIsClamped(Down(a), Down(b));
  }

  lemma ShareAtLeast(w: real, h: real, d: Detection, m: real)
    requires Proper(d)
    ensures Share(w, h, d) >= m <==> w * h >= m * Area(d)
  {
    AreaIsProduct(d);
    var n, area := w * h, d.width.value * d.height.value;
    hide Area;
    QuotientAtLeast(n, area, m);
  }

  /** The area common to `a` and `b` is at least the part `m` of the area of `d`. */
  predicate SharesOf(a: Detection, b: Detection, d: Detection, m: real)
    requires Proper(a) && Proper(b) && Proper(d)
  {
    CommonArea(a, b) >= m * Area(d)
  }

  lemma ShareIsOfArea(a: Detection, b: Detection, d: Detection, m: real)
    requires Proper(a) && Proper(b) && Proper(d)
    ensures Share(Length(Common(Across(a), Across(b))), Length(Common(Down(a), Down(b))), d) >= m <==> SharesOf(a, b, d, m)
  {
    hide Area, Share, Length, Common;
    ShareAtLeast(Length(Common(Across(a), Across(b))), Length(Common(Down(a), Down(b))), d, m);
  }

  /** Overlap is about the common area and the area of the object, or of the subject. */
  lemma OverlapIff(a: Detection, b: Detection, c: Pairing)
    requires Proper(a) && Proper(b)
    ensures c.relation == Overlap ==> (Related(a, b, c) <==> SharesOf(a, b, b, c.minOverlap))
    ensures c.relation == SubjectOverlap ==> (Related(a, b, c) <==> SharesOf(a, b, a, c.minOverlap))
  {
    hide Related, SharesOf, Share, Length, Common;
    if c.relation == Overlap || c.relation == SubjectOverlap {
      OverlapIsShare(a, b, c);
      ShareIsOfArea(a, b, Measured(a, b, c), c.minOverlap);
    }
  }

  predicate Inside(inner: Detection, outer: Detection)
    requires Proper(inner) && Proper(outer)
  {
    && Across(outer).lo <= Across(inner).lo && Across(inner).hi <= Across(outer).hi
    && Down(outer).lo <= Down(inner).lo && Down(inner).hi <= Down(outer).hi
  }

  /** A box inside the other overlaps by the whole of it. */
  lemma InsideOverlaps(a: Detection, b: Detection, c: Pairing)
    requires Proper(a) && Proper(b) && c.minOverlap <= 1.0
    requires (c.relation == Overlap && Inside(b, a)) || (c.relation == SubjectOverlap && Inside(a, b))
    ensures Related(a, b, c)
  {
    OverlapIff(a, b, c);
    var inner := if c.relation == Overlap then b else a;
    AreaIsProduct(inner);
    assert CommonArea(a, b) == Area(inner);
    assert (1.0 - c.minOverlap) * Area(inner) >= 0.0;
  }

  /** What overlaps has a point in common. */
  lemma OverlapMeansCommonPoint(a: Detection, b: Detection, c: Pairing) returns (p: Point)
    requires Proper(a) && Proper(b) && c.minOverlap > 0.0 && (c.relation == Overlap || c.relation == SubjectOverlap)
    requires Related(a, b, c)
    ensures In(p, a) && In(p, b)
  {
    OverlapIff(a, b, c);
    AreaIsProduct(a);
    AreaIsProduct(b);
    assert c.minOverlap * Area(a) > 0.0 && c.minOverlap * Area(b) > 0.0;
    p := Point(Common(Across(a), Across(b)).lo, Common(Down(a), Down(b)).lo);
    var w, h := Length(Common(Across(a), Across(b))), Length(Common(Down(a), Down(b)));
    assert w * h > 0.0;
    assert w > 0.0 && h > 0.0;
    CommonIsIntersection(a, b, p);
  }

  // ---------------------------------------------------------------------------
  // The quantifiers.

  predicate SubjectBox(d: Detection, p: Pairing) {
    Proper(d) && d.inScope && d.name == p.subject.name && d.score >= p.subject.confidence
  }

  predicate ObjectBox(d: Detection, p: Pairing) {
    Proper(d) && exists k | 0 <= k < |p.objects| :: d.name == p.objects[k].name && d.score >= p.objects[k].confidence
  }

  /** Position `j` holds an object for the subject at position `i`. */
  predicate Pair(ds: seq<Detection>, p: Pairing, i: nat, j: nat) {
    i < |ds| && j < |ds| && i != j && SubjectBox(ds[i], p) && ObjectBox(ds[j], p) && Related(ds[i], ds[j], p)
  }

  ghost predicate HasObject(ds: seq<Detection>, p: Pairing, i: nat) { exists j: nat :: Pair(ds, p, i, j) }
  predicate IsSubjectAt(ds: seq<Detection>, p: Pairing, i: nat) { i < |ds| && SubjectBox(ds[i], p) }

  lemma BoxesAreRoles(ds: seq<Detection>, p: Pairing)
    ensures forall i: nat :: i in Subjects(ds, p) <==> IsSubjectAt(ds, p, i)
    ensures forall i: nat, j: nat :: (i, j) in Links(ds, p) <==> Pair(ds, p, i, j)
    ensures forall i: nat, j: nat | i < |ds| :: j in Reach(ds, p, i) <==> Pair(ds, p, i, j)
  {
    forall d: Detection ensures SubjectBox(d, p) <==> IsSubject(d, p) {
      ProperIsValid(d);
    }
    forall d: Detection ensures ObjectBox(d, p) <==> IsObject(d, p) {
      ProperIsValid(d);
      if exists k | 0 <= k < |p.objects| :: Hits(d, p.objects[k]) {
        var k :| 0 <= k < |p.objects| && Hits(d, p.objects[k]);
        assert d.name == p.objects[k].name && d.score >= p.objects[k].confidence;
      }
    }
    forall i: nat, j: nat | i < |ds| && j < |ds| ensures Linked(ds, p, i, j) <==> Pair(ds, p, i, j) {
    }
  }

  lemma ReachIsObjects(ds: seq<Detection>, p: Pairing, i: nat)
    requires i < |ds|
    ensures |Reach(ds, p, i)| > 0 <==> HasObject(ds, p, i)
  {
    BoxesAreRoles(ds, p);
    if |Reach(ds, p, i)| > 0 {
      var j :| j in Reach(ds, p, i);
      assert Pair(ds, p, i, j);
    } else {
      assert Reach(ds, p, i) == {};
    }
  }

  /** Some subject has an object, matched one to one or not. */
  lemma AnyMatchedIff(ds: seq<Detection>, p: Pairing)
    requires p.state == Matched && p.quantifier == AnySubject
    ensures Holds(Association(p), ds) <==> exists i: nat, j: nat :: Pair(ds, p, i, j)
  {
    BoxesAreRoles(ds, p);
    MatchedAtMostSubjects(ds, p);
    if i: nat, j: nat :| Pair(ds, p, i, j) {
      assert i in Subjects(ds, p);
      SomeLinkCounts(ds, p, i, j);
    } else {
      NoLinkCounts(ds, p);
    }
  }

  lemma SomeLinkCounts(ds: seq<Detection>, p: Pairing, i: nat, j: nat)
    requires p.state == Matched && Pair(ds, p, i, j)
    ensures AssociatedCount(ds, p) > 0
  {
    BoxesAreRoles(ds, p);
    if p.oneToOne {
      assert MatchingOf({(i, j)}, Links(ds, p));
    } else {
      ReachIsObjects(ds, p, i);
      assert i in ChosenSubjects(ds, p);
    }
  }

  lemma NoLinkCounts(ds: seq<Detection>, p: Pairing)
    requires p.state == Matched && forall i: nat, j: nat :: !Pair(ds, p, i, j)
    ensures AssociatedCount(ds, p) == 0
  {
    BoxesAreRoles(ds, p);
    if p.oneToOne {
      var m := LargestMatching(Links(ds, p));
      assert m == {};
    } else {
      forall i: nat | i < |ds| ensures i !in ChosenSubjects(ds, p) {
        ReachIsObjects(ds, p, i);
      }
      assert ChosenSubjects(ds, p) == {};
    }
  }

  /** The case of containment, on coordinates alone. */
  lemma SomeCenterInsideIff(ds: seq<Detection>, p: Pairing)
    requires p.state == Matched && p.quantifier == AnySubject && p.relation == CenterInside
    ensures Holds(Association(p), ds) <==>
              exists i: nat, j: nat | i < |ds| && j < |ds| ::
                i != j && SubjectBox(ds[i], p) && ObjectBox(ds[j], p) && In(Centre(ds[j]), ds[i])
  {
    AnyMatchedIff(ds, p);
    forall i: nat, j: nat | i < |ds| && j < |ds| && SubjectBox(ds[i], p) && ObjectBox(ds[j], p)
      ensures Related(ds[i], ds[j], p) <==> In(Centre(ds[j]), ds[i])
    {
      CenterInsideIff(ds[i], ds[j], p);
    }
    if i: nat, j: nat :| Pair(ds, p, i, j) {
      assert In(Centre(ds[j]), ds[i]);
    }
    if i: nat, j: nat :| i < |ds| && j < |ds| && i != j && SubjectBox(ds[i], p) && ObjectBox(ds[j], p) && In(Centre(ds[j]), ds[i]) {
      assert Pair(ds, p, i, j);
    }
  }

  lemma ChosenHaveObjects(ds: seq<Detection>, p: Pairing)
    requires p.state != CountObjects
    ensures forall i: nat :: i in ChosenSubjects(ds, p) <==> IsSubjectAt(ds, p, i) && HasObject(ds, p, i)
  {
    BoxesAreRoles(ds, p);
    forall i: nat | i < |ds| ensures |Reach(ds, p, i)| > 0 <==> HasObject(ds, p, i) {
      ReachIsObjects(ds, p, i);
    }
  }

  lemma SubsetIsAll<T>(a: set<T>, b: set<T>)
    requires a <= b
    ensures |a| <= |b| && (|a| == |b| <==> a == b)
  {
    SubsetSize(a, b);
    if |a| == |b| {
      assert b == a + (b - a);
      assert b - a == {};
    }
  }

  lemma CountsOfSubjects(ds: seq<Detection>, p: Pairing)
    requires p.state != CountObjects
    ensures var all, chosen := |Subjects(ds, p)|, |ChosenSubjects(ds, p)|;
            && chosen <= all
            && (all > 0 <==> exists i: nat :: IsSubjectAt(ds, p, i))
            && (chosen > 0 <==> exists i: nat | IsSubjectAt(ds, p, i) :: HasObject(ds, p, i))
            && (chosen == all <==> forall i: nat | IsSubjectAt(ds, p, i) :: HasObject(ds, p, i))
  {
    BoxesAreRoles(ds, p);
    ChosenHaveObjects(ds, p);
    var all, chosen := Subjects(ds, p), ChosenSubjects(ds, p);
    hide Subjects, ChosenSubjects, IsSubjectAt, HasObject, Links, Reach, Pair;
    SubsetIsAll(chosen, all);
    if all != {} {
      var i :| i in all;
    }
    if chosen != {} {
      var i :| i in chosen;
    }
  }

  /** Without one-to-one matching a subject counts exactly if it has an object. */
  lemma PlainQuantifiersIff(ds: seq<Detection>, p: Pairing)
    requires !p.oneToOne && p.state != CountObjects && p.quantifier != CountSubjects
    ensures Holds(Association(p), ds) <==>
              && (exists i: nat :: IsSubjectAt(ds, p, i))
              && match (p.state, p.quantifier)
                 case (Matched, AllSubjects) => forall i: nat | IsSubjectAt(ds, p, i) :: HasObject(ds, p, i)
                 case (Matched, _) => exists i: nat | IsSubjectAt(ds, p, i) :: HasObject(ds, p, i)
                 case (_, AllSubjects) => !exists i: nat | IsSubjectAt(ds, p, i) :: HasObject(ds, p, i)
                 case (_, _) => !forall i: nat | IsSubjectAt(ds, p, i) :: HasObject(ds, p, i)
  {
    CountsOfSubjects(ds, p);
    hide Subjects, ChosenSubjects, IsSubjectAt, HasObject;
  }

  /** One to one, all subjects are matched exactly if an assignment serves them all. */
  lemma AllMatchedIff(ds: seq<Detection>, p: Pairing)
    requires p.state == Matched && p.oneToOne && p.quantifier == AllSubjects
    ensures Holds(Association(p), ds) <==> Subjects(ds, p) != {} && exists m :: FullAssignment(ds, p, m)
  {
    MatchedAtMostSubjects(ds, p);
    var m := LargestMatching(Links(ds, p));
    MatchingLeftSize(m, Subjects(ds, p));
    if |m| == |Subjects(ds, p)| {
      assert FullAssignment(ds, p, m);
    }
    forall w | FullAssignment(ds, p, w) ensures |Subjects(ds, p)| <= |w| <= |m| {
      LeftsSize(w, Subjects(ds, p));
    }
  }

  ghost function ObjectsAt(ds: seq<Detection>, p: Pairing, i: nat): set<nat> { set j: nat | j < |ds| && Pair(ds, p, i, j) }

  /** Counting objects, each subject is held against the number of its own. */
  lemma ObjectCountsIff(ds: seq<Detection>, p: Pairing)
    requires p.state == CountObjects && p.quantifier == AnySubject
    ensures Holds(Association(p), ds) <==>
              exists i: nat | IsSubjectAt(ds, p, i) :: Compare(|ObjectsAt(ds, p, i)|, p.objectOp, p.objectCount)
  {
    BoxesAreRoles(ds, p);
    forall i: nat | i < |ds| ensures ObjectsAt(ds, p, i) == Reach(ds, p, i) {}
    var chosen := ChosenSubjects(ds, p);
    if i: nat :| i in chosen {
      SubsetSize(chosen, Subjects(ds, p));
      assert IsSubjectAt(ds, p, i);
    } else {
      assert chosen == {};
    }
    if i: nat :| IsSubjectAt(ds, p, i) && Compare(|ObjectsAt(ds, p, i)|, p.objectOp, p.objectCount) {
      assert i in chosen;
    }
  }

  // ---------------------------------------------------------------------------
  // Counting.

  predicate Sighted(ds: seq<Detection>, t: Target, i: nat) {
    i < |ds| && ds[i].inScope && ds[i].name == t.name && ds[i].score >= t.confidence
  }

  /** `n` different detections in scope are of the target's kind and sure enough. */
  ghost predicate AtLeast(ds: seq<Detection>, t: Target, n: nat) {
    exists s: set<nat> :: |s| == n && forall i | i in s :: Sighted(ds, t, i)
  }

  lemma {:induction false} TakeSome(s: set<nat>, n: nat) returns (part: set<nat>)
    requires n <= |s|
    ensures part <= s && |part| == n
    decreases |s|
  {
    if n == |s| {
      part := s;
    } else {
      var x :| x in s;
      part := TakeSome(s - {x}, n);
    }
  }

  lemma AtLeastIsCount(ds: seq<Detection>, t: Target, n: nat)
    ensures AtLeast(ds, t, n) <==> HitCount(ds, t) >= n
  {
    if s: set<nat> :| |s| == n && forall i | i in s :: Sighted(ds, t, i) {
      assert s <= ScopedHits(ds, t);
      SubsetSize(s, ScopedHits(ds, t));
    }
    if HitCount(ds, t) >= n {
      var part := TakeSome(ScopedHits(ds, t), n);
      assert forall i | i in part :: Sighted(ds, t, i);
    }
  }

  /** The six comparisons of a count, said with "at least". */
  lemma LeafCountsIff(ds: seq<Detection>, t: Target, n: nat)
    ensures Holds(Leaf(t, Ge, n), ds) <==> AtLeast(ds, t, n)
    ensures Holds(Leaf(t, Gt, n), ds) <==> AtLeast(ds, t, n + 1)
    ensures Holds(Leaf(t, Lt, n), ds) <==> !AtLeast(ds, t, n)
    ensures Holds(Leaf(t, Le, n), ds) <==> !AtLeast(ds, t, n + 1)
    ensures Holds(Leaf(t, Eq, n), ds) <==> AtLeast(ds, t, n) && !AtLeast(ds, t, n + 1)
    ensures Holds(Leaf(t, Ne, n), ds) <==> !(AtLeast(ds, t, n) && !AtLeast(ds, t, n + 1))
  {
    AtLeastIsCount(ds, t, n);
    AtLeastIsCount(ds, t, n + 1);
  }

  /** There is more of the one than of the other. */
  lemma MoreOfOneIff(ds: seq<Detection>, l: Target, r: Target)
    ensures Holds(CompareCounts(l, r, Gt), ds) <==> exists n: nat :: AtLeast(ds, l, n) && !AtLeast(ds, r, n)
  {
    if Holds(CompareCounts(l, r, Gt), ds) {
      AtLeastIsCount(ds, l, HitCount(ds, l));
      AtLeastIsCount(ds, r, HitCount(ds, l));
    }
    if n: nat :| AtLeast(ds, l, n) && !AtLeast(ds, r, n) {
      AtLeastIsCount(ds, l, n);
      AtLeastIsCount(ds, r, n);
    }
  }
}
