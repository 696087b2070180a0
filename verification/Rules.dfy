/**
 * Dataset capture conditions (engine/src/dataset/rules.cpp): counting subjects that are
 * associated with objects of the same frame, and evaluating condition trees.
 *
 * `Holds` and `AssociatedCount` say what a condition means, over sets of detection indices
 * and maximum matchings; `Matches` and `MatchingCount` follow the program's loops.
 */
module DatasetRules {
  import opened SetFacts
  import opened BipartiteMatching

  datatype Coordinate = Finite(value: real) | NotFinite

  datatype Detection = Detection(
    name: string, score: real,
    x: Coordinate, y: Coordinate, width: Coordinate, height: Coordinate,
    inScope: bool)

  datatype Target = Target(name: string, confidence: real)
  datatype CompareOp = Eq | Ne | Gt | Ge | Lt | Le
  datatype Relation = CenterInside | SubjectCenterInside | Overlap | SubjectOverlap | Near
  datatype State = Matched | Unmatched | CountObjects
  datatype Quantifier = AnySubject | AllSubjects | CountSubjects

  datatype Pairing = Pairing(
    subject: Target, objects: seq<Target>,
    relation: Relation, state: State, quantifier: Quantifier,
    op: CompareOp, count: int, objectOp: CompareOp, objectCount: int,
    minOverlap: real, maxDistance: real, oneToOne: bool)

  datatype Condition =
    | Leaf(target: Target, op: CompareOp, count: int)
    | All(children: seq<Condition>)
    | Any(children: seq<Condition>)
    | Not(child: Condition)
    | CompareCounts(left: Target, right: Target, op: CompareOp)
    | Association(pairing: Pairing)

  predicate Compare(left: int, op: CompareOp, right: int) {
    match op
    case Eq => left == right
    case Ne => left != right
    case Gt => left > right
    case Ge => left >= right
    case Lt => left < right
    case Le => left <= right
  }

  predicate ValidBox(d: Detection) {
    && d.x.Finite? && d.y.Finite? && d.width.Finite? && d.height.Finite?
    && d.width.value > 0.0 && d.height.value > 0.0
  }

  function Min(a: real, b: real): real { if b < a then b else a }
  function Max(a: real, b: real): real { if a < b then b else a }

  /** A rectangle's share of the area of a box. */
  function Share(w: real, h: real, d: Detection): real
    requires ValidBox(d)
  {
    w * h / (d.width.value * d.height.value)
  }

  /** The spatial test between a subject `a` and an object `b`. */
  predicate Related(a: Detection, b: Detection, c: Pairing)
    requires ValidBox(a) && ValidBox(b)
  {
    var inverse := c.relation == SubjectCenterInside || c.relation == SubjectOverlap;
    var inner := if inverse then a else b;
    var outer := if inverse then b else a;
    if c.relation == CenterInside || c.relation == SubjectCenterInside then
      var x := inner.x.value + inner.width.value / 2.0;
      var y := inner.y.value + inner.height.value / 2.0;
      && outer.x.value <= x < outer.x.value + outer.width.value
      && outer.y.value <= y < outer.y.value + outer.height.value
    else if c.relation == Near then
      var dx := b.x.value + b.width.value / 2.0 - a.x.value - a.width.value / 2.0;
      var dy := b.y.value + b.height.value / 2.0 - a.y.value - a.height.value / 2.0;
      dx * dx + dy * dy <=
        c.maxDistance * c.maxDistance * (a.width.value * a.width.value + a.height.value * a.height.value)
    else
      var w := Max(0.0, Min(a.x.value + a.width.value, b.x.value + b.width.value) - Max(a.x.value, b.x.value));
      var h := Max(0.0, Min(a.y.value + a.height.value, b.y.value + b.height.value) - Max(a.y.value, b.y.value));
      Share(w, h, inner) >= c.minOverlap
  }

  predicate Hits(d: Detection, t: Target) {
    d.name == t.name && d.score >= t.confidence
  }

  predicate IsSubject(d: Detection, c: Pairing) {
    ValidBox(d) && d.inScope && Hits(d, c.subject)
  }

  /** A region of interest restricts subjects only; an object may lie anywhere in the frame. */
  predicate IsObject(d: Detection, c: Pairing) {
    ValidBox(d) && exists k | 0 <= k < |c.objects| :: Hits(d, c.objects[k])
  }

  // ---------------------------------------------------------------------------
  // What an association means, on indices into the detection list.

  ghost function Subjects(ds: seq<Detection>, c: Pairing): set<nat> {
    set i: nat | i < |ds| && IsSubject(ds[i], c)
  }

  ghost function Objects(ds: seq<Detection>, c: Pairing): set<nat> {
    set j: nat | j < |ds| && IsObject(ds[j], c)
  }

  predicate Linked(ds: seq<Detection>, c: Pairing, i: nat, j: nat)
    requires i < |ds| && j < |ds|
  {
    IsSubject(ds[i], c) && IsObject(ds[j], c) && i != j && Related(ds[i], ds[j], c)
  }

  ghost function Links(ds: seq<Detection>, c: Pairing): set<Edge> {
    set i: nat, j: nat | i < |ds| && j < |ds| && Linked(ds, c, i, j) :: (i, j)
  }

  ghost function Reach(ds: seq<Detection>, c: Pairing, i: nat): set<nat>
    requires i < |ds|
  {
    set j: nat | j < |ds| && Linked(ds, c, i, j)
  }

  ghost predicate Chosen(c: Pairing, candidates: nat) {
    if c.state == CountObjects then Compare(candidates, c.objectOp, c.objectCount) else candidates > 0
  }

  ghost function ChosenSubjects(ds: seq<Detection>, c: Pairing): set<nat> {
    set i: nat | i < |ds| && IsSubject(ds[i], c) && Chosen(c, |Reach(ds, c, i)|)
  }

  /** How many subjects count as associated. */
  ghost function AssociatedCount(ds: seq<Detection>, c: Pairing): nat {
    if c.state != CountObjects && c.oneToOne then
      MatchingNumber(Links(ds, c))
    else
      |ChosenSubjects(ds, c)|
  }

  ghost function ScopedHits(ds: seq<Detection>, t: Target): set<nat> {
    set i: nat | i < |ds| && ds[i].inScope && Hits(ds[i], t)
  }

  ghost function HitCount(ds: seq<Detection>, t: Target): nat {
    |ScopedHits(ds, t)|
  }

  ghost predicate PairingHolds(c: Pairing, ds: seq<Detection>) {
    var subjects := |Subjects(ds, c)|;
    var actual := if c.state == Unmatched then subjects - AssociatedCount(ds, c) else AssociatedCount(ds, c);
    && subjects != 0
    && match c.quantifier
       case AllSubjects => actual == subjects
       case AnySubject => actual > 0
       case CountSubjects => Compare(actual, c.op, c.count)
  }

  ghost predicate Holds(c: Condition, ds: seq<Detection>) {
    match c
    case Leaf(t, op, count) => Compare(HitCount(ds, t), op, count)
    case All(children) => forall k | 0 <= k < |children| :: Holds(children[k], ds)
    case Any(children) => exists k | 0 <= k < |children| :: Holds(children[k], ds)
    case Not(child) => !Holds(child, ds)
    case CompareCounts(l, r, op) => Compare(HitCount(ds, l), op, HitCount(ds, r))
    case Association(p) => PairingHolds(p, ds)
  }

  // ---------------------------------------------------------------------------
  // The order of the detections does not matter.

  /** `perm` sends each position of `ds` to a position of `es` holding the same detection. */
  ghost predicate Shuffle<T>(ds: seq<T>, es: seq<T>, perm: seq<nat>, inv: seq<nat>) {
    && |ds| == |es| == |perm| == |inv|
    && (forall i | 0 <= i < |perm| :: perm[i] < |es| && inv[perm[i]] == i && es[perm[i]] == ds[i])
    && (forall j | 0 <= j < |inv| :: inv[j] < |ds| && perm[inv[j]] == j)
  }

  lemma DropOne<T>(ds: seq<T>, es: seq<T>, p: nat)
    requires ds != [] && p < |es| && es[p] == ds[0] && multiset(ds) == multiset(es)
    ensures multiset(ds[1..]) == multiset(es[..p] + es[p + 1..])
    ensures |ds| == |es|
  {
    var rest := es[..p] + es[p + 1..];
    assert ds == [ds[0]] + ds[1..];
    assert multiset(es) == multiset(rest) + multiset{es[p]} by {
      assert es == es[..p] + [es[p]] + es[p + 1..];
    }
    assert multiset(ds) == multiset(ds[1..]) + multiset{ds[0]};
    assert multiset(rest) == multiset(es) - multiset{es[p]};
    assert |ds| == |multiset(ds)|;
    assert |es| == |multiset(es)|;
  }

  ghost function Skip(p: nat, k: nat): nat { if k < p then k else k + 1 }

  lemma ExtendShuffle<T>(ds: seq<T>, es: seq<T>, p: nat, perm: seq<nat>, inv: seq<nat>) returns (perm': seq<nat>, inv': seq<nat>)
    requires |ds| == |es| && p < |es| && es[p] == ds[0]
    requires Shuffle(ds[1..], es[..p] + es[p + 1..], perm, inv)
    ensures Shuffle(ds, es, perm', inv')
  {
    perm' := [p] + seq(|perm|, k requires 0 <= k < |perm| => Skip(p, perm[k]));
    inv' := seq(|es|, k requires 0 <= k < |es| =>
      if k < p then inv[k] + 1 else if k == p then 0 else inv[k - 1] + 1);
    forall i | 0 <= i < |perm'| ensures perm'[i] < |es| && inv'[perm'[i]] == i && es[perm'[i]] == ds[i] {
      if i > 0 {
        assert inv[perm[i - 1]] == i - 1 && (es[..p] + es[p + 1..])[perm[i - 1]] == ds[1..][i - 1];
      }
    }
    forall j | 0 <= j < |inv'| ensures inv'[j] < |ds| && perm'[inv'[j]] == j {
      if j != p {
        var k := if j < p then j else j - 1;
        assert perm[inv[k]] == k;
      }
    }
  }

  lemma {:induction false} FindShuffle<T>(ds: seq<T>, es: seq<T>) returns (perm: seq<nat>, inv: seq<nat>)
    requires multiset(ds) == multiset(es)
    ensures Shuffle(ds, es, perm, inv)
    decreases |ds|
  {
    if ds == [] {
      assert |multiset(es)| == 0;
      assert es == [];
      perm, inv := [], [];
    } else {
      assert ds[0] in multiset(es);
      var p: nat :| p < |es| && es[p] == ds[0];
      DropOne(ds, es, p);
      perm, inv := FindShuffle(ds[1..], es[..p] + es[p + 1..]);
      perm, inv := ExtendShuffle(ds, es, p, perm, inv);
    }
  }

  lemma ShuffledSize<T>(ds: seq<T>, es: seq<T>, perm: seq<nat>, inv: seq<nat>, s: set<nat>, t: set<nat>)
    requires Shuffle(ds, es, perm, inv)
    requires forall i | i in s :: i < |ds|
    requires forall j | j in t :: j < |es|
    requires forall i: nat | i < |ds| :: i in s <==> perm[i] in t
    ensures |s| == |t|
  {
    var image := map i | i in s :: perm[i];
    assert Injective(image) by {
      forall a, b | a in image && b in image && image[a] == image[b] ensures a == b {
        assert inv[perm[a]] == a && inv[perm[b]] == b;
      }
    }
    forall j | j in t ensures j in image.Values {
      assert perm[inv[j]] == j;
      assert image[inv[j]] == j;
    }
    assert image.Values == t && image.Keys == s;
    InjectiveSize(image);
  }

  lemma ShuffledLinks(c: Pairing, ds: seq<Detection>, es: seq<Detection>, perm: seq<nat>, inv: seq<nat>)
    requires Shuffle(ds, es, perm, inv)
    ensures Links(es, c) == Rename(Links(ds, c), perm, perm)
    ensures Distinct(perm)
  {
    forall e: Edge | e in Links(es, c) ensures e in Rename(Links(ds, c), perm, perm) {
      assert perm[inv[e.0]] == e.0 && perm[inv[e.1]] == e.1;
      assert (inv[e.0], inv[e.1]) in Links(ds, c);
    }
  }

  lemma ShuffledCount(c: Pairing, ds: seq<Detection>, es: seq<Detection>, perm: seq<nat>, inv: seq<nat>)
    requires Shuffle(ds, es, perm, inv)
    ensures AssociatedCount(ds, c) == AssociatedCount(es, c)
    ensures |Subjects(ds, c)| == |Subjects(es, c)|
  {
    ShuffledSize(ds, es, perm, inv, Subjects(ds, c), Subjects(es, c));
    ShuffledLinks(c, ds, es, perm, inv);
    if c.state != CountObjects && c.oneToOne {
      RenamePreservesNumber(Links(ds, c), perm, perm);
    } else {
      forall i: nat | i < |ds| ensures |Reach(ds, c, i)| == |Reach(es, c, perm[i])| {
        ShuffledSize(ds, es, perm, inv, Reach(ds, c, i), Reach(es, c, perm[i]));
      }
      ShuffledSize(ds, es, perm, inv, ChosenSubjects(ds, c), ChosenSubjects(es, c));
    }
  }

  lemma ShuffledHits(t: Target, ds: seq<Detection>, es: seq<Detection>, perm: seq<nat>, inv: seq<nat>)
    requires Shuffle(ds, es, perm, inv)
    ensures HitCount(ds, t) == HitCount(es, t)
  {
    ShuffledSize(ds, es, perm, inv, ScopedHits(ds, t), ScopedHits(es, t));
  }

  lemma {:induction false} ShuffledHolds(c: Condition, ds: seq<Detection>, es: seq<Detection>, perm: seq<nat>, inv: seq<nat>)
    requires Shuffle(ds, es, perm, inv)
    ensures Holds(c, ds) == Holds(c, es)
  {
    match c
    case Leaf(t, _, _) =>
      ShuffledHits(t, ds, es, perm, inv);
    case All(children) =>
      forall k | 0 <= k < |children| ensures Holds(children[k], ds) == Holds(children[k], es) {
        ShuffledHolds(children[k], ds, es, perm, inv);
      }
    case Any(children) =>
      forall k | 0 <= k < |children| ensures Holds(children[k], ds) == Holds(children[k], es) {
        ShuffledHolds(children[k], ds, es, perm, inv);
      }
    case Not(child) =>
      ShuffledHolds(child, ds, es, perm, inv);
    case CompareCounts(l, r, _) =>
      ShuffledHits(l, ds, es, perm, inv);
      ShuffledHits(r, ds, es, perm, inv);
    case Association(p) =>
      ShuffledCount(p, ds, es, perm, inv);
  }

  /** Whether a condition holds depends only on which detections a frame has, not on their order. */
  lemma OrderDoesNotMatter(c: Condition, ds: seq<Detection>, es: seq<Detection>)
    requires multiset(ds) == multiset(es)
    ensures Holds(c, ds) == Holds(c, es)
  {
    var perm, inv := FindShuffle(ds, es);
    ShuffledHolds(c, ds, es, perm, inv);
  }

  // ---------------------------------------------------------------------------
  // What one-to-one association promises.

  lemma {:induction false} MatchingLeftSize(m: set<Edge>, left: set<nat>)
    requires IsMatching(m) && forall e | e in m :: e.0 in left
    ensures |m| <= |left|
    ensures |m| == |left| ==> forall i | i in left :: exists e | e in m :: e.0 == i
    decreases |m|
  {
    CoverBoundsMatching(m, left, {});
    if |m| == |left| {
      forall i | i in left ensures exists e | e in m :: e.0 == i {
        if forall e | e in m :: e.0 != i {
          CoverBoundsMatching(m, left - {i}, {});
        }
      }
    }
  }

  /** A one-to-one assignment of objects that leaves no subject out. */
  ghost predicate FullAssignment(ds: seq<Detection>, c: Pairing, m: set<Edge>) {
    MatchingOf(m, Links(ds, c)) && forall i | i in Subjects(ds, c) :: exists e | e in m :: e.0 == i
  }

  lemma MatchedAtMostSubjects(ds: seq<Detection>, c: Pairing)
    ensures AssociatedCount(ds, c) <= |Subjects(ds, c)|
  {
    if c.state != CountObjects && c.oneToOne {
      var m := LargestMatching(Links(ds, c));
      MatchingLeftSize(m, Subjects(ds, c));
    } else {
      SubsetSize(ChosenSubjects(ds, c), Subjects(ds, c));
    }
  }

  lemma {:induction false} LeftsSize(m: set<Edge>, left: set<nat>)
    requires forall i | i in left :: exists e | e in m :: e.0 == i
    ensures |left| <= |m|
    decreases |left|
  {
    if left != {} {
      var i :| i in left;
      var e :| e in m && e.0 == i;
      forall l | l in left - {i} ensures exists f | f in m - {e} :: f.0 == l {
        var f :| f in m && f.0 == l;
        assert f in m - {e};
      }
      LeftsSize(m - {e}, left - {i});
    }
  }

  /**
   * "Some subject lacks its object" is reported exactly when no one-to-one assignment
   * serves every subject: subjects that can all be served are never reported.
   */
  lemma UnmatchedMeansNoFullAssignment(ds: seq<Detection>, c: Pairing)
    requires c.state == Unmatched && c.oneToOne && c.quantifier == AnySubject
    ensures PairingHolds(c, ds) <==> Subjects(ds, c) != {} && !exists m :: FullAssignment(ds, c, m)
  {
    MatchedAtMostSubjects(ds, c);
    var m := LargestMatching(Links(ds, c));
    MatchingLeftSize(m, Subjects(ds, c));
    if |m| == |Subjects(ds, c)| {
      assert FullAssignment(ds, c, m);
    }
    forall w | FullAssignment(ds, c, w) ensures |Subjects(ds, c)| <= |w| <= |m| {
      LeftsSize(w, Subjects(ds, c));
    }
  }

  // ---------------------------------------------------------------------------
  // The program's own counting.

  /** `s` lists the elements of `t` once each. */
  ghost predicate Lists(s: seq<nat>, t: set<nat>) {
    Distinct(s) && (forall k | 0 <= k < |s| :: s[k] in t) && forall x | x in t :: x in s
  }

  lemma {:induction false} ListSize(s: seq<nat>, t: set<nat>)
    requires Lists(s, t)
    ensures |s| == |t|
    decreases |s|
  {
    if s == [] {
      assert t == {};
    } else {
      var last := s[|s| - 1];
      var front := s[..|s| - 1];
      assert s == front + [last];
      assert Lists(front, t - {last});
      ListSize(front, t - {last});
    }
  }

  ghost predicate EdgeRow(ds: seq<Detection>, c: Pairing, i: nat, b: seq<nat>, n: nat, row: seq<nat>)
    requires i < |ds| && forall k | 0 <= k < |b| :: b[k] < |ds|
  {
    Lists(row, set j: nat | j < n && j < |b| && Linked(ds, c, i, b[j]))
  }

  /** The subject list, the object list and, for each subject, the positions of its candidates. */
  ghost predicate GraphOf(ds: seq<Detection>, c: Pairing, a: seq<nat>, b: seq<nat>, edges: Adjacency) {
    && Lists(a, Subjects(ds, c)) && Lists(b, Objects(ds, c)) && |edges| <= |a|
    && forall i | 0 <= i < |edges| :: EdgeRow(ds, c, a[i], b, |b|, edges[i])
  }

  method CollectCandidates(ds: seq<Detection>, c: Pairing) returns (a: seq<nat>, b: seq<nat>)
    ensures Lists(a, Subjects(ds, c)) && Lists(b, Objects(ds, c))
  {
    a, b := [], [];
    for i := 0 to |ds|
      invariant Lists(a, set k: nat | k < i && IsSubject(ds[k], c))
      invariant Lists(b, set k: nat | k < i && IsObject(ds[k], c))
    {
      if ValidBox(ds[i]) {
        if ds[i].inScope && Hits(ds[i], c.subject) {
          a := a + [i];
        }
        if exists k | 0 <= k < |c.objects| :: Hits(ds[i], c.objects[k]) {
          b := b + [i];
        }
      }
    }
  }

  method CandidatesOf(ds: seq<Detection>, c: Pairing, i: nat, b: seq<nat>) returns (row: seq<nat>)
    requires i < |ds| && IsSubject(ds[i], c)
    requires forall k | 0 <= k < |b| :: b[k] < |ds| && IsObject(ds[b[k]], c)
    ensures EdgeRow(ds, c, i, b, |b|, row)
  {
    row := [];
    for j := 0 to |b|
      invariant EdgeRow(ds, c, i, b, j, row)
    {
      if i != b[j] && Related(ds[i], ds[b[j]], c) {
        row := row + [j];
      }
    }
  }

  lemma RowSize(ds: seq<Detection>, c: Pairing, i: nat, b: seq<nat>, row: seq<nat>)
    requires i < |ds| && Lists(b, Objects(ds, c)) && EdgeRow(ds, c, i, b, |b|, row)
    ensures |row| == |Reach(ds, c, i)|
  {
    var named := seq(|row|, k requires 0 <= k < |row| => b[row[k]]);
    forall j | j in Reach(ds, c, i) ensures j in named {
      assert j in Objects(ds, c) && j in b;
      var p: nat :| p < |b| && b[p] == j;
      assert p in row;
      var k :| 0 <= k < |row| && row[k] == p;
      assert named[k] == j;
    }
    assert Lists(named, Reach(ds, c, i));
    ListSize(named, Reach(ds, c, i));
  }

  lemma GraphIsLinks(ds: seq<Detection>, c: Pairing, a: seq<nat>, b: seq<nat>, edges: Adjacency)
    requires GraphOf(ds, c, a, b, edges) && |edges| == |a|
    ensures WellFormed(edges, |b|)
    ensures MatchingNumber(Edges(edges)) == MatchingNumber(Links(ds, c))
  {
    forall i, k | 0 <= i < |edges| && 0 <= k < |edges[i]| ensures edges[i][k] < |b| && Linked(ds, c, a[i], b[edges[i][k]]) {
      assert EdgeRow(ds, c, a[i], b, |b|, edges[i]);
    }
    var renamed := Rename(Edges(edges), a, b);
    forall e: Edge | e in Links(ds, c) ensures e in renamed {
      assert e.0 in Subjects(ds, c) && e.1 in Objects(ds, c);
      var i: nat :| i < |a| && a[i] == e.0;
      var p: nat :| p < |b| && b[p] == e.1;
      assert EdgeRow(ds, c, a[i], b, |b|, edges[i]);
      assert p in edges[i];
      var k: nat :| k < |edges[i]| && edges[i][k] == p;
      assert (i, edges[i][k]) in Edges(edges);
    }
    assert renamed == Links(ds, c);
    RenamePreservesNumber(Edges(edges), a, b);
  }

  ghost function ChosenUpTo(ds: seq<Detection>, c: Pairing, a: seq<nat>, n: nat): set<nat>
    requires n <= |a| && forall k | 0 <= k < |a| :: a[k] < |ds|
  {
    set k: nat | k < n && Chosen(c, |Reach(ds, c, a[k])|) :: a[k]
  }

  lemma ChosenStep(ds: seq<Detection>, c: Pairing, a: seq<nat>, n: nat)
    requires n < |a| && Distinct(a) && forall k | 0 <= k < |a| :: a[k] < |ds|
    ensures ChosenUpTo(ds, c, a, n + 1) ==
            ChosenUpTo(ds, c, a, n) + if Chosen(c, |Reach(ds, c, a[n])|) then {a[n]} else {}
    ensures a[n] !in ChosenUpTo(ds, c, a, n)
  {
    if Chosen(c, |Reach(ds, c, a[n])|) {
      assert a[n] in ChosenUpTo(ds, c, a, n + 1);
    }
  }

  lemma ChosenAll(ds: seq<Detection>, c: Pairing, a: seq<nat>)
    requires Lists(a, Subjects(ds, c))
    ensures ChosenUpTo(ds, c, a, |a|) == ChosenSubjects(ds, c)
  {
    forall x | x in ChosenSubjects(ds, c) ensures x in ChosenUpTo(ds, c, a, |a|) {
      assert x in Subjects(ds, c);
      var k: nat :| k < |a| && a[k] == x;
    }
  }

  method BuildGraph(ds: seq<Detection>, c: Pairing, a: seq<nat>, b: seq<nat>) returns (edges: Adjacency)
    requires Lists(a, Subjects(ds, c)) && Lists(b, Objects(ds, c))
    ensures GraphOf(ds, c, a, b, edges) && |edges| == |a|
  {
    edges := [];
    for i := 0 to |a|
      invariant |edges| == i && GraphOf(ds, c, a, b, edges)
    {
      var row := CandidatesOf(ds, c, a[i], b);
      edges := edges + [row];
    }
  }

  lemma CountStep(ds: seq<Detection>, c: Pairing, a: seq<nat>, b: seq<nat>, edges: Adjacency, i: nat)
    requires GraphOf(ds, c, a, b, edges) && i < |edges| == |a|
    ensures |ChosenUpTo(ds, c, a, i + 1)| == |ChosenUpTo(ds, c, a, i)| + if Chosen(c, |edges[i]|) then 1 else 0
  {
    assert EdgeRow(ds, c, a[i], b, |b|, edges[i]);
    RowSize(ds, c, a[i], b, edges[i]);
    ChosenStep(ds, c, a, i);
  }

  method CountChosen(ds: seq<Detection>, c: Pairing, ghost a: seq<nat>, ghost b: seq<nat>, edges: Adjacency)
    returns (matched: nat)
    requires GraphOf(ds, c, a, b, edges) && |edges| == |a|
    ensures matched == |ChosenSubjects(ds, c)|
  {
    matched := 0;
    for i := 0 to |edges|
      invariant matched == |ChosenUpTo(ds, c, a, i)|
    {
      CountStep(ds, c, a, b, edges, i);
      if c.state == CountObjects {
        if Compare(|edges[i]|, c.objectOp, c.objectCount) { matched := matched + 1; }
      } else if edges[i] != [] {
        matched := matched + 1;
      }
    }
    ChosenAll(ds, c, a);
  }

  /** `matching_count`: the number of associated subjects, and of subjects. */
  method MatchingCount(ds: seq<Detection>, c: Pairing) returns (matched: nat, subjects: nat)
    ensures subjects == |Subjects(ds, c)|
    ensures matched == AssociatedCount(ds, c)
  {
    var a, b := CollectCandidates(ds, c);
    subjects := |a|;
    ListSize(a, Subjects(ds, c));
    var edges := BuildGraph(ds, c, a, b);
    if c.state == CountObjects || !c.oneToOne {
      matched := CountChosen(ds, c, a, b, edges);
      return;
    }
    GraphIsLinks(ds, c, a, b, edges);
    matched := MaximumMatching(edges, |b|);
  }

  method CountHits(ds: seq<Detection>, t: Target) returns (n: nat)
    ensures n == HitCount(ds, t)
  {
    n := 0;
    for i := 0 to |ds|
      invariant n == HitCount(ds[..i], t)
    {
      HitStep(ds, t, i);
      if ds[i].inScope && Hits(ds[i], t) {
        n := n + 1;
      }
    }
    assert ds[..|ds|] == ds;
  }

  lemma HitStep(ds: seq<Detection>, t: Target, i: nat)
    requires i < |ds|
    ensures HitCount(ds[..i + 1], t) == HitCount(ds[..i], t) + if ds[i].inScope && Hits(ds[i], t) then 1 else 0
  {
    var before, after := ScopedHits(ds[..i], t), ScopedHits(ds[..i + 1], t);
    assert after == before + if ds[i].inScope && Hits(ds[i], t) then {i} else {};
  }

  method CountBothHits(ds: seq<Detection>, l: Target, r: Target) returns (left: nat, right: nat)
    ensures left == HitCount(ds, l) && right == HitCount(ds, r)
  {
    left, right := 0, 0;
    for i := 0 to |ds|
      invariant left == HitCount(ds[..i], l) && right == HitCount(ds[..i], r)
    {
      HitStep(ds, l, i);
      HitStep(ds, r, i);
      if ds[i].inScope {
        if Hits(ds[i], l) { left := left + 1; }
        if Hits(ds[i], r) { right := right + 1; }
      }
    }
    assert ds[..|ds|] == ds;
  }

  method PairingMatches(c: Pairing, ds: seq<Detection>) returns (r: bool)
    ensures r == PairingHolds(c, ds)
  {
    var matched, subjects := MatchingCount(ds, c);
    if subjects == 0 {
      return false;
    }
    var actual: int := matched;
    MatchedAtMostSubjects(ds, c);
    if c.state == Unmatched {
      actual := subjects - matched;
    }
    if c.quantifier == AllSubjects {
      return actual == subjects;
    }
    if c.quantifier == AnySubject {
      return actual > 0;
    }
    return Compare(actual, c.op, c.count);
  }

  /** `Condition::matches` computes what the condition means. */
  method Matches(c: Condition, ds: seq<Detection>) returns (r: bool)
    ensures r == Holds(c, ds)
    decreases c
  {
    match c
    case Leaf(t, op, count) =>
      var n := CountHits(ds, t);
      return Compare(n, op, count);
    case All(children) =>
      for k := 0 to |children|
        invariant forall j | 0 <= j < k :: Holds(children[j], ds)
      {
        var one := Matches(children[k], ds);
        if !one { return false; }
      }
      return true;
    case Any(children) =>
      for k := 0 to |children|
        invariant forall j | 0 <= j < k :: !Holds(children[j], ds)
      {
        var one := Matches(children[k], ds);
        if one { return true; }
      }
      return false;
    case Not(child) =>
      var one := Matches(child, ds);
      return !one;
    case CompareCounts(l, r', op) =>
      var left, right := CountBothHits(ds, l, r');
      return Compare(left, op, right);
    case Association(p) =>
      r := PairingMatches(p, ds);
  }
}
