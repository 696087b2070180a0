/**
 * The augmenting-path search of `matching_count` (engine/src/dataset/rules.cpp),
 * proved to return the size of a maximum matching of any bipartite graph.
 *
 * Left vertices are the subjects, right vertices the candidate objects;
 * `owner[j]` is the subject holding object `j`, or -1.
 */
module BipartiteMatching {
  import opened SetFacts

  type Edge = (nat, nat)

  /** The reference definition: no two distinct edges of `m` share an end. */
  ghost predicate IsMatching(m: set<Edge>) {
    forall e, f | e in m && f in m && (e.0 == f.0 || e.1 == f.1) :: e == f
  }

  ghost predicate MatchingOf(m: set<Edge>, edges: set<Edge>) {
    m <= edges && IsMatching(m)
  }

  /** `k` is the size of a maximum matching of `edges`. */
  ghost predicate IsMatchingNumber(edges: set<Edge>, k: nat) {
    && (exists m | MatchingOf(m, edges) :: |m| == k)
    && (forall m | MatchingOf(m, edges) :: |m| <= k)
  }

  lemma MatchingNumberExists(edges: set<Edge>)
    ensures exists k: nat :: IsMatchingNumber(edges, k)
  {
    var best: set<Edge> := {};
    assert MatchingOf(best, edges);
    while exists m :: MatchingOf(m, edges) && |m| > |best|
      invariant MatchingOf(best, edges)
      decreases |edges| - |best|
    {
      var m :| MatchingOf(m, edges) && |m| > |best|;
      SubsetSize(m, edges);
      best := m;
    }
    assert IsMatchingNumber(edges, |best|);
  }

  ghost function MatchingNumber(edges: set<Edge>): (k: nat)
    ensures IsMatchingNumber(edges, k)
  {
    MatchingNumberExists(edges);
    var k: nat :| IsMatchingNumber(edges, k);
    k
  }

  lemma LargestMatching(edges: set<Edge>) returns (m: set<Edge>)
    ensures MatchingOf(m, edges) && |m| == MatchingNumber(edges)
  {
    m :| MatchingOf(m, edges) && |m| == MatchingNumber(edges);
  }

  /** Weak duality: a set of vertices touching every edge of a matching is at least as large. */
  lemma {:induction false} CoverBoundsMatching(m: set<Edge>, left: set<nat>, right: set<nat>)
    requires IsMatching(m)
    requires forall e | e in m :: e.0 in left || e.1 in right
    ensures |m| <= |left| + |right|
    decreases |m|
  {
    if m != {} {
      var e :| e in m;
      if e.0 in left {
        CoverBoundsMatching(m - {e}, left - {e.0}, right);
      } else {
        CoverBoundsMatching(m - {e}, left, right - {e.1});
      }
    }
  }

  /** Renaming both sides of a graph by injective tables. */
  ghost function Rename(edges: set<Edge>, f: seq<nat>, h: seq<nat>): set<Edge>
    requires forall e | e in edges :: e.0 < |f| && e.1 < |h|
  {
    set e | e in edges :: (f[e.0], h[e.1])
  }

  ghost predicate Distinct(f: seq<nat>) {
    forall a, b | 0 <= a < |f| && 0 <= b < |f| && f[a] == f[b] :: a == b
  }

  lemma RenameMatching(m: set<Edge>, f: seq<nat>, h: seq<nat>)
    requires forall e | e in m :: e.0 < |f| && e.1 < |h|
    requires Distinct(f) && Distinct(h)
    ensures |Rename(m, f, h)| == |m|
    ensures IsMatching(m) <==> IsMatching(Rename(m, f, h))
  {
    var image := map e | e in m :: (f[e.0], h[e.1]);
    assert image.Keys == m;
    assert image.Values == Rename(m, f, h);
    InjectiveSize(image);
    if IsMatching(Rename(m, f, h)) {
      forall a, b | a in m && b in m && (a.0 == b.0 || a.1 == b.1) ensures a == b {
        assert (f[a.0], h[a.1]) in Rename(m, f, h) && (f[b.0], h[b.1]) in Rename(m, f, h);
      }
    }
  }

  lemma RenameForth(edges: set<Edge>, f: seq<nat>, h: seq<nat>, m: set<Edge>)
    requires forall e | e in edges :: e.0 < |f| && e.1 < |h|
    requires Distinct(f) && Distinct(h) && MatchingOf(m, edges)
    ensures |m| <= MatchingNumber(Rename(edges, f, h))
  {
    RenameMatching(m, f, h);
    assert MatchingOf(Rename(m, f, h), Rename(edges, f, h));
  }

  lemma RenameBack(edges: set<Edge>, f: seq<nat>, h: seq<nat>, n: set<Edge>)
    requires forall e | e in edges :: e.0 < |f| && e.1 < |h|
    requires Distinct(f) && Distinct(h) && MatchingOf(n, Rename(edges, f, h))
    ensures |n| <= MatchingNumber(edges)
  {
    var m := set e | e in edges && (f[e.0], h[e.1]) in n;
    assert Rename(m, f, h) == n;
    RenameMatching(m, f, h);
    assert MatchingOf(m, edges);
  }

  /** The matching number does not depend on how the vertices are named. */
  lemma RenamePreservesNumber(edges: set<Edge>, f: seq<nat>, h: seq<nat>)
    requires forall e | e in edges :: e.0 < |f| && e.1 < |h|
    requires Distinct(f) && Distinct(h)
    ensures MatchingNumber(Rename(edges, f, h)) == MatchingNumber(edges)
  {
    var m := LargestMatching(edges);
    RenameForth(edges, f, h, m);
    var n := LargestMatching(Rename(edges, f, h));
    RenameBack(edges, f, h, n);
  }

  // ---------------------------------------------------------------------------
  // The search over `owner` and `visited`.

  type Adjacency = seq<seq<nat>>

  ghost predicate WellFormed(adj: Adjacency, n: nat) {
    forall i, k | 0 <= i < |adj| && 0 <= k < |adj[i]| :: adj[i][k] < n
  }

  ghost function Edges(adj: Adjacency): set<Edge> {
    set i: nat, k: nat | i < |adj| && k < |adj[i]| :: (i, adj[i][k])
  }

  /** Every owned right vertex is adjacent to its owner. */
  ghost predicate OwnerOk(adj: Adjacency, owner: seq<int>) {
    forall j | 0 <= j < |owner| && owner[j] >= 0 :: owner[j] < |adj| && j in adj[owner[j]]
  }

  ghost function Unvisited(visited: seq<bool>): set<nat> {
    set j: nat | j < |visited| && !visited[j]
  }

  ghost function Holding(owner: seq<int>, within: set<nat>): map<nat, int> {
    map j | j in within && j < |owner| && owner[j] >= 0 :: owner[j]
  }

  /** The left vertices that own something in `within`. */
  ghost function Owners(owner: seq<int>, within: set<nat>): set<int> {
    Holding(owner, within).Values
  }

  /** All of `region` is owned, and the owners reach nothing outside it. */
  ghost predicate Closed(adj: Adjacency, owner: seq<int>, region: set<nat>) {
    forall j | j in region :: j < |owner| && 0 <= owner[j] < |adj| && Inside(adj, owner[j], region)
  }

  ghost predicate Inside(adj: Adjacency, i: int, region: set<nat>) {
    0 <= i < |adj| && forall k | 0 <= k < |adj[i]| :: adj[i][k] in region
  }

  ghost function AllRight(n: nat): set<nat> {
    Unvisited(seq(n, _ => false))
  }

  /** Moving `j` to `i` after its old owner found another vertex of `rest`. */
  lemma Augment(before: seq<int>, after: seq<int>, within: set<nat>, rest: set<nat>, j: nat, i: nat)
    requires |before| == |after| && j < |before|
    requires rest <= within && j in within && j !in rest
    requires Injective(Holding(before, within)) && i !in Owners(before, within)
    requires forall k | 0 <= k < |before| && k !in rest :: after[k] == before[k]
    requires Injective(Holding(after, rest))
    requires Owners(after, rest) == Owners(before, rest) + (if before[j] >= 0 then {before[j]} else {})
    ensures var final := after[j := i];
            && Injective(Holding(final, within))
            && Owners(final, within) == Owners(before, within) + {i}
  {
    var final := after[j := i];
    var hb, ha, hf := Holding(before, within), Holding(after, rest), Holding(final, within);
    forall k | k in hf ensures k != j ==> hf[k] in hb.Values
                       ensures k in rest ==> k in ha && hf[k] == ha[k]
                       ensures k != j && k !in rest ==> k in hb && hf[k] == hb[k]
    {
      if k in rest {
        assert ha[k] in Owners(after, rest);
        if ha[k] in Owners(before, rest) {
          var b :| b in Holding(before, rest) && before[b] == ha[k];
          assert b in hb;
        } else {
          assert hb[j] == before[j];
        }
      } else if k != j {
        assert hb[k] == before[k];
      }
    }
    assert Injective(hf) by {
      forall a, b | a in hf && b in hf && hf[a] == hf[b] ensures a == b {
        if a in rest && b !in rest && b != j {
          KeptApart(before, after, within, rest, j, a, b);
        } else if b in rest && a !in rest && a != j {
          KeptApart(before, after, within, rest, j, b, a);
        }
      }
    }
    forall v | v in hb.Values ensures v in hf.Values {
      var b :| b in hb && hb[b] == v;
      if b == j || b in rest {
        assert v in Owners(after, rest) by {
          if b in rest { assert b in Holding(before, rest); }
        }
        var a :| a in ha && ha[a] == v;
        assert hf[a] == v;
      } else {
        assert hf[b] == v;
      }
    }
    assert hf[j] == i;
    assert hf.Values == hb.Values + {i};
  }

  /** An owner moved inside `rest` never equals an owner left alone outside it. */
  lemma KeptApart(before: seq<int>, after: seq<int>, within: set<nat>, rest: set<nat>, j: nat, a: nat, b: nat)
    requires |before| == |after| && j < |before|
    requires rest <= within && j in within && j !in rest
    requires Injective(Holding(before, within))
    requires Owners(after, rest) == Owners(before, rest) + (if before[j] >= 0 then {before[j]} else {})
    requires a in rest && a in Holding(after, rest)
    requires b !in rest && b != j && b in Holding(before, within)
    ensures after[a] != before[b]
  {
    var hb := Holding(before, within);
    forall c | c in Holding(before, rest) ensures before[c] != before[b] {
      assert hb[c] == before[c] && hb[b] == before[b];
    }
    assert before[j] >= 0 ==> hb[j] == before[j];
    assert Holding(after, rest)[a] in Owners(after, rest);
  }

  lemma FewerUnvisited(before: seq<bool>, after: seq<bool>, j: nat)
    requires |before| == |after| && j < |before| && !before[j] && after[j]
    requires forall k | 0 <= k < |before| && before[k] :: after[k]
    ensures |Unvisited(after)| < |Unvisited(before)|
  {
    assert Unvisited(after) <= Unvisited(before) - {j};
    SubsetSize(Unvisited(after), Unvisited(before) - {j});
  }

  /** Every neighbour of left vertex `i` is visited. */
  ghost predicate Exhausted(adj: Adjacency, i: int, visited: seq<bool>) {
    0 <= i < |adj| && forall k | 0 <= k < |adj[i]| :: adj[i][k] < |visited| && visited[adj[i][k]]
  }

  /** What was newly visited is owned by vertices whose neighbours are all visited. */
  ghost predicate DeadEnds(adj: Adjacency, owner: seq<int>, before: seq<bool>, after: seq<bool>) {
    && |owner| == |before| == |after|
    && (forall j | 0 <= j < |after| && before[j] :: after[j])
    && (forall j | 0 <= j < |after| && after[j] && !before[j] :: Exhausted(adj, owner[j], after))
  }

  /** `i` owns nothing in `within`, where each owner owns one vertex. */
  ghost predicate Loose(owner: seq<int>, within: set<nat>, i: int) {
    Injective(Holding(owner, within)) && i !in Owners(owner, within)
  }

  /** `after` hands `i` exactly one vertex of `within` more, and changes nothing outside `within`. */
  ghost predicate Gained(before: seq<int>, after: seq<int>, within: set<nat>, i: int) {
    && |after| == |before|
    && Injective(Holding(after, within))
    && Owners(after, within) == Owners(before, within) + {i}
    && forall k | 0 <= k < |before| && k !in within :: after[k] == before[k]
  }

  lemma Descend(before: seq<int>, within: set<nat>, rest: set<nat>, j: nat, i: nat)
    requires j < |before| && rest <= within && j in within && j !in rest && Loose(before, within, i)
    ensures before[j] >= 0 ==> Loose(before, rest, before[j])
    ensures before[j] < 0 ==> Gained(before, before[j := i], within, i)
  {
    var hb := Holding(before, within);
    assert forall k | k in Holding(before, rest) :: k in hb && hb[k] == before[k];
    assert before[j] >= 0 ==> hb[j] == before[j];
    if before[j] < 0 {
      Augment(before, before, within, rest, j, i);
    }
  }

  lemma Ascend(before: seq<int>, after: seq<int>, within: set<nat>, rest: set<nat>, j: nat, i: nat)
    requires j < |before| && rest <= within && j in within && j !in rest && Loose(before, within, i)
    requires before[j] >= 0 && Gained(before, after, rest, before[j])
    ensures Gained(before, after[j := i], within, i)
  {
    Augment(before, after, within, rest, j, i);
  }

  /**
   * One recursive augmenting search from left vertex `i`. `sealed` is any region already
   * known to be closed: the search never succeeds through it and never changes it.
   */
  method Assign(adj: Adjacency, i: nat, owner: array<int>, visited: array<bool>, ghost sealed: set<nat>)
    returns (ok: bool)
    requires i < |adj| && owner.Length == visited.Length && WellFormed(adj, owner.Length)
    requires OwnerOk(adj, owner[..]) && Closed(adj, owner[..], sealed)
    requires Loose(owner[..], Unvisited(visited[..]), i)
    modifies owner, visited
    ensures OwnerOk(adj, owner[..])
    ensures forall j | j in sealed :: owner[j] == old(owner[j])
    ensures Inside(adj, i, sealed) ==> !ok
    ensures ok ==> Gained(old(owner[..]), owner[..], old(Unvisited(visited[..])), i)
    ensures !ok ==> owner[..] == old(owner[..])
    ensures !ok ==> Exhausted(adj, i, visited[..]) && DeadEnds(adj, owner[..], old(visited[..]), visited[..])
    decreases |Unvisited(visited[..])|
  {
    ghost var within := Unvisited(visited[..]);
    ghost var before, seen := owner[..], visited[..];
    for n := 0 to |adj[i]|
      invariant owner[..] == before
      invariant DeadEnds(adj, before, seen, visited[..])
      invariant forall k | 0 <= k < n :: visited[adj[i][k]]
    {
      var j := adj[i][n];
      if visited[j] {
        continue;
      }
      ghost var reached := visited[..];
      visited[j] := true;
      FewerUnvisited(seen, visited[..], j);
      ghost var rest := Unvisited(visited[..]);
      Descend(before, within, rest, j, i);
      if owner[j] < 0 {
        owner[j] := i;
        assert owner[..] == before[j := i];
        return true;
      }
      ghost var entered := visited[..];
      var moved := Assign(adj, owner[j], owner, visited, sealed);
      if moved {
        Ascend(before, owner[..], within, rest, j, i);
        ghost var inner := owner[..];
        owner[j] := i;
        assert owner[..] == inner[j := i];
        return true;
      }
      StillDeadEnds(adj, before, seen, reached, entered, visited[..], j);
    }
    return false;
  }

  /** After the failed search of `j`'s owner, `j` and everything visited meanwhile are dead ends. */
  lemma StillDeadEnds(adj: Adjacency, owner: seq<int>, seen: seq<bool>, reached: seq<bool>, entered: seq<bool>, after: seq<bool>, j: nat)
    requires DeadEnds(adj, owner, seen, reached)
    requires j < |reached| && entered == reached[j := true]
    requires DeadEnds(adj, owner, entered, after)
    requires Exhausted(adj, owner[j], after)
    ensures DeadEnds(adj, owner, seen, after)
    ensures forall k | 0 <= k < |reached| && reached[k] :: after[k]
  {
    assert forall k | 0 <= k < |reached| && reached[k] :: entered[k];
    forall k | 0 <= k < |after| && after[k] && !seen[k] ensures Exhausted(adj, owner[k], after) {
      if reached[k] {
        assert Exhausted(adj, owner[k], reached);
      } else if k != j {
        assert !entered[k];
      }
    }
  }

  ghost predicate CoveredOrOwned(adj: Adjacency, owner: seq<int>, region: set<nat>, i: nat) {
    i in Owners(owner, AllRight(|owner|)) || Inside(adj, i, region)
  }

  ghost predicate CoveredUpTo(adj: Adjacency, owner: seq<int>, region: set<nat>, n: nat) {
    forall i: nat | i < n :: CoveredOrOwned(adj, owner, region, i)
  }

  /** The closed region plus the owners outside it cover every edge and are no more than the owned vertices. */
  lemma OwnedIsMaximum(adj: Adjacency, owner: seq<int>, region: set<nat>)
    requires WellFormed(adj, |owner|) && OwnerOk(adj, owner) && Closed(adj, owner, region)
    requires Injective(Holding(owner, AllRight(|owner|)))
    requires CoveredUpTo(adj, owner, region, |adj|)
    ensures IsMatchingNumber(Edges(adj), |Owners(owner, AllRight(|owner|))|)
  {
    var held := Holding(owner, AllRight(|owner|));
    InjectiveSize(held);
    var m := OwnedPairs(adj, owner);
    assert MatchingOf(m, Edges(adj));
    forall w: set<Edge> | MatchingOf(w, Edges(adj)) ensures |w| <= |held.Keys| {
      RegionCover(adj, owner, region, w);
    }
  }

  lemma OwnedPairs(adj: Adjacency, owner: seq<int>) returns (m: set<Edge>)
    requires OwnerOk(adj, owner)
    requires Injective(Holding(owner, AllRight(|owner|)))
    ensures MatchingOf(m, Edges(adj)) && |m| == |Holding(owner, AllRight(|owner|)).Keys|
  {
    var held := Holding(owner, AllRight(|owner|));
    var pairs: map<nat, Edge> := map j | j in held :: (held[j], j);
    m := pairs.Values;
    InjectiveSize(pairs);
    assert pairs.Keys == held.Keys;
    forall e: Edge | e in m ensures e in Edges(adj) {
      assert held[e.1] == e.0;
      var k: nat :| k < |adj[e.0]| && adj[e.0][k] == e.1;
    }
  }

  ghost function OwnersOf(owner: seq<int>, held: set<nat>): set<nat>
    requires forall j | j in held :: j < |owner| && owner[j] >= 0
  {
    set j | j in held :: owner[j]
  }

  lemma {:induction false} OwnersOfSize(owner: seq<int>, held: set<nat>)
    requires forall j | j in held :: j < |owner| && owner[j] >= 0
    ensures |OwnersOf(owner, held)| <= |held|
    decreases |held|
  {
    if held != {} {
      var k :| k in held;
      OwnersOfSize(owner, held - {k});
      assert OwnersOf(owner, held) == OwnersOf(owner, held - {k}) + {owner[k]};
    }
  }

  lemma RegionCover(adj: Adjacency, owner: seq<int>, region: set<nat>, w: set<Edge>)
    requires OwnerOk(adj, owner) && Closed(adj, owner, region)
    requires CoveredUpTo(adj, owner, region, |adj|)
    requires MatchingOf(w, Edges(adj))
    ensures |w| <= |Holding(owner, AllRight(|owner|)).Keys|
  {
    var held := Holding(owner, AllRight(|owner|)).Keys;
    var left := OwnersOf(owner, held - region);
    forall e: Edge | e in w ensures e.0 in left || e.1 in region {
      assert CoveredOrOwned(adj, owner, region, e.0);
      if !Inside(adj, e.0, region) {
        var j :| j in held && owner[j] == e.0;
        assert j !in region;
      }
    }
    CoverBoundsMatching(w, left, region);
    OwnersOfSize(owner, held - region);
    assert |held - region| == |held| - |region|;
  }

  /** A failed search adds its visited set to the closed region and covers its root. */
  lemma GrowRegion(adj: Adjacency, owner: seq<int>, region: set<nat>, visited: seq<bool>, i: nat)
    returns (grown: set<nat>)
    requires i < |adj| && |owner| == |visited| && WellFormed(adj, |owner|)
    requires OwnerOk(adj, owner) && Closed(adj, owner, region) && CoveredUpTo(adj, owner, region, i)
    requires Exhausted(adj, i, visited) && DeadEnds(adj, owner, seq(|owner|, _ => false), visited)
    ensures Closed(adj, owner, grown) && CoveredUpTo(adj, owner, grown, i + 1)
  {
    var searched := set j: nat | j < |owner| && visited[j];
    grown := region + searched;
    forall j | j in grown ensures j < |owner| && 0 <= owner[j] < |adj| && Inside(adj, owner[j], grown) {
      if j in region {
        assert Inside(adj, owner[j], region);
      } else {
        assert Exhausted(adj, owner[j], visited);
      }
    }
    assert Inside(adj, i, grown);
    forall l: nat | l < i ensures CoveredOrOwned(adj, owner, grown, l) {
      assert CoveredOrOwned(adj, owner, region, l);
    }
  }

  /** A successful search leaves the region closed and keeps everything covered. */
  lemma KeepRegion(adj: Adjacency, before: seq<int>, after: seq<int>, region: set<nat>, i: nat)
    requires |before| == |after| && i < |adj|
    requires Closed(adj, before, region) && CoveredUpTo(adj, before, region, i)
    requires forall j | j in region :: after[j] == before[j]
    requires Owners(after, AllRight(|after|)) == Owners(before, AllRight(|before|)) + {i}
    ensures Closed(adj, after, region) && CoveredUpTo(adj, after, region, i + 1)
  {
    forall l: nat | l < i ensures CoveredOrOwned(adj, after, region, l) {
      assert CoveredOrOwned(adj, before, region, l);
    }
  }

  /** What the outer loop of the search keeps before examining left vertex `i`. */
  ghost predicate Progress(adj: Adjacency, owner: seq<int>, region: set<nat>, i: nat, matched: nat) {
    && WellFormed(adj, |owner|) && OwnerOk(adj, owner) && Closed(adj, owner, region)
    && Injective(Holding(owner, AllRight(|owner|)))
    && (forall l | l in Owners(owner, AllRight(|owner|)) :: 0 <= l < i)
    && matched == |Owners(owner, AllRight(|owner|))|
    && CoveredUpTo(adj, owner, region, i)
  }

  lemma StartProgress(adj: Adjacency, owner: seq<int>)
    requires WellFormed(adj, |owner|) && forall j | 0 <= j < |owner| :: owner[j] == -1
    ensures Progress(adj, owner, {}, 0, 0)
  {
    assert Holding(owner, AllRight(|owner|)) == map[];
  }

  lemma StepProgress(adj: Adjacency, before: seq<int>, after: seq<int>, region: set<nat>, i: nat, matched: nat)
    requires |before| == |after| && i < |adj| && Progress(adj, before, region, i, matched)
    requires OwnerOk(adj, after) && Gained(before, after, AllRight(|before|), i)
    requires forall j | j in region :: after[j] == before[j]
    ensures Progress(adj, after, region, i + 1, matched + 1)
  {
    KeepRegion(adj, before, after, region, i);
  }

  lemma EndProgress(adj: Adjacency, owner: seq<int>, region: set<nat>, matched: nat)
    requires Progress(adj, owner, region, |adj|, matched)
    ensures matched == MatchingNumber(Edges(adj))
  {
    OwnedIsMaximum(adj, owner, region);
  }

  /** The outer loop: one search per left vertex, counting the successes. */
  method MaximumMatching(adj: Adjacency, right: nat) returns (matched: nat)
    requires WellFormed(adj, right)
    ensures matched == MatchingNumber(Edges(adj))
  {
    var owner := new int[right](_ => -1);
    matched := 0;
    ghost var region: set<nat> := {};
    StartProgress(adj, owner[..]);
    for i := 0 to |adj|
      invariant Progress(adj, owner[..], region, i, matched)
    {
      var visited := new bool[right](_ => false);
      assert visited[..] == seq(right, _ => false);
      ghost var before := owner[..];
      var ok := Assign(adj, i, owner, visited, region);
      if ok {
        matched := matched + 1;
        StepProgress(adj, before, owner[..], region, i, matched - 1);
      } else {
        region := GrowRegion(adj, owner[..], region, visited[..], i);
      }
    }
    EndProgress(adj, owner[..], region, matched);
  }
}
