/**
 * The cache's variables and the functions that update them in place
 * (engine/src/display/text_overlay.cpp).
 */
module TextMaskCacheCode {
  import opened TextMaskCache

  /** An element of the list as the program keeps it. */
  datatype Line = Line(id: nat, key: Key, mask: Mask)

  ghost predicate Lines(lru: seq<Line>, nodes: seq<Node>) {
    |lru| == |nodes| && forall i | 0 <= i < |lru| :: lru[i] == Line(nodes[i].id, nodes[i].key, nodes[i].mask)
  }

  lemma LinesAfterTouch(lru: seq<Line>, nodes: seq<Node>, i: nat, now: nat)
    requires Lines(lru, nodes) && i < |lru|
    ensures Lines([lru[i]] + lru[..i] + lru[i + 1..], Touch(nodes, i, now))
  {
    forall k: nat | k < |lru|
      ensures Touch(nodes, i, now)[k] == if k == 0 then nodes[i].(used := now) else nodes[Source(i, k)]
    {
      TouchAt(nodes, i, now, k);
    }
  }

  class ThreadTextMaskCache {
    var lru: seq<Line>
    var lookup: map<Key, nat>
    var admissions: map<Key, nat>
    var bytes: int
    var nextId: nat
    /** The list with the stamps that the proofs about recency need. */
    ghost var nodes: seq<Node>
    ghost var clock: nat

    ghost predicate Valid()
      reads this
    {
      Lines(lru, nodes)
    }

    ghost function Value(): Cache
      reads this
    {
      Cache(nodes, lookup, admissions, bytes, clock, nextId)
    }

    constructor ()
      ensures Valid() && Value() == EMPTY
    {
      lru, lookup, admissions, bytes, nextId := [], map[], map[], 0, 0;
      nodes, clock := [], 0;
    }

    method EvictOldestMask()
      requires Valid()
      modifies this
      ensures Valid() && Value() == EvictOldest(old(Value()))
    {
      if lru == [] {
        return;
      }
      var oldest := lru[|lru| - 1];
      bytes := bytes - (if bytes < oldest.mask.bytes then bytes else oldest.mask.bytes);
      lookup := lookup - {oldest.key};
      lru := lru[..|lru| - 1];
      nodes := nodes[..|nodes| - 1];
    }

    method EvictUntilRoom(need: nat)
      requires Valid()
      modifies this
      ensures Valid() && Value() == MakeRoom(old(Value()), need)
    {
      while lru != [] && (|lru| >= MAX_MASKS || bytes + need > MAX_BYTES)
        invariant Valid() && MakeRoom(Value(), need) == MakeRoom(old(Value()), need)
        decreases |lru|
      {
        EvictOldestMask();
      }
    }

    /** Count a miss; the answer says whether the line may enter the cache. */
    method CountMiss(key: Key) returns (admit: bool)
      modifies `admissions
      ensures Value() == Counted(old(Value()), key) && key in admissions
      ensures admit == (admissions[key] >= ADMISSION_HITS)
    {
      if |admissions| >= MAX_ADMISSIONS && key !in admissions {
        admissions := map[];
      }
      var hits := if key in admissions then admissions[key] else 0;
      if hits < ADMISSION_HITS {
        hits := hits + 1;
      }
      admissions := admissions[key := hits];
      return hits >= ADMISSION_HITS;
    }

    method CachedMask(key: Key, built: Option<nat>) returns (mask: Option<Mask>, renderAsGlyphs: bool)
      requires Valid() && Inv(Value())
      modifies this
      ensures Valid() && Inv(Value())
      ensures Value() == Request(old(Value()), key, built).cache && mask == Request(old(Value()), key, built).mask
      ensures renderAsGlyphs <==> mask.None?
    {
      RequestKeeps(Value(), key, built);
      if key in lookup {
        HitKeeps(Value(), key);
        mask := SpliceToFront(lookup[key]);
        return mask, false;
      }
      var admit := CountMiss(key);
      if !admit || built.None? || built.value > MAX_BYTES {
        return None, true;
      }
      mask := Enter(key, built.value);
      return mask, false;
    }

    method SpliceToFront(id: nat) returns (mask: Option<Mask>)
      requires Valid() && At(nodes, id) < |nodes|
      modifies `lru, `nodes, `clock
      ensures Valid() && Value() == old(Value()).(lru := Touch(old(nodes), At(old(nodes), id), old(clock)), clock := old(clock) + 1)
      ensures mask == Some(old(nodes)[At(old(nodes), id)].mask)
    {
      var i := FindNode(lru, nodes, id);
      mask := Some(lru[i].mask);
      LinesAfterTouch(lru, nodes, i, clock);
      lru := [lru[i]] + lru[..i] + lru[i + 1..];
      nodes := Touch(nodes, i, clock);
      clock := clock + 1;
    }

    method Enter(key: Key, size: nat) returns (mask: Option<Mask>)
      requires Valid()
      modifies this
      ensures Valid() && Value() == Insert(old(Value()), key, size) && mask == Some(Mask(key, size))
    {
      admissions := admissions - {key};
      EvictUntilRoom(size);
      bytes := bytes + size;
      lru := [Line(nextId, key, Mask(key, size))] + lru;
      lookup := lookup[key := nextId];
      nodes := [Node(nextId, key, Mask(key, size), clock)] + nodes;
      clock, nextId := clock + 1, nextId + 1;
      return Some(Mask(key, size));
    }
  }

  method FindNode(lru: seq<Line>, ghost nodes: seq<Node>, id: nat) returns (i: nat)
    requires Lines(lru, nodes)
    ensures i == At(nodes, id)
  {
    i := 0;
    while i < |lru| && lru[i].id != id
      invariant i <= |lru| && At(nodes, id) == i + At(nodes[i..], id)
    {
      i := i + 1;
    }
  }
}
