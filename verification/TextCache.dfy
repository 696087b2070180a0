/**
 * The per-thread cache of rendered text lines (engine/src/display/text_overlay.cpp): a
 * recency list, a lookup that points into it, a count of bytes, and a table of misses that
 * admits a line only when it has been asked for three times.
 *
 * A list node has an identity, so that the lookup's pointers can be told apart from the keys.
 * `used` and `clock` record when a node was last asked for; the program does not keep them.
 */
module TextMaskCache {
  datatype Option<T> = None | Some(value: T)

  datatype Key = Key(text: string, height: int, stroke: int, shadow: int)
  datatype Mask = Mask(of: Key, bytes: nat)
  datatype Node = Node(id: nat, key: Key, mask: Mask, used: nat)
  datatype Cache = Cache(lru: seq<Node>, lookup: map<Key, nat>, admissions: map<Key, nat>, bytes: int, clock: nat, nextId: nat)

  const MAX_MASKS: nat := 96
  const MAX_BYTES: nat := 8 * 1024 * 1024
  const MAX_ADMISSIONS: nat := 256
  const ADMISSION_HITS: nat := 3

  const EMPTY := Cache([], map[], map[], 0, 0, 0)

  function Min(a: int, b: int): int { if a < b then a else b }

  /** The position of a node; the list's length if it is not there. */
  function At(lru: seq<Node>, id: nat): (i: nat)
    ensures i <= |lru| && (i < |lru| ==> lru[i].id == id)
  {
    if lru == [] || lru[0].id == id then 0 else 1 + At(lru[1..], id)
  }

  /** `splice` to the front. */
  function Touch(lru: seq<Node>, i: nat, now: nat): seq<Node>
    requires i < |lru|
  {
    [lru[i].(used := now)] + lru[..i] + lru[i + 1..]
  }

  function EvictOldest(c: Cache): Cache {
    if c.lru == [] then c
    else
      var last := c.lru[|c.lru| - 1];
      c.(bytes := c.bytes - Min(c.bytes, last.mask.bytes), lookup := c.lookup - {last.key}, lru := c.lru[..|c.lru| - 1])
  }

  predicate Crowded(c: Cache, need: nat) {
    c.lru != [] && (|c.lru| >= MAX_MASKS || c.bytes + need > MAX_BYTES)
  }

  function MakeRoom(c: Cache, need: nat): Cache
    decreases |c.lru|
  {
    if Crowded(c, need) then MakeRoom(EvictOldest(c), need) else c
  }

  /** One more miss of a key, after the table was emptied if it was full. */
  function Counted(c: Cache, key: Key): Cache {
    var table := if |c.admissions| >= MAX_ADMISSIONS && key !in c.admissions then map[] else c.admissions;
    var hits := if key in table then table[key] else 0;
    c.(admissions := table[key := if hits < ADMISSION_HITS then hits + 1 else hits])
  }

  function Insert(c: Cache, key: Key, bytes: nat): Cache {
    var room := MakeRoom(c.(admissions := c.admissions - {key}), bytes);
    room.(bytes := room.bytes + bytes, lru := [Node(room.nextId, key, Mask(key, bytes), room.clock)] + room.lru,
          lookup := room.lookup[key := room.nextId], clock := room.clock + 1, nextId := room.nextId + 1)
  }

  datatype Reply = Reply(cache: Cache, mask: Option<Mask>)

  /** `cached_text_mask`; `built` is the size of the mask if rendering it succeeds. */
  function Request(c: Cache, key: Key, built: Option<nat>): Reply {
    if key in c.lookup then
      var i := At(c.lru, c.lookup[key]);
      if i < |c.lru| then Reply(c.(lru := Touch(c.lru, i, c.clock), clock := c.clock + 1), Some(c.lru[i].mask))
      else Reply(c, None)
    else
      var d := Counted(c, key);
      if d.admissions[key] < ADMISSION_HITS || built.None? || built.value > MAX_BYTES then Reply(d, None)
      else Reply(Insert(d, key, built.value), Some(Mask(key, built.value)))
  }

  datatype Ask = Ask(key: Key, built: Option<nat>)

  function After(c: Cache, asks: seq<Ask>): Cache
    decreases |asks|
  {
    if asks == [] then c else After(Request(c, asks[0].key, asks[0].built).cache, asks[1..])
  }

  // ---------------------------------------------------------------------------
  // The invariant.

  function Bytes(lru: seq<Node>): nat { if lru == [] then 0 else lru[0].mask.bytes + Bytes(lru[1..]) }

  /** The lookup a list deserves. */
  function Table(lru: seq<Node>): map<Key, nat> {
    if lru == [] then map[] else Table(lru[1..])[lru[0].key := lru[0].id]
  }

  ghost predicate Distinct(lru: seq<Node>) {
    forall i, j | 0 <= i < j < |lru| :: lru[i].key != lru[j].key && lru[i].id != lru[j].id
  }

  /** Most recently used first. */
  ghost predicate ByRecency(lru: seq<Node>) {
    forall i, j | 0 <= i < j < |lru| :: lru[i].used > lru[j].used
  }

  ghost predicate NodesOk(lru: seq<Node>, clock: nat, nextId: nat) {
    forall i | 0 <= i < |lru| :: lru[i].mask.of == lru[i].key && lru[i].used < clock && lru[i].id < nextId
  }

  ghost predicate ListInv(c: Cache) {
    && Distinct(c.lru) && ByRecency(c.lru) && NodesOk(c.lru, c.clock, c.nextId)
    && c.lookup == Table(c.lru) && c.bytes == Bytes(c.lru)
  }

  ghost predicate SizeInv(c: Cache) { |c.lru| <= MAX_MASKS && c.bytes <= MAX_BYTES }

  ghost predicate AdmissionInv(c: Cache) {
    && |c.admissions| <= MAX_ADMISSIONS
    && forall k | k in c.admissions :: 1 <= c.admissions[k] <= ADMISSION_HITS && k !in c.lookup
  }

  ghost predicate Inv(c: Cache) { ListInv(c) && SizeInv(c) && AdmissionInv(c) }

  // ---------------------------------------------------------------------------

  lemma {:induction false} TableHas(lru: seq<Node>, key: Key)
    ensures key in Table(lru) <==> exists i | 0 <= i < |lru| :: lru[i].key == key
    decreases |lru|
  {
    if lru != [] {
      TableHas(lru[1..], key);
      if key in Table(lru[1..]) {
        var i :| 0 <= i < |lru[1..]| && lru[1..][i].key == key;
        assert lru[i + 1].key == key;
      }
      if exists i | 0 <= i < |lru| :: lru[i].key == key {
        var i :| 0 <= i < |lru| && lru[i].key == key;
        assert i > 0 ==> lru[1..][i - 1].key == key;
      }
    }
  }

  lemma {:induction false} TableAt(lru: seq<Node>, i: nat)
    requires Distinct(lru) && i < |lru|
    ensures lru[i].key in Table(lru) && Table(lru)[lru[i].key] == lru[i].id && At(lru, lru[i].id) == i
    decreases i
  {
    if i > 0 {
      assert lru[1..][i - 1] == lru[i];
      assert lru[0].id != lru[i].id && lru[0].key != lru[i].key;
      TableAt(lru[1..], i - 1);
    }
  }

  lemma {:induction false} DropLast(lru: seq<Node>)
    requires Distinct(lru) && lru != []
    ensures Table(lru[..|lru| - 1]) == Table(lru) - {lru[|lru| - 1].key}
    ensures Bytes(lru[..|lru| - 1]) == Bytes(lru) - lru[|lru| - 1].mask.bytes
    decreases |lru|
  {
    if |lru| > 1 {
      DropLast(lru[1..]);
      assert lru[..|lru| - 1][1..] == lru[1..][..|lru| - 2];
      assert lru[1..][|lru| - 2] == lru[|lru| - 1];
      assert lru[0].key != lru[|lru| - 1].key;
    } else {
      assert lru[..0] == [] && lru[1..] == [];
    }
  }

  lemma {:induction false} MoveToFront(lru: seq<Node>, i: nat, n: Node)
    requires Distinct(lru) && i < |lru| && n.key == lru[i].key && n.id == lru[i].id && n.mask == lru[i].mask
    ensures Table([n] + lru[..i] + lru[i + 1..]) == Table(lru) && Bytes([n] + lru[..i] + lru[i + 1..]) == Bytes(lru)
    decreases i
  {
    var moved := [n] + lru[..i] + lru[i + 1..];
    var others := lru[..i] + lru[i + 1..];
    assert moved[1..] == others;
    if i > 0 {
      var rest := lru[1..];
      assert rest[i - 1] == lru[i];
      MoveToFront(rest, i - 1, n);
      assert ([n] + rest[..i - 1] + rest[i..])[1..] == rest[..i - 1] + rest[i..];
      assert others[0] == lru[0] && others[1..] == rest[..i - 1] + rest[i..];
      assert lru[0].key != lru[i].key;
    } else {
      assert others == lru[1..];
    }
  }

  lemma EvictKeeps(c: Cache)
    requires ListInv(c) && SizeInv(c) && c.lru != []
    ensures ListInv(EvictOldest(c)) && SizeInv(EvictOldest(c))
    ensures c.bytes >= c.lru[|c.lru| - 1].mask.bytes
    ensures EvictOldest(c).lookup.Keys <= c.lookup.Keys && EvictOldest(c).admissions == c.admissions
  {
    DropLast(c.lru);
  }

  lemma {:induction false} MakeRoomKeeps(c: Cache, need: nat)
    requires ListInv(c) && SizeInv(c) && need <= MAX_BYTES
    ensures var r := MakeRoom(c, need);
            ListInv(r) && |r.lru| < MAX_MASKS && r.bytes + need <= MAX_BYTES
            && r.lru <= c.lru && r.lookup.Keys <= c.lookup.Keys
            && r.admissions == c.admissions && r.clock == c.clock && r.nextId == c.nextId
    decreases |c.lru|
  {
    if Crowded(c, need) {
      EvictKeeps(c);
      MakeRoomKeeps(EvictOldest(c), need);
    }
  }

  lemma PushFrontKeeps(c: Cache, key: Key, bytes: nat)
    requires ListInv(c) && key !in c.lookup
    ensures ListInv(c.(bytes := c.bytes + bytes, lru := [Node(c.nextId, key, Mask(key, bytes), c.clock)] + c.lru,
                       lookup := c.lookup[key := c.nextId], clock := c.clock + 1, nextId := c.nextId + 1))
  {
    var n := Node(c.nextId, key, Mask(key, bytes), c.clock);
    var lru := [n] + c.lru;
    assert lru[1..] == c.lru;
    TableHas(c.lru, key);
    forall i, j | 0 <= i < j < |lru|
      ensures lru[i].key != lru[j].key && lru[i].id != lru[j].id && lru[i].used > lru[j].used
    {
      assert lru[j] == c.lru[j - 1];
      assert i > 0 ==> lru[i] == c.lru[i - 1];
    }
    forall i | 0 <= i < |lru| ensures lru[i].mask.of == lru[i].key && lru[i].used < c.clock + 1 && lru[i].id < c.nextId + 1 {
      assert i > 0 ==> lru[i] == c.lru[i - 1];
    }
  }

  lemma InsertKeeps(c: Cache, key: Key, bytes: nat)
    requires Inv(c) || (ListInv(c) && SizeInv(c) && |c.admissions| <= MAX_ADMISSIONS && AdmittedApart(c, key))
    requires key !in c.lookup && bytes <= MAX_BYTES
    ensures Inv(Insert(c, key, bytes))
  {
    var d := c.(admissions := c.admissions - {key});
    MakeRoomKeeps(d, bytes);
    PushFrontKeeps(MakeRoom(d, bytes), key, bytes);
    FewerAdmissions(c.admissions, key);
  }

  ghost predicate AdmittedApart(c: Cache, key: Key) {
    forall k | k in c.admissions :: 1 <= c.admissions[k] <= ADMISSION_HITS && (k !in c.lookup || k == key)
  }

  lemma FewerAdmissions(table: map<Key, nat>, key: Key)
    ensures |table - {key}| <= |table|
  {
    var less := table - {key};
    assert less.Keys == table.Keys - {key};
    assert |less| == |less.Keys| && |table| == |table.Keys|;
  }

  lemma TouchKeeps(c: Cache, i: nat)
    requires ListInv(c) && i < |c.lru|
    ensures ListInv(c.(lru := Touch(c.lru, i, c.clock), clock := c.clock + 1))
  {
    var n := c.lru[i].(used := c.clock);
    MoveToFront(c.lru, i, n);
    TouchOrders(c.lru, i, c.clock, c.nextId);
  }

  function Source(i: nat, k: nat): nat { if k == 0 then i else if k <= i then k - 1 else k }

  lemma TouchAt(lru: seq<Node>, i: nat, now: nat, k: nat)
    requires i < |lru| && k < |lru|
    ensures Source(i, k) < |lru| && |Touch(lru, i, now)| == |lru|
    ensures Touch(lru, i, now)[k] == if k == 0 then lru[i].(used := now) else lru[Source(i, k)]
  {
  }

  lemma TouchOrders(lru: seq<Node>, i: nat, clock: nat, nextId: nat)
    requires Distinct(lru) && ByRecency(lru) && NodesOk(lru, clock, nextId) && i < |lru|
    ensures Distinct(Touch(lru, i, clock)) && ByRecency(Touch(lru, i, clock)) && NodesOk(Touch(lru, i, clock), clock + 1, nextId)
  {
    var t := Touch(lru, i, clock);
    TouchAt(lru, i, clock, 0);
    forall k | 0 <= k < |t| ensures t[k].mask.of == t[k].key && t[k].used < clock + 1 && t[k].id < nextId {
      TouchAt(lru, i, clock, k);
    }
    forall k, l | 0 <= k < l < |t| ensures t[k].key != t[l].key && t[k].id != t[l].id && t[k].used > t[l].used {
      TouchPair(lru, i, clock, nextId, k, l);
    }
  }

  lemma TouchPair(lru: seq<Node>, i: nat, clock: nat, nextId: nat, k: nat, l: nat)
    requires Distinct(lru) && ByRecency(lru) && NodesOk(lru, clock, nextId) && i < |lru| && k < l < |lru|
    ensures var t := Touch(lru, i, clock);
            |t| == |lru| && t[k].key != t[l].key && t[k].id != t[l].id && t[k].used > t[l].used
  {
    TouchAt(lru, i, clock, k);
    TouchAt(lru, i, clock, l);
    hide Touch;
    var a, b := Source(i, k), Source(i, l);
    assert a != b;
    if a < b {
      assert lru[a].key != lru[b].key;
    } else {
      assert lru[b].key != lru[a].key;
    }
  }

  lemma HitKeeps(c: Cache, key: Key)
    requires Inv(c) && key in c.lookup
    ensures var i := At(c.lru, c.lookup[key]);
            i < |c.lru| && c.lru[i].key == key && c.lru[i].mask.of == key
            && Inv(c.(lru := Touch(c.lru, i, c.clock), clock := c.clock + 1))
  {
    TableHas(c.lru, key);
    var i :| 0 <= i < |c.lru| && c.lru[i].key == key;
    TableAt(c.lru, i);
    TouchKeeps(c, i);
  }

  lemma RequestKeeps(c: Cache, key: Key, built: Option<nat>)
    requires Inv(c)
    ensures Inv(Request(c, key, built).cache)
  {
    if key in c.lookup {
      HitKeeps(c, key);
    } else {
      var d := Counted(c, key);
      if !(d.admissions[key] < ADMISSION_HITS || built.None? || built.value > MAX_BYTES) {
        InsertKeeps(d, key, built.value);
      }
    }
  }

  lemma {:induction false} AfterKeeps(c: Cache, asks: seq<Ask>)
    requires Inv(c)
    ensures Inv(After(c, asks))
    decreases |asks|
  {
    hide Inv, Request;
    if asks != [] {
      RequestKeeps(c, asks[0].key, asks[0].built);
      AfterKeeps(Request(c, asks[0].key, asks[0].built).cache, asks[1..]);
    }
  }

  // ---------------------------------------------------------------------------
  // The claims.

  lemma Reached(asks: seq<Ask>)
    ensures Inv(After(EMPTY, asks))
  {
    AfterKeeps(EMPTY, asks);
  }

  /** Lookup and list are in one-to-one correspondence by key. */
  lemma LookupMatchesList(asks: seq<Ask>, key: Key)
    ensures var c := After(EMPTY, asks);
            (key in c.lookup <==> exists i | 0 <= i < |c.lru| :: c.lru[i].key == key)
            && (forall i | 0 <= i < |c.lru| && c.lru[i].key == key :: key in c.lookup && c.lookup[key] == c.lru[i].id && At(c.lru, c.lookup[key]) == i)
  {
    var c := After(EMPTY, asks);
    Reached(asks);
    TableHas(c.lru, key);
    forall i | 0 <= i < |c.lru| && c.lru[i].key == key
      ensures key in c.lookup && c.lookup[key] == c.lru[i].id && At(c.lru, c.lookup[key]) == i
    {
      TableAt(c.lru, i);
    }
  }

  /** The byte count is the sum of the entries, within both limits, and a subtraction never has to be clamped. */
  lemma BytesAreExact(asks: seq<Ask>)
    ensures var c := After(EMPTY, asks);
            c.bytes == Bytes(c.lru) && c.bytes <= 8388608 && |c.lru| <= 96 && |c.admissions| <= 256
            && (c.lru != [] ==> Min(c.bytes, c.lru[|c.lru| - 1].mask.bytes) == c.lru[|c.lru| - 1].mask.bytes)
  {
    var c := After(EMPTY, asks);
    Reached(asks);
    if c.lru != [] {
      EvictKeeps(c);
    }
  }

  /** Whatever is returned was built for the key asked for, and a cached key is always answered. */
  lemma AnswersFitTheKey(asks: seq<Ask>, key: Key, built: Option<nat>)
    ensures var c := After(EMPTY, asks);
            var r := Request(c, key, built);
            (r.mask.Some? ==> r.mask.value.of == key && key in r.cache.lookup)
            && (key in c.lookup ==> r.mask.Some?)
  {
    Reached(asks);
    var c := After(EMPTY, asks);
    if key in c.lookup {
      HitKeeps(c, key);
      MoveToFront(c.lru, At(c.lru, c.lookup[key]), c.lru[At(c.lru, c.lookup[key])].(used := c.clock));
    }
  }

  lemma {:induction false} AfterSnoc(c: Cache, asks: seq<Ask>, a: Ask)
    ensures After(c, asks + [a]) == Request(After(c, asks), a.key, a.built).cache
    decreases |asks|
  {
    if asks == [] {
      assert asks + [a] == [a] && [a][1..] == [];
    } else {
      AfterSnoc(Request(c, asks[0].key, asks[0].built).cache, asks[1..], a);
      assert (asks + [a])[1..] == asks[1..] + [a];
    }
  }

  /** How often `key` was missed since it was last absent from the table of misses. */
  ghost function Misses(asks: seq<Ask>, key: Key): nat {
    if asks == [] || key !in After(EMPTY, asks).admissions then 0
    else
      var front, last := asks[..|asks| - 1], asks[|asks| - 1];
      Misses(front, key) + if last.key == key && key !in After(EMPTY, front).lookup then 1 else 0
  }

  /** A request changes the table's count of its own key alone, unless it empties the table. */
  lemma RequestCounts(c: Cache, ask: Ask, key: Key)
    requires Inv(c)
    ensures var d := Request(c, ask.key, ask.built).cache;
            key in d.admissions ==>
              if ask.key == key && key !in c.lookup then d.admissions[key] == Min(3, (if key in c.admissions then c.admissions[key] else 0) + 1)
              else key in c.admissions && d.admissions[key] == c.admissions[key]
  {
    if ask.key !in c.lookup {
      var d := Counted(c, ask.key);
      if !(d.admissions[ask.key] < ADMISSION_HITS || ask.built.None? || ask.built.value > MAX_BYTES) {
        MakeRoomKeeps(d.(admissions := d.admissions - {ask.key}), ask.built.value);
      }
    }
  }

  /** The table counts the misses, up to three. */
  lemma {:induction false} MissesAreCounted(asks: seq<Ask>, key: Key)
    ensures var c := After(EMPTY, asks);
            if key in c.admissions then Misses(asks, key) >= 1 && c.admissions[key] == Min(3, Misses(asks, key))
            else Misses(asks, key) == 0
    decreases |asks|
  {
    if asks != [] {
      var front, last := asks[..|asks| - 1], asks[|asks| - 1];
      assert asks == front + [last];
      AfterSnoc(EMPTY, front, last);
      Reached(front);
      MissesAreCounted(front, key);
      hide Inv, Request, After;
      RequestCounts(After(EMPTY, front), last, key);
    }
  }

  /**
   * A miss lets a line into the cache exactly if it is the third at least since the line was last
   * absent from the table, and the mask can be built and is not too large. Requests for other lines
   * may come between; when one of them empties the table, the line is absent again.
   */
  lemma AdmittedFromTheThird(asks: seq<Ask>, key: Key, built: Option<nat>)
    requires key !in After(EMPTY, asks).lookup
    ensures var r := Request(After(EMPTY, asks), key, built);
            && (key in r.cache.lookup <==> Misses(asks, key) + 1 >= ADMISSION_HITS && built.Some? && built.value <= MAX_BYTES)
            && (r.mask.Some? <==> key in r.cache.lookup)
  {
    Reached(asks);
    MissesAreCounted(asks, key);
  }

  /** Only a request for a line lets it in. */
  lemma OthersLetNothingIn(c: Cache, ask: Ask, key: Key)
    requires Inv(c) && key !in c.lookup && ask.key != key
    ensures key !in Request(c, ask.key, ask.built).cache.lookup
  {
    if ask.key !in c.lookup {
      var d := Counted(c, ask.key);
      if !(d.admissions[ask.key] < ADMISSION_HITS || ask.built.None? || ask.built.value > MAX_BYTES) {
        MakeRoomKeeps(d.(admissions := d.admissions - {ask.key}), ask.built.value);
      }
    }
  }

  lemma EntersFromTheThird(asks: seq<Ask>, last: Ask, key: Key)
    requires key !in After(EMPTY, asks).lookup && key in After(EMPTY, asks + [last]).lookup
    ensures last.key == key && Misses(asks, key) + 1 >= ADMISSION_HITS
  {
    AfterSnoc(EMPTY, asks, last);
    Reached(asks);
    hide Inv, Request, After, Misses;
    if last.key == key {
      AdmittedFromTheThird(asks, key, last.built);
    } else {
      OthersLetNothingIn(After(EMPTY, asks), last, key);
    }
  }

  /** A cached line was let in by a miss, the third at least since it was last absent from the table, and has stayed since. */
  lemma {:induction false} CachedMeansThreeMisses(asks: seq<Ask>, key: Key) returns (n: nat)
    requires key in After(EMPTY, asks).lookup
    ensures n < |asks| && asks[n].key == key && key !in After(EMPTY, asks[..n]).lookup
    ensures Misses(asks[..n], key) + 1 >= ADMISSION_HITS
    ensures forall m | n < m <= |asks| :: key in After(EMPTY, asks[..m]).lookup
    decreases |asks|
  {
    assert asks != [];
    hide After, Misses;
    var front, last := asks[..|asks| - 1], asks[|asks| - 1];
    assert asks == front + [last] && asks[..|asks|] == asks;
    if key in After(EMPTY, front).lookup {
      n := CachedMeansThreeMisses(front, key);
      assert forall m | 0 <= m <= |front| :: front[..m] == asks[..m];
    } else {
      n := |front|;
      EntersFromTheThird(front, last, key);
    }
  }

  /** A request leaves out no line but the least recently used ones. */
  lemma OnlyOldestLeave(asks: seq<Ask>, key: Key, built: Option<nat>, i: nat, j: nat)
    requires var c := After(EMPTY, asks);
             i < |c.lru| && j < |c.lru| && c.lru[i].used > c.lru[j].used && key !in c.lookup
    ensures var c := After(EMPTY, asks);
            var d := Request(c, key, built).cache;
            c.lru[j].key in d.lookup ==> c.lru[i].key in d.lookup
  {
    var c := After(EMPTY, asks);
    Reached(asks);
    RequestKeeps(c, key, built);
    var m := Counted(c, key);
    TableAt(c.lru, i);
    TableAt(c.lru, j);
    if !(m.admissions[key] < ADMISSION_HITS || built.None? || built.value > MAX_BYTES) {
      InsertDropsATail(c, key, built, i, j);
    }
  }

  lemma {:induction false} BytesRise(lru: seq<Node>, m: nat, n: nat)
    requires m <= n <= |lru|
    ensures Bytes(lru[..m]) <= Bytes(lru[..n])
    decreases n
  {
    if m > 0 {
      assert lru[..m][1..] == lru[1..][..m - 1] && lru[..n][1..] == lru[1..][..n - 1];
      BytesRise(lru[1..], m - 1, n - 1);
    }
  }

  /** The `n` most recent lines and `need` bytes more would break a limit. */
  predicate TooMuch(lru: seq<Node>, n: nat, need: nat)
    requires n <= |lru|
  {
    n > 0 && (n >= MAX_MASKS || Bytes(lru[..n]) + need > MAX_BYTES)
  }

  /** Making room leaves the longest stretch of recent lines that keeps the limits. */
  lemma {:induction false} RoomIsLongest(c: Cache, need: nat)
    requires ListInv(c) && SizeInv(c) && need <= MAX_BYTES
    ensures var n := |MakeRoom(c, need).lru|;
            n <= |c.lru| && MakeRoom(c, need).lru == c.lru[..n] && !TooMuch(c.lru, n, need) && (n < |c.lru| ==> TooMuch(c.lru, n + 1, need))
    decreases |c.lru|
  {
    assert c.lru[..|c.lru|] == c.lru;
    if Crowded(c, need) {
      EvictKeeps(c);
      var d := EvictOldest(c);
      RoomIsLongest(d, need);
      var n := |MakeRoom(d, need).lru|;
      assert d.lru[..n] == c.lru[..n];
      assert n < |d.lru| ==> d.lru[..n + 1] == c.lru[..n + 1];
    }
  }

  lemma RoomDropsIff(c: Cache, need: nat, i: nat)
    requires ListInv(c) && SizeInv(c) && need <= MAX_BYTES && i < |c.lru|
    ensures c.lru[i].key !in Table(MakeRoom(c, need).lru) <==> TooMuch(c.lru, i + 1, need)
  {
    RoomIsLongest(c, need);
    var n := |MakeRoom(c, need).lru|;
    StaysIffRecent(c.lru, n, i);
    hide MakeRoom, Table, Bytes;
    if n <= i {
      BytesRise(c.lru, n + 1, i + 1);
    } else {
      BytesRise(c.lru, i + 1, n);
    }
  }

  lemma InsertDropsIff(d: Cache, key: Key, size: nat, i: nat)
    requires ListInv(d) && SizeInv(d) && size <= MAX_BYTES && i < |d.lru| && d.lru[i].key != key
    ensures d.lru[i].key !in Insert(d, key, size).lookup <==> TooMuch(d.lru, i + 1, size)
  {
    var e := d.(admissions := d.admissions - {key});
    RoomDropsIff(e, size, i);
    MakeRoomKeeps(e, size);
    hide MakeRoom, Table, TooMuch;
  }

  /**
   * When a line enters, a cached line leaves exactly if the lines used since, itself included, and the
   * new one would be more than 96 or more than 8 MiB.
   */
  lemma LineLeavesIff(asks: seq<Ask>, key: Key, size: nat, i: nat)
    requires var c := After(EMPTY, asks);
             key !in c.lookup && i < |c.lru| && Misses(asks, key) + 1 >= ADMISSION_HITS && size <= MAX_BYTES
    ensures var c := After(EMPTY, asks);
            c.lru[i].key !in Request(c, key, Some(size)).cache.lookup <==> i + 2 > 96 || Bytes(c.lru[..i + 1]) + size > 8388608
  {
    var c := After(EMPTY, asks);
    Reached(asks);
    MissesAreCounted(asks, key);
    TableAt(c.lru, i);
    hide MakeRoom, Table, Misses, After;
    InsertDropsIff(Counted(c, key), key, size, i);
  }

  lemma StaysIffRecent(lru: seq<Node>, n: nat, i: nat)
    requires Distinct(lru) && n <= |lru| && i < |lru|
    ensures lru[i].key in Table(lru[..n]) <==> i < n
  {
    TableHas(lru[..n], lru[i].key);
    if i < n {
      assert lru[..n][i].key == lru[i].key;
    }
    if lru[i].key in Table(lru[..n]) {
      var k :| 0 <= k < |lru[..n]| && lru[..n][k].key == lru[i].key;
      assert lru[k].key == lru[i].key;
    }
  }

  /** A line that was missed but not let in is forgotten only when the table holds 256 lines and another is missed. */
  lemma MissesAreForgottenIff(asks: seq<Ask>, ask: Ask, key: Key)
    requires key in After(EMPTY, asks).admissions && ask.key != key
    ensures var c := After(EMPTY, asks);
            key !in Request(c, ask.key, ask.built).cache.admissions <==>
              ask.key !in c.lookup && ask.key !in c.admissions && |c.admissions| >= 256
  {
    Reached(asks);
    var c := After(EMPTY, asks);
    if ask.key !in c.lookup {
      var d := Counted(c, ask.key);
      if !(d.admissions[ask.key] < ADMISSION_HITS || ask.built.None? || ask.built.value > MAX_BYTES) {
        MakeRoomKeeps(d.(admissions := d.admissions - {ask.key}), ask.built.value);
      }
    }
  }

  lemma InsertDropsATail(c: Cache, key: Key, built: Option<nat>, i: nat, j: nat)
    requires Inv(c) && key !in c.lookup && i < |c.lru| && j < |c.lru| && c.lru[i].used > c.lru[j].used
    requires built.Some? && built.value <= MAX_BYTES
    ensures var d := Insert(Counted(c, key), key, built.value);
            c.lru[j].key in d.lookup ==> c.lru[i].key in d.lookup
  {
    var m := Counted(c, key);
    var n := m.(admissions := m.admissions - {key});
    var r := MakeRoom(n, built.value);
    MakeRoomKeeps(n, built.value);
    TableAt(c.lru, j);
    TableHas(r.lru, c.lru[j].key);
    if c.lru[j].key in r.lookup {
      var k :| 0 <= k < |r.lru| && r.lru[k].key == c.lru[j].key;
      assert r.lru[k] == c.lru[k];
      assert k == j && i < j;
      assert r.lru[i] == c.lru[i];
      TableAt(r.lru, i);
    }
  }
}
