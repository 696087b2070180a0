/** Cardinality facts about finite maps and sets used by the matching. */
module SetFacts {
  ghost predicate Injective<K, V>(m: map<K, V>) {
    forall a, b | a in m && b in m && m[a] == m[b] :: a == b
  }

  /** An injective map has as many values as keys. */
  lemma {:induction false} InjectiveSize<K, V>(m: map<K, V>)
    requires Injective(m)
    ensures |m.Values| == |m.Keys|
    decreases |m|
  {
    if m.Keys == {} {
      assert m.Values == {};
    } else {
      var k :| k in m;
      var rest := m - {k};
      assert rest.Keys == m.Keys - {k};
      assert rest.Values == m.Values - {m[k]} by {
        forall v | v in m.Values - {m[k]} ensures v in rest.Values {
          var a :| a in m && m[a] == v;
          assert a in rest && rest[a] == v;
        }
      }
      InjectiveSize(rest);
      assert m[k] in m.Values;
    }
  }

  lemma {:induction false} SubsetSize<T>(a: set<T>, b: set<T>)
    requires a <= b
    ensures |a| <= |b|
  {
    assert b == a + (b - a);
  }
}
