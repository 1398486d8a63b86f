/** Sizes of sets and maps. */
module Tables {
  lemma Subset<A>(a: set<A>, b: set<A>)
    requires a <= b
    ensures |a| <= |b|
  {
    assert b == a + (b - a);
  }

  lemma Fewer<A>(a: set<A>, b: set<A>, x: A)
    requires a <= b && x in b && x !in a
    ensures |a| < |b|
  {
    Subset(a + {x}, b);
  }

  lemma KeyCount<K, V>(m: map<K, V>)
    ensures |m.Keys| == |m|
  {}

  lemma SameSize<K, V, W>(m: map<K, V>, n: map<K, W>)
    requires m.Keys == n.Keys
    ensures |m| == |n|
  {
    KeyCount(m);
    KeyCount(n);
  }

  lemma Growth<K, V>(m: map<K, V>, k: K, v: V)
    ensures |m[k := v]| == if k in m then |m| else |m| + 1
  {
    var m' := m[k := v];
    assert m'.Keys == m.Keys + {k};
    if k in m {
      assert m'.Keys == m.Keys;
    }
  }

  lemma Shrinks<K, V>(m: map<K, V>, ks: set<K>)
    ensures |m - ks| <= |m|
  {
    Subset((m - ks).Keys, m.Keys);
  }
}
