/** Sums of a weight over the entries of a map. */
module Sums {

  ghost function Sum<K(!new), V>(w: V -> nat, m: map<K, V>): nat
    decreases |m|
  {
    if m == map[] then 0 else var p :| p in m; w(m[p]) + Sum(w, m - {p})
  }

  /** The order in which entries are added does not matter. */
  lemma {:induction false} SumRemove<K(!new), V>(w: V -> nat, m: map<K, V>, p: K)
    requires p in m
    ensures Sum(w, m) == w(m[p]) + Sum(w, m - {p})
    decreases |m|
  {
    var q :| q in m && Sum(w, m) == w(m[q]) + Sum(w, m - {q});
    if q != p {
      SumRemove(w, m - {q}, p);
      SumRemove(w, m - {p}, q);
      assert m - {q} - {p} == m - {p} - {q};
    }
  }

  lemma SumEmpty<K(!new), V>(w: V -> nat)
    ensures Sum<K, V>(w, map[]) == 0
  {
  }

  lemma {:induction false} SumUnion<K(!new), V>(w: V -> nat, a: map<K, V>, b: map<K, V>)
    requires a.Keys !! b.Keys
    ensures Sum(w, a + b) == Sum(w, a) + Sum(w, b)
    decreases |a|
  {
    hide Sum;
    if a == map[] {
      assert a + b == b;
      SumEmpty<K, V>(w);
    } else {
      var p :| p in a;
      assert p in a + b && p !in b && (a + b)[p] == a[p];
      SumRemove(w, a, p);
      SumRemove(w, a + b, p);
      UnionRemove(a, b, p);
      SumUnion(w, a - {p}, b);
    }
  }

  lemma UnionRemove<K, V>(a: map<K, V>, b: map<K, V>, p: K)
    requires p !in b
    ensures (a + b) - {p} == (a - {p}) + b
  {
  }

  lemma SumInsert<K(!new), V>(w: V -> nat, m: map<K, V>, p: K, n: V)
    ensures Sum(w, m[p := n]) == w(n) + Sum(w, m - {p})
  {
    SumRemove(w, m[p := n], p);
    assert m[p := n] - {p} == m - {p};
  }

  /** Overwriting one entry changes the sum by the difference of the weights. */
  lemma SumUpdate<K(!new), V>(w: V -> nat, m: map<K, V>, p: K, n: V)
    requires p in m
    ensures Sum(w, m[p := n]) + w(m[p]) == Sum(w, m) + w(n) && w(m[p]) <= Sum(w, m)
  {
    SumInsert(w, m, p, n);
    SumRemove(w, m, p);
  }

  lemma SumAdd<K(!new), V>(w: V -> nat, m: map<K, V>, p: K, n: V)
    requires p !in m
    ensures Sum(w, m[p := n]) == Sum(w, m) + w(n)
  {
    SumInsert(w, m, p, n);
    assert m - {p} == m;
  }
}
