/** Counting the members of finite sets. */
module SetFacts {

  lemma WithoutTwo<T>(m: set<T>, a: T, b: T)
    requires a != b
    ensures |m| == |m - {a, b}| + (if a in m then 1 else 0) + (if b in m then 1 else 0)
  {
    assert m - {a, b} == m - {a} - {b};
    if a !in m {
      assert m - {a} == m;
    }
    if b !in m {
      assert m - {a} - {b} == m - {a};
    }
  }

  /** Sets that differ in at most two members differ in size by those. */
  lemma TwoChanges<T>(m: set<T>, m': set<T>, a: T, b: T)
    requires a != b && m - {a, b} == m' - {a, b}
    ensures |m'| - |m| == (if a in m' then 1 else 0) - (if a in m then 1 else 0)
                          + (if b in m' then 1 else 0) - (if b in m then 1 else 0)
  {
    WithoutTwo(m, a, b);
    WithoutTwo(m', a, b);
  }

  lemma SubsetIsSmaller<T>(a: set<T>, b: set<T>)
    requires a <= b
    ensures |a| <= |b|
  {
    assert b == a + (b - a);
  }
}
