/** Order statistics of integer sequences. */
module OrderStatistics {
  import opened Sorting

  predicate Ascending(s: seq<int>) {
    forall i, j :: 0 <= i < j < |s| ==> s[i] <= s[j]
  }

  function Itself(x: int): int {
    x
  }

  lemma {:induction false} CanBeSorted(s: seq<int>) returns (r: seq<int>)
    ensures Ascending(r) && multiset(r) == multiset(s)
  {
    if s == [] {
      r := [];
    } else {
      var last := |s| - 1;
      var t := CanBeSorted(s[..last]);
      var k := |t|;
      while k > 0 && s[last] < t[k - 1]
        invariant 0 <= k <= |t| && forall j :: k <= j < |t| ==> s[last] <= t[j]
      {
        k := k - 1;
      }
      assert SortedBy(t, Itself) by { assert forall i :: 0 <= i < |t| ==> Itself(t[i]) == t[i]; }
      assert forall j :: 0 <= j < k ==> t[j] <= t[k - 1];
      InsertKeepsOrder(t, k, s[last], Itself);
      InsertKeepsContents(t, k, s[last]);
      r := t[..k] + [s[last]] + t[k..];
      forall i, j | 0 <= i < j < |r| ensures r[i] <= r[j] {
        assert Itself(r[i]) <= Itself(r[j]);
      }
      assert s == s[..last] + [s[last]];
    }
  }

  /** The ascending permutation of a sequence. */
  ghost function Sorted(s: seq<int>): (r: seq<int>)
    ensures Ascending(r) && multiset(r) == multiset(s) && |r| == |s|
  {
    assert exists r :: Ascending(r) && multiset(r) == multiset(s) by {
      var r := CanBeSorted(s);
    }
    var r :| Ascending(r) && multiset(r) == multiset(s);
    assert |r| == |multiset(r)| == |s|;
    r
  }

  lemma WithoutFirst(a: seq<int>)
    requires a != []
    ensures multiset(a[1..]) == multiset(a) - multiset{a[0]}
  {
    assert a == [a[0]] + a[1..];
  }

  lemma SameFirst(a: seq<int>, b: seq<int>)
    requires Ascending(a) && Ascending(b) && a != [] && b != [] && multiset(a) == multiset(b)
    ensures a[0] == b[0]
  {
    assert a[0] in multiset(b) && b[0] in multiset(a);
  }

  /** Whatever a sort does, an ascending permutation is the ascending permutation. */
  lemma {:induction false} AscendingIsUnique(a: seq<int>, b: seq<int>)
    requires Ascending(a) && Ascending(b) && multiset(a) == multiset(b)
    ensures a == b
    decreases |a|
  {
    assert |a| == |multiset(a)| == |multiset(b)| == |b|;
    if a == [] {
    } else {
      SameFirst(a, b);
      WithoutFirst(a);
      WithoutFirst(b);
      AscendingIsUnique(a[1..], b[1..]);
      assert a == [a[0]] + a[1..] && b == [b[0]] + b[1..];
    }
  }

  // ---- Counting ----------------------------------------------------------------------------

  function CountBelow(s: seq<int>, v: int): nat {
    if s == [] then 0 else CountBelow(s[..|s| - 1], v) + if s[|s| - 1] < v then 1 else 0
  }

  lemma {:induction false} CountBelowJoin(s: seq<int>, t: seq<int>, v: int)
    ensures CountBelow(s + t, v) == CountBelow(s, v) + CountBelow(t, v)
    decreases |t|
  {
    if t == [] {
      assert s + t == s;
    } else {
      CountBelowJoin(s, t[..|t| - 1], v);
      assert (s + t)[..|s + t| - 1] == s + t[..|t| - 1];
    }
  }

  /** The sequence without one occurrence of a sample. */
  lemma TakeOut(s: seq<int>, x: int, v: int) returns (rest: seq<int>)
    requires x in s
    ensures |rest| == |s| - 1 && multiset(s) == multiset(rest) + multiset{x}
    ensures CountBelow(s, v) == CountBelow(rest, v) + if x < v then 1 else 0
  {
    var i :| 0 <= i < |s| && s[i] == x;
    var before, after := s[..i], s[i + 1..];
    assert s == before + ([x] + after);
    CountBelowJoin(before, [x] + after, v);
    CountBelowJoin([x], after, v);
    CountBelowJoin(before, after, v);
    assert [x][..0] == [];
    rest := before + after;
  }

  /** Counts do not depend on the order of the samples. */
  lemma {:induction false} CountBelowPermutation(a: seq<int>, b: seq<int>, v: int)
    requires multiset(a) == multiset(b)
    ensures CountBelow(a, v) == CountBelow(b, v)
    decreases |a|
  {
    if a == [] {
      assert |b| == |multiset(b)|;
    } else {
      var x := a[0];
      assert x in multiset(b);
      var a' := TakeOut(a, x, v);
      var b' := TakeOut(b, x, v);
      assert multiset(a') == multiset(a) - multiset{x} == multiset(b');
      CountBelowPermutation(a', b', v);
    }
  }

  lemma {:induction false} CountBelowAtMost(s: seq<int>, v: int)
    ensures CountBelow(s, v) <= |s|
  {
    if s == [] {
    } else {
      CountBelowAtMost(s[..|s| - 1], v);
    }
  }

  lemma {:induction false} CountNone(s: seq<int>, v: int)
    requires forall i :: 0 <= i < |s| ==> v <= s[i]
    ensures CountBelow(s, v) == 0
  {
    if s == [] {
    } else {
      CountNone(s[..|s| - 1], v);
    }
  }

  lemma {:induction false} CountEvery(s: seq<int>, v: int)
    requires forall i :: 0 <= i < |s| ==> s[i] < v
    ensures CountBelow(s, v) == |s|
  {
    if s == [] {
    } else {
      CountEvery(s[..|s| - 1], v);
    }
  }

  lemma BelowKth(t: seq<int>, k: nat)
    requires Ascending(t) && k < |t|
    ensures CountBelow(t, t[k]) <= k
  {
    var front, back := t[..k], t[k..];
    assert t == front + back;
    CountBelowJoin(front, back, t[k]);
    CountBelowAtMost(front, t[k]);
    CountNone(back, t[k]);
  }

  lemma UpToKth(t: seq<int>, k: nat)
    requires Ascending(t) && k < |t|
    ensures k < CountBelow(t, t[k] + 1)
  {
    var front, back := t[..k + 1], t[k + 1..];
    assert t == front + back;
    CountBelowJoin(front, back, t[k] + 1);
    CountEvery(front, t[k] + 1);
  }

  // ---- The k-th smallest -------------------------------------------------------------------

  ghost function Kth(s: seq<int>, k: nat): int
    requires k < |s|
  {
    Sorted(s)[k]
  }

  lemma KthIsSample(s: seq<int>, k: nat)
    requires k < |s|
    ensures Kth(s, k) in s
  {
    assert Sorted(s)[k] in multiset(Sorted(s));
  }

  /** At most k samples are below the value, and more than k are at most it. */
  predicate IsOrderStatistic(s: seq<int>, k: nat, v: int) {
    CountBelow(s, v) <= k < CountBelow(s, v + 1)
  }

  lemma CountsOfSorted(s: seq<int>, t: seq<int>, k: nat, v: int)
    requires multiset(s) == multiset(t) && Ascending(t) && k < |t| && v == t[k]
    ensures IsOrderStatistic(s, k, v)
  {
    BelowKth(t, k);
    UpToKth(t, k);
    CountBelowPermutation(s, t, v);
    CountBelowPermutation(s, t, v + 1);
  }

  /** The k-th entry of the sorted copy is the k-th order statistic of the sequence itself. */
  lemma KthIsOrderStatistic(s: seq<int>, k: nat)
    requires k < |s|
    ensures IsOrderStatistic(s, k, Kth(s, k))
  {
    var t := Sorted(s);
    var v := t[k];
    CountsOfSorted(s, t, k, v);
  }

  lemma KthIsMonotone(s: seq<int>, j: nat, k: nat)
    requires j <= k < |s|
    ensures Kth(s, j) <= Kth(s, k)
  {
  }
}
