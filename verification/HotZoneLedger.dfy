/** What the occupancy maps of the hot-zone controller mean. Every increment the controller makes
    to a window is a charge; a ledger is the list of charges a window has received. Charges made by
    a snapshot reach the live maps, because the snapshot copies the window but shares its maps, yet
    they never reach the live global occupancy: those charges are not `booked`. */
module HotZoneLedger {
  import opened Names
  import opened HotZoneKeys

  datatype Charge = Charge(qname: Name, key: Name, amount: int, booked: bool)

  datatype Window = Window(start: int, global: int, coarse: Occupancy, child: map<Name, Occupancy>)

  function Get(m: Occupancy, k: Name): int {
    if k in m then m[k] else 0
  }

  function AddTo(m: Occupancy, k: Name, d: int): Occupancy {
    m[k := Get(m, k) + d]
  }

  /** Adds a charge to the maps of a window, and to its direct-child map when the charged name is
      strictly below its coarse key. */
  function ChargeMaps(w: Window, qname: Name, key: Name, amount: int): Window {
    var coarse := AddTo(w.coarse, key, amount);
    match DirectChild(qname, key)
    case None => w.(coarse := coarse)
    case Some(c) => w.(coarse := coarse, child := w.child[key := AddTo(ChildrenOf(w.child, key), c, amount)])
  }

  // ---- What a ledger says ------------------------------------------------------------------

  /** Which requests a figure is about: all of them, those of a coarse key, or those of a direct
      child of a coarse key. */
  datatype Selection = All | OfKey(key: Name) | OfChild(key: Name, child: Name)

  predicate Picks(sel: Selection, qname: Name, key: Name) {
    match sel
    case All => true
    case OfKey(k) => key == k
    case OfChild(k, c) => key == k && DirectChild(qname, k) == Some(c)
  }

  /** What the selected requests were charged, booked or not. */
  function Charged(l: seq<Charge>, sel: Selection, booked: bool): int {
    if l == [] then 0
    else
      var c := l[|l| - 1];
      Charged(l[..|l| - 1], sel, booked) + if c.booked == booked && Picks(sel, c.qname, c.key) then c.amount else 0
  }

  /** All that was charged to a coarse key. */
  function KeyTotal(l: seq<Charge>, k: Name): int {
    Charged(l, OfKey(k), true) + Charged(l, OfKey(k), false)
  }

  predicate ChargesChild(c: Charge, k: Name, child: Name) {
    c.key == k && DirectChild(c.qname, k) == Some(child)
  }

  /** All that was charged to a direct child of a coarse key. */
  function ChildTotal(l: seq<Charge>, k: Name, child: Name): int {
    Charged(l, OfChild(k, child), true) + Charged(l, OfChild(k, child), false)
  }

  ghost predicate AllPositive(l: seq<Charge>) {
    forall i :: 0 <= i < |l| ==> l[i].amount > 0
  }

  ghost predicate CoarseShows(coarse: Occupancy, l: seq<Charge>) {
    forall k :: (k in coarse <==> exists i :: 0 <= i < |l| && l[i].key == k) && Get(coarse, k) == KeyTotal(l, k)
  }

  ghost predicate ChildShows(child: map<Name, Occupancy>, l: seq<Charge>) {
    forall k, c :: (c in ChildrenOf(child, k) <==> exists i :: 0 <= i < |l| && ChargesChild(l[i], k, c))
                   && Get(ChildrenOf(child, k), c) == ChildTotal(l, k, c)
  }

  /** The window shows exactly its ledger. */
  ghost predicate Shows(w: Window, l: seq<Charge>) {
    w.global == Charged(l, All, true) && CoarseShows(w.coarse, l) && ChildShows(w.child, l)
  }

  lemma EmptyShows(start: int)
    ensures Shows(Window(start, 0, map[], map[]), [])
  {
  }

  lemma CoarseShowsCharge(coarse: Occupancy, l: seq<Charge>, c: Charge)
    requires CoarseShows(coarse, l)
    ensures CoarseShows(AddTo(coarse, c.key, c.amount), l + [c])
  {
    var l', m' := l + [c], AddTo(coarse, c.key, c.amount);
    assert l'[..|l'| - 1] == l && l'[|l|] == c;
    forall k ensures (k in m' <==> exists i :: 0 <= i < |l'| && l'[i].key == k) && Get(m', k) == KeyTotal(l', k) {
      if k in m' && k in coarse {
        var i :| 0 <= i < |l| && l[i].key == k;
        assert l'[i].key == k;
      }
      if i :| 0 <= i < |l'| && l'[i].key == k && i < |l| {
        assert l[i].key == k;
      }
    }
  }

  lemma ChildrenAfterCharge(w: Window, c: Charge, k: Name, d: Name)
    ensures var m' := ChargeMaps(w, c.qname, c.key, c.amount).child;
            && (d in ChildrenOf(m', k) <==> d in ChildrenOf(w.child, k) || ChargesChild(c, k, d))
            && Get(ChildrenOf(m', k), d) == Get(ChildrenOf(w.child, k), d) + if ChargesChild(c, k, d) then c.amount else 0
  {
  }

  lemma ChildChargedByAppend(l: seq<Charge>, c: Charge, k: Name, d: Name)
    ensures (exists i :: 0 <= i < |l + [c]| && ChargesChild((l + [c])[i], k, d))
            <==> (exists i :: 0 <= i < |l| && ChargesChild(l[i], k, d)) || ChargesChild(c, k, d)
  {
    var l' := l + [c];
    if i :| 0 <= i < |l| && ChargesChild(l[i], k, d) {
      assert l'[i] == l[i];
    }
    assert l'[|l|] == c;
  }

  lemma ChildShowsCharge(w: Window, l: seq<Charge>, c: Charge)
    requires ChildShows(w.child, l)
    ensures ChildShows(ChargeMaps(w, c.qname, c.key, c.amount).child, l + [c])
  {
    var l', m' := l + [c], ChargeMaps(w, c.qname, c.key, c.amount).child;
    assert l'[..|l'| - 1] == l && l'[|l|] == c;
    forall k, d
      ensures d in ChildrenOf(m', k) <==> exists i :: 0 <= i < |l'| && ChargesChild(l'[i], k, d)
      ensures Get(ChildrenOf(m', k), d) == ChildTotal(l', k, d)
    {
      ChildrenAfterCharge(w, c, k, d);
      ChildChargedByAppend(l, c, k, d);
    }
  }

  /** One increment of the window is one more charge in its ledger. */
  lemma ShowsCharge(w: Window, l: seq<Charge>, c: Charge)
    requires Shows(w, l)
    ensures var w' := ChargeMaps(w, c.qname, c.key, c.amount);
            Shows(if c.booked then w'.(global := w.global + c.amount) else w', l + [c])
  {
    assert (l + [c])[..|l + [c]| - 1] == l;
    CoarseShowsCharge(w.coarse, l, c);
    ChildShowsCharge(w, l, c);
  }

  // ---- Totals of the maps ------------------------------------------------------------------

  ghost function Total(m: Occupancy): int {
    if m == map[] then 0
    else
      var k :| k in m;
      m[k] + Total(m - {k})
  }

  lemma {:induction false} TotalRemove(m: Occupancy, k: Name)
    requires k in m
    ensures Total(m) == m[k] + Total(m - {k})
    decreases |m|
  {
    var j :| j in m && Total(m) == m[j] + Total(m - {j});
    if j != k {
      TotalRemove(m - {j}, k);
      TotalRemove(m - {k}, j);
      assert m - {j} - {k} == m - {k} - {j};
    }
  }

  lemma TotalAdd(m: Occupancy, k: Name, d: int)
    ensures Total(AddTo(m, k, d)) == Total(m) + d
  {
    var m' := AddTo(m, k, d);
    TotalRemove(m', k);
    assert m' - {k} == m - {k};
    if k in m {
      TotalRemove(m, k);
    } else {
      assert m - {k} == m;
    }
  }

  /** Entries are at most their total when none is negative. */
  lemma {:induction false} PartsOfTotal(m: Occupancy, a: Name, b: Name)
    requires forall k :: k in m ==> m[k] >= 0
    requires a in m && b in m && a != b
    ensures m[a] + m[b] <= Total(m)
  {
    TotalRemove(m, a);
    TotalRemove(m - {a}, b);
    TotalNonNegative(m - {a} - {b});
  }

  lemma {:induction false} TotalNonNegative(m: Occupancy)
    requires forall k :: k in m ==> m[k] >= 0
    ensures Total(m) >= 0
    decreases |m|
  {
    if m != map[] {
      var k :| k in m;
      TotalRemove(m, k);
      TotalNonNegative(m - {k});
    }
  }

  /** The coarse map a ledger determines, entry by entry; used to compare totals. */
  ghost function CoarseMap(l: seq<Charge>): Occupancy {
    if l == [] then map[] else AddTo(CoarseMap(l[..|l| - 1]), l[|l| - 1].key, l[|l| - 1].amount)
  }

  ghost function ChildMap(l: seq<Charge>, k: Name): Occupancy {
    if l == [] then map[]
    else
      var m, c := ChildMap(l[..|l| - 1], k), l[|l| - 1];
      if c.key == k && DirectChild(c.qname, k).Some? then AddTo(m, DirectChild(c.qname, k).value, c.amount) else m
  }

  lemma {:induction false} CoarseMapShows(l: seq<Charge>)
    ensures CoarseShows(CoarseMap(l), l)
  {
    if l == [] {
    } else {
      var p, c := l[..|l| - 1], l[|l| - 1];
      CoarseMapShows(p);
      CoarseShowsCharge(CoarseMap(p), p, c);
      assert l == p + [c];
    }
  }

  lemma {:induction false} CoarseMapTotal(l: seq<Charge>)
    ensures Total(CoarseMap(l)) == Charged(l, All, true) + Charged(l, All, false)
  {
    if l == [] {
    } else {
      var p, c := l[..|l| - 1], l[|l| - 1];
      CoarseMapTotal(p);
      TotalAdd(CoarseMap(p), c.key, c.amount);
    }
  }

  /** A child is charged in two ledgers together exactly when it is in one of them. */
  lemma ChargedInJoin(l: seq<Charge>, r: seq<Charge>, k: Name, d: Name)
    ensures (exists i :: 0 <= i < |l + r| && ChargesChild((l + r)[i], k, d)) <==>
            (exists i :: 0 <= i < |l| && ChargesChild(l[i], k, d)) ||
            (exists i :: 0 <= i < |r| && ChargesChild(r[i], k, d))
  {
    if i :| 0 <= i < |l| && ChargesChild(l[i], k, d) {
      assert ChargesChild((l + r)[i], k, d);
    }
    if i :| 0 <= i < |r| && ChargesChild(r[i], k, d) {
      assert ChargesChild((l + r)[|l| + i], k, d);
    }
    if i :| 0 <= i < |l + r| && ChargesChild((l + r)[i], k, d) {
      assert if i < |l| then ChargesChild(l[i], k, d) else ChargesChild(r[i - |l|], k, d);
    }
  }

  lemma {:induction false} ChildMapMembers(l: seq<Charge>, k: Name, d: Name)
    ensures d in ChildMap(l, k) <==> exists i :: 0 <= i < |l| && ChargesChild(l[i], k, d)
  {
    if l == [] {
    } else {
      var p, c := l[..|l| - 1], l[|l| - 1];
      ChildMapMembers(p, k, d);
      assert l == p + [c];
      ChargedInJoin(p, [c], k, d);
      assert ChargesChild(c, k, d) <==> exists i :: 0 <= i < |[c]| && ChargesChild([c][i], k, d) by {
        assert [c][0] == c;
      }
    }
  }

  lemma {:induction false} ChildMapTotals(l: seq<Charge>, k: Name, d: Name)
    ensures Get(ChildMap(l, k), d) == ChildTotal(l, k, d)
  {
    if l == [] {
    } else {
      ChildMapTotals(l[..|l| - 1], k, d);
    }
  }

  lemma ChildMapShows(l: seq<Charge>, k: Name, d: Name)
    ensures d in ChildMap(l, k) <==> exists i :: 0 <= i < |l| && ChargesChild(l[i], k, d)
    ensures Get(ChildMap(l, k), d) == ChildTotal(l, k, d)
  {
    ChildMapMembers(l, k, d);
    ChildMapTotals(l, k, d);
  }

  lemma {:induction false} ChildMapWithinKey(l: seq<Charge>, k: Name)
    requires AllPositive(l)
    ensures Total(ChildMap(l, k)) <= KeyTotal(l, k)
  {
    if l == [] {
    } else {
      var p, c := l[..|l| - 1], l[|l| - 1];
      ChildMapWithinKey(p, k);
      if c.key == k && DirectChild(c.qname, k).Some? {
        TotalAdd(ChildMap(p, k), DirectChild(c.qname, k).value, c.amount);
      }
    }
  }

  lemma {:induction false} ChildTotalNonNegative(l: seq<Charge>, k: Name, d: Name)
    requires AllPositive(l)
    ensures ChildTotal(l, k, d) >= 0
  {
    if l == [] {
    } else {
      ChildTotalNonNegative(l[..|l| - 1], k, d);
    }
  }

  /** The total of the coarse map is what was booked globally plus what snapshots added on top. So
      it is never below the global occupancy, and equals it exactly when no snapshot has charged
      the window. */
  lemma CoarseTotal(coarse: Occupancy, l: seq<Charge>)
    requires CoarseShows(coarse, l)
    ensures Total(coarse) == Charged(l, All, true) + Charged(l, All, false)
  {
    CoarseMapShows(l);
    CoarseMapTotal(l);
    var m := CoarseMap(l);
    assert forall k :: k in m <==> k in coarse;
    assert forall k :: k in m ==> Get(m, k) == Get(coarse, k) == m[k] == coarse[k];
    assert m == coarse;
  }

  lemma {:induction false} UnbookedIsInflation(l: seq<Charge>)
    requires AllPositive(l)
    ensures Charged(l, All, false) >= 0
    ensures Charged(l, All, false) == 0 <==> forall i :: 0 <= i < |l| ==> l[i].booked
  {
    if l == [] {
    } else {
      var p := l[..|l| - 1];
      UnbookedIsInflation(p);
      assert forall i :: 0 <= i < |p| ==> p[i] == l[i];
    }
  }

  /** The children of a zone together never exceed the zone. */
  lemma ChildrenWithinZone(coarse: Occupancy, child: map<Name, Occupancy>, l: seq<Charge>, k: Name)
    requires CoarseShows(coarse, l) && ChildShows(child, l) && AllPositive(l)
    ensures Total(ChildrenOf(child, k)) <= Get(coarse, k)
    ensures forall d :: d in ChildrenOf(child, k) ==> ChildrenOf(child, k)[d] >= 0
  {
    ChildMapWithinKey(l, k);
    var m, below := ChildMap(l, k), ChildrenOf(child, k);
    forall d ensures (d in m <==> d in below) && Get(m, d) == Get(below, d) && Get(m, d) >= 0 {
      ChildMapShows(l, k, d);
      ChildTotalNonNegative(l, k, d);
    }
    assert forall d :: d in m ==> Get(m, d) == m[d] && Get(below, d) == below[d];
    assert m == below;
  }

  /** So at most one child can have 80 percent of a charged zone. */
  lemma OneDominantChild(coarse: Occupancy, child: map<Name, Occupancy>, l: seq<Charge>, k: Name, a: Name, b: Name)
    requires CoarseShows(coarse, l) && ChildShows(child, l) && AllPositive(l)
    requires k in coarse && coarse[k] > 0
    requires a in ChildrenOf(child, k) && b in ChildrenOf(child, k)
    requires Dominates(ChildrenOf(child, k)[a], coarse[k]) && Dominates(ChildrenOf(child, k)[b], coarse[k])
    ensures a == b
  {
    ChildrenWithinZone(coarse, child, l, k);
    if a != b {
      PartsOfTotal(ChildrenOf(child, k), a, b);
    }
  }

  /** A candidate drawn from charged maps has at least two labels, and requests were charged to
      it: it is a coarse key of the ledger or the direct child of one. */
  lemma CandidateFromLedger(coarse: Occupancy, child: map<Name, Occupancy>, l: seq<Charge>, zone: Name)
    requires CoarseShows(coarse, l) && ChildShows(child, l)
    requires IsCandidate(coarse, child, Some(zone))
    ensures |zone| >= CANDIDATE_MIN_LABELS
    ensures exists i :: 0 <= i < |l| && (l[i].key == zone || DirectChild(l[i].qname, l[i].key) == Some(zone))
  {
    var top :| IsHottest(coarse, CANDIDATE_MIN_LABELS, top) && IsCandidateUnder(coarse, child, top, zone);
    if zone != top {
      assert zone in ChildrenOf(child, top);
      var i :| 0 <= i < |l| && ChargesChild(l[i], top, zone);
      DirectChildIsBetween(l[i].qname, top);
    }
  }

  // ---- Joining ledgers ---------------------------------------------------------------------

  lemma {:induction false} TotalsOfJoin(l: seq<Charge>, r: seq<Charge>, k: Name, d: Name)
    ensures KeyTotal(l + r, k) == KeyTotal(l, k) + KeyTotal(r, k)
    ensures ChildTotal(l + r, k, d) == ChildTotal(l, k, d) + ChildTotal(r, k, d)
    decreases |r|
  {
    if r == [] {
      assert l + r == l;
    } else {
      var p := r[..|r| - 1];
      TotalsOfJoin(l, p, k, d);
      assert (l + r)[..|l + r| - 1] == l + p && (l + r)[|l + r| - 1] == r[|r| - 1];
    }
  }

  /** `m` holds the entries of two maps added together. */
  ghost predicate IsMerge(m: Occupancy, a: Occupancy, b: Occupancy) {
    m.Keys == a.Keys + b.Keys && forall k :: k in m ==> m[k] == Get(a, k) + Get(b, k)
  }

  lemma CoarseShowsJoin(m: Occupancy, a: Occupancy, b: Occupancy, l: seq<Charge>, r: seq<Charge>)
    requires IsMerge(m, a, b) && CoarseShows(a, l) && CoarseShows(b, r)
    ensures CoarseShows(m, l + r)
  {
    forall k ensures (k in m <==> exists i :: 0 <= i < |l + r| && (l + r)[i].key == k) && Get(m, k) == KeyTotal(l + r, k) {
      TotalsOfJoin(l, r, k, k);
      if k in a {
        var i :| 0 <= i < |l| && l[i].key == k;
        assert (l + r)[i].key == k;
      }
      if k in b {
        var i :| 0 <= i < |r| && r[i].key == k;
        assert (l + r)[|l| + i].key == k;
      }
      if i :| 0 <= i < |l + r| && (l + r)[i].key == k {
        assert if i < |l| then l[i].key == k else r[i - |l|].key == k;
      }
    }
  }

  ghost predicate IsChildMerge(m: map<Name, Occupancy>, a: map<Name, Occupancy>, b: map<Name, Occupancy>) {
    forall k :: IsMerge(ChildrenOf(m, k), ChildrenOf(a, k), ChildrenOf(b, k))
  }

  ghost predicate ChildShowsAt(child: map<Name, Occupancy>, l: seq<Charge>, k: Name, d: Name) {
    && (d in ChildrenOf(child, k) <==> exists i :: 0 <= i < |l| && ChargesChild(l[i], k, d))
    && Get(ChildrenOf(child, k), d) == ChildTotal(l, k, d)
  }

  lemma ChildShowsJoinAt(m: map<Name, Occupancy>, a: map<Name, Occupancy>, b: map<Name, Occupancy>,
                         l: seq<Charge>, r: seq<Charge>, k: Name, d: Name)
    requires IsMerge(ChildrenOf(m, k), ChildrenOf(a, k), ChildrenOf(b, k))
    requires ChildShowsAt(a, l, k, d) && ChildShowsAt(b, r, k, d)
    ensures ChildShowsAt(m, l + r, k, d)
  {
    TotalsOfJoin(l, r, k, d);
    ChargedInJoin(l, r, k, d);
  }

  lemma ChildShowsJoin(m: map<Name, Occupancy>, a: map<Name, Occupancy>, b: map<Name, Occupancy>,
                       l: seq<Charge>, r: seq<Charge>)
    requires IsChildMerge(m, a, b) && ChildShows(a, l) && ChildShows(b, r)
    ensures ChildShows(m, l + r)
  {
    forall k, d
      ensures d in ChildrenOf(m, k) <==> exists i :: 0 <= i < |l + r| && ChargesChild((l + r)[i], k, d)
      ensures Get(ChildrenOf(m, k), d) == ChildTotal(l + r, k, d)
    {
      assert IsMerge(ChildrenOf(m, k), ChildrenOf(a, k), ChildrenOf(b, k));
      assert ChildShowsAt(a, l, k, d) && ChildShowsAt(b, r, k, d);
      ChildShowsJoinAt(m, a, b, l, r, k, d);
    }
  }
}
