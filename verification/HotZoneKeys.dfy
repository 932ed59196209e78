/** How the hot-zone controller names what a request is charged to, and how it picks the hottest
    zone of a snapshot (server/hot_zone_protection.go). Zones are compared as texts, because the
    Go code keys its maps by text and breaks ties with `<` on strings. */
module HotZoneKeys {
  import opened Names
  import opened Sorting
  import opened ZoneMatch

  // ---- Coarse keys and direct children -----------------------------------------------------

  /** The first base suffix enclosing the name. */
  function MatchedBaseSuffix(q: Name, suffixes: seq<Name>): (r: Option<Name>)
    ensures r.None? ==> forall i :: 0 <= i < |suffixes| ==> !IsSubDomain(suffixes[i], q)
    ensures r.Some? ==> exists i: nat :: FirstMatch(suffixes, q, i) && suffixes[i] == r.value
  {
    if suffixes == [] then None
    else if IsSubDomain(suffixes[0], q) then
      assert FirstMatch(suffixes, q, 0);
      Some(suffixes[0])
    else
      var r := MatchedBaseSuffix(q, suffixes[1..]);
      assert forall i: nat :: FirstMatch(suffixes[1..], q, i) ==> FirstMatch(suffixes, q, i + 1);
      r
  }

  function BusinessRootAboveSuffix(q: Name, suffix: Name): Name {
    if |q| <= |suffix| then suffix else Ancestor(q, |suffix| + 1)
  }

  function FallbackLevel3(q: Name): Name {
    if |q| <= 2 then q else Ancestor(q, 2)
  }

  function CoarseKey(q: Name, forwardZone: Option<Name>, suffixes: seq<Name>): Name {
    if forwardZone.Some? then forwardZone.value
    else
      var suffix := MatchedBaseSuffix(q, suffixes);
      if suffix.Some? then BusinessRootAboveSuffix(q, suffix.value) else FallbackLevel3(q)
  }

  function DirectChild(q: Name, parent: Name): Option<Name> {
    if q == parent || !IsSubDomain(parent, q) then None
    else if |q| <= |parent| then None
    else Some(Ancestor(q, |parent| + 1))
  }

  /** What a request is to be charged to: the matched forwarding zone; else, for the first base suffix
      in the list that encloses the name, the last labels of the name, one more than the suffix has, or
      the suffix when the name has no more; else its last two labels, or as many as it has. */
  ghost predicate IsChargedTo(q: Name, forwardZone: Option<Name>, suffixes: seq<Name>, key: Name) {
    if forwardZone.Some? then key == forwardZone.value
    else if exists i: nat :: FirstMatch(suffixes, q, i) then
      exists i: nat :: FirstMatch(suffixes, q, i) && IsOneAbove(q, suffixes[i], key)
    else |key| == (if |q| < 2 then |q| else 2) && EndsIn(q, key)
  }

  predicate EndsIn(q: Name, key: Name) {
    |key| <= |q| && q[|q| - |key|..] == key
  }

  predicate IsOneAbove(q: Name, suffix: Name, key: Name) {
    if |q| == |suffix| then key == suffix else |key| == |suffix| + 1 && EndsIn(q, key)
  }

  lemma FirstMatchIsUnique(suffixes: seq<Name>, q: Name, i: nat, j: nat)
    requires FirstMatch(suffixes, q, i) && FirstMatch(suffixes, q, j)
    ensures i == j
  {
  }

  /** The key a request is charged to is that, and it is the only one. */
  lemma CoarseKeyIsExact(q: Name, forwardZone: Option<Name>, suffixes: seq<Name>, key: Name)
    ensures IsChargedTo(q, forwardZone, suffixes, key) <==> key == CoarseKey(q, forwardZone, suffixes)
  {
    if forwardZone.None? {
      var suffix := MatchedBaseSuffix(q, suffixes);
      if suffix.Some? {
        var i: nat :| FirstMatch(suffixes, q, i) && suffixes[i] == suffix.value;
        forall j: nat | FirstMatch(suffixes, q, j) ensures j == i {
          FirstMatchIsUnique(suffixes, q, i, j);
        }
        assert IsOneAbove(q, suffixes[i], key) <==> key == BusinessRootAboveSuffix(q, suffix.value);
      } else {
        assert forall i: nat :: !FirstMatch(suffixes, q, i);
        assert q[0..] == q;
      }
    }
  }

  /** So the names below one zone directly under a base suffix are charged together, and no others:
      two names with the same first suffix have the same key exactly when they have the same labels up
      to one more than the suffix. */
  lemma SiblingsShareKey(q: Name, p: Name, suffixes: seq<Name>, i: nat)
    requires FirstMatch(suffixes, q, i) && FirstMatch(suffixes, p, i)
    requires |q| > |suffixes[i]| && |p| > |suffixes[i]|
    ensures CoarseKey(q, None, suffixes) == CoarseKey(p, None, suffixes)
            <==> Ancestor(q, |suffixes[i]| + 1) == Ancestor(p, |suffixes[i]| + 1)
  {
    OneMoreLabel(q, suffixes, i);
    OneMoreLabel(p, suffixes, i);
  }

  lemma OneMoreLabel(q: Name, suffixes: seq<Name>, i: nat)
    requires FirstMatch(suffixes, q, i) && |q| > |suffixes[i]|
    ensures CoarseKey(q, None, suffixes) == Ancestor(q, |suffixes[i]| + 1)
  {
    var key := Ancestor(q, |suffixes[i]| + 1);
    assert IsOneAbove(q, suffixes[i], key);
    CoarseKeyIsExact(q, None, suffixes, key);
  }

  lemma BusinessRootEncloses(q: Name, suffix: Name)
    requires IsSubDomain(suffix, q)
    ensures var key := BusinessRootAboveSuffix(q, suffix);
            IsSubDomain(key, q) && (|key| == |suffix| + 1 || |suffix| == |key| == |q|)
  {
    if |suffix| < |q| {
      SuffixIsSubDomain(q, |q| - |suffix| - 1);
    }
  }

  lemma FallbackEncloses(q: Name)
    ensures IsSubDomain(FallbackLevel3(q), q) && |FallbackLevel3(q)| == if |q| <= 2 then |q| else 2
  {
    SuffixIsSubDomain(q, if |q| <= 2 then 0 else |q| - 2);
    assert q[0..] == q;
  }

  /** A request is charged to a zone enclosing its name, deeper than every base suffix that encloses it
      unless the name itself is one. */
  lemma CoarseKeyEncloses(q: Name, forwardZone: Option<Name>, suffixes: seq<Name>)
    requires forwardZone.Some? ==> IsSubDomain(forwardZone.value, q)
    requires LongestFirst(suffixes)
    ensures IsSubDomain(CoarseKey(q, forwardZone, suffixes), q)
    ensures forwardZone.None? ==>
              var key := CoarseKey(q, forwardZone, suffixes);
              && (forall i :: 0 <= i < |suffixes| && IsSubDomain(suffixes[i], q) ==>
                    |suffixes[i]| < |key| || (|suffixes[i]| == |key| == |q|))
              && ((forall i :: 0 <= i < |suffixes| ==> !IsSubDomain(suffixes[i], q)) ==>
                    |key| == if |q| <= 2 then |q| else 2)
  {
    if forwardZone.None? {
      var suffix := MatchedBaseSuffix(q, suffixes);
      if suffix.Some? {
        var i: nat :| FirstMatch(suffixes, q, i) && suffixes[i] == suffix.value;
        FirstMatchIsMostSpecific(suffixes, q, i);
        BusinessRootEncloses(q, suffix.value);
      } else {
        FallbackEncloses(q);
      }
    }
  }

  /** The direct child exists exactly for names strictly below the parent; it lies between the
      two, one label below the parent. */
  lemma DirectChildIsBetween(q: Name, parent: Name)
    ensures DirectChild(q, parent).Some? <==> IsSubDomain(parent, q) && |parent| < |q|
    ensures DirectChild(q, parent).Some? ==>
              var child := DirectChild(q, parent).value;
              |child| == |parent| + 1 && EndsIn(q, child) && IsSubDomain(child, q) && IsSubDomain(parent, child)
  {
    if IsSubDomain(parent, q) && |parent| < |q| {
      var child := Ancestor(q, |parent| + 1);
      SuffixIsSubDomain(q, |q| - |parent| - 1);
      assert Ancestor(child, |parent|) == Ancestor(q, |parent|);
    }
  }

  // ---- Order on zone texts -----------------------------------------------------------------

  /** `a < b` on strings. */
  predicate TextLess(a: string, b: string) {
    b != "" && (a == "" || a[0] < b[0] || (a[0] == b[0] && TextLess(a[1..], b[1..])))
  }

  lemma {:induction false} TextLessTotal(a: string, b: string)
    ensures !(TextLess(a, b) && TextLess(b, a))
    ensures a != b ==> TextLess(a, b) || TextLess(b, a)
  {
    if a != "" && b != "" && a[0] == b[0] {
      TextLessTotal(a[1..], b[1..]);
      assert a == [a[0]] + a[1..] && b == [b[0]] + b[1..];
    }
  }

  lemma {:induction false} TextLessTransitive(a: string, b: string, c: string)
    requires TextLess(a, b) && TextLess(b, c)
    ensures TextLess(a, c)
  {
    if a != "" && a[0] == b[0] == c[0] {
      TextLessTransitive(a[1..], b[1..], c[1..]);
    }
  }

  /** Up to some place the strings agree, and there the first ends or has the smaller character. */
  predicate LessAt(a: string, b: string, k: nat) {
    && k <= |a| && k < |b| && a[..k] == b[..k]
    && (k == |a| || a[k] < b[k])
  }

  lemma SameHead(a: string, b: string, k: nat)
    requires LessAt(a, b, k)
    ensures k > 0 ==> a[0] == b[0]
  {
    if k > 0 {
      assert a[..k][0] == a[0] && b[..k][0] == b[0];
    }
  }

  /** It is the order of a dictionary. */
  lemma {:induction false} TextLessIsLexicographic(a: string, b: string)
    ensures TextLess(a, b) <==> exists k: nat :: LessAt(a, b, k)
  {
    if a == "" || b == "" || a[0] != b[0] {
      assert TextLess(a, b) ==> LessAt(a, b, 0);
      forall k: nat | LessAt(a, b, k) ensures k == 0 {
        SameHead(a, b, k);
      }
    } else {
      TextLessIsLexicographic(a[1..], b[1..]);
      forall k: nat | LessAt(a, b, k) ensures k > 0 && LessAt(a[1..], b[1..], k - 1) {
        assert k > 0 ==> a[1..][..k - 1] == a[..k][1..] && b[1..][..k - 1] == b[..k][1..];
      }
      forall k: nat | LessAt(a[1..], b[1..], k) ensures LessAt(a, b, k + 1) {
        assert a[..k + 1] == [a[0]] + a[1..][..k] && b[..k + 1] == [b[0]] + b[1..][..k];
      }
    }
  }

  predicate NameLess(a: Name, b: Name) {
    TextLess(Text(a), Text(b))
  }

  // ---- The base suffixes -------------------------------------------------------------------

  /** No element occurs twice. */
  ghost predicate NoRepeats(s: seq<Name>) {
    forall x :: multiset(s)[x] <= 1
  }

  /** The order of the list: longer texts first, and texts of one length in order. */
  predicate Precedes(a: Name, b: Name) {
    |Text(a)| > |Text(b)| || (|Text(a)| == |Text(b)| && NameLess(a, b))
  }

  lemma PrecedesTotal(a: Name, b: Name)
    requires a != b
    ensures Precedes(a, b) || Precedes(b, a)
  {
    TextLessTotal(Text(a), Text(b));
    if Text(a) == Text(b) {
      TextInjective(a, b);
    }
  }

  lemma PrecedesTransitive(a: Name, b: Name, c: Name)
    requires Precedes(a, b) && Precedes(b, c)
    ensures Precedes(a, c)
  {
    if |Text(a)| == |Text(c)| {
      TextLessTransitive(Text(a), Text(b), Text(c));
    }
  }

  predicate InSuffixOrder(s: seq<Name>) {
    Ordered(s, Precedes)
  }

  lemma InsertInOrder(s: seq<Name>, k: nat, z: Name)
    requires InSuffixOrder(s) && k <= |s|
    requires k > 0 ==> Precedes(s[k - 1], z)
    requires k < |s| ==> Precedes(z, s[k])
    ensures InSuffixOrder(s[..k] + [z] + s[k..])
  {
    forall j | 0 <= j < k ensures Precedes(s[j], z) {
      if j < k - 1 {
        PrecedesTransitive(s[j], s[k - 1], z);
      }
    }
    forall j | k <= j < |s| ensures Precedes(z, s[j]) {
      if k < j {
        PrecedesTransitive(z, s[k], s[j]);
      }
    }
    InsertKeepsOrdered(s, k, z, Precedes);
  }

  /** Puts a suffix in its place unless it is in the list. */
  method InsertSuffix(s: seq<Name>, z: Name) returns (r: seq<Name>)
    requires InSuffixOrder(s) && NoRepeats(s)
    ensures InSuffixOrder(r) && NoRepeats(r) && forall x :: x in r <==> x in s || x == z
  {
    if z in s {
      return s;
    }
    var k := |s|;
    while k > 0 && !Precedes(s[k - 1], z)
      invariant 0 <= k <= |s| && (k < |s| ==> Precedes(z, s[k]))
    {
      PrecedesTotal(s[k - 1], z);
      k := k - 1;
    }
    InsertInOrder(s, k, z);
    InsertKeepsContents(s, k, z);
    r := s[..k] + [z] + s[k..];
    assert forall x :: x in r <==> x in multiset(r);
    assert forall x :: x in s <==> x in multiset(s);
  }

  lemma OrderIsLongestFirst(s: seq<Name>)
    requires InSuffixOrder(s)
    ensures LongestFirst(s)
  {
    forall i, j | 0 <= i < j < |s| ensures |Text(s[j])| <= |Text(s[i])| {
      assert Precedes(s[i], s[j]);
    }
  }

  /** The list of base suffixes: the built-in ones and the configured ones but the root, each once,
      ordered by the length of their text, longest first, and by text among equal lengths. */
  method NormalizeSuffixes(defaults: seq<Name>, extra: seq<Name>) returns (suffixes: seq<Name>)
    ensures InSuffixOrder(suffixes) && LongestFirst(suffixes) && NoRepeats(suffixes)
    ensures forall x :: x in suffixes <==> x in defaults || (x in extra && x != [])
  {
    suffixes := [];
    for i := 0 to |defaults|
      invariant InSuffixOrder(suffixes) && NoRepeats(suffixes)
      invariant forall x :: x in suffixes <==> x in defaults[..i]
    {
      assert defaults[..i + 1] == defaults[..i] + [defaults[i]];
      suffixes := InsertSuffix(suffixes, defaults[i]);
    }
    assert defaults[..|defaults|] == defaults;
    for i := 0 to |extra|
      invariant InSuffixOrder(suffixes) && NoRepeats(suffixes)
      invariant forall x :: x in suffixes <==> x in defaults || (x in extra[..i] && x != [])
    {
      assert extra[..i + 1] == extra[..i] + [extra[i]];
      if extra[i] != [] {
        suffixes := InsertSuffix(suffixes, extra[i]);
      }
    }
    assert extra[..|extra|] == extra;
    OrderIsLongestFirst(suffixes);
  }

  // ---- The hottest entry of an occupancy map -----------------------------------------------

  type Occupancy = map<Name, int>

  predicate Eligible(m: Occupancy, minLabels: nat, k: Name) {
    k in m && m[k] > 0 && |k| >= minLabels
  }

  /** More occupancy, or as much with the smaller text. */
  predicate Beats(m: Occupancy, a: Name, b: Name)
    requires a in m && b in m
  {
    m[b] < m[a] || (m[b] == m[a] && NameLess(a, b))
  }

  ghost predicate IsHottest(m: Occupancy, minLabels: nat, k: Name) {
    Eligible(m, minLabels, k) && forall o :: Eligible(m, minLabels, o) && o != k ==> Beats(m, k, o)
  }

  lemma BeatsTotal(m: Occupancy, a: Name, b: Name)
    requires a in m && b in m
    ensures !(Beats(m, a, b) && Beats(m, b, a))
    ensures a != b ==> Beats(m, a, b) || Beats(m, b, a)
  {
    TextLessTotal(Text(a), Text(b));
    if Text(a) == Text(b) {
      TextInjective(a, b);
    }
  }

  lemma BeatsTransitive(m: Occupancy, a: Name, b: Name, c: Name)
    requires a in m && b in m && c in m && Beats(m, a, b) && Beats(m, b, c)
    ensures Beats(m, a, c)
  {
    if m[a] == m[c] {
      TextLessTransitive(Text(a), Text(b), Text(c));
    }
  }

  lemma HottestIsUnique(m: Occupancy, minLabels: nat, a: Name, b: Name)
    requires IsHottest(m, minLabels, a) && IsHottest(m, minLabels, b)
    ensures a == b
  {
    BeatsTotal(m, a, b);
  }

  /** What a scan that has looked at `seen` holds. */
  ghost predicate HottestOf(m: Occupancy, minLabels: nat, seen: set<Name>, best: Option<Name>) {
    match best
    case None => forall o :: o in seen ==> !Eligible(m, minLabels, o)
    case Some(k) =>
      && k in seen && Eligible(m, minLabels, k)
      && forall o :: o in seen && Eligible(m, minLabels, o) && o != k ==> Beats(m, k, o)
  }

  lemma HottestOfNext(m: Occupancy, minLabels: nat, seen: set<Name>, best: Option<Name>, key: Name)
    requires HottestOf(m, minLabels, seen, best) && key in m && key !in seen
    ensures HottestOf(m, minLabels, seen + {key},
                      if Eligible(m, minLabels, key) && (best.None? || Beats(m, key, best.value))
                      then Some(key) else best)
  {
    if best.Some? {
      BeatsTotal(m, key, best.value);
      if Beats(m, key, best.value) {
        forall o | o in seen && Eligible(m, minLabels, o) && o != best.value ensures Beats(m, key, o) {
          BeatsTransitive(m, key, best.value, o);
        }
      }
    }
  }

  /** The scan of `selectCandidate` over a map, which visits the keys in an arbitrary order. */
  method Hottest(m: Occupancy, minLabels: nat) returns (best: Option<Name>)
    ensures best.None? <==> forall o :: o in m ==> !Eligible(m, minLabels, o)
    ensures best.Some? ==> IsHottest(m, minLabels, best.value)
  {
    var todo := m.Keys;
    var bestAmount := 0;
    best := None;
    while todo != {}
      invariant todo <= m.Keys
      invariant HottestOf(m, minLabels, m.Keys - todo, best)
      invariant bestAmount == if best.Some? then m[best.value] else 0
      decreases todo
    {
      var key :| key in todo;
      HottestOfNext(m, minLabels, m.Keys - todo, best, key);
      assert m.Keys - todo + {key} == m.Keys - (todo - {key});
      todo := todo - {key};
      if m[key] > 0 && |key| >= minLabels {
        if m[key] > bestAmount || (m[key] == bestAmount && best.Some? && NameLess(key, best.value)) {
          best := Some(key);
          bestAmount := m[key];
        }
      }
    }
    assert m.Keys - todo == m.Keys;
  }

  // ---- Candidate selection -----------------------------------------------------------------

  /** A zone with at most one label is treated as a public suffix and is never a candidate. */
  const CANDIDATE_MIN_LABELS: nat := 2

  function ChildrenOf(child: map<Name, Occupancy>, key: Name): Occupancy {
    if key in child then child[key] else map[]
  }

  /** At least 80 percent. */
  predicate Dominates(part: int, whole: int) {
    5 * part >= 4 * whole
  }

  /** What the snapshot says the candidate is: the hottest coarse zone, or its hottest direct
      child when that child alone has at least 80 percent of it. */
  ghost predicate IsCandidate(coarse: Occupancy, child: map<Name, Occupancy>, c: Option<Name>) {
    match c
    case None => forall o :: o in coarse ==> !Eligible(coarse, 2, o)
    case Some(zone) =>
      exists top :: IsHottest(coarse, 2, top) && IsCandidateUnder(coarse, child, top, zone)
  }

  ghost predicate IsCandidateUnder(coarse: Occupancy, child: map<Name, Occupancy>, top: Name, zone: Name)
    requires top in coarse
  {
    var below := ChildrenOf(child, top);
    if exists c :: IsHottest(below, 0, c) && 100 * below[c] >= 80 * coarse[top]
    then IsHottest(below, 0, zone) && 100 * below[zone] >= 80 * coarse[top]
    else zone == top
  }

  method SelectCandidate(coarse: Occupancy, child: map<Name, Occupancy>) returns (c: Option<Name>)
    ensures IsCandidate(coarse, child, c)
  {
    var top := Hottest(coarse, CANDIDATE_MIN_LABELS);
    if top.None? {
      return None;
    }
    var below := ChildrenOf(child, top.value);
    var sub := Hottest(below, 0);
    c := top;
    if sub.Some? && Dominates(below[sub.value], coarse[top.value]) {
      c := sub;
    }
    forall o | IsHottest(below, 0, o) ensures sub == Some(o) {
      HottestIsUnique(below, 0, o, sub.value);
    }
    assert IsCandidateUnder(coarse, child, top.value, c.value);
  }

  /** The candidate does not depend on the order the maps are visited in. */
  lemma CandidateIsUnique(coarse: Occupancy, child: map<Name, Occupancy>, a: Option<Name>, b: Option<Name>)
    requires IsCandidate(coarse, child, a) && IsCandidate(coarse, child, b)
    ensures a == b
  {
    if a.Some? && b.Some? {
      var s :| IsHottest(coarse, CANDIDATE_MIN_LABELS, s) && IsCandidateUnder(coarse, child, s, a.value);
      var t :| IsHottest(coarse, CANDIDATE_MIN_LABELS, t) && IsCandidateUnder(coarse, child, t, b.value);
      HottestIsUnique(coarse, CANDIDATE_MIN_LABELS, s, t);
      var below := ChildrenOf(child, s);
      if IsHottest(below, 0, a.value) && IsHottest(below, 0, b.value) {
        HottestIsUnique(below, 0, a.value, b.value);
      }
    }
  }
}
