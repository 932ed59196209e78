/** Suffix walks and longest-suffix matching: the zone list of utils/zone.go, the forwarding-zone
    order of server/forward_config.go, and the scan of server/state_forward.go. */
module ZoneMatch {
  import opened Names
  import opened Sorting

  // ---- The zone list of a name -------------------------------------------------------------

  predicate DotAt(s: string, j: int) {
    0 <= j < |s| && s[j] == '.'
  }

  /** Position i holds the first dot of a string. */
  predicate IsFirstDot(s: string, i: int) {
    DotAt(s, i) && forall j {:trigger DotAt(s, j)} :: 0 <= j < i ==> !DotAt(s, j)
  }

  predicate HasNoDot(s: string) {
    forall j {:trigger DotAt(s, j)} :: 0 <= j < |s| ==> !DotAt(s, j)
  }

  lemma HasFirstDot(s: string)
    requires !HasNoDot(s)
    ensures exists i :: IsFirstDot(s, i)
  {
    var k :| 0 <= k < |s| && DotAt(s, k);
    var i := 0;
    while !DotAt(s, i)
      invariant 0 <= i <= k && forall j {:trigger DotAt(s, j)} :: 0 <= j < i ==> !DotAt(s, j)
      decreases k - i
    {
      i := i + 1;
    }
    assert IsFirstDot(s, i);
  }

  /** `strings.Index(s, ".")`. */
  function FirstDot(s: string): (i: int)
    ensures if HasNoDot(s) then i == -1 else IsFirstDot(s, i)
  {
    if HasNoDot(s) then -1
    else
      HasFirstDot(s);
      var i :| IsFirstDot(s, i);
      i
  }

  /** From a position on, a string reads as another. */
  ghost predicate Ends(s: string, from: nat, rest: string) {
    |s| == from + |rest| && forall j {:trigger rest[j]} :: 0 <= j < |rest| ==> rest[j] == s[from + j]
  }

  /** The second string is what follows the first dot of the first. */
  ghost predicate IsNext(s: string, rest: string) {
    |rest| < |s| && IsFirstDot(s, |s| - |rest| - 1) && Ends(s, |s| - |rest|, rest)
  }

  lemma CutIsNext(s: string, d: nat)
    requires IsFirstDot(s, d)
    ensures IsNext(s, s[d + 1..])
  {
  }

  lemma NextIsUnique(s: string, a: string, b: string)
    requires IsNext(s, a) && IsNext(s, b)
    ensures a == b
  {
    assert DotAt(s, |s| - |a| - 1) && DotAt(s, |s| - |b| - 1);
    forall j | 0 <= j < |a| ensures a[j] == b[j] {
    }
  }

  ghost predicate NextAt(zones: seq<string>, i: nat) {
    0 < i < |zones| ==> IsNext(zones[i - 1], zones[i])
  }

  /** A string, and the rests reached by repeatedly cutting it after its first dot. */
  ghost predicate AreCut(domain: string, zones: seq<string>) {
    && |zones| >= 1 && zones[0] == domain
    && forall i: nat {:trigger NextAt(zones, i)} :: NextAt(zones, i)
  }

  /** ... until none is left. */
  ghost predicate IsZoneList(domain: string, zones: seq<string>) {
    AreCut(domain, zones) && HasNoDot(zones[|zones| - 1])
  }

  lemma CutOnce(domain: string, zones: seq<string>, rest: string)
    requires AreCut(domain, zones) && IsNext(zones[|zones| - 1], rest)
    ensures AreCut(domain, zones + [rest])
  {
    var more := zones + [rest];
    forall i: nat ensures NextAt(more, i) {
      assert NextAt(zones, i);
    }
  }

  lemma CutBefore(domain: string, rest: string, zones: seq<string>)
    requires IsNext(domain, rest) && IsZoneList(rest, zones)
    ensures IsZoneList(domain, [domain] + zones)
  {
    var more := [domain] + zones;
    forall i: nat ensures NextAt(more, i) {
      if i > 1 {
        assert NextAt(zones, i - 1);
      }
    }
  }

  lemma {:induction false} SameZoneAt(domain: string, a: seq<string>, b: seq<string>, i: nat)
    requires AreCut(domain, a) && IsZoneList(domain, b) && i < |a|
    ensures i < |b| && a[i] == b[i]
  {
    if i == 0 {
    } else {
      SameZoneAt(domain, a, b, i - 1);
      assert NextAt(a, i) && NextAt(b, i);
      assert DotAt(a[i - 1], |a[i - 1]| - |a[i]| - 1);
      NextIsUnique(a[i - 1], a[i], b[i]);
    }
  }

  lemma ZoneListIsUnique(domain: string, a: seq<string>, b: seq<string>)
    requires IsZoneList(domain, a) && IsZoneList(domain, b)
    ensures a == b
  {
    SameZoneAt(domain, a, b, |a| - 1);
    SameZoneAt(domain, b, a, |b| - 1);
    forall i: nat | i < |a| ensures a[i] == b[i] {
      SameZoneAt(domain, a, b, i);
    }
  }

  /** The strings visited by repeatedly cutting a domain after its first dot. */
  function Tails(domain: string): seq<string>
    decreases |domain|
  {
    var i := FirstDot(domain);
    [domain] + if i == -1 then [] else Tails(domain[i + 1..])
  }

  lemma {:induction false} TailsAreZones(domain: string)
    ensures IsZoneList(domain, Tails(domain))
    decreases |domain|
  {
    var i := FirstDot(domain);
    if i != -1 {
      var rest := domain[i + 1..];
      TailsAreZones(rest);
      CutIsNext(domain, i);
      CutBefore(domain, rest, Tails(rest));
    }
  }

  method GetZoneList(domain: string) returns (zones: seq<string>)
    ensures zones == Tails(domain) && IsZoneList(domain, zones)
  {
    zones := [domain];
    var rest := domain;
    while true
      invariant AreCut(domain, zones) && zones[|zones| - 1] == rest
      decreases |rest|
    {
      if |rest| == 0 {
        break;
      }
      var i := FirstDot(rest);
      if i == -1 {
        break;
      }
      CutIsNext(rest, i);
      rest := rest[i + 1..];
      CutOnce(domain, zones, rest);
      zones := zones + [rest];
    }
    TailsAreZones(domain);
    ZoneListIsUnique(domain, zones, Tails(domain));
  }

  /** A position of a domain where a zone may start: its beginning, or just after a dot. */
  predicate IsCut(domain: string, k: nat) {
    k == 0 || DotAt(domain, k - 1)
  }

  lemma EndsTwice(s: string, k: nat, t: string, m: nat, u: string)
    requires Ends(s, k, t) && Ends(t, m, u)
    ensures Ends(s, k + m, u)
  {
  }

  /** For every string, qualified or not, the zone list holds only parts of the string that start
      at a cut ... */
  lemma {:induction false} ZoneListIsCuts(domain: string, zones: seq<string>, i: nat)
    requires AreCut(domain, zones) && i < |zones|
    ensures |zones[i]| <= |domain| && Ends(domain, |domain| - |zones[i]|, zones[i])
    ensures IsCut(domain, |domain| - |zones[i]|)
  {
    if i == 0 {
    } else {
      ZoneListIsCuts(domain, zones, i - 1);
      assert NextAt(zones, i);
      var t, u := zones[i - 1], zones[i];
      EndsTwice(domain, |domain| - |t|, t, |t| - |u|, u);
      assert DotAt(t, |t| - |u| - 1);
    }
  }

  /** ... from the longest to the shortest, without repetition ... */
  lemma {:induction false} ZoneListIsDeepestFirst(domain: string, zones: seq<string>, i: nat, j: nat)
    requires AreCut(domain, zones) && i < j < |zones|
    ensures |zones[j]| < |zones[i]|
  {
    assert NextAt(zones, j);
    if i < j - 1 {
      ZoneListIsDeepestFirst(domain, zones, i, j - 1);
    }
  }

  /** ... and it misses none of them. */
  lemma ZoneListMissesNoCut(domain: string, zones: seq<string>, k: nat) returns (i: nat)
    requires IsZoneList(domain, zones) && k <= |domain| && IsCut(domain, k)
    ensures i < |zones| && Ends(domain, k, zones[i])
  {
    i := CutIsListed(domain, zones, 0, k);
  }

  lemma {:induction false} CutIsListed(domain: string, zones: seq<string>, from: nat, k: nat) returns (i: nat)
    requires IsZoneList(domain, zones) && from < |zones|
    requires |domain| - |zones[from]| <= k <= |domain| && IsCut(domain, k)
    ensures i < |zones| && Ends(domain, k, zones[i])
    decreases |zones| - from
  {
    ZoneListIsCuts(domain, zones, from);
    var z := zones[from];
    var start := |domain| - |z|;
    if k == start {
      i := from;
    } else {
      assert DotAt(z, k - start - 1) by {
        assert DotAt(domain, k - 1);
        assert z[k - start - 1] == domain[start + (k - start - 1)];
      }
      assert NextAt(zones, from + 1);
      i := CutIsListed(domain, zones, from + 1, k);
    }
  }

  /** How many labels a lookup drops: the zones of a name visited are its ancestors from the name
      itself down to the top-level one, or the root when the name is the root. */
  function VisitedZones(n: Name): nat {
    if n == [] then 1 else |n|
  }

  function Parent(n: Name): Name {
    if n == [] then [] else n[1..]
  }

  lemma ParentIsNext(n: Name)
    ensures IsNext(Text(n), Dotted(Parent(n)))
  {
    if n != [] {
      var l, rest, w := n[0], Dotted(n[1..]), Dotted(n);
      assert w == l + "." + rest;
      assert forall j :: 0 <= j < |l| ==> w[j] == l[j];
      assert forall j :: 0 <= j < |l| ==> !DotAt(w, j);
      assert DotAt(w, |l|);
    }
  }

  /** A zone of a list that is the text of a name is followed by the text of its parent. */
  lemma ZoneAfterName(domain: string, zones: seq<string>, i: nat, n: Name)
    requires IsZoneList(domain, zones) && i < |zones| && zones[i] == Text(n)
    ensures i + 1 < |zones| && zones[i + 1] == Dotted(Parent(n))
  {
    ParentIsNext(n);
    var rest := Dotted(Parent(n));
    assert DotAt(zones[i], |zones[i]| - |rest| - 1);
    assert NextAt(zones, i + 1);
    NextIsUnique(zones[i], zones[i + 1], rest);
  }

  lemma {:induction false} ZoneOfName(n: Name, zones: seq<string>, i: nat)
    requires IsZoneList(Text(n), zones) && i < VisitedZones(n)
    ensures i <= |n| && i < |zones| && zones[i] == Text(n[i..])
  {
    if i == 0 {
      assert n[i..] == n;
    } else {
      ZoneOfName(n, zones, i - 1);
      ZoneAfterName(Text(n), zones, i - 1, n[i - 1..]);
      assert n[i - 1..][1..] == n[i..];
    }
  }

  /** For a name the list is its text and the text of each proper ancestor below the root, deepest
      first, and last the empty string. The key "." of the root is visited only for the root. */
  ghost predicate AreZonesOf(n: Name, zones: seq<string>) {
    && |zones| == VisitedZones(n) + 1 && zones[|zones| - 1] == ""
    && forall j {:trigger zones[j]} :: 0 <= j < |zones| - 1 ==> j <= |n| && zones[j] == Text(n[j..])
  }

  lemma ZonesEnd(n: Name, zones: seq<string>)
    requires IsZoneList(Text(n), zones)
    ensures |zones| == VisitedZones(n) + 1 && zones[|zones| - 1] == ""
  {
    var last := VisitedZones(n) - 1;
    ZoneOfName(n, zones, last);
    ZoneAfterName(Text(n), zones, last, n[last..]);
    assert Parent(n[last..]) == [];
    assert NextAt(zones, last + 2);
  }

  lemma ZoneListOfName(n: Name)
    ensures AreZonesOf(n, Tails(Text(n)))
  {
    TailsAreZones(Text(n));
    ZonesOfList(n, Tails(Text(n)));
  }

  lemma ZonesOfList(n: Name, zones: seq<string>)
    requires IsZoneList(Text(n), zones)
    ensures AreZonesOf(n, zones)
  {
    ZonesEnd(n, zones);
    forall j: nat | j < VisitedZones(n) ensures j <= |n| && zones[j] == Text(n[j..]) {
      ZoneOfName(n, zones, j);
    }
  }

  /** Whether a lookup for a name looks at a zone: it must be spelled as it is in the name, and the
      root is looked at only for the root. */
  predicate IsVisible(n: Name, zone: Name) {
    |zone| <= |n| && zone == Ancestor(n, |zone|) && (zone != [] || n == [])
  }

  lemma ListedIsVisible(n: Name, zones: seq<string>, zone: Name, i: nat)
    requires AreZonesOf(n, zones) && i < |zones| && zones[i] == Text(zone)
    ensures IsVisible(n, zone)
  {
    TextEndsWithDot(zone);
    assert i < |zones| - 1;
    TextInjective(zone, n[i..]);
  }

  lemma VisibleIsListed(n: Name, zones: seq<string>, zone: Name)
    requires AreZonesOf(n, zones) && IsVisible(n, zone)
    ensures |n| - |zone| < VisitedZones(n) && zones[|n| - |zone|] == Text(zone)
  {
    assert zones[|n| - |zone|] == Text(n[|n| - |zone|..]);
  }

  /** Exactly the visible ones of the zones enclosing a name are in its list. */
  lemma ZoneIsVisited(n: Name, zone: Name)
    requires IsSubDomain(zone, n)
    ensures Text(zone) in Tails(Text(n)) <==> IsVisible(n, zone)
  {
    ZoneListOfName(n);
    VisitedIn(n, Tails(Text(n)), zone);
  }

  lemma VisitedIn(n: Name, zones: seq<string>, zone: Name)
    requires AreZonesOf(n, zones)
    ensures Text(zone) in zones <==> IsVisible(n, zone)
  {
    if Text(zone) in zones {
      var i :| 0 <= i < |zones| && zones[i] == Text(zone);
      ListedIsVisible(n, zones, zone, i);
    }
    if IsVisible(n, zone) {
      VisibleIsListed(n, zones, zone);
    }
  }

  // ---- Longest-suffix matching -------------------------------------------------------------

  datatype ForwardZone = ForwardZone(zone: Name, upstreams: seq<string>)

  /** Zones ordered by the length of their text, longest first. */
  predicate LongestFirst(zones: seq<Name>) {
    forall i, j :: 0 <= i < j < |zones| ==> |Text(zones[j])| <= |Text(zones[i])|
  }

  predicate FirstMatch(zones: seq<Name>, q: Name, i: nat) {
    && i < |zones|
    && IsSubDomain(zones[i], q)
    && forall j :: 0 <= j < i ==> !IsSubDomain(zones[j], q)
  }

  function ZoneNames(zones: seq<ForwardZone>): seq<Name> {
    seq(|zones|, i requires 0 <= i < |zones| => zones[i].zone)
  }

  /** An enclosing zone has the text length of the ancestor it names. */
  lemma EnclosingTextLength(zone: Name, q: Name)
    requires IsSubDomain(zone, q) && zone != []
    ensures |Text(zone)| == |Dotted(q[|q| - |zone|..])|
  {
    SameNameSameLength(Ancestor(q, |zone|), zone);
  }

  /** Of two zones enclosing the same name, the one with more labels has the longer text. */
  lemma MoreLabelsLongerText(a: Name, b: Name, q: Name)
    requires IsSubDomain(a, q) && IsSubDomain(b, q)
    ensures |a| < |b| <==> |Text(a)| < |Text(b)|
    ensures |a| == |b| ==> SameName(a, b)
  {
    if |a| == |b| {
      forall i | 0 <= i < |a| ensures SameLabel(a[i], b[i]) {
        assert SameLabel(Ancestor(q, |a|)[i], a[i]) && SameLabel(Ancestor(q, |b|)[i], b[i]);
      }
      SameNameSameLength(a, b);
    } else {
      var shallow, deep := if |a| < |b| then a else b, if |a| < |b| then b else a;
      EnclosingTextLength(deep, q);
      DeeperIsLonger(q, |q| - |deep|, |q| - |shallow|);
      DottedEndsWithDot(q[|q| - |deep|..]);
      if shallow != [] {
        EnclosingTextLength(shallow, q);
      }
    }
  }

  /** Whatever order a sort leaves among zones of equal length, the first match of the scan has the
      most labels of all matching zones, and any other match with as many names the same zone. */
  lemma FirstMatchIsMostSpecific(zones: seq<Name>, q: Name, i: nat)
    requires LongestFirst(zones) && FirstMatch(zones, q, i)
    ensures forall j :: 0 <= j < |zones| && IsSubDomain(zones[j], q) ==>
              |zones[j]| <= |zones[i]| && (|zones[j]| == |zones[i]| ==> SameName(zones[j], zones[i]))
  {
    forall j | 0 <= j < |zones| && IsSubDomain(zones[j], q)
      ensures |zones[j]| <= |zones[i]|
      ensures |zones[j]| == |zones[i]| ==> SameName(zones[j], zones[i])
    {
      MoreLabelsLongerText(zones[i], zones[j], q);
      MoreLabelsLongerText(zones[j], zones[i], q);
    }
  }

  function ByLength(z: ForwardZone): int {
    -|Text(z.zone)|
  }

  /** The order forwarding zones are kept in: the order of zones of equal length is left open. */
  method SortForwardZones(zones: seq<ForwardZone>) returns (sorted: seq<ForwardZone>)
    ensures LongestFirst(ZoneNames(sorted))
    ensures multiset(sorted) == multiset(zones)
  {
    sorted := Sort(zones, ByLength);
    forall i, j | 0 <= i < j < |sorted|
      ensures |Text(sorted[j].zone)| <= |Text(sorted[i].zone)|
    {
      assert ByLength(sorted[i]) <= ByLength(sorted[j]);
    }
  }

  /** What one exchange with an upstream can end in. */
  datatype Exchange = Answered(reply: nat) | GateSaturated | Failed

  datatype ForwardOutcome = Miss | Hit(zone: ForwardZone, reply: nat) | Servfail | Refused

  /** All attempts before the `u`-th failed without saturating the gate. */
  predicate FailedBefore(attempt: nat -> Exchange, u: nat) {
    forall v: nat :: v < u ==> attempt(v) == Failed
  }

  /** FORWARD_LOOKUP: `attempt(u)` is what the exchange with the u-th upstream would give, and
      `admitted` is the expensive-request limiter's verdict. The outcome is a miss exactly when no
      zone encloses the name; otherwise it belongs to the first zone that does: refused exactly
      when not admitted, the first answering upstream's reply, or SERVFAIL when the gate saturates
      or every upstream fails. */
  method ForwardLookup(zones: seq<ForwardZone>, qname: Name, admitted: bool,
                       attempt: nat -> Exchange) returns (out: ForwardOutcome)
    ensures out.Miss? <==> forall i :: 0 <= i < |zones| ==> !IsSubDomain(zones[i].zone, qname)
    ensures out.Refused? <==> !admitted && !out.Miss?
    ensures out.Hit? ==> exists i: nat, u: nat ::
              && FirstMatch(ZoneNames(zones), qname, i) && out.zone == zones[i]
              && u < |zones[i].upstreams| && FailedBefore(attempt, u) && attempt(u) == Answered(out.reply)
    ensures out.Servfail? ==> exists i: nat, u: nat ::
              && FirstMatch(ZoneNames(zones), qname, i)
              && u <= |zones[i].upstreams| && FailedBefore(attempt, u)
              && (u == |zones[i].upstreams| || attempt(u) == GateSaturated)
  {
    var i := 0;
    while i < |zones| && !IsSubDomain(zones[i].zone, qname)
      invariant 0 <= i <= |zones|
      invariant forall j :: 0 <= j < i ==> !IsSubDomain(zones[j].zone, qname)
    {
      i := i + 1;
    }
    if i == |zones| {
      return Miss;
    }
    var matched := zones[i];
    assert FirstMatch(ZoneNames(zones), qname, i);
    if !admitted {
      return Refused;
    }
    for u := 0 to |matched.upstreams|
      invariant FailedBefore(attempt, u)
    {
      match attempt(u)
      case Answered(reply) =>
        return Hit(matched, reply);
      case GateSaturated =>
        return Servfail;
      case Failed =>
    }
    return Servfail;
  }
}
