/** Records and messages, as far as the resolver looks at them. */
module DnsModel {
  import opened Names

  const TYPE_A: nat := 1
  const TYPE_NS: nat := 2
  const TYPE_CNAME: nat := 5
  const TYPE_SOA: nat := 6
  const TYPE_OPT: nat := 41

  const NOERROR: nat := 0
  const FORMERR: nat := 1
  const SERVFAIL: nat := 2
  const NXDOMAIN: nat := 3
  const NOTIMPL: nat := 4
  const REFUSED: nat := 5

  datatype RR =
    | A(owner: Name, ttl: nat, address: nat)
    | NS(owner: Name, ttl: nat, host: Name)
    | CNAME(owner: Name, ttl: nat, target: Name)
    | SOA(owner: Name, ttl: nat, minimum: nat)
    | OPT(owner: Name, ttl: nat)
    | Other(owner: Name, ttl: nat, rrtype: nat)

  function TypeOf(rr: RR): nat {
    match rr
    case A(_, _, _) => TYPE_A
    case NS(_, _, _) => TYPE_NS
    case CNAME(_, _, _) => TYPE_CNAME
    case SOA(_, _, _) => TYPE_SOA
    case OPT(_, _) => TYPE_OPT
    case Other(_, _, t) => t
  }

  datatype Question = Question(name: Name, qtype: nat)

  datatype Msg = Msg(rcode: nat, question: Option<Question>, answer: seq<RR>, ns: seq<RR>, extra: seq<RR>)

  const EMPTY_MSG := Msg(NOERROR, None, [], [], [])

  predicate HasSOA(rrs: seq<RR>) {
    exists i :: 0 <= i < |rrs| && rrs[i].SOA?
  }

  predicate HasType(rrs: seq<RR>, t: nat) {
    exists i :: 0 <= i < |rrs| && TypeOf(rrs[i]) == t
  }

  /** The first CNAME record, if any. */
  function FirstCNAME(rrs: seq<RR>): (r: Option<RR>)
    ensures r.Some? ==> r.value.CNAME? && r.value in rrs
    ensures r.None? <==> forall i :: 0 <= i < |rrs| ==> !rrs[i].CNAME?
  {
    if rrs == [] then None
    else if rrs[0].CNAME? then Some(rrs[0])
    else
      var r := FirstCNAME(rrs[1..]);
      assert forall i :: 1 <= i < |rrs| ==> rrs[i] == rrs[1..][i - 1];
      r
  }

  predicate IsFirstCNAME(rrs: seq<RR>, i: int) {
    0 <= i < |rrs| && rrs[i].CNAME? && forall j :: 0 <= j < i ==> !rrs[j].CNAME?
  }

  lemma {:induction false} FirstCNAMEIsFirst(rrs: seq<RR>, i: nat)
    requires IsFirstCNAME(rrs, i)
    ensures FirstCNAME(rrs) == Some(rrs[i])
  {
    if i == 0 {
    } else {
      assert !rrs[0].CNAME? && rrs[1..][i - 1] == rrs[i];
      FirstCNAMEIsFirst(rrs[1..], i - 1);
    }
  }

  /** The numbers of the types the resolver looks for. */
  lemma TypesAreNumbered(rrs: seq<RR>, i: nat)
    requires i < |rrs|
    ensures rrs[i].A? ==> HasType(rrs, 1)
    ensures rrs[i].NS? ==> HasType(rrs, 2)
    ensures rrs[i].CNAME? ==> HasType(rrs, 5)
    ensures rrs[i].SOA? ==> HasType(rrs, 6)
    ensures rrs[i].OPT? ==> HasType(rrs, 41)
    ensures rrs[i].Other? ==> HasType(rrs, rrs[i].rrtype)
  {
    assert HasType(rrs, TypeOf(rrs[i]));
  }

  /** Records without the EDNS0 pseudo-records, in order. */
  function WithoutOPT(rrs: seq<RR>): (r: seq<RR>)
    ensures |r| <= |rrs|
  {
    if rrs == [] then [] else WithoutOPT(rrs[..|rrs| - 1]) + if rrs[|rrs| - 1].OPT? then [] else [rrs[|rrs| - 1]]
  }

  lemma {:induction false} NoOPTIsLeft(rrs: seq<RR>)
    ensures forall i :: 0 <= i < |WithoutOPT(rrs)| ==> !WithoutOPT(rrs)[i].OPT?
  {
    if rrs == [] {
    } else {
      NoOPTIsLeft(rrs[..|rrs| - 1]);
    }
  }

  lemma {:induction false} OthersAreKept(rrs: seq<RR>, rr: RR)
    requires !rr.OPT?
    ensures multiset(WithoutOPT(rrs))[rr] == multiset(rrs)[rr]
  {
    if rrs == [] {
    } else {
      var p, last := rrs[..|rrs| - 1], rrs[|rrs| - 1];
      OthersAreKept(p, rr);
      assert multiset(rrs) == multiset(p) + multiset{last} by {
        assert rrs == p + [last];
      }
      if !last.OPT? {
        assert WithoutOPT(rrs) == WithoutOPT(p) + [last];
      }
    }
  }

  lemma WithoutOPTKeepsTheRest(rrs: seq<RR>)
    ensures forall i :: 0 <= i < |WithoutOPT(rrs)| ==> !WithoutOPT(rrs)[i].OPT?
    ensures forall rr: RR :: !rr.OPT? ==> multiset(WithoutOPT(rrs))[rr] == multiset(rrs)[rr]
  {
    NoOPTIsLeft(rrs);
    forall rr: RR | !rr.OPT? ensures multiset(WithoutOPT(rrs))[rr] == multiset(rrs)[rr] {
      OthersAreKept(rrs, rr);
    }
  }

  /** A positive or negative answer as it is stored: the copy drops EDNS0 pseudo-records. */
  function Stored(m: Msg): Msg {
    m.(extra := WithoutOPT(m.extra))
  }

  const DEFAULT_NEGATIVE_TTL: nat := 60

  /** How long a negative answer may be kept: the smaller of the SOA record's TTL and its MINIMUM
      field (section 5 of RFC 2308), or a minute when that is zero; none without an SOA. */
  function NegativeTtl(ns: seq<RR>): Option<nat> {
    if ns == [] then None
    else if ns[0].SOA? then
      var ttl := if ns[0].minimum < ns[0].ttl then ns[0].minimum else ns[0].ttl;
      Some(if ttl == 0 then DEFAULT_NEGATIVE_TTL else ttl)
    else NegativeTtl(ns[1..])
  }

  /** It exists exactly when there is an SOA, comes from the first one, never exceeds the record's
      TTL or its MINIMUM unless one of them is zero, and is one of them unless one is zero. */
  lemma {:induction false} NegativeTtlFollowsSOA(ns: seq<RR>)
    ensures NegativeTtl(ns).Some? <==> HasSOA(ns)
    ensures NegativeTtl(ns).Some? ==>
              exists i :: 0 <= i < |ns| && ns[i].SOA? && (forall j :: 0 <= j < i ==> !ns[j].SOA?)
                && var ttl := NegativeTtl(ns).value;
                   if ns[i].ttl == 0 || ns[i].minimum == 0 then ttl == 60
                   else ttl <= ns[i].ttl && ttl <= ns[i].minimum && (ttl == ns[i].ttl || ttl == ns[i].minimum)
  {
    if ns != [] && !ns[0].SOA? {
      NegativeTtlFollowsSOA(ns[1..]);
      assert forall i :: 1 <= i < |ns| ==> ns[i] == ns[1..][i - 1];
      if HasSOA(ns) {
        var i :| 0 <= i < |ns| && ns[i].SOA?;
        assert ns[1..][i - 1].SOA?;
      }
      if NegativeTtl(ns).Some? {
        var i :| 0 <= i < |ns[1..]| && ns[1..][i].SOA? && forall j :: 0 <= j < i ==> !ns[1..][j].SOA?;
        assert ns[i + 1].SOA? && forall j :: 0 <= j < i + 1 ==> !ns[j].SOA?;
        SameFirstSOA(ns[1..], i);
        SameFirstSOA(ns, i + 1);
      }
    }
  }

  lemma {:induction false} SameFirstSOA(ns: seq<RR>, i: nat)
    requires i < |ns| && ns[i].SOA? && forall j :: 0 <= j < i ==> !ns[j].SOA?
    ensures NegativeTtl(ns) == NegativeTtl([ns[i]])
  {
    if i == 0 {
    } else {
      SameFirstSOA(ns[1..], i - 1);
      assert ns[1..][i - 1] == ns[i];
    }
  }
}
