/** What holds in every run of the resolver, over any upstream replies and any history of the shared
    cache, with any number of runs interleaved. */
module ResolverRuns {
  import opened Names
  import opened ZoneMatch
  import opened DnsModel
  import opened CacheKeys
  import opened Resolver

  // ---- The cache ---------------------------------------------------------------------------

  ghost predicate IsTyped(key: string) {
    exists n: Name, t: nat :: key == TypedKey(n, t)
  }

  predicate NegativeOk(m: Msg) {
    m.answer == [] ==> HasSOA(m.ns) && (m.rcode == NXDOMAIN || m.rcode == NOERROR)
  }

  /** A typed entry holds an answer, or a name error or empty answer with its SOA; an entry under a
      bare zone holds a delegation owned by that zone. */
  ghost predicate EntryOk(key: string, m: Msg) {
    || (IsTyped(key) && NegativeOk(m))
    || (IsDelegation(m) && key == Text(m.ns[0].owner))
  }

  predicate FreeOfOPT(rrs: seq<RR>) {
    forall i :: 0 <= i < |rrs| ==> !rrs[i].OPT?
  }

  ghost predicate CacheOk(cache: Cache) {
    forall key :: key in cache ==> EntryOk(key, cache[key].msg) && FreeOfOPT(cache[key].msg.extra)
  }

  lemma PutTyped(cache: Cache, n: Name, t: nat, m: Msg, ttl: nat)
    requires CacheOk(cache) && NegativeOk(m)
    ensures CacheOk(Put(cache, TypedKey(n, t), m, ttl))
  {
    WithoutOPTKeepsTheRest(m.extra);
    assert IsTyped(TypedKey(n, t));
  }

  lemma PutDelegation(cache: Cache, m: Msg, ttl: nat)
    requires CacheOk(cache) && IsDelegation(m)
    ensures CacheOk(Put(cache, Text(m.ns[0].owner), m, ttl))
  {
    WithoutOPTKeepsTheRest(m.extra);
  }

  /** Every write of every stage keeps the cache well formed. */
  lemma StepKeepsCache(r: Run, cache: Cache, x: Input)
    requires CacheOk(cache) && !r.stage.Stopped?
    ensures CacheOk(StepCache(r, cache, x))
  {
    if r.stage.ClassifyResp? {
      if Classify(r.response, r.question.qtype).GetNegative? && NegativeTtl(r.response.ns).Some? {
        PutTyped(cache, r.question.name, r.question.qtype, r.response, NegativeTtl(r.response.ns).value);
      }
    } else if r.stage.QueryUpstream? && x.hasAddress && JudgeExchange(x.upstream, r.question.name).Usable? {
      ReplyKeepsCache(cache, JudgeExchange(x.upstream, r.question.name).reply);
    }
  }

  lemma ReplyKeepsCache(cache: Cache, m: Msg)
    requires CacheOk(cache) && m.question.Some?
    ensures CacheOk(CacheAfterReply(cache, m))
  {
    var q := m.question.value;
    var c := cache;
    if m.answer != [] {
      PutTyped(cache, q.name, q.qtype, m, m.answer[0].ttl);
      c := Put(cache, TypedKey(q.name, q.qtype), m, m.answer[0].ttl);
    }
    if IsDelegation(m) {
      PutDelegation(c, m, m.ns[0].ttl);
    }
  }

  // ---- The closest cached delegation -------------------------------------------------------

  /** A delegation of the zone is cached. */
  predicate Delegates(cache: Cache, zone: Name) {
    Text(zone) in cache && IsDelegation(cache[Text(zone)].msg)
  }

  /** An entry found under the text of a zone is a delegation owned by exactly that zone. */
  lemma ZoneEntryIsOwned(cache: Cache, zone: Name)
    requires CacheOk(cache) && Delegates(cache, zone)
    ensures cache[Text(zone)].msg.ns[0].owner == zone
  {
    var m := cache[Text(zone)].msg;
    if IsTyped(Text(zone)) {
      var n: Name, t: nat :| Text(zone) == TypedKey(n, t);
      TypedKeyIsNoZone(Text(n), t, zone);
    }
    TextInjective(zone, m.ns[0].owner);
  }

  lemma EmptyKeyIsAbsent(cache: Cache)
    requires CacheOk(cache)
    ensures "" !in cache
  {
    forall n: Name, t: nat ensures TypedKey(n, t) != "" {
      TypedKeyIsNoZone(Text(n), t, []);
    }
    forall n: Name ensures Text(n) != "" {
      TextEndsWithDot(n);
    }
  }

  predicate Hit(cache: Cache, zone: string) {
    zone in cache && IsDelegation(cache[zone].msg)
  }

  /** The scan stops at the first zone with a cached delegation. */
  lemma {:induction false} FirstHit(cache: Cache, zones: seq<string>) returns (k: nat)
    ensures match FindDelegation(cache, zones)
            case None => forall j :: 0 <= j < |zones| ==> !Hit(cache, zones[j])
            case Some(m) =>
              && k < |zones| && Hit(cache, zones[k]) && m == cache[zones[k]].msg
              && forall j :: 0 <= j < k ==> !Hit(cache, zones[j])
  {
    k := 0;
    if zones != [] && !Hit(cache, zones[0]) {
      var rest := zones[1..];
      var i := FirstHit(cache, rest);
      assert forall j :: 1 <= j < |zones| ==> zones[j] == rest[j - 1];
      k := i + 1;
    }
  }

  /** The zones whose delegation a lookup for a name could use. */
  predicate Usable(cache: Cache, n: Name, zone: Name) {
    IsSubDomain(zone, n) && IsVisible(n, zone) && Delegates(cache, zone)
  }

  lemma VisibleAt(n: Name, i: nat)
    requires i < VisitedZones(n)
    ensures i <= |n| && IsSubDomain(n[i..], n) && IsVisible(n, n[i..])
  {
    assert i <= |n|;
    SuffixIsSubDomain(n, i);
  }

  /** Before the k-th zone of the list, and among the zones with more labels, none is usable. */
  lemma NoneDeeper(cache: Cache, n: Name, zones: seq<string>, k: nat, zone: Name)
    requires AreZonesOf(n, zones) && k <= VisitedZones(n)
    requires forall j :: 0 <= j < k ==> !Hit(cache, zones[j])
    requires Usable(cache, n, zone)
    ensures |n| - |zone| >= k
  {
    VisibleIsListed(n, zones, zone);
    assert Hit(cache, zones[|n| - |zone|]);
  }

  ghost predicate IsDeepest(cache: Cache, n: Name, zone: Name) {
    && Usable(cache, n, zone)
    && forall other :: Usable(cache, n, other) ==> |other| <= |zone|
  }

  lemma ScanFindsDeepest(cache: Cache, n: Name, zones: seq<string>)
    requires CacheOk(cache) && AreZonesOf(n, zones)
    ensures match FindDelegation(cache, zones)
            case None => forall zone :: !Usable(cache, n, zone)
            case Some(m) => IsDelegation(m) && IsDeepest(cache, n, m.ns[0].owner) && m == cache[Text(m.ns[0].owner)].msg
  {
    EmptyKeyIsAbsent(cache);
    var k := FirstHit(cache, zones);
    if FindDelegation(cache, zones).Some? {
      assert zones[k] == Text(n[k..]);
      VisibleAt(n, k);
      ZoneEntryIsOwned(cache, n[k..]);
      forall other | Usable(cache, n, other) ensures |other| <= |n[k..]| {
        NoneDeeper(cache, n, zones, k, other);
      }
    } else {
      forall zone ensures !Usable(cache, n, zone) {
        if Usable(cache, n, zone) {
          NoneDeeper(cache, n, zones, VisitedZones(n), zone);
        }
      }
    }
  }

  /** The lookup returns the deepest of the zones that enclose the name, are visible from it and have
      a cached delegation, and misses exactly when there is none. */
  lemma LookupFindsDeepest(cache: Cache, n: Name)
    requires CacheOk(cache)
    ensures match FindDelegation(cache, Tails(Text(n)))
            case None => forall zone :: !Usable(cache, n, zone)
            case Some(m) => IsDelegation(m) && IsDeepest(cache, n, m.ns[0].owner) && m == cache[Text(m.ns[0].owner)].msg
  {
    ZoneListOfName(n);
    ScanFindsDeepest(cache, n, Tails(Text(n)));
  }

  /** Of all the zones that enclose a name, in any letter case and the root included, a deepest one
      with a cached delegation is what the lookup returns if and only if it is visible. */
  lemma DeepestIsFound(cache: Cache, n: Name, zone: Name)
    requires CacheOk(cache) && IsSubDomain(zone, n) && Delegates(cache, zone)
    requires forall other :: IsSubDomain(other, n) && Delegates(cache, other) ==> |other| <= |zone|
    ensures FindDelegation(cache, Tails(Text(n))) == Some(cache[Text(zone)].msg) <==> IsVisible(n, zone)
  {
    LookupFindsDeepest(cache, n);
    ZoneEntryIsOwned(cache, zone);
    var found := FindDelegation(cache, Tails(Text(n)));
    if IsVisible(n, zone) {
      assert Usable(cache, n, zone);
      assert |found.value.ns[0].owner| == |zone|;
    }
  }

  /** A reply to a query for a name, here a referral to one zone. */
  function Referral(n: Name, zone: Name): Msg {
    Msg(NOERROR, Some(Question(n, TYPE_A)), [], [NS(zone, 0, ["h"])], [])
  }

  lemma ReferralIsCached(n: Name, zone: Name)
    ensures Acceptable(Answer(Referral(n, zone), None), n, Referral(n, zone))
    ensures var cache := CacheAfterReply(map[], Referral(n, zone));
            CacheOk(cache) && Delegates(cache, zone) && forall other :: Delegates(cache, other) ==> other == zone
  {
    ReplyKeepsCache(map[], Referral(n, zone));
    forall other | Text(other) == Text(zone) ensures other == zone {
      TextInjective(other, zone);
    }
  }

  /** The root's delegation encloses every name, but after a referral to it the lookup for a name
      does not find it ... */
  lemma RootIsMissed()
    ensures var cache := CacheAfterReply(map[], Referral(["a"], []));
            && CacheOk(cache) && IsSubDomain([], ["a"]) && Delegates(cache, [])
            && FindDelegation(cache, Tails(Text(["a"]))).None?
  {
    ReferralIsCached(["a"], []);
    LookupFindsDeepest(CacheAfterReply(map[], Referral(["a"], [])), ["a"]);
  }

  lemma OtherCase()
    ensures IsSubDomain(["A"], ["a"]) && !IsVisible(["a"], ["A"])
  {
    assert Ancestor(["a"], 1) == ["a"];
    assert SameLabel("a", "A");
    assert "a"[0] != "A"[0];
  }

  /** ... and neither does it find that of the same zone in other letters. */
  lemma OtherCaseIsMissed()
    ensures var cache := CacheAfterReply(map[], Referral(["a"], ["A"]));
            && CacheOk(cache) && IsSubDomain(["A"], ["a"]) && Delegates(cache, ["A"])
            && FindDelegation(cache, Tails(Text(["a"]))).None?
  {
    ReferralIsCached(["a"], ["A"]);
    OtherCase();
    LookupFindsDeepest(CacheAfterReply(map[], Referral(["a"], ["A"])), ["a"]);
  }

  // ---- Runs --------------------------------------------------------------------------------

  /** The response names servers of a zone that encloses the current name, or is it. */
  predicate Delegated(r: Run) {
    IsDelegation(r.response) && IsSubDomain(r.response.ns[0].owner, r.question.name)
  }

  /** What a run knows about its delegation and its answer section at each stage. */
  predicate SectionsOk(r: Run) {
    match r.stage
    case StateInit => r.response == EMPTY_MSG
    case HostsLookup => r.response.answer == [] && r.response.ns == []
    case ForwardLookup => r.response.answer == [] && r.response.ns == []
    case CacheLookup => r.response.answer == []
    case LookupNsCache => r.response.ns == []
    case QueryUpstream => Delegated(r)
    case _ => true
  }

  lemma StepKeepsSections(r: Run, cache: Cache, roots: RootGlue, x: Input)
    requires CacheOk(cache) && RootGlueOk(roots) && !r.stage.Stopped? && SectionsOk(r)
    ensures SectionsOk(Step(r, cache, roots, x))
  {
    if r.stage.LookupNsCache? {
      LookupDelegates(r, cache, roots);
    }
  }

  lemma LookupDelegates(r: Run, cache: Cache, roots: RootGlue)
    requires CacheOk(cache) && RootGlueOk(roots) && r.response.ns == []
    ensures Delegated(OnLookupNs(r, cache, roots))
  {
    var n := r.question.name;
    LookupFindsDeepest(cache, n);
    var found := FindDelegation(cache, Tails(Text(n)));
    var r' := OnLookupNs(r, cache, roots);
    if found.Some? {
      assert r'.response.ns == found.value.ns;
    } else {
      assert r'.response.ns == roots.ns;
    }
  }

  // ---- The CNAME chain ---------------------------------------------------------------------

  /** The name a chain leads to from a name. */
  function ChainEnd(chain: seq<RR>, from: Name): Name
    requires forall i :: 0 <= i < |chain| ==> chain[i].CNAME?
  {
    if chain == [] then from else chain[|chain| - 1].target
  }

  predicate IsChain(chain: seq<RR>) {
    forall i :: 0 <= i < |chain| ==> chain[i].CNAME?
  }

  predicate DistinctTargets(chain: seq<RR>)
    requires IsChain(chain)
  {
    forall i, j :: 0 <= i < j < |chain| ==> chain[i].target != chain[j].target
  }

  /** The chain is made of CNAMEs with pairwise different targets, exactly those visited, and the
      current question is the original one asked of the name the chain has led to. */
  ghost predicate ChainOk(r: Run) {
    && IsChain(r.chain) && DistinctTargets(r.chain)
    && (forall n :: n in r.visited <==> exists i :: 0 <= i < |r.chain| && r.chain[i].target == n)
    && r.question == Question(ChainEnd(r.chain, r.original.name), r.original.qtype)
  }

  /** No step touches the chain but the one that follows a CNAME. */
  lemma ChainOnlyFollows(r: Run, cache: Cache, roots: RootGlue, x: Input)
    requires !r.stage.Stopped?
    requires !(r.stage.ClassifyResp? && Classify(r.response, r.question.qtype).GetCNAME?)
    ensures var r' := Step(r, cache, roots, x);
            r'.chain == r.chain && r'.visited == r.visited && r'.question == r.question && r'.original == r.original
  {
  }

  lemma StepKeepsChain(r: Run, cache: Cache, roots: RootGlue, x: Input)
    requires !r.stage.Stopped? && ChainOk(r)
    ensures ChainOk(Step(r, cache, roots, x)) && Step(r, cache, roots, x).original == r.original
  {
    if r.stage.ClassifyResp? && Classify(r.response, r.question.qtype).GetCNAME? {
      FollowKeepsChain(r);
    } else {
      ChainOnlyFollows(r, cache, roots, x);
      SameChain(r, Step(r, cache, roots, x));
    }
  }

  lemma SameChain(r: Run, r': Run)
    requires ChainOk(r)
    requires r'.chain == r.chain && r'.visited == r.visited && r'.question == r.question && r'.original == r.original
    ensures ChainOk(r')
  {
  }

  lemma FollowKeepsChain(r: Run)
    requires ChainOk(r) && FirstCNAME(r.response.answer).Some?
    ensures ChainOk(FollowCNAME(r)) && FollowCNAME(r).original == r.original
    ensures FollowCNAME(r).stage == Stopped(Error)
            <==> exists i :: 0 <= i < |r.chain| && r.chain[i].target == FirstCNAME(r.response.answer).value.target
  {
    var cname := FirstCNAME(r.response.answer).value;
    if cname.target !in r.visited {
      var r' := FollowCNAME(r);
      forall n ensures n in r'.visited <==> exists i :: 0 <= i < |r'.chain| && r'.chain[i].target == n {
        if i :| 0 <= i < |r.chain| && r.chain[i].target == n {
          assert r'.chain[i].target == n;
        }
        assert r'.chain[|r.chain|] == cname;
      }
    }
  }

  predicate LinkedAt(chain: seq<RR>, from: Name, i: nat)
    requires IsChain(chain) && i < |chain|
  {
    chain[i].owner == if i == 0 then from else chain[i - 1].target
  }

  /** Each record is owned by the name the previous ones lead to. */
  predicate Linked(chain: seq<RR>, from: Name)
    requires IsChain(chain)
  {
    forall i: nat :: i < |chain| ==> LinkedAt(chain, from, i)
  }

  /** Following a CNAME keeps the chain linked exactly when the record followed, which is the first
      CNAME of the answer, is owned by the current name. */
  lemma FollowKeepsLinks(r: Run)
    requires ChainOk(r) && FirstCNAME(r.response.answer).Some? && FollowCNAME(r).stage == CacheLookup
    ensures IsChain(FollowCNAME(r).chain)
    ensures Linked(FollowCNAME(r).chain, r.original.name)
            <==> Linked(r.chain, r.original.name) && FirstCNAME(r.response.answer).value.owner == r.question.name
  {
    var chain', from := FollowCNAME(r).chain, r.original.name;
    assert forall i :: 0 <= i < |r.chain| ==> chain'[i] == r.chain[i];
    forall i: nat | i < |r.chain| ensures LinkedAt(chain', from, i) <==> LinkedAt(r.chain, from, i) {
    }
    assert LinkedAt(chain', from, |r.chain|) <==> FirstCNAME(r.response.answer).value.owner == r.question.name;
  }

  /** The reply of a finished run: the original question, and an answer section that begins with the
      chain, in the order it was followed. */
  lemma ReplyBeginsWithChain(r: Run, cache: Cache, roots: RootGlue, x: Input)
    requires r.stage.ReturnResp? && ChainOk(r)
    ensures var r' := Step(r, cache, roots, x);
            && r'.stage == Stopped(Reply(FinalResponse(r)))
            && FinalResponse(r).question == Some(r.original)
            && |r.chain| <= |FinalResponse(r).answer| && FinalResponse(r).answer[..|r.chain|] == r.chain
            && FinalResponse(r).answer[|r.chain|..] == r.response.answer
  {
  }

  /** A negative cache hit is recognised: the next step returns it. */
  lemma NegativeHitIsReturned(r: Run, cache: Cache, roots: RootGlue, x: Input, y: Input)
    requires CacheOk(cache) && r.stage.CacheLookup? && SectionsOk(r)
    requires var key := TypedKey(r.question.name, r.question.qtype);
             key in cache && cache[key].msg.answer == [] && HasSOA(cache[key].msg.ns)
    ensures Step(Step(r, cache, roots, x), cache, roots, y).stage == ReturnResp
    ensures Step(r, cache, roots, x).response.rcode == cache[TypedKey(r.question.name, r.question.qtype)].msg.rcode
  {
    var n, t := r.question.name, r.question.qtype;
    var m := cache[TypedKey(n, t)].msg;
    assert NegativeOk(m) by {
      if IsDelegation(m) && TypedKey(n, t) == Text(m.ns[0].owner) {
        TypedKeyIsNoZone(Text(n), t, m.ns[0].owner);
      }
    }
    var r' := Step(r, cache, roots, x);
    var i :| 0 <= i < |m.ns| && m.ns[i].SOA?;
    assert r'.response.ns[|r.response.ns| + i].SOA?;
  }

  /** A run returns from classification exactly when the answer has a record of the type asked for,
      or there is none but an SOA under a name error or success. */
  lemma ReturnsWhenAnswered(r: Run, cache: Cache, roots: RootGlue, x: Input)
    requires r.stage.ClassifyResp?
    ensures Step(r, cache, roots, x).stage == ReturnResp
            <==> HasType(r.response.answer, r.question.qtype)
                 || (r.response.answer == [] && NegativeOk(r.response))
  {
  }

  /** Following a CNAME asks for its target next, keeps a delegation only if it is for a zone that
      encloses the target, and then keeps it whole. */
  lemma CnameKeepsRelevantDelegation(r: Run)
    requires FirstCNAME(r.response.answer).Some? && FollowCNAME(r).stage == CacheLookup
    ensures var r', target := FollowCNAME(r), FirstCNAME(r.response.answer).value.target;
            && r'.question == Question(target, r.question.qtype) && r'.response.answer == []
            && (r'.response.ns != [] ==> IsSubDomain(r'.response.ns[0].owner, target))
            && (r.response.ns != [] && IsSubDomain(r.response.ns[0].owner, target) ==>
                  r'.response.ns == r.response.ns && r'.response.extra == r.response.extra)
            && (r'.response.ns == [] ==> r'.response.extra == [])
  {
  }

  // ---- The addresses of a delegation --------------------------------------------------------

  /** The servers and the addresses that a run has in hand. */
  function Held(r: Run): RootGlue {
    RootGlue(r.response.ns, r.response.extra)
  }

  /** Where a delegation comes from when the run has none of use: the cache or the roots. */
  function LookedUp(cache: Cache, roots: RootGlue, n: Name): RootGlue {
    match FindDelegation(cache, Tails(Text(n)))
    case Some(m) => RootGlue(m.ns, m.extra)
    case None => roots
  }

  /** The reply that decides an exchange. */
  function Deciding(up: UpstreamInput): Msg
    requires up.Answer? && (BadRcode(up.reply.rcode) ==> up.alternate.Some?)
  {
    if BadRcode(up.reply.rcode) then up.alternate.value else up.reply
  }

  predicate Decided(r: Run, x: Input) {
    r.stage.QueryUpstream? && x.hasAddress && !JudgeExchange(x.upstream, r.question.name).Broken?
  }

  /** The message that the servers in hand come from, after a step; `from` is the one before it. */
  function NextSource(r: Run, from: RootGlue, cache: Cache, roots: RootGlue, x: Input): RootGlue
    requires !r.stage.Stopped?
  {
    if r.stage.LookupNsCache? then LookedUp(cache, roots, r.question.name)
    else if Decided(r, x) then RootGlue(Deciding(x.upstream).ns, Deciding(x.upstream).extra)
    else if Held(Step(r, cache, roots, x)) == RootGlue([], []) then RootGlue([], [])
    else from
  }

  /** The run returns without another query. */
  predicate Ending(r: Run) {
    || r.stage.Stopped? || r.stage.ReturnResp?
    || (r.stage.ClassifyResp? && Classify(r.response, r.question.qtype).GetNegative?)
  }

  /** The step leaves addresses of one message beside servers of another: addresses without servers
      are added to what the lookup finds, and a name error brings its servers only. */
  predicate Strays(r: Run, x: Input) {
    || (r.stage.LookupNsCache? && r.response.extra != [])
    || (&& Decided(r, x) && JudgeExchange(x.upstream, r.question.name).NameError?
        && r.response.extra != Deciding(x.upstream).extra)
  }

  lemma NegativeHitEnds(r: Run, cache: Cache, roots: RootGlue, x: Input)
    requires CacheOk(cache) && r.stage.CacheLookup? && SectionsOk(r)
    requires var key := TypedKey(r.question.name, r.question.qtype);
             key in cache && cache[key].msg.answer == [] && HasSOA(cache[key].msg.ns)
    ensures Ending(Step(r, cache, roots, x))
  {
    NegativeHitIsReturned(r, cache, roots, x, x);
    var r' := Step(r, cache, roots, x);
    assert r'.response.answer == [];
  }

  lemma LookupAddsAddresses(r: Run, cache: Cache, roots: RootGlue, x: Input)
    requires r.stage.LookupNsCache? && r.response.ns == []
    ensures var r', found := Step(r, cache, roots, x), LookedUp(cache, roots, r.question.name);
            r'.response.ns == found.ns && (r'.response.extra == found.extra <==> r.response.extra == [])
  {
    var r', found := Step(r, cache, roots, x), LookedUp(cache, roots, r.question.name);
    assert r'.response.ns == [] + found.ns && r'.response.extra == r.response.extra + found.extra;
    assert |r'.response.extra| == |r.response.extra| + |found.extra|;
  }

  /** When the servers and addresses in hand are those of one message, a step keeps them so exactly
      when it does not stray. */
  lemma StepKeepsSource(r: Run, from: RootGlue, cache: Cache, roots: RootGlue, x: Input)
    requires CacheOk(cache) && SectionsOk(r) && !Ending(r) && Held(r) == from
    ensures var r' := Step(r, cache, roots, x);
            Ending(r') || (Held(r') == NextSource(r, from, cache, roots, x) <==> !Strays(r, x))
  {
    var key := TypedKey(r.question.name, r.question.qtype);
    if r.stage.LookupNsCache? {
      LookupAddsAddresses(r, cache, roots, x);
    } else if r.stage.CacheLookup? && key in cache && cache[key].msg.answer == [] && HasSOA(cache[key].msg.ns) {
      NegativeHitEnds(r, cache, roots, x);
    }
  }

  /** What one step of a run meets. */
  datatype Moment = Moment(cache: Cache, input: Input)

  /** A run that goes through the moments, over any caches and inputs. */
  ghost predicate IsCourse(r: Run, moments: seq<Moment>, roots: RootGlue)
    decreases |moments|
  {
    moments == [] ||
    (&& !Ending(r) && CacheOk(moments[0].cache)
     && IsCourse(Step(r, moments[0].cache, roots, moments[0].input), moments[1..], roots))
  }

  /** All along, the servers and addresses in hand are those of one message. */
  ghost predicate OneSource(r: Run, from: RootGlue, moments: seq<Moment>, roots: RootGlue)
    requires IsCourse(r, moments, roots)
    decreases |moments|
  {
    Ending(r) || (Held(r) == from && (moments == [] ||
      var m := moments[0];
      OneSource(Step(r, m.cache, roots, m.input), NextSource(r, from, m.cache, roots, m.input), moments[1..], roots)))
  }

  ghost predicate NeverStrays(r: Run, moments: seq<Moment>, roots: RootGlue)
    requires IsCourse(r, moments, roots)
    decreases |moments|
  {
    moments == [] ||
    var r' := Step(r, moments[0].cache, roots, moments[0].input);
    Ending(r') || (!Strays(r, moments[0].input) && NeverStrays(r', moments[1..], roots))
  }

  /** Whatever a run meets, each query goes to addresses that came with the servers it was delegated
      to exactly when no step on the way strays. */
  lemma {:induction false} AddressesOfDelegation(r: Run, from: RootGlue, moments: seq<Moment>, roots: RootGlue)
    requires RootGlueOk(roots) && SectionsOk(r) && Held(r) == from && IsCourse(r, moments, roots)
    ensures OneSource(r, from, moments, roots) <==> Ending(r) || NeverStrays(r, moments, roots)
    decreases |moments|
  {
    if moments == [] {
    } else {
      var m := moments[0];
      StepKeepsSource(r, from, m.cache, roots, m.input);
      StepKeepsSections(r, m.cache, roots, m.input);
      var r', from' := Step(r, m.cache, roots, m.input), NextSource(r, from, m.cache, roots, m.input);
      if !Ending(r') && !Strays(r, m.input) {
        AddressesOfDelegation(r', from', moments[1..], roots);
      }
    }
  }

  // ---- What an upstream exchange leads to --------------------------------------------------

  /** A reply the machine may act on: the winner's, or the alternate's when the winner's code is bad;
      a name error, or a success that echoes the name that was asked. */
  ghost predicate Acceptable(up: UpstreamInput, name: Name, m: Msg) {
    && up.Answer?
    && (if up.reply.rcode in {1, 2, 4, 5} then up.alternate == Some(m) else m == up.reply)
    && (m.rcode == 3 || (m.rcode == 0 && m.question.Some? && m.question.value.name == name))
  }

  /** A query stops the run exactly when no address was known or no reply was acceptable. */
  lemma QueryFailsWithoutReply(r: Run, cache: Cache, roots: RootGlue, x: Input)
    requires r.stage.QueryUpstream?
    ensures Step(r, cache, roots, x).stage == Stopped(Error)
            <==> !x.hasAddress || !exists m :: Acceptable(x.upstream, r.question.name, m)
    ensures Step(r, cache, roots, x).stage == Stopped(Error) ==> StepCache(r, cache, x) == cache
  {
    var up, name := x.upstream, r.question.name;
    if up.Answer? {
      if BadRcode(up.reply.rcode) {
        assert up.alternate.Some? ==> (Acceptable(up, name, up.alternate.value) <==> !Judge(up.alternate.value, name).Broken?);
      } else {
        assert Acceptable(up, name, up.reply) <==> !Judge(up.reply, name).Broken?;
      }
    }
  }

  /** An acceptable reply is classified next. A success contributes all three sections and is cached;
      a name error contributes its code and authority section and is not cached here. */
  lemma QueryUsesReply(r: Run, cache: Cache, roots: RootGlue, x: Input, m: Msg)
    requires r.stage.QueryUpstream? && x.hasAddress && Acceptable(x.upstream, r.question.name, m)
    ensures var r', cache' := Step(r, cache, roots, x), StepCache(r, cache, x);
            && r'.stage == ClassifyResp && r'.response.ns == m.ns
            && r'.question == r.question && r'.chain == r.chain
            && (if m.rcode == NXDOMAIN
                then r'.response.rcode == NXDOMAIN && r'.response.answer == r.response.answer && cache' == cache
                else r'.response.answer == r.response.answer + m.answer && r'.response.extra == m.extra
                     && cache' == CacheAfterReply(cache, m))
  {
  }

  /** What a usable reply leaves in the cache: the reply under its own question if it answers it, and
      under its zone if it delegates, each readable as written; every other entry is as it was. */
  lemma ReplyIsCached(cache: Cache, m: Msg, key: string)
    requires m.question.Some?
    ensures var q, cache' := m.question.value, CacheAfterReply(cache, m);
            && (m.answer != [] ==>
                  var k := TypedKey(q.name, q.qtype);
                  k in cache' && cache'[k] == Entry(Stored(m), m.answer[0].ttl))
            && (IsDelegation(m) ==>
                  var k := Text(m.ns[0].owner);
                  k in cache' && cache'[k] == Entry(Stored(m), m.ns[0].ttl))
            && ((m.answer == [] || key != TypedKey(q.name, q.qtype)) && (!IsDelegation(m) || key != Text(m.ns[0].owner)) ==>
                  (key in cache' <==> key in cache) && (key in cache ==> cache'[key] == cache[key]))
  {
    if IsDelegation(m) {
      TypedKeyIsNoZone(Text(m.question.value.name), m.question.value.qtype, m.ns[0].owner);
    }
  }

  lemma CachedAnswerIsUsed(cache: Cache, m: Msg, r: Run, roots: RootGlue, x: Input, y: Input)
    requires m.answer != [] && r.stage.CacheLookup? && r.response.answer == []
    requires var key := TypedKey(r.question.name, r.question.qtype);
             key in cache && cache[key].msg.answer == m.answer
    ensures var r' := Step(r, cache, roots, x);
            && r'.stage == ClassifyResp && r'.response.answer == m.answer && r'.response.rcode == r.response.rcode
            && (Step(r', cache, roots, y).stage == ReturnResp <==> HasType(m.answer, r.question.qtype))
  {
    assert [] + m.answer == m.answer;
  }

  /** An answer is served from the cache: after a usable reply, a run that looks up the question the
      reply was for gets exactly its answer section, and returns it if and only if it has a record of
      the type asked for. */
  lemma CachedAnswerIsServed(cache: Cache, m: Msg, r: Run, roots: RootGlue, x: Input, y: Input)
    requires m.question.Some? && m.answer != []
    requires r.stage.CacheLookup? && SectionsOk(r) && r.question == m.question.value
    ensures var cache' := CacheAfterReply(cache, m);
            var r' := Step(r, cache', roots, x);
            && r'.stage == ClassifyResp && r'.response.answer == m.answer && r'.response.rcode == r.response.rcode
            && (Step(r', cache', roots, y).stage == ReturnResp <==> HasType(m.answer, r.question.qtype))
  {
    ReplyIsCached(cache, m, "");
    CachedAnswerIsUsed(CacheAfterReply(cache, m), m, r, roots, x, y);
  }

  /** So is a negative answer: the run that classified it writes it with the lifetime its SOA allows,
      and a run that looks the same question up next gets its code and authority section and
      returns them. */
  lemma NegativeAnswerIsServed(r: Run, cache: Cache, roots: RootGlue, x: Input, later: Run, y: Input, z: Input)
    requires CacheOk(cache)
    requires r.stage.ClassifyResp? && Classify(r.response, r.question.qtype).GetNegative?
    requires later.stage.CacheLookup? && SectionsOk(later) && later.question == r.question
    ensures var cache', key := StepCache(r, cache, x), TypedKey(r.question.name, r.question.qtype);
            && key in cache' && Some(cache'[key].ttl) == NegativeTtl(r.response.ns)
            && Step(later, cache', roots, y).response.rcode == r.response.rcode
            && Step(later, cache', roots, y).response.ns == later.response.ns + r.response.ns
            && Step(Step(later, cache', roots, y), cache', roots, z).stage == ReturnResp
  {
    NegativeTtlFollowsSOA(r.response.ns);
    StepKeepsCache(r, cache, x);
    NegativeHitIsReturned(later, StepCache(r, cache, x), roots, y, z);
  }

  // ---- How long a run can take -------------------------------------------------------------

  /** Lower bounds on the number of steps taken before a stage, in terms of the upstream queries made
      and of the CNAMEs followed. */
  predicate PaceOk(r: Run, steps: nat, queries: nat) {
    var c := |r.chain|;
    match r.stage
    case StateInit => queries == 0 && c == 0
    case HostsLookup => steps >= 1 && queries == 0 && c == 0
    case ForwardLookup => steps >= 2 && queries == 0 && c == 0
    case CacheLookup =>
      (steps >= 3 * queries + 5 || (steps >= 3 * queries + 3 && r.response.ns == [])) && steps >= 2 * c + 3
    case ClassifyResp => steps >= 3 * queries + 4 && steps >= 2 * c + 4
    case ExtractGlue =>
      (steps >= 3 * queries + 5 || (steps >= 3 * queries + 4 && r.response.ns == [])) && steps >= 2 * c + 4
    case LookupNsCache => steps >= 3 * queries + 5 && steps >= 2 * c + 5
    case QueryUpstream => steps >= 3 * queries + 6 && steps >= 2 * c + 5
    case ReturnResp => (queries == 0 || steps >= 3 * queries + 5) && (c == 0 || steps >= 2 * c + 5)
    case Stopped(_) => true
  }

  function Queries(r: Run, queries: nat): nat {
    if r.stage.QueryUpstream? then queries + 1 else queries
  }

  lemma StepKeepsPace(r: Run, cache: Cache, roots: RootGlue, x: Input, steps: nat, queries: nat)
    requires !r.stage.Stopped? && SectionsOk(r) && PaceOk(r, steps, queries)
    ensures PaceOk(Step(r, cache, roots, x), steps + 1, Queries(r, queries))
  {
  }

  /** A run that is allowed fifty steps makes its upstream queries at most fifteen times ... */
  lemma FewQueries(r: Run, steps: nat, queries: nat)
    requires r.stage.QueryUpstream? && PaceOk(r, steps, queries) && steps < MAX_ITERATIONS
    ensures Queries(r, queries) <= 15
  {
  }

  /** ... and returns at most twenty-two CNAMEs. */
  lemma FewCNAMEs(r: Run, steps: nat, queries: nat)
    requires r.stage.ReturnResp? && PaceOk(r, steps, queries) && steps < MAX_ITERATIONS
    ensures |r.chain| <= 22
  {
  }
}
