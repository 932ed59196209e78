/** What a client is told, and why: the whole reply in terms of what the run met on the way, over
    several steps of the machine and any state of the cache. */
module ResolverReplies {
  import opened Names
  import opened DnsModel
  import opened CacheKeys
  import opened Resolver
  import opened ResolverRuns

  /** A run after it has met some moments one after the other, or where it stopped before. */
  function RunOn(r: Run, moments: seq<Moment>, roots: RootGlue): Run
    decreases |moments|
  {
    if moments == [] || r.stage.Stopped? then r
    else RunOn(Step(r, moments[0].cache, roots, moments[0].input), moments[1..], roots)
  }

  predicate Replies(r: Run, m: Msg) {
    r.stage == Stopped(Reply(m))
  }

  lemma RunOnOne(r: Run, a: Moment, roots: RootGlue)
    requires !r.stage.Stopped?
    ensures RunOn(r, [a], roots) == Step(r, a.cache, roots, a.input)
  {
    assert [a][1..] == [];
  }

  lemma RunOnMore(r: Run, a: Moment, rest: seq<Moment>, roots: RootGlue)
    requires !r.stage.Stopped?
    ensures RunOn(r, [a] + rest, roots) == RunOn(Step(r, a.cache, roots, a.input), rest, roots)
  {
    assert ([a] + rest)[1..] == rest;
  }

  // ---- Answers that need no cache ----------------------------------------------------------

  /** A malformed request is a format error. */
  lemma MalformedIsReplied(q: Question, a: Moment, roots: RootGlue)
    requires a.input.malformed
    ensures Replies(RunOn(Start(q), [a], roots), Msg(1, Some(q), [], [], []))
  {
    RunOnOne(Start(q), a, roots);
  }

  function Fresh(stage: Stage, q: Question): Run {
    Run(stage, q, q, Msg(NOERROR, Some(q), [], [], []), [], {})
  }

  /** What the hosts file has for a question is the answer. */
  lemma HostsAreReplied(q: Question, answer: seq<RR>, a: Moment, b: Moment, c: Moment, roots: RootGlue)
    requires !a.input.malformed && b.input.hosts == HostsHit(answer)
    ensures Replies(RunOn(Start(q), [a] + ([b] + [c]), roots), Msg(0, Some(q), answer, [], []))
  {
    RunOnMore(Start(q), a, [b] + [c], roots);
    RunOnMore(Fresh(HostsLookup, q), b, [c], roots);
    var r := Fresh(ReturnResp, q).(response := Msg(0, Some(q), answer, [], []));
    assert Step(Fresh(HostsLookup, q), b.cache, roots, b.input) == r by {
      assert [] + answer == answer;
    }
    RunOnOne(r, c, roots);
    assert [] + answer == answer;
  }

  /** Otherwise what the forwarding zones have for it is: the reply obtained, under the question asked,
      or a server failure or a refusal; and if they have nothing, the cache is consulted. */
  lemma ForwardingIsReplied(q: Question, a: Moment, b: Moment, c: Moment, d: Moment, roots: RootGlue)
    requires !a.input.malformed && b.input.hosts.HostsMiss?
    ensures var three := [a] + ([b] + [c]);
            match c.input.forward
            case ForwardHit(m) =>
              Replies(RunOn(Start(q), [a] + ([b] + ([c] + [d])), roots), Msg(m.rcode, Some(q), m.answer, m.ns, m.extra))
            case ForwardServfail => Replies(RunOn(Start(q), three, roots), Msg(2, Some(q), [], [], []))
            case ForwardRefused => Replies(RunOn(Start(q), three, roots), Msg(5, Some(q), [], [], []))
            case ForwardMiss => RunOn(Start(q), three, roots) == Fresh(CacheLookup, q)
  {
    RunOnMore(Start(q), a, [b] + [c], roots);
    RunOnMore(Start(q), a, [b] + ([c] + [d]), roots);
    RunOnMore(Fresh(HostsLookup, q), b, [c], roots);
    RunOnMore(Fresh(HostsLookup, q), b, [c] + [d], roots);
    var r := Fresh(ForwardLookup, q);
    RunOnOne(r, c, roots);
    RunOnMore(r, c, [d], roots);
    if c.input.forward.ForwardHit? {
      var m := c.input.forward.reply;
      var r' := Fresh(ReturnResp, q).(response := Msg(m.rcode, Some(q), m.answer, m.ns, m.extra));
      assert Step(r, c.cache, roots, c.input) == r';
      RunOnOne(r', d, roots);
      assert [] + m.answer == m.answer;
    }
  }

  // ---- From classification on ---------------------------------------------------------------

  /** The message a run would return now. */
  function Collected(r: Run): Msg {
    Msg(r.response.rcode, Some(r.original), r.chain + r.response.answer, r.response.ns, r.response.extra)
  }

  /** A response with a record of the type asked for, or with none at all but an SOA under success or a
      name error, is returned: its own code and sections, behind the chain. */
  lemma ClassifiedIsReplied(r: Run, a: Moment, b: Moment, roots: RootGlue)
    requires r.stage.ClassifyResp?
    requires HasType(r.response.answer, r.question.qtype)
             || (r.response.answer == [] && HasSOA(r.response.ns) && r.response.rcode in {0, 3})
    ensures Replies(RunOn(r, [a] + [b], roots), Collected(r))
  {
    RunOnMore(r, a, [b], roots);
    RunOnOne(r.(stage := ReturnResp), b, roots);
  }

  /** A response without one, whose first CNAME is at some place, asks for that record's target next,
      with the record at the end of the chain and its delegation only if that is for a zone enclosing
      the target; a target already on the chain is an error. */
  lemma CnameIsFollowed(r: Run, i: nat, a: Moment, roots: RootGlue)
    requires r.stage.ClassifyResp? && ChainOk(r) && r.question.qtype != 5
    requires !HasType(r.response.answer, r.question.qtype) && IsFirstCNAME(r.response.answer, i)
    ensures var rr, r' := r.response.answer[i], Step(r, a.cache, roots, a.input);
            if exists k :: 0 <= k < |r.chain| && r.chain[k].target == rr.target then r'.stage == Stopped(Error)
            else
              && r'.stage == CacheLookup && r'.question == Question(rr.target, r.question.qtype)
              && r'.original == r.original && r'.chain == r.chain + [rr]
              && r'.response.rcode == r.response.rcode && r'.response.answer == []
              && Held(r') == if r.response.ns != [] && IsSubDomain(r.response.ns[0].owner, rr.target)
                             then Held(r) else RootGlue([], [])
  {
    FirstCNAMEIsFirst(r.response.answer, i);
    FollowKeepsChain(r);
  }

  // ---- From a query on -----------------------------------------------------------------------

  /** The code of a response after a successful reply: what it was before, unless the reply came from a
      second server after the first one's bad code. */
  function CodeAfter(r: Run, up: UpstreamInput): nat
    requires up.Answer?
  {
    if BadRcode(up.reply.rcode) then NOERROR else r.response.rcode
  }

  function AfterReply(r: Run, up: UpstreamInput, m: Msg): Run
    requires up.Answer?
  {
    r.(stage := ClassifyResp,
       response := Msg(CodeAfter(r, up), r.response.question, r.response.answer + m.answer, m.ns, m.extra))
  }

  lemma QueryStep(r: Run, m: Msg, a: Moment, roots: RootGlue)
    requires r.stage.QueryUpstream? && a.input.hasAddress && Acceptable(a.input.upstream, r.question.name, m)
    requires m.rcode == NOERROR
    ensures Step(r, a.cache, roots, a.input) == AfterReply(r, a.input.upstream, m)
  {
  }

  /** A successful reply that has a record of the type asked for is passed on to the client: its sections
      as they are, with what the run had before in front of its answer. */
  lemma UpstreamAnswerIsReplied(r: Run, m: Msg, a: Moment, b: Moment, c: Moment, roots: RootGlue)
    requires r.stage.QueryUpstream? && a.input.hasAddress && Acceptable(a.input.upstream, r.question.name, m)
    requires m.rcode == 0 && HasType(m.answer, r.question.qtype)
    ensures Replies(RunOn(r, [a] + ([b] + [c]), roots),
                    Msg(CodeAfter(r, a.input.upstream), Some(r.original), r.chain + (r.response.answer + m.answer), m.ns, m.extra))
  {
    RunOnMore(r, a, [b] + [c], roots);
    QueryStep(r, m, a, roots);
    var i :| 0 <= i < |m.answer| && TypeOf(m.answer[i]) == r.question.qtype;
    assert (r.response.answer + m.answer)[|r.response.answer| + i] == m.answer[i];
    ClassifiedIsReplied(AfterReply(r, a.input.upstream, m), b, c, roots);
  }

  /** A name error with its SOA is passed on as one: its code and authority section behind the chain. */
  lemma NameErrorIsReplied(r: Run, m: Msg, a: Moment, b: Moment, c: Moment, roots: RootGlue)
    requires r.stage.QueryUpstream? && a.input.hasAddress && Acceptable(a.input.upstream, r.question.name, m)
    requires m.rcode == 3 && HasSOA(m.ns) && r.response.answer == []
    ensures Replies(RunOn(r, [a] + ([b] + [c]), roots), Msg(3, Some(r.original), r.chain, m.ns, r.response.extra))
    ensures var r', key := Step(r, a.cache, roots, a.input), TypedKey(r.question.name, r.question.qtype);
            var cache' := StepCache(r', b.cache, b.input);
            && key in cache' && Some(cache'[key].ttl) == NegativeTtl(m.ns)
            && cache'[key].msg.rcode == 3 && cache'[key].msg.answer == [] && cache'[key].msg.ns == m.ns
  {
    RunOnMore(r, a, [b] + [c], roots);
    NegativeTtlFollowsSOA(m.ns);
    var r' := r.(stage := ClassifyResp, response := r.response.(rcode := NXDOMAIN, ns := m.ns));
    assert Step(r, a.cache, roots, a.input) == r';
    ClassifiedIsReplied(r', b, c, roots);
    assert r.chain + [] == r.chain;
  }

  /** A success without answers and with an SOA is passed on as an empty answer. */
  lemma NoDataIsReplied(r: Run, m: Msg, a: Moment, b: Moment, c: Moment, roots: RootGlue)
    requires r.stage.QueryUpstream? && a.input.hasAddress && Acceptable(a.input.upstream, r.question.name, m)
    requires m.rcode == 0 && m.answer == [] && HasSOA(m.ns) && r.response.answer == [] && r.response.rcode in {0, 3}
    ensures Replies(RunOn(r, [a] + ([b] + [c]), roots),
                    Msg(CodeAfter(r, a.input.upstream), Some(r.original), r.chain, m.ns, m.extra))
  {
    RunOnMore(r, a, [b] + [c], roots);
    QueryStep(r, m, a, roots);
    ClassifiedIsReplied(AfterReply(r, a.input.upstream, m), b, c, roots);
    assert r.chain + ([] + []) == r.chain;
  }

  /** A referral to a zone that encloses the name is followed: the next query asks the same question of
      the servers referred to, at the addresses that came with them. */
  lemma ReferralIsQueried(r: Run, m: Msg, a: Moment, b: Moment, c: Moment, roots: RootGlue)
    requires r.stage.QueryUpstream? && a.input.hasAddress && Acceptable(a.input.upstream, r.question.name, m)
    requires m.rcode == 0 && m.answer == [] && r.response.answer == [] && !HasSOA(m.ns)
    requires m.ns != [] && m.ns[0].NS? && IsSubDomain(m.ns[0].owner, r.question.name)
    ensures var r' := RunOn(r, [a] + ([b] + [c]), roots);
            && r'.stage.QueryUpstream? && r'.question == r.question && r'.chain == r.chain
            && Held(r') == RootGlue(m.ns, m.extra)
  {
    RunOnMore(r, a, [b] + [c], roots);
    QueryStep(r, m, a, roots);
    var r1 := AfterReply(r, a.input.upstream, m);
    RunOnMore(r1, b, [c], roots);
    RunOnOne(r1.(stage := ExtractGlue), c, roots);
  }

  /** A delegation that is of no use, or none, is replaced in two steps by that of the closest cached zone
      or of the roots; addresses in hand stay in front exactly when they had no servers beside them. */
  lemma UselessDelegationIsReplaced(r: Run, a: Moment, b: Moment, roots: RootGlue)
    requires r.stage.ExtractGlue?
    requires r.response.ns == [] || !r.response.ns[0].NS? || !IsSubDomain(r.response.ns[0].owner, r.question.name)
    ensures var r', found := RunOn(r, [a] + [b], roots), LookedUp(b.cache, roots, r.question.name);
            && r'.stage.QueryUpstream? && r'.question == r.question && r'.chain == r.chain
            && r'.response.rcode == r.response.rcode && r'.response.answer == r.response.answer
            && Held(r') == RootGlue(found.ns, (if r.response.ns == [] then r.response.extra else []) + found.extra)
  {
    RunOnMore(r, a, [b], roots);
    var kept := if r.response.ns == [] then r.response.extra else [];
    var r1 := r.(stage := LookupNsCache, response := r.response.(ns := [], extra := kept));
    assert Step(r, a.cache, roots, a.input) == r1;
    RunOnOne(r1, b, roots);
    var found := LookedUp(b.cache, roots, r.question.name);
    assert [] + found.ns == found.ns;
  }

  // ---- From the cache ------------------------------------------------------------------------

  /** With nothing in the cache for its question a run goes on if it is admitted and is refused if not;
      with something, admission plays no part. */
  lemma OnlyMissesAreRefused(r: Run, a: Moment, admitted: bool, roots: RootGlue)
    requires r.stage.CacheLookup?
    ensures var key, r' := TypedKey(r.question.name, r.question.qtype), Step(r, a.cache, roots, a.input);
            if key in a.cache && (a.cache[key].msg.answer != [] || HasSOA(a.cache[key].msg.ns))
            then r'.stage == ClassifyResp && r' == Step(r, a.cache, roots, a.input.(admitted := admitted))
            else if a.input.admitted then r' == r.(stage := ExtractGlue)
            else Replies(r', Msg(5, Some(r.question), [], [], []))
  {
  }

  /** A cached answer with a record of the type asked for reaches the client. */
  lemma CachedAnswerIsReplied(cache: Cache, m: Msg, r: Run, a: Moment, b: Moment, c: Moment, roots: RootGlue)
    requires m.question.Some? && HasType(m.answer, r.question.qtype) && r.question == m.question.value
    requires r.stage.CacheLookup? && SectionsOk(r) && a.cache == CacheAfterReply(cache, m)
    ensures Replies(RunOn(r, [a] + ([b] + [c]), roots),
                    Msg(r.response.rcode, Some(r.original), r.chain + m.answer, r.response.ns, r.response.extra))
  {
    ReplyIsCached(cache, m, "");
    RunOnMore(r, a, [b] + [c], roots);
    var r' := r.(stage := ClassifyResp, response := r.response.(answer := m.answer));
    assert Step(r, a.cache, roots, a.input) == r' by {
      assert [] + m.answer == m.answer;
    }
    ClassifiedIsReplied(r', b, c, roots);
  }

  /** A negative answer reaches every later client that asks the same: whoever classified it, a run that
      looks it up then replies with its code, and with its authority section behind its own. */
  lemma CachedNegativeIsReplied(r: Run, x: Input, cache: Cache, later: Run, a: Moment, b: Moment, c: Moment, roots: RootGlue)
    requires CacheOk(cache) && r.stage.ClassifyResp? && r.response.answer == [] && HasSOA(r.response.ns) && r.response.rcode in {0, 3}
    requires later.stage.CacheLookup? && SectionsOk(later) && later.question == r.question
    requires a.cache == StepCache(r, cache, x)
    ensures Replies(RunOn(later, [a] + ([b] + [c]), roots),
                    Msg(r.response.rcode, Some(later.original), later.chain, later.response.ns + r.response.ns, later.response.extra))
  {
    NegativeAnswerIsServed(r, cache, roots, x, later, a.input, b.input);
    RunOnMore(later, a, [b] + [c], roots);
    var r' := Step(later, a.cache, roots, a.input);
    assert r'.response.answer == [];
    var i :| 0 <= i < |r.response.ns| && r.response.ns[i].SOA?;
    assert (later.response.ns + r.response.ns)[|later.response.ns| + i].SOA?;
    ClassifiedIsReplied(r', b, c, roots);
    assert later.chain + [] == later.chain;
  }

  // ---- The code of an answer -----------------------------------------------------------------

  /** The exchange comes to a name error ... */
  predicate Denies(r: Run, x: Input) {
    Decided(r, x) && JudgeExchange(x.upstream, r.question.name).NameError?
  }

  /** ... or to a success of the second server after a bad code of the first. */
  predicate Clears(r: Run, x: Input) {
    Decided(r, x) && JudgeExchange(x.upstream, r.question.name).Usable? && BadRcode(x.upstream.reply.rcode)
  }

  predicate NowDenied(denied: bool, r: Run, x: Input) {
    Denies(r, x) || (denied && !Clears(r, x))
  }

  lemma StepKeepsCode(denied: bool, r: Run, cache: Cache, roots: RootGlue, x: Input)
    requires CacheOk(cache) && SectionsOk(r) && !Ending(r) && r.response.rcode == if denied then NXDOMAIN else NOERROR
    ensures var r' := Step(r, cache, roots, x);
            Ending(r') || r'.response.rcode == if NowDenied(denied, r, x) then NXDOMAIN else NOERROR
  {
    var key := TypedKey(r.question.name, r.question.qtype);
    if r.stage.CacheLookup? && key in cache && cache[key].msg.answer == [] && HasSOA(cache[key].msg.ns) {
      NegativeHitEnds(r, cache, roots, x);
    }
  }

  /** A name error came up on the way, and no success of a second server has cleared it since. */
  ghost predicate DeniedOn(denied: bool, r: Run, moments: seq<Moment>, roots: RootGlue)
    requires IsCourse(r, moments, roots)
    decreases |moments|
  {
    if moments == [] then denied
    else
      var m := moments[0];
      DeniedOn(NowDenied(denied, r, m.input), Step(r, m.cache, roots, m.input), moments[1..], roots)
  }

  lemma {:induction false} CourseKeepsCode(denied: bool, r: Run, moments: seq<Moment>, roots: RootGlue)
    requires RootGlueOk(roots) && SectionsOk(r) && IsCourse(r, moments, roots)
    requires Ending(r) || r.response.rcode == if denied then NXDOMAIN else NOERROR
    ensures Ending(RunOn(r, moments, roots))
            || RunOn(r, moments, roots).response.rcode == if DeniedOn(denied, r, moments, roots) then NXDOMAIN else NOERROR
    decreases |moments|
  {
    if moments == [] {
    } else {
      var m := moments[0];
      StepKeepsCode(denied, r, m.cache, roots, m.input);
      StepKeepsSections(r, m.cache, roots, m.input);
      CourseKeepsCode(NowDenied(denied, r, m.input), Step(r, m.cache, roots, m.input), moments[1..], roots);
    }
  }

  /** An answer that a run has found, over any caches and inputs, is returned as a success exactly when no
      name error it met on the way is left standing; if one is, the answer is returned as a name error. */
  lemma CodeOfAnswer(q: Question, moments: seq<Moment>, b: Moment, c: Moment, roots: RootGlue)
    requires RootGlueOk(roots) && IsCourse(Start(q), moments, roots)
    requires var r := RunOn(Start(q), moments, roots);
             r.stage.ClassifyResp? && HasType(r.response.answer, r.question.qtype)
    ensures var r := RunOn(Start(q), moments, roots);
            && Replies(RunOn(r, [b] + [c], roots), Collected(r))
            && Collected(r).rcode == if DeniedOn(false, Start(q), moments, roots) then 3 else 0
  {
    var r := RunOn(Start(q), moments, roots);
    ClassifiedIsReplied(r, b, c, roots);
    CourseKeepsCode(false, Start(q), moments, roots);
  }
}
