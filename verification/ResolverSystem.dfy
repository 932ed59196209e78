/** Any number of resolver runs sharing one cache, interleaved step by step, while cache entries
    expire and name-server addresses are noted in the background. */
module ResolverSystem {
  import opened Names
  import opened DnsModel
  import opened CacheKeys
  import opened Resolver
  import opened ResolverRuns

  /** A run with the steps it has taken, its upstream queries, and whether every CNAME it followed
      was owned by the name it was asking about. */
  datatype Live = Live(run: Run, steps: nat, queries: nat, owned: bool)

  datatype State = State(cache: Cache, runs: map<nat, Live>)

  datatype Event =
    | Begin(id: nat, q: Question)
    | Advance(id: nat, x: Input)
    | Expire(keys: set<string>)
    | NoteAddress(host: Name, addresses: seq<RR>, ttl: nat)

  predicate Enabled(s: State, e: Event) {
    match e
    case Begin(id, _) => id !in s.runs
    case Advance(id, _) => id in s.runs && !s.runs[id].run.stage.Stopped? && s.runs[id].steps < MAX_ITERATIONS
    case Expire(_) => true
    case NoteAddress(_, addresses, _) => addresses != []
  }

  /** Whether the step about to be taken follows a CNAME, and if so whether the record is owned by
      the current name. */
  predicate FollowsOwned(r: Run) {
    r.stage.ClassifyResp? && Classify(r.response, r.question.qtype).GetCNAME?
    && FirstCNAME(r.response.answer).value.target !in r.visited
    ==> FirstCNAME(r.response.answer).value.owner == r.question.name
  }

  function AdvanceLive(l: Live, cache: Cache, roots: RootGlue, x: Input): Live
    requires !l.run.stage.Stopped?
  {
    Live(Step(l.run, cache, roots, x), l.steps + 1, Queries(l.run, l.queries), l.owned && FollowsOwned(l.run))
  }

  function Apply(s: State, e: Event, roots: RootGlue): State
    requires Enabled(s, e)
  {
    match e
    case Begin(id, q) => s.(runs := s.runs[id := Live(Start(q), 0, 0, true)])
    case Advance(id, x) =>
      State(StepCache(s.runs[id].run, s.cache, x), s.runs[id := AdvanceLive(s.runs[id], s.cache, roots, x)])
    case Expire(keys) => s.(cache := s.cache - keys)
    case NoteAddress(host, addresses, ttl) =>
      s.(cache := Put(s.cache, TypedKey(host, TYPE_A), Msg(NOERROR, Some(Question(host, TYPE_A)), addresses, [], []), ttl))
  }

  /** A reply is a bare format error, server failure or refusal of the current question; or it has the
      original question, the code and the authority and additional sections found, and as its answer
      the chain, of at most twenty-two CNAMEs, and then the answer found. */
  predicate ReplyOk(r: Run) {
    r.stage.Stopped? && r.stage.result.Reply? ==>
      var m := r.stage.result.msg;
      || (m.rcode in {1, 2, 5} && m == Msg(m.rcode, Some(r.question), [], [], []))
      || (&& m == Msg(r.response.rcode, Some(r.original), r.chain + r.response.answer, r.response.ns, r.response.extra)
          && |r.chain| <= 22)
  }

  /** What holds of each run at each moment. */
  ghost predicate LiveOk(l: Live) {
    && SectionsOk(l.run) && ChainOk(l.run) && ReplyOk(l.run)
    && PaceOk(l.run, l.steps, l.queries) && l.queries <= 15 && l.steps <= MAX_ITERATIONS
    && (Linked(l.run.chain, l.run.original.name) <==> l.owned)
  }

  ghost predicate Inv(s: State) {
    CacheOk(s.cache) && forall id :: id in s.runs ==> LiveOk(s.runs[id])
  }

  lemma StartOk(q: Question)
    ensures LiveOk(Live(Start(q), 0, 0, true))
  {
  }

  lemma StepKeepsReply(r: Run, cache: Cache, roots: RootGlue, x: Input, steps: nat, queries: nat)
    requires !r.stage.Stopped? && PaceOk(r, steps, queries) && steps < MAX_ITERATIONS
    ensures ReplyOk(Step(r, cache, roots, x))
  {
    if r.stage.ReturnResp? {
      FewCNAMEs(r, steps, queries);
    }
  }

  lemma StepKeepsLinks(r: Run, cache: Cache, roots: RootGlue, x: Input)
    requires !r.stage.Stopped? && ChainOk(r)
    ensures var r' := Step(r, cache, roots, x);
            && IsChain(r'.chain) && r'.original == r.original
            && (Linked(r'.chain, r.original.name) <==> Linked(r.chain, r.original.name) && FollowsOwned(r))
  {
    StepKeepsChain(r, cache, roots, x);
    if r.stage.ClassifyResp? && Classify(r.response, r.question.qtype).GetCNAME?
       && FirstCNAME(r.response.answer).value.target !in r.visited {
      FollowKeepsLinks(r);
    } else {
      ChainUnchanged(r, cache, roots, x);
    }
  }

  lemma ChainUnchanged(r: Run, cache: Cache, roots: RootGlue, x: Input)
    requires !r.stage.Stopped?
    requires !(r.stage.ClassifyResp? && Classify(r.response, r.question.qtype).GetCNAME?
               && FirstCNAME(r.response.answer).value.target !in r.visited)
    ensures Step(r, cache, roots, x).chain == r.chain
  {
  }

  lemma AdvanceKeepsLive(l: Live, cache: Cache, roots: RootGlue, x: Input)
    requires LiveOk(l) && CacheOk(cache) && RootGlueOk(roots) && !l.run.stage.Stopped? && l.steps < MAX_ITERATIONS
    ensures LiveOk(AdvanceLive(l, cache, roots, x))
  {
    StepKeepsSections(l.run, cache, roots, x);
    StepKeepsChain(l.run, cache, roots, x);
    StepKeepsLinks(l.run, cache, roots, x);
    StepKeepsReply(l.run, cache, roots, x, l.steps, l.queries);
    StepKeepsPace(l.run, cache, roots, x, l.steps, l.queries);
    if l.run.stage.QueryUpstream? {
      FewQueries(l.run, l.steps, l.queries);
    }
  }

  lemma EventKeepsInv(s: State, e: Event, roots: RootGlue)
    requires Inv(s) && Enabled(s, e) && RootGlueOk(roots)
    ensures Inv(Apply(s, e, roots))
  {
    match e
    case Begin(id, q) => StartOk(q);
    case Advance(id, x) =>
      AdvanceKeepsLive(s.runs[id], s.cache, roots, x);
      StepKeepsCache(s.runs[id].run, s.cache, x);
    case Expire(keys) =>
    case NoteAddress(host, addresses, ttl) =>
      PutTyped(s.cache, host, TYPE_A, Msg(NOERROR, Some(Question(host, TYPE_A)), addresses, [], []), ttl);
  }

  ghost predicate IsHistory(s: State, events: seq<Event>, roots: RootGlue)
    decreases |events|
  {
    events == [] || (Enabled(s, events[0]) && IsHistory(Apply(s, events[0], roots), events[1..], roots))
  }

  ghost function After(s: State, events: seq<Event>, roots: RootGlue): State
    requires IsHistory(s, events, roots)
    decreases |events|
  {
    if events == [] then s else After(Apply(s, events[0], roots), events[1..], roots)
  }

  lemma {:induction false} HistoriesKeepInv(s: State, events: seq<Event>, roots: RootGlue)
    requires Inv(s) && RootGlueOk(roots) && IsHistory(s, events, roots)
    ensures Inv(After(s, events, roots))
    decreases |events|
  {
    if events == [] {
    } else {
      EventKeepsInv(s, events[0], roots);
      HistoriesKeepInv(Apply(s, events[0], roots), events[1..], roots);
    }
  }

  /** In every history of runs, replies and expiries from an empty cache: a run about to query
      upstream has a delegation of a zone enclosing its current name; it has made at most fifteen
      queries; its CNAME targets are pairwise distinct; and its reply, if it gives one, is a bare
      failure or has the original question and begins with its chain of at most twenty-two CNAMEs,
      which links the original name to the last target exactly when each CNAME followed was owned by
      the name being asked about. */
  lemma EveryRun(events: seq<Event>, roots: RootGlue, id: nat)
    requires RootGlueOk(roots) && IsHistory(State(map[], map[]), events, roots)
    requires id in After(State(map[], map[]), events, roots).runs
    ensures var l := After(State(map[], map[]), events, roots).runs[id];
            && (l.run.stage.QueryUpstream? ==> Delegated(l.run))
            && l.queries <= 15
            && IsChain(l.run.chain) && DistinctTargets(l.run.chain)
            && ReplyOk(l.run)
            && (Linked(l.run.chain, l.run.original.name) <==> l.owned)
            && l.run.question == Question(ChainEnd(l.run.chain, l.run.original.name), l.run.original.qtype)
  {
    HistoriesKeepInv(State(map[], map[]), events, roots);
  }
}
