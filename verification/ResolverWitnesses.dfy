/** Concrete histories: a reply whose CNAME chain is not linked, runs that attain the bounds on
    upstream queries and on CNAMEs, queries to addresses of another delegation, and an answer returned
    as a name error. */
module ResolverWitnesses {
  import opened Names
  import opened ZoneMatch
  import opened DnsModel
  import opened CacheKeys
  import opened Resolver
  import opened ResolverRuns
  import opened ResolverSystem

  const ROOTS := RootGlue([NS([], 0, ["h"])], [A(["h"], 0, 1)])

  const EMPTY := State(map[], map[])

  /** Nothing is configured and every request is admitted. That an address is known is shown for each
      query: it comes with the delegation. */
  function Given(up: UpstreamInput): Input {
    Input(false, HostsMiss, ForwardMiss, true, true, up)
  }

  /** The events lead from the empty cache to the state. */
  ghost predicate Reaches(events: seq<Event>, s: State) {
    IsHistory(EMPTY, events, ROOTS) && After(EMPTY, events, ROOTS) == s
  }

  lemma {:induction false} HistorySnoc(s: State, events: seq<Event>, e: Event)
    requires IsHistory(s, events, ROOTS) && Enabled(After(s, events, ROOTS), e)
    ensures IsHistory(s, events + [e], ROOTS)
    ensures After(s, events + [e], ROOTS) == Apply(After(s, events, ROOTS), e, ROOTS)
    decreases |events|
  {
    if events == [] {
      assert events + [e] == [e] && [e][1..] == [];
      assert IsHistory(Apply(s, e, ROOTS), [], ROOTS);
    } else {
      HistorySnoc(Apply(s, events[0], ROOTS), events[1..], e);
      assert (events + [e])[1..] == events[1..] + [e];
    }
  }

  lemma Then(events: seq<Event>, s: State, e: Event) returns (more: seq<Event>)
    requires Reaches(events, s) && Enabled(s, e)
    ensures Reaches(more, Apply(s, e, ROOTS))
  {
    HistorySnoc(EMPTY, events, e);
    more := events + [e];
  }

  /** One step of a run that leaves the cache alone and follows no CNAME. */
  lemma ThenStep(events: seq<Event>, s: State, id: nat, x: Input, l: Live) returns (more: seq<Event>)
    requires Reaches(events, s) && id in s.runs
    requires !s.runs[id].run.stage.Stopped? && s.runs[id].steps < MAX_ITERATIONS
    requires l == AdvanceLive(s.runs[id], s.cache, ROOTS, x) && StepCache(s.runs[id].run, s.cache, x) == s.cache
    ensures Reaches(more, State(s.cache, s.runs[id := l]))
  {
    more := Then(events, s, Advance(id, x));
  }

  // ---- From a question to a query ----------------------------------------------------------

  function Asked(q: Question): Msg {
    Msg(NOERROR, Some(q), [], [], [])
  }

  function At(stage: Stage, q: Question): Run {
    Run(stage, q, q, Asked(q), [], {})
  }

  lemma ToCacheLookup(events: seq<Event>, s: State, id: nat, q: Question) returns (more: seq<Event>)
    requires Reaches(events, s) && id !in s.runs
    ensures Reaches(more, State(s.cache, s.runs[id := Live(At(CacheLookup, q), 3, 0, true)]))
  {
    var x := Given(NoAnswer);
    var s0 := State(s.cache, s.runs[id := Live(Start(q), 0, 0, true)]);
    more := Then(events, s, Begin(id, q));
    more := ThenStep(more, s0, id, x, Live(At(HostsLookup, q), 1, 0, true));
    var s1 := State(s.cache, s0.runs[id := Live(At(HostsLookup, q), 1, 0, true)]);
    more := ThenStep(more, s1, id, x, Live(At(ForwardLookup, q), 2, 0, true));
    var s2 := State(s.cache, s1.runs[id := Live(At(ForwardLookup, q), 2, 0, true)]);
    more := ThenStep(more, s2, id, x, Live(At(CacheLookup, q), 3, 0, true));
    assert s2.runs[id := Live(At(CacheLookup, q), 3, 0, true)] == s.runs[id := Live(At(CacheLookup, q), 3, 0, true)];
  }

  ghost predicate NoDelegation(cache: Cache) {
    forall key :: key in cache ==> !IsDelegation(cache[key].msg)
  }

  lemma NothingFound(cache: Cache, zones: seq<string>)
    requires NoDelegation(cache)
    ensures FindDelegation(cache, zones).None?
  {
    var k := FirstHit(cache, zones);
  }

  function WithRoots(r: Run): Run {
    r.(stage := QueryUpstream, response := r.response.(ns := ROOTS.ns, extra := ROOTS.extra))
  }

  /** A run that finds nothing in the cache and has no delegation. */
  ghost predicate Misses(l: Live, cache: Cache) {
    && l.run.stage.CacheLookup? && TypedKey(l.run.question.name, l.run.question.qtype) !in cache
    && l.run.response.ns == [] && l.run.response.extra == [] && NoDelegation(cache)
  }

  function Moved(l: Live, r: Run, n: nat): Live {
    Live(r, l.steps + n, l.queries, l.owned)
  }

  lemma MissAdvances(l: Live, cache: Cache)
    requires Misses(l, cache)
    ensures var x, r := Given(NoAnswer), l.run;
            var l1, l2 := Moved(l, r.(stage := ExtractGlue), 1), Moved(l, r.(stage := LookupNsCache), 2);
            && AdvanceLive(l, cache, ROOTS, x) == l1
            && AdvanceLive(l1, cache, ROOTS, x) == l2
            && AdvanceLive(l2, cache, ROOTS, x) == Moved(l, WithRoots(r), 3)
  {
    NothingFound(cache, Tails(Text(l.run.question.name)));
  }

  lemma ToQuery(events: seq<Event>, s: State, id: nat) returns (more: seq<Event>)
    requires Reaches(events, s) && id in s.runs && Misses(s.runs[id], s.cache) && s.runs[id].steps + 3 <= MAX_ITERATIONS
    ensures Reaches(more, State(s.cache, s.runs[id := Moved(s.runs[id], WithRoots(s.runs[id].run), 3)]))
  {
    var x, l := Given(NoAnswer), s.runs[id];
    MissAdvances(l, s.cache);
    var l1, l2 := Moved(l, l.run.(stage := ExtractGlue), 1), Moved(l, l.run.(stage := LookupNsCache), 2);
    var l3 := Moved(l, WithRoots(l.run), 3);
    more := ThenStep(events, s, id, x, l1);
    var s1 := State(s.cache, s.runs[id := l1]);
    more := ThenStep(more, s1, id, x, l2);
    var s2 := State(s.cache, s1.runs[id := l2]);
    more := ThenStep(more, s2, id, x, l3);
    assert s2.runs[id := l3] == s.runs[id := l3];
  }

  /** The run after a successful reply to its query. */
  function Replied(r: Run, m: Msg): Run {
    r.(stage := ClassifyResp,
       response := r.response.(answer := r.response.answer + m.answer, ns := m.ns, extra := m.extra))
  }

  lemma RootsHaveGlue()
    ensures HasType(ROOTS.extra, TYPE_A)
  {
    assert TypeOf(ROOTS.extra[0]) == TYPE_A;
  }

  lemma ThenReply(events: seq<Event>, s: State, id: nat, m: Msg) returns (more: seq<Event>)
    requires Reaches(events, s) && id in s.runs
    requires s.runs[id].run.stage.QueryUpstream? && s.runs[id].steps < MAX_ITERATIONS
    requires HasType(s.runs[id].run.response.extra, TYPE_A)
    requires m.rcode == NOERROR && m.question.Some? && m.question.value.name == s.runs[id].run.question.name
    ensures var l := s.runs[id];
            Reaches(more, State(CacheAfterReply(s.cache, m),
                                s.runs[id := Live(Replied(l.run, m), l.steps + 1, l.queries + 1, l.owned)]))
  {
    more := Then(events, s, Advance(id, Given(Answer(m, None))));
  }

  // ---- A chain that is not linked ----------------------------------------------------------

  const ASKED := Question(["a"], TYPE_A)

  /** A CNAME that has nothing to do with the name that was asked for. */
  const FOREIGN := CNAME(["b"], 0, ["c"])

  const ADDRESS := A(["c"], 0, 1)

  const FIRST_REPLY := Msg(NOERROR, Some(ASKED), [FOREIGN], [], [])

  const SECOND_REPLY := Msg(NOERROR, Some(Question(["c"], TYPE_A)), [ADDRESS], [], [])

  const FIRST_CACHE := CacheAfterReply(map[], FIRST_REPLY)

  function Followed(stage: Stage, answer: seq<RR>): Run {
    Run(stage, Question(["c"], TYPE_A), ASKED, Msg(NOERROR, Some(ASKED), answer, [], []), [FOREIGN], {["c"]})
  }

  lemma ForeignIsFollowed() returns (events: seq<Event>)
    ensures Reaches(events, State(FIRST_CACHE, map[0 := Live(Followed(CacheLookup, []), 8, 1, false)]))
  {
    events := ToCacheLookup([], EMPTY, 0, ASKED);
    var l3 := Live(At(CacheLookup, ASKED), 3, 0, true);
    events := ToQuery(events, State(map[], map[0 := l3]), 0);
    var l6 := Live(WithRoots(At(CacheLookup, ASKED)), 6, 0, true);
    var s6 := State(map[], map[0 := l6]);
    assert State(map[], map[0 := l3][0 := l6]) == s6;
    RootsHaveGlue();
    events := ThenReply(events, s6, 0, FIRST_REPLY);
    var r7 := Run(ClassifyResp, ASKED, ASKED, Msg(NOERROR, Some(ASKED), [FOREIGN], [], []), [], {});
    assert Replied(l6.run, FIRST_REPLY) == r7;
    var s7 := State(FIRST_CACHE, map[0 := Live(r7, 7, 1, true)]);
    assert State(FIRST_CACHE, s6.runs[0 := Live(r7, 7, 1, true)]) == s7;
    events := Then(events, s7, Advance(0, Given(NoAnswer)));
    ForeignStep(r7);
    assert Apply(s7, Advance(0, Given(NoAnswer)), ROOTS)
        == State(FIRST_CACHE, map[0 := Live(Followed(CacheLookup, []), 8, 1, false)]);
  }

  lemma ForeignStep(r: Run)
    requires r == Run(ClassifyResp, ASKED, ASKED, Msg(NOERROR, Some(ASKED), [FOREIGN], [], []), [], {})
    ensures Classify(r.response, TYPE_A).GetCNAME? && !FollowsOwned(r)
    ensures OnClassify(r) == Followed(CacheLookup, []) && CacheAfterClassify(r, FIRST_CACHE) == FIRST_CACHE
  {
    assert FirstCNAME([FOREIGN]) == Some(FOREIGN);
    assert r.response.answer[0] == FOREIGN && TypeOf(FOREIGN) == TYPE_CNAME;
    assert FOREIGN.owner[0] == "b" && ASKED.name[0] == "a" && "b"[0] != "a"[0];
  }

  lemma TargetIsNotCached()
    ensures TypedKey(["c"], TYPE_A) !in FIRST_CACHE && NoDelegation(FIRST_CACHE)
  {
    assert ["c"][0][0] != ["a"][0][0];
    if TypedKey(["c"], TYPE_A) == TypedKey(["a"], TYPE_A) {
      TypedKeyInjective(["c"], TYPE_A, ["a"], TYPE_A);
    }
  }

  lemma AddressStep(cache: Cache)
    ensures OnClassify(Followed(ClassifyResp, [ADDRESS])) == Followed(ReturnResp, [ADDRESS])
    ensures CacheAfterClassify(Followed(ClassifyResp, [ADDRESS]), cache) == cache
  {
    assert [ADDRESS][0] == ADDRESS && TypeOf(ADDRESS) == TYPE_A;
  }

  const AGAIN := Live(WithRoots(Followed(CacheLookup, [])), 11, 1, false)

  lemma TargetIsAsked() returns (events: seq<Event>)
    ensures Reaches(events, State(FIRST_CACHE, map[0 := AGAIN]))
  {
    events := ForeignIsFollowed();
    var s8 := State(FIRST_CACHE, map[0 := Live(Followed(CacheLookup, []), 8, 1, false)]);
    TargetIsNotCached();
    events := ToQuery(events, s8, 0);
    assert s8.runs[0 := AGAIN] == map[0 := AGAIN];
  }

  lemma TargetIsAnswered() returns (events: seq<Event>)
    ensures Reaches(events, State(CacheAfterReply(FIRST_CACHE, SECOND_REPLY),
                                  map[0 := Live(Followed(ClassifyResp, [ADDRESS]), 12, 2, false)]))
  {
    events := TargetIsAsked();
    var s11 := State(FIRST_CACHE, map[0 := AGAIN]);
    RootsHaveGlue();
    events := ThenReply(events, s11, 0, SECOND_REPLY);
    var l12 := Live(Followed(ClassifyResp, [ADDRESS]), 12, 2, false);
    assert Replied(AGAIN.run, SECOND_REPLY) == l12.run;
    assert s11.runs[0 := l12] == map[0 := l12];
  }

  /** A reply's chain need not be linked: a history from the empty cache in which the reply to a
      question begins with a CNAME of another name. */
  lemma UnlinkedReply() returns (events: seq<Event>)
    ensures IsHistory(EMPTY, events, ROOTS) && 0 in After(EMPTY, events, ROOTS).runs
    ensures var l := After(EMPTY, events, ROOTS).runs[0];
            && !l.owned && l.run.original == ASKED
            && l.run.chain == [FOREIGN] && !Linked(l.run.chain, ASKED.name)
            && l.run.stage == Stopped(Reply(Msg(NOERROR, Some(ASKED), [FOREIGN, ADDRESS], [], [])))
  {
    events := TargetIsAnswered();
    var cache := CacheAfterReply(FIRST_CACHE, SECOND_REPLY);
    var s12 := State(cache, map[0 := Live(Followed(ClassifyResp, [ADDRESS]), 12, 2, false)]);
    AddressStep(cache);
    var l13 := Live(Followed(ReturnResp, [ADDRESS]), 13, 2, false);
    events := ThenStep(events, s12, 0, Given(NoAnswer), l13);
    var s13 := State(cache, s12.runs[0 := l13]);
    var reply := Msg(NOERROR, Some(ASKED), [FOREIGN, ADDRESS], [], []);
    var l14 := Live(Followed(Stopped(Reply(reply)), [ADDRESS]), 14, 2, false);
    assert FinalResponse(l13.run) == reply;
    events := ThenStep(events, s13, 0, Given(NoAnswer), l14);
    NotLinked();
  }

  lemma NotLinked()
    ensures !Linked([FOREIGN], ASKED.name)
  {
    assert !LinkedAt([FOREIGN], ASKED.name, 0) by {
      assert FOREIGN.owner[0] == "b" && ASKED.name[0] == "a" && "b"[0] != "a"[0];
    }
  }

  // ---- Fifteen queries ---------------------------------------------------------------------

  /** Every reply refers the run to the root again. */
  const UPWARD := Msg(NOERROR, Some(ASKED), [], ROOTS.ns, ROOTS.extra)

  const ROOT_CACHE := CacheAfterReply(map[], UPWARD)

  function Asking(k: nat): Live {
    Live(WithRoots(At(CacheLookup, ASKED)), 6 + 3 * k, k, true)
  }

  lemma AgainAndAgain(k: nat) returns (events: seq<Event>)
    requires k <= 14
    ensures Reaches(events, State(if k == 0 then map[] else ROOT_CACHE, map[0 := Asking(k)]))
  {
    if k == 0 {
      events := ToCacheLookup([], EMPTY, 0, ASKED);
      var l3 := Live(At(CacheLookup, ASKED), 3, 0, true);
      events := ToQuery(events, State(map[], map[0 := l3]), 0);
      assert map[0 := l3][0 := Asking(0)] == map[0 := Asking(0)];
    } else {
      events := AgainAndAgain(k - 1);
      events := OnceMore(events, if k == 1 then map[] else ROOT_CACHE, k - 1);
    }
  }

  lemma OnceMore(before: seq<Event>, cache: Cache, k: nat) returns (events: seq<Event>)
    requires k < 14 && CacheAfterReply(cache, UPWARD) == ROOT_CACHE
    requires Reaches(before, State(cache, map[0 := Asking(k)]))
    ensures Reaches(events, State(ROOT_CACHE, map[0 := Asking(k + 1)]))
  {
    events := AskOnce(before, cache, k);
    var r, x := Asking(k).run, Given(NoAnswer);
    var l1 := Live(r.(stage := ClassifyResp), 7 + 3 * k, k + 1, true);
    var l2 := Live(r.(stage := ExtractGlue), 8 + 3 * k, k + 1, true);
    var s1, s2 := State(ROOT_CACHE, map[0 := l1]), State(ROOT_CACHE, map[0 := l2]);
    events := ThenStep(events, s1, 0, x, l2);
    assert s1.runs[0 := l2] == s2.runs;
    events := ThenStep(events, s2, 0, x, Asking(k + 1));
    assert s2.runs[0 := Asking(k + 1)] == map[0 := Asking(k + 1)];
  }

  lemma AskOnce(before: seq<Event>, cache: Cache, k: nat) returns (events: seq<Event>)
    requires k <= 14 && CacheAfterReply(cache, UPWARD) == ROOT_CACHE
    requires Reaches(before, State(cache, map[0 := Asking(k)]))
    ensures Reaches(events, State(ROOT_CACHE, map[0 := Live(Asking(k).run.(stage := ClassifyResp), 7 + 3 * k, k + 1, true)]))
  {
    var s, l := State(cache, map[0 := Asking(k)]), Live(Asking(k).run.(stage := ClassifyResp), 7 + 3 * k, k + 1, true);
    RootsHaveGlue();
    events := ThenReply(before, s, 0, UPWARD);
    assert Replied(Asking(k).run, UPWARD) == l.run;
    assert s.runs[0 := l] == map[0 := l];
  }

  /** The bound of fifteen queries is attained. */
  lemma FifteenQueries() returns (events: seq<Event>)
    ensures IsHistory(EMPTY, events, ROOTS) && 0 in After(EMPTY, events, ROOTS).runs
    ensures After(EMPTY, events, ROOTS).runs[0].queries == 15
  {
    events := AgainAndAgain(14);
    events := AskOnce(events, ROOT_CACHE, 14);
  }

  // ---- Twenty-two CNAMEs -------------------------------------------------------------------

  const LENGTH: nat := 22

  /** A different name for each number. */
  function Alias(i: nat): Name {
    var l: Label := seq(i + 1, _ => 'a');
    [l]
  }

  lemma AliasesDiffer(i: nat, j: nat)
    requires i != j
    ensures Alias(i) != Alias(j) && TypedKey(Alias(i), TYPE_A) != TypedKey(Alias(j), TYPE_A)
  {
    assert |Alias(i)[0]| != |Alias(j)[0]|;
    if TypedKey(Alias(i), TYPE_A) == TypedKey(Alias(j), TYPE_A) {
      TypedKeyInjective(Alias(i), TYPE_A, Alias(j), TYPE_A);
    }
  }

  function AliasOf(i: nat): Question {
    Question(Alias(i), TYPE_A)
  }

  /** Each name is an alias of the next, and the last one has an address. */
  function Record(i: nat): RR {
    if i < LENGTH then CNAME(Alias(i), 0, Alias(i + 1)) else A(Alias(i), 0, 1)
  }

  function AliasReply(i: nat): Msg {
    Msg(NOERROR, Some(AliasOf(i)), [Record(i)], [], [])
  }

  function Filled(k: nat): Cache {
    if k == 0 then map[] else CacheAfterReply(Filled(k - 1), AliasReply(k - 1))
  }

  predicate Holds(cache: Cache, i: nat) {
    var key := TypedKey(Alias(i), TYPE_A);
    key in cache && cache[key] == Entry(Stored(AliasReply(i)), 0)
  }

  lemma FilledOnce(cache: Cache, i: nat, j: nat)
    requires i != j
    ensures TypedKey(Alias(j), TYPE_A) in CacheAfterReply(cache, AliasReply(i)) <==> TypedKey(Alias(j), TYPE_A) in cache
    ensures Holds(CacheAfterReply(cache, AliasReply(i)), j) <==> Holds(cache, j)
  {
    AliasesDiffer(i, j);
  }

  lemma FilledAlias(cache: Cache, i: nat)
    ensures Holds(CacheAfterReply(cache, AliasReply(i)), i)
    ensures NoDelegation(cache) ==> NoDelegation(CacheAfterReply(cache, AliasReply(i)))
  {
  }

  lemma {:induction false} FilledHolds(k: nat, i: nat)
    ensures NoDelegation(Filled(k))
    ensures if i < k then Holds(Filled(k), i) else TypedKey(Alias(i), TYPE_A) !in Filled(k)
  {
    if k == 0 {
    } else {
      FilledHolds(k - 1, i);
      FilledAlias(Filled(k - 1), k - 1);
      if i != k - 1 {
        FilledOnce(Filled(k - 1), k - 1, i);
      }
    }
  }

  /** Other runs have put the replies into the cache. */
  lemma Fill(k: nat) returns (events: seq<Event>, s: State)
    ensures Reaches(events, s) && s.cache == Filled(k) && forall id :: id in s.runs ==> 1 <= id <= k
  {
    if k == 0 {
      events, s := [], EMPTY;
    } else {
      var s0;
      events, s0 := Fill(k - 1);
      events, s := FillOne(events, s0, k - 1);
    }
  }

  lemma AskAlias(before: seq<Event>, s: State, k: nat) returns (events: seq<Event>, s': State)
    requires Reaches(before, s) && s.cache == Filled(k) && forall id :: id in s.runs ==> 1 <= id <= k
    ensures Reaches(events, s') && s'.cache == Filled(k) && forall id :: id in s'.runs ==> 1 <= id <= k + 1
    ensures k + 1 in s'.runs && s'.runs[k + 1] == Live(WithRoots(At(CacheLookup, AliasOf(k))), 6, 0, true)
  {
    FilledHolds(k, k);
    var q, id := AliasOf(k), k + 1;
    events := ToCacheLookup(before, s, id, q);
    var s3 := State(s.cache, s.runs[id := Live(At(CacheLookup, q), 3, 0, true)]);
    events := ToQuery(events, s3, id);
    s' := State(s.cache, s3.runs[id := Live(WithRoots(At(CacheLookup, q)), 6, 0, true)]);
  }

  lemma FillOne(before: seq<Event>, s: State, k: nat) returns (events: seq<Event>, s': State)
    requires Reaches(before, s) && s.cache == Filled(k) && forall id :: id in s.runs ==> 1 <= id <= k
    ensures Reaches(events, s') && s'.cache == Filled(k + 1) && forall id :: id in s'.runs ==> 1 <= id <= k + 1
  {
    var s6;
    events, s6 := AskAlias(before, s, k);
    RootsHaveGlue();
    events := ThenReply(events, s6, k + 1, AliasReply(k));
    var l := s6.runs[k + 1];
    s' := State(CacheAfterReply(s6.cache, AliasReply(k)), s6.runs[k + 1 := Live(Replied(l.run, AliasReply(k)), 7, 1, true)]);
  }

  function ChainTo(j: nat): seq<RR>
    requires j <= LENGTH
  {
    if j == 0 then [] else ChainTo(j - 1) + [Record(j - 1)]
  }

  lemma {:induction false} ChainLength(j: nat)
    requires j <= LENGTH
    ensures |ChainTo(j)| == j
  {
    if j == 0 {
    } else {
      ChainLength(j - 1);
    }
  }

  function Seen(j: nat): set<Name> {
    if j == 0 then {} else Seen(j - 1) + {Alias(j)}
  }

  lemma {:induction false} NotSeenYet(j: nat, i: nat)
    requires j < i
    ensures Alias(i) !in Seen(j)
  {
    if j == 0 {
    } else {
      NotSeenYet(j - 1, i);
      AliasesDiffer(i, j);
    }
  }

  function OnChain(stage: Stage, j: nat, answer: seq<RR>): Run
    requires j <= LENGTH
  {
    Run(stage, AliasOf(j), AliasOf(0), Msg(NOERROR, Some(AliasOf(0)), answer, [], []), ChainTo(j), Seen(j))
  }

  lemma CachedStep(j: nat, cache: Cache)
    requires j <= LENGTH && Holds(cache, j)
    ensures OnCacheLookup(OnChain(CacheLookup, j, []), cache, true) == OnChain(ClassifyResp, j, [Record(j)])
  {
  }

  lemma ClassifyStep(j: nat, cache: Cache)
    requires j <= LENGTH
    ensures var r := OnChain(ClassifyResp, j, [Record(j)]);
            && CacheAfterClassify(r, cache) == cache && FollowsOwned(r)
            && OnClassify(r) == if j < LENGTH then OnChain(CacheLookup, j + 1, []) else OnChain(ReturnResp, j, [Record(j)])
  {
    assert [Record(j)][0] == Record(j);
    if j < LENGTH {
      assert FirstCNAME([Record(j)]) == Some(Record(j));
      NotSeenYet(j, j + 1);
    } else {
      assert TypeOf(Record(j)) == TYPE_A;
    }
  }

  function Looking(j: nat): Live
    requires j <= LENGTH
  {
    Live(OnChain(CacheLookup, j, []), 3 + 2 * j, 0, true)
  }

  function Judging(j: nat): Live
    requires j <= LENGTH
  {
    Live(OnChain(ClassifyResp, j, [Record(j)]), 4 + 2 * j, 0, true)
  }

  function Judged(j: nat): Live
    requires j <= LENGTH
  {
    Live(if j < LENGTH then OnChain(CacheLookup, j + 1, []) else OnChain(ReturnResp, j, [Record(j)]), 5 + 2 * j, 0, true)
  }

  lemma LookingAdvances(j: nat, cache: Cache)
    requires j <= LENGTH && Holds(cache, j)
    ensures AdvanceLive(Looking(j), cache, ROOTS, Given(NoAnswer)) == Judging(j)
  {
    CachedStep(j, cache);
  }

  lemma JudgingAdvances(j: nat, cache: Cache)
    requires j <= LENGTH
    ensures AdvanceLive(Judging(j), cache, ROOTS, Given(NoAnswer)) == Judged(j)
    ensures StepCache(Judging(j).run, cache, Given(NoAnswer)) == cache
  {
    ClassifyStep(j, cache);
  }

  /** A state with the given cache in which run 0 is as given. */
  ghost predicate ReachesRun(events: seq<Event>, s: State, cache: Cache, l: Live) {
    Reaches(events, s) && s.cache == cache && 0 in s.runs && s.runs[0] == l
  }

  lemma StepRun(before: seq<Event>, s: State, cache: Cache, l: Live, l': Live) returns (events: seq<Event>, s': State)
    requires ReachesRun(before, s, cache, l) && !l.run.stage.Stopped? && l.steps < MAX_ITERATIONS
    requires l' == AdvanceLive(l, cache, ROOTS, Given(NoAnswer)) && StepCache(l.run, cache, Given(NoAnswer)) == cache
    ensures ReachesRun(events, s', cache, l')
  {
    events := ThenStep(before, s, 0, Given(NoAnswer), l');
    s' := State(s.cache, s.runs[0 := l']);
  }

  /** Two steps of run 0: a cached record, and its classification. */
  lemma TwoSteps(before: seq<Event>, s: State, cache: Cache, j: nat) returns (events: seq<Event>, s': State)
    requires j <= LENGTH && Holds(cache, j) && ReachesRun(before, s, cache, Looking(j))
    ensures ReachesRun(events, s', cache, Judged(j))
  {
    LookingAdvances(j, cache);
    events, s' := StepRun(before, s, cache, Looking(j), Judging(j));
    JudgingAdvances(j, cache);
    events, s' := StepRun(events, s', cache, Judging(j), Judged(j));
  }

  lemma StartAliases(k: nat) returns (events: seq<Event>, s: State)
    ensures ReachesRun(events, s, Filled(k), Looking(0))
  {
    events, s := Fill(k);
    events := ToCacheLookup(events, s, 0, AliasOf(0));
    assert At(CacheLookup, AliasOf(0)) == OnChain(CacheLookup, 0, []);
    s := State(s.cache, s.runs[0 := Looking(0)]);
  }

  lemma FollowAliases(k: nat, j: nat) returns (events: seq<Event>, s: State)
    requires j <= LENGTH && j <= k
    ensures ReachesRun(events, s, Filled(k), Looking(j))
  {
    if j == 0 {
      events, s := StartAliases(k);
    } else {
      events, s := FollowAliases(k, j - 1);
      FilledHolds(k, j - 1);
      events, s := TwoSteps(events, s, Filled(k), j - 1);
      assert Judged(j - 1) == Looking(j);
    }
  }

  lemma ReturnAliases(before: seq<Event>, s: State, cache: Cache, j: nat) returns (events: seq<Event>, s': State)
    requires j == LENGTH && ReachesRun(before, s, cache, Judged(j))
    ensures Reaches(events, s') && 0 in s'.runs
    ensures s'.runs[0].run.stage == Stopped(Reply(FinalResponse(s'.runs[0].run))) && |s'.runs[0].run.chain| == LENGTH
  {
    var l49 := Judged(j);
    var done := Stopped(Reply(FinalResponse(l49.run)));
    events, s' := StepRun(before, s, cache, l49, Live(l49.run.(stage := done), 50, 0, true));
    ChainLength(j);
    assert FinalResponse(l49.run.(stage := done)) == FinalResponse(l49.run);
  }

  lemma WholeChain(k: nat, j: nat) returns (events: seq<Event>, s: State)
    requires j == LENGTH && j < k
    ensures Reaches(events, s) && 0 in s.runs
    ensures s.runs[0].run.stage == Stopped(Reply(FinalResponse(s.runs[0].run))) && |s.runs[0].run.chain| == LENGTH
  {
    events, s := FollowAliases(k, j);
    FilledHolds(k, j);
    events, s := TwoSteps(events, s, Filled(k), j);
    events, s := ReturnAliases(events, s, Filled(k), j);
  }

  /** The bound of twenty-two CNAMEs is attained. */
  lemma TwentyTwoCNAMEs() returns (events: seq<Event>)
    ensures IsHistory(EMPTY, events, ROOTS) && 0 in After(EMPTY, events, ROOTS).runs
    ensures var r := After(EMPTY, events, ROOTS).runs[0].run;
            r.stage == Stopped(Reply(FinalResponse(r))) && |r.chain| == 22
  {
    var s;
    events, s := WholeChain(LENGTH + 1, LENGTH);
  }

  // ---- An address that did not come with the delegation -------------------------------------

  const STRAY := A(["x"], 0, 2)

  /** A reply with an address and no delegation. */
  const STRAY_REPLY := Msg(NOERROR, Some(ASKED), [], [], [STRAY])

  function Straying(stage: Stage): Run {
    Run(stage, ASKED, ASKED, Msg(NOERROR, Some(ASKED), [], [], [STRAY]), [], {})
  }

  lemma StrayReplied() returns (events: seq<Event>)
    ensures Reaches(events, State(map[], map[0 := Live(Straying(ClassifyResp), 7, 1, true)]))
  {
    events := AgainAndAgain(0);
    var s6 := State(map[], map[0 := Asking(0)]);
    RootsHaveGlue();
    events := ThenReply(events, s6, 0, STRAY_REPLY);
    var l7 := Live(Straying(ClassifyResp), 7, 1, true);
    assert Replied(Asking(0).run, STRAY_REPLY) == l7.run;
    assert s6.runs[0 := l7] == map[0 := l7] && CacheAfterReply(map[], STRAY_REPLY) == map[];
  }

  /** The addresses of a query need not have come with its delegation: a history from the empty cache
      in which a run is about to query the roots with an address of an earlier reply first. */
  lemma StrayAddress() returns (events: seq<Event>)
    ensures IsHistory(EMPTY, events, ROOTS) && 0 in After(EMPTY, events, ROOTS).runs
    ensures var r := After(EMPTY, events, ROOTS).runs[0].run;
            r.stage.QueryUpstream? && r.response.ns == ROOTS.ns && r.response.extra == [STRAY] + ROOTS.extra
  {
    events := StrayReplied();
    var x := Given(NoAnswer);
    var l7 := Live(Straying(ClassifyResp), 7, 1, true);
    var l8 := Live(Straying(ExtractGlue), 8, 1, true);
    var l9 := Live(Straying(LookupNsCache), 9, 1, true);
    var s7 := State(map[], map[0 := l7]);
    events := ThenStep(events, s7, 0, x, l8);
    var s8 := State(map[], s7.runs[0 := l8]);
    events := ThenStep(events, s8, 0, x, l9);
    var s9 := State(map[], s8.runs[0 := l9]);
    NothingFound(map[], Tails(Text(ASKED.name)));
    var l10 := AdvanceLive(l9, map[], ROOTS, x);
    events := ThenStep(events, s9, 0, x, l10);
  }

  /** A name error with servers of its own and no address. */
  const NAME_ERROR := Msg(NXDOMAIN, Some(ASKED), [], [NS([], 0, ["k"])], [])

  function Denied(stage: Stage): Run {
    Run(stage, ASKED, ASKED, Msg(NXDOMAIN, Some(ASKED), [], NAME_ERROR.ns, ROOTS.extra), [], {})
  }

  lemma DeniedOnce() returns (events: seq<Event>)
    ensures Reaches(events, State(map[], map[0 := Live(Denied(QueryUpstream), 9, 1, true)]))
  {
    events := AgainAndAgain(0);
    var s6 := State(map[], map[0 := Asking(0)]);
    var x := Given(NoAnswer);
    var l7 := Live(Denied(ClassifyResp), 7, 1, true);
    var l8 := Live(Denied(ExtractGlue), 8, 1, true);
    var l9 := Live(Denied(QueryUpstream), 9, 1, true);
    events := ThenStep(events, s6, 0, Given(Answer(NAME_ERROR, None)), l7);
    var s7 := State(map[], s6.runs[0 := l7]);
    events := ThenStep(events, s7, 0, x, l8);
    var s8 := State(map[], s7.runs[0 := l8]);
    events := ThenStep(events, s8, 0, x, l9);
    assert s8.runs[0 := l9] == map[0 := l9];
  }

  /** The other way: a history in which a run is about to query the servers of a name error at the
      addresses of the roots. */
  lemma StrayServers() returns (events: seq<Event>)
    ensures IsHistory(EMPTY, events, ROOTS) && 0 in After(EMPTY, events, ROOTS).runs
    ensures var r := After(EMPTY, events, ROOTS).runs[0].run;
            r.stage.QueryUpstream? && r.response.ns == NAME_ERROR.ns != ROOTS.ns && r.response.extra == ROOTS.extra
  {
    events := DeniedOnce();
    assert ROOTS.ns[0].host[0] == "h" && NAME_ERROR.ns[0].host[0] == "k" && "h"[0] != "k"[0];
  }

  // ---- An answer returned as a name error -----------------------------------------------------

  const FOUND := A(["a"], 0, 3)

  const FOUND_REPLY := Msg(NOERROR, Some(ASKED), [FOUND], [], [])

  function Finding(stage: Stage): Run {
    Run(stage, ASKED, ASKED, Msg(NXDOMAIN, Some(ASKED), [FOUND], [], []), [], {})
  }

  lemma FoundAfterDenial() returns (events: seq<Event>)
    ensures Reaches(events, State(CacheAfterReply(map[], FOUND_REPLY), map[0 := Live(Finding(ClassifyResp), 10, 2, true)]))
  {
    events := DeniedOnce();
    var s9 := State(map[], map[0 := Live(Denied(QueryUpstream), 9, 1, true)]);
    RootsHaveGlue();
    events := ThenReply(events, s9, 0, FOUND_REPLY);
    var l10 := Live(Finding(ClassifyResp), 10, 2, true);
    assert Replied(Denied(QueryUpstream), FOUND_REPLY) == l10.run;
    assert s9.runs[0 := l10] == map[0 := l10];
  }

  /** A history from the empty cache in which a client is sent the address it asked for under the code of
      a name error. */
  lemma AnswerAsNameError() returns (events: seq<Event>)
    ensures IsHistory(EMPTY, events, ROOTS) && 0 in After(EMPTY, events, ROOTS).runs
    ensures After(EMPTY, events, ROOTS).runs[0].run.stage == Stopped(Reply(Msg(3, Some(ASKED), [A(["a"], 0, 3)], [], [])))
  {
    events := FoundAfterDenial();
    var cache := CacheAfterReply(map[], FOUND_REPLY);
    var s10 := State(cache, map[0 := Live(Finding(ClassifyResp), 10, 2, true)]);
    var l11 := Live(Finding(ReturnResp), 11, 2, true);
    FoundStep(cache);
    events := ThenStep(events, s10, 0, Given(NoAnswer), l11);
    var s11 := State(cache, s10.runs[0 := l11]);
    var reply := Msg(NXDOMAIN, Some(ASKED), [FOUND], [], []);
    var l12 := Live(Finding(Stopped(Reply(reply))), 12, 2, true);
    assert FinalResponse(l11.run) == reply by {
      assert [] + [FOUND] == [FOUND];
    }
    events := ThenStep(events, s11, 0, Given(NoAnswer), l12);
  }

  lemma FoundStep(cache: Cache)
    ensures OnClassify(Finding(ClassifyResp)) == Finding(ReturnResp)
    ensures CacheAfterClassify(Finding(ClassifyResp), cache) == cache
  {
    assert [FOUND][0] == FOUND && TypeOf(FOUND) == TYPE_A;
  }
}
