/** The upstream concurrency gate (server/upstream_concurrency_gate.go) under any number of
    concurrent Happy Eyeballs queries (server/state_query_upstream.go): single, degraded, raced and
    failed paths, with racers that hold permits after the query has returned. The gate's limit is
    fixed; a step is one gate operation, one channel operation or the return of one exchange. */
module HappyEyeballs {
  import opened Names
  import opened SetFacts

  /** Capacity of the channel the racers deliver their results to. */
  const RESULT_CAPACITY: nat := 2

  /** Racer 0 asks the best address, racer 1 the second. */
  type Who = w: int | 0 <= w < 2

  datatype Racer =
    | Exchanging                // holds a permit
    | Returned(ok: bool)        // the exchange returned; its deferred release comes next
    | PermitBack(ok: bool)      // the send comes next
    | Delivered(ok: bool)

  datatype Delivery = Delivery(who: Who, ok: bool)

  datatype Outcome = Answered(who: Who) | Failed | Saturated

  datatype Call =
    | Started(hasSecond: bool)
    | BeforeFirst               // tryAcquire for the pair's first permit
    | BeforeSecond              // tryAcquire for its second permit
    | UndoFirst                 // second refused: release, then degrade
    | BeforeSingle              // tryAcquire on the single path
    | SingleExchange            // holds a permit
    | SingleReturned(ok: bool)  // its deferred release comes next
    | Race(best: Racer, second: Racer, queue: seq<Delivery>, got: seq<Delivery>, result: Option<Outcome>)
    | Done(outcome: Outcome)

  /** A query, with the number of permits it has acquired and released so far. */
  datatype Query = Query(call: Call, acquired: nat, released: nat)

  type QueryId = nat

  datatype State = State(limit: int, inflight: int, queries: map<QueryId, Query>)

  datatype Step =
    | Begin(q: QueryId, hasSecond: bool)
    | Choose(q: QueryId)
    | AcquireFirst(q: QueryId)
    | AcquireSecond(q: QueryId)
    | ReleaseFirst(q: QueryId)
    | AcquireSingle(q: QueryId)
    | SingleReturns(q: QueryId, ok: bool)
    | SingleReleases(q: QueryId)
    | RacerReturns(q: QueryId, w: Who, ok: bool)
    | RacerReleases(q: QueryId, w: Who)
    | RacerSends(q: QueryId, w: Who)
    | Collect(q: QueryId)

  function RacerOf(c: Call, w: Who): Racer
    requires c.Race?
  {
    if w == 0 then c.best else c.second
  }

  function SetRacer(c: Call, w: Who, r: Racer): (c': Call)
    requires c.Race?
    ensures c'.Race? && RacerOf(c', w) == r && RacerOf(c', 1 - w) == RacerOf(c, 1 - w)
    ensures c'.queue == c.queue && c'.got == c.got && c'.result == c.result
  {
    if w == 0 then c.(best := r) else c.(second := r)
  }

  predicate Enabled(s: State, a: Step) {
    if a.Begin? then a.q !in s.queries
    else a.q in s.queries && CallEnabled(s.queries[a.q].call, a)
  }

  predicate CallEnabled(c: Call, a: Step) {
    match a
    case Begin(_, _) => false
    case Choose(_) => c.Started?
    case AcquireFirst(_) => c.BeforeFirst?
    case AcquireSecond(_) => c.BeforeSecond?
    case ReleaseFirst(_) => c.UndoFirst?
    case AcquireSingle(_) => c.BeforeSingle?
    case SingleReturns(_, _) => c.SingleExchange?
    case SingleReleases(_) => c.SingleReturned?
    case RacerReturns(_, w, _) => c.Race? && RacerOf(c, w).Exchanging?
    case RacerReleases(_, w) => c.Race? && RacerOf(c, w).Returned?
    case RacerSends(_, w) => c.Race? && RacerOf(c, w).PermitBack? && |c.queue| < RESULT_CAPACITY
    case Collect(_) => c.Race? && c.result.None? && c.queue != []
  }

  predicate Full(s: State) {
    s.inflight >= s.limit
  }

  predicate ShouldDegrade(s: State) {
    s.limit <= 1 || s.inflight >= s.limit - 1
  }

  function Goto(s: State, q: QueryId, c: Call): State
    requires q in s.queries
  {
    s.(queries := s.queries[q := s.queries[q].(call := c)])
  }

  /** `tryAcquire`: proceeds to `granted` with a permit, or to `refused` without one. */
  function TryAcquire(s: State, q: QueryId, granted: Call, refused: Call): State
    requires q in s.queries
  {
    if Full(s) then Goto(s, q, refused)
    else
      var query := s.queries[q];
      s.(inflight := s.inflight + 1, queries := s.queries[q := query.(call := granted, acquired := query.acquired + 1)])
  }

  /** `release`, whose guard keeps the count from going below zero. */
  function Release(s: State, q: QueryId, next: Call): State
    requires q in s.queries
  {
    var query := s.queries[q];
    s.(inflight := if s.inflight > 0 then s.inflight - 1 else s.inflight,
       queries := s.queries[q := query.(call := next, released := query.released + 1)])
  }

  /** The collector takes one result: the first success wins, two failures fail the query. */
  function CollectOne(c: Call): Call
    requires c.Race? && c.queue != []
  {
    var d := c.queue[0];
    var c' := c.(queue := c.queue[1..], got := c.got + [d]);
    if d.ok then c'.(result := Some(Answered(d.who)))
    else if |c'.got| == 2 then c'.(result := Some(Failed))
    else c'
  }

  /** Where a step of a race takes its query. */
  function Moved(c: Call, a: Step): Call
    requires c.Race? && CallEnabled(c, a)
  {
    match a
    case RacerReturns(_, w, ok) => SetRacer(c, w, Returned(ok))
    case RacerReleases(_, w) => SetRacer(c, w, PermitBack(RacerOf(c, w).ok))
    case RacerSends(_, w) => SetRacer(c, w, Delivered(RacerOf(c, w).ok)).(queue := c.queue + [Delivery(w, RacerOf(c, w).ok)])
    case Collect(_) => CollectOne(c)
  }

  function Apply(s: State, a: Step): State
    requires Enabled(s, a)
  {
    if a.Begin? then s.(queries := s.queries[a.q := Query(Started(a.hasSecond), 0, 0)])
    else
      var q, c := a.q, s.queries[a.q].call;
      match a
      case Choose(_) => Goto(s, q, if !c.hasSecond || ShouldDegrade(s) then BeforeSingle else BeforeFirst)
      case AcquireFirst(_) => TryAcquire(s, q, BeforeSecond, Done(Saturated))
      case AcquireSecond(_) => TryAcquire(s, q, Race(Exchanging, Exchanging, [], [], None), UndoFirst)
      case ReleaseFirst(_) => Release(s, q, BeforeSingle)
      case AcquireSingle(_) => TryAcquire(s, q, SingleExchange, Done(Saturated))
      case SingleReturns(_, ok) => Goto(s, q, SingleReturned(ok))
      case SingleReleases(_) => Release(s, q, Done(if c.ok then Answered(0) else Failed))
      case RacerReturns(_, _, _) => Goto(s, q, Moved(c, a))
      case RacerReleases(_, _) => Release(s, q, Moved(c, a))
      case RacerSends(_, _) => Goto(s, q, Moved(c, a))
      case Collect(_) => Goto(s, q, Moved(c, a))
  }

  /** The gate itself. Its two operations are the ones the steps above take on the shared count, and
      degrading is advised exactly when the gate has no room for two more permits. */
  class Gate {
    const limit: int
    var inflight: int

    ghost predicate Valid()
      reads this
    {
      0 <= inflight
    }

    constructor (limit: int)
      ensures Valid() && this.limit == limit && inflight == 0
    {
      this.limit, inflight := limit, 0;
    }

    method TryAcquire() returns (granted: bool)
      requires Valid()
      modifies this
      ensures Valid() && (granted <==> old(inflight) < limit)
      ensures inflight == old(inflight) + if granted then 1 else 0
    {
      if inflight >= limit {
        return false;
      }
      inflight := inflight + 1;
      return true;
    }

    method Release()
      requires Valid()
      modifies this
      ensures Valid() && inflight == if old(inflight) == 0 then 0 else old(inflight) - 1
    {
      if inflight > 0 {
        inflight := inflight - 1;
      }
    }

    method ShouldDegradeFanout() returns (degrade: bool)
      requires Valid()
      ensures degrade <==> limit < inflight + 2
    {
      if limit <= 1 {
        return true;
      }
      degrade := inflight >= limit - 1;
    }
  }

  // ---- Permits -----------------------------------------------------------------------------

  predicate HoldsPermit(r: Racer) {
    r.Exchanging? || r.Returned?
  }

  /** Whether a call holds its first (0) or second (1) permit. */
  predicate Holds(c: Call, k: int) {
    match c
    case BeforeSecond => k == 0
    case UndoFirst => k == 0
    case SingleExchange => k == 0
    case SingleReturned(_) => k == 0
    case Race(best, second, _, _, _) => (k == 0 && HoldsPermit(best)) || (k == 1 && HoldsPermit(second))
    case _ => false
  }

  function Outstanding(c: Call): nat {
    (if Holds(c, 0) then 1 else 0) + if Holds(c, 1) then 1 else 0
  }

  datatype Permit = Permit(q: QueryId, k: int)

  function Permits(s: State): set<Permit> {
    set q, k | q in s.queries && k in {0, 1} && Holds(s.queries[q].call, k) :: Permit(q, k)
  }

  // ---- Races -------------------------------------------------------------------------------

  /** The results are exactly those the racers delivered, one each. */
  ghost predicate AllMatch(c: Call, all: seq<Delivery>)
    requires c.Race?
  {
    && |all| == (if c.best.Delivered? then 1 else 0) + (if c.second.Delivered? then 1 else 0)
    && (forall i :: 0 <= i < |all| ==> RacerOf(c, all[i].who) == Delivered(all[i].ok))
    && (|all| == 2 ==> all[0].who != all[1].who)
  }

  /** The results taken and waiting are those delivered. */
  ghost predicate DeliveriesMatch(c: Call)
    requires c.Race?
  {
    AllMatch(c, c.got + c.queue)
  }

  ghost predicate ResultMatches(c: Call)
    requires c.Race?
  {
    match c.result
    case None => |c.got| <= 1 && forall i :: 0 <= i < |c.got| ==> !c.got[i].ok
    case Some(Answered(w)) => |c.got| >= 1 && c.got[|c.got| - 1] == Delivery(w, true)
    case Some(Failed) => |c.got| == 2 && !c.got[0].ok && !c.got[1].ok
    case Some(Saturated) => false
  }

  ghost predicate CallOk(c: Call) {
    c.Race? ==> DeliveriesMatch(c) && ResultMatches(c)
  }

  /** The gate counts the outstanding permits and stays within its limit; each query has released
      all it acquired but what it still holds. */
  ghost predicate Inv(s: State) {
    && s.inflight == |Permits(s)| && s.inflight <= s.limit && s.limit >= 1
    && forall q :: q in s.queries ==>
         CallOk(s.queries[q].call)
         && s.queries[q].acquired == s.queries[q].released + Outstanding(s.queries[q].call)
  }

  lemma InitialInv(limit: int)
    requires limit >= 1
    ensures Inv(State(limit, 0, map[]))
  {
    assert Permits(State(limit, 0, map[])) == {};
  }

  lemma PermitsStep(s: State, a: Step)
    requires Enabled(s, a)
    ensures |Permits(Apply(s, a))| == |Permits(s)| + Outstanding(Apply(s, a).queries[a.q].call)
                                      - if a.q in s.queries then Outstanding(s.queries[a.q].call) else 0
  {
    var s', x, y := Apply(s, a), Permit(a.q, 0), Permit(a.q, 1);
    assert forall q :: q != a.q ==> (q in s'.queries <==> q in s.queries) && (q in s.queries ==> s'.queries[q] == s.queries[q]);
    assert x in Permits(s) <==> a.q in s.queries && Holds(s.queries[a.q].call, 0);
    assert y in Permits(s) <==> a.q in s.queries && Holds(s.queries[a.q].call, 1);
    assert x in Permits(s') <==> Holds(s'.queries[a.q].call, 0);
    assert y in Permits(s') <==> Holds(s'.queries[a.q].call, 1);
    TwoChanges(Permits(s), Permits(s'), x, y);
  }

  /** A release always finds a permit counted: its guard never hides an unmatched release. */
  lemma ReleaseIsMatched(s: State, q: QueryId)
    requires Inv(s) && q in s.queries && Outstanding(s.queries[q].call) > 0
    ensures s.inflight >= 1
  {
    var k := if Holds(s.queries[q].call, 0) then 0 else 1;
    assert Permit(q, k) in Permits(s);
  }

  lemma CallStep(s: State, a: Step)
    requires Enabled(s, a) && (!a.Begin? ==> CallOk(s.queries[a.q].call))
    ensures CallOk(Apply(s, a).queries[a.q].call)
  {
    if a.RacerSends? {
      SendKeepsCall(s.queries[a.q].call, a.w);
    } else if a.Collect? {
      CollectKeepsCall(s.queries[a.q].call);
    } else if a.RacerReturns? {
      RacingKeepsCall(s.queries[a.q].call, a.w, Returned(a.ok));
    } else if a.RacerReleases? {
      RacingKeepsCall(s.queries[a.q].call, a.w, PermitBack(RacerOf(s.queries[a.q].call, a.w).ok));
    }
  }

  lemma RacingKeepsCall(c: Call, w: Who, r: Racer)
    requires c.Race? && CallOk(c) && !RacerOf(c, w).Delivered? && !r.Delivered?
    ensures CallOk(SetRacer(c, w, r))
  {
    var c' := SetRacer(c, w, r);
    var all := c.got + c.queue;
    assert c'.got + c'.queue == all;
    forall i | 0 <= i < |all| ensures RacerOf(c', all[i].who) == Delivered(all[i].ok) {
      assert RacerOf(c, all[i].who) == Delivered(all[i].ok);
      assert all[i].who == 1 - w;
    }
  }

  lemma SendMatches(c: Call, c': Call, all: seq<Delivery>, d: Delivery)
    requires c.Race? && c'.Race? && AllMatch(c, all) && RacerOf(c, d.who).PermitBack?
    requires RacerOf(c', d.who) == Delivered(d.ok) && RacerOf(c', 1 - d.who) == RacerOf(c, 1 - d.who)
    ensures AllMatch(c', all + [d])
  {
    forall i | 0 <= i < |all| ensures RacerOf(c', all[i].who) == Delivered(all[i].ok) && all[i].who != d.who {
      assert RacerOf(c, all[i].who) == Delivered(all[i].ok);
      assert all[i].who == 1 - d.who;
    }
  }

  lemma SendKeepsCall(c: Call, w: Who)
    requires c.Race? && CallOk(c) && RacerOf(c, w).PermitBack?
    ensures var ok := RacerOf(c, w).ok;
            CallOk(SetRacer(c, w, Delivered(ok)).(queue := c.queue + [Delivery(w, ok)]))
  {
    var d := Delivery(w, RacerOf(c, w).ok);
    var moved := SetRacer(c, w, Delivered(d.ok));
    var c' := moved.(queue := c.queue + [d]);
    SendMatches(c, c', c.got + c.queue, d);
    assert c'.got + c'.queue == c.got + c.queue + [d];
  }

  lemma CollectKeepsCall(c: Call)
    requires c.Race? && CallOk(c) && c.result.None? && c.queue != []
    ensures CallOk(CollectOne(c))
  {
    var c' := CollectOne(c);
    assert c'.got + c'.queue == c.got + c.queue;
    assert |c.got + c.queue| <= 2;
  }

  function Before(s: State, q: QueryId): nat {
    if q in s.queries then Outstanding(s.queries[q].call) else 0
  }

  predicate OfRace(a: Step) {
    a.RacerReturns? || a.RacerReleases? || a.RacerSends? || a.Collect?
  }

  /** How a step moves the gate's count against the permits its query holds. */
  ghost predicate CountFollows(s: State, a: Step)
    requires Enabled(s, a)
  {
    var s' := Apply(s, a);
    s'.inflight == s.inflight + Outstanding(s'.queries[a.q].call) - Before(s, a.q)
  }

  /** One racer changes: the permits outstanding change by that racer's. */
  lemma OneRacerCounts(c: Call, w: Who, r: Racer)
    requires c.Race?
    ensures Outstanding(SetRacer(c, w, r)) + (if HoldsPermit(RacerOf(c, w)) then 1 else 0)
            == Outstanding(c) + if HoldsPermit(r) then 1 else 0
  {
  }

  lemma ReturnsCountStep(s: State, q: QueryId, w: Who, ok: bool)
    requires Inv(s) && Enabled(s, RacerReturns(q, w, ok))
    ensures CountFollows(s, RacerReturns(q, w, ok))
  {
    OneRacerCounts(s.queries[q].call, w, Returned(ok));
  }

  lemma ReleasesCountStep(s: State, q: QueryId, w: Who)
    requires Inv(s) && Enabled(s, RacerReleases(q, w))
    ensures CountFollows(s, RacerReleases(q, w))
  {
    var c := s.queries[q].call;
    OneRacerCounts(c, w, PermitBack(RacerOf(c, w).ok));
    ReleaseIsMatched(s, q);
  }

  lemma SendsCountStep(s: State, q: QueryId, w: Who)
    requires Inv(s) && Enabled(s, RacerSends(q, w))
    ensures CountFollows(s, RacerSends(q, w))
  {
    var c := s.queries[q].call;
    OneRacerCounts(c, w, Delivered(RacerOf(c, w).ok));
  }

  lemma RaceCountStep(s: State, a: Step)
    requires Inv(s) && Enabled(s, a) && OfRace(a)
    ensures CountFollows(s, a)
  {
    match a
    case RacerReturns(q, w, ok) => ReturnsCountStep(s, q, w, ok);
    case RacerReleases(q, w) => ReleasesCountStep(s, q, w);
    case RacerSends(q, w) => SendsCountStep(s, q, w);
    case Collect(q) =>
  }

  /** The gate's count moves with the permits the query holds ... */
  lemma GateCountStep(s: State, a: Step)
    requires Inv(s) && Enabled(s, a)
    ensures CountFollows(s, a)
  {
    if OfRace(a) {
      RaceCountStep(s, a);
    } else if Before(s, a.q) > 0 {
      ReleaseIsMatched(s, a.q);
    }
  }

  lemma GateBoundStep(s: State, a: Step)
    requires Inv(s) && Enabled(s, a)
    ensures Apply(s, a).inflight <= Apply(s, a).limit == s.limit
  {
  }

  /** ... and so do the query's own counts. */
  lemma CountsStep(s: State, a: Step)
    requires Enabled(s, a)
    requires !a.Begin? ==> s.queries[a.q].acquired == s.queries[a.q].released + Outstanding(s.queries[a.q].call)
    ensures var query := Apply(s, a).queries[a.q];
            query.acquired == query.released + Outstanding(query.call)
  {
  }

  lemma StepKeepsInv(s: State, a: Step)
    requires Inv(s) && Enabled(s, a)
    ensures Inv(Apply(s, a))
  {
    PermitsStep(s, a);
    CallStep(s, a);
    GateCountStep(s, a);
    GateBoundStep(s, a);
    CountsStep(s, a);
    OthersUntouched(s, a);
  }

  lemma OthersUntouched(s: State, a: Step)
    requires Enabled(s, a)
    ensures var s' := Apply(s, a);
            forall q :: q in s'.queries && q != a.q ==> q in s.queries && s'.queries[q] == s.queries[q]
  {
  }

  /** A pair is attempted exactly when there is a second address and room for two more permits. */
  lemma RaceNeedsRoomForTwo(s: State, q: QueryId)
    requires Inv(s) && Enabled(s, Choose(q))
    ensures Apply(s, Choose(q)).queries[q].call.BeforeFirst?
            <==> s.queries[q].call.hasSecond && s.inflight + 2 <= s.limit
  {
    assert |Permits(s)| >= 0;
  }

  // ---- Whole runs --------------------------------------------------------------------------

  ghost predicate IsRun(s: State, steps: seq<Step>)
    decreases |steps|
  {
    steps == [] || (Enabled(s, steps[0]) && IsRun(Apply(s, steps[0]), steps[1..]))
  }

  ghost function Final(s: State, steps: seq<Step>): State
    requires IsRun(s, steps)
    decreases |steps|
  {
    if steps == [] then s else Final(Apply(s, steps[0]), steps[1..])
  }

  /** Under every interleaving of any number of queries, the gate's count is the number of permits
      outstanding and lies in 0..limit. */
  lemma {:induction false} RunsKeepGate(s: State, steps: seq<Step>)
    requires Inv(s) && IsRun(s, steps)
    ensures Inv(Final(s, steps))
    decreases |steps|
  {
    if steps == [] {
    } else {
      StepKeepsInv(s, steps[0]);
      RunsKeepGate(Apply(s, steps[0]), steps[1..]);
    }
  }

  /** A query is over when it has returned and, if it raced, both racers have delivered. */
  predicate Over(c: Call) {
    c.Done? || (c.Race? && c.result.Some? && c.best.Delivered? && c.second.Delivered?)
  }

  /** Every permit a query acquired has been released exactly once when it is over, on every path. */
  lemma PermitsAllReturned(s: State, q: QueryId)
    requires Inv(s) && q in s.queries && Over(s.queries[q].call)
    ensures s.queries[q].acquired == s.queries[q].released
  {
    assert Outstanding(s.queries[q].call) == 0;
  }

  /** A racer that has given its permit back can always deliver: the channel has room. */
  lemma RacersNeverBlock(s: State, q: QueryId, w: Who)
    requires Inv(s) && q in s.queries && s.queries[q].call.Race? && RacerOf(s.queries[q].call, w).PermitBack?
    ensures Enabled(s, RacerSends(q, w))
  {
    var c := s.queries[q].call;
    assert |c.got + c.queue| == |c.got| + |c.queue|;
  }

  /** A raced query fails only if both attempts failed, and otherwise returns the answer of an
      attempt that succeeded. */
  lemma RaceResult(s: State, q: QueryId)
    requires Inv(s) && q in s.queries && s.queries[q].call.Race? && s.queries[q].call.result.Some?
    ensures var c := s.queries[q].call;
            match c.result.value
            case Answered(w) => RacerOf(c, w) == Delivered(true)
            case Failed => c.best == Delivered(false) && c.second == Delivered(false)
            case Saturated => false
  {
    var c := s.queries[q].call;
    var all := c.got + c.queue;
    if c.result.value.Answered? {
      assert all[|c.got| - 1] == c.got[|c.got| - 1];
    } else if c.result.value.Failed? {
      assert all[0] == c.got[0] && all[1] == c.got[1];
    }
  }

  /** The next thing a query can do. */
  ghost function NextStep(q: QueryId, c: Call): Step
    requires !Over(c)
  {
    match c
    case Started(_) => Choose(q)
    case BeforeFirst => AcquireFirst(q)
    case BeforeSecond => AcquireSecond(q)
    case UndoFirst => ReleaseFirst(q)
    case BeforeSingle => AcquireSingle(q)
    case SingleExchange => SingleReturns(q, true)
    case SingleReturned(_) => SingleReleases(q)
    case Race(best, second, _, _, result) =>
      var w: Who := if best.Delivered? then 1 else 0;
      match RacerOf(c, w)
      case Exchanging => RacerReturns(q, w, true)
      case Returned(_) => RacerReleases(q, w)
      case PermitBack(_) => RacerSends(q, w)
      case Delivered(_) => Collect(q)
  }

  /** No query is ever stuck: until it is over, one of its own steps is enabled. */
  lemma QueriesProgress(s: State, q: QueryId)
    requires Inv(s) && q in s.queries && !Over(s.queries[q].call)
    ensures Enabled(s, NextStep(q, s.queries[q].call)) && NextStep(q, s.queries[q].call).q == q
  {
    var c := s.queries[q].call;
    if c.Race? {
      assert |c.got + c.queue| == |c.got| + |c.queue|;
    }
  }

  function RacerRank(r: Racer): nat {
    match r
    case Exchanging => 3
    case Returned(_) => 2
    case PermitBack(_) => 1
    case Delivered(_) => 0
  }

  function Rank(c: Call): nat {
    match c
    case Started(_) => 14
    case BeforeFirst => 13
    case BeforeSecond => 12
    case UndoFirst => 11
    case BeforeSingle => 10
    case SingleExchange => 2
    case SingleReturned(_) => 1
    case Race(best, second, _, got, result) =>
      RacerRank(best) + RacerRank(second) + if result.Some? || |got| > 2 then 0 else 3 - |got|
    case Done(_) => 0
  }

  lemma RaceDescends(s: State, a: Step)
    requires Inv(s) && Enabled(s, a) && OfRace(a)
    ensures Rank(Apply(s, a).queries[a.q].call) < Rank(s.queries[a.q].call)
  {
  }

  /** ... and every step of a query brings it closer to its end. */
  lemma StepsDescend(s: State, a: Step)
    requires Inv(s) && Enabled(s, a) && !a.Begin?
    ensures Rank(Apply(s, a).queries[a.q].call) < Rank(s.queries[a.q].call)
  {
    if OfRace(a) {
      RaceDescends(s, a);
    }
  }

  /** How many of the steps are taken by a query. */
  function StepsOf(steps: seq<Step>, q: QueryId): nat {
    if steps == [] then 0 else (if steps[0].q == q then 1 else 0) + StepsOf(steps[1..], q)
  }

  lemma StepCosts(s: State, a: Step, q: QueryId)
    requires Inv(s) && Enabled(s, a) && q in s.queries
    ensures q in Apply(s, a).queries
    ensures Rank(Apply(s, a).queries[q].call) + (if a.q == q then 1 else 0) <= Rank(s.queries[q].call)
  {
    if a.q == q {
      StepsDescend(s, a);
    }
  }

  /** In every run, whatever the other queries do, a query takes no more steps than its rank, and
      when none of its steps is enabled any more it is over. So every query ends. */
  lemma {:induction false} QueriesEnd(s: State, steps: seq<Step>, q: QueryId)
    requires Inv(s) && IsRun(s, steps) && q in s.queries
    ensures q in Final(s, steps).queries
    ensures StepsOf(steps, q) + Rank(Final(s, steps).queries[q].call) <= Rank(s.queries[q].call)
    ensures (forall a: Step :: a.q == q ==> !Enabled(Final(s, steps), a)) ==> Over(Final(s, steps).queries[q].call)
    decreases |steps|
  {
    if steps == [] {
      if !Over(s.queries[q].call) {
        QueriesProgress(s, q);
      }
    } else {
      StepKeepsInv(s, steps[0]);
      StepCosts(s, steps[0], q);
      QueriesEnd(Apply(s, steps[0]), steps[1..], q);
    }
  }

  // ---- What a query reports ----------------------------------------------------------------

  /** A racer knows what its exchange returned, and only that. */
  ghost predicate RacerTold(r: Racer, steps: seq<Step>, q: QueryId, w: Who) {
    if r.Exchanging? then forall ok :: RacerReturns(q, w, ok) !in steps
    else RacerReturns(q, w, r.ok) in steps && RacerReturns(q, w, !r.ok) !in steps
  }

  ghost predicate NoRace(steps: seq<Step>, q: QueryId) {
    forall w, ok :: RacerReturns(q, w, ok) !in steps
  }

  ghost predicate NoSingle(steps: seq<Step>, q: QueryId) {
    forall ok :: SingleReturns(q, ok) !in steps
  }

  /** What a query stands at is what its exchanges have returned so far: nothing before one returns and
      when it is turned away for lack of permits; on the single path the success or failure of its one
      exchange; in a race what each racer's exchange returned. */
  ghost predicate Told(c: Call, steps: seq<Step>, q: QueryId) {
    match c
    case SingleReturned(ok) => NoRace(steps, q) && SingleReturns(q, ok) in steps && SingleReturns(q, !ok) !in steps
    case Done(Answered(w)) =>
      NoRace(steps, q) && w == 0 && SingleReturns(q, true) in steps && SingleReturns(q, false) !in steps
    case Done(Failed) => NoRace(steps, q) && SingleReturns(q, false) in steps && SingleReturns(q, true) !in steps
    case Race(best, second, _, _, _) => NoSingle(steps, q) && RacerTold(best, steps, q, 0) && RacerTold(second, steps, q, 1)
    case _ => NoRace(steps, q) && NoSingle(steps, q)
  }

  lemma OneMore(steps: seq<Step>, a: Step)
    ensures forall b: Step :: b in steps + [a] <==> b in steps || b == a
  {
  }

  lemma RacerStepTells(r: Racer, r': Racer, steps: seq<Step>, a: Step, q: QueryId, w: Who)
    requires RacerTold(r, steps, q, w)
    requires if a.RacerReturns? && a.q == q && a.w == w then r.Exchanging? && r' == Returned(a.ok)
             else r'.Exchanging? == r.Exchanging? && (!r.Exchanging? ==> r'.ok == r.ok)
    ensures RacerTold(r', steps + [a], q, w)
  {
    OneMore(steps, a);
  }

  lemma RaceStepTells(c: Call, a: Step, steps: seq<Step>)
    requires c.Race? && CallEnabled(c, a) && Told(c, steps, a.q)
    ensures var c' := Moved(c, a); c'.Race? && Told(c', steps + [a], a.q)
  {
    var c' := Moved(c, a);
    OneMore(steps, a);
    RacerStepTells(c.best, c'.best, steps, a, a.q, 0);
    RacerStepTells(c.second, c'.second, steps, a, a.q, 1);
  }

  lemma NothingReturned(steps: seq<Step>, a: Step, q: QueryId)
    requires NoRace(steps, q) && !a.RacerReturns?
    ensures NoRace(steps + [a], q)
    ensures NoSingle(steps, q) && !a.SingleReturns? ==> NoSingle(steps + [a], q)
  {
    OneMore(steps, a);
  }

  lemma PlainStepTells(s: State, a: Step, steps: seq<Step>)
    requires Enabled(s, a) && !a.Begin? && !s.queries[a.q].call.Race? && Told(s.queries[a.q].call, steps, a.q)
    ensures Told(Apply(s, a).queries[a.q].call, steps + [a], a.q)
  {
    NothingReturned(steps, a, a.q);
    if a.SingleReturns? || a.SingleReleases? {
      OneMore(steps, a);
    } else if a.AcquireSecond? {
      RacersBegin(steps + [a], a.q);
    }
  }

  lemma RacersBegin(steps: seq<Step>, q: QueryId)
    requires NoRace(steps, q)
    ensures RacerTold(Exchanging, steps, q, 0) && RacerTold(Exchanging, steps, q, 1)
  {
  }

  lemma OwnStepTells(s: State, a: Step, steps: seq<Step>)
    requires Enabled(s, a) && (!a.Begin? ==> Told(s.queries[a.q].call, steps, a.q))
    requires a.Begin? ==> NoRace(steps, a.q) && NoSingle(steps, a.q)
    ensures Told(Apply(s, a).queries[a.q].call, steps + [a], a.q)
  {
    if a.Begin? {
      OneMore(steps, a);
    } else if s.queries[a.q].call.Race? {
      RaceStepTells(s.queries[a.q].call, a, steps);
    } else {
      PlainStepTells(s, a, steps);
    }
  }

  lemma OtherStepTells(c: Call, steps: seq<Step>, q: QueryId, a: Step)
    requires Told(c, steps, q) && a.q != q
    ensures Told(c, steps + [a], q)
  {
    OneMore(steps, a);
  }

  /** Steps of a query that has not begun have not been taken. */
  ghost predicate AllTold(s: State, steps: seq<Step>) {
    && (forall q :: q in s.queries ==> Told(s.queries[q].call, steps, q))
    && (forall i :: 0 <= i < |steps| ==> steps[i].q in s.queries)
  }

  lemma StepTells(s: State, steps: seq<Step>, a: Step)
    requires AllTold(s, steps) && Enabled(s, a)
    ensures AllTold(Apply(s, a), steps + [a])
  {
    var s' := Apply(s, a);
    OthersUntouched(s, a);
    OwnStepTells(s, a, steps);
    forall q | q in s'.queries ensures Told(s'.queries[q].call, steps + [a], q) {
      if q != a.q {
        OtherStepTells(s.queries[q].call, steps, q, a);
      }
    }
    forall i | 0 <= i < |steps + [a]| ensures (steps + [a])[i].q in s'.queries {
      assert i < |steps| ==> steps[i].q in s.queries;
    }
  }

  lemma {:induction false} RunsTell(s: State, past: seq<Step>, steps: seq<Step>)
    requires AllTold(s, past) && IsRun(s, steps)
    ensures AllTold(Final(s, steps), past + steps)
    decreases |steps|
  {
    if steps == [] {
      assert past + steps == past;
    } else {
      StepTells(s, past, steps[0]);
      RunsTell(Apply(s, steps[0]), past + [steps[0]], steps[1..]);
      assert past + steps == past + [steps[0]] + steps[1..];
    }
  }

  /** What a query reports, in every run from an idle gate and whatever the other queries do. On the
      single and degraded paths it answers if its one exchange succeeded and fails if it failed. Raced,
      it answers with an exchange that succeeded, and fails only if both failed. Turned away, it has
      made no exchange. */
  lemma OutcomeIsFaithful(limit: int, steps: seq<Step>, q: QueryId)
    requires limit >= 1 && IsRun(State(limit, 0, map[]), steps) && q in Final(State(limit, 0, map[]), steps).queries
    ensures var c := Final(State(limit, 0, map[]), steps).queries[q].call;
            && (c.Done? ==>
                  match c.outcome
                  case Answered(w) => w == 0 && SingleReturns(q, true) in steps && SingleReturns(q, false) !in steps
                  case Failed => SingleReturns(q, false) in steps && SingleReturns(q, true) !in steps
                  case Saturated => NoSingle(steps, q) && NoRace(steps, q))
            && (c.Race? && c.result.Some? ==>
                  match c.result.value
                  case Answered(w) => RacerReturns(q, w, true) in steps
                  case Failed => RacerReturns(q, 0, false) in steps && RacerReturns(q, 1, false) in steps
                  case Saturated => false)
  {
    var s0 := State(limit, 0, map[]);
    InitialInv(limit);
    RunsKeepGate(s0, steps);
    RunsTell(s0, [], steps);
    assert [] + steps == steps;
    var s := Final(s0, steps);
    if s.queries[q].call.Race? && s.queries[q].call.result.Some? {
      RaceResult(s, q);
    }
  }

  /** A pair that gets only its first permit gives it back and goes on alone; a query is turned away
      only where it asks for its first permit, with the gate full and nothing in its hands. */
  lemma SecondRefusedDegrades(s: State, q: QueryId)
    requires Inv(s) && Enabled(s, AcquireSecond(q)) && s.inflight >= s.limit
    ensures var s1 := Apply(s, AcquireSecond(q));
            && Enabled(s1, ReleaseFirst(q))
            && var s2 := Apply(s1, ReleaseFirst(q));
               s2.inflight == s.inflight - 1 && s2.queries[q].call.BeforeSingle?
  {
    assert Permit(q, 0) in Permits(s);
  }

  lemma TurnedAwayWhenFull(s: State, a: Step)
    requires Inv(s) && Enabled(s, a) && !a.Begin?
    ensures Apply(s, a).queries[a.q].call == Done(Saturated) <==>
            s.inflight == s.limit && (a.AcquireFirst? || a.AcquireSingle?)
  {
  }
}
