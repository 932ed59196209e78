/** The resolver as the program it is: a loop over states with a shared cache, scans over records,
    and name-server resolution that starts nested runs one level deep. Each handler is proved equal
    to its function in Resolver; the loop terminates, nested runs included, because a nested run
    never nests again and every run is limited to fifty iterations. */
module ResolverMachine {
  import opened Names
  import opened ZoneMatch
  import opened DnsModel
  import opened CacheKeys
  import opened Resolver
  import opened ResolverRuns
  import opened ResolverSystem
  import opened ResolverReplies

  method ScanCNAME(rrs: seq<RR>) returns (r: Option<RR>)
    ensures r == FirstCNAME(rrs)
  {
    r := None;
    var i := 0;
    while i < |rrs|
      invariant 0 <= i <= |rrs| && FirstCNAME(rrs) == FirstCNAME(rrs[i..])
    {
      if rrs[i].CNAME? {
        return Some(rrs[i]);
      }
      assert rrs[i..][1..] == rrs[i + 1..];
      i := i + 1;
    }
  }

  method ScanType(rrs: seq<RR>, t: nat) returns (found: bool)
    ensures found <==> HasType(rrs, t)
  {
    for i := 0 to |rrs|
      invariant forall j :: 0 <= j < i ==> TypeOf(rrs[j]) != t
    {
      if TypeOf(rrs[i]) == t {
        return true;
      }
    }
    return false;
  }

  method ScanSOA(ns: seq<RR>) returns (ttl: Option<nat>)
    ensures ttl == NegativeTtl(ns)
  {
    var i := 0;
    while i < |ns|
      invariant 0 <= i <= |ns| && NegativeTtl(ns) == NegativeTtl(ns[i..])
    {
      if ns[i].SOA? {
        var t := ns[i].ttl;
        if ns[i].minimum < t {
          t := ns[i].minimum;
        }
        if t == 0 {
          t := DEFAULT_NEGATIVE_TTL;
        }
        return Some(t);
      }
      assert ns[i..][1..] == ns[i + 1..];
      i := i + 1;
    }
    return None;
  }

  /** The hosts named by the NS records of an authority section, in order. */
  function HostsOf(ns: seq<RR>): seq<Name> {
    if ns == [] then [] else (if ns[0].NS? then [ns[0].host] else []) + HostsOf(ns[1..])
  }

  lemma {:induction false} HostsOfJoin(a: seq<RR>, b: seq<RR>)
    ensures HostsOf(a + b) == HostsOf(a) + HostsOf(b)
  {
    if a == [] {
      assert a + b == b;
    } else {
      var first, rest := if a[0].NS? then [a[0].host] else [], a[1..];
      HostsOfJoin(rest, b);
      assert (a + b)[1..] == rest + b;
      assert HostsOf(a + b) == first + HostsOf(rest + b);
      assert HostsOf(a) == first + HostsOf(rest);
      assert first + (HostsOf(rest) + HostsOf(b)) == (first + HostsOf(rest)) + HostsOf(b);
    }
  }

  /** Exactly the hosts of the NS records, each in its place: after those of the records before it, and
      before those of the records after it. */
  lemma HostsAreThoseOfNS(before: seq<RR>, rr: RR, after: seq<RR>)
    ensures HostsOf(before + ([rr] + after)) == HostsOf(before) + ((if rr.NS? then [rr.host] else []) + HostsOf(after))
  {
    HostsOfJoin(before, [rr] + after);
    assert ([rr] + after)[1..] == after;
  }

  predicate HasCachedAddress(cache: Cache, host: Name) {
    TypedKey(host, TYPE_A) in cache && HasType(cache[TypedKey(host, TYPE_A)].msg.answer, TYPE_A)
  }

  /** An address of a server named in the response is known without resolving its name: from glue,
      or from the cache. */
  predicate AddressAtHand(m: Msg, cache: Cache) {
    HasType(m.extra, TYPE_A) || exists host :: host in HostsOf(m.ns) && HasCachedAddress(cache, host)
  }

  /** A finished run for the address of a server, with all that is known of runs. */
  ghost predicate IsRunOf(l: Live, host: Name) {
    LiveOk(l) && l.run.stage.Stopped? && l.run.original == Question(host, TYPE_A)
  }

  predicate GivesAddress(r: Run) {
    r.stage.Stopped? && r.stage.result.Reply? && HasType(r.stage.result.msg.answer, TYPE_A)
  }

  /** The runs made to resolve server names: none from a nested run; otherwise one for each name in
      order, up to and including the first that gives an address, which decides the result. */
  ghost predicate AreTried(hosts: seq<Name>, depth: nat, runs: seq<Live>, found: bool) {
    && |runs| <= |hosts|
    && (forall i :: 0 <= i < |runs| ==> IsRunOf(runs[i], hosts[i]) && (GivesAddress(runs[i].run) <==> found && i == |runs| - 1))
    && (found ==> runs != [])
    && (if depth > 0 then runs == [] else !found ==> |runs| == |hosts|)
  }

  /** One iteration keeps all that is known of the run and of the cache. */
  lemma IterationKeeps(l: Live, cache: Cache, roots: RootGlue, x: Input)
    requires LiveOk(l) && CacheOk(cache) && RootGlueOk(roots) && !l.run.stage.Stopped? && l.steps < MAX_ITERATIONS
    ensures LiveOk(AdvanceLive(l, cache, roots, x)) && CacheOk(StepCache(l.run, cache, x))
    ensures Step(l.run, cache, roots, x).original == l.run.original
  {
    AdvanceKeepsLive(l, cache, roots, x);
    StepKeepsCache(l.run, cache, x);
    StepKeepsChain(l.run, cache, roots, x);
  }

  function Min1(n: nat): nat {
    if n < 1 then n else 1
  }

  // ---- The loop as a function ---------------------------------------------------------------

  /** The shared cache, and how much of the tape of inputs has been read. */
  datatype World = World(cache: Cache, tick: nat)

  datatype Outcome = Outcome(run: Run, world: World)

  datatype Search = Search(found: bool, world: World)

  type Tape = nat -> Input

  /** How a server name is resolved in a world; a nested run does not resolve any. */
  type Nested = (Question, World) -> Outcome

  /** The i-th name and those after it, one nested run for each, up to the first that gives an address. */
  function TryHosts(hosts: seq<Name>, i: nat, w: World, nested: Nested): Search
    requires i <= |hosts|
    decreases |hosts| - i
  {
    if i == |hosts| then Search(false, w)
    else
      var o := nested(Question(hosts[i], TYPE_A), w);
      if GivesAddress(o.run) then Search(true, o.world) else TryHosts(hosts, i + 1, o.world, nested)
  }

  /** From glue, from the cache, or else by resolving the server names. */
  function FindServer(m: Msg, w: World, nested: Option<Nested>): Search {
    if AddressAtHand(m, w.cache) then Search(true, w)
    else if nested.None? then Search(false, w)
    else TryHosts(HostsOf(m.ns), 0, w, nested.value)
  }

  /** What an iteration of a run meets: the next input of the tape, and before a query also the search
      for an address of a server. */
  datatype Turn = Turn(input: Input, world: World)

  function NextTurn(r: Run, w: World, tape: Tape, nested: Option<Nested>): Turn {
    var x, w' := tape(w.tick), w.(tick := w.tick + 1);
    if r.stage.QueryUpstream? then
      var search := FindServer(r.response, w', nested);
      Turn(x.(hasAddress := search.found), search.world)
    else Turn(x, w')
  }

  /** A run under way: how far it has come, and the world it finds. */
  datatype Task = Task(run: Run, steps: nat, world: World)

  /** A task after one more iteration. */
  function NextTask(task: Task, tape: Tape, roots: RootGlue, nested: Option<Nested>): Task
    requires !task.run.stage.Stopped?
  {
    var t := NextTurn(task.run, task.world, tape, nested);
    Task(Step(task.run, t.world.cache, roots, t.input), task.steps + 1,
         t.world.(cache := StepCache(task.run, t.world.cache, t.input)))
  }

  /** A task carried to its end, which is an error when fifty iterations are used up. */
  function Finish(task: Task, tape: Tape, roots: RootGlue, nested: Option<Nested>): Outcome
    decreases MAX_ITERATIONS - task.steps
  {
    if task.run.stage.Stopped? then Outcome(task.run, task.world)
    else if task.steps >= MAX_ITERATIONS then Outcome(Stop(task.run, Error), task.world)
    else Finish(NextTask(task, tape, roots, nested), tape, roots, nested)
  }

  /** A question resolved by a nested run. */
  function NestedBy(tape: Tape, roots: RootGlue): Nested {
    (q: Question, w: World) => Finish(Task(Start(q), 0, w), tape, roots, None)
  }

  /** A question resolved at some depth: only a run that is not nested itself nests. */
  function Resolve(q: Question, depth: nat, w: World, tape: Tape, roots: RootGlue): Outcome {
    Finish(Task(Start(q), 0, w), tape, roots, NestedAt(depth, tape, roots))
  }

  function NestedAt(depth: nat, tape: Tape, roots: RootGlue): Option<Nested> {
    if depth > 0 then None else Some(NestedBy(tape, roots))
  }

  lemma NestedResolves(q: Question, w: World, tape: Tape, roots: RootGlue)
    ensures NestedBy(tape, roots)(q, w) == Resolve(q, 1, w, tape, roots)
  {
  }

  /** The search has come to the i-th name. */
  ghost predicate TriedUpTo(hosts: seq<Name>, u: World, i: nat, w: World, nested: Nested)
    requires i <= |hosts|
  {
    TryHosts(hosts, 0, u, nested) == TryHosts(hosts, i, w, nested)
  }

  lemma TryNext(hosts: seq<Name>, u: World, i: nat, w: World, nested: Nested, o: Outcome)
    requires i < |hosts| && TriedUpTo(hosts, u, i, w, nested) && o == nested(Question(hosts[i], TYPE_A), w)
    ensures GivesAddress(o.run) ==> TryHosts(hosts, 0, u, nested) == Search(true, o.world)
    ensures !GivesAddress(o.run) ==> TriedUpTo(hosts, u, i + 1, o.world, nested)
  {
  }

  /** Two tasks that come to the same end. */
  ghost predicate SameEnd(a: Task, b: Task, tape: Tape, roots: RootGlue, nested: Option<Nested>) {
    Finish(a, tape, roots, nested) == Finish(b, tape, roots, nested)
  }

  lemma SameEndNext(a: Task, b: Task, c: Task, tape: Tape, roots: RootGlue, nested: Option<Nested>)
    requires SameEnd(a, b, tape, roots, nested) && !b.run.stage.Stopped? && b.steps < MAX_ITERATIONS
    requires c == NextTask(b, tape, roots, nested)
    ensures SameEnd(a, c, tape, roots, nested)
  {
  }

  lemma EndOf(a: Task, b: Task, tape: Tape, roots: RootGlue, nested: Option<Nested>)
    requires SameEnd(a, b, tape, roots, nested) && (b.run.stage.Stopped? || b.steps >= MAX_ITERATIONS)
    ensures Finish(a, tape, roots, nested)
            == Outcome(if b.run.stage.Stopped? then b.run else Stop(b.run, Error), b.world)
  {
  }

  /** The outcome of a task is that of a run over moments: where it stopped, or an error after fifty
      steps. */
  ghost predicate IsEndOf(run: Run, end: Run, steps: nat) {
    if end.stage.Stopped? then run == end else run == Stop(end, Error) && steps == 50
  }

  /** What the loop computes is a run of the machine over the moments that it meets: all that is known of
      runs and of their replies holds of it. */
  lemma {:induction false} FinishIsRunOn(task: Task, tape: Tape, roots: RootGlue, nested: Option<Nested>)
    returns (moments: seq<Moment>)
    requires task.steps <= MAX_ITERATIONS
    ensures IsEndOf(Finish(task, tape, roots, nested).run, RunOn(task.run, moments, roots), task.steps + |moments|)
    decreases MAX_ITERATIONS - task.steps
  {
    moments := [];
    if task.run.stage.Stopped? || task.steps == MAX_ITERATIONS {
    } else {
      var t, task' := NextTurn(task.run, task.world, tape, nested), NextTask(task, tape, roots, nested);
      var m := Moment(t.world.cache, t.input);
      var rest := FinishIsRunOn(task', tape, roots, nested);
      moments := [m] + rest;
      RunOnMore(task.run, m, rest, roots);
    }
  }

  class Machine {
    const roots: RootGlue
    /** What the outside contributes to the n-th step taken by this machine. */
    const tape: Tape
    var cache: Cache
    var tick: nat

    constructor (roots: RootGlue, tape: Tape)
      requires RootGlueOk(roots)
      ensures this.roots == roots && this.tape == tape && cache == map[] && tick == 0
      ensures Valid()
    {
      this.roots, this.tape, cache, tick := roots, tape, map[], 0;
    }

    ghost predicate Valid()
      reads this
    {
      CacheOk(cache) && RootGlueOk(roots)
    }

    function Now(): World
      reads this
    {
      World(cache, tick)
    }

    method LookupDelegation(name: Name) returns (found: Option<Msg>)
      ensures found == FindDelegation(cache, Tails(Text(name)))
    {
      var zones := GetZoneList(Text(name));
      var i := 0;
      while i < |zones|
        invariant 0 <= i <= |zones| && FindDelegation(cache, zones) == FindDelegation(cache, zones[i..])
      {
        if zones[i] in cache && IsDelegation(cache[zones[i]].msg) {
          return Some(cache[zones[i]].msg);
        }
        assert zones[i..][1..] == zones[i + 1..];
        i := i + 1;
      }
      return None;
    }

    method HandleLookupNs(r: Run) returns (r': Run)
      ensures r' == OnLookupNs(r, cache, roots)
    {
      var found := LookupDelegation(r.question.name);
      var resp := r.response;
      if found.Some? {
        resp := resp.(ns := resp.ns + found.value.ns, extra := resp.extra + found.value.extra);
      } else {
        resp := resp.(ns := resp.ns + roots.ns, extra := resp.extra + roots.extra);
      }
      r' := r.(stage := QueryUpstream, response := resp);
    }

    method HandleClassify(r: Run) returns (r': Run)
      modifies this`cache
      ensures r' == OnClassify(r) && cache == CacheAfterClassify(r, old(cache))
    {
      var m, qtype := r.response, r.question.qtype;
      var ttl := ScanSOA(m.ns);
      NegativeTtlFollowsSOA(m.ns);
      if |m.answer| == 0 && ttl.Some? && (m.rcode == NXDOMAIN || m.rcode == NOERROR) {
        cache := Put(cache, TypedKey(r.question.name, qtype), m, ttl.value);
        return r.(stage := ReturnResp);
      }
      if |m.answer| == 0 {
        return r.(stage := ExtractGlue);
      }
      var matching := ScanType(m.answer, qtype);
      if matching {
        return r.(stage := ReturnResp);
      }
      var cname := ScanCNAME(m.answer);
      if qtype != TYPE_CNAME && cname.Some? {
        return FollowCNAME(r);
      }
      return r.(stage := ExtractGlue);
    }

    method Handle(r: Run, x: Input) returns (r': Run)
      requires !r.stage.Stopped?
      modifies this`cache
      ensures r' == Step(r, old(cache), roots, x) && cache == StepCache(r, old(cache), x)
    {
      if r.stage.ClassifyResp? {
        r' := HandleClassify(r);
      } else if r.stage.LookupNsCache? {
        r' := HandleLookupNs(r);
      } else {
        r' := Step(r, cache, roots, x);
        cache := StepCache(r, cache, x);
      }
    }

    method ScanCached(hosts: seq<Name>) returns (found: bool)
      ensures found <==> exists host :: host in hosts && HasCachedAddress(cache, host)
    {
      for i := 0 to |hosts|
        invariant forall j :: 0 <= j < i ==> !HasCachedAddress(cache, hosts[j])
      {
        if HasCachedAddress(cache, hosts[i]) {
          assert hosts[i] in hosts;
          return true;
        }
      }
      return false;
    }

    /** Whether an address of a server to ask is known: from glue, from the cache, or from resolving
        the server names, which is tried only without the other two. */
    method FindAddress(r: Run, depth: nat) returns (known: bool, ghost runs: seq<Live>)
      requires Valid()
      modifies this
      ensures Valid()
      ensures AddressAtHand(r.response, old(cache)) ==> known && runs == [] && unchanged(this)
      ensures !AddressAtHand(r.response, old(cache)) ==> AreTried(HostsOf(r.response.ns), depth, runs, known)
      ensures depth > 0 ==> unchanged(this)
      ensures Search(known, Now()) == FindServer(r.response, old(Now()), NestedAt(depth, tape, roots))
      decreases 1 - Min1(depth), 2
    {
      runs := [];
      known := ScanType(r.response.extra, TYPE_A);
      if known {
        return;
      }
      var hosts := HostsOf(r.response.ns);
      known := ScanCached(hosts);
      if known {
        return;
      }
      known, runs := ResolveHosts(hosts, depth);
    }

    /** Resolves server names by nested runs, in order until one has an address, unless this already
        is a nested run. */
    method ResolveHosts(hosts: seq<Name>, depth: nat) returns (found: bool, ghost runs: seq<Live>)
      requires Valid()
      modifies this
      ensures Valid() && AreTried(hosts, depth, runs, found)
      ensures depth > 0 || hosts == [] ==> unchanged(this)
      ensures Search(found, Now()) == if depth > 0 then Search(false, old(Now()))
                                      else TryHosts(hosts, 0, old(Now()), NestedBy(tape, roots))
      decreases 1 - Min1(depth), 1
    {
      found, runs := false, [];
      if |hosts| == 0 || depth > 0 {
        return;
      }
      ghost var w := Now();
      for i := 0 to |hosts|
        invariant Valid() && |runs| == i
        invariant TriedUpTo(hosts, w, i, Now(), NestedBy(tape, roots))
        invariant forall j :: 0 <= j < i ==> IsRunOf(runs[j], hosts[j]) && !GivesAddress(runs[j].run)
      {
        ghost var before := Now();
        var l := Change(Question(hosts[i], TYPE_A), depth + 1);
        NestedResolves(Question(hosts[i], TYPE_A), before, tape, roots);
        TryNext(hosts, w, i, before, NestedBy(tape, roots), Outcome(l.run, Now()));
        runs := runs + [l];
        if l.run.stage.Stopped? && l.run.stage.result.Reply? {
          var addresses := ScanType(l.run.stage.result.msg.answer, TYPE_A);
          if addresses {
            return true, runs;
          }
        }
      }
    }

    /** Reads the next input, and before a query finds out whether a server can be asked. */
    method Prepare(r: Run, depth: nat) returns (x: Input)
      requires Valid() && !r.stage.Stopped?
      modifies this
      ensures Valid() && Turn(x, Now()) == NextTurn(r, old(Now()), tape, NestedAt(depth, tape, roots))
      decreases 1 - Min1(depth), 3
    {
      x := tape(tick);
      tick := tick + 1;
      if r.stage.QueryUpstream? {
        var known, runs := FindAddress(r, depth);
        x := x.(hasAddress := known);
      }
    }

    /** The step of an iteration. */
    method TakeStep(l: Live, x: Input) returns (l': Live)
      requires Valid() && LiveOk(l) && !l.run.stage.Stopped? && l.steps < MAX_ITERATIONS
      modifies this`cache
      ensures Valid() && LiveOk(l') && l'.steps == l.steps + 1 && l'.run.original == l.run.original
      ensures l'.run == Step(l.run, old(cache), roots, x) && cache == StepCache(l.run, old(cache), x)
    {
      IterationKeeps(l, cache, roots, x);
      var run := Handle(l.run, x);
      l' := Live(run, l.steps + 1, Queries(l.run, l.queries), l.owned && FollowsOwned(l.run));
    }

    /** One iteration of the loop. */
    method Iterate(l: Live, depth: nat) returns (l': Live)
      requires Valid() && LiveOk(l) && !l.run.stage.Stopped? && l.steps < MAX_ITERATIONS
      modifies this
      ensures Valid() && LiveOk(l') && l'.run.original == l.run.original
      ensures Task(l'.run, l'.steps, Now())
              == NextTask(Task(l.run, l.steps, old(Now())), tape, roots, NestedAt(depth, tape, roots))
      decreases 1 - Min1(depth), 4
    {
      var x := Prepare(l.run, depth);
      l' := TakeStep(l, x);
    }

    /** Runs a question until it stops or the iterations are used up. */
    method Change(q: Question, depth: nat) returns (l: Live)
      requires Valid()
      modifies this
      ensures Valid() && LiveOk(l) && l.run.stage.Stopped? && l.run.original == q
      ensures Outcome(l.run, Now()) == Resolve(q, depth, old(Now()), tape, roots)
      decreases 1 - Min1(depth), 5
    {
      StartOk(q);
      l := Live(Start(q), 0, 0, true);
      ghost var start, nested := Task(Start(q), 0, Now()), NestedAt(depth, tape, roots);
      while !l.run.stage.Stopped? && l.steps < MAX_ITERATIONS
        invariant Valid() && LiveOk(l) && l.run.original == q
        invariant SameEnd(start, Task(l.run, l.steps, Now()), tape, roots, nested)
        decreases MAX_ITERATIONS - l.steps
      {
        ghost var task := Task(l.run, l.steps, Now());
        l := Iterate(l, depth);
        SameEndNext(start, task, Task(l.run, l.steps, Now()), tape, roots, nested);
      }
      EndOf(start, Task(l.run, l.steps, Now()), tape, roots, nested);
      if !l.run.stage.Stopped? {
        l := l.(run := Stop(l.run, Error));
      }
    }
  }
}
