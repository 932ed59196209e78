/** The resolver state machine (server/state_machine.go and the state handlers), one function per
    handler over a shared cache. Hosts, forwarding, admission and upstream replies are inputs that
    may take any value at each step. The cache maps keys to messages and times to live; entries may
    disappear at any time. */
module Resolver {
  import opened Names
  import opened ZoneMatch
  import opened DnsModel
  import opened CacheKeys

  datatype Entry = Entry(msg: Msg, ttl: nat)

  type Cache = map<string, Entry>

  function Put(cache: Cache, key: string, m: Msg, ttl: nat): Cache {
    cache[key := Entry(Stored(m), ttl)]
  }

  datatype Result = Reply(msg: Msg) | Error

  datatype Stage =
    | StateInit
    | HostsLookup
    | ForwardLookup
    | CacheLookup
    | ClassifyResp
    | ExtractGlue
    | LookupNsCache
    | QueryUpstream
    | ReturnResp
    | Stopped(result: Result)

  /** One run of the machine: the question being asked, which CNAMEs change, the question that was
      asked, the response under construction, and the CNAME chain with the targets seen. */
  datatype Run = Run(
    stage: Stage,
    question: Question,
    original: Question,
    response: Msg,
    chain: seq<RR>,
    visited: set<Name>)

  function Start(q: Question): Run {
    Run(StateInit, q, q, EMPTY_MSG, [], {})
  }

  // ---- Inputs ------------------------------------------------------------------------------

  datatype HostsInput = HostsMiss | HostsHit(answer: seq<RR>)

  datatype ForwardInput = ForwardMiss | ForwardHit(reply: Msg) | ForwardServfail | ForwardRefused

  /** The winner's reply, and the reply of the alternate server if one is asked and answers. */
  datatype UpstreamInput = NoAnswer | Answer(reply: Msg, alternate: Option<Msg>)

  /** What the outside contributes to one step; each stage looks only at its own part. */
  datatype Input = Input(
    malformed: bool,
    hosts: HostsInput,
    forward: ForwardInput,
    admitted: bool,
    hasAddress: bool,
    upstream: UpstreamInput)

  /** The root servers' delegation, used when no closer one is cached. */
  datatype RootGlue = RootGlue(ns: seq<RR>, extra: seq<RR>)

  predicate RootGlueOk(g: RootGlue) {
    g.ns != [] && g.ns[0].NS? && g.ns[0].owner == []
  }

  // ---- Handlers ----------------------------------------------------------------------------

  function Failure(q: Question, rcode: nat): Msg {
    Msg(rcode, Some(q), [], [], [])
  }

  function Stop(r: Run, result: Result): Run {
    r.(stage := Stopped(result))
  }

  function OnInit(r: Run, malformed: bool): Run {
    if malformed then Stop(r, Reply(Failure(r.question, FORMERR)))
    else r.(stage := HostsLookup, response := r.response.(rcode := NOERROR, question := Some(r.question)))
  }

  function OnHosts(r: Run, hosts: HostsInput): Run {
    match hosts
    case HostsMiss => r.(stage := ForwardLookup)
    case HostsHit(answer) =>
      r.(stage := ReturnResp, response := r.response.(rcode := NOERROR, answer := r.response.answer + answer))
  }

  function OnForward(r: Run, forward: ForwardInput): Run {
    match forward
    case ForwardMiss => r.(stage := CacheLookup)
    case ForwardHit(m) =>
      r.(stage := ReturnResp,
         response := r.response.(rcode := m.rcode, answer := m.answer, ns := m.ns, extra := m.extra))
    case ForwardServfail => Stop(r, Reply(Failure(r.question, SERVFAIL)))
    case ForwardRefused => Stop(r, Reply(Failure(r.question, REFUSED)))
  }

  function OnCacheLookup(r: Run, cache: Cache, admitted: bool): Run {
    var key := TypedKey(r.question.name, r.question.qtype);
    if key in cache && cache[key].msg.answer != [] then
      r.(stage := ClassifyResp, response := r.response.(answer := r.response.answer + cache[key].msg.answer))
    else if key in cache && HasSOA(cache[key].msg.ns) then
      r.(stage := ClassifyResp,
         response := r.response.(rcode := cache[key].msg.rcode, ns := r.response.ns + cache[key].msg.ns))
    else if !admitted then Stop(r, Reply(Failure(r.question, REFUSED)))
    else r.(stage := ExtractGlue)
  }

  datatype Class = GetAnswer | GetNegative | GetCNAME | GetNS

  function Classify(m: Msg, qtype: nat): Class {
    if m.answer == [] && HasSOA(m.ns) && (m.rcode == NXDOMAIN || m.rcode == NOERROR) then GetNegative
    else if m.answer == [] then GetNS
    else if HasType(m.answer, qtype) then GetAnswer
    else if qtype != TYPE_CNAME && FirstCNAME(m.answer).Some? then GetCNAME
    else GetNS
  }

  /** NS records are kept across a CNAME when the first one's zone encloses the target. */
  predicate RelevantForCNAME(ns: seq<RR>, target: Name) {
    ns != [] && IsSubDomain(ns[0].owner, target)
  }

  function FollowCNAME(r: Run): Run
    requires FirstCNAME(r.response.answer).Some?
  {
    var cname := FirstCNAME(r.response.answer).value;
    if cname.target in r.visited then Stop(r, Error)
    else
      var kept := RelevantForCNAME(r.response.ns, cname.target);
      r.(stage := CacheLookup,
         question := r.question.(name := cname.target),
         chain := r.chain + [cname],
         visited := r.visited + {cname.target},
         response := r.response.(answer := [],
                                 ns := if kept then r.response.ns else [],
                                 extra := if kept then r.response.extra else []))
  }

  function OnClassify(r: Run): Run {
    match Classify(r.response, r.question.qtype)
    case GetAnswer => r.(stage := ReturnResp)
    case GetNegative => r.(stage := ReturnResp)
    case GetCNAME => FollowCNAME(r)
    case GetNS => r.(stage := ExtractGlue)
  }

  /** Classification stores a negative answer under the current question. */
  function CacheAfterClassify(r: Run, cache: Cache): Cache {
    var ttl := NegativeTtl(r.response.ns);
    if Classify(r.response, r.question.qtype).GetNegative? && ttl.Some?
    then Put(cache, TypedKey(r.question.name, r.question.qtype), r.response, ttl.value)
    else cache
  }

  function OnExtractGlue(r: Run): Run {
    var ns := r.response.ns;
    if ns == [] then r.(stage := LookupNsCache)
    else if ns[0].NS? && IsSubDomain(ns[0].owner, r.question.name) then r.(stage := QueryUpstream)
    else r.(stage := LookupNsCache, response := r.response.(ns := [], extra := []))
  }

  predicate IsDelegation(m: Msg) {
    m.ns != [] && m.ns[0].NS?
  }

  /** The first zone of the list with a delegation in the cache. */
  function FindDelegation(cache: Cache, zones: seq<string>): Option<Msg> {
    if zones == [] then None
    else if zones[0] in cache && IsDelegation(cache[zones[0]].msg) then Some(cache[zones[0]].msg)
    else FindDelegation(cache, zones[1..])
  }

  function OnLookupNs(r: Run, cache: Cache, roots: RootGlue): Run {
    match FindDelegation(cache, Tails(Text(r.question.name)))
    case Some(m) =>
      r.(stage := QueryUpstream, response := r.response.(ns := r.response.ns + m.ns, extra := r.response.extra + m.extra))
    case None =>
      r.(stage := QueryUpstream,
         response := r.response.(ns := r.response.ns + roots.ns, extra := r.response.extra + roots.extra))
  }

  predicate BadRcode(rcode: nat) {
    rcode == SERVFAIL || rcode == REFUSED || rcode == FORMERR || rcode == NOTIMPL
  }

  /** What an exchange amounts to: nothing usable, a name error to pass on, or a reply to process. */
  datatype Verdict = Broken | NameError(ns: seq<RR>) | Usable(reply: Msg)

  function Judge(reply: Msg, name: Name): Verdict {
    if reply.rcode == NXDOMAIN then NameError(reply.ns)
    else if reply.rcode != NOERROR then Broken
    else if reply.question.None? || reply.question.value.name != name then Broken
    else Usable(reply)
  }

  /** A bad response code makes the alternate server's reply count instead; any other failure code
      is final. */
  function JudgeExchange(up: UpstreamInput, name: Name): Verdict {
    match up
    case NoAnswer => Broken
    case Answer(reply, alternate) =>
      if BadRcode(reply.rcode) then (if alternate.None? then Broken else Judge(alternate.value, name))
      else Judge(reply, name)
  }

  function OnQueryUpstream(r: Run, hasAddress: bool, up: UpstreamInput): Run {
    if !hasAddress then Stop(r, Error)
    else
      match JudgeExchange(up, r.question.name)
      case Broken => Stop(r, Error)
      case NameError(ns) => r.(stage := ClassifyResp, response := r.response.(rcode := NXDOMAIN, ns := ns))
      case Usable(m) =>
        var rcode := if BadRcode(up.reply.rcode) then NOERROR else r.response.rcode;
        r.(stage := ClassifyResp,
           response := r.response.(rcode := rcode, answer := r.response.answer + m.answer, ns := m.ns, extra := m.extra))
  }

  /** A usable reply is stored under its question when it has answers, and under the zone of its
      first authority record when that is an NS record. */
  function CacheAfterReply(cache: Cache, m: Msg): Cache
    requires m.question.Some?
  {
    var q := m.question.value;
    var c := if m.answer != [] then Put(cache, TypedKey(q.name, q.qtype), m, m.answer[0].ttl) else cache;
    if IsDelegation(m) then Put(c, Text(m.ns[0].owner), m, m.ns[0].ttl) else c
  }

  function CacheAfterUpstream(r: Run, cache: Cache, hasAddress: bool, up: UpstreamInput): Cache {
    if !hasAddress then cache
    else
      match JudgeExchange(up, r.question.name)
      case Usable(m) => CacheAfterReply(cache, m)
      case _ => cache
  }

  /** Restores the question that was asked and puts the CNAME chain before the answer. */
  function FinalResponse(r: Run): Msg {
    r.response.(question := Some(r.original), answer := r.chain + r.response.answer)
  }

  // ---- One step ----------------------------------------------------------------------------

  function Step(r: Run, cache: Cache, roots: RootGlue, x: Input): Run
    requires !r.stage.Stopped?
  {
    match r.stage
    case StateInit => OnInit(r, x.malformed)
    case HostsLookup => OnHosts(r, x.hosts)
    case ForwardLookup => OnForward(r, x.forward)
    case CacheLookup => OnCacheLookup(r, cache, x.admitted)
    case ClassifyResp => OnClassify(r)
    case ExtractGlue => OnExtractGlue(r)
    case LookupNsCache => OnLookupNs(r, cache, roots)
    case QueryUpstream => OnQueryUpstream(r, x.hasAddress, x.upstream)
    case ReturnResp => Stop(r, Reply(FinalResponse(r)))
  }

  function StepCache(r: Run, cache: Cache, x: Input): Cache
    requires !r.stage.Stopped?
  {
    match r.stage
    case ClassifyResp => CacheAfterClassify(r, cache)
    case QueryUpstream => CacheAfterUpstream(r, cache, x.hasAddress, x.upstream)
    case _ => cache
  }

  const MAX_ITERATIONS: nat := 50
}
