/** Concurrent resolution of name-server names (`resolveNSIPsConcurrently` in
    server/state_query_upstream.go): one worker per name, a semaphore, a result channel with one
    place per name, a goroutine that closes the channel when all workers are done, and a collector
    that cancels the rest after the first result. Resolving a name is one step with any outcome. */
module NsFanout {
  import opened SetFacts

  datatype Pc =
    | Waiting     // select: semaphore or context
    | Resolving   // holds the semaphore
    | Found       // holds it; select: send or context
    | Leaving     // holds it; its deferred release comes next
    | Exiting     // wg.Done comes next
    | Finished

  /** `found`: the worker obtained an address. `sent`: it put its result into the channel. */
  datatype Worker = Worker(pc: Pc, found: bool, sent: bool)

  datatype State = State(
    workerLimit: nat,
    workers: seq<Worker>,
    queue: seq<nat>,
    closed: bool,
    parentCancelled: bool,
    cancelled: bool,
    results: seq<nat>,
    returned: bool)

  datatype Step =
    | CancelParent
    | TakeSlot(i: nat)
    | GiveUp(i: nat)
    | Resolve(i: nat, ok: bool)
    | Send(i: nat)
    | Skip(i: nat)
    | FreeSlot(i: nat)
    | Finish(i: nat)
    | Close
    | Receive
    | Return

  const MAX_CONCURRENT_NS_QUERIES: nat := 5

  /** Five workers at a time, or one when the upstream gate asks for degraded fan-out. */
  function Initial(names: nat, degrade: bool): State {
    State(if names > 1 && degrade then 1 else MAX_CONCURRENT_NS_QUERIES,
          seq(names, i => Worker(Waiting, false, false)), [], false, false, false, [], false)
  }

  predicate ContextDone(s: State) {
    s.parentCancelled || s.cancelled
  }

  predicate HoldsSlot(w: Worker) {
    w.pc.Resolving? || w.pc.Found? || w.pc.Leaving?
  }

  function Holding(s: State): set<nat> {
    set i: nat | i < |s.workers| && HoldsSlot(s.workers[i])
  }

  predicate Is(s: State, i: nat, pc: Pc) {
    i < |s.workers| && s.workers[i].pc == pc
  }

  predicate AllFinished(s: State) {
    forall i :: 0 <= i < |s.workers| ==> s.workers[i].pc.Finished?
  }

  predicate Enabled(s: State, a: Step) {
    match a
    case CancelParent => !s.parentCancelled
    case TakeSlot(i) => Is(s, i, Waiting) && |Holding(s)| < s.workerLimit
    case GiveUp(i) => Is(s, i, Waiting) && ContextDone(s)
    case Resolve(i, _) => Is(s, i, Resolving)
    case Send(i) => Is(s, i, Found) && |s.queue| < |s.workers|
    case Skip(i) => Is(s, i, Found) && ContextDone(s)
    case FreeSlot(i) => Is(s, i, Leaving)
    case Finish(i) => Is(s, i, Exiting)
    case Close => AllFinished(s) && !s.closed
    case Receive => !s.returned && s.queue != []
    case Return => !s.returned && s.queue == [] && s.closed
  }

  function Goto(s: State, i: nat, pc: Pc): State
    requires i < |s.workers|
  {
    s.(workers := s.workers[i := s.workers[i].(pc := pc)])
  }

  function Apply(s: State, a: Step): State
    requires Enabled(s, a)
  {
    match a
    case CancelParent => s.(parentCancelled := true)
    case TakeSlot(i) => Goto(s, i, Resolving)
    case GiveUp(i) => Goto(s, i, Exiting)
    case Resolve(i, ok) => s.(workers := s.workers[i := Worker(if ok then Found else Leaving, ok, false)])
    case Send(i) => s.(workers := s.workers[i := Worker(Leaving, true, true)], queue := s.queue + [i])
    case Skip(i) => Goto(s, i, Leaving)
    case FreeSlot(i) => Goto(s, i, Exiting)
    case Finish(i) => Goto(s, i, Finished)
    case Close => s.(closed := true)
    case Receive =>
      s.(queue := s.queue[1..], results := s.results + [s.queue[0]], cancelled := s.cancelled || |s.results| == 0)
    case Return => s.(returned := true)
  }

  // ---- Invariant ---------------------------------------------------------------------------

  /** The results taken and waiting come from the workers that sent, one each. */
  ghost predicate ChannelOk(s: State) {
    var all := s.results + s.queue;
    && (forall k :: 0 <= k < |all| ==> all[k] < |s.workers| && s.workers[all[k]].sent)
    && (forall j, k :: 0 <= j < k < |all| ==> all[j] != all[k])
    && (forall i :: 0 <= i < |s.workers| && s.workers[i].sent ==> i in all)
  }

  /** A worker sends only an address it found; one that found an address and went on without
      sending it saw its context done. */
  ghost predicate WorkerOk(s: State, w: Worker) {
    && (w.sent ==> w.found && (w.pc.Leaving? || w.pc.Exiting? || w.pc.Finished?))
    && (w.pc.Found? ==> w.found && !w.sent)
    && (w.pc.Waiting? || w.pc.Resolving? ==> !w.found)
    && (w.found && !w.sent && !w.pc.Found? ==> ContextDone(s))
  }

  ghost predicate Inv(s: State) {
    && s.workerLimit >= 1 && |Holding(s)| <= s.workerLimit
    && ChannelOk(s)
    && (forall i :: 0 <= i < |s.workers| ==> WorkerOk(s, s.workers[i]))
    && (s.closed ==> AllFinished(s))
    && (s.cancelled <==> s.results != [])
    && (s.returned ==> s.closed && s.queue == [])
  }

  lemma InitialInv(names: nat, degrade: bool)
    ensures Inv(Initial(names, degrade))
  {
    assert Holding(Initial(names, degrade)) == {};
  }

  lemma HoldingStep(s: State, i: nat, w: Worker)
    requires i < |s.workers|
    ensures |Holding(s.(workers := s.workers[i := w]))|
            == |Holding(s)| + (if HoldsSlot(w) then 1 else 0) - (if HoldsSlot(s.workers[i]) then 1 else 0)
  {
    var s' := s.(workers := s.workers[i := w]);
    TwoChanges(Holding(s), Holding(s'), i, i + |s.workers|);
  }

  /** No more workers than the limit ever hold the semaphore. */
  lemma SemaphoreStep(s: State, a: Step)
    requires Inv(s) && Enabled(s, a)
    ensures |Holding(Apply(s, a))| <= s.workerLimit
  {
    var s' := Apply(s, a);
    if a.TakeSlot? || a.GiveUp? || a.Resolve? || a.Send? || a.Skip? || a.FreeSlot? || a.Finish? {
      HoldingStep(s, a.i, s'.workers[a.i]);
      assert Holding(s') == Holding(s.(workers := s.workers[a.i := s'.workers[a.i]]));
    } else {
      assert Holding(s') == Holding(s);
    }
  }

  lemma ChannelAfterSend(s: State, i: nat)
    requires Inv(s) && Enabled(s, Send(i))
    ensures ChannelOk(Apply(s, Send(i)))
  {
    var s' := Apply(s, Send(i));
    var all := s.results + s.queue;
    assert s'.results + s'.queue == all + [i];
    assert i !in all;
  }

  lemma ChannelAfterReceive(s: State)
    requires Inv(s) && Enabled(s, Receive)
    ensures ChannelOk(Apply(s, Receive))
  {
    var s' := Apply(s, Receive);
    assert s'.results + s'.queue == s.results + s.queue;
  }

  /** Moving a worker without sending leaves the channel alone. */
  lemma ChannelUntouched(s: State, s': State)
    requires ChannelOk(s) && s'.results == s.results && s'.queue == s.queue && |s'.workers| == |s.workers|
    requires forall i :: 0 <= i < |s.workers| ==> s'.workers[i].sent == s.workers[i].sent
    ensures ChannelOk(s')
  {
  }

  lemma ChannelStep(s: State, a: Step)
    requires Inv(s) && Enabled(s, a)
    ensures ChannelOk(Apply(s, a))
  {
    match a
    case Send(i) => ChannelAfterSend(s, i);
    case Receive => ChannelAfterReceive(s);
    case _ => ChannelUntouched(s, Apply(s, a));
  }

  lemma WorkersStep(s: State, a: Step)
    requires Inv(s) && Enabled(s, a)
    ensures forall i :: 0 <= i < |Apply(s, a).workers| ==> WorkerOk(Apply(s, a), Apply(s, a).workers[i])
  {
    var s' := Apply(s, a);
    assert ContextDone(s) ==> ContextDone(s');
    forall i | 0 <= i < |s'.workers| ensures WorkerOk(s', s'.workers[i]) {
      assert WorkerOk(s, s.workers[i]);
    }
  }

  lemma StepKeepsInv(s: State, a: Step)
    requires Inv(s) && Enabled(s, a)
    ensures Inv(Apply(s, a)) && Apply(s, a).workerLimit == s.workerLimit
  {
    SemaphoreStep(s, a);
    ChannelStep(s, a);
    WorkersStep(s, a);
  }

  // ---- What the fan-out guarantees ---------------------------------------------------------

  /** A worker with an address can always send it: the channel has a free place, and it has not been
      closed. */
  lemma SendsNeverBlock(s: State, i: nat)
    requires Inv(s) && Is(s, i, Found)
    ensures Enabled(s, Send(i)) && !s.closed
  {
    var all := s.results + s.queue;
    var senders := set k | 0 <= k < |all| :: all[k];
    DistinctCount(all);
    assert senders <= Upto(|s.workers|) - {i};
    SubsetIsSmaller(senders, Upto(|s.workers|) - {i});
  }

  lemma {:induction false} DistinctCount(all: seq<nat>)
    requires forall j, k :: 0 <= j < k < |all| ==> all[j] != all[k]
    ensures |set k | 0 <= k < |all| :: all[k]| == |all|
  {
    if all == [] {
    } else {
      var p := all[..|all| - 1];
      DistinctCount(p);
      var s, t := set k | 0 <= k < |p| :: p[k], set k | 0 <= k < |all| :: all[k];
      assert t == s + {all[|all| - 1]};
    }
  }

  ghost function Upto(n: nat): (r: set<nat>)
    ensures |r| == n && forall j: nat :: j in r <==> j < n
  {
    if n == 0 then {} else Upto(n - 1) + {n - 1}
  }

  /** The fan-out returns an address only if some worker obtained one; and if some worker obtained
      one, only a cancelled parent context can make it return none. */
  lemma ResultIsFaithful(s: State)
    requires Inv(s) && s.returned
    ensures s.results != [] ==> exists i :: 0 <= i < |s.workers| && s.workers[i].found && s.results[0] == i
    ensures !s.parentCancelled ==>
              (s.results != [] <==> exists i :: 0 <= i < |s.workers| && s.workers[i].found)
  {
    var all := s.results + s.queue;
    assert all == s.results;
    if s.results != [] {
      assert s.workers[all[0]].sent;
      assert WorkerOk(s, s.workers[all[0]]);
    }
    if i :| 0 <= i < |s.workers| && s.workers[i].found && !s.parentCancelled {
      assert WorkerOk(s, s.workers[i]);
      assert s.workers[i].sent ==> i in all;
    }
  }

  ghost predicate CanStep(s: State) {
    exists a :: a != CancelParent && Enabled(s, a)
  }

  /** Until it returns, some step other than an outside cancellation is enabled. */
  lemma NeverStuck(s: State)
    requires Inv(s) && !s.returned
    ensures CanStep(s)
  {
    if AllFinished(s) {
      var a := if !s.closed then Close else if s.queue != [] then Receive else Return;
      assert Enabled(s, a);
    } else if i: nat :| i < |s.workers| && !s.workers[i].pc.Finished? && !s.workers[i].pc.Waiting? {
      WorkerMoves(s, i);
    } else {
      var i: nat :| i < |s.workers| && s.workers[i].pc.Waiting?;
      assert Holding(s) == {};
      assert Enabled(s, TakeSlot(i));
    }
  }

  lemma WorkerMoves(s: State, i: nat)
    requires Inv(s) && i < |s.workers| && !s.workers[i].pc.Finished? && !s.workers[i].pc.Waiting?
    ensures CanStep(s)
  {
    match s.workers[i].pc
    case Resolving => assert Enabled(s, Resolve(i, false));
    case Found => SendsNeverBlock(s, i); assert Enabled(s, Send(i));
    case Leaving => assert Enabled(s, FreeSlot(i));
    case Exiting => assert Enabled(s, Finish(i));
  }

  // ---- Termination -------------------------------------------------------------------------

  function PcRank(pc: Pc): nat {
    match pc
    case Waiting => 6
    case Resolving => 5
    case Found => 4
    case Leaving => 2
    case Exiting => 1
    case Finished => 0
  }

  function RankSum(ws: seq<Worker>): nat {
    if ws == [] then 0 else PcRank(ws[0].pc) + RankSum(ws[1..])
  }

  lemma {:induction false} RankUpdate(ws: seq<Worker>, i: nat, w: Worker)
    requires i < |ws|
    ensures RankSum(ws[i := w]) == RankSum(ws) - PcRank(ws[i].pc) + PcRank(w.pc)
  {
    if i == 0 {
      assert ws[i := w][1..] == ws[1..];
    } else {
      RankUpdate(ws[1..], i - 1, w);
      assert ws[i := w][1..] == ws[1..][i - 1 := w];
    }
  }

  function Measure(s: State): nat {
    RankSum(s.workers) + |s.queue| + (if s.closed then 0 else 1)
    + (if s.parentCancelled then 0 else 1) + if s.returned then 0 else 1
  }

  /** Every step lowers the measure, whatever the schedule. */
  lemma StepsDescend(s: State, a: Step)
    requires Enabled(s, a)
    ensures Measure(Apply(s, a)) < Measure(s)
  {
    if a.TakeSlot? || a.GiveUp? || a.Resolve? || a.Send? || a.Skip? || a.FreeSlot? || a.Finish? {
      WorkerStepsDescend(s, a, a.i);
    } else {
      assert Apply(s, a).workers == s.workers;
    }
  }

  lemma WorkerStepsDescend(s: State, a: Step, i: nat)
    requires Enabled(s, a) && i < |s.workers|
    requires a == TakeSlot(i) || a == GiveUp(i) || (a.Resolve? && a.i == i) || a == Send(i) || a == Skip(i)
             || a == FreeSlot(i) || a == Finish(i)
    ensures Measure(Apply(s, a)) < Measure(s)
  {
    var w := Apply(s, a).workers[i];
    assert Apply(s, a).workers == s.workers[i := w];
    assert PcRank(w.pc) + (if a.Send? then 1 else 0) < PcRank(s.workers[i].pc);
    RankUpdate(s.workers, i, w);
  }

  ghost predicate IsRun(s: State, steps: seq<Step>)
    decreases |steps|
  {
    steps == [] || (Enabled(s, steps[0]) && IsRun(Apply(s, steps[0]), steps[1..]))
  }

  ghost function Final(s: State, steps: seq<Step>): State
    requires IsRun(s, steps)
    decreases |steps|
  {
    if steps == [] then s else Final(Apply(s, steps[0]), steps[1..])
  }

  /** Every run keeps the invariant and is no longer than the initial measure; a run that cannot be
      continued has returned. So every schedule ends with the fan-out having returned. */
  lemma {:induction false} RunsEnd(s: State, steps: seq<Step>)
    requires Inv(s) && IsRun(s, steps)
    ensures Inv(Final(s, steps)) && |steps| + Measure(Final(s, steps)) <= Measure(s)
    ensures !CanStep(Final(s, steps)) ==> Final(s, steps).returned
    decreases |steps|
  {
    if steps == [] {
      if !s.returned {
        NeverStuck(s);
      }
    } else {
      StepKeepsInv(s, steps[0]);
      StepsDescend(s, steps[0]);
      RunsEnd(Apply(s, steps[0]), steps[1..]);
    }
  }

  // ---- What it reports, in terms of what was resolved ---------------------------------------

  /** A worker has found an address exactly when its resolution succeeded; one that has gone past
      resolving did resolve, one way or the other, or saw its context done. */
  ghost predicate WorkerTold(s: State, i: nat, steps: seq<Step>)
    requires i < |s.workers|
  {
    var w := s.workers[i];
    && (w.found <==> Resolve(i, true) in steps)
    && (w.pc.Waiting? || w.pc.Resolving? || Resolve(i, w.found) in steps || ContextDone(s))
  }

  ghost predicate Told(s: State, steps: seq<Step>) {
    && (forall i: nat {:trigger WorkerTold(s, i, steps)} :: i < |s.workers| ==> WorkerTold(s, i, steps))
    && (forall i: nat, ok :: Resolve(i, ok) in steps ==> i < |s.workers|)
    && (s.parentCancelled <==> CancelParent in steps)
  }

  lemma StepTells(s: State, steps: seq<Step>, a: Step)
    requires Inv(s) && Told(s, steps) && Enabled(s, a)
    ensures Told(Apply(s, a), steps + [a])
  {
    var s' := Apply(s, a);
    assert |s'.workers| == |s.workers| && (ContextDone(s) ==> ContextDone(s'));
    forall b: Step ensures b in steps + [a] <==> b in steps || b == a {
    }
    forall i: nat | i < |s'.workers| ensures WorkerTold(s', i, steps + [a]) {
      assert WorkerTold(s, i, steps) && WorkerOk(s, s.workers[i]);
    }
  }

  /** All that is known of a state reached by some steps. */
  ghost predicate Reached(s: State, past: seq<Step>, names: nat, limit: nat) {
    Inv(s) && Told(s, past) && |s.workers| == names && s.workerLimit == limit
  }

  lemma StepReaches(s: State, past: seq<Step>, a: Step, names: nat, limit: nat)
    requires Reached(s, past, names, limit) && Enabled(s, a)
    ensures Reached(Apply(s, a), past + [a], names, limit)
  {
    StepTells(s, past, a);
    StepKeepsInv(s, a);
  }

  lemma {:induction false} RunsTell(s: State, past: seq<Step>, steps: seq<Step>, names: nat, limit: nat)
    requires Reached(s, past, names, limit) && IsRun(s, steps)
    ensures Reached(Final(s, steps), past + steps, names, limit)
    decreases |steps|
  {
    if steps == [] {
      assert past + steps == past;
    } else {
      StepReaches(s, past, steps[0], names, limit);
      RunsTell(Apply(s, steps[0]), past + [steps[0]], steps[1..], names, limit);
      assert past + steps == past + [steps[0]] + steps[1..];
    }
  }

  /** How many workers may resolve at a time. */
  function Places(names: nat, degrade: bool): nat {
    if names > 1 && degrade then 1 else 5
  }

  /** Under every schedule: at most five names are resolved at a time, or one when the fan-out is degraded
      and has a choice, and a worker can start whenever fewer are. What it returns was resolved. Unless
      the caller cancels, it returns an address exactly when a resolution succeeded, and returns none
      only after resolving every name in vain. */
  lemma FanoutIsFaithful(names: nat, degrade: bool, steps: seq<Step>)
    requires IsRun(Initial(names, degrade), steps)
    ensures var s := Final(Initial(names, degrade), steps);
            && |s.workers| == names && |Holding(s)| <= Places(names, degrade)
            && (forall i: nat :: Enabled(s, TakeSlot(i)) <==> Is(s, i, Waiting) && |Holding(s)| < Places(names, degrade))
            && (s.returned && s.results != [] ==> s.results[0] < names && Resolve(s.results[0], true) in steps)
            && (s.returned && CancelParent !in steps ==>
                  && (s.results != [] <==> exists i: nat :: Resolve(i, true) in steps)
                  && (s.results == [] ==> forall i: nat :: i < names ==> Resolve(i, false) in steps))
  {
    StartIsReached(names, degrade);
    RunsTell(Initial(names, degrade), [], steps, names, Places(names, degrade));
    assert [] + steps == steps;
    ReachedIsFaithful(Final(Initial(names, degrade), steps), steps, names, Places(names, degrade));
  }

  lemma StartIsReached(names: nat, degrade: bool)
    ensures Reached(Initial(names, degrade), [], names, Places(names, degrade))
  {
    InitialInv(names, degrade);
    var s := Initial(names, degrade);
    forall i: nat | i < |s.workers| ensures WorkerTold(s, i, []) {
    }
  }

  lemma ReachedIsFaithful(s: State, steps: seq<Step>, names: nat, limit: nat)
    requires Reached(s, steps, names, limit)
    ensures |s.workers| == names && |Holding(s)| <= limit
    ensures forall i: nat :: Enabled(s, TakeSlot(i)) <==> Is(s, i, Waiting) && |Holding(s)| < limit
    ensures s.returned && s.results != [] ==> s.results[0] < names && Resolve(s.results[0], true) in steps
    ensures s.returned && CancelParent !in steps ==>
              && (s.results != [] <==> exists i: nat :: Resolve(i, true) in steps)
              && (s.results == [] ==> forall i: nat :: i < names ==> Resolve(i, false) in steps)
  {
    if s.returned {
      ReturnedIsTold(s, steps);
    }
  }

  /** A worker that waits, or has an address to send, may stop exactly when the caller has cancelled or the
      first result has been taken. */
  lemma FirstResultCancels(s: State, i: nat)
    requires Inv(s)
    ensures Enabled(s, GiveUp(i)) <==> Is(s, i, Waiting) && (s.parentCancelled || s.results != [])
    ensures Enabled(s, Skip(i)) <==> Is(s, i, Found) && (s.parentCancelled || s.results != [])
  {
  }

  lemma ReturnedIsTold(s: State, steps: seq<Step>)
    requires Inv(s) && Told(s, steps) && s.returned
    ensures s.results != [] ==> s.results[0] < |s.workers| && Resolve(s.results[0], true) in steps
    ensures !s.parentCancelled ==> (s.results != [] <==> exists i: nat :: Resolve(i, true) in steps)
    ensures !s.parentCancelled && s.results == [] ==> forall i: nat :: i < |s.workers| ==> Resolve(i, false) in steps
  {
    ResultIsFaithful(s);
    if s.results != [] {
      var i: nat :| i < |s.workers| && s.workers[i].found && s.results[0] == i;
      assert WorkerTold(s, i, steps);
    } else if !s.parentCancelled {
      forall i: nat | i < |s.workers| ensures Resolve(i, false) in steps && Resolve(i, true) !in steps {
        assert WorkerTold(s, i, steps) && s.workers[i].pc.Finished? && !s.workers[i].found;
      }
    }
  }
}
