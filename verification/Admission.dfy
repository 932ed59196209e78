/** Admission of expensive requests (server/expensive_request_limiter.go): a per-client slot table
    and the hot-zone tickets, acquired and rolled back in several steps with the holder's lock
    dropped in between. Any number of threads run the protocol, also on the same holder; a step is
    what one thread does while it holds a lock. The shards of the table are merged: a client's
    shard depends only on its address. */
module Admission {
  import opened Names
  import opened SetFacts

  type Addr = nat
  type HolderId = nat
  type ThreadId = nat

  // ---- The slot table ----------------------------------------------------------------------

  type Table = map<Addr, int>

  function Inflight(clients: Table, ip: Addr): int {
    if ip in clients then clients[ip] else 0
  }

  predicate Saturated(clients: Table, ip: Addr, limit: int) {
    Inflight(clients, ip) >= limit
  }

  /** The table after `TryAcquire`; looking a client up creates its entry. */
  function Acquired(clients: Table, ip: Addr, limit: int): Table {
    clients[ip := if Saturated(clients, ip, limit) then Inflight(clients, ip) else Inflight(clients, ip) + 1]
  }

  /** The table after `Release`: an absent client is ignored, a count never goes below zero, and an
      entry that reaches zero is deleted. */
  function Returned(clients: Table, ip: Addr): Table {
    if ip !in clients then clients
    else
      var n := if clients[ip] > 0 then clients[ip] - 1 else clients[ip];
      if n == 0 then clients - {ip} else clients[ip := n]
  }

  class SlotTable {
    const limit: int
    const observeWouldRefuse: bool
    var clients: Table

    constructor (limit: int, observeWouldRefuse: bool)
      ensures this.limit == limit && this.observeWouldRefuse == observeWouldRefuse && clients == map[]
    {
      this.limit, this.observeWouldRefuse, clients := limit, observeWouldRefuse, map[];
    }

    method TryAcquire(ip: Addr) returns (allowed: bool)
      modifies this
      ensures clients == Acquired(old(clients), ip, limit)
      ensures allowed <==> observeWouldRefuse || !Saturated(old(clients), ip, limit)
    {
      if ip !in clients {
        clients := clients[ip := 0];
      }
      if clients[ip] >= limit {
        return observeWouldRefuse;
      }
      clients := clients[ip := clients[ip] + 1];
      return true;
    }

    method Release(ip: Addr)
      modifies this
      ensures clients == Returned(old(clients), ip)
    {
      if ip !in clients {
        return;
      }
      if clients[ip] > 0 {
        clients := clients[ip := clients[ip] - 1];
      }
      if clients[ip] == 0 {
        clients := clients - {ip};
      }
    }
  }

  // ---- The protocol ------------------------------------------------------------------------

  /** Where a thread is inside `TryAcquire` or `ReleaseIfHeld`; the comment names the call that
      comes next. */
  datatype Pc =
    | Idle
    | Entering                       // hotZone.TryEnter
    | HasTicket(ticket: nat)         // limiter.TryAcquire
    | HasSlot(ticket: nat)           // commit, or lose to another thread
    | SlotRefused(ticket: nat)       // ReleaseHotZone, then refuse
    | LostSlot(ticket: nat)          // limiter.Release
    | LostTicket(ticket: nat)        // ReleaseHotZone
    | ClearedSlot(hotZoneHeld: bool, ticket: nat) // limiter.Release
    | ClearedTicket(ticket: nat)     // ReleaseHotZone

  datatype Thread = Thread(holder: HolderId, pc: Pc)

  datatype Holder = Holder(client: Addr, held: bool, hotZoneHeld: bool, ticket: nat)

  datatype State = State(
    limit: int,
    observe: bool,
    holders: map<HolderId, Holder>,
    threads: map<ThreadId, Thread>,
    clients: Table,
    active: set<nat>,
    lastTicket: nat)

  datatype Step =
    | NewHolder(h: HolderId, client: Addr)
    | NewThread(t: ThreadId, h: HolderId)
    | StartAcquire(t: ThreadId)
    | EnterHotZone(t: ThreadId, allowed: bool)
    | AcquireSlot(t: ThreadId)
    | Commit(t: ThreadId)
    | StartRelease(t: ThreadId)
    | GiveSlotBack(t: ThreadId)
    | GiveTicketBack(t: ThreadId)

  predicate At(s: State, t: ThreadId) {
    t in s.threads && s.threads[t].holder in s.holders
  }

  predicate Enabled(s: State, a: Step) {
    match a
    case NewHolder(h, _) => h !in s.holders
    case NewThread(t, h) => t !in s.threads && h in s.holders
    case StartAcquire(t) => At(s, t) && s.threads[t].pc.Idle?
    case EnterHotZone(t, _) => At(s, t) && s.threads[t].pc.Entering?
    case AcquireSlot(t) => At(s, t) && s.threads[t].pc.HasTicket?
    case Commit(t) => At(s, t) && s.threads[t].pc.HasSlot?
    case StartRelease(t) => At(s, t) && s.threads[t].pc.Idle?
    case GiveSlotBack(t) => At(s, t) && (s.threads[t].pc.LostSlot? || s.threads[t].pc.ClearedSlot?)
    case GiveTicketBack(t) =>
      At(s, t) && (s.threads[t].pc.SlotRefused? || s.threads[t].pc.LostTicket? || s.threads[t].pc.ClearedTicket?)
  }

  function Goto(s: State, t: ThreadId, pc: Pc): State
    requires At(s, t)
  {
    s.(threads := s.threads[t := s.threads[t].(pc := pc)])
  }

  function Taken(h: Holder): bool {
    h.held || h.hotZoneHeld
  }

  function Client(s: State, t: ThreadId): Addr
    requires At(s, t)
  {
    s.holders[s.threads[t].holder].client
  }

  function Apply(s: State, a: Step): State
    requires Enabled(s, a)
  {
    match a
    case NewHolder(h, client) => s.(holders := s.holders[h := Holder(client, false, false, 0)])
    case NewThread(t, h) => s.(threads := s.threads[t := Thread(h, Idle)])
    case StartAcquire(t) =>
      if Taken(s.holders[s.threads[t].holder]) then s else Goto(s, t, Entering)
    case EnterHotZone(t, allowed) =>
      if !allowed then Goto(s, t, Idle)
      else
        var k := s.lastTicket + 1;
        Goto(s, t, HasTicket(k)).(lastTicket := k, active := s.active + {k})
    case AcquireSlot(t) =>
      var k, ip := s.threads[t].pc.ticket, Client(s, t);
      var allowed := s.observe || !Saturated(s.clients, ip, s.limit);
      Goto(s, t, if allowed then HasSlot(k) else SlotRefused(k)).(clients := Acquired(s.clients, ip, s.limit))
    case Commit(t) =>
      var k, h := s.threads[t].pc.ticket, s.threads[t].holder;
      if Taken(s.holders[h]) then Goto(s, t, LostSlot(k))
      else Goto(s, t, Idle).(holders := s.holders[h := s.holders[h].(held := true, hotZoneHeld := true, ticket := k)])
    case StartRelease(t) =>
      var h := s.threads[t].holder;
      if !Taken(s.holders[h]) then s
      else
        Goto(s, t, ClearedSlot(s.holders[h].hotZoneHeld, s.holders[h].ticket))
        .(holders := s.holders[h := s.holders[h].(held := false, hotZoneHeld := false, ticket := 0)])
    case GiveSlotBack(t) =>
      var next := match s.threads[t].pc
                  case ClearedSlot(hot, k) => if hot then ClearedTicket(k) else Idle
                  case LostSlot(k) => LostTicket(k);
      Goto(s, t, next).(clients := Returned(s.clients, Client(s, t)))
    case GiveTicketBack(t) =>
      Goto(s, t, Idle).(active := s.active - {s.threads[t].pc.ticket})
  }

  // ---- Who owns what -----------------------------------------------------------------------

  /** A slot or a ticket is owned by a thread that is between acquiring and committing or giving it
      back, or by a holder it was committed to. */
  datatype Owner = ByThread(t: ThreadId) | ByHolder(h: HolderId)

  function AllOwners(s: State): set<Owner> {
    (set t | t in s.threads :: ByThread(t)) + (set h | h in s.holders :: ByHolder(h))
  }

  predicate OwnsSlot(pc: Pc) {
    pc.HasSlot? || pc.LostSlot? || pc.ClearedSlot?
  }

  function TicketAt(pc: Pc): Option<nat> {
    match pc
    case Idle => None
    case Entering => None
    case ClearedSlot(hot, k) => if hot then Some(k) else None
    case _ => Some(pc.ticket)
  }

  /** The client whose slot the owner has, if any. */
  function SlotOf(s: State, o: Owner): Option<Addr> {
    match o
    case ByThread(t) => if At(s, t) && OwnsSlot(s.threads[t].pc) then Some(Client(s, t)) else None
    case ByHolder(h) => if h in s.holders && s.holders[h].held then Some(s.holders[h].client) else None
  }

  function TicketOf(s: State, o: Owner): Option<nat> {
    match o
    case ByThread(t) => if At(s, t) then TicketAt(s.threads[t].pc) else None
    case ByHolder(h) => if h in s.holders && s.holders[h].hotZoneHeld then Some(s.holders[h].ticket) else None
  }

  function SlotOwners(s: State, ip: Addr): set<Owner> {
    set o | o in AllOwners(s) && SlotOf(s, o) == Some(ip)
  }

  /** A holder has a slot and a ticket or neither. */
  predicate HolderOk(h: Holder) {
    (h.held <==> h.hotZoneHeld) && (!h.held ==> h.ticket == 0)
  }

  ghost predicate WellFormed(s: State) {
    && s.limit >= 1
    && (forall t :: t in s.threads ==> s.threads[t].holder in s.holders)
    && (forall t :: t in s.threads && s.threads[t].pc.ClearedSlot? ==> s.threads[t].pc.hotZoneHeld)
    && (forall h :: h in s.holders ==> HolderOk(s.holders[h]))
  }

  /** The table counts exactly the slots owned, and its entries lie in 1..limit. */
  ghost predicate SlotsConserved(s: State) {
    && (forall ip :: Inflight(s.clients, ip) == |SlotOwners(s, ip)|)
    && (forall ip :: ip in s.clients ==> 1 <= s.clients[ip] <= s.limit)
  }

  /** The active hot-zone requests are exactly the tickets owned, one owner each. */
  ghost predicate TicketsConserved(s: State) {
    && (forall o :: TicketOf(s, o).Some? ==> TicketOf(s, o).value in s.active)
    && (forall k :: k in s.active ==> 1 <= k <= s.lastTicket && exists o :: TicketOf(s, o) == Some(k))
    && (forall o, p :: TicketOf(s, o).Some? && TicketOf(s, o) == TicketOf(s, p) ==> o == p)
  }

  ghost predicate Inv(s: State) {
    WellFormed(s) && SlotsConserved(s) && TicketsConserved(s)
  }

  function Initial(limit: int, observe: bool): State {
    State(limit, observe, map[], map[], map[], {}, 0)
  }

  lemma InitialInv(limit: int, observe: bool)
    requires limit >= 1
    ensures Inv(Initial(limit, observe))
  {
    var s := Initial(limit, observe);
    assert AllOwners(s) == {};
    assert forall ip :: SlotOwners(s, ip) == {};
  }

  // ---- Slots -------------------------------------------------------------------------------

  function Delta(s: State, s': State, o: Owner, ip: Addr): int {
    (if SlotOf(s', o) == Some(ip) then 1 else 0) - if SlotOf(s, o) == Some(ip) then 1 else 0
  }

  /** When only two owners change what they hold, the number of owned slots changes by theirs. */
  lemma OwnersChange(s: State, s': State, a: Owner, b: Owner, ip: Addr)
    requires a != b && a in AllOwners(s) && b in AllOwners(s) && AllOwners(s') == AllOwners(s)
    requires forall o :: o != a && o != b ==> SlotOf(s', o) == SlotOf(s, o)
    ensures |SlotOwners(s', ip)| == |SlotOwners(s, ip)| + Delta(s, s', a, ip) + Delta(s, s', b, ip)
  {
    TwoChanges(SlotOwners(s, ip), SlotOwners(s', ip), a, b);
  }

  /** Nothing but the thread and its holder differ, and the holder still serves the same client. */
  ghost predicate DifferOnlyAt(s: State, s': State, t: ThreadId, h: HolderId) {
    && s'.threads.Keys == s.threads.Keys && s'.holders.Keys == s.holders.Keys
    && (forall u :: u in s.threads && u != t ==> s'.threads[u] == s.threads[u])
    && (forall g :: g in s.holders && g != h ==> s'.holders[g] == s.holders[g])
    && (forall g :: g in s.holders ==> s'.holders[g].client == s.holders[g].client)
  }

  lemma StepDiffers(s: State, a: Step)
    requires Enabled(s, a) && !a.NewHolder? && !a.NewThread?
    ensures At(s, a.t) && DifferOnlyAt(s, Apply(s, a), a.t, s.threads[a.t].holder)
  {
  }

  lemma LocalOwners(s: State, s': State, t: ThreadId, h: HolderId)
    requires DifferOnlyAt(s, s', t, h)
    ensures AllOwners(s') == AllOwners(s)
    ensures forall o :: o != ByThread(t) && o != ByHolder(h) ==>
              SlotOf(s', o) == SlotOf(s, o) && TicketOf(s', o) == TicketOf(s, o)
  {
    forall g ensures g in s'.holders <==> g in s.holders {
      assert g in s'.holders.Keys <==> g in s.holders.Keys;
    }
    forall u ensures u in s'.threads <==> u in s.threads {
      assert u in s'.threads.Keys <==> u in s.threads.Keys;
    }
  }

  /** A step of a thread touches only what that thread and its holder own. */
  lemma StepIsLocal(s: State, a: Step, t: ThreadId)
    requires Enabled(s, a) && !a.NewHolder? && !a.NewThread? && a.t == t
    ensures AllOwners(Apply(s, a)) == AllOwners(s)
    ensures ByThread(t) in AllOwners(s) && ByHolder(s.threads[t].holder) in AllOwners(s)
    ensures forall o :: o != ByThread(t) && o != ByHolder(s.threads[t].holder) ==>
              SlotOf(Apply(s, a), o) == SlotOf(s, o) && TicketOf(Apply(s, a), o) == TicketOf(s, o)
  {
    StepDiffers(s, a);
    LocalOwners(s, Apply(s, a), t, s.threads[t].holder);
  }

  /** An observed over-limit request is let through without a slot: the one step after which the
      table no longer counts what is owned. */
  predicate Overcommits(s: State, a: Step) {
    a.AcquireSlot? && Enabled(s, a) && s.observe && Saturated(s.clients, Client(s, a.t), s.limit)
  }

  /** The slots a step adds to those owned for a client. */
  function NetSlots(s: State, a: Step, ip: Addr): int
    requires Enabled(s, a)
  {
    if a.AcquireSlot? && ip == Client(s, a.t) && (s.observe || !Saturated(s.clients, ip, s.limit)) then 1
    else if a.GiveSlotBack? && ip == Client(s, a.t) then -1
    else 0
  }

  lemma OwnSlotsStep(s: State, a: Step, ip: Addr)
    requires WellFormed(s) && Enabled(s, a) && !a.NewHolder? && !a.NewThread?
    ensures Delta(s, Apply(s, a), ByThread(a.t), ip) + Delta(s, Apply(s, a), ByHolder(s.threads[a.t].holder), ip)
            == NetSlots(s, a, ip)
  {
  }

  lemma OwnedSlotsStep(s: State, a: Step, ip: Addr)
    requires WellFormed(s) && Enabled(s, a) && !a.NewHolder? && !a.NewThread?
    ensures |SlotOwners(Apply(s, a), ip)| == |SlotOwners(s, ip)| + NetSlots(s, a, ip)
  {
    var x, y := ByThread(a.t), ByHolder(s.threads[a.t].holder);
    var s' := Apply(s, a);
    OwnSlotsStep(s, a, ip);
    var net := NetSlots(s, a, ip);
    assert Delta(s, s', x, ip) + Delta(s, s', y, ip) == net;
    StepIsLocal(s, a, a.t);
    OwnersChange(s, s', x, y, ip);
  }

  lemma CountedSlotsStep(s: State, a: Step, ip: Addr)
    requires Inv(s) && Enabled(s, a) && !a.NewHolder? && !a.NewThread?
    ensures Inflight(Apply(s, a).clients, ip)
            == Inflight(s.clients, ip) + if Overcommits(s, a) then 0 else NetSlots(s, a, ip)
  {
    if a.GiveSlotBack? {
      SlotIsCounted(s, a.t);
    }
  }

  /** A thread about to give a slot back finds the client's entry, with a count of at least one: the
      guards in `Release` never hide a release that has no acquire. */
  lemma SlotIsCounted(s: State, t: ThreadId)
    requires Inv(s) && At(s, t) && OwnsSlot(s.threads[t].pc)
    ensures Client(s, t) in s.clients && s.clients[Client(s, t)] >= 1
  {
    assert ByThread(t) in SlotOwners(s, Client(s, t));
  }

  /** Slots are conserved by every step except an overcommit, and never by an overcommit. */
  lemma SlotsStep(s: State, a: Step)
    requires Inv(s) && Enabled(s, a)
    ensures SlotsConserved(Apply(s, a)) <==> !Overcommits(s, a)
  {
    var s' := Apply(s, a);
    if a.NewHolder? || a.NewThread? {
      NewcomersOwnNothing(s, a);
      assert forall ip :: SlotOwners(s', ip) == SlotOwners(s, ip);
    } else {
      EntriesInRange(s, a);
      forall ip ensures Inflight(s'.clients, ip) - |SlotOwners(s', ip)|
                        == if Overcommits(s, a) then -NetSlots(s, a, ip) else 0 {
        OwnedSlotsStep(s, a, ip);
        CountedSlotsStep(s, a, ip);
      }
      if Overcommits(s, a) {
        assert Inflight(s'.clients, Client(s, a.t)) != |SlotOwners(s', Client(s, a.t))|;
      }
    }
  }

  lemma EntriesInRange(s: State, a: Step)
    requires Inv(s) && Enabled(s, a) && !a.NewHolder? && !a.NewThread?
    ensures forall ip :: ip in Apply(s, a).clients ==> 1 <= Apply(s, a).clients[ip] <= s.limit
  {
  }

  lemma NewcomersOwnNothing(s: State, a: Step)
    requires WellFormed(s) && Enabled(s, a) && (a.NewHolder? || a.NewThread?)
    ensures forall o :: SlotOf(Apply(s, a), o) == SlotOf(s, o) && TicketOf(Apply(s, a), o) == TicketOf(s, o)
    ensures forall o :: SlotOf(s, o).Some? ==> o in AllOwners(s) && o in AllOwners(Apply(s, a))
  {
  }

  // ---- Tickets -----------------------------------------------------------------------------

  lemma TicketMoved(s: State, s': State, x: Owner, y: Owner)
    requires TicketsConserved(s) && s'.active == s.active && s'.lastTicket == s.lastTicket && x != y
    requires forall o :: o != x && o != y ==> TicketOf(s', o) == TicketOf(s, o)
    requires TicketOf(s, y).None? && TicketOf(s', x).None? && TicketOf(s', y) == TicketOf(s, x)
    ensures TicketsConserved(s')
  {
    forall k | k in s'.active ensures exists o :: TicketOf(s', o) == Some(k) {
      var o :| TicketOf(s, o) == Some(k);
      assert TicketOf(s', if o == x then y else o) == Some(k);
    }
  }

  lemma TicketIssued(s: State, s': State, x: Owner, k: nat)
    requires TicketsConserved(s) && k == s.lastTicket + 1
    requires s'.active == s.active + {k} && s'.lastTicket == k
    requires forall o :: o != x ==> TicketOf(s', o) == TicketOf(s, o)
    requires TicketOf(s, x).None? && TicketOf(s', x) == Some(k)
    ensures TicketsConserved(s')
  {
    forall j | j in s'.active ensures exists o :: TicketOf(s', o) == Some(j) {
      if j != k {
        var o :| TicketOf(s, o) == Some(j);
        assert TicketOf(s', o) == Some(j);
      }
    }
  }

  lemma TicketRetired(s: State, s': State, x: Owner, k: nat)
    requires TicketsConserved(s) && TicketOf(s, x) == Some(k) && TicketOf(s', x).None?
    requires s'.active == s.active - {k} && s'.lastTicket == s.lastTicket
    requires forall o :: o != x ==> TicketOf(s', o) == TicketOf(s, o)
    ensures TicketsConserved(s')
  {
    forall j | j in s'.active ensures exists o :: TicketOf(s', o) == Some(j) {
      var o :| TicketOf(s, o) == Some(j);
      assert TicketOf(s', o) == Some(j);
    }
  }

  lemma TicketsUntouched(s: State, s': State)
    requires TicketsConserved(s) && s'.active == s.active && s'.lastTicket == s.lastTicket
    requires forall o :: TicketOf(s', o) == TicketOf(s, o)
    ensures TicketsConserved(s')
  {
    forall j | j in s'.active ensures exists o :: TicketOf(s', o) == Some(j) {
      var o :| TicketOf(s, o) == Some(j);
      assert TicketOf(s', o) == Some(j);
    }
  }

  lemma EnterStep(s: State, t: ThreadId, allowed: bool)
    requires WellFormed(s) && TicketsConserved(s) && Enabled(s, EnterHotZone(t, allowed))
    ensures TicketsConserved(Apply(s, EnterHotZone(t, allowed)))
  {
    var a := EnterHotZone(t, allowed);
    StepIsLocal(s, a, t);
    if allowed {
      TicketIssued(s, Apply(s, a), ByThread(t), s.lastTicket + 1);
    } else {
      TicketsUntouched(s, Apply(s, a));
    }
  }

  lemma CommitStep(s: State, t: ThreadId)
    requires WellFormed(s) && TicketsConserved(s) && Enabled(s, Commit(t))
    ensures TicketsConserved(Apply(s, Commit(t)))
  {
    StepIsLocal(s, Commit(t), t);
    if Taken(s.holders[s.threads[t].holder]) {
      TicketsUntouched(s, Apply(s, Commit(t)));
    } else {
      TicketMoved(s, Apply(s, Commit(t)), ByThread(t), ByHolder(s.threads[t].holder));
    }
  }

  lemma StartReleaseStep(s: State, t: ThreadId)
    requires WellFormed(s) && TicketsConserved(s) && Enabled(s, StartRelease(t))
    ensures TicketsConserved(Apply(s, StartRelease(t)))
  {
    StepIsLocal(s, StartRelease(t), t);
    if Taken(s.holders[s.threads[t].holder]) {
      TicketMoved(s, Apply(s, StartRelease(t)), ByHolder(s.threads[t].holder), ByThread(t));
    } else {
      TicketsUntouched(s, Apply(s, StartRelease(t)));
    }
  }

  lemma GiveTicketBackStep(s: State, t: ThreadId)
    requires WellFormed(s) && TicketsConserved(s) && Enabled(s, GiveTicketBack(t))
    ensures TicketsConserved(Apply(s, GiveTicketBack(t)))
  {
    StepIsLocal(s, GiveTicketBack(t), t);
    TicketRetired(s, Apply(s, GiveTicketBack(t)), ByThread(t), s.threads[t].pc.ticket);
  }

  lemma SlotStep(s: State, a: Step)
    requires WellFormed(s) && TicketsConserved(s) && Enabled(s, a) && (a.StartAcquire? || a.AcquireSlot? || a.GiveSlotBack?)
    ensures TicketsConserved(Apply(s, a))
  {
    StepIsLocal(s, a, a.t);
    TicketsUntouched(s, Apply(s, a));
  }

  lemma TicketsStep(s: State, a: Step)
    requires WellFormed(s) && TicketsConserved(s) && Enabled(s, a)
    ensures TicketsConserved(Apply(s, a))
  {
    match a
    case EnterHotZone(t, allowed) => EnterStep(s, t, allowed);
    case Commit(t) => CommitStep(s, t);
    case StartRelease(t) => StartReleaseStep(s, t);
    case GiveTicketBack(t) => GiveTicketBackStep(s, t);
    case NewHolder(_, _) =>
      NewcomersOwnNothing(s, a);
      TicketsUntouched(s, Apply(s, a));
    case NewThread(_, _) =>
      NewcomersOwnNothing(s, a);
      TicketsUntouched(s, Apply(s, a));
    case _ => SlotStep(s, a);
  }

  // ---- Whole runs --------------------------------------------------------------------------

  lemma WellFormedStep(s: State, a: Step)
    requires WellFormed(s) && Enabled(s, a)
    ensures WellFormed(Apply(s, a))
  {
  }

  /** One step keeps the whole invariant exactly when it is not an overcommit. */
  lemma StepKeepsInv(s: State, a: Step)
    requires Inv(s) && Enabled(s, a)
    ensures Inv(Apply(s, a)) <==> !Overcommits(s, a)
  {
    WellFormedStep(s, a);
    SlotsStep(s, a);
    TicketsStep(s, a);
  }

  /** A schedule is a list of steps, each enabled where it is taken. */
  ghost predicate IsRun(s: State, steps: seq<Step>)
    decreases |steps|
  {
    steps == [] || (Enabled(s, steps[0]) && IsRun(Apply(s, steps[0]), steps[1..]))
  }

  ghost function Final(s: State, steps: seq<Step>): State
    requires IsRun(s, steps)
    decreases |steps|
  {
    if steps == [] then s else Final(Apply(s, steps[0]), steps[1..])
  }

  lemma ModeIsFixed(s: State, a: Step)
    requires Enabled(s, a)
    ensures Apply(s, a).observe == s.observe && Apply(s, a).limit == s.limit
  {
  }

  /** No step of the run is an overcommit. */
  ghost predicate NeverOvercommits(s: State, steps: seq<Step>)
    requires IsRun(s, steps)
    decreases |steps|
  {
    steps == [] || (!Overcommits(s, steps[0]) && NeverOvercommits(Apply(s, steps[0]), steps[1..]))
  }

  /** The invariant holds at every point of the run. */
  ghost predicate HoldsAlong(s: State, steps: seq<Step>)
    requires IsRun(s, steps)
    decreases |steps|
  {
    Inv(s) && (steps == [] || HoldsAlong(Apply(s, steps[0]), steps[1..]))
  }

  /** In either mode, slots and tickets are conserved all along a run exactly when no step of it is an
      overcommit, under every interleaving of any number of threads and holders. */
  lemma {:induction false} RunsConserve(s: State, steps: seq<Step>)
    requires Inv(s) && IsRun(s, steps)
    ensures HoldsAlong(s, steps) <==> NeverOvercommits(s, steps)
    ensures NeverOvercommits(s, steps) ==> Inv(Final(s, steps)) && Final(s, steps).limit == s.limit
    decreases |steps|
  {
    if steps == [] {
    } else {
      StepKeepsInv(s, steps[0]);
      ModeIsFixed(s, steps[0]);
      if !Overcommits(s, steps[0]) {
        RunsConserve(Apply(s, steps[0]), steps[1..]);
      }
    }
  }

  /** In enforcing mode no step is. */
  lemma {:induction false} EnforcingNeverOvercommits(s: State, steps: seq<Step>)
    requires !s.observe && IsRun(s, steps)
    ensures NeverOvercommits(s, steps)
    decreases |steps|
  {
    if steps == [] {
    } else {
      ModeIsFixed(s, steps[0]);
      EnforcingNeverOvercommits(Apply(s, steps[0]), steps[1..]);
    }
  }

  /** Tickets are conserved by every run of either mode, overcommits or not. */
  lemma {:induction false} RunsConserveTickets(s: State, steps: seq<Step>)
    requires WellFormed(s) && TicketsConserved(s) && IsRun(s, steps)
    ensures WellFormed(Final(s, steps)) && TicketsConserved(Final(s, steps))
    decreases |steps|
  {
    if steps == [] {
    } else {
      WellFormedStep(s, steps[0]);
      TicketsStep(s, steps[0]);
      RunsConserveTickets(Apply(s, steps[0]), steps[1..]);
    }
  }

  /** What the limiter is for: at every point of every enforcing run, a client has at most `limit`
      slots owned, by committed requests and by threads under way together; and a client is refused
      for lack of slots only when all of them are owned. */
  lemma ClientsStayWithinLimit(limit: int, steps: seq<Step>, ip: Addr)
    requires limit >= 1 && IsRun(Initial(limit, false), steps)
    ensures var s := Final(Initial(limit, false), steps);
            && |SlotOwners(s, ip)| <= limit
            && (Saturated(s.clients, ip, limit) ==> |SlotOwners(s, ip)| == limit)
  {
    InitialInv(limit, false);
    EnforcingNeverOvercommits(Initial(limit, false), steps);
    RunsConserve(Initial(limit, false), steps);
    var s := Final(Initial(limit, false), steps);
    assert Inflight(s.clients, ip) == |SlotOwners(s, ip)|;
  }

  /** Nothing leaks: once no thread is inside the protocol and no request is committed, the table
      and the active set are empty. */
  lemma QuietMeansEmpty(s: State)
    requires Inv(s)
    requires forall t :: t in s.threads ==> s.threads[t].pc.Idle? || s.threads[t].pc.Entering?
    requires forall h :: h in s.holders ==> !Taken(s.holders[h])
    ensures s.clients == map[] && s.active == {}
  {
    forall ip ensures ip !in s.clients {
      assert SlotOwners(s, ip) == {};
      assert Inflight(s.clients, ip) == |SlotOwners(s, ip)|;
    }
    assert forall o :: TicketOf(s, o).None?;
  }

  /** A ticket given back is active, so the hot-zone release it causes ends a running request. */
  lemma TicketIsActive(s: State, t: ThreadId)
    requires Inv(s) && Enabled(s, GiveTicketBack(t))
    ensures s.threads[t].pc.ticket in s.active && 1 <= s.threads[t].pc.ticket
  {
    assert TicketOf(s, ByThread(t)) == Some(s.threads[t].pc.ticket);
  }

  lemma RunCons(s: State, a: Step, rest: seq<Step>)
    requires Enabled(s, a) && IsRun(Apply(s, a), rest)
    ensures IsRun(s, [a] + rest) && Final(s, [a] + rest) == Final(Apply(s, a), rest)
  {
    assert ([a] + rest)[1..] == rest;
  }

  // ---- What an acquire and a release come to -----------------------------------------------

  /** Steps that are enabled one after the other, and where they lead. */
  ghost predicate Leads(s: State, steps: seq<Step>, s': State) {
    IsRun(s, steps) && Final(s, steps) == s'
  }

  lemma LeadsBy(s: State, a: Step, rest: seq<Step>, s': State)
    requires Enabled(s, a) && Leads(Apply(s, a), rest, s')
    ensures Leads(s, [a] + rest, s')
  {
    RunCons(s, a, rest);
  }

  lemma LeadsByTwo(s: State, a: Step, b: Step)
    requires Enabled(s, a) && Enabled(Apply(s, a), b)
    ensures Leads(s, [a, b], Apply(Apply(s, a), b))
  {
    var s1, s2 := Apply(s, a), Apply(Apply(s, a), b);
    LeadsBy(s1, b, [], s2);
    LeadsBy(s, a, [b], s2);
    assert [a] + [b] == [a, b];
  }

  lemma LeadsByThree(s: State, a: Step, b: Step, c: Step)
    requires Enabled(s, a) && Enabled(Apply(s, a), b) && Enabled(Apply(Apply(s, a), b), c)
    ensures Leads(s, [a, b, c], Apply(Apply(Apply(s, a), b), c))
  {
    var s1, s2, s3 := Apply(s, a), Apply(Apply(s, a), b), Apply(Apply(Apply(s, a), b), c);
    LeadsBy(s2, c, [], s3);
    LeadsBy(s1, b, [c], s3);
    assert [b] + [c] == [b, c];
    LeadsBy(s, a, [b, c], s3);
    assert [a] + [b, c] == [a, b, c];
  }

  /** The number of slots counted for one client differs by `d`, and for no other client. */
  ghost predicate CountMoves(clients: Table, clients': Table, ip: Addr, d: int) {
    forall other :: Inflight(clients', other) == Inflight(clients, other) + if other == ip then d else 0
  }

  /** The thread is where it was, so the threads are as they were. */
  lemma ThreadIsBack(s: State, s': State, t: ThreadId)
    requires t in s.threads && t in s'.threads && s'.threads[t] == s.threads[t]
    requires s'.threads.Keys == s.threads.Keys && forall u :: u in s.threads && u != t ==> s'.threads[u] == s.threads[u]
    ensures s'.threads == s.threads
  {
    assert forall u :: u in s'.threads.Keys <==> u in s.threads.Keys;
  }

  function ReleaseSteps(t: ThreadId): seq<Step> {
    [StartRelease(t), GiveSlotBack(t), GiveTicketBack(t)]
  }

  function EnterSteps(t: ThreadId, allowed: bool): seq<Step> {
    [StartAcquire(t), EnterHotZone(t, allowed)]
  }

  function CommitSteps(t: ThreadId): seq<Step> {
    [AcquireSlot(t), Commit(t)]
  }

  /** Releasing a taken holder clears it, then takes exactly one from the count of its client and
      exactly its ticket from the active ones, and leaves everything else as it was. */
  lemma ReleaseGivesBack(s: State, t: ThreadId)
    requires Inv(s) && Enabled(s, StartRelease(t)) && Taken(s.holders[s.threads[t].holder])
    ensures IsRun(s, ReleaseSteps(t))
    ensures var s', h := Final(s, ReleaseSteps(t)), s.threads[t].holder;
            && s' == s.(clients := s'.clients, active := s.active - {s.holders[h].ticket},
                        holders := s.holders[h := Holder(s.holders[h].client, false, false, 0)])
            && CountMoves(s.clients, s'.clients, s.holders[h].client, -1)
  {
    var s1 := Apply(s, StartRelease(t));
    StepKeepsInv(s, StartRelease(t));
    SlotIsCounted(s1, t);
    var s' := Apply(Apply(s1, GiveSlotBack(t)), GiveTicketBack(t));
    ThreadIsBack(s, s', t);
    LeadsByThree(s, StartRelease(t), GiveSlotBack(t), GiveTicketBack(t));
  }

  /** A thread that finds its holder taken by another when it comes to commit gives its slot and its
      ticket back, and the holder keeps what it has. */
  lemma LoserGivesBack(s: State, t: ThreadId)
    requires Inv(s) && Enabled(s, Commit(t)) && Taken(s.holders[s.threads[t].holder])
    ensures IsRun(s, [Commit(t), GiveSlotBack(t), GiveTicketBack(t)])
    ensures var s' := Final(s, [Commit(t), GiveSlotBack(t), GiveTicketBack(t)]);
            && s' == s.(clients := s'.clients, active := s.active - {s.threads[t].pc.ticket},
                        threads := s.threads[t := s.threads[t].(pc := Idle)])
            && CountMoves(s.clients, s'.clients, Client(s, t), -1)
  {
    var s1 := Apply(s, Commit(t));
    StepKeepsInv(s, Commit(t));
    SlotIsCounted(s1, t);
    LeadsByThree(s, Commit(t), GiveSlotBack(t), GiveTicketBack(t));
  }

  /** Releasing a holder that is not taken does nothing, and so does acquiring one that is. */
  lemma NothingTwice(s: State, t: ThreadId)
    requires At(s, t) && s.threads[t].pc.Idle?
    ensures Apply(s, StartRelease(t)) == s <==> !Taken(s.holders[s.threads[t].holder])
    ensures Apply(s, StartAcquire(t)) == s <==> Taken(s.holders[s.threads[t].holder])
  {
    assert Taken(s.holders[s.threads[t].holder]) ==> Apply(s, StartRelease(t)).threads[t].pc.ClearedSlot?;
    assert !Taken(s.holders[s.threads[t].holder]) ==> Apply(s, StartAcquire(t)).threads[t].pc.Entering?;
  }

  /** A thread that starts to acquire an untaken holder and is turned away by the hot zone has changed
      nothing ... */
  lemma TurnedAwayUnchanged(s: State, t: ThreadId)
    requires Enabled(s, StartAcquire(t)) && !Taken(s.holders[s.threads[t].holder])
    ensures IsRun(s, EnterSteps(t, false)) && Final(s, EnterSteps(t, false)) == s
  {
    ThreadIsBack(s, Apply(Apply(s, StartAcquire(t)), EnterHotZone(t, false)), t);
    LeadsByTwo(s, StartAcquire(t), EnterHotZone(t, false));
  }

  /** ... and one let in has a new ticket, which is active. */
  lemma EnterTakesTicket(s: State, t: ThreadId)
    requires TicketsConserved(s) && Enabled(s, StartAcquire(t)) && !Taken(s.holders[s.threads[t].holder])
    ensures IsRun(s, EnterSteps(t, true)) && s.lastTicket + 1 !in s.active
    ensures var k := s.lastTicket + 1;
            Final(s, EnterSteps(t, true))
            == s.(active := s.active + {k}, lastTicket := k, threads := s.threads[t := s.threads[t].(pc := HasTicket(k))])
  {
    LeadsByTwo(s, StartAcquire(t), EnterHotZone(t, true));
  }

  /** With its ticket, and its holder still untaken, it commits, with one more slot of its client if
      the client has one left; an observing limiter lets it commit without one ... */
  lemma AcquireCommits(s: State, t: ThreadId)
    requires Enabled(s, AcquireSlot(t)) && !Taken(s.holders[s.threads[t].holder])
    requires Inflight(s.clients, Client(s, t)) < s.limit || s.observe
    ensures IsRun(s, CommitSteps(t))
    ensures var s', h, ip, k := Final(s, CommitSteps(t)), s.threads[t].holder, Client(s, t), s.threads[t].pc.ticket;
            && s' == s.(clients := s'.clients, holders := s.holders[h := Holder(ip, true, true, k)],
                        threads := s.threads[t := s.threads[t].(pc := Idle)])
            && CountMoves(s.clients, s'.clients, ip, if Inflight(s.clients, ip) < s.limit then 1 else 0)
  {
    LeadsByTwo(s, AcquireSlot(t), Commit(t));
  }

  /** ... and an enforcing one turns it away, with the table as it was and the ticket given back. */
  lemma AcquireIsRefused(s: State, t: ThreadId)
    requires Inv(s) && Enabled(s, AcquireSlot(t))
    requires Inflight(s.clients, Client(s, t)) >= s.limit && !s.observe
    ensures IsRun(s, [AcquireSlot(t), GiveTicketBack(t)])
    ensures Final(s, [AcquireSlot(t), GiveTicketBack(t)])
            == s.(active := s.active - {s.threads[t].pc.ticket}, threads := s.threads[t := s.threads[t].(pc := Idle)])
  {
    assert Apply(s, AcquireSlot(t)).clients == s.clients;
    LeadsByTwo(s, AcquireSlot(t), GiveTicketBack(t));
  }

  /** Tables with entries of at least one are equal when they count the same. */
  lemma SameCounts(clients: Table, clients': Table)
    requires forall ip :: ip in clients ==> clients[ip] >= 1
    requires forall ip :: ip in clients' ==> clients'[ip] >= 1
    requires forall ip :: Inflight(clients', ip) == Inflight(clients, ip)
    ensures clients' == clients
  {
    forall ip ensures (ip in clients' <==> ip in clients) && (ip in clients ==> clients'[ip] == clients[ip]) {
      assert Inflight(clients', ip) == Inflight(clients, ip);
    }
  }

  lemma CommitKeepsInv(s: State, t: ThreadId)
    requires Inv(s) && IsRun(s, CommitSteps(t)) && Inflight(s.clients, Client(s, t)) < s.limit
    ensures Inv(Final(s, CommitSteps(t)))
  {
    assert CommitSteps(t)[1..] == [Commit(t)] && [Commit(t)][1..] == [];
    assert NeverOvercommits(Apply(s, AcquireSlot(t)), [Commit(t)]);
    RunsConserve(s, CommitSteps(t));
  }

  lemma BackToTheStart(s: State, s2: State, s3: State, t: ThreadId)
    requires At(s, t) && s.threads[t].pc.Idle? && At(s2, t) && HolderOk(s.holders[s.threads[t].holder])
    requires var h, ip, k := s.threads[t].holder, Client(s, t), s.lastTicket + 1;
             && k !in s.active && !Taken(s.holders[h])
             && s2 == s.(clients := s2.clients, active := s.active + {k}, lastTicket := k,
                         holders := s.holders[h := Holder(ip, true, true, k)],
                         threads := s.threads[t := s.threads[t].(pc := Idle)])
             && s3 == s2.(clients := s.clients, active := s2.active - {k},
                          holders := s2.holders[h := Holder(ip, false, false, 0)])
    ensures s3 == s.(lastTicket := s.lastTicket + 1)
  {
    assert s3.threads == s.threads;
    assert s3.holders == s.holders;
    assert s3.active == s.active;
  }

  lemma CountsAreBack(s: State, clients2: Table, s3: State, ip: Addr)
    requires SlotsConserved(s) && SlotsConserved(s3)
    requires CountMoves(s.clients, clients2, ip, 1) && CountMoves(clients2, s3.clients, ip, -1)
    ensures s3.clients == s.clients
  {
    forall other ensures Inflight(s3.clients, other) == Inflight(s.clients, other) {
      assert Inflight(clients2, other) == Inflight(s.clients, other) + if other == ip then 1 else 0;
    }
    SameCounts(s.clients, s3.clients);
  }

  function AcquireSteps(t: ThreadId): seq<Step> {
    EnterSteps(t, true) + CommitSteps(t)
  }

  /** A whole acquire by a request that has a slot left. */
  lemma AcquireTakes(s: State, t: ThreadId)
    requires TicketsConserved(s) && Enabled(s, StartAcquire(t)) && !Taken(s.holders[s.threads[t].holder])
    requires Inflight(s.clients, Client(s, t)) < s.limit
    ensures IsRun(s, AcquireSteps(t)) && s.lastTicket + 1 !in s.active
    ensures var s', h, ip, k := Final(s, AcquireSteps(t)), s.threads[t].holder, Client(s, t), s.lastTicket + 1;
            && s' == s.(clients := s'.clients, active := s.active + {k}, lastTicket := k,
                        holders := s.holders[h := Holder(ip, true, true, k)],
                        threads := s.threads[t := s.threads[t].(pc := Idle)])
            && CountMoves(s.clients, s'.clients, ip, 1)
  {
    EnterTakesTicket(s, t);
    AcquireCommits(Final(s, EnterSteps(t, true)), t);
    RunJoin(s, EnterSteps(t, true), CommitSteps(t));
  }

  lemma AcquireKeepsInv(s: State, t: ThreadId)
    requires Inv(s) && Enabled(s, StartAcquire(t)) && !Taken(s.holders[s.threads[t].holder])
    requires Inflight(s.clients, Client(s, t)) < s.limit && IsRun(s, AcquireSteps(t))
    ensures Inv(Final(s, AcquireSteps(t)))
  {
    EnterTakesTicket(s, t);
    EnterKeepsInv(s, t);
    var s1 := Final(s, EnterSteps(t, true));
    AcquireCommits(s1, t);
    CommitKeepsInv(s1, t);
    RunJoin(s, EnterSteps(t, true), CommitSteps(t));
  }

  /** A release undoes an acquire: a request that had a slot left, was admitted and is then released
      leaves the holder, the table, the active tickets and the threads as it found them. */
  lemma ReleaseUndoesAcquire(s: State, t: ThreadId)
    requires Inv(s) && Enabled(s, StartAcquire(t)) && !Taken(s.holders[s.threads[t].holder])
    requires Inflight(s.clients, Client(s, t)) < s.limit
    ensures IsRun(s, AcquireSteps(t) + ReleaseSteps(t))
    ensures Final(s, AcquireSteps(t) + ReleaseSteps(t)) == s.(lastTicket := s.lastTicket + 1)
  {
    AcquireTakes(s, t);
    AcquireKeepsInv(s, t);
    var s2 := Final(s, AcquireSteps(t));
    ReleaseGivesBack(s2, t);
    ReleaseKeepsInv(s2, t);
    var s3 := Final(s2, ReleaseSteps(t));
    CountsAreBack(s, s2.clients, s3, Client(s, t));
    BackToTheStart(s, s2, s3, t);
    RunJoin(s, AcquireSteps(t), ReleaseSteps(t));
  }

  lemma EnterKeepsInv(s: State, t: ThreadId)
    requires Inv(s) && IsRun(s, EnterSteps(t, true))
    ensures Inv(Final(s, EnterSteps(t, true)))
  {
    NoAcquireNoOvercommit(s, EnterSteps(t, true));
    RunsConserve(s, EnterSteps(t, true));
  }

  lemma ReleaseKeepsInv(s: State, t: ThreadId)
    requires Inv(s) && IsRun(s, ReleaseSteps(t))
    ensures Inv(Final(s, ReleaseSteps(t)))
  {
    NoAcquireNoOvercommit(s, ReleaseSteps(t));
    RunsConserve(s, ReleaseSteps(t));
  }

  lemma {:induction false} NoAcquireNoOvercommit(s: State, steps: seq<Step>)
    requires IsRun(s, steps) && forall i :: 0 <= i < |steps| ==> !steps[i].AcquireSlot?
    ensures NeverOvercommits(s, steps)
    decreases |steps|
  {
    if steps == [] {
    } else {
      NoAcquireNoOvercommit(Apply(s, steps[0]), steps[1..]);
    }
  }

  /** A client with one holder and two threads on it, limit one, observing. */
  function TwoThreads(p: Pc, q: Pc, clients: Table, active: set<nat>, lastTicket: nat): State {
    State(1, true, map[1 := Holder(7, false, false, 0)], map[1 := Thread(1, p), 2 := Thread(1, q)],
          clients, active, lastTicket)
  }

  lemma TwoThreadsReached() returns (steps: seq<Step>)
    ensures IsRun(Initial(1, true), steps)
    ensures Final(Initial(1, true), steps) == TwoThreads(Idle, Idle, map[], {}, 0)
  {
    steps := [NewHolder(1, 7)] + ([NewThread(1, 1)] + ([NewThread(2, 1)] + []));
    var s0 := Initial(1, true);
    var s1 := Apply(s0, NewHolder(1, 7));
    var s2 := Apply(s1, NewThread(1, 1));
    RunCons(s2, NewThread(2, 1), []);
    RunCons(s1, NewThread(1, 1), [NewThread(2, 1)] + []);
    RunCons(s0, NewHolder(1, 7), [NewThread(1, 1)] + ([NewThread(2, 1)] + []));
  }

  lemma BothGetTickets() returns (steps: seq<Step>)
    ensures IsRun(TwoThreads(Idle, Idle, map[], {}, 0), steps)
    ensures Final(TwoThreads(Idle, Idle, map[], {}, 0), steps)
            == TwoThreads(HasTicket(1), HasTicket(2), map[], {1, 2}, 2)
  {
    steps := [StartAcquire(1)] + ([EnterHotZone(1, true)] + ([StartAcquire(2)] + ([EnterHotZone(2, true)] + [])));
    var s0 := TwoThreads(Idle, Idle, map[], {}, 0);
    var s1 := TwoThreads(Entering, Idle, map[], {}, 0);
    var s2 := TwoThreads(HasTicket(1), Idle, map[], {1}, 1);
    var s3 := TwoThreads(HasTicket(1), Entering, map[], {1}, 1);
    assert Apply(s0, StartAcquire(1)) == s1;
    assert Apply(s1, EnterHotZone(1, true)) == s2;
    assert Apply(s2, StartAcquire(2)) == s3;
    assert Apply(s3, EnterHotZone(2, true)) == TwoThreads(HasTicket(1), HasTicket(2), map[], {1, 2}, 2);
    RunCons(s3, EnterHotZone(2, true), []);
    RunCons(s2, StartAcquire(2), [EnterHotZone(2, true)] + []);
    RunCons(s1, EnterHotZone(1, true), [StartAcquire(2)] + ([EnterHotZone(2, true)] + []));
    RunCons(s0, StartAcquire(1), [EnterHotZone(1, true)] + ([StartAcquire(2)] + ([EnterHotZone(2, true)] + [])));
  }

  lemma BothGetThrough() returns (steps: seq<Step>)
    ensures IsRun(TwoThreads(HasTicket(1), HasTicket(2), map[], {1, 2}, 2), steps)
    ensures Final(TwoThreads(HasTicket(1), HasTicket(2), map[], {1, 2}, 2), steps)
            == TwoThreads(HasSlot(1), HasSlot(2), map[7 := 1], {1, 2}, 2)
  {
    steps := [AcquireSlot(1)] + ([AcquireSlot(2)] + []);
    var s0 := TwoThreads(HasTicket(1), HasTicket(2), map[], {1, 2}, 2);
    var s1 := TwoThreads(HasSlot(1), HasTicket(2), map[7 := 1], {1, 2}, 2);
    assert Apply(s0, AcquireSlot(1)) == s1;
    assert Apply(s1, AcquireSlot(2)) == TwoThreads(HasSlot(1), HasSlot(2), map[7 := 1], {1, 2}, 2);
    RunCons(s1, AcquireSlot(2), []);
    RunCons(s0, AcquireSlot(1), [AcquireSlot(2)] + []);
  }

  lemma TwoOwnersOneSlot()
    ensures var s := TwoThreads(HasSlot(1), HasSlot(2), map[7 := 1], {1, 2}, 2);
            Inflight(s.clients, 7) == 1 && |SlotOwners(s, 7)| == 2
  {
    var s := TwoThreads(HasSlot(1), HasSlot(2), map[7 := 1], {1, 2}, 2);
    assert SlotOwners(s, 7) == {ByThread(1), ByThread(2)};
  }

  lemma {:induction false} RunJoin(s: State, one: seq<Step>, two: seq<Step>)
    requires IsRun(s, one) && IsRun(Final(s, one), two)
    ensures IsRun(s, one + two) && Final(s, one + two) == Final(Final(s, one), two)
    decreases |one|
  {
    if one == [] {
      assert one + two == two;
    } else {
      RunJoin(Apply(s, one[0]), one[1..], two);
      assert (one + two)[1..] == one[1..] + two;
    }
  }

  /** In observing mode conservation is lost by a concrete run: with a limit of one, a second
      thread of the same client is let through while the table still counts one slot. */
  lemma ObservingOvercommits() returns (steps: seq<Step>)
    ensures IsRun(Initial(1, true), steps)
    ensures var s := Final(Initial(1, true), steps);
            Inflight(s.clients, 7) == 1 && |SlotOwners(s, 7)| == 2 && !SlotsConserved(s)
  {
    var setup := TwoThreadsReached();
    var tickets := BothGetTickets();
    var slots := BothGetThrough();
    RunJoin(Initial(1, true), setup, tickets);
    RunJoin(Initial(1, true), setup + tickets, slots);
    steps := setup + tickets + slots;
    TwoOwnersOneSlot();
  }
}
