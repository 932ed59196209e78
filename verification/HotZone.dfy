/** The hot-zone controller of server/hot_zone_protection.go. The clock, the CPU usage and the
    number of CPUs are parameters. Ghost fields record what happened: the lifetime of every request
    ever admitted, the charges each retained window received, and the evaluations made. */
module HotZone {
  import opened Names
  import opened ZoneMatch
  import opened HotZoneKeys
  import opened HotZoneLedger
  import opened HotZoneAccounts
  import opened HotZoneProtection

  const EVALUATE_INTERVAL: int := 1_000_000_000

  datatype Snapshot = Snapshot(
    windowStart: int,
    elapsed: int,
    currentGlobal: int,
    coarse: Occupancy,
    child: map<Name, Occupancy>)

  ghost predicate ShowsAt(windows: seq<Window>, accs: seq<Account>, i: nat)
    requires i < |windows| == |accs|
  {
    accs[i].start == windows[i].start && Shows(windows[i], accs[i].ledger) && AllPositive(accs[i].ledger)
  }

  /** Each window shows the charges recorded for it. */
  ghost predicate WindowsShow(windows: seq<Window>, accs: seq<Account>) {
    && |accs| == |windows|
    && (windows != [] ==> accs[|accs| - 1].start == windows[|windows| - 1].start)
    && forall i: nat {:trigger ShowsAt(windows, accs, i)} :: i < |windows| ==> ShowsAt(windows, accs, i)
  }

  /** All charges of the retained windows, oldest first. */
  ghost function Joined(accs: seq<Account>): seq<Charge> {
    if accs == [] then [] else Joined(accs[..|accs| - 1]) + accs[|accs| - 1].ledger
  }

  /** The candidate zone that charges determine. */
  ghost predicate CandidateOf(l: seq<Charge>, c: Option<Name>) {
    exists coarse, child :: CoarseShows(coarse, l) && ChildShows(child, l) && IsCandidate(coarse, child, c)
  }

  lemma {:induction false} JoinedPositive(windows: seq<Window>, accs: seq<Account>, n: nat)
    requires WindowsShow(windows, accs) && n <= |accs|
    ensures AllPositive(Joined(accs[..n]))
  {
    if n == 0 {
    } else {
      JoinedPositive(windows, accs, n - 1);
      assert ShowsAt(windows, accs, n - 1);
      assert accs[..n][..n - 1] == accs[..n - 1];
    }
  }

  /** In every window the children of a zone together have at most what the zone has, and the zones
      together at least the global occupancy: more exactly when a snapshot has charged the window. */
  lemma WindowIsConsistent(windows: seq<Window>, accs: seq<Account>, i: nat, k: Name)
    requires WindowsShow(windows, accs) && i < |windows|
    ensures Total(ChildrenOf(windows[i].child, k)) <= Get(windows[i].coarse, k)
    ensures windows[i].global <= Total(windows[i].coarse)
    ensures windows[i].global == Total(windows[i].coarse) <==>
            forall j :: 0 <= j < |accs[i].ledger| ==> accs[i].ledger[j].booked
  {
    assert ShowsAt(windows, accs, i);
    ChildrenWithinZone(windows[i].coarse, windows[i].child, accs[i].ledger, k);
    CoarseTotal(windows[i].coarse, accs[i].ledger);
    UnbookedIsInflation(accs[i].ledger);
  }

  /** So it is in what a snapshot aggregates, where at most one child can dominate its zone. */
  lemma SnapshotIsConsistent(windows: seq<Window>, accs: seq<Account>, coarse: Occupancy,
                             child: map<Name, Occupancy>, k: Name, a: Name, b: Name)
    requires WindowsShow(windows, accs)
    requires CoarseShows(coarse, Joined(accs)) && ChildShows(child, Joined(accs)) && Get(coarse, k) > 0
    requires a in ChildrenOf(child, k) && Dominates(ChildrenOf(child, k)[a], coarse[k])
    requires b in ChildrenOf(child, k) && Dominates(ChildrenOf(child, k)[b], coarse[k])
    ensures Total(ChildrenOf(child, k)) <= coarse[k] && a == b
  {
    JoinedPositive(windows, accs, |accs|);
    assert accs[..|accs|] == accs;
    ChildrenWithinZone(coarse, child, Joined(accs), k);
    OneDominantChild(coarse, child, Joined(accs), k, a, b);
  }

  // ---- Aggregation over windows ------------------------------------------------------------

  method MergeInto(into: Occupancy, m: Occupancy) returns (r: Occupancy)
    ensures IsMerge(r, into, m)
  {
    r := into;
    var todo := m.Keys;
    while todo != {}
      invariant todo <= m.Keys
      invariant r.Keys == into.Keys + (m.Keys - todo)
      invariant forall k :: k in r ==> r[k] == Get(into, k) + if k in todo then 0 else Get(m, k)
      decreases todo
    {
      var key :| key in todo;
      r := AddTo(r, key, m[key]);
      todo := todo - {key};
    }
  }

  method MergeChildInto(into: map<Name, Occupancy>, m: map<Name, Occupancy>) returns (r: map<Name, Occupancy>)
    ensures IsChildMerge(r, into, m)
  {
    r := into;
    var todo := m.Keys;
    while todo != {}
      invariant todo <= m.Keys
      invariant forall k :: k !in m || k in todo ==> ChildrenOf(r, k) == ChildrenOf(into, k)
      invariant forall k :: k in m && k !in todo ==> IsMerge(ChildrenOf(r, k), ChildrenOf(into, k), m[k])
      decreases todo
    {
      var parent :| parent in todo;
      var merged := MergeInto(ChildrenOf(r, parent), m[parent]);
      r := r[parent := merged];
      todo := todo - {parent};
    }
  }

  method Aggregate(windows: seq<Window>, ghost accs: seq<Account>)
    returns (coarse: Occupancy, child: map<Name, Occupancy>)
    requires WindowsShow(windows, accs)
    ensures CoarseShows(coarse, Joined(accs)) && ChildShows(child, Joined(accs))
  {
    coarse, child := map[], map[];
    for i := 0 to |windows|
      invariant CoarseShows(coarse, Joined(accs[..i])) && ChildShows(child, Joined(accs[..i]))
    {
      assert ShowsAt(windows, accs, i);
      var c := MergeInto(coarse, windows[i].coarse);
      var d := MergeChildInto(child, windows[i].child);
      CoarseShowsJoin(c, coarse, windows[i].coarse, Joined(accs[..i]), accs[i].ledger);
      ChildShowsJoin(d, child, windows[i].child, Joined(accs[..i]), accs[i].ledger);
      assert accs[..i + 1][..i] == accs[..i];
      coarse, child := c, d;
    }
    assert accs[..|accs|] == accs;
  }

  // ---- One charge --------------------------------------------------------------------------

  /** What a window's maps hold for a zone and a child: time booked, and time added by snapshots. */
  lemma ShownTotals(w: Window, acc: Account, k: Name, d: Name)
    requires Shows(w, acc.ledger)
    ensures Get(w.coarse, k) == BookedTo(acc, OfKey(k)) + Charged(acc.ledger, OfKey(k), false)
    ensures Get(ChildrenOf(w.child, k), d) == BookedTo(acc, OfChild(k, d)) + Charged(acc.ledger, OfChild(k, d), false)
  {
    assert Get(w.coarse, k) == KeyTotal(acc.ledger, k);
  }

  /** Only the current window's ledger changed. */
  ghost predicate OnlyLastCharged(accs: seq<Account>, accs': seq<Account>) {
    && accs != [] && |accs'| == |accs|
    && accs' == accs[|accs| - 1 := Account(Last(accs).start, Last(accs').ledger)]
  }

  /** The current window and its ledger are replaced by others that agree. */
  lemma WindowsShowUpdate(windows: seq<Window>, accs: seq<Account>, w: Window, acc: Account)
    requires windows != [] && WindowsShow(windows, accs)
    requires acc.start == w.start && Shows(w, acc.ledger) && AllPositive(acc.ledger)
    ensures WindowsShow(windows[|windows| - 1 := w], accs[|accs| - 1 := acc])
  {
    var last := |windows| - 1;
    var windows', accs' := windows[last := w], accs[last := acc];
    forall i: nat | i < |windows| ensures ShowsAt(windows', accs', i) {
      assert ShowsAt(windows, accs, i);
    }
  }

  lemma WindowsShowCharge(windows: seq<Window>, accs: seq<Account>, w: Window, c: Charge)
    requires windows != [] && WindowsShow(windows, accs) && c.amount > 0
    requires var current := windows[|windows| - 1];
             var charged := ChargeMaps(current, c.qname, c.key, c.amount);
             w == if c.booked then charged.(global := current.global + c.amount) else charged
    ensures WindowsShow(windows[|windows| - 1 := w], accs[|accs| - 1 := Account(w.start, Last(accs).ledger + [c])])
  {
    var last := |windows| - 1;
    var ledger := Last(accs).ledger;
    assert ShowsAt(windows, accs, last);
    ShowsCharge(windows[last], ledger, c);
    WindowsShowUpdate(windows, accs, w, Account(w.start, ledger + [c]));
  }

  lemma WindowsShowNew(windows: seq<Window>, accs: seq<Account>, start: int)
    requires WindowsShow(windows, accs)
    ensures WindowsShow(windows + [Window(start, 0, map[], map[])], accs + [Account(start, [])])
  {
    var windows', accs' := windows + [Window(start, 0, map[], map[])], accs + [Account(start, [])];
    EmptyShows(start);
    forall i: nat | i < |windows'| ensures ShowsAt(windows', accs', i) {
      if i < |windows| {
        assert ShowsAt(windows, accs, i);
      }
    }
  }

  lemma WindowsShowSuffix(windows: seq<Window>, accs: seq<Account>, drop: nat)
    requires WindowsShow(windows, accs) && drop <= |windows|
    ensures WindowsShow(windows[drop..], accs[drop..])
  {
    forall i: nat | i < |windows| - drop ensures ShowsAt(windows[drop..], accs[drop..], i) {
      assert ShowsAt(windows, accs, i + drop);
    }
  }

  lemma WindowsShowAdvance(windows: seq<Window>, accs: seq<Account>, start: int)
    requires WindowsShow(windows, accs)
    ensures WindowsShow(LastThree(windows + [Window(start, 0, map[], map[])]), LastThree(accs + [Account(start, [])]))
  {
    WindowsShowNew(windows, accs, start);
    var n := |windows| + 1;
    if n > RETAINED {
      WindowsShowSuffix(windows + [Window(start, 0, map[], map[])], accs + [Account(start, [])], n - RETAINED);
    }
  }

  lemma ChargedSnoc(l: seq<Charge>, c: Charge, sel: Selection, booked: bool)
    ensures Charged(l + [c], sel, booked)
            == Charged(l, sel, booked) + if c.booked == booked && Picks(sel, c.qname, c.key) then c.amount else 0
  {
    assert (l + [c])[..|l|] == l;
  }

  /** The time the average is taken over: a second when the window has only just started. */
  function Elapsed(start: int, now: int): int {
    if now - start <= 0 then EVALUATE_INTERVAL else now - start
  }

  /** What an evaluation at an instant reads off the lifetimes and the charges. */
  ghost predicate IsReading(r: Reading, log: seq<Lifetime>, accs: seq<Account>, now: int, cpu: real, numCPU: int) {
    && accs != [] && r.windowStart == Last(accs).start <= now
    && r.avg == Integral(log, All, r.windowStart, now) as real
                / (if now == r.windowStart then 1_000_000_000 else now - r.windowStart) as real
    && r.cpu == cpu && r.numCPU == numCPU
    && CandidateOf(Joined(accs), r.candidate)
  }

  lemma SnapshotIsReading(snap: Snapshot, r: Reading, log: seq<Lifetime>, accs: seq<Account>, now: int)
    requires accs != [] && snap.windowStart == Last(accs).start <= now && snap.elapsed == Elapsed(snap.windowStart, now)
    requires snap.currentGlobal == Integral(log, All, snap.windowStart, now)
    requires r.windowStart == snap.windowStart && r.avg == snap.currentGlobal as real / snap.elapsed as real
    requires CandidateOf(Joined(accs), r.candidate)
    ensures IsReading(r, log, accs, now, r.cpu, r.numCPU)
  {
  }

  lemma BooksSameBooked(accs: seq<Account>, accs': seq<Account>, active: ActiveTable, log: seq<Lifetime>, clock: int)
    requires Books(accs, active, log, clock) && OnlyLastCharged(accs, accs')
    requires forall sel :: BookedTo(Last(accs'), sel) == BookedTo(Last(accs), sel)
    ensures Books(accs', active, log, clock)
  {
    forall i | 0 <= i < |accs'| - 1 ensures Settled(accs'[i], log) {
      assert accs'[i] == accs[i];
    }
  }

  /** The control fields are the machine run over the evaluations made, which fell in windows of
      non-decreasing start, and no evaluation had a candidate with fewer than two labels. */
  ghost predicate DecidedBy(c: Control, evals: seq<Reading>, start: int) {
    && c == Run(evals) && InOrder(evals)
    && (evals != [] ==> evals[|evals| - 1].windowStart <= start)
    && (forall i :: 0 <= i < |evals| && evals[i].candidate.Some? ==> |evals[i].candidate.value| >= CANDIDATE_MIN_LABELS)
  }

  lemma DecidedNext(c: Control, evals: seq<Reading>, r: Reading)
    requires DecidedBy(c, evals, r.windowStart)
    requires r.candidate.Some? ==> |r.candidate.value| >= CANDIDATE_MIN_LABELS
    ensures DecidedBy(Evaluate(c, r), evals + [r], r.windowStart)
  {
    RunSnoc(evals, r);
    var evals' := evals + [r];
    forall i, j | 0 <= i < j < |evals'| ensures evals'[i].windowStart <= evals'[j].windowStart {
      if j == |evals| && i < |evals| - 1 {
        assert evals[i].windowStart <= evals[|evals| - 1].windowStart;
      }
    }
  }

  /** No decision rests on a zone above the second level. */
  lemma ZonesAreDeep(c: Control, evals: seq<Reading>, start: int)
    requires DecidedBy(c, evals, start)
    ensures c.candidate.Some? ==> |c.candidate.value| >= CANDIDATE_MIN_LABELS
    ensures c.protected.Some? ==> |c.protected.value| >= CANDIDATE_MIN_LABELS
  {
    CandidateWasRead(evals);
    RunIsCoherent(evals);
  }

  /** The lifetimes after the request with a ticket, if active, has ended. */
  ghost function Closed(log: seq<Lifetime>, id: nat, now: int): seq<Lifetime>
    requires 1 <= id <= |log|
  {
    log[id - 1 := log[id - 1].(until := Some(now))]
  }

  // ---- The controller ----------------------------------------------------------------------

  class HotZoneController {
    const suffixes: seq<Name>
    const evalEvery: int

    var active: ActiveTable
    var nextID: nat
    var windows: seq<Window>
    var lastEvalAt: int

    var observeMode: bool
    var protectedZone: Option<Name>
    var candidateZone: Option<Name>
    var candidateStreak: nat
    var lastCandidateWindow: int
    var lastNormalAvg: real
    var preTriggerBaseline: real

    ghost var log: seq<Lifetime>
    ghost var accounts: seq<Account>
    ghost var evals: seq<Reading>
    ghost var clock: int

    ghost function Ctl(): Control
      reads `observeMode, `protectedZone, `candidateZone, `candidateStreak, `lastCandidateWindow,
            `lastNormalAvg, `preTriggerBaseline
    {
      Control(observeMode, protectedZone, candidateZone, candidateStreak, lastCandidateWindow,
              lastNormalAvg, preTriggerBaseline)
    }

    /** The accounting part of the invariant. */
    ghost predicate Accounted()
      reads `log, `nextID, `windows, `accounts, `active, `clock
    {
      && |log| == nextID
      && WindowsShow(windows, accounts)
      && (windows == [] ==> log == [] && active == map[])
      && (windows != [] ==> Books(accounts, active, log, clock))
    }

    /** The decision part of the invariant. */
    ghost predicate Decided()
      reads `windows, `evals, `observeMode, `protectedZone, `candidateZone, `candidateStreak,
            `lastCandidateWindow, `lastNormalAvg, `preTriggerBaseline
    {
      if windows == [] then Ctl() == INITIAL && evals == []
      else DecidedBy(Ctl(), evals, windows[|windows| - 1].start)
    }

    /** Accounts, decisions, and a current window that contains the present. */
    ghost predicate Valid()
      reads this
    {
      && Accounted() && Decided() && 0 <= clock
      && (windows != [] ==> windows[|windows| - 1].start <= clock < windows[|windows| - 1].start + WINDOW)
    }

    /** In every reachable state the protected zone, and any candidate, has at least two labels. */
    lemma ProtectedZoneIsDeep()
      requires Valid()
      ensures protectedZone.Some? ==> |protectedZone.value| >= 2
      ensures candidateZone.Some? ==> |candidateZone.value| >= 2
    {
      if windows != [] {
        ZonesAreDeep(Ctl(), evals, windows[|windows| - 1].start);
      }
    }

    /** The global occupancy of an ended window is the integral of concurrency over its five seconds;
        that of the current window, with what the active requests are still to be charged, is the
        integral up to the present. */
    lemma GlobalOccupancy(i: nat)
      requires Accounted() && i < |windows|
      ensures i < |windows| - 1 ==>
                windows[i].global == Integral(log, All, windows[i].start, windows[i].start + 5_000_000_000)
      ensures i == |windows| - 1 && windows[i].start <= clock ==>
                windows[i].global + Pending(active, active.Keys, All, clock, |log|)
                == Integral(log, All, windows[i].start, clock)
    {
      assert ShowsAt(windows, accounts, i);
      if i < |windows| - 1 {
        BookedIsIntegral(i, All);
      } else if windows[i].start <= clock {
        LastIsIntegral(All);
      }
    }

    lemma BookedIsIntegral(i: nat, sel: Selection)
      requires Accounted() && i < |windows| - 1
      ensures BookedTo(accounts[i], sel) == Integral(log, sel, windows[i].start, windows[i].start + WINDOW)
    {
      assert ShowsAt(windows, accounts, i);
      assert Settled(accounts[i], log);
    }

    lemma LastIsIntegral(sel: Selection)
      requires Accounted() && windows != [] && windows[|windows| - 1].start <= clock
      ensures BookedTo(accounts[|windows| - 1], sel) + Pending(active, active.Keys, sel, clock, |log|)
              == Integral(log, sel, windows[|windows| - 1].start, clock)
    {
      OccupancyIsIntegral(accounts, active, log, clock, clock, sel);
    }

    /** What the live maps of an ended window hold for a zone and for a child of it: the integral of
        their concurrency over the window, and what snapshots added to the shared maps on top. */
    lemma ZoneOccupancy(i: nat, k: Name, d: Name)
      requires Accounted() && i < |windows| - 1
      ensures Get(windows[i].coarse, k) ==
              Integral(log, OfKey(k), windows[i].start, windows[i].start + WINDOW)
              + Charged(accounts[i].ledger, OfKey(k), false)
      ensures Get(ChildrenOf(windows[i].child, k), d) ==
              Integral(log, OfChild(k, d), windows[i].start, windows[i].start + WINDOW)
              + Charged(accounts[i].ledger, OfChild(k, d), false)
    {
      assert ShowsAt(windows, accounts, i);
      BookedIsIntegral(i, OfKey(k));
      BookedIsIntegral(i, OfChild(k, d));
      ShownTotals(windows[i], accounts[i], k, d);
    }

    /** And those of the current window, with what the active requests are still to be charged. */
    lemma CurrentZoneOccupancy(k: Name, d: Name)
      requires Accounted() && windows != [] && windows[|windows| - 1].start <= clock
      ensures var w := windows[|windows| - 1];
              var l := accounts[|windows| - 1].ledger;
              && Get(w.coarse, k) + Pending(active, active.Keys, OfKey(k), clock, |log|)
                 == Integral(log, OfKey(k), w.start, clock) + Charged(l, OfKey(k), false)
              && Get(ChildrenOf(w.child, k), d) + Pending(active, active.Keys, OfChild(k, d), clock, |log|)
                 == Integral(log, OfChild(k, d), w.start, clock) + Charged(l, OfChild(k, d), false)
    {
      var last := |windows| - 1;
      assert ShowsAt(windows, accounts, last);
      LastIsIntegral(OfKey(k));
      LastIsIntegral(OfChild(k, d));
      ShownTotals(windows[last], accounts[last], k, d);
    }

    /** The key a request is charged to encloses its name, given that the forwarding zone it was
        matched with does. */
    lemma ChargedKeyEncloses(qname: Name, forwardZone: Option<Name>)
      requires LongestFirst(suffixes)
      requires forwardZone.Some? ==> IsSubDomain(forwardZone.value, qname)
      ensures IsSubDomain(CoarseKey(qname, forwardZone, suffixes), qname)
    {
      CoarseKeyEncloses(qname, forwardZone, suffixes);
    }

    constructor (defaults: seq<Name>, extra: seq<Name>, evalEvery: int)
      ensures Valid() && log == [] && evals == [] && clock == 0 && this.evalEvery == evalEvery
      ensures LongestFirst(suffixes)
      ensures forall x :: x in suffixes <==> x in defaults || (x in extra && x != [])
    {
      var all := NormalizeSuffixes(defaults, extra);
      this.suffixes, this.evalEvery := all, evalEvery;
      active, nextID, windows, lastEvalAt := map[], 0, [], 0;
      observeMode, protectedZone, candidateZone, candidateStreak := false, None, None, 0;
      lastCandidateWindow, lastNormalAvg, preTriggerBaseline := 0, 0.0, 0.0;
      log, accounts, evals, clock := [], [], [], 0;
    }

    method EnsureCurrentWindow(now: int)
      requires Accounted() && 0 <= now && clock <= now
      modifies `windows, `accounts
      ensures Accounted() && windows != []
      ensures old(windows) != [] ==> windows == old(windows) && accounts == old(accounts)
      ensures old(windows) == [] ==> |windows| == 1 && windows[0].start <= now < windows[0].start + WINDOW
      ensures old(windows) == [] ==> windows[0].start == if now < 5_000_000_000 then now else now - now % 5_000_000_000
    {
      if |windows| == 0 {
        var start := now - now % WINDOW;
        if start == 0 {
          start := now;
        }
        windows := windows + [Window(start, 0, map[], map[])];
        accounts := [Account(start, [])];
        EmptyShows(start);
      }
    }

    /** Adds what a request has not been accounted for yet to the current window. */
    method AddSampleSegment(r: ActiveRequest, end: int)
      requires windows != [] && WindowsShow(windows, accounts)
      modifies `windows, `accounts
      ensures WindowsShow(windows, accounts) && OnlyLastCharged(old(accounts), accounts)
      ensures forall sel :: BookedTo(Last(accounts), sel) == BookedTo(Last(old(accounts)), sel) + DueOf(r, sel, end)
    {
      if end <= r.accountedAt {
        assert accounts == accounts[|accounts| - 1 := Last(accounts)];
        return;
      }
      var delta := end - r.accountedAt;
      var w := windows[|windows| - 1];
      w := ChargeMaps(w, r.qname, r.key, delta).(global := w.global + delta);
      ghost var c := Charge(r.qname, r.key, delta, true);
      WindowsShowCharge(windows, accounts, w, c);
      forall sel ensures Charged(Last(accounts).ledger + [c], sel, true)
                         == BookedTo(Last(accounts), sel) + DueOf(r, sel, end) {
        ChargedSnoc(Last(accounts).ledger, c, sel, true);
      }
      accounts := accounts[|accounts| - 1 := Account(w.start, Last(accounts).ledger + [c])];
      windows := windows[|windows| - 1 := w];
    }

    /** Charges every active request to the current window up to a boundary. */
    method ChargeActive(boundary: int)
      requires windows != [] && WindowsShow(windows, accounts)
      requires forall id :: id in active ==> 1 <= id <= nextID
      modifies `windows, `accounts, `active
      ensures WindowsShow(windows, accounts) && OnlyLastCharged(old(accounts), accounts)
      ensures forall sel :: BookedTo(Last(accounts), sel)
                == BookedTo(Last(old(accounts)), sel) + Pending(old(active), old(active).Keys, sel, boundary, nextID)
      ensures active.Keys == old(active).Keys
      ensures forall id :: id in active ==> active[id] == old(active)[id].(accountedAt := boundary)
    {
      ghost var was, accs := active, accounts;
      var todo := active.Keys;
      assert accounts == accounts[|accounts| - 1 := Last(accounts)];
      forall sel ensures Pending(was, was.Keys - todo, sel, boundary, nextID) == 0 {
        assert was.Keys - todo == {};
        PendingOfNone(was, sel, boundary, nextID);
      }
      while todo != {}
        invariant todo <= was.Keys && active.Keys == was.Keys
        invariant windows != [] && WindowsShow(windows, accounts) && OnlyLastCharged(accs, accounts)
        invariant forall sel :: BookedTo(Last(accounts), sel)
                    == BookedTo(Last(accs), sel) + Pending(was, was.Keys - todo, sel, boundary, nextID)
        invariant forall id :: id in active ==>
                    active[id] == if id in todo then was[id] else was[id].(accountedAt := boundary)
        decreases todo
      {
        var id :| id in todo;
        forall sel ensures Pending(was, was.Keys - (todo - {id}), sel, boundary, nextID)
                           == Pending(was, was.Keys - todo, sel, boundary, nextID) + DueOf(was[id], sel, boundary) {
          assert was.Keys - (todo - {id}) == was.Keys - todo + {id};
          PendingAdd(was, was.Keys - todo, sel, id, boundary, nextID);
        }
        AddSampleSegment(active[id], boundary);
        active := active[id := active[id].(accountedAt := boundary)];
        todo := todo - {id};
      }
      assert was.Keys - todo == was.Keys;
    }

    /** Starts a new window and keeps the last three. */
    method AdvanceWindow(start: int)
      requires WindowsShow(windows, accounts)
      modifies `windows, `accounts
      ensures windows == LastThree(old(windows) + [Window(start, 0, map[], map[])])
      ensures accounts == LastThree(old(accounts) + [Account(start, [])])
      ensures |windows| == if |old(windows)| < 3 then |old(windows)| + 1 else 3
      ensures WindowsShow(windows, accounts)
    {
      WindowsShowAdvance(windows, accounts, start);
      ghost var accs := LastThree(accounts + [Account(start, [])]);
      windows := windows + [Window(start, 0, map[], map[])];
      if |windows| > RETAINED {
        windows := windows[|windows| - RETAINED..];
      }
      accounts := accs;
    }

    /** One turn of the rotation loop: closes the current window and starts the next. */
    method RotateOnce()
      requires Accounted() && windows != [] && clock <= windows[|windows| - 1].start + WINDOW
      modifies `windows, `accounts, `active
      ensures Accounted() && windows != [] && active.Keys == old(active).Keys
      ensures windows[|windows| - 1].start == old(windows)[|old(windows)| - 1].start + WINDOW
    {
      var boundary := windows[|windows| - 1].start + WINDOW;
      ghost var accs, was := accounts, active;
      ChargeActive(boundary);
      BooksRotate(accs, was, log, clock, Last(accounts), active);
      assert accounts == accs[|accs| - 1 := Last(accounts)];
      AdvanceWindow(boundary);
    }

    method Rotate(now: int) returns (rotated: bool)
      requires Valid() && clock <= now
      modifies `windows, `accounts, `active
      ensures Accounted() && windows != []
      ensures windows[|windows| - 1].start <= now < windows[|windows| - 1].start + WINDOW
      ensures rotated <==> old(windows) != [] && now - old(windows)[|old(windows)| - 1].start >= WINDOW
      ensures old(windows) != [] ==> old(windows)[|old(windows)| - 1].start <= windows[|windows| - 1].start
      ensures active.Keys == old(active).Keys
    {
      EnsureCurrentWindow(now);
      rotated := false;
      ghost var first := windows[|windows| - 1].start;
      while now - windows[|windows| - 1].start >= WINDOW
        invariant Accounted() && windows != []
        invariant first <= windows[|windows| - 1].start <= now && clock <= windows[|windows| - 1].start + WINDOW
        invariant rotated <==> first < windows[|windows| - 1].start
        invariant rotated ==> now - first >= WINDOW
        invariant active.Keys == old(active).Keys
        decreases now - windows[|windows| - 1].start
      {
        RotateOnce();
        rotated := true;
      }
    }

    /** The snapshot copies the current window but shares its maps: the time charged here stays in
        the live maps, while the live global occupancy is left as it was. */
    method TakeSnapshot(now: int) returns (snap: Snapshot)
      requires Accounted() && windows != [] && clock <= now && windows[|windows| - 1].start <= now
      modifies `windows, `accounts
      ensures Accounted() && windows != [] && OnlyLastCharged(old(accounts), accounts)
      ensures forall sel :: Charged(Last(accounts).ledger, sel, false)
                == Charged(Last(old(accounts)).ledger, sel, false) + Pending(active, active.Keys, sel, now, nextID)
      ensures windows[|windows| - 1].start == old(windows)[|old(windows)| - 1].start == snap.windowStart
      ensures snap.elapsed == Elapsed(snap.windowStart, now)
      ensures snap.currentGlobal == Integral(log, All, snap.windowStart, now)
      ensures CoarseShows(snap.coarse, Joined(accounts)) && ChildShows(snap.child, Joined(accounts))
    {
      ghost var accs := accounts;
      var start := windows[|windows| - 1].start;
      var global := ChargeSnapshot(now);
      BooksSameBooked(accs, accounts, active, log, clock);
      OccupancyIsIntegral(accs, active, log, clock, now, All);
      var coarse, child := Aggregate(windows, accounts);
      snap := Snapshot(start, Elapsed(start, now), global, coarse, child);
    }

    method ChargeSnapshot(now: int) returns (global: int)
      requires windows != [] && WindowsShow(windows, accounts)
      requires forall id :: id in active ==> 1 <= id <= nextID
      modifies `windows, `accounts
      ensures WindowsShow(windows, accounts) && OnlyLastCharged(old(accounts), accounts)
      ensures forall sel :: BookedTo(Last(accounts), sel) == BookedTo(Last(old(accounts)), sel)
      ensures forall sel :: Charged(Last(accounts).ledger, sel, false)
                == Charged(Last(old(accounts)).ledger, sel, false) + Pending(active, active.Keys, sel, now, nextID)
      ensures global == BookedTo(Last(old(accounts)), All) + Pending(active, active.Keys, All, now, nextID)
    {
      ghost var accs := accounts;
      var todo := active.Keys;
      global := windows[|windows| - 1].global;
      assert ShowsAt(windows, accounts, |windows| - 1);
      assert accounts == accounts[|accounts| - 1 := Last(accounts)];
      forall sel ensures Pending(active, active.Keys - todo, sel, now, nextID) == 0 {
        assert active.Keys - todo == {};
        PendingOfNone(active, sel, now, nextID);
      }
      while todo != {}
        invariant todo <= active.Keys
        invariant windows != [] && WindowsShow(windows, accounts) && OnlyLastCharged(accs, accounts)
        invariant forall sel :: BookedTo(Last(accounts), sel) == BookedTo(Last(accs), sel)
        invariant forall sel :: Charged(Last(accounts).ledger, sel, false)
                    == Charged(Last(accs).ledger, sel, false) + Pending(active, active.Keys - todo, sel, now, nextID)
        invariant global == BookedTo(Last(accs), All) + Pending(active, active.Keys - todo, All, now, nextID)
        decreases todo
      {
        var id :| id in todo;
        forall sel ensures Pending(active, active.Keys - (todo - {id}), sel, now, nextID)
                           == Pending(active, active.Keys - todo, sel, now, nextID) + DueOf(active[id], sel, now) {
          assert active.Keys - (todo - {id}) == active.Keys - todo + {id};
          PendingAdd(active, active.Keys - todo, sel, id, now, nextID);
        }
        if now > active[id].accountedAt {
          global := global + (now - active[id].accountedAt);
          ChargeShared(active[id], now - active[id].accountedAt);
        }
        todo := todo - {id};
      }
      assert active.Keys - todo == active.Keys;
    }

    /** A charge to the maps of the current window that its global occupancy does not see. */
    method ChargeShared(r: ActiveRequest, delta: int)
      requires windows != [] && WindowsShow(windows, accounts) && delta > 0
      modifies `windows, `accounts
      ensures WindowsShow(windows, accounts) && OnlyLastCharged(old(accounts), accounts)
      ensures forall sel :: BookedTo(Last(accounts), sel) == BookedTo(Last(old(accounts)), sel)
      ensures forall sel :: Charged(Last(accounts).ledger, sel, false)
                == Charged(Last(old(accounts)).ledger, sel, false) + if Picks(sel, r.qname, r.key) then delta else 0
    {
      var w := ChargeMaps(windows[|windows| - 1], r.qname, r.key, delta);
      ghost var c := Charge(r.qname, r.key, delta, false);
      WindowsShowCharge(windows, accounts, w, c);
      forall sel, booked ensures Charged(Last(accounts).ledger + [c], sel, booked)
          == Charged(Last(accounts).ledger, sel, booked) + if !booked && Picks(sel, r.qname, r.key) then delta else 0 {
        ChargedSnoc(Last(accounts).ledger, c, sel, booked);
      }
      accounts := accounts[|accounts| - 1 := Account(w.start, Last(accounts).ledger + [c])];
      windows := windows[|windows| - 1 := w];
    }

    /** The decision part of `evaluateLocked`. */
    method Decide(r: Reading)
      modifies `observeMode, `protectedZone, `candidateZone, `candidateStreak, `lastCandidateWindow,
               `lastNormalAvg, `preTriggerBaseline
      ensures Ctl() == Evaluate(old(Ctl()), r)
    {
      if !observeMode {
        if !Pressure(r) {
          lastNormalAvg := r.avg;
          return;
        }
        observeMode := true;
        preTriggerBaseline := lastNormalAvg;
        if preTriggerBaseline <= 0.0 {
          preTriggerBaseline := r.avg;
        }
      }
      if protectedZone.Some? {
        if r.avg <= preTriggerBaseline * 1.05 {
          observeMode, protectedZone, candidateZone, candidateStreak := false, None, None, 0;
          lastCandidateWindow, lastNormalAvg := 0, r.avg;
        }
        return;
      }
      if !Pressure(r) {
        observeMode, candidateZone, candidateStreak := false, None, 0;
        lastCandidateWindow, lastNormalAvg := 0, r.avg;
        return;
      }
      if r.candidate.None? {
        candidateZone, candidateStreak, lastCandidateWindow := None, 0, r.windowStart;
        return;
      }
      if r.candidate != candidateZone {
        candidateZone, candidateStreak, lastCandidateWindow := r.candidate, 1, r.windowStart;
      } else if r.windowStart != lastCandidateWindow {
        candidateStreak, lastCandidateWindow := candidateStreak + 1, r.windowStart;
      }
      if candidateStreak >= CONFIRM_WINDOWS {
        protectedZone := candidateZone;
      }
    }

    /** The window boundaries, the books and the order of evaluations allow an evaluation now. */
    ghost predicate Current(now: int)
      reads this
    {
      && Accounted() && Decided() && 0 <= clock <= now
      && windows != [] && windows[|windows| - 1].start <= now < windows[|windows| - 1].start + WINDOW
    }

    /** What an evaluation reads: the average concurrency of the current window, which is the
        integral of concurrency divided by the time elapsed, and the candidate its charges
        determine, which has at least two labels. */
    method TakeReading(now: int, cpu: real, numCPU: int) returns (r: Reading)
      requires Accounted() && windows != [] && clock <= now && windows[|windows| - 1].start <= now
      modifies `windows, `accounts
      ensures Accounted() && windows != [] && IsReading(r, log, accounts, now, cpu, numCPU)
      ensures windows[|windows| - 1].start == old(windows)[|old(windows)| - 1].start
      ensures r.candidate.Some? ==> |r.candidate.value| >= CANDIDATE_MIN_LABELS
    {
      var snap := TakeSnapshot(now);
      var candidate := SelectCandidate(snap.coarse, snap.child);
      assert CandidateOf(Joined(accounts), candidate);
      if candidate.Some? {
        CandidateFromLedger(snap.coarse, snap.child, Joined(accounts), candidate.value);
      }
      r := Reading(snap.windowStart, snap.currentGlobal as real / snap.elapsed as real, cpu, numCPU, candidate);
      SnapshotIsReading(snap, r, log, accounts, now);
    }

    method EvaluateLocked(now: int, cpu: real, numCPU: int)
      requires Current(now)
      modifies `windows, `accounts, `evals, `observeMode, `protectedZone, `candidateZone, `candidateStreak,
               `lastCandidateWindow, `lastNormalAvg, `preTriggerBaseline
      ensures Current(now)
      ensures |evals| == |old(evals)| + 1 && evals[..|old(evals)|] == old(evals)
      ensures IsReading(evals[|evals| - 1], log, accounts, now, cpu, numCPU)
    {
      var r := TakeReading(now, cpu, numCPU);
      Record(r);
    }

    method Record(r: Reading)
      requires DecidedBy(Ctl(), evals, r.windowStart)
      requires r.candidate.Some? ==> |r.candidate.value| >= CANDIDATE_MIN_LABELS
      modifies `evals, `observeMode, `protectedZone, `candidateZone, `candidateStreak, `lastCandidateWindow,
               `lastNormalAvg, `preTriggerBaseline
      ensures DecidedBy(Ctl(), evals, r.windowStart) && evals == old(evals) + [r]
    {
      DecidedNext(Ctl(), evals, r);
      Decide(r);
      evals := evals + [r];
    }

    /** An evaluation is due after a rotation, the first time, and when the interval has passed. */
    predicate EvaluationDue(now: int, rotated: bool)
      reads this
    {
      rotated || lastEvalAt == 0 || now - lastEvalAt >= if evalEvery <= 0 then EVALUATE_INTERVAL else evalEvery
    }

    method MaybeEvaluate(now: int, rotated: bool, cpu: real, numCPU: int)
      requires Current(now)
      modifies `windows, `accounts, `evals, `observeMode, `protectedZone, `candidateZone, `candidateStreak,
               `lastCandidateWindow, `lastNormalAvg, `preTriggerBaseline, `lastEvalAt
      ensures Current(now)
      ensures var due := rotated || old(lastEvalAt) == 0
                         || now - old(lastEvalAt) >= if evalEvery <= 0 then 1_000_000_000 else evalEvery;
              lastEvalAt == if due then now else old(lastEvalAt)
      ensures !old(EvaluationDue(now, rotated)) ==> evals == old(evals)
      ensures old(EvaluationDue(now, rotated)) ==>
                && |evals| == |old(evals)| + 1 && evals[..|old(evals)|] == old(evals)
                && IsReading(evals[|evals| - 1], log, accounts, now, cpu, numCPU)
    {
      if EvaluationDue(now, rotated) {
        EvaluateLocked(now, cpu, numCPU);
        lastEvalAt := now;
      }
    }

    ghost predicate RotationDue(now: int)
      reads this
    {
      windows != [] && now - windows[|windows| - 1].start >= WINDOW
    }

    /** Whether the call evaluated, and if so what it read. */
    twostate predicate EvaluatedOnce(now: int, cpu: real, numCPU: int, accs: seq<Account>, lifetimes: seq<Lifetime>)
      reads this
    {
      if old(RotationDue(now) || lastEvalAt == 0 || now - lastEvalAt >= (if evalEvery <= 0 then 1_000_000_000 else evalEvery))
      then
        && |evals| == |old(evals)| + 1 && evals[..|old(evals)|] == old(evals)
        && IsReading(evals[|evals| - 1], lifetimes, accs, now, cpu, numCPU)
      else evals == old(evals)
    }

    /** Admits a request unless its name lies in the protected zone, after bringing the windows and
        the decision up to date. An admitted request gets a fresh ticket and starts its lifetime
        now, charged to the coarse key of its name; a refused one leaves no trace in the log. */
    method TryEnter(qname: Name, forwardZone: Option<Name>, now: int, cpu: real, numCPU: int)
      returns (allowed: bool, id: nat)
      requires Valid() && clock <= now
      modifies this
      ensures Valid() && clock == now
      ensures allowed <==> !(protectedZone.Some? && IsSubDomain(protectedZone.value, qname))
      ensures allowed ==>
                && id == nextID == old(nextID) + 1
                && log == old(log) + [Lifetime(qname, CoarseKey(qname, forwardZone, suffixes), now, None)]
                && IsChargedTo(qname, forwardZone, suffixes, log[|log| - 1].key)
                && active.Keys == old(active).Keys + {id}
      ensures !allowed ==> id == 0 && nextID == old(nextID) && log == old(log) && active.Keys == old(active).Keys
      ensures EvaluatedOnce(now, cpu, numCPU, accounts, old(log))
    {
      BringUpToDate(now, cpu, numCPU);
      var key := CoarseKey(qname, forwardZone, suffixes);
      allowed, id := AdmitOutsideZone(qname, key, now);
      CoarseKeyIsExact(qname, forwardZone, suffixes, key);
    }

    method AdmitOutsideZone(qname: Name, key: Name, now: int) returns (allowed: bool, id: nat)
      requires Current(now)
      modifies `nextID, `active, `log, `clock
      ensures Current(now) && clock == now
      ensures allowed <==> !(protectedZone.Some? && IsSubDomain(protectedZone.value, qname))
      ensures allowed ==>
                && id == nextID == old(nextID) + 1
                && log == old(log) + [Lifetime(qname, key, now, None)] && active.Keys == old(active).Keys + {id}
      ensures !allowed ==> id == 0 && nextID == old(nextID) && log == old(log) && active == old(active)
    {
      if protectedZone.Some? && IsSubDomain(protectedZone.value, qname) {
        MoveClock(now);
        return false, 0;
      }
      id := Admit(qname, key, now);
      allowed := true;
    }

    method BringUpToDate(now: int, cpu: real, numCPU: int)
      requires Valid() && clock <= now
      modifies this
      ensures Current(now) && log == old(log) && nextID == old(nextID) && active.Keys == old(active).Keys
      ensures EvaluatedOnce(now, cpu, numCPU, accounts, log)
    {
      var rotated := Rotate(now);
      assert Current(now) && (rotated <==> old(RotationDue(now)));
      MaybeEvaluate(now, rotated, cpu, numCPU);
    }

    ghost method MoveClock(now: int)
      requires Current(now)
      modifies `clock
      ensures Current(now) && clock == now
    {
      BooksLater(accounts, active, log, clock, now);
      clock := now;
    }

    method Admit(qname: Name, key: Name, now: int) returns (id: nat)
      requires Current(now)
      modifies `nextID, `active, `log, `clock
      ensures Current(now) && clock == now
      ensures id == nextID == old(nextID) + 1
      ensures log == old(log) + [Lifetime(qname, key, now, None)]
      ensures active == old(active)[id := ActiveRequest(qname, key, now, now)]
    {
      nextID := nextID + 1;
      id := nextID;
      var r := ActiveRequest(qname, key, now, now);
      BooksEnter(accounts, active, log, clock, now, r);
      active := active[id := r];
      log := log + [Lifetime(qname, key, now, None)];
      clock := now;
    }

    /** Ends the lifetime of the request holding the ticket, if it is still running; ticket 0 stands
        for no request. */
    method Release(id: nat, now: int, cpu: real, numCPU: int)
      requires Valid() && clock <= now
      modifies this
      ensures Valid()
      ensures id == 0 ==> unchanged(this)
      ensures id != 0 ==> Released(id, now, cpu, numCPU)
    {
      if id != 0 {
        ReleaseTicket(id, now, cpu, numCPU);
      }
    }

    /** The whole effect of a release on the log and the active table. */
    twostate predicate Released(id: nat, now: int, cpu: real, numCPU: int)
      reads this
    {
      && clock == now && nextID == old(nextID)
      && EvaluatedOnce(now, cpu, numCPU, accounts, log)
      && active.Keys == old(active).Keys - {id}
      && (id !in old(active) ==> log == old(log))
      && (id in old(active) ==> 1 <= id <= |old(log)| && log == Closed(old(log), id, now))
    }

    method ReleaseTicket(id: nat, now: int, cpu: real, numCPU: int)
      requires Valid() && clock <= now
      modifies this
      ensures Valid() && Released(id, now, cpu, numCPU)
    {
      var rotated := RotateAndEnd(id, now);
      MaybeEvaluate(now, rotated, cpu, numCPU);
    }

    method RotateAndEnd(id: nat, now: int) returns (rotated: bool)
      requires Valid() && clock <= now
      modifies `windows, `accounts, `active, `log, `clock
      ensures Current(now) && clock == now && (rotated <==> old(RotationDue(now)))
      ensures active.Keys == old(active).Keys - {id}
      ensures id !in old(active) ==> log == old(log)
      ensures id in old(active) ==> 1 <= id <= |old(log)| && log == Closed(old(log), id, now)
    {
      rotated := Rotate(now);
      EndLifetime(id, now);
    }

    method EndLifetime(id: nat, now: int)
      requires Current(now)
      modifies `windows, `accounts, `active, `log, `clock
      ensures Current(now) && clock == now && active.Keys == old(active).Keys - {id}
      ensures id in old(active) ==> 1 <= id <= |old(log)| && log == Closed(old(log), id, now)
      ensures id !in old(active) ==> log == old(log)
    {
      if id in active {
        FinishRequest(id, now);
      } else {
        MoveClock(now);
      }
    }

    method FinishRequest(id: nat, now: int)
      requires Current(now) && id in active
      modifies `windows, `accounts, `active, `log, `clock
      ensures Current(now) && clock == now && active == old(active) - {id}
      ensures 1 <= id <= |old(log)| && log == Closed(old(log), id, now)
    {
      ghost var accs := accounts;
      AddSampleSegment(active[id], now);
      BooksRelease(accs, active, log, clock, now, id, Last(accounts));
      assert accounts == accs[|accs| - 1 := Last(accounts)];
      log := Closed(log, id, now);
      active := active - {id};
      clock := now;
    }
  }
}
