/** The reference against which the controller's incremental accounting is proved: the time
    integral of the number of running requests. A request that is still running has no end yet. */
module HotZoneAccounts {
  import opened Names
  import opened HotZoneLedger

  /** Times are nanoseconds since the zero time; 5 s windows, three of them retained. */
  const WINDOW: int := 5_000_000_000
  const RETAINED: nat := 3

  datatype Lifetime = Lifetime(qname: Name, key: Name, from: int, until: Option<int>)

  datatype ActiveRequest = ActiveRequest(qname: Name, key: Name, startedAt: int, accountedAt: int)

  type ActiveTable = map<nat, ActiveRequest>

  function Max(a: int, b: int): int {
    if a < b then b else a
  }

  /** How long a request runs between two instants. */
  function Overlap(l: Lifetime, a: int, b: int): int {
    var stop := if l.until.Some? && l.until.value < b then l.until.value else b;
    Max(0, stop - Max(l.from, a))
  }

  function OverlapOf(l: Lifetime, sel: Selection, a: int, b: int): int {
    if Picks(sel, l.qname, l.key) then Overlap(l, a, b) else 0
  }

  /** The integral of the selected requests' concurrency between two instants: the summed overlap
      of their lifetimes. */
  function Integral(log: seq<Lifetime>, sel: Selection, a: int, b: int): int {
    if log == [] then 0 else Integral(log[..|log| - 1], sel, a, b) + OverlapOf(log[|log| - 1], sel, a, b)
  }

  lemma {:induction false} IntegralSplit(log: seq<Lifetime>, sel: Selection, a: int, b: int, c: int)
    requires a <= b <= c
    ensures Integral(log, sel, a, c) == Integral(log, sel, a, b) + Integral(log, sel, b, c)
  {
    if log == [] {
    } else {
      IntegralSplit(log[..|log| - 1], sel, a, b, c);
    }
  }

  lemma {:induction false} IntegralUpdate(log: seq<Lifetime>, sel: Selection, i: nat, l: Lifetime, a: int, b: int)
    requires i < |log|
    ensures Integral(log[i := l], sel, a, b)
            == Integral(log, sel, a, b) - OverlapOf(log[i], sel, a, b) + OverlapOf(l, sel, a, b)
  {
    var last := |log| - 1;
    if i == last {
      assert log[i := l][..last] == log[..last];
    } else {
      IntegralUpdate(log[..last], sel, i, l, a, b);
      assert log[i := l][..last] == log[..last][i := l];
    }
  }

  lemma {:induction false} IntegralEmptySpan(log: seq<Lifetime>, sel: Selection, a: int)
    ensures Integral(log, sel, a, a) == 0
  {
    if log == [] {
    } else {
      IntegralEmptySpan(log[..|log| - 1], sel, a);
    }
  }

  /** A request that has started and not ended. */
  predicate RunsAt(l: Lifetime, t: int) {
    l.from <= t && (l.until.None? || t < l.until.value)
  }

  /** How many of the selected requests run at an instant. */
  function Concurrency(log: seq<Lifetime>, sel: Selection, t: int): nat {
    if log == [] then 0
    else
      var l := log[|log| - 1];
      Concurrency(log[..|log| - 1], sel, t) + if Picks(sel, l.qname, l.key) && RunsAt(l, t) then 1 else 0
  }

  /** The concurrency at each nanosecond from one instant up to another, added up. */
  function SumOfConcurrency(log: seq<Lifetime>, sel: Selection, a: int, b: int): nat
    requires a <= b
    decreases b - a
  {
    if a == b then 0 else SumOfConcurrency(log, sel, a, b - 1) + Concurrency(log, sel, b - 1)
  }

  lemma {:induction false} IntegralOfInstant(log: seq<Lifetime>, sel: Selection, t: int)
    ensures Integral(log, sel, t, t + 1) == Concurrency(log, sel, t)
  {
    if log == [] {
    } else {
      IntegralOfInstant(log[..|log| - 1], sel, t);
    }
  }

  /** The summed overlaps are the integral of concurrency over time. */
  lemma {:induction false} IntegralIsOfConcurrency(log: seq<Lifetime>, sel: Selection, a: int, b: int)
    requires a <= b
    ensures Integral(log, sel, a, b) == SumOfConcurrency(log, sel, a, b)
    decreases b - a
  {
    if a == b {
      IntegralEmptySpan(log, sel, a);
    } else {
      IntegralIsOfConcurrency(log, sel, a, b - 1);
      IntegralSplit(log, sel, a, b - 1, b);
      IntegralOfInstant(log, sel, b - 1);
    }
  }

  /** What finished requests contribute after an instant. */
  function FinishedPart(l: Lifetime, sel: Selection, s: int): int {
    if l.until.Some? && Picks(sel, l.qname, l.key) then Max(0, l.until.value - Max(l.from, s)) else 0
  }

  function Finished(log: seq<Lifetime>, sel: Selection, s: int): int {
    if log == [] then 0 else Finished(log[..|log| - 1], sel, s) + FinishedPart(log[|log| - 1], sel, s)
  }

  lemma {:induction false} FinishedUpdate(log: seq<Lifetime>, sel: Selection, i: nat, l: Lifetime, s: int)
    requires i < |log|
    ensures Finished(log[i := l], sel, s) == Finished(log, sel, s) - FinishedPart(log[i], sel, s) + FinishedPart(l, sel, s)
  {
    var last := |log| - 1;
    if i == last {
      assert log[i := l][..last] == log[..last];
    } else {
      FinishedUpdate(log[..last], sel, i, l, s);
      assert log[i := l][..last] == log[..last][i := l];
    }
  }

  lemma {:induction false} NothingFinishedAfter(log: seq<Lifetime>, sel: Selection, s: int)
    requires forall i :: 0 <= i < |log| && log[i].until.Some? ==> log[i].until.value <= s
    ensures Finished(log, sel, s) == 0
  {
    if log == [] {
    } else {
      NothingFinishedAfter(log[..|log| - 1], sel, s);
    }
  }

  // ---- Unaccounted time --------------------------------------------------------------------

  function Due(r: ActiveRequest, end: int): int {
    Max(0, end - r.accountedAt)
  }

  function DueOf(r: ActiveRequest, sel: Selection, end: int): int {
    if Picks(sel, r.qname, r.key) then Due(r, end) else 0
  }

  /** Time of the selected requests, among `ids` in 1..n, that is not yet accounted at `end`. */
  function Pending(active: ActiveTable, ids: set<nat>, sel: Selection, end: int, n: nat): int {
    if n == 0 then 0
    else Pending(active, ids, sel, end, n - 1) + if n in ids && n in active then DueOf(active[n], sel, end) else 0
  }

  lemma {:induction false} PendingAdd(active: ActiveTable, ids: set<nat>, sel: Selection, id: nat, end: int, n: nat)
    requires id !in ids && id in active && 0 < id
    ensures Pending(active, ids + {id}, sel, end, n)
            == Pending(active, ids, sel, end, n) + if id <= n then DueOf(active[id], sel, end) else 0
  {
    if n == 0 {
    } else {
      PendingAdd(active, ids, sel, id, end, n - 1);
    }
  }

  lemma {:induction false} PendingOfNone(active: ActiveTable, sel: Selection, end: int, n: nat)
    ensures Pending(active, {}, sel, end, n) == 0
  {
    if n == 0 {
    } else {
      PendingOfNone(active, sel, end, n - 1);
    }
  }

  /** An entry of the active table describes a running request, accounted up to the start of the
      current window or, if it started later, up to its own start. */
  predicate TracksOne(r: ActiveRequest, l: Lifetime, s: int) {
    r.qname == l.qname && r.key == l.key && r.startedAt == l.from && r.accountedAt == Max(l.from, s)
  }

  /** The active table lists exactly the running requests; nothing happened after `clock`. */
  ghost predicate Tracks(active: ActiveTable, log: seq<Lifetime>, s: int, clock: int) {
    && (forall id :: id in active <==> 1 <= id <= |log| && log[id - 1].until.None?)
    && (forall id :: id in active ==> TracksOne(active[id], log[id - 1], s))
    && (forall i :: 0 <= i < |log| ==> log[i].from <= clock)
    && (forall i :: 0 <= i < |log| && log[i].until.Some? ==> log[i].from <= log[i].until.value <= clock)
  }

  /** Finished time plus unaccounted time is the whole integral. */
  lemma {:induction false} FinishedPlusPending(active: ActiveTable, log: seq<Lifetime>, sel: Selection,
                                               s: int, clock: int, end: int, n: nat)
    requires Tracks(active, log, s, clock) && clock <= end && s <= end && n <= |log|
    ensures Finished(log[..n], sel, s) + Pending(active, active.Keys, sel, end, n) == Integral(log[..n], sel, s, end)
  {
    if n == 0 {
    } else {
      FinishedPlusPending(active, log, sel, s, clock, end, n - 1);
      assert log[..n][..n - 1] == log[..n - 1] && log[..n][n - 1] == log[n - 1];
      assert n in active.Keys <==> n in active;
      assert n in active <==> log[n - 1].until.None?;
    }
  }

  // ---- The books of the controller ---------------------------------------------------------

  /** The start of a window and the charges it has received. */
  datatype Account = Account(start: int, ledger: seq<Charge>)

  predicate Contiguous(accs: seq<Account>) {
    |accs| <= RETAINED && forall i :: 0 <= i < |accs| ==> accs[i].start == accs[0].start + i * WINDOW
  }

  function Last(accs: seq<Account>): Account
    requires accs != []
  {
    accs[|accs| - 1]
  }

  function BookedTo(acc: Account, sel: Selection): int {
    Charged(acc.ledger, sel, true)
  }

  /** A window that has ended is booked exactly the integral over its five seconds. */
  ghost predicate Settled(acc: Account, log: seq<Lifetime>) {
    forall sel :: BookedTo(acc, sel) == Integral(log, sel, acc.start, acc.start + WINDOW)
  }

  /** The current window is booked what finished requests spent in it. */
  ghost predicate Running(acc: Account, log: seq<Lifetime>) {
    forall sel :: BookedTo(acc, sel) == Finished(log, sel, acc.start)
  }

  ghost predicate PastSettled(accs: seq<Account>, log: seq<Lifetime>) {
    forall i {:trigger Settled(accs[i], log)} :: 0 <= i < |accs| - 1 ==> Settled(accs[i], log)
  }

  ghost predicate Books(accs: seq<Account>, active: ActiveTable, log: seq<Lifetime>, clock: int) {
    && accs != [] && Contiguous(accs)
    && Tracks(active, log, Last(accs).start, clock)
    && Running(Last(accs), log)
    && PastSettled(accs, log)
  }

  /** The accounting theorem, for all requests, for those of any coarse key and for those of any
      direct child. At any later instant inside the current window, every ended window is booked
      the integral of concurrency over it; what is booked to the current window plus the
      unaccounted time of the active requests is the integral up to now; and the windows together
      account for the whole retained span, with nothing lost or counted twice at a boundary. */
  lemma OccupancyIsIntegral(accs: seq<Account>, active: ActiveTable, log: seq<Lifetime>, clock: int,
                            now: int, sel: Selection)
    requires Books(accs, active, log, clock) && clock <= now && Last(accs).start <= now
    ensures forall i :: 0 <= i < |accs| - 1 ==>
              BookedTo(accs[i], sel) == Integral(log, sel, accs[i].start, accs[i].start + WINDOW)
    ensures BookedTo(Last(accs), sel) + Pending(active, active.Keys, sel, now, |log|)
            == Integral(log, sel, Last(accs).start, now)
    ensures SumBooked(accs, sel) + Pending(active, active.Keys, sel, now, |log|)
            == Integral(log, sel, accs[0].start, now)
  {
    FinishedPlusPending(active, log, sel, Last(accs).start, clock, now, |log|);
    assert log[..|log|] == log;
    forall i | 0 <= i < |accs| - 1
      ensures BookedTo(accs[i], sel) == Integral(log, sel, accs[i].start, accs[i].start + WINDOW)
    {
      assert Settled(accs[i], log);
    }
    SumOfPast(accs, log, sel, |accs| - 1);
    assert accs == accs[..|accs| - 1] + [Last(accs)];
    IntegralSplit(log, sel, accs[0].start, Last(accs).start, now);
  }

  function SumBooked(accs: seq<Account>, sel: Selection): int {
    if accs == [] then 0 else SumBooked(accs[..|accs| - 1], sel) + BookedTo(accs[|accs| - 1], sel)
  }

  lemma {:induction false} SumOfPast(accs: seq<Account>, log: seq<Lifetime>, sel: Selection, n: nat)
    requires Contiguous(accs) && PastSettled(accs, log) && n < |accs|
    ensures accs[0].start <= accs[n].start
    ensures SumBooked(accs[..n], sel) == Integral(log, sel, accs[0].start, accs[n].start)
  {
    if n == 0 {
      IntegralEmptySpan(log, sel, accs[0].start);
    } else {
      SumOfPast(accs, log, sel, n - 1);
      assert Settled(accs[n - 1], log);
      assert accs[..n][..n - 1] == accs[..n - 1];
      IntegralSplit(log, sel, accs[0].start, accs[n - 1].start, accs[n].start);
    }
  }

  // ---- How the operations keep the books ---------------------------------------------------

  function LastThree<T>(ws: seq<T>): seq<T> {
    if |ws| > RETAINED then ws[|ws| - RETAINED..] else ws
  }

  lemma LastThreeAreTheEnd<T>(ws: seq<T>, i: nat)
    requires i < |LastThree(ws)|
    ensures |LastThree(ws)| == if |ws| < 3 then |ws| else 3
    ensures LastThree(ws)[i] == ws[|ws| - |LastThree(ws)| + i]
  {
  }

  lemma PastEndsBeforeLast(accs: seq<Account>, i: nat)
    requires Contiguous(accs) && i < |accs| - 1
    ensures accs[i].start + WINDOW <= Last(accs).start
  {
  }

  /** Dropping old windows keeps the rest contiguous and settled. */
  lemma LastThreeSettled(all: seq<Account>, log: seq<Lifetime>)
    requires 1 <= |all| <= RETAINED + 1
    requires forall i :: 0 <= i < |all| ==> all[i].start == all[0].start + i * WINDOW
    requires PastSettled(all, log)
    ensures LastThree(all) != [] && Contiguous(LastThree(all)) && PastSettled(LastThree(all), log)
    ensures Last(LastThree(all)) == all[|all| - 1]
  {
    var kept := LastThree(all);
    var drop := |all| - |kept|;
    forall i | 0 <= i < |kept| - 1 ensures Settled(kept[i], log) {
      assert kept[i] == all[i + drop];
    }
  }

  lemma RotatedWindows(accs: seq<Account>, log: seq<Lifetime>, closed: Account)
    requires accs != [] && Contiguous(accs) && PastSettled(accs, log)
    requires closed.start == Last(accs).start && Settled(closed, log)
    ensures var accs' := LastThree(accs[|accs| - 1 := closed] + [Account(closed.start + WINDOW, [])]);
            && accs' != [] && Contiguous(accs') && PastSettled(accs', log)
            && Last(accs') == Account(closed.start + WINDOW, [])
  {
    var all := accs[|accs| - 1 := closed] + [Account(closed.start + WINDOW, [])];
    assert forall i :: 0 <= i < |accs| ==> all[i].start == accs[i].start;
    forall i | 0 <= i < |all| - 1 ensures Settled(all[i], log) {
      assert all[i] == if i < |accs| - 1 then accs[i] else closed;
    }
    LastThreeSettled(all, log);
  }

  lemma TracksNextWindow(active: ActiveTable, active': ActiveTable, log: seq<Lifetime>, s: int, clock: int, end: int)
    requires Tracks(active, log, s, clock) && clock <= end
    requires active'.Keys == active.Keys
    requires forall id :: id in active ==> active'[id] == active[id].(accountedAt := end)
    ensures Tracks(active', log, end, clock)
  {
    forall id ensures id in active' <==> id in active {
      assert id in active'.Keys <==> id in active.Keys;
    }
  }

  /** A rotation: the current window is charged for every active request up to its end, and a new
      window starts there. */
  lemma BooksRotate(accs: seq<Account>, active: ActiveTable, log: seq<Lifetime>, clock: int,
                    closed: Account, active': ActiveTable)
    requires Books(accs, active, log, clock)
    requires clock <= Last(accs).start + WINDOW
    requires closed.start == Last(accs).start
    requires forall sel :: BookedTo(closed, sel)
               == BookedTo(Last(accs), sel) + Pending(active, active.Keys, sel, closed.start + WINDOW, |log|)
    requires active'.Keys == active.Keys
    requires forall id :: id in active ==> active'[id] == active[id].(accountedAt := closed.start + WINDOW)
    ensures Books(LastThree(accs[|accs| - 1 := closed] + [Account(closed.start + WINDOW, [])]), active', log, clock)
  {
    var end := closed.start + WINDOW;
    forall sel
      ensures BookedTo(closed, sel) == Integral(log, sel, closed.start, end)
      ensures Finished(log, sel, end) == 0
    {
      FinishedPlusPending(active, log, sel, closed.start, clock, end, |log|);
      assert log[..|log|] == log;
      NothingFinishedAfter(log, sel, end);
    }
    RotatedWindows(accs, log, closed);
    TracksNextWindow(active, active', log, closed.start, clock, end);
  }

  lemma PastUnaffected(accs: seq<Account>, log: seq<Lifetime>, log': seq<Lifetime>)
    requires accs != [] && Contiguous(accs) && PastSettled(accs, log)
    requires forall sel, a, b :: b <= Last(accs).start ==> Integral(log', sel, a, b) == Integral(log, sel, a, b)
    ensures PastSettled(accs, log')
  {
    forall i | 0 <= i < |accs| - 1 ensures Settled(accs[i], log') {
      assert Settled(accs[i], log);
      PastEndsBeforeLast(accs, i);
    }
  }

  /** A request that starts now joins the books with nothing to account. */
  lemma BooksEnter(accs: seq<Account>, active: ActiveTable, log: seq<Lifetime>, clock: int, now: int, r: ActiveRequest)
    requires Books(accs, active, log, clock) && clock <= now && Last(accs).start <= now
    requires r.startedAt == r.accountedAt == now
    ensures Books(accs, active[|log| + 1 := r], log + [Lifetime(r.qname, r.key, now, None)], now)
  {
    var log' := log + [Lifetime(r.qname, r.key, now, None)];
    assert log'[..|log|] == log;
    PastUnaffected(accs, log, log');
    assert Tracks(active[|log| + 1 := r], log', Last(accs).start, now);
  }

  lemma TracksRelease(active: ActiveTable, log: seq<Lifetime>, s: int, clock: int, now: int, id: nat)
    requires Tracks(active, log, s, clock) && clock <= now && id in active
    ensures Tracks(active - {id}, log[id - 1 := log[id - 1].(until := Some(now))], s, now)
  {
  }

  /** A request that ends now is booked its unaccounted time and leaves the table. */
  lemma BooksRelease(accs: seq<Account>, active: ActiveTable, log: seq<Lifetime>, clock: int, now: int, id: nat, acc: Account)
    requires Books(accs, active, log, clock) && clock <= now && Last(accs).start <= now
    requires id in active && acc.start == Last(accs).start
    requires forall sel :: BookedTo(acc, sel) == BookedTo(Last(accs), sel) + DueOf(active[id], sel, now)
    ensures Books(accs[|accs| - 1 := acc], active - {id}, log[id - 1 := log[id - 1].(until := Some(now))], now)
  {
    var l := log[id - 1].(until := Some(now));
    var log' := log[id - 1 := l];
    TracksRelease(active, log, acc.start, clock, now, id);
    forall sel, a, b | b <= acc.start ensures Integral(log', sel, a, b) == Integral(log, sel, a, b) {
      IntegralUpdate(log, sel, id - 1, l, a, b);
    }
    PastUnaffected(accs, log, log');
    var accs' := accs[|accs| - 1 := acc];
    forall i | 0 <= i < |accs'| - 1 ensures Settled(accs'[i], log') {
      assert accs'[i] == accs[i];
    }
    forall sel ensures BookedTo(acc, sel) == Finished(log', sel, acc.start) {
      FinishedUpdate(log, sel, id - 1, l, acc.start);
      assert TracksOne(active[id], log[id - 1], acc.start);
    }
  }

  lemma BooksLater(accs: seq<Account>, active: ActiveTable, log: seq<Lifetime>, clock: int, now: int)
    requires Books(accs, active, log, clock) && clock <= now
    ensures Books(accs, active, log, now)
  {
  }
}
