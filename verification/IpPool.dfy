/** Choosing the best and the second-best of a name server's addresses by score. */
module IpPool {
  import opened Sorting
  import opened IpQuality

  datatype Entry = Entry(ip: string, score: int)

  function ScoreKey(e: Entry): int {
    e.score
  }

  /** The two lowest of some entries, at two different places. */
  ghost predicate TwoLowest(entries: seq<Entry>, i: nat, j: nat) {
    && i < |entries| && j < |entries| && i != j
    && entries[i].score <= entries[j].score
    && forall k :: 0 <= k < |entries| && k != i && k != j ==> entries[j].score <= entries[k].score
  }

  function Without<T>(s: seq<T>, i: nat): seq<T>
    requires i < |s|
  {
    s[..i] + s[i + 1..]
  }

  lemma WithoutContents<T>(s: seq<T>, i: nat)
    requires i < |s|
    ensures multiset(Without(s, i)) == multiset(s) - multiset{s[i]}
  {
    assert s == s[..i] + [s[i]] + s[i + 1..];
  }

  /** The first of a sorted permutation is a lowest entry of what was sorted. */
  lemma LowestOf(entries: seq<Entry>, sorted: seq<Entry>) returns (i: nat)
    requires sorted != [] && SortedBy(sorted, ScoreKey) && multiset(sorted) == multiset(entries)
    ensures i < |entries| && entries[i] == sorted[0]
    ensures multiset(Without(entries, i)) == multiset(sorted[1..])
    ensures forall k :: 0 <= k < |entries| ==> entries[i].score <= entries[k].score
  {
    assert sorted[0] in multiset(entries);
    i :| 0 <= i < |entries| && entries[i] == sorted[0];
    WithoutContents(entries, i);
    assert sorted == [sorted[0]] + sorted[1..];
    forall k | 0 <= k < |entries| ensures entries[i].score <= entries[k].score {
      assert entries[k] in multiset(sorted);
      var m :| 0 <= m < |sorted| && sorted[m] == entries[k];
      assert m > 0 ==> ScoreKey(sorted[0]) <= ScoreKey(sorted[m]);
    }
  }

  lemma TwoLowestOf(entries: seq<Entry>, sorted: seq<Entry>) returns (i: nat, j: nat)
    requires |sorted| > 1 && SortedBy(sorted, ScoreKey) && multiset(sorted) == multiset(entries)
    ensures TwoLowest(entries, i, j) && entries[i] == sorted[0] && entries[j] == sorted[1]
  {
    i := LowestOf(entries, sorted);
    var rest := Without(entries, i);
    var m := LowestOf(rest, sorted[1..]);
    j := if m < i then m else m + 1;
    forall k | 0 <= k < |entries| && k != i && k != j ensures entries[j].score <= entries[k].score {
      assert entries[k] == rest[if k < i then k else k - 1];
    }
  }

  /** What a choice among scored addresses must be: the two at two places that no third one beats. */
  ghost predicate IsChoice(entries: seq<Entry>, best: string, second: string) {
    && (entries == [] ==> best == "" && second == "")
    && (|entries| == 1 ==> best == entries[0].ip && second == "")
    && (|entries| > 1 ==> exists i, j :: IsChoiceAt(entries, best, second, i, j))
  }

  ghost predicate IsChoiceAt(entries: seq<Entry>, best: string, second: string, i: nat, j: nat) {
    TwoLowest(entries, i, j) && best == entries[i].ip && second == entries[j].ip
  }

  method Pick(entries: seq<Entry>) returns (best: string, second: string)
    ensures IsChoice(entries, best, second)
  {
    var sorted := Sort(entries, ScoreKey);
    best, second := "", "";
    SortedLength(sorted, entries);
    if |sorted| > 0 {
      best := sorted[0].ip;
    }
    if |sorted| > 1 {
      second := sorted[1].ip;
    }
    Choice(entries, sorted, best, second);
  }

  lemma SortedLength(a: seq<Entry>, b: seq<Entry>)
    requires multiset(a) == multiset(b)
    ensures |a| == |b|
  {
    assert |a| == |multiset(a)| == |multiset(b)| == |b|;
  }

  lemma Choice(entries: seq<Entry>, sorted: seq<Entry>, best: string, second: string)
    requires |sorted| == |entries| && SortedBy(sorted, ScoreKey) && multiset(sorted) == multiset(entries)
    requires best == if |sorted| > 0 then sorted[0].ip else ""
    requires second == if |sorted| > 1 then sorted[1].ip else ""
    ensures IsChoice(entries, best, second)
  {
    if |sorted| == 1 {
      var i := LowestOf(entries, sorted);
    } else if |sorted| > 1 {
      var i, j := TwoLowestOf(entries, sorted);
      assert IsChoiceAt(entries, best, second, i, j);
    }
  }

  // ---- SUSPECT addresses are a last resort --------------------------------------------------

  ghost predicate IsSafe(reports: seq<Report>) {
    forall x :: x in Latencies(reports) ==> x <= SAFE_LATENCY
  }

  ghost predicate IsSuspect(reports: seq<Report>) {
    Replay(reports).health == Suspect
  }

  ghost predicate ScoredAt(entries: seq<Entry>, seen: seq<seq<Report>>, k: nat)
    requires k < |entries| == |seen|
  {
    entries[k].score == ScoreOf(seen[k]) && IsSafe(seen[k])
  }

  /** Each entry was scored by what had been reported about its address when it was read. The reads
      may be made at different times: nothing relates what is seen at different places. */
  ghost predicate AreScored(entries: seq<Entry>, seen: seq<seq<Report>>) {
    && |entries| == |seen|
    && forall k: nat {:trigger ScoredAt(entries, seen, k)} :: k < |entries| ==> ScoredAt(entries, seen, k)
  }

  lemma SuspectLosesAt(entries: seq<Entry>, seen: seq<seq<Report>>, a: nat, b: nat)
    requires AreScored(entries, seen) && a < |entries| && b < |entries|
    requires !IsSuspect(seen[a]) && IsSuspect(seen[b])
    ensures entries[a].score < entries[b].score
  {
    assert ScoredAt(entries, seen, a) && ScoredAt(entries, seen, b);
    SuspectScoresWorst(seen[a], seen[b]);
  }

  /** Which of two places the choice was made at; the second is absent with one entry. */
  ghost predicate ChosenAt(entries: seq<Entry>, best: string, second: string, i: nat, j: nat) {
    if |entries| == 1 then i == 0 && best == entries[0].ip else IsChoiceAt(entries, best, second, i, j)
  }

  /** SUSPECT addresses are a last resort. With no latency above the safe one, the place chosen first
      was read as SUSPECT only when every place was ... */
  lemma SuspectIsLastResort(entries: seq<Entry>, seen: seq<seq<Report>>, best: string, second: string,
                            i: nat, j: nat, k: nat)
    requires AreScored(entries, seen) && ChosenAt(entries, best, second, i, j) && k < |entries|
    requires IsSuspect(seen[i])
    ensures IsSuspect(seen[k])
  {
    if !IsSuspect(seen[k]) {
      SuspectLosesAt(entries, seen, k, i);
    }
  }

  /** ... and the place chosen second only when at most one place was not. */
  lemma SuspectIsNextToLastResort(entries: seq<Entry>, seen: seq<seq<Report>>, best: string, second: string,
                                  i: nat, j: nat, k: nat)
    requires AreScored(entries, seen) && IsChoiceAt(entries, best, second, i, j) && k < |entries| && k != i
    requires IsSuspect(seen[j])
    ensures IsSuspect(seen[k])
  {
    if !IsSuspect(seen[k]) {
      SuspectLosesAt(entries, seen, k, j);
    }
  }

  // ---- The pool -----------------------------------------------------------------------------

  function Members(ips: seq<string>): set<string> {
    set ip | ip in ips
  }

  lemma MembersNext(ips: seq<string>, n: nat)
    requires n < |ips|
    ensures Members(ips[..n + 1]) == Members(ips[..n]) + {ips[n]}
  {
    assert ips[..n + 1] == ips[..n] + [ips[n]];
  }

  class Pool {
    var pool: map<string, Record>

    ghost predicate Valid()
      reads this, pool.Values, set r | r in pool.Values :: r.samples
    {
      forall ip :: ip in pool ==> pool[ip].Valid()
    }

    /** What has been reported about an address; nothing for one not in the pool. */
    ghost function ReportsOf(ip: string): seq<Report>
      reads this, pool.Values
    {
      if ip in pool then pool[ip].reports else []
    }

    ghost predicate HasScore(entry: Entry)
      reads this, pool.Values
    {
      entry.score == ScoreOf(ReportsOf(entry.ip))
    }

    /** The entries are the addresses in order, each with its score. */
    ghost predicate AreEntries(ips: seq<string>, entries: seq<Entry>)
      reads this, pool.Values
    {
      && |entries| == |ips|
      && forall k: nat {:trigger EntryAt(ips, entries, k)} :: k < |ips| ==> EntryAt(ips, entries, k)
    }

    ghost predicate EntryAt(ips: seq<string>, entries: seq<Entry>, k: nat)
      requires k < |ips| == |entries|
      reads this, pool.Values
    {
      entries[k].ip == ips[k] && HasScore(entries[k])
    }

    lemma EntryAdded(ips: seq<string>, entries: seq<Entry>, n: nat, entry: Entry)
      requires n < |ips| && AreEntries(ips[..n], entries) && entry.ip == ips[n] && HasScore(entry)
      ensures AreEntries(ips[..n + 1], entries + [entry])
      ensures Members(ips[..n + 1]) == Members(ips[..n]) + {ips[n]}
    {
      MembersNext(ips, n);
      var longer, more := ips[..n + 1], entries + [entry];
      forall k: nat | k <= n ensures EntryAt(longer, more, k) {
        if k < n {
          assert EntryAt(ips[..n], entries, k);
        }
      }
    }

    /** Records stay where they are, and those that join have nothing reported to them. */
    twostate predicate Grown()
      reads this, pool.Values
    {
      forall a :: (a in old(pool) ==> a in pool && pool[a] == old(pool[a]))
               && (a in pool && a !in old(pool) ==> pool[a].reports == [])
    }

    constructor ()
      ensures Valid() && pool == map[]
    {
      pool := map[];
    }

    method GetOrCreate(ip: string) returns (r: Record)
      requires Valid()
      modifies this
      ensures Valid() && pool.Keys == old(pool.Keys) + {ip} && r == pool[ip]
      ensures Grown()
    {
      if ip in pool {
        r := pool[ip];
      } else {
        r := new Record();
        pool := pool[ip := r];
      }
    }

    method ScoreOne(ip: string, ghost ips: seq<string>, ghost entries: seq<Entry>) returns (entry: Entry)
      requires Valid() && AreEntries(ips, entries)
      modifies this
      ensures Valid() && AreEntries(ips, entries) && pool.Keys == old(pool.Keys) + {ip}
      ensures Grown()
      ensures entry.ip == ip && HasScore(entry)
    {
      var r := GetOrCreate(ip);
      var score := r.GetScore();
      assert r.reports == ReportsOf(ip);
      entry := Entry(ip, score);
      forall k: nat | k < |ips| ensures EntryAt(ips, entries, k) {
        assert old(EntryAt(ips, entries, k));
      }
    }

    /** The entries to rank; candidates not seen before join the pool with an empty record. */
    method ScoreAll(ips: seq<string>) returns (entries: seq<Entry>)
      requires Valid()
      modifies this
      ensures Valid() && AreEntries(ips, entries) && pool.Keys == old(pool.Keys) + Members(ips)
      ensures Grown()
    {
      entries := [];
      for n := 0 to |ips|
        invariant Valid() && Grown() && AreEntries(ips[..n], entries)
        invariant pool.Keys == old(pool.Keys) + Members(ips[..n])
      {
        var entry := ScoreOne(ips[n], ips[..n], entries);
        EntryAdded(ips, entries, n, entry);
        entries := entries + [entry];
      }
      assert ips[..|ips|] == ips;
    }

    /** The two best of the candidates by the scores of their records. Candidates not seen before
        join the pool with an empty record; nothing else changes. */
    method GetBestIPs(ips: seq<string>) returns (best: string, second: string, ghost entries: seq<Entry>)
      requires Valid()
      modifies this
      ensures Valid() && pool.Keys == old(pool.Keys) + Members(ips)
      ensures Grown()
      ensures AreEntries(ips, entries) && IsChoice(entries, best, second)
    {
      var scored := ScoreAll(ips);
      best, second := Pick(scored);
      entries := scored;
    }

    ghost function SeenOf(ips: seq<string>): (seen: seq<seq<Report>>)
      reads this, pool.Values
      ensures |seen| == |ips| && forall k {:trigger seen[k]} :: 0 <= k < |ips| ==> seen[k] == ReportsOf(ips[k])
    {
      if ips == [] then [] else SeenOf(ips[..|ips| - 1]) + [ReportsOf(ips[|ips| - 1])]
    }

    lemma EntriesAreScored(ips: seq<string>, entries: seq<Entry>, seen: seq<seq<Report>>)
      requires AreEntries(ips, entries) && forall ip :: ip in ips ==> IsSafe(ReportsOf(ip))
      requires |seen| == |ips| && forall k {:trigger seen[k]} :: 0 <= k < |ips| ==> seen[k] == ReportsOf(ips[k])
      ensures AreScored(entries, seen)
    {
      forall k: nat | k < |entries| ensures ScoredAt(entries, seen, k) {
        assert EntryAt(ips, entries, k) && ips[k] in ips && seen[k] == ReportsOf(ips[k]);
      }
    }

    /** Of the pool's own records: the best of a choice is SUSPECT only when every candidate is. */
    lemma BestIsSuspect(ips: seq<string>, entries: seq<Entry>, best: string, second: string, k: nat)
      requires AreEntries(ips, entries) && IsChoice(entries, best, second) && k < |ips|
      requires forall ip :: ip in ips ==> IsSafe(ReportsOf(ip))
      requires IsSuspect(ReportsOf(best))
      ensures IsSuspect(ReportsOf(ips[k]))
    {
      var seen := SeenOf(ips);
      EntriesAreScored(ips, entries, seen);
      if |entries| > 1 {
        var i: nat, j: nat :| IsChoiceAt(entries, best, second, i, j);
        assert EntryAt(ips, entries, i);
        SuspectIsLastResort(entries, seen, best, second, i, j, k);
      } else {
        assert EntryAt(ips, entries, 0);
      }
    }

    /** The second is SUSPECT only when all the candidates are but the one at one place. */
    lemma SecondIsSuspect(ips: seq<string>, entries: seq<Entry>, best: string, second: string) returns (i: nat)
      requires AreEntries(ips, entries) && IsChoice(entries, best, second) && |ips| > 1
      requires forall ip :: ip in ips ==> IsSafe(ReportsOf(ip))
      requires IsSuspect(ReportsOf(second))
      ensures i < |ips| && ips[i] == best
      ensures forall k :: 0 <= k < |ips| && k != i ==> IsSuspect(ReportsOf(ips[k]))
    {
      var seen := SeenOf(ips);
      EntriesAreScored(ips, entries, seen);
      var b: nat, j: nat :| IsChoiceAt(entries, best, second, b, j);
      i := b;
      assert EntryAt(ips, entries, b) && EntryAt(ips, entries, j);
      forall k | 0 <= k < |ips| && k != b ensures IsSuspect(ReportsOf(ips[k])) {
        SuspectIsNextToLastResort(entries, seen, best, second, b, j, k);
      }
    }
  }
}
