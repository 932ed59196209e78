/** The quality record kept for one upstream address: a ring of the last 64 latencies, three
    percentiles, a confidence and a four-state health machine. */
module IpQuality {
  import opened Sorting
  import opened OrderStatistics

  const SLOTS := 64
  const INIT_LATENCY := 1000
  const MAX_LATENCY := 10000

  datatype Health = Active | Degraded | Suspect | Recovered

  /** What can be reported to a record: an answer and its latency, a failure, a good probe. */
  datatype Report = Answered(latency: int) | Failed | Probed

  // ---- The record as a function of everything reported --------------------------------------

  datatype Quality = Quality(p50: int, p95: int, p99: int, fails: nat, health: Health)

  function Latencies(reports: seq<Report>): seq<int> {
    if reports == [] then []
    else
      var last := reports[|reports| - 1];
      Latencies(reports[..|reports| - 1]) + if last.Answered? then [last.latency] else []
  }

  /** The samples that count: the last 64. */
  function Window(history: seq<int>): seq<int> {
    if |history| <= SLOTS then history else history[|history| - SLOTS..]
  }

  /** The window after one more sample. */
  function Push(w: seq<int>, x: int): seq<int> {
    if |w| < SLOTS then w + [x] else w[1..] + [x]
  }

  lemma WindowStep(history: seq<int>, x: int)
    ensures Window(history + [x]) == Push(Window(history), x)
  {
  }

  /** Twenty percent more, truncated toward zero, at most MAX_LATENCY. */
  function Penalised(p50: int): int {
    var more := if p50 >= 0 then p50 * 6 / 5 else -(-p50 * 6 / 5);
    if more > MAX_LATENCY then MAX_LATENCY else more
  }

  const NEW_RECORD := Quality(INIT_LATENCY, INIT_LATENCY, INIT_LATENCY, 0, Active)

  /** The increment of an eight-bit counter. */
  function Next(n: nat): nat {
    if n >= 255 then 0 else n + 1
  }

  function AfterFailure(q: Quality): Quality {
    var fails := Next(q.fails);
    if fails <= 3 then q.(fails := fails, health := Degraded, p50 := Penalised(q.p50))
    else if fails <= 6 then Quality(MAX_LATENCY, MAX_LATENCY, MAX_LATENCY, fails, Suspect)
    else q.(fails := fails, health := Suspect)
  }

  ghost function OfSamples(s: seq<int>): Quality
    requires s != []
  {
    Quality(Kth(s, |s| / 2), Kth(s, 95 * |s| / 100), Kth(s, 99 * |s| / 100), 0, Active)
  }

  /** The window after some reports. */
  function Live(reports: seq<Report>): seq<int> {
    if reports == [] then []
    else
      var before, last := Live(reports[..|reports| - 1]), reports[|reports| - 1];
      if last.Answered? then Push(before, last.latency) else before
  }

  lemma {:induction false} LiveIsWindow(reports: seq<Report>)
    ensures Live(reports) == Window(Latencies(reports))
  {
    if reports == [] {
    } else {
      var before, last := reports[..|reports| - 1], reports[|reports| - 1];
      LiveIsWindow(before);
      if last.Answered? {
        WindowStep(Latencies(before), last.latency);
      }
    }
  }

  /** One report: the window is the one after it. */
  ghost function After(q: Quality, r: Report, window: seq<int>): Quality
    requires r.Answered? ==> window != []
  {
    match r
    case Answered(_) => OfSamples(window)
    case Failed => AfterFailure(q)
    case Probed => q.(fails := 0, health := Recovered)
  }

  ghost function Replay(reports: seq<Report>): Quality {
    if reports == [] then NEW_RECORD
    else After(Replay(reports[..|reports| - 1]), reports[|reports| - 1], Live(reports))
  }

  /** A record that reflects the reports made to it. */
  ghost predicate Tracks(q: Quality, window: seq<int>, reports: seq<Report>) {
    window == Live(reports) && q == Replay(reports)
  }

  lemma TracksStep(q: Quality, window: seq<int>, reports: seq<Report>, r: Report)
    requires Tracks(q, window, reports)
    ensures var more := if r.Answered? then Push(window, r.latency) else window;
            Tracks(After(q, r, more), more, reports + [r])
  {
    assert (reports + [r])[..|reports|] == reports;
  }

  // ---- What holds after any reports ---------------------------------------------------------

  /** How many failures in a row end the reports. */
  function FailuresInARow(reports: seq<Report>): nat {
    if reports == [] || reports[|reports| - 1] != Failed then 0
    else FailuresInARow(reports[..|reports| - 1]) + 1
  }

  /** An eight-bit counter after k increments. */
  function Counter(k: nat): nat {
    if k == 0 then 0 else Next(Counter(k - 1))
  }

  lemma {:induction false} CounterWraps(k: nat) returns (q: nat)
    ensures Counter(k) < 256 && k == 256 * q + Counter(k)
  {
    if k == 0 {
      q := 0;
    } else {
      q := CounterWraps(k - 1);
      if Counter(k) == 0 {
        q := q + 1;
      }
    }
  }

  lemma CounterIsModulo(k: nat)
    ensures Counter(k) == k % 256
  {
    var q := CounterWraps(k);
    QuotientIs(k, q, Counter(k));
  }

  lemma QuotientIs(k: nat, q: nat, c: nat)
    requires k == 256 * q + c && c < 256
    ensures k % 256 == c
  {
    var d, m := k / 256, k % 256;
    assert 256 * (d - q) == c - m && -256 < c - m < 256;
    assert d - q == 0;
  }

  lemma {:induction false} CounterRuns(reports: seq<Report>)
    ensures Replay(reports).fails == Counter(FailuresInARow(reports))
  {
    if reports != [] && reports[|reports| - 1] == Failed {
      var before := reports[..|reports| - 1];
      CounterRuns(before);
      assert Replay(reports) == AfterFailure(Replay(before));
    } else {
      NoFailureLast(reports);
    }
  }

  /** The counter is the length of the run of failures, modulo 256. */
  lemma CounterCountsFailures(reports: seq<Report>)
    ensures Replay(reports).fails == FailuresInARow(reports) % 256
  {
    CounterRuns(reports);
    CounterIsModulo(FailuresInARow(reports));
  }

  lemma NoFailureLast(reports: seq<Report>)
    requires reports == [] || reports[|reports| - 1] != Failed
    ensures Replay(reports).fails == 0 && FailuresInARow(reports) == 0
  {
  }

  /** How the last report and the counter decide the health. */
  lemma HealthByLast(reports: seq<Report>)
    ensures var q := Replay(reports);
            if reports == [] || reports[|reports| - 1].Answered? then q.health == Active && q.fails == 0
            else if reports[|reports| - 1].Probed? then q.health == Recovered && q.fails == 0
            else q.health == if q.fails >= 4 then Suspect else Degraded
  {
  }

  /** The health of a record is a function of how its reports end: it is SUSPECT exactly while the
      run of failures, modulo 256, is four or more, so the 256th failure in a row lifts it. */
  lemma HealthFollowsFailures(reports: seq<Report>)
    ensures var k := FailuresInARow(reports);
            && (Replay(reports).health == Suspect <==> k % 256 >= 4)
            && (Replay(reports).health == Degraded <==> k > 0 && k % 256 < 4)
            && (Replay(reports).health == Recovered <==>
                k == 0 && reports != [] && reports[|reports| - 1] == Probed)
  {
    var k, health := FailuresInARow(reports), Replay(reports).health;
    HealthByLast(reports);
    CounterCountsFailures(reports);
    if k == 0 {
      NoFailureLast(reports);
    } else {
      assert reports[|reports| - 1] == Failed;
    }
  }

  /** The documented "seven or more failures: remains SUSPECT" fails at failure 256. */
  lemma SuspectIsLifted()
    ensures exists reports :: FailuresInARow(reports) >= 7 && Replay(reports).health == Degraded
  {
    var reports := seq(256, i => Failed);
    AllFailures(reports, 256);
    HealthFollowsFailures(reports);
  }

  lemma {:induction false} AllFailures(reports: seq<Report>, n: nat)
    requires |reports| == n && forall i :: 0 <= i < n ==> reports[i] == Failed
    ensures FailuresInARow(reports) == n
  {
    if n == 0 {
    } else {
      AllFailures(reports[..n - 1], n - 1);
    }
  }

  ghost predicate Consistent(q: Quality) {
    && (q.health == Suspect <==> q.fails >= 4)
    && (q.health == Suspect ==> q.p50 == q.p95 == q.p99 == MAX_LATENCY)
    && (q.health == Active ==> q.p50 <= q.p95 <= q.p99)
    && (q.health == Active || q.health == Recovered ==> q.fails == 0)
  }

  lemma SamplesAreConsistent(s: seq<int>)
    requires s != []
    ensures Consistent(OfSamples(s))
  {
    KthIsMonotone(s, |s| / 2, 95 * |s| / 100);
    KthIsMonotone(s, 95 * |s| / 100, 99 * |s| / 100);
  }

  lemma FailureIsConsistent(q: Quality)
    requires Consistent(q)
    ensures Consistent(AfterFailure(q))
  {
  }

  /** While a record is SUSPECT all its percentiles are at the maximum; while it is ACTIVE they
      are in order; SUSPECT is four failures or more on the counter. */
  lemma {:induction false} SuspectIsAtMaximum(reports: seq<Report>)
    ensures Consistent(Replay(reports))
  {
    if reports == [] {
    } else {
      var before, last := reports[..|reports| - 1], reports[|reports| - 1];
      SuspectIsAtMaximum(before);
      match last
      case Answered(_) => SamplesAreConsistent(Live(reports));
      case Failed => FailureIsConsistent(Replay(before));
      case Probed =>
    }
  }

  /** A median is a latency that was reported, or within the maximum; DEGRADED is within it. */
  lemma {:induction false} MedianIsBounded(reports: seq<Report>)
    ensures var q := Replay(reports);
            && (q.p50 <= MAX_LATENCY || q.p50 in Latencies(reports))
            && (q.health == Degraded ==> q.p50 <= MAX_LATENCY)
  {
    if reports == [] {
    } else {
      MedianIsBounded(reports[..|reports| - 1]);
      if reports[|reports| - 1].Answered? {
        var s := Live(reports);
        KthIsSample(s, |s| / 2);
        LiveIsWindow(reports);
      }
    }
  }

  /** Each percentile is a sample with at most the stated share of the samples below it, and more
      than that share at or below it. */
  ghost predicate HasPercentiles(q: Quality, s: seq<int>) {
    && IsOrderStatistic(s, |s| / 2, q.p50)
    && IsOrderStatistic(s, 95 * |s| / 100, q.p95)
    && IsOrderStatistic(s, 99 * |s| / 100, q.p99)
    && q.p50 in s && q.p95 in s && q.p99 in s
  }

  lemma SamplesHavePercentiles(s: seq<int>)
    requires s != []
    ensures HasPercentiles(OfSamples(s), s)
  {
    KthIsOrderStatistic(s, |s| / 2);
    KthIsOrderStatistic(s, 95 * |s| / 100);
    KthIsOrderStatistic(s, 99 * |s| / 100);
    KthIsSample(s, |s| / 2);
    KthIsSample(s, 95 * |s| / 100);
    KthIsSample(s, 99 * |s| / 100);
  }

  /** After an answer the percentiles are those of the last 64 latencies. */
  lemma PercentilesAreOrderStatistics(reports: seq<Report>, x: int)
    ensures var s := Window(Latencies(reports + [Answered(x)]));
            0 < |s| <= SLOTS && s[|s| - 1] == x && HasPercentiles(Replay(reports + [Answered(x)]), s)
  {
    assert (reports + [Answered(x)])[..|reports|] == reports;
    LiveIsWindow(reports + [Answered(x)]);
    SamplesHavePercentiles(Live(reports + [Answered(x)]));
  }

  // ---- Confidence and score -----------------------------------------------------------------

  /** Ten percent per sample, in eight bits, then capped. */
  function Confidence(n: nat): nat {
    var c := n * 10 % 256;
    if c > 100 then 100 else c
  }

  /** The documented "ten samples are full confidence" holds except for 26 to 35 and 52 to 61
      samples, where the product wraps around. */
  lemma ConfidenceIsCapped(n: nat)
    requires n <= SLOTS
    ensures Confidence(n) <= 100
    ensures Confidence(n) == (if n < 10 then 10 * n else 100) <==> !(26 <= n <= 35 || 52 <= n <= 61)
    ensures n > 0 ==> Confidence(n) >= 4
    ensures n == SLOTS ==> Confidence(n) == 100
  {
  }

  function Weight(h: Health): int {
    match h
    case Active => 10
    case Degraded => 15
    case Suspect => 1000
    case Recovered => 11
  }

  /** Thousandths of median * (1 + (100 - confidence) / 100) * weight. */
  function Score(p50: int, confidence: int, h: Health): int {
    p50 * (200 - confidence) * Weight(h)
  }

  ghost function ScoreOf(reports: seq<Report>): int {
    var q := Replay(reports);
    Score(q.p50, Confidence(|Live(reports)|), q.health)
  }

  /** The score as documented: the median, times up to two for missing confidence, times 1 when ACTIVE,
      1.5 when DEGRADED, 100 when SUSPECT and 1.1 when RECOVERED. */
  function DocumentedScore(p50: real, confidence: real, h: Health): real {
    p50 * (1.0 + (100.0 - confidence) * 0.01) * StateWeight(h)
  }

  function StateWeight(h: Health): real {
    match h
    case Active => 1.0
    case Degraded => 1.5
    case Suspect => 100.0
    case Recovered => 1.1
  }

  lemma ScoreIsDocumented(reports: seq<Report>)
    ensures var q, c := Replay(reports), Confidence(|Live(reports)|);
            ScoreOf(reports) as real == 1000.0 * DocumentedScore(q.p50 as real, c as real, q.health)
  {
    var q, c := Replay(reports), Confidence(|Live(reports)|);
    Thousandths(q.p50, c, q.health);
  }

  lemma Thousandths(p50: int, c: int, h: Health)
    ensures Score(p50, c, h) as real == 1000.0 * DocumentedScore(p50 as real, c as real, h)
  {
    var a, mult, w := p50 as real, 1.0 + (100.0 - c as real) * 0.01, StateWeight(h);
    var b, v := (200 - c) as real, Weight(h) as real;
    assert b == 100.0 * mult && v == 10.0 * w;
    assert Score(p50, c, h) as real == a * b * v by {
      ProductOfReals(p50, 200 - c, Weight(h));
    }
    Rescaled(a, mult, w, b, v);
  }

  lemma ProductOfReals(a: int, b: int, w: int)
    ensures (a * b * w) as real == a as real * b as real * w as real
  {
  }

  lemma Rescaled(a: real, mult: real, w: real, b: real, v: real)
    requires b == 100.0 * mult && v == 10.0 * w
    ensures a * b * v == 1000.0 * (a * mult * w)
  {
    assert a * b == 100.0 * (a * mult);
    var m := a * mult;
    assert 100.0 * m * (10.0 * w) == 1000.0 * (m * w);
  }

  /** The longest latency for which the SUSPECT weight does what it is there for. */
  const SAFE_LATENCY := 463_821

  lemma {:induction false} NoSamplesNoConfidence(reports: seq<Report>)
    requires Latencies(reports) == []
    ensures Replay(reports).p50 <= MAX_LATENCY
  {
    if reports == [] {
    } else {
      NoSamplesNoConfidence(reports[..|reports| - 1]);
    }
  }

  lemma ProductIsBounded(a: int, b: int, m: int, n: int)
    requires 0 <= a <= m && 0 <= b <= n
    ensures a * b <= m * n
  {
    assert a * b <= m * b;
    assert m * b <= m * n;
  }

  lemma WeighedIsBounded(product: int, h: Health)
    requires h != Suspect
    requires product <= MAX_LATENCY * 200 || (h != Degraded && product <= SAFE_LATENCY * 196)
    ensures product * Weight(h) < 1_000_000_000
  {
  }

  lemma ScoreIsBounded(p50: int, confidence: int, h: Health)
    requires h != Suspect && 0 <= confidence <= 100
    requires p50 <= MAX_LATENCY || (h != Degraded && confidence >= 4 && p50 <= SAFE_LATENCY)
    ensures Score(p50, confidence, h) < 1_000_000_000
  {
    var left := 200 - confidence;
    if p50 <= 0 {
      ProductIsBounded(-p50, 0, -p50, left);
      assert p50 * left <= 0;
    } else if p50 <= MAX_LATENCY {
      ProductIsBounded(p50, left, MAX_LATENCY, 200);
    } else {
      ProductIsBounded(p50, left, SAFE_LATENCY, 196);
    }
    WeighedIsBounded(p50 * left, h);
  }

  /** A SUSPECT record scores worse than any that is not, whatever was reported to either, as long
      as no latency of the other is above the safe one. */
  lemma SuspectScoresWorst(good: seq<Report>, bad: seq<Report>)
    requires forall x :: x in Latencies(good) ==> x <= SAFE_LATENCY
    requires Replay(good).health != Suspect && Replay(bad).health == Suspect
    ensures ScoreOf(good) < ScoreOf(bad)
  {
    SuspectIsAtMaximum(bad);
    LiveIsWindow(bad);
    LiveIsWindow(good);
    ConfidenceIsCapped(|Live(bad)|);
    ConfidenceIsCapped(|Live(good)|);
    MedianIsBounded(good);
    if Latencies(good) == [] {
      NoSamplesNoConfidence(good);
    }
    ScoreIsBounded(Replay(good).p50, Confidence(|Live(good)|), Replay(good).health);
  }

  lemma {:induction false} Repeated(x: int, n: nat) returns (reports: seq<Report>)
    ensures |Latencies(reports)| == n && forall y :: y in Latencies(reports) ==> y == x
    ensures n > 0 ==> reports != [] && reports[|reports| - 1] == Answered(x)
  {
    reports := [];
    if n == 0 {
    } else {
      var front := Repeated(x, n - 1);
      reports := front + [Answered(x)];
      assert reports[..|reports| - 1] == front && reports[|reports| - 1] == Answered(x);
      assert Latencies(reports) == Latencies(front) + [x];
    }
  }

  lemma RepeatedMedian(reports: seq<Report>, x: int)
    requires reports != [] && reports[|reports| - 1] == Answered(x)
    requires forall y :: y in Latencies(reports) ==> y == x
    ensures Replay(reports).p50 == x && Replay(reports).health == Active
  {
    var s := Live(reports);
    LiveIsWindow(reports);
    KthIsSample(s, |s| / 2);
    assert Kth(s, |s| / 2) in Latencies(reports);
  }

  lemma {:induction false} TrailingFailures(front: seq<Report>, n: nat, reports: seq<Report>)
    requires |reports| == |front| + n && reports[..|front|] == front
    requires front != [] && front[|front| - 1].Answered?
    requires forall i :: |front| <= i < |reports| ==> reports[i] == Failed
    ensures FailuresInARow(reports) == n && Latencies(reports) == Latencies(front)
    decreases n
  {
    if n == 0 {
      assert reports == front;
    } else {
      var fewer := reports[..|reports| - 1];
      assert fewer[..|front|] == front;
      TrailingFailures(front, n - 1, fewer);
    }
  }

  lemma SlowAndRecovered(x: int) returns (reports: seq<Report>)
    ensures |Live(reports)| == 26 && forall y :: y in Latencies(reports) ==> y == x
    ensures Replay(reports).health == Recovered && Replay(reports).p50 == x
  {
    var slow := Repeated(x, 26);
    RepeatedMedian(slow, x);
    reports := slow + [Probed];
    assert reports[..|slow|] == slow;
    LiveIsWindow(reports);
  }

  lemma FastAndSuspect(x: int) returns (reports: seq<Report>)
    ensures |Live(reports)| == 10 && Replay(reports).health == Suspect && Replay(reports).p50 == MAX_LATENCY
  {
    var fast := Repeated(x, 10);
    reports := fast + seq(4, i => Failed);
    TrailingFailures(fast, 4, reports);
    LiveIsWindow(reports);
    HealthFollowsFailures(reports);
    SuspectIsAtMaximum(reports);
  }

  /** One millisecond more and it does not: a record just probed after 26 such latencies scores
      worse than a SUSPECT one. */
  lemma SafeLatencyIsTight() returns (good: seq<Report>, bad: seq<Report>)
    ensures forall x :: x in Latencies(good) ==> x == SAFE_LATENCY + 1
    ensures Replay(good).health == Recovered && Replay(bad).health == Suspect
    ensures ScoreOf(good) > ScoreOf(bad)
  {
    good := SlowAndRecovered(SAFE_LATENCY + 1);
    bad := FastAndSuspect(1);
  }

  // ---- What a failure does to a record -----------------------------------------------------

  /** No latency is negative. */
  ghost predicate AreTimes(reports: seq<Report>) {
    forall x :: x in Latencies(reports) ==> x >= 0
  }

  lemma {:induction false} MedianIsTime(reports: seq<Report>)
    requires AreTimes(reports)
    ensures Replay(reports).p50 >= 0
  {
    if reports == [] {
    } else {
      var before := reports[..|reports| - 1];
      assert Latencies(before) <= Latencies(reports);
      assert forall x :: x in Latencies(before) ==> x in Latencies(reports);
      MedianIsTime(before);
      if reports[|reports| - 1].Answered? {
        var s := Live(reports);
        KthIsSample(s, |s| / 2);
        LiveIsWindow(reports);
        assert Kth(s, |s| / 2) in Latencies(reports);
      }
    }
  }

  /** The percentiles after one more failure, by what the failures in a row come to on the counter: up
      to three, and when it wraps around, the median grows by a fifth, rounded down, to ten seconds at
      most; at four to six all three are set to ten seconds; from seven on nothing changes. */
  lemma MedianAfterFailure(reports: seq<Report>)
    requires AreTimes(reports)
    ensures var q, q', n := Replay(reports), Replay(reports + [Failed]), (FailuresInARow(reports) + 1) % 256;
            if n <= 3 then
              && q'.p95 == q.p95 && q'.p99 == q.p99
              && (if 6 * q.p50 >= 5 * 10001 then q'.p50 == 10000 else 5 * q'.p50 <= 6 * q.p50 < 5 * q'.p50 + 5)
            else if n <= 6 then q'.p50 == q'.p95 == q'.p99 == 10000
            else q'.p50 == q.p50 && q'.p95 == q.p95 && q'.p99 == q.p99
  {
    MedianIsTime(reports);
    OneMoreFailure(reports);
  }

  lemma OneMoreFailure(reports: seq<Report>)
    ensures Replay(reports + [Failed]) == AfterFailure(Replay(reports))
    ensures FailuresInARow(reports + [Failed]) == FailuresInARow(reports) + 1
    ensures Replay(reports + [Failed]).fails == (FailuresInARow(reports) + 1) % 256
    ensures |Live(reports + [Failed])| == |Live(reports)|
  {
    assert (reports + [Failed])[..|reports|] == reports;
    CounterCountsFailures(reports + [Failed]);
  }

  lemma FailureWeighsMore(q: Quality, factor: int)
    requires Consistent(q) && q.p50 >= 0 && q.fails < 256 && 100 <= factor <= 200
    requires q.health == Degraded ==> q.p50 <= MAX_LATENCY
    ensures var q' := AfterFailure(q);
            q'.p50 * factor * Weight(q'.health) < q.p50 * factor * Weight(q.health) <==>
            q.fails == 255 || (q.health == Active && q.p50 > 15000) || (q.health == Recovered && q.p50 > 13636)
  {
    var q' := AfterFailure(q);
    var now, next := q.p50 * Weight(q.health), q'.p50 * Weight(q'.health);
    assert next < now <==>
           q.fails == 255 || (q.health == Active && q.p50 > 15000) || (q.health == Recovered && q.p50 > 13636);
    Multiplied(q.p50, factor, Weight(q.health));
    Multiplied(q'.p50, factor, Weight(q'.health));
    OrderKept(next, now, factor);
  }

  lemma Multiplied(a: int, b: int, c: int)
    ensures a * b * c == (a * c) * b
  {
  }

  lemma OrderKept(a: int, b: int, factor: int)
    requires factor > 0
    ensures a * factor < b * factor <==> a < b
  {
  }

  /** A failure makes a record score better, so that its address is preferred to what it was, exactly at
      the 256th failure in a row, and when the median was above 15 seconds, or above 13.636 after a
      probe, which the penalty cuts to ten. */
  lemma FailureImprovesScore(reports: seq<Report>)
    requires AreTimes(reports)
    ensures ScoreOf(reports + [Failed]) < ScoreOf(reports) <==>
            || FailuresInARow(reports) % 256 == 255
            || (Replay(reports).health == Active && Replay(reports).p50 > 15000)
            || (Replay(reports).health == Recovered && Replay(reports).p50 > 13636)
  {
    MedianIsTime(reports);
    OneMoreFailure(reports);
    SuspectIsAtMaximum(reports);
    MedianIsBounded(reports);
    CounterCountsFailures(reports);
    LiveIsWindow(reports);
    ConfidenceIsCapped(|Live(reports)|);
    FailureWeighsMore(Replay(reports), 200 - Confidence(|Live(reports)|));
  }

  /** It does happen: ten answers after 20 seconds each, and then a failure. */
  lemma SlowFailureImproves() returns (reports: seq<Report>)
    ensures AreTimes(reports) && ScoreOf(reports + [Failed]) < ScoreOf(reports)
  {
    reports := Repeated(20000, 10);
    RepeatedMedian(reports, 20000);
    FailureImprovesScore(reports);
  }

  // ---- The ring -----------------------------------------------------------------------------

  /** Slot i of a full ring, for the last samples in order of arrival. */
  ghost predicate SlotOk(slots: seq<int>, next: nat, window: seq<int>, i: nat) {
    i < |slots| == |window| && next < |window| ==>
      slots[i] == window[if i < next then |window| - next + i else i - next]
  }

  /** The slots in use and the next one to write: in order of arrival until the ring is full, then
      rotated by the next slot. */
  ghost predicate IsRing(slots: seq<int>, next: nat, window: seq<int>) {
    && next < SLOTS && |slots| == |window| <= SLOTS
    && (|window| < SLOTS ==> next == |window| && slots == window)
    && (|window| == SLOTS ==> forall i: nat {:trigger SlotOk(slots, next, window, i)} :: SlotOk(slots, next, window, i))
  }

  lemma RingStep(slots: seq<int>, next: nat, window: seq<int>, x: int)
    requires IsRing(slots, next, window)
    ensures IsRing(if |slots| < SLOTS then slots + [x] else slots[next := x],
                   if next == SLOTS - 1 then 0 else next + 1, Push(window, x))
  {
    var slots', window' := if |slots| < SLOTS then slots + [x] else slots[next := x], Push(window, x);
    var next' := if next == SLOTS - 1 then 0 else next + 1;
    if |window'| == SLOTS {
      forall i: nat ensures SlotOk(slots', next', window', i) {
        if |window| == SLOTS {
          assert SlotOk(slots, next, window, i);
        }
      }
    }
  }

  lemma RingHoldsWindow(slots: seq<int>, next: nat, window: seq<int>)
    requires IsRing(slots, next, window)
    ensures multiset(slots) == multiset(window)
  {
    if |window| == SLOTS {
      var k := SLOTS - next;
      forall i | 0 <= i < SLOTS ensures slots[i] == (window[k..] + window[..k])[i] {
        assert SlotOk(slots, next, window, i);
      }
      assert slots == window[k..] + window[..k];
      assert window == window[..k] + window[k..];
    }
  }

  /** Sorting the slots gives the sorted window, whatever their order. */
  lemma SortedRing(sorted: seq<int>, slots: seq<int>, next: nat, window: seq<int>)
    requires IsRing(slots, next, window)
    requires SortedBy(sorted, Itself) && multiset(sorted) == multiset(slots)
    ensures sorted == Sorted(window)
  {
    RingHoldsWindow(slots, next, window);
    forall i, j | 0 <= i < j < |sorted| ensures sorted[i] <= sorted[j] {
      assert Itself(sorted[i]) <= Itself(sorted[j]);
    }
    AscendingIsUnique(sorted, Sorted(window));
  }

  // ---- The record ---------------------------------------------------------------------------

  class Record {
    const samples: array<int>
    var sampleCount: nat
    var nextIdx: nat
    var p50: int
    var p95: int
    var p99: int
    var confidence: nat
    var failCount: nat
    var state: Health
    ghost var window: seq<int>
    ghost var reports: seq<Report>

    ghost function View(): Quality
      reads this`p50, this`p95, this`p99, this`failCount, this`state
    {
      Quality(p50, p95, p99, failCount, state)
    }

    ghost predicate RingOk()
      reads this`sampleCount, this`nextIdx, this`window, samples
    {
      && samples.Length == SLOTS
      && sampleCount == |window| <= SLOTS
      && IsRing(samples[..sampleCount], nextIdx, window)
    }

    /** Whatever was reported so far, the fields are what the reports make them. */
    ghost predicate Valid()
      reads this, samples
    {
      && RingOk()
      && Tracks(View(), window, reports)
      && confidence == Confidence(sampleCount)
    }

    constructor ()
      ensures Valid() && fresh(samples) && reports == []
      ensures p50 == p95 == p99 == 1000 && confidence == 0 && state == Active
    {
      samples := new int[SLOTS];
      sampleCount, nextIdx := 0, 0;
      p50, p95, p99 := INIT_LATENCY, INIT_LATENCY, INIT_LATENCY;
      confidence, failCount := 0, 0;
      state := Active;
      window, reports := [], [];
    }

    method WriteSample(latency: int)
      requires RingOk()
      modifies this`sampleCount, this`nextIdx, this`window, samples
      ensures RingOk() && window == Push(old(window), latency) && window != []
    {
      ghost var slots := samples[..sampleCount];
      RingStep(slots, nextIdx, window, latency);
      ghost var written := if |slots| < SLOTS then slots + [latency] else slots[nextIdx := latency];
      samples[nextIdx] := latency;
      nextIdx := (nextIdx + 1) % 64;
      if sampleCount < SLOTS {
        sampleCount := sampleCount + 1;
      }
      assert samples[..sampleCount] == written;
      window := Push(window, latency);
    }

    method UpdatePercentiles()
      requires RingOk()
      modifies this`p50, this`p95, this`p99
      ensures window == [] ==> p50 == old(p50) && p95 == old(p95) && p99 == old(p99)
      ensures window != [] ==> View() == OfSamples(window).(fails := failCount, health := state)
    {
      if sampleCount == 0 {
        return;
      }
      var sorted := Sort(samples[..sampleCount], Itself);
      SortedRing(sorted, samples[..sampleCount], nextIdx, window);
      p50 := sorted[sampleCount / 2];
      var idx95 := 95 * sampleCount / 100;
      if idx95 >= sampleCount {
        idx95 := sampleCount - 1;
      }
      p95 := sorted[idx95];
      var idx99 := 99 * sampleCount / 100;
      if idx99 >= sampleCount {
        idx99 := sampleCount - 1;
      }
      p99 := sorted[idx99];
    }

    method UpdateConfidence()
      modifies this`confidence
      ensures confidence == Confidence(sampleCount)
    {
      confidence := sampleCount * 10 % 256;
      if confidence > 100 {
        confidence := 100;
      }
    }

    method TakeSample(latency: int)
      requires RingOk()
      modifies this`sampleCount, this`nextIdx, this`window, samples
      modifies this`confidence, this`failCount, this`state, this`p50, this`p95, this`p99
      ensures RingOk() && window == Push(old(window), latency) && View() == OfSamples(window)
      ensures confidence == Confidence(sampleCount)
    {
      WriteSample(latency);
      UpdateConfidence();
      failCount := 0;
      state := Active;
      UpdatePercentiles();
    }

    method RecordLatency(latency: int)
      requires Valid()
      modifies this, samples
      ensures Valid() && reports == old(reports) + [Answered(latency)]
    {
      ghost var before, after := View(), reports + [Answered(latency)];
      TracksStep(before, window, reports, Answered(latency));
      TakeSample(latency);
      assert Tracks(View(), window, after);
      reports := after;
    }

    method CountFailure()
      modifies this`p50, this`p95, this`p99, this`failCount, this`state
      ensures View() == AfterFailure(old(View()))
    {
      failCount := Next(failCount);
      if failCount <= 3 {
        state := Degraded;
        p50 := if p50 >= 0 then p50 * 6 / 5 else -(-p50 * 6 / 5);
        if p50 > MAX_LATENCY {
          p50 := MAX_LATENCY;
        }
      } else if failCount <= 6 {
        state := Suspect;
        p50, p95, p99 := MAX_LATENCY, MAX_LATENCY, MAX_LATENCY;
      } else {
        state := Suspect;
      }
    }

    method RecordFailure()
      requires Valid()
      modifies this`p50, this`p95, this`p99, this`failCount, this`state, this`reports
      ensures Valid() && reports == old(reports) + [Failed]
    {
      TracksStep(View(), window, reports, Failed);
      CountFailure();
      reports := reports + [Failed];
    }

    method ResetForProbe()
      requires Valid()
      modifies this`failCount, this`state, this`reports
      ensures Valid() && reports == old(reports) + [Probed]
    {
      TracksStep(View(), window, reports, Probed);
      failCount := 0;
      state := Recovered;
      reports := reports + [Probed];
    }

    method GetScore() returns (score: int)
      requires Valid()
      ensures score == ScoreOf(reports)
    {
      score := p50 * (200 - confidence) * Weight(state);
    }
  }
}
