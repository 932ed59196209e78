/** The observe / candidate / protected machine of the hot-zone controller, as a function folded
    over the evaluations made so far, and what it decides in terms of that history alone. */
module HotZoneProtection {
  import opened Names
  import opened SetFacts

  const CONFIRM_WINDOWS: nat := 3

  /** The fields of the controller that one evaluation reads and writes. */
  datatype Control = Control(
    observe: bool,
    protected: Option<Name>,
    candidate: Option<Name>,
    streak: nat,
    lastCandidateWindow: int,
    lastNormalAvg: real,
    baseline: real)

  /** What one evaluation sees: the start of the current window, the average concurrency in it, the
      CPU usage, the number of CPUs and the snapshot's candidate zone. */
  datatype Reading = Reading(windowStart: int, avg: real, cpu: real, numCPU: int, candidate: Option<Name>)

  const INITIAL := Control(false, None, None, 0, 0, 0.0, 0.0)

  predicate Pressure(r: Reading) {
    r.avg >= 0.75 * (if r.numCPU < 1 then 1 else r.numCPU) as real && r.cpu >= 70.0
  }

  predicate Calm(c: Control, r: Reading) {
    r.avg <= c.baseline * 1.05
  }

  /** Leaves observe mode and forgets the candidate. */
  function Reset(c: Control, avg: real): Control {
    c.(observe := false, protected := None, candidate := None, streak := 0, lastCandidateWindow := 0, lastNormalAvg := avg)
  }

  function EnterObserve(c: Control, r: Reading): Control {
    if c.observe then c
    else c.(observe := true, baseline := if c.lastNormalAvg <= 0.0 then r.avg else c.lastNormalAvg)
  }

  function Confirm(c: Control, r: Reading): Control {
    if r.candidate.None? then c.(candidate := None, streak := 0, lastCandidateWindow := r.windowStart)
    else
      var c' :=
        if r.candidate != c.candidate then c.(candidate := r.candidate, streak := 1, lastCandidateWindow := r.windowStart)
        else if r.windowStart != c.lastCandidateWindow then c.(streak := c.streak + 1, lastCandidateWindow := r.windowStart)
        else c;
      if c'.streak >= CONFIRM_WINDOWS then c'.(protected := c'.candidate) else c'
  }

  function Evaluate(c: Control, r: Reading): Control {
    if !c.observe && !Pressure(r) then c.(lastNormalAvg := r.avg)
    else
      var o := EnterObserve(c, r);
      if o.protected.Some? then (if Calm(o, r) then Reset(o, r.avg) else o)
      else if !Pressure(r) then Reset(o, r.avg)
      else Confirm(o, r)
  }

  function Run(es: seq<Reading>): Control {
    if es == [] then INITIAL else Evaluate(Run(es[..|es| - 1]), es[|es| - 1])
  }

  lemma RunSnoc(es: seq<Reading>, r: Reading)
    ensures Run(es + [r]) == Evaluate(Run(es), r)
  {
    assert (es + [r])[..|es|] == es;
  }

  // ---- Coherence ---------------------------------------------------------------------------

  /** Protection implies observing, with the protected zone as a candidate confirmed in at least
      three windows; a candidate is only held while observing; the baseline is then positive. */
  predicate Coherent(c: Control) {
    && (c.protected.Some? ==> c.observe && c.candidate == c.protected && c.streak >= CONFIRM_WINDOWS)
    && (c.protected.None? ==> c.streak < CONFIRM_WINDOWS)
    && (c.candidate.Some? ==> c.observe && c.streak >= 1)
    && (c.candidate.None? ==> c.streak == 0)
    && (c.observe ==> c.baseline > 0.0)
  }

  lemma {:induction false} RunIsCoherent(es: seq<Reading>)
    ensures Coherent(Run(es))
  {
    if es == [] {
    } else {
      RunIsCoherent(es[..|es| - 1]);
    }
  }

  ghost predicate WasRead(es: seq<Reading>, z: Name) {
    exists i :: 0 <= i < |es| && es[i].candidate == Some(z)
  }

  /** A candidate was the candidate of some evaluation, and with it so was a protected zone. */
  lemma {:induction false} CandidateWasRead(es: seq<Reading>)
    ensures Run(es).candidate.Some? ==> WasRead(es, Run(es).candidate.value)
  {
    if es != [] && Run(es).candidate.Some? {
      var before, z := es[..|es| - 1], Run(es).candidate.value;
      CandidateWasRead(before);
      if Run(before).candidate == Some(z) {
        var i :| 0 <= i < |before| && before[i].candidate == Some(z);
        assert es[i].candidate == Some(z);
      } else {
        assert es[|es| - 1].candidate == Some(z);
      }
    }
  }

  // ---- When protection begins --------------------------------------------------------------

  /** At least 70 percent CPU, and at least three requests at a time for every four CPUs and for one. */
  predicate UnderPressure(r: Reading) {
    r.cpu >= 70.0 && 4.0 * r.avg >= 3.0 * r.numCPU as real && 4.0 * r.avg >= 3.0
  }

  /** The evaluation was under pressure and its candidate was the zone. */
  predicate Hot(r: Reading, z: Name) {
    UnderPressure(r) && r.candidate == Some(z)
  }

  predicate AllHot(es: seq<Reading>, z: Name) {
    forall i :: 0 <= i < |es| ==> Hot(es[i], z)
  }

  /** The distinct windows in which some evaluations fell. */
  function WindowsOf(es: seq<Reading>): set<int> {
    set i | 0 <= i < |es| :: es[i].windowStart
  }

  predicate InOrder(es: seq<Reading>) {
    forall i, j :: 0 <= i < j < |es| ==> es[i].windowStart <= es[j].windowStart
  }

  /** How many evaluations had been made when protection last ended. */
  function LastExit(es: seq<Reading>): (n: nat)
    ensures n <= |es|
  {
    if es == [] then 0
    else
      var before := es[..|es| - 1];
      if Run(before).protected.Some? && Run(es).protected.None? then |es| else LastExit(before)
  }

  /** Where the trailing block of hot evaluations for a zone starts, not looking before `lo`. */
  function BlockStart(es: seq<Reading>, z: Name, lo: nat): (b: nat)
    ensures b <= |es|
  {
    if |es| <= lo || !Hot(es[|es| - 1], z) then |es| else BlockStart(es[..|es| - 1], z, lo)
  }

  lemma {:induction false} BlockStartIsMaximal(es: seq<Reading>, z: Name, lo: nat)
    requires lo <= |es|
    ensures lo <= BlockStart(es, z, lo)
    ensures AllHot(es[BlockStart(es, z, lo)..], z)
    ensures BlockStart(es, z, lo) > lo ==> !Hot(es[BlockStart(es, z, lo) - 1], z)
  {
    if |es| > lo && Hot(es[|es| - 1], z) {
      var before := es[..|es| - 1];
      BlockStartIsMaximal(before, z, lo);
      var b := BlockStart(before, z, lo);
      assert es[b..] == before[b..] + [es[|es| - 1]];
    }
  }

  function Block(es: seq<Reading>, z: Name): seq<Reading> {
    es[BlockStart(es, z, LastExit(es))..]
  }

  lemma WindowsOfSnoc(es: seq<Reading>, r: Reading)
    ensures WindowsOf(es + [r]) == WindowsOf(es) + {r.windowStart}
  {
    var es' := es + [r];
    forall w | w in WindowsOf(es) ensures w in WindowsOf(es') {
      var i :| 0 <= i < |es| && es[i].windowStart == w;
      assert es'[i].windowStart == w;
    }
    assert es'[|es|].windowStart == r.windowStart;
  }

  lemma BlockSnoc(es: seq<Reading>, r: Reading, z: Name)
    requires Run(es).protected.None?
    ensures Block(es + [r], z) == if Hot(r, z) then Block(es, z) + [r] else []
  {
    var es' := es + [r];
    assert es'[..|es|] == es && es'[|es|] == r;
    var lo := LastExit(es);
    assert LastExit(es') == lo;
    if Hot(r, z) {
      var b := BlockStart(es, z, lo);
      assert BlockStart(es', z, lo) == b;
      assert es'[b..] == es[b..] + [r];
    }
  }

  /** The machine's candidate and streak are what the history says: outside protection, a zone is
      the candidate exactly when the evaluations just made were hot for it, and the streak is the
      number of distinct windows in that trailing block. */
  ghost predicate StreakCounts(es: seq<Reading>, z: Name) {
    var c, block := Run(es), Block(es, z);
    && (c.candidate == Some(z) <==> block != [])
    && (c.candidate == Some(z) ==>
          c.streak == |WindowsOf(block)| && c.lastCandidateWindow == es[|es| - 1].windowStart)
  }

  lemma LastOfBlock(es: seq<Reading>, z: Name)
    requires Block(es, z) != [] && InOrder(es)
    ensures es != [] && es[|es| - 1].windowStart in WindowsOf(Block(es, z))
    ensures forall w :: w in WindowsOf(Block(es, z)) ==> w <= es[|es| - 1].windowStart
  {
    var block := Block(es, z);
    assert block[|block| - 1] == es[|es| - 1];
    var b := BlockStart(es, z, LastExit(es));
    assert forall i :: 0 <= i < |block| ==> block[i] == es[b + i];
  }

  lemma WindowsGrow(block: seq<Reading>, r: Reading)
    ensures |WindowsOf(block + [r])| == |WindowsOf(block)| + if r.windowStart in WindowsOf(block) then 0 else 1
    ensures block == [] ==> WindowsOf(block) == {}
  {
    WindowsOfSnoc(block, r);
    if r.windowStart in WindowsOf(block) {
      assert WindowsOf(block) + {r.windowStart} == WindowsOf(block);
    }
  }

  lemma InOrderPrefix(es: seq<Reading>, r: Reading)
    requires InOrder(es + [r])
    ensures InOrder(es)
    ensures es != [] ==> es[|es| - 1].windowStart <= r.windowStart
  {
    var es' := es + [r];
    assert es'[|es|] == r && forall i :: 0 <= i < |es| ==> es'[i] == es[i];
  }

  lemma BlockWindows(es: seq<Reading>, r: Reading, z: Name)
    requires InOrder(es + [r]) && Run(es).protected.None? && Hot(r, z)
    ensures Block(es + [r], z) != []
    ensures |WindowsOf(Block(es + [r], z))| ==
            if Block(es, z) == [] then 1
            else |WindowsOf(Block(es, z))| + if r.windowStart == es[|es| - 1].windowStart then 0 else 1
  {
    BlockSnoc(es, r, z);
    WindowsGrow(Block(es, z), r);
    InOrderPrefix(es, r);
    if Block(es, z) != [] {
      LastOfBlock(es, z);
    }
  }

  lemma EvaluateHot(c: Control, r: Reading, z: Name)
    requires Coherent(c) && c.protected.None? && Hot(r, z)
    ensures var c' := Evaluate(c, r);
            && c'.candidate == Some(z) && c'.lastCandidateWindow == r.windowStart
            && c'.streak == (if c.candidate != Some(z) then 1
                             else c.streak + if r.windowStart == c.lastCandidateWindow then 0 else 1)
            && c'.protected == if c'.streak >= CONFIRM_WINDOWS then Some(z) else None
  {
  }

  lemma StreakCountsHot(es: seq<Reading>, r: Reading, z: Name)
    requires InOrder(es + [r]) && Run(es).protected.None? && Hot(r, z) && StreakCounts(es, z)
    ensures StreakCounts(es + [r], z)
  {
    RunSnoc(es, r);
    RunIsCoherent(es);
    BlockWindows(es, r, z);
    EvaluateHot(Run(es), r, z);
  }

  lemma {:induction false} StreakCountsWindows(es: seq<Reading>, z: Name)
    requires InOrder(es) && Run(es).protected.None?
    ensures StreakCounts(es, z)
  {
    if es == [] {
    } else {
      var before, r := es[..|es| - 1], es[|es| - 1];
      assert es == before + [r];
      RunSnoc(before, r);
      RunIsCoherent(before);
      if Run(before).protected.None? {
        StreakCountsWindows(before, z);
        if Hot(r, z) {
          StreakCountsHot(before, r, z);
        } else {
          BlockSnoc(before, r, z);
        }
      } else {
        assert LastExit(es) == |es|;
      }
    }
  }

  lemma WindowsOfTail(es: seq<Reading>, b: nat, b': nat)
    requires b <= b' <= |es|
    ensures WindowsOf(es[b'..]) <= WindowsOf(es[b..])
  {
    forall w | w in WindowsOf(es[b'..]) ensures w in WindowsOf(es[b..]) {
      var i :| 0 <= i < |es[b'..]| && es[b'..][i].windowStart == w;
      assert es[b..][b' - b + i] == es[b'..][i];
    }
  }

  /** A stretch of evaluations ending now, all made since protection last ended, all hot for the
      zone, and together falling in at least three distinct windows. */
  ghost predicate Confirmed(es: seq<Reading>, z: Name, b: nat, lo: nat) {
    lo <= b <= |es| && AllHot(es[b..], z) && |WindowsOf(es[b..])| >= 3
  }

  ghost predicate HasConfirmed(es: seq<Reading>, z: Name, lo: nat) {
    exists b: nat :: Confirmed(es, z, b, lo)
  }

  /** Protection of a zone begins at an evaluation exactly when that evaluation completes such a
      stretch: no evaluation in it was out of pressure, had another candidate or had none. */
  lemma ProtectionBegins(es: seq<Reading>, r: Reading, z: Name)
    requires InOrder(es + [r]) && Run(es).protected.None?
    ensures Run(es + [r]).protected == Some(z) <==> HasConfirmed(es + [r], z, LastExit(es))
  {
    if Hot(r, z) {
      HotStepProtects(es, r, z);
      ConfirmedIsBlock(es, r, z);
    } else {
      ColdStepProtects(es, r, z);
    }
  }

  lemma HotStepProtects(es: seq<Reading>, r: Reading, z: Name)
    requires InOrder(es + [r]) && Run(es).protected.None? && Hot(r, z)
    ensures Run(es + [r]).protected == Some(z) <==> |WindowsOf(Block(es + [r], z))| >= CONFIRM_WINDOWS
  {
    InOrderPrefix(es, r);
    RunSnoc(es, r);
    RunIsCoherent(es);
    StreakCountsWindows(es, z);
    StreakCountsHot(es, r, z);
    EvaluateHot(Run(es), r, z);
  }

  /** The trailing block is the longest candidate for a confirming stretch. */
  lemma ConfirmedIsBlock(es: seq<Reading>, r: Reading, z: Name)
    requires Run(es).protected.None? && Hot(r, z)
    ensures |WindowsOf(Block(es + [r], z))| >= CONFIRM_WINDOWS <==> HasConfirmed(es + [r], z, LastExit(es))
  {
    var es', lo := es + [r], LastExit(es);
    assert es'[..|es|] == es;
    assert LastExit(es') == lo;
    var start := BlockStart(es', z, lo);
    BlockStartIsMaximal(es', z, lo);
    assert Confirmed(es', z, start, lo) <==> |WindowsOf(Block(es', z))| >= CONFIRM_WINDOWS;
    if b: nat :| Confirmed(es', z, b, lo) {
      BlockIsMaximal(es', z, lo, b);
      WindowsOfTail(es', start, b);
      SubsetIsSmaller(WindowsOf(es'[b..]), WindowsOf(es'[start..]));
    }
  }

  lemma ColdStepProtects(es: seq<Reading>, r: Reading, z: Name)
    requires Run(es).protected.None? && !Hot(r, z)
    ensures Run(es + [r]).protected != Some(z)
    ensures !HasConfirmed(es + [r], z, LastExit(es))
  {
    var es' := es + [r];
    RunSnoc(es, r);
    RunIsCoherent(es);
    forall b: nat ensures !Confirmed(es', z, b, LastExit(es)) {
      if b <= |es| {
        assert es'[b..][|es| - b] == r;
      } else if b == |es'| {
        assert WindowsOf(es'[b..]) == {};
      }
    }
  }

  lemma BlockIsMaximal(es: seq<Reading>, z: Name, lo: nat, b: nat)
    requires lo <= b <= |es| && AllHot(es[b..], z)
    ensures BlockStart(es, z, lo) <= b
  {
    BlockStartIsMaximal(es, z, lo);
    forall i | b <= i < |es| ensures Hot(es[i], z) {
      assert es[b..][i - b] == es[i];
    }
  }

  // ---- When protection ends ----------------------------------------------------------------

  /** Protection keeps its zone and its baseline through every evaluation whose average stays above
      1.05 times the baseline, which is strictly positive ... */
  lemma {:induction false} ProtectionPersists(es: seq<Reading>, more: seq<Reading>)
    requires Run(es).protected.Some?
    requires forall i :: 0 <= i < |more| ==> more[i].avg > Run(es).baseline * 1.05
    ensures Run(es + more) == Run(es) && Run(es).baseline > 0.0
  {
    RunIsCoherent(es);
    if more == [] {
      assert es + more == es;
    } else {
      var before, r := more[..|more| - 1], more[|more| - 1];
      ProtectionPersists(es, before);
      assert es + more == es + before + [r];
      RunSnoc(es + before, r);
    }
  }

  /** ... and ends at the first one whose average does not, which also leaves observe mode. */
  lemma ProtectionEnds(es: seq<Reading>, r: Reading)
    requires Run(es).protected.Some?
    ensures Run(es + [r]).protected.None? <==> r.avg <= Run(es).baseline * 1.05
    ensures Run(es + [r]).protected.None? ==> !Run(es + [r]).observe && Run(es + [r]).candidate.None?
  {
    RunSnoc(es, r);
    RunIsCoherent(es);
  }

  /** Observe mode after an evaluation: it lasts while protection does, and otherwise holds exactly when
      that evaluation was under pressure. */
  lemma ObserveFollowsPressure(es: seq<Reading>, r: Reading)
    ensures Run(es + [r]).observe <==>
            if Run(es).protected.Some? then r.avg > Run(es).baseline * 1.05 else UnderPressure(r)
  {
    RunSnoc(es, r);
    RunIsCoherent(es);
  }

  // ---- What the baseline is ----------------------------------------------------------------

  /** The evaluation at which the current spell of observe mode began. */
  function ObserveEntry(es: seq<Reading>): (j: nat)
    requires Run(es).observe
    ensures j < |es|
  {
    var before := es[..|es| - 1];
    if Run(before).observe then ObserveEntry(before) else |es| - 1
  }

  lemma {:induction false} LastNormalIsLastAverage(es: seq<Reading>)
    requires !Run(es).observe
    ensures Run(es).lastNormalAvg == if es == [] then 0.0 else es[|es| - 1].avg
  {
    if es != [] {
      RunIsCoherent(es[..|es| - 1]);
    }
  }

  /** The baseline is the average of the evaluation just before observe mode was entered, or, when
      there is none or it was not positive, the average at the entry, which was under pressure. */
  lemma {:induction false} BaselineIsPreTriggerAverage(es: seq<Reading>)
    requires Run(es).observe
    ensures var j := ObserveEntry(es);
            && UnderPressure(es[j])
            && Run(es).baseline == if j > 0 && es[j - 1].avg > 0.0 then es[j - 1].avg else es[j].avg
  {
    var before, r := es[..|es| - 1], es[|es| - 1];
    RunIsCoherent(before);
    if Run(before).observe {
      BaselineIsPreTriggerAverage(before);
      assert forall i :: 0 <= i < |before| ==> before[i] == es[i];
    } else {
      LastNormalIsLastAverage(before);
    }
  }
}
