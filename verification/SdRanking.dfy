/** How the mode search of the SD driver ranks its measurements, over a log of its tests. */
module SdRanking {
  import opened Words

  const CALIBRATION_MAX_DIV := 24
  const REFERENCE_SECTORS := 16
  const SWEEP_SECTORS := 8
  const VERIFY_SECTORS := 64
  const VERIFY_CANDIDATES := 3
  const RESULT_COUNT := 50

  // ------------------------------------------------------------------- results

  datatype CalResult = CalResult(divider: word, wide: bool, valid: bool, verified: bool, rate: nat)

  function ClockHz(divider: word): nat { 50000000 / (2 * (divider as int + 1)) }

  function WireRate(r: CalResult): nat { ClockHz(r.divider) * if r.wide then 4 else 1 }

  /** Faster, or as fast on a slower wire. */
  predicate Better(a: CalResult, b: CalResult) {
    a.rate > b.rate || (a.rate == b.rate && WireRate(a) < WireRate(b))
  }

  /** `best` is the first of the entries that no valid entry beats, or -1 when there is no valid
      one. */
  predicate IsBest(results: seq<CalResult>, best: int) {
    if best < 0 then forall i | 0 <= i < |results| :: !results[i].valid
    else
      && best < |results| && results[best].valid
      && (forall i | 0 <= i < |results| :: results[i].valid ==> !Better(results[i], results[best]))
      && forall i | 0 <= i < best :: results[i].valid ==> Better(results[best], results[i])
  }

  function CountValid(results: seq<CalResult>): nat {
    if results == [] then 0
    else CountValid(results[..|results| - 1]) + if results[|results| - 1].valid then 1 else 0
  }

  lemma {:induction false} CountUpdate(results: seq<CalResult>, i: nat, r: CalResult)
    requires i < |results| && results[i].valid && !r.valid
    ensures CountValid(results[i := r]) == CountValid(results) - 1
    decreases |results|
  {
    var n := |results| - 1;
    if i < n {
      assert results[i := r][..n] == results[..n][i := r];
      CountUpdate(results[..n], i, r);
    } else {
      assert results[i := r][..n] == results[..n];
    }
  }

  function CountVerified(results: seq<CalResult>): nat {
    if results == [] then 0
    else CountVerified(results[..|results| - 1]) + if results[|results| - 1].verified then 1 else 0
  }

  lemma {:induction false} CountVerifiedUpdate(results: seq<CalResult>, i: nat, r: CalResult)
    requires i < |results|
    ensures CountVerified(results[i := r]) ==
            CountVerified(results) + (if r.verified then 1 else 0) - if results[i].verified then 1 else 0
    decreases |results|
  {
    var n := |results| - 1;
    if i < n {
      assert results[i := r][..n] == results[..n][i := r];
      CountVerifiedUpdate(results[..n], i, r);
    } else {
      assert results[i := r][..n] == results[..n];
    }
  }

  lemma {:induction false} CountPromoted(results: seq<CalResult>, promoted: seq<CalResult>)
    requires |results| == |promoted|
    requires forall i | 0 <= i < |results| :: promoted[i].valid == results[i].verified
    ensures CountValid(promoted) == CountVerified(results)
    decreases |results|
  {
    if results != [] {
      var n := |results| - 1;
      CountPromoted(results[..n], promoted[..n]);
    }
  }

  lemma {:induction false} NoneVerified(results: seq<CalResult>)
    requires forall i | 0 <= i < |results| :: !results[i].verified
    ensures CountVerified(results) == 0
  {
    if results != [] {
      NoneVerified(results[..|results| - 1]);
    }
  }

  lemma {:induction false} NoneValid(results: seq<CalResult>)
    requires IsBest(results, -1)
    ensures CountValid(results) == 0
  {
    if results != [] {
      NoneValid(results[..|results| - 1]);
    }
  }

  // ----------------------------------------------------------------------- log

  /** One mode test: the mode, the length of the run, its outcome, the times before and after
      the run in ns, and which transfers were its. */
  datatype Test = Test(wide: bool, divider: word, sectors: nat, err: int, startNs: nat, endNs: nat, from: nat, to: nat)

  function ElapsedUs(t: Test): nat { if t.endNs < t.startNs then 0 else (t.endNs - t.startNs) / 1000 }

  /** KiB per second; a sector is half a KiB. */
  function Rate(t: Test): nat {
    if t.err != 0 then 0 else t.sectors * 500000 / if ElapsedUs(t) > 1 then ElapsedUs(t) else 1
  }

  /** `q` is the number of whole KiB per second that `t` took, a run below 2 microseconds counting
      as one of 1 microsecond. */
  predicate InWholeKiB(t: Test, q: nat) {
    && t.startNs <= t.endNs
    && var ns := t.endNs - t.startNs;
       var us := if ns < 2000 then 1 else ns / 1000;
       q * us <= 500000 * t.sectors < (q + 1) * us
  }

  /** That is what is recorded as the rate of a run that passed. */
  lemma RateIsInKiB(t: Test, q: nat)
    requires t.err == 0 && t.startNs <= t.endNs
    ensures InWholeKiB(t, q) <==> q == Rate(t)
  {
    var ns := t.endNs - t.startNs;
    var us := if ns < 2000 then 1 else ns / 1000;
    Quotient(500000 * t.sectors, us, q);
  }

  lemma Quotient(n: nat, d: nat, q: nat)
    requires d > 0
    ensures q * d <= n < (q + 1) * d <==> q == n / d
  {
    var p := n / d;
    assert p * d <= n < (p + 1) * d;
    if q < p {
      assert (q + 1) * d <= p * d;
    } else if q > p {
      assert (p + 1) * d <= q * d;
    }
  }

  /** Run `a` was faster than run `b`: more whole KiB per second or, as many, on a slower wire. */
  ghost predicate Faster(a: Test, b: Test) {
    exists p: nat, q: nat :: InWholeKiB(a, p) && InWholeKiB(b, q) && (p > q || (p == q && WireHz(a) < WireHz(b)))
  }

  /** A data clock of 50 MHz, divided by twice the divider plus 1, on one or four lines. */
  function WireHz(t: Test): nat { (if t.wide then 4 else 1) * (25000000 / (t.divider as int + 1)) }

  /** The candidates are ranked by what their runs measured. */
  lemma BetterIsFaster(a: Test, b: Test)
    requires a.err == 0 && b.err == 0 && a.startNs <= a.endNs && b.startNs <= b.endNs
    ensures Better(Measured(a), Measured(b)) <==> Faster(a, b)
  {
    hide Rate, InWholeKiB;
    RateIsInKiB(a, Rate(a));
    RateIsInKiB(b, Rate(b));
    ClockHalves(a.divider);
    ClockHalves(b.divider);
    forall p: nat, q: nat | InWholeKiB(a, p) && InWholeKiB(b, q) ensures p == Rate(a) && q == Rate(b) {
      RateIsInKiB(a, p);
      RateIsInKiB(b, q);
    }
  }

  lemma ClockHalves(divider: word)
    ensures ClockHz(divider) == 25000000 / (divider as int + 1)
  {
    Halves(25000000, divider as int + 1);
  }

  lemma Halves(n: nat, d: nat)
    requires d > 0
    ensures 2 * n / (2 * d) == n / d
  {
    var q := n / d;
    Quotient(n, d, q);
    Quotient(2 * n, 2 * d, q);
  }

  /** The 50 modes in the order of the sweep: 1-bit dividers 0..24, then 4-bit ones. */
  function Mode(t: Test): int { t.divider + if t.wide then CALIBRATION_MAX_DIV + 1 else 0 }

  predicate IsMode(wide: bool, divider: word, i: int) {
    0 <= i < RESULT_COUNT && wide == (i > CALIBRATION_MAX_DIV) && divider == i % (CALIBRATION_MAX_DIV + 1)
  }

  /** Some test of the log is of mode `i`. */
  predicate Tried(log: seq<Test>, i: int) {
    exists k :: 0 <= k < |log| && Mode(log[k]) == i
  }

  predicate AllFailed(log: seq<Test>) {
    forall k :: 0 <= k < |log| ==> log[k].err != 0
  }

  function CountPassed(log: seq<Test>): nat {
    if log == [] then 0
    else CountPassed(log[..|log| - 1]) + if log[|log| - 1].err == 0 then 1 else 0
  }

  /** A test of every mode in order. */
  predicate Sweeps(log: seq<Test>) {
    forall k :: 0 <= k < |log| ==> log[k].sectors == SWEEP_SECTORS && IsMode(log[k].wide, log[k].divider, k)
  }

  /** What the sweep records: a mode is a candidate if its test passed, at the measured rate. */
  function Swept(log: seq<Test>): (rs: seq<CalResult>) {
    seq(|log|, i requires 0 <= i < |log| =>
      CalResult(log[i].divider, log[i].wide, log[i].err == 0, false, Rate(log[i])))
  }

  /** Every entry names its own mode. */
  predicate Table(rs: seq<CalResult>) {
    |rs| == RESULT_COUNT && forall i :: 0 <= i < |rs| ==> IsMode(rs[i].wide, rs[i].divider, i)
  }

  /** `t` is a test of the best candidate not yet tried. */
  predicate TestsBest(rs: seq<CalResult>, tried: seq<Test>, t: Test) {
    var i := Mode(t);
    && 0 <= i < |rs| && t.wide == rs[i].wide && t.divider == rs[i].divider
    && rs[i].valid && !Tried(tried, i)
    && forall j | 0 <= j < |rs| :: rs[j].valid && !Tried(tried, j) ==> !Better(rs[j], rs[i])
  }

  /** Tests of `sectors` reads, each of the best candidate not yet tried. */
  predicate BestFirst(rs: seq<CalResult>, log: seq<Test>, sectors: nat) {
    forall k | 0 <= k < |log| :: log[k].sectors == sectors && TestsBest(rs, log[..k], log[k])
  }

  predicate AllTried(rs: seq<CalResult>, log: seq<Test>) {
    forall i | 0 <= i < |rs| :: rs[i].valid ==> Tried(log, i)
  }

  /** An entry after its long run. */
  function LongResult(r: CalResult, t: Test): CalResult {
    r.(valid := false, verified := r.verified || t.err == 0, rate := if t.err == 0 then Rate(t) else r.rate)
  }

  /** `rs` holds the long-run results where there are some, and is `swept` elsewhere. */
  predicate LongResults(swept: seq<CalResult>, log: seq<Test>, rs: seq<CalResult>) {
    && |rs| == |swept|
    && (forall i | 0 <= i < |rs| :: !Tried(log, i) ==> rs[i] == swept[i])
    && forall k | 0 <= k < |log| ::
         0 <= Mode(log[k]) < |rs| && rs[Mode(log[k])] == LongResult(swept[Mode(log[k])], log[k])
  }

  function Promoted(rs: seq<CalResult>): seq<CalResult> {
    seq(|rs|, i requires 0 <= i < |rs| => rs[i].(valid := rs[i].verified))
  }

  /** `rs` is `candidates` without those that failed their recheck, and nothing else changed. */
  predicate Rejects(candidates: seq<CalResult>, failed: seq<Test>, rs: seq<CalResult>) {
    && |rs| == |candidates|
    && forall i | 0 <= i < |rs| :: rs[i] == if Tried(failed, i) then candidates[i].(valid := false) else candidates[i]
  }

  lemma TriedMore(log: seq<Test>, t: Test, i: int)
    ensures Tried(log + [t], i) <==> Tried(log, i) || Mode(t) == i
  {
    if Tried(log, i) {
      var k :| 0 <= k < |log| && Mode(log[k]) == i;
      assert (log + [t])[k] == log[k];
    }
    assert (log + [t])[|log|] == t;
  }

  lemma BestFirstMore(rs: seq<CalResult>, log: seq<Test>, t: Test, sectors: nat)
    requires BestFirst(rs, log, sectors) && t.sectors == sectors && TestsBest(rs, log, t)
    ensures BestFirst(rs, log + [t], sectors)
  {
    hide TestsBest;
    var more := log + [t];
    forall k | 0 <= k < |more| ensures more[k].sectors == sectors && TestsBest(rs, more[..k], more[k]) {
      assert more[..k] == log[..k];
      assert log[..|log|] == log;
    }
  }

  lemma CountPassedMore(log: seq<Test>, t: Test)
    ensures CountPassed(log + [t]) == CountPassed(log) + if t.err == 0 then 1 else 0
  {
    assert (log + [t])[..|log|] == log;
  }

  /** The best entry of the current results is the best swept candidate not yet tried. */
  lemma NextLongRun(swept: seq<CalResult>, log: seq<Test>, rs: seq<CalResult>, best: nat, t: Test)
    requires Table(swept) && LongResults(swept, log, rs)
    requires best < |rs| && IsBest(rs, best) && t.wide == rs[best].wide && t.divider == rs[best].divider
    ensures Mode(t) == best && TestsBest(swept, log, t) && !Tried(log, best) && rs[best] == swept[best]
  {
    hide Better;
    assert rs[best] == swept[best] && IsMode(swept[best].wide, swept[best].divider, best);
    forall j | 0 <= j < |swept| && swept[j].valid && !Tried(log, j) ensures !Better(swept[j], swept[best]) {
      assert rs[j] == swept[j];
    }
  }

  lemma LongRunDone(swept: seq<CalResult>, log: seq<Test>, rs: seq<CalResult>, t: Test)
    requires LongResults(swept, log, rs) && TestsBest(swept, log, t)
    ensures LongResults(swept, log + [t], rs[Mode(t) := LongResult(rs[Mode(t)], t)])
  {
    var m := Mode(t);
    var more, after := log + [t], rs[m := LongResult(rs[m], t)];
    forall i | 0 <= i < |after| && !Tried(more, i) ensures after[i] == swept[i] {
      TriedMore(log, t, i);
    }
    forall k | 0 <= k < |more|
      ensures 0 <= Mode(more[k]) < |after| && after[Mode(more[k])] == LongResult(swept[Mode(more[k])], more[k])
    {
      if k < |log| {
        assert more[k] == log[k] && Mode(log[k]) != m;
      }
    }
  }

  /** No candidate is left: every one has been tried. */
  lemma LongRunsExhausted(swept: seq<CalResult>, log: seq<Test>, rs: seq<CalResult>)
    requires LongResults(swept, log, rs) && IsBest(rs, -1)
    ensures AllTried(swept, log)
  {
  }

  lemma NextRecheck(candidates: seq<CalResult>, failed: seq<Test>, rs: seq<CalResult>, best: nat, t: Test)
    requires Table(candidates) && Rejects(candidates, failed, rs)
    requires best < |rs| && IsBest(rs, best) && t.wide == rs[best].wide && t.divider == rs[best].divider
    ensures Mode(t) == best && TestsBest(candidates, failed, t) && rs[best] == candidates[best]
  {
    hide Better, Tried;
    assert rs[best] == candidates[best] && IsMode(candidates[best].wide, candidates[best].divider, best);
    forall j | 0 <= j < |candidates| && candidates[j].valid && !Tried(failed, j)
      ensures !Better(candidates[j], candidates[best])
    {
      assert rs[j] == candidates[j];
    }
  }

  lemma RecheckFailed(candidates: seq<CalResult>, failed: seq<Test>, rs: seq<CalResult>, t: Test)
    requires Rejects(candidates, failed, rs) && 0 <= Mode(t) < |rs|
    ensures Rejects(candidates, failed + [t], rs[Mode(t) := rs[Mode(t)].(valid := false)])
  {
    hide Tried;
    forall i | 0 <= i < |rs| ensures Tried(failed + [t], i) <==> Tried(failed, i) || Mode(t) == i {
      TriedMore(failed, t, i);
    }
  }

  lemma RechecksExhausted(candidates: seq<CalResult>, failed: seq<Test>, rs: seq<CalResult>)
    requires Rejects(candidates, failed, rs) && IsBest(rs, -1)
    ensures AllTried(candidates, failed)
  {
    hide Tried;
  }

  // ----------------------------------------------------------------- the search

  /** All tests of one search. */
  datatype Calibration = Calibration(sweep: seq<Test>, longRuns: seq<Test>, rechecks: seq<Test>)

  /** Every mode is swept; the fastest modes that passed get a long run, fastest first, until
      three have passed or none is left. */
  predicate Searched(run: Calibration) {
    && |run.sweep| == RESULT_COUNT && Sweeps(run.sweep)
    && BestFirst(Swept(run.sweep), run.longRuns, VERIFY_SECTORS)
    && LongEnough(Swept(run.sweep), run.longRuns)
  }

  /** Three long runs have passed, the last one just now, or every candidate had one. */
  predicate LongEnough(swept: seq<CalResult>, log: seq<Test>) {
    || (CountPassed(log) == VERIFY_CANDIDATES && log != [] && log[|log| - 1].err == 0)
    || (CountPassed(log) < VERIFY_CANDIDATES && AllTried(swept, log))
  }

  /** What a long run measured. */
  function Measured(t: Test): CalResult { CalResult(t.divider, t.wide, true, true, Rate(t)) }

  /** A recheck of this mode has failed. */
  predicate Rejected(run: Calibration, t: Test) {
    exists k :: 0 <= k < |run.rechecks| && run.rechecks[k].err != 0
                && run.rechecks[k].sectors == REFERENCE_SECTORS && Mode(run.rechecks[k]) == Mode(t)
  }

  /** Long run `w` passed, the last recheck is of its mode and passed, and no mode whose long
      run passed and whose recheck did not fail beats its long-run rate. */
  predicate Wins(run: Calibration, w: int) {
    && 0 <= w < |run.longRuns| && run.longRuns[w].err == 0
    && run.rechecks != [] && Confirms(run.rechecks[|run.rechecks| - 1], run.longRuns[w])
    && forall k | 0 <= k < |run.longRuns| :: run.longRuns[k].err == 0 && !Rejected(run, run.longRuns[k]) ==>
         !Better(Measured(run.longRuns[k]), Measured(run.longRuns[w]))
  }

  predicate Confirms(t: Test, w: Test) {
    t.err == 0 && t.sectors == REFERENCE_SECTORS && t.wide == w.wide && t.divider == w.divider
  }

  /** Every mode whose long run passed has failed its recheck. */
  predicate NoneWins(run: Calibration) {
    forall k | 0 <= k < |run.longRuns| :: run.longRuns[k].err == 0 ==> Rejected(run, run.longRuns[k])
  }

  /** The candidates for the recheck are the modes whose long run passed, at its rate. */
  lemma CandidateOfRun(swept: seq<CalResult>, log: seq<Test>, rs: seq<CalResult>, k: nat)
    requires BestFirst(swept, log, VERIFY_SECTORS) && LongResults(swept, log, rs) && k < |log| && log[k].err == 0
    ensures 0 <= Mode(log[k]) < |rs| && Promoted(rs)[Mode(log[k])] == Measured(log[k])
  {
    hide Better, Rate;
    assert TestsBest(swept, log[..k], log[k]);
  }

  lemma RunOfCandidate(swept: seq<CalResult>, log: seq<Test>, rs: seq<CalResult>, i: nat) returns (k: nat)
    requires LongResults(swept, log, rs) && i < |rs| && Promoted(rs)[i].valid
    requires forall j | 0 <= j < |swept| :: !swept[j].verified
    ensures k < |log| && Mode(log[k]) == i && log[k].err == 0
  {
    hide Rate;
    assert Tried(log, i);
    k :| 0 <= k < |log| && Mode(log[k]) == i;
  }

  /** The first passed recheck is of a winner. */
  lemma LastRecheckWins(run: Calibration, rs: seq<CalResult>, failed: seq<Test>, t: Test) returns (w: nat)
    requires Searched(run) && LongResults(Swept(run.sweep), run.longRuns, rs)
    requires BestFirst(Promoted(rs), failed, REFERENCE_SECTORS) && AllFailed(failed)
    requires TestsBest(Promoted(rs), failed, t) && t.err == 0 && t.sectors == REFERENCE_SECTORS
    requires run.rechecks == failed + [t]
    ensures Wins(run, w) && Mode(run.longRuns[w]) == Mode(t)
  {
    hide Better, Rate, Searched, Sweeps, BestFirst;
    SearchedRuns(run);
    var best := Mode(t);
    SweptUnverified(run.sweep);
    w := RunOfCandidate(Swept(run.sweep), run.longRuns, rs, best);
    CandidateOfRun(Swept(run.sweep), run.longRuns, rs, w);
    forall k | 0 <= k < |run.longRuns| && run.longRuns[k].err == 0 && !Rejected(run, run.longRuns[k])
      ensures !Better(Measured(run.longRuns[k]), Measured(run.longRuns[w]))
    {
      CandidateOfRun(Swept(run.sweep), run.longRuns, rs, k);
      if Tried(failed, Mode(run.longRuns[k])) {
        TriedIsRejected(run, Promoted(rs), failed, run.longRuns[k]);
      }
    }
  }

  lemma SearchedRuns(run: Calibration)
    requires Searched(run)
    ensures BestFirst(Swept(run.sweep), run.longRuns, VERIFY_SECTORS)
  {
    hide BestFirst;
  }

  lemma SweptUnverified(log: seq<Test>)
    ensures forall j | 0 <= j < |Swept(log)| :: !Swept(log)[j].verified
  {
    hide Rate;
  }

  lemma TriedIsRejected(run: Calibration, rs: seq<CalResult>, failed: seq<Test>, t: Test)
    requires BestFirst(rs, failed, REFERENCE_SECTORS) && AllFailed(failed) && failed <= run.rechecks
    requires Tried(failed, Mode(t))
    ensures Rejected(run, t)
  {
    hide TestsBest;
    var k :| 0 <= k < |failed| && Mode(failed[k]) == Mode(t);
    assert run.rechecks[k] == failed[k];
  }

  /** No mode whose long run passed and whose recheck did not fail was faster than the winner in
      its long run. */
  lemma WinnerIsFastest(run: Calibration, w: int)
    requires Wins(run, w) && forall k | 0 <= k < |run.longRuns| :: run.longRuns[k].startNs <= run.longRuns[k].endNs
    ensures forall k | 0 <= k < |run.longRuns| :: Faster(run.longRuns[k], run.longRuns[w]) ==>
              run.longRuns[k].err != 0 || Rejected(run, run.longRuns[k])
  {
    hide Rejected, Faster, Better, Measured;
    forall k | 0 <= k < |run.longRuns| && run.longRuns[k].err == 0 {
      BetterIsFaster(run.longRuns[k], run.longRuns[w]);
    }
  }

  /** A long run is of a mode that no mode still waiting for one was faster than in the sweep. */
  lemma FastestFirst(run: Calibration, k: nat, j: nat)
    requires Searched(run) && k < |run.longRuns| && j < |run.sweep| && run.sweep[j].err == 0
    requires forall i | 0 <= i < |run.sweep| :: run.sweep[i].startNs <= run.sweep[i].endNs
    requires !Tried(run.longRuns[..k], j)
    ensures var i := Mode(run.longRuns[k]);
            0 <= i < |run.sweep| && run.sweep[i].err == 0 && !Faster(run.sweep[j], run.sweep[i])
  {
    hide Rate, Faster, LongEnough;
    assert TestsBest(Swept(run.sweep), run.longRuns[..k], run.longRuns[k]);
    var i := Mode(run.longRuns[k]);
    BetterIsFaster(run.sweep[j], run.sweep[i]);
    assert Swept(run.sweep)[j].rate == Measured(run.sweep[j]).rate;
  }

  /** Without a passed recheck every candidate has been rejected. */
  lemma NoRecheckPassed(run: Calibration, rs: seq<CalResult>)
    requires Searched(run) && LongResults(Swept(run.sweep), run.longRuns, rs)
    requires BestFirst(Promoted(rs), run.rechecks, REFERENCE_SECTORS) && AllFailed(run.rechecks)
    requires AllTried(Promoted(rs), run.rechecks)
    ensures NoneWins(run)
  {
    hide Better, Rate, Searched, Sweeps, BestFirst;
    SearchedRuns(run);
    forall k | 0 <= k < |run.longRuns| && run.longRuns[k].err == 0 ensures Rejected(run, run.longRuns[k]) {
      CandidateOfRun(Swept(run.sweep), run.longRuns, rs, k);
      TriedIsRejected(run, Promoted(rs), run.rechecks, run.longRuns[k]);
    }
  }
}
