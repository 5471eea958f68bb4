/** The mode search of the SD driver (gorv32_sd.c, `sd_auto_calibrate`). */
module SdCalibration {
  import opened Words
  import opened SdHost
  import opened SdDriver
  import opened SdRanking

  const CALIBRATION_FALLBACK_DIV := 32
  const REFERENCE_ATTEMPTS := 3

  /** Sector `i` of the reference data. */
  function RefSector(reference: seq<word>, i: nat): seq<word>
    requires (i + 1) * WORDS <= |reference|
  {
    reference[i * WORDS..(i + 1) * WORDS]
  }

  /** A first-attempt read without an overrun, in the given mode, that returned the
      reference data. */
  predicate CleanRead(x: Xfer, reference: seq<word>, i: nat, wide: bool, div: word)
    requires (i + 1) * WORDS <= |reference|
  {
    && x.lba == i && !x.write && x.clean && x.wide == wide && x.div == div
    && x.data == RefSector(reference, i)
  }

  /** `n` consecutive clean reads, cycling over the reference sectors. */
  ghost predicate CleanRun(trace: seq<Xfer>, from: nat, reference: seq<word>, n: nat, wide: bool, div: word)
    requires |reference| == REFERENCE_SECTORS * WORDS
  {
    && from + n <= |trace|
    && forall k: nat :: k < n ==> CleanRead(trace[from + k], reference, k % REFERENCE_SECTORS, wide, div)
  }

  ghost predicate HasRun(trace: seq<Xfer>, reference: seq<word>, n: nat, wide: bool, div: word)
    requires |reference| == REFERENCE_SECTORS * WORDS
  {
    exists from: nat :: CleanRun(trace, from, reference, n, wide, div)
  }

  lemma RunKept(a: seq<Xfer>, b: seq<Xfer>, reference: seq<word>, n: nat, wide: bool, div: word)
    requires |reference| == REFERENCE_SECTORS * WORDS && a <= b
    ensures HasRun(a, reference, n, wide, div) ==> HasRun(b, reference, n, wide, div)
  {
    if HasRun(a, reference, n, wide, div) {
      var from: nat :| CleanRun(a, from, reference, n, wide, div);
      assert CleanRun(b, from, reference, n, wide, div);
    }
  }

  // ------------------------------------------------------------------- ranking

  method BestResult(results: array<CalResult>) returns (best: int)
    ensures -1 <= best < results.Length && IsBest(results[..], best)
  {
    hide WireRate;
    best := -1;
    var bestRate, bestWireRate := 0, 0;
    for i := 0 to results.Length
      invariant -1 <= best < i
      invariant best < 0 ==> forall k | 0 <= k < i :: !results[k].valid
      invariant best >= 0 ==>
                  && results[best].valid && bestRate == results[best].rate && bestWireRate == WireRate(results[best])
                  && (forall k | 0 <= k < i :: results[k].valid ==> !Better(results[k], results[best]))
                  && forall k | 0 <= k < best :: results[k].valid ==> Better(results[best], results[k])
    {
      if results[i].valid {
        var wireRate := WireRate(results[i]);
        if best < 0 || results[i].rate > bestRate || (results[i].rate == bestRate && wireRate < bestWireRate) {
          best, bestRate, bestWireRate := i, results[i].rate, wireRate;
        }
      }
    }
  }

  // --------------------------------------------------------------------- tests

  /** Two clean passes over the reference sectors that returned the same data. */
  method ReadReference(sd: GorvSd, reference: array<word>, scratch: array<word>, ghost div: word) returns (err: int)
    requires Valid(sd.host.cfg, sd.host.s) && sd.calibrating && !sd.wide && sd.clockDiv == div
    requires reference.Length == REFERENCE_SECTORS * WORDS && scratch.Length == WORDS && reference != scratch
    modifies sd`rxFullEvents, sd`lastWordsQueued, sd`clockDiv, sd`dataClockDiv, sd`blocksTransferred,
             sd`transferRetries, sd`trace, sd`readLog, sd.host, reference, scratch
    ensures Quiet(sd.host.cfg, old(sd.host.s), sd.host.s)
    ensures old(sd.trace) <= sd.trace && sd.clockDiv == div && sd.dataClockDiv == old(sd.dataClockDiv)
    ensures err == 0 ==> CleanRun(sd.trace, |old(sd.trace)|, reference[..], 2 * REFERENCE_SECTORS, false, div)
  {
    hide Valid, Wire, Quiet, WriteEffect, CleanRun;
    NoRun(sd.trace, reference[..], false, div);
    var retriesBefore, rxFullBefore := sd.transferRetries, sd.rxFullEvents;
    ghost var c, s0, from := sd.host.cfg, sd.host.s, |sd.trace|;
    QuietNothing(c, s0);
    for i := 0 to REFERENCE_SECTORS
      invariant Valid(c, sd.host.s) && Quiet(c, s0, sd.host.s)
      invariant old(sd.trace) <= sd.trace && |sd.trace| == from + i && sd.clockDiv == div
                && sd.dataClockDiv == old(sd.dataClockDiv)
      invariant sd.transferRetries == retriesBefore && sd.rxFullEvents == rxFullBefore
      invariant CleanRun(sd.trace, from, reference[..], i, false, div)
    {
      ghost var s, data, trace := sd.host.s, reference[..], sd.trace;
      err := sd.TransferBlock(i, reference, i * WORDS, false);
      QuietTwice(c, s0, s, sd.host.s);
      if err != 0 {
        return;
      }
      if sd.transferRetries != retriesBefore || sd.rxFullEvents != rxFullBefore {
        return EAGAIN;
      }
      RunReframed(trace, from, data, reference[..], i, false, div);
      RunExtended(trace, sd.trace, from, reference[..], i, false, div);
    }
    for i := 0 to REFERENCE_SECTORS
      invariant Valid(c, sd.host.s) && Quiet(c, s0, sd.host.s)
      invariant old(sd.trace) <= sd.trace && |sd.trace| == from + 16 + i && sd.clockDiv == div
                && sd.dataClockDiv == old(sd.dataClockDiv)
      invariant sd.transferRetries == retriesBefore && sd.rxFullEvents == rxFullBefore
      invariant CleanRun(sd.trace, from, reference[..], 16 + i, false, div)
    {
      ghost var s, trace := sd.host.s, sd.trace;
      err := sd.TransferBlock(i, scratch, 0, false);
      QuietTwice(c, s0, s, sd.host.s);
      if err != 0 {
        return;
      }
      if sd.transferRetries != retriesBefore || sd.rxFullEvents != rxFullBefore {
        return EAGAIN;
      }
      if scratch[0..WORDS] != reference[i * WORDS..(i + 1) * WORDS] {
        return EILSEQ;
      }
      RunExtended(trace, sd.trace, from, reference[..], 16 + i, false, div);
    }
    return 0;
  }

  lemma SectorKept(a: seq<word>, b: seq<word>, k: nat, i: nat)
    requires |a| == |b| == REFERENCE_SECTORS * WORDS && k < i < REFERENCE_SECTORS && OnlyBlock(a, b, i * WORDS)
    ensures RefSector(b, k) == RefSector(a, k)
  {
    var lo, hi, n := k * WORDS, (k + 1) * WORDS, i * WORDS;
    assert lo <= hi <= n;
    assert b[lo..hi] == b[..n][lo..hi] && a[lo..hi] == a[..n][lo..hi];
  }

  lemma RunReframed(trace: seq<Xfer>, from: nat, a: seq<word>, b: seq<word>, i: nat, wide: bool, div: word)
    requires |a| == |b| == REFERENCE_SECTORS * WORDS && i < REFERENCE_SECTORS && OnlyBlock(a, b, i * WORDS)
    requires CleanRun(trace, from, a, i, wide, div)
    ensures CleanRun(trace, from, b, i, wide, div)
  {
    hide RefSector, OnlyBlock;
    forall k: nat | k < i ensures CleanRead(trace[from + k], b, k % REFERENCE_SECTORS, wide, div) {
      SectorKept(a, b, k, i);
      assert CleanRead(trace[from + k], a, k % REFERENCE_SECTORS, wide, div);
    }
  }

  lemma NoRun(trace: seq<Xfer>, reference: seq<word>, wide: bool, div: word)
    requires |reference| == REFERENCE_SECTORS * WORDS
    ensures CleanRun(trace, |trace|, reference, 0, wide, div)
  {
  }

  lemma RunExtended(a: seq<Xfer>, b: seq<Xfer>, from: nat, reference: seq<word>, n: nat, wide: bool, div: word)
    requires |reference| == REFERENCE_SECTORS * WORDS && CleanRun(a, from, reference, n, wide, div)
    requires |a| == from + n && |b| == |a| + 1 && a <= b
    requires CleanRead(b[|a|], reference, n % REFERENCE_SECTORS, wide, div)
    ensures CleanRun(b, from, reference, n + 1, wide, div)
  {
    hide CleanRead;
  }

  /** Up to three attempts to establish the reference in 1-bit mode at this divider. */
  method MakeReference(sd: GorvSd, reference: array<word>, scratch: array<word>, divider: word) returns (err: int)
    requires Valid(sd.host.cfg, sd.host.s) && sd.calibrating
    requires reference.Length == REFERENCE_SECTORS * WORDS && scratch.Length == WORDS && reference != scratch
    modifies sd`rxFullEvents, sd`lastWordsQueued, sd`clockDiv, sd`dataClockDiv, sd`blocksTransferred,
             sd`transferRetries, sd`trace, sd`readLog, sd`wide, sd.host, reference, scratch
    ensures Settling(sd.host.cfg, old(sd.host.s), sd.host.s)
    ensures old(sd.trace) <= sd.trace
    ensures err == 0 ==> HasRun(sd.trace, reference[..], 2 * REFERENCE_SECTORS, false, divider)
  {
    hide Valid, Quiet, CleanRun, Settling;
    ghost var c, s0 := sd.host.cfg, sd.host.s;
    err := EIO;
    SettlingSelf(c, s0);
    for attempt := 0 to REFERENCE_ATTEMPTS
      invariant Valid(c, sd.host.s) && Settling(c, s0, sd.host.s)
      invariant old(sd.trace) <= sd.trace && err != 0
    {
      ghost var s := sd.host.s;
      err := sd.PrepareMode(false, divider);
      SettlingTwice(c, s0, s, sd.host.s);
      if err == 0 {
        s := sd.host.s;
        err := ReadReference(sd, reference, scratch, divider);
        SettlingQuiet(c, s0, s, sd.host.s);
      }
      if err == 0 {
        return 0;
      }
    }
  }

  lemma SettlingSelf(c: Config, s: Hw)
    requires Valid(c, s)
    ensures Settling(c, s, s)
  {
  }

  lemma SettlingTwice(c: Config, s: Hw, t: Hw, u: Hw)
    requires Settling(c, s, t) && Settling(c, t, u)
    ensures Settling(c, s, u) && Valid(c, u)
  {
    hide ValidTransfer;
  }

  lemma SettlingQuiet(c: Config, s: Hw, t: Hw, u: Hw)
    requires Settling(c, s, t) && Quiet(c, t, u)
    ensures Settling(c, s, u) && Valid(c, u) && u.pending == t.pending
  {
    hide ValidTransfer;
  }

  /** `n` clean reads, and then one that was not. */
  ghost predicate FailedRun(trace: seq<Xfer>, from: nat, reference: seq<word>, n: nat, wide: bool, div: word)
    requires |reference| == REFERENCE_SECTORS * WORDS
  {
    && from + n < |trace| && CleanRun(trace, from, reference, n, wide, div)
    && !CleanRead(trace[from + n], reference, n % REFERENCE_SECTORS, wide, div)
  }

  /** The reads of a mode test, up to the first that is not clean. */
  method TestReads(sd: GorvSd, reference: array<word>, scratch: array<word>, sectors: nat) returns (err: int)
    requires Valid(sd.host.cfg, sd.host.s) && sd.calibrating
    requires reference.Length == REFERENCE_SECTORS * WORDS && scratch.Length == WORDS && reference != scratch
    modifies sd`rxFullEvents, sd`lastWordsQueued, sd`clockDiv, sd`dataClockDiv, sd`blocksTransferred,
             sd`transferRetries, sd`trace, sd`readLog, sd.host, scratch
    ensures Quiet(sd.host.cfg, old(sd.host.s), sd.host.s) && Valid(sd.host.cfg, sd.host.s)
    ensures sd.clockDiv == old(sd.clockDiv) && sd.dataClockDiv == old(sd.dataClockDiv) && old(sd.trace) <= sd.trace
    ensures err == 0 ==>
              && |sd.trace| == |old(sd.trace)| + sectors
              && CleanRun(sd.trace, |old(sd.trace)|, reference[..], sectors, sd.wide, sd.clockDiv)
    ensures err != 0 ==>
              && |old(sd.trace)| < |sd.trace| <= |old(sd.trace)| + sectors
              && FailedRun(sd.trace, |old(sd.trace)|, reference[..], |sd.trace| - |old(sd.trace)| - 1, sd.wide,
                   sd.clockDiv)
  {
    hide Valid, Wire, Quiet, WriteEffect, CleanRun;
    ghost var c, s1, from, wide, divider := sd.host.cfg, sd.host.s, |sd.trace|, sd.wide, sd.clockDiv;
    var retriesBefore, rxFullBefore := sd.transferRetries, sd.rxFullEvents;
    QuietNothing(c, s1);
    NoRun(sd.trace, reference[..], wide, divider);
    for i := 0 to sectors
      invariant Valid(c, sd.host.s) && Quiet(c, s1, sd.host.s)
      invariant old(sd.trace) <= sd.trace && |sd.trace| == from + i
      invariant sd.clockDiv == divider && sd.dataClockDiv == old(sd.dataClockDiv)
      invariant sd.transferRetries == retriesBefore && sd.rxFullEvents == rxFullBefore
      invariant CleanRun(sd.trace, from, reference[..], i, wide, divider)
    {
      var sector := i % REFERENCE_SECTORS;
      ghost var s, trace := sd.host.s, sd.trace;
      err := sd.TransferBlock(sector, scratch, 0, false);
      QuietTwice(c, s1, s, sd.host.s);
      RunOn(trace, sd.trace, from, reference[..], i, wide, divider);
      if err != 0 {
        return;
      }
      if sd.transferRetries != retriesBefore || sd.rxFullEvents != rxFullBefore {
        return EAGAIN;
      }
      if scratch[0..WORDS] != reference[sector * WORDS..(sector + 1) * WORDS] {
        return EILSEQ;
      }
      RunExtended(trace, sd.trace, from, reference[..], i, wide, divider);
    }
    return 0;
  }

  lemma RunOn(a: seq<Xfer>, b: seq<Xfer>, from: nat, reference: seq<word>, n: nat, wide: bool, div: word)
    requires |reference| == REFERENCE_SECTORS * WORDS && CleanRun(a, from, reference, n, wide, div) && a <= b
    ensures CleanRun(b, from, reference, n, wide, div)
  {
    hide CleanRead;
  }

  /** What the transfers say about a test: it passed exactly if its reads were clean, and it
      failed with its last read, or without a read if the mode could not be set. */
  ghost predicate Evident(trace: seq<Xfer>, reference: seq<word>, t: Test)
    requires |reference| == REFERENCE_SECTORS * WORDS
  {
    && t.from <= t.to <= |trace| && t.to <= t.from + t.sectors && t.startNs <= t.endNs
    && if t.err == 0 then t.to == t.from + t.sectors && CleanRun(trace, t.from, reference, t.sectors, t.wide, t.divider)
       else t.to == t.from || FailedRun(trace, t.from, reference, t.to - t.from - 1, t.wide, t.divider)
  }

  /** A 0 return: the mode is set and the last `sectors` transfers are a clean run in it, in
      the time between the two clock readings of the new log entry. */
  method TestMode(sd: GorvSd, reference: array<word>, scratch: array<word>, sectors: nat, wide: bool, divider: word)
    returns (err: int, rate: nat, ghost test: Test)
    requires Valid(sd.host.cfg, sd.host.s) && sd.calibrating
    requires reference.Length == REFERENCE_SECTORS * WORDS && scratch.Length == WORDS && reference != scratch
    modifies sd`rxFullEvents, sd`lastWordsQueued, sd`clockDiv, sd`dataClockDiv, sd`blocksTransferred,
             sd`transferRetries, sd`trace, sd`readLog, sd`tests, sd`wide, sd.host, scratch
    ensures Settling(sd.host.cfg, old(sd.host.s), sd.host.s) && Valid(sd.host.cfg, sd.host.s)
    ensures old(sd.trace) <= sd.trace && sd.dataClockDiv == old(sd.dataClockDiv)
    ensures test.wide == wide && test.divider == divider && test.sectors == sectors && test.err == err
    ensures sd.tests == old(sd.tests) + [test] && test.from == |old(sd.trace)| && test.to == |sd.trace|
    ensures old(sd.host.s.now) <= test.startNs <= test.endNs <= sd.host.s.now
    ensures rate == Rate(test) && (err == 0 ==> InWholeKiB(test, rate)) && Evident(sd.trace, reference[..], test)
    ensures err == 0 ==> sd.wide == wide && sd.clockDiv == divider && sd.host.s.pending == {}
  {
    hide Valid, Wire, Quiet, WriteEffect, Settling, CleanRun, FailedRun, InWholeKiB;
    ghost var c, s0, from := sd.host.cfg, sd.host.s, |sd.trace|;
    err := sd.PrepareMode(wide, divider);
    SettlingTwice(c, s0, s0, sd.host.s) by { SettlingSelf(c, s0); }
    SettlingLater(c, s0, sd.host.s);
    rate, test := 0, Test(wide, divider, sectors, err, sd.host.s.now, sd.host.s.now, from, from);
    if err != 0 {
      sd.tests := sd.tests + [test];
      return;
    }
    ghost var s1 := sd.host.s;
    var startNs := sd.host.Clock();
    ghost var s2 := sd.host.s;
    TickSettles(c, s0, s1, s2);
    err := TestReads(sd, reference, scratch, sectors);
    ghost var s3 := sd.host.s;
    SettlingQuiet(c, s0, s2, s3);
    QuietLater(c, s2, s3);
    var endNs := sd.host.Clock();
    TickSettles(c, s0, s3, sd.host.s);
    test := Test(wide, divider, sectors, err, startNs, endNs, from, |sd.trace|);
    sd.tests := sd.tests + [test];
    if err == 0 {
      var elapsedUs := (endNs - startNs) / 1000;
      rate := sectors * 500000 / (if elapsedUs > 1 then elapsedUs else 1);
      RateIsInKiB(test, rate);
    }
  }

  lemma SettlingLater(c: Config, s: Hw, t: Hw)
    requires Settling(c, s, t)
    ensures s.now <= t.now
  {
    hide Valid;
  }

  lemma QuietLater(c: Config, s: Hw, t: Hw)
    requires Quiet(c, s, t)
    ensures s.now <= t.now
  {
    hide Valid;
  }

  lemma TickSettles(c: Config, s: Hw, t: Hw, u: Hw)
    requires Settling(c, s, t) && Valid(c, t) && Advanced(c, t, u)
    ensures Settling(c, s, u) && Valid(c, u) && t.now <= u.now && u.pending == t.pending
  {
    hide Settling, Valid;
    DeliveredTick(c, t, u);
    SettlingQuiet(c, s, t, u);
    QuietLater(c, t, u);
  }

  // -------------------------------------------------------------------- search

  /** The log is what the transfers say. */
  ghost predicate Backed(trace: seq<Xfer>, reference: seq<word>, log: seq<Test>)
    requires |reference| == REFERENCE_SECTORS * WORDS
  {
    forall k: nat :: k < |log| ==> Evident(trace, reference, log[k])
  }

  lemma EvidentKept(a: seq<Xfer>, b: seq<Xfer>, reference: seq<word>, t: Test)
    requires |reference| == REFERENCE_SECTORS * WORDS && a <= b && Evident(a, reference, t)
    ensures Evident(b, reference, t)
  {
    hide CleanRun, CleanRead;
    if t.err == 0 {
      RunOn(a, b, t.from, reference, t.sectors, t.wide, t.divider);
    } else if t.to != t.from {
      RunOn(a, b, t.from, reference, t.to - t.from - 1, t.wide, t.divider);
    }
  }

  lemma BackedKept(a: seq<Xfer>, b: seq<Xfer>, reference: seq<word>, log: seq<Test>)
    requires |reference| == REFERENCE_SECTORS * WORDS && a <= b && Backed(a, reference, log)
    ensures Backed(b, reference, log)
  {
    hide Evident;
    forall k: nat | k < |log| ensures Evident(b, reference, log[k]) {
      EvidentKept(a, b, reference, log[k]);
    }
  }

  lemma BackedMore(a: seq<Xfer>, b: seq<Xfer>, reference: seq<word>, log: seq<Test>, t: Test)
    requires |reference| == REFERENCE_SECTORS * WORDS && a <= b && Backed(a, reference, log)
    requires Evident(b, reference, t)
    ensures Backed(b, reference, log + [t])
  {
    hide Evident;
    BackedKept(a, b, reference, log);
  }

  lemma PassedHasRun(trace: seq<Xfer>, reference: seq<word>, t: Test)
    requires |reference| == REFERENCE_SECTORS * WORDS && Evident(trace, reference, t) && t.err == 0
    ensures HasRun(trace, reference, t.sectors, t.wide, t.divider)
  {
    hide CleanRun;
  }

  /** One more test at the end of the log. */
  lemma LogMore(before: seq<Test>, log: seq<Test>, t: Test)
    ensures before + log + [t] == before + (log + [t])
  {
  }

  /** Every mode of both widths gets a short test, and its entry says whether it passed and
      at what rate. */
  method Sweep(sd: GorvSd, reference: array<word>, scratch: array<word>, results: array<CalResult>)
    returns (ghost log: seq<Test>)
    requires Valid(sd.host.cfg, sd.host.s) && sd.calibrating && results.Length == RESULT_COUNT
    requires reference.Length == REFERENCE_SECTORS * WORDS && scratch.Length == WORDS && reference != scratch
    modifies sd`rxFullEvents, sd`lastWordsQueued, sd`clockDiv, sd`dataClockDiv, sd`blocksTransferred,
             sd`transferRetries, sd`trace, sd`readLog, sd`tests, sd`wide, sd.host, scratch, results
    ensures Settling(sd.host.cfg, old(sd.host.s), sd.host.s) && Valid(sd.host.cfg, sd.host.s)
    ensures old(sd.trace) <= sd.trace && Backed(sd.trace, reference[..], log)
    ensures |log| == RESULT_COUNT && Sweeps(log) && results[..] == Swept(log)
    ensures sd.tests == old(sd.tests) + log
  {
    hide Valid, Settling, CleanRun, HasRun, Backed, Evident, Rate;
    ghost var c, s0 := sd.host.cfg, sd.host.s;
    SettlingSelf(c, s0);
    NothingBacked(sd.trace, reference[..]);
    log := [];
    var index := 0;
    for width := 0 to 2
      invariant Valid(c, sd.host.s) && Settling(c, s0, sd.host.s) && old(sd.trace) <= sd.trace
      invariant index == |log| == 25 * width && Sweeps(log) && results[..index] == Swept(log)
      invariant Backed(sd.trace, reference[..], log) && sd.tests == old(sd.tests) + log
    {
      for divider := 0 to CALIBRATION_MAX_DIV + 1
        invariant Valid(c, sd.host.s) && Settling(c, s0, sd.host.s) && old(sd.trace) <= sd.trace
        invariant index == |log| == 25 * width + divider && Sweeps(log) && results[..index] == Swept(log)
        invariant Backed(sd.trace, reference[..], log) && sd.tests == old(sd.tests) + log
      {
        ghost var s, trace := sd.host.s, sd.trace;
        var err, rate, test := TestMode(sd, reference, scratch, SWEEP_SECTORS, width == 1, divider);
        SettlingTwice(c, s0, s, sd.host.s);
        BackedMore(trace, sd.trace, reference[..], log, test);
        ghost var done := results[..index];
        results[index] := CalResult(divider, width == 1, err == 0, false, rate);
        assert results[..index + 1] == done + [results[index]];
        LogMore(old(sd.tests), log, test);
        log := log + [test];
        index := index + 1;
      }
    }
    assert results[..index] == results[..];
  }

  lemma NothingBacked(trace: seq<Xfer>, reference: seq<word>)
    requires |reference| == REFERENCE_SECTORS * WORDS
    ensures Backed(trace, reference, [])
  {
  }

  /** The fastest candidates get a long run, fastest first, until three have passed or none
      is left; an entry takes over the outcome and the rate of its long run. */
  method VerifyFastest(sd: GorvSd, reference: array<word>, scratch: array<word>, results: array<CalResult>)
    returns (verifiedModes: nat, ghost log: seq<Test>)
    requires Valid(sd.host.cfg, sd.host.s) && sd.calibrating && results.Length == RESULT_COUNT
    requires reference.Length == REFERENCE_SECTORS * WORDS && scratch.Length == WORDS && reference != scratch
    requires Table(results[..]) && forall i | 0 <= i < RESULT_COUNT :: !results[i].verified
    modifies sd`rxFullEvents, sd`lastWordsQueued, sd`clockDiv, sd`dataClockDiv, sd`blocksTransferred,
             sd`transferRetries, sd`trace, sd`readLog, sd`tests, sd`wide, sd.host, scratch, results
    ensures Settling(sd.host.cfg, old(sd.host.s), sd.host.s) && Valid(sd.host.cfg, sd.host.s)
    ensures old(sd.trace) <= sd.trace && Backed(sd.trace, reference[..], log)
    ensures BestFirst(old(results[..]), log, VERIFY_SECTORS) && LongEnough(old(results[..]), log)
    ensures LongResults(old(results[..]), log, results[..])
    ensures verifiedModes == CountVerified(results[..]) == CountPassed(log)
    ensures sd.tests == old(sd.tests) + log
  {
    hide Valid, Settling, CleanRun, HasRun, Backed, Evident, CountVerified, CountValid, Better, BestFirst,
      LongResults, TestsBest, Table, Rate, IsBest, CountPassed, LongResult, AllTried;
    ghost var c, s0, swept := sd.host.cfg, sd.host.s, results[..];
    SettlingSelf(c, s0);
    NothingBacked(sd.trace, reference[..]);
    NoneVerified(results[..]);
    NoLongRun(swept);
    verifiedModes, log := 0, [];
    assert results[..] == swept;
    while verifiedModes < VERIFY_CANDIDATES
      invariant Valid(c, sd.host.s) && Settling(c, s0, sd.host.s) && old(sd.trace) <= sd.trace
      invariant Backed(sd.trace, reference[..], log) && sd.tests == old(sd.tests) + log
      invariant BestFirst(swept, log, VERIFY_SECTORS) && LongResults(swept, log, results[..])
      invariant verifiedModes == CountVerified(results[..]) == CountPassed(log) <= VERIFY_CANDIDATES
      invariant verifiedModes == VERIFY_CANDIDATES ==> log != [] && log[|log| - 1].err == 0
      decreases CountValid(results[..])
    {
      var best := BestResult(results);
      if best < 0 {
        LongRunsExhausted(swept, log, results[..]);
        break;
      }
      ghost var s, before := sd.host.s, results[..];
      var err, test := LongRun(sd, reference, scratch, results, best, log);
      SettlingTwice(c, s0, s, sd.host.s);
      LongRunStep(swept, log, before, best, test);
      LogMore(old(sd.tests), log, test);
      log := log + [test];
      if err == 0 {
        verifiedModes := verifiedModes + 1;
      }
    }
  }

  /** One long run: the entry is no candidate any more, and verified at its new rate if the
      run passes. */
  method LongRun(sd: GorvSd, reference: array<word>, scratch: array<word>, results: array<CalResult>, best: nat,
                 ghost log: seq<Test>)
    returns (err: int, ghost test: Test)
    requires Valid(sd.host.cfg, sd.host.s) && sd.calibrating && best < results.Length
    requires reference.Length == REFERENCE_SECTORS * WORDS && scratch.Length == WORDS && reference != scratch
    requires Backed(sd.trace, reference[..], log)
    modifies sd`rxFullEvents, sd`lastWordsQueued, sd`clockDiv, sd`dataClockDiv, sd`blocksTransferred,
             sd`transferRetries, sd`trace, sd`readLog, sd`tests, sd`wide, sd.host, scratch, results
    ensures Settling(sd.host.cfg, old(sd.host.s), sd.host.s) && Valid(sd.host.cfg, sd.host.s)
    ensures old(sd.trace) <= sd.trace && Backed(sd.trace, reference[..], log + [test])
    ensures test.err == err && test.sectors == VERIFY_SECTORS && sd.tests == old(sd.tests) + [test]
    ensures test.wide == old(results[best]).wide && test.divider == old(results[best]).divider
    ensures results[..] == old(results[..])[best := LongResult(old(results[best]), test)]
  {
    hide Valid, Settling, CleanRun, Backed, Evident, Rate;
    ghost var trace := sd.trace;
    results[best] := results[best].(valid := false);
    var e, rate, t := TestMode(sd, reference, scratch, VERIFY_SECTORS, results[best].wide, results[best].divider);
    err, test := e, t;
    BackedMore(trace, sd.trace, reference[..], log, test);
    if err == 0 {
      results[best] := results[best].(verified := true, rate := rate);
    }
  }

  lemma NoLongRun(swept: seq<CalResult>)
    ensures BestFirst(swept, [], VERIFY_SECTORS) && LongResults(swept, [], swept) && CountPassed([]) == 0
  {
  }

  /** One long run of the best candidate, in the log and in the results. */
  lemma LongRunStep(swept: seq<CalResult>, log: seq<Test>, rs: seq<CalResult>, best: nat, t: Test)
    requires Table(swept) && BestFirst(swept, log, VERIFY_SECTORS) && LongResults(swept, log, rs)
    requires forall i | 0 <= i < |swept| :: !swept[i].verified
    requires best < |rs| && IsBest(rs, best) && t.wide == rs[best].wide && t.divider == rs[best].divider
    requires t.sectors == VERIFY_SECTORS
    ensures BestFirst(swept, log + [t], VERIFY_SECTORS)
    ensures LongResults(swept, log + [t], rs[best := LongResult(rs[best], t)])
    ensures CountPassed(log + [t]) == CountPassed(log) + if t.err == 0 then 1 else 0
    ensures CountVerified(rs[best := LongResult(rs[best], t)]) == CountVerified(rs) + if t.err == 0 then 1 else 0
    ensures CountValid(rs[best := LongResult(rs[best], t)]) < CountValid(rs)
  {
    hide Better, BestFirst, Table, LongResults, CountPassed, CountVerified, CountValid, Rate;
    NextLongRun(swept, log, rs, best, t);
    assert |rs| == |swept| by { LongResultsLength(swept, log, rs); }
    LongRunDone(swept, log, rs, t);
    BestFirstMore(swept, log, t, VERIFY_SECTORS);
    CountPassedMore(log, t);
    CountVerifiedUpdate(rs, best, LongResult(rs[best], t));
    CountUpdate(rs, best, LongResult(rs[best], t));
  }

  lemma LongResultsLength(swept: seq<CalResult>, log: seq<Test>, rs: seq<CalResult>)
    requires LongResults(swept, log, rs)
    ensures |rs| == |swept|
  {
  }

  /** What is known when the search has picked a mode: it is the one set, and its short, long
      and final runs were clean, the final one being the last thing done. */
  ghost predicate Picked(sd: GorvSd, reference: seq<word>, t: Test)
    requires |reference| == REFERENCE_SECTORS * WORDS
    reads sd`wide, sd`clockDiv, sd`trace
  {
    && sd.wide == t.wide && sd.clockDiv == t.divider
    && HasRun(sd.trace, reference, SWEEP_SECTORS, sd.wide, sd.clockDiv)
    && HasRun(sd.trace, reference, VERIFY_SECTORS, sd.wide, sd.clockDiv)
    && |sd.trace| >= REFERENCE_SECTORS
    && CleanRun(sd.trace, |sd.trace| - REFERENCE_SECTORS, reference, REFERENCE_SECTORS, sd.wide, sd.clockDiv)
  }

  /** Rechecks the candidates, best long-run rate first, until one passes: `failed` is the log
      of the others, and they are all that has changed in the results. The count of modes left
      is always the number of candidates, so it never goes below zero. */
  method Choose(sd: GorvSd, reference: array<word>, scratch: array<word>, results: array<CalResult>, modes: nat)
    returns (best: int, ghost failed: seq<Test>, ghost test: Test)
    requires Valid(sd.host.cfg, sd.host.s) && sd.calibrating && results.Length == RESULT_COUNT
    requires reference.Length == REFERENCE_SECTORS * WORDS && scratch.Length == WORDS && reference != scratch
    requires modes == CountValid(results[..]) && Table(results[..])
    modifies sd`rxFullEvents, sd`lastWordsQueued, sd`clockDiv, sd`dataClockDiv, sd`blocksTransferred,
             sd`transferRetries, sd`trace, sd`readLog, sd`tests, sd`wide, sd.host, scratch, results
    ensures Settling(sd.host.cfg, old(sd.host.s), sd.host.s) && Valid(sd.host.cfg, sd.host.s)
    ensures old(sd.trace) <= sd.trace && -1 <= best < RESULT_COUNT
    ensures BestFirst(old(results[..]), failed, REFERENCE_SECTORS) && AllFailed(failed)
    ensures Backed(sd.trace, reference[..], failed) && (best >= 0 ==> Evident(sd.trace, reference[..], test))
    ensures sd.tests == old(sd.tests) + failed + if best >= 0 then [test] else []
    ensures Rejects(old(results[..]), failed, results[..])
    ensures best >= 0 ==>
              && TestsBest(old(results[..]), failed, test) && Mode(test) == best
              && test.err == 0 && test.sectors == REFERENCE_SECTORS
              && sd.wide == test.wide && sd.dataClockDiv == sd.clockDiv == test.divider && sd.host.s.pending == {}
              && test.to == |sd.trace|
    ensures IsBest(results[..], best)
    ensures best < 0 ==> AllTried(old(results[..]), failed) && CountValid(results[..]) == 0
  {
    hide Valid, Settling, CleanRun, HasRun, Backed, Evident, CountValid, Better, BestFirst, TestsBest, Table, Rate,
      IsBest, Rejects, AllTried;
    ghost var c, s0, candidates := sd.host.cfg, sd.host.s, results[..];
    SettlingSelf(c, s0);
    NoRecheck(candidates);
    NothingBacked(sd.trace, reference[..]);
    var verifiedModes := modes;
    failed, test := [], Test(false, 0, 0, 0, 0, 0, 0, 0);
    while true
      invariant Valid(c, sd.host.s) && Settling(c, s0, sd.host.s) && old(sd.trace) <= sd.trace
      invariant verifiedModes == CountValid(results[..])
      invariant BestFirst(candidates, failed, REFERENCE_SECTORS) && AllFailed(failed)
      invariant Rejects(candidates, failed, results[..])
      invariant Backed(sd.trace, reference[..], failed) && sd.tests == old(sd.tests) + failed
      decreases verifiedModes
    {
      best := BestResult(results);
      if best < 0 {
        RechecksExhausted(candidates, failed, results[..]);
        NoneValid(results[..]);
        return;
      }
      ghost var s, before, trace := sd.host.s, results[..], sd.trace;
      var err, rate, recheck :=
        TestMode(sd, reference, scratch, REFERENCE_SECTORS, results[best].wide, results[best].divider);
      test := recheck;
      SettlingTwice(c, s0, s, sd.host.s);
      NextRecheck(candidates, failed, before, best, test);
      BackedKept(trace, sd.trace, reference[..], failed);
      if err == 0 {
        sd.dataClockDiv := results[best].divider;
        return;
      }
      results[best] := results[best].(valid := false);
      RecheckStep(candidates, failed, before, best, test);
      assert results[..] == before[best := before[best].(valid := false)];
      BackedMore(trace, sd.trace, reference[..], failed, test);
      LogMore(old(sd.tests), failed, test);
      failed := failed + [test];
      verifiedModes := verifiedModes - 1;
    }
  }

  lemma NoRecheck(candidates: seq<CalResult>)
    ensures BestFirst(candidates, [], REFERENCE_SECTORS) && Rejects(candidates, [], candidates)
  {
  }

  lemma RecheckStep(candidates: seq<CalResult>, failed: seq<Test>, rs: seq<CalResult>, best: nat, t: Test)
    requires BestFirst(candidates, failed, REFERENCE_SECTORS) && Rejects(candidates, failed, rs)
    requires best < |rs| && IsBest(rs, best) && TestsBest(candidates, failed, t) && Mode(t) == best
    requires t.sectors == REFERENCE_SECTORS
    ensures BestFirst(candidates, failed + [t], REFERENCE_SECTORS)
    ensures Rejects(candidates, failed + [t], rs[best := rs[best].(valid := false)])
    ensures CountValid(rs[best := rs[best].(valid := false)]) == CountValid(rs) - 1
  {
    hide Better, BestFirst, Rejects, TestsBest, CountValid;
    RecheckFailed(candidates, failed, rs, t);
    BestFirstMore(candidates, failed, t, REFERENCE_SECTORS);
    CountUpdate(rs, best, rs[best].(valid := false));
  }

  /** Sweep, long runs and rechecks once the reference is known. */
  method SearchModes(sd: GorvSd, data: array<word>, scratch: array<word>, referenceDivider: word)
    returns (err: int, ghost run: Calibration, ghost best: int)
    requires Valid(sd.host.cfg, sd.host.s) && sd.calibrating
    requires data.Length == REFERENCE_SECTORS * WORDS && scratch.Length == WORDS && data != scratch
    modifies sd`rxFullEvents, sd`lastWordsQueued, sd`clockDiv, sd`dataClockDiv, sd`blocksTransferred,
             sd`transferRetries, sd`trace, sd`readLog, sd`tests, sd`wide, sd.host, scratch
    ensures Settling(sd.host.cfg, old(sd.host.s), sd.host.s)
    ensures old(sd.trace) <= sd.trace && Searched(run)
    ensures Backed(sd.trace, data[..], run.sweep) && Backed(sd.trace, data[..], run.longRuns)
    ensures Backed(sd.trace, data[..], run.rechecks)
    ensures sd.tests == old(sd.tests) + run.sweep + run.longRuns + run.rechecks
    ensures err == 0 ==> sd.clockDiv == sd.dataClockDiv && sd.host.s.pending == {}
    ensures err == 0 && best >= 0 ==> Wins(run, best) && Picked(sd, data[..], run.longRuns[best])
    ensures best < 0 ==> NoneWins(run)
    ensures err == 0 && best < 0 ==> !sd.wide && sd.clockDiv == referenceDivider
  {
    hide Valid, Settling, CleanRun, HasRun, Backed, Evident, Searched, Wins, NoneWins, Picked, Sweeps, Swept, Table,
      BestFirst, LongResults, LongEnough, TestsBest, AllTried, AllFailed, Rejects, CountValid, CountVerified,
      CountPassed, Promoted;
    ghost var c, s0, reference := sd.host.cfg, sd.host.s, data[..];
    SettlingSelf(c, s0);
    var results := new CalResult[RESULT_COUNT](_ => CalResult(0, false, false, false, 0));
    ghost var sweep := Sweep(sd, data, scratch, results);
    ghost var s, t1, swept := sd.host.s, sd.trace, results[..];
    SweptTable(sweep);
    assert data[..] == reference;
    var modes, longRuns := VerifyFastest(sd, data, scratch, results);
    ghost var t2, rs := sd.trace, results[..];
    SettlingTwice(c, s0, s, sd.host.s);
    assert data[..] == reference;
    LongRunsTable(swept, longRuns, rs);
    forall i | 0 <= i < RESULT_COUNT {
      results[i] := results[i].(valid := results[i].verified);
    }
    PromotedIs(rs, results[..]);
    ghost var candidates := results[..];
    s := sd.host.s;
    var choice, failed, test := Choose(sd, data, scratch, results, modes);
    SettlingTwice(c, s0, s, sd.host.s);
    assert data[..] == reference;
    BackedKept(t1, sd.trace, reference, sweep);
    BackedKept(t2, sd.trace, reference, longRuns);
    run := Calibration(sweep, longRuns, if choice >= 0 then failed + [test] else failed);
    if choice >= 0 {
      BackedMore(sd.trace, sd.trace, reference, failed, test);
      LogMore(old(sd.tests) + sweep + longRuns, failed, test);
    }
    SearchDone(run, swept);
    if choice >= 0 {
      best := LastRecheckWins(run, rs, failed, test);
      WinnerPicked(sd, reference, run, best);
      err := 0;
    } else {
      best := -1;
      NoRecheckPassed(run, rs);
      s := sd.host.s;
      err := sd.PrepareMode(false, referenceDivider);
      SettlingTwice(c, s0, s, sd.host.s);
      if err == 0 {
        sd.dataClockDiv := referenceDivider;
      }
      assert data[..] == reference;
    }
  }

  lemma SweptTable(log: seq<Test>)
    requires |log| == RESULT_COUNT && Sweeps(log)
    ensures Table(Swept(log)) && forall i | 0 <= i < |Swept(log)| :: !Swept(log)[i].verified
  {
    hide Rate;
  }

  lemma LongRunsTable(swept: seq<CalResult>, log: seq<Test>, rs: seq<CalResult>)
    requires Table(swept) && LongResults(swept, log, rs)
    ensures Table(rs)
  {
    hide Rate;
    forall i | 0 <= i < |rs| ensures IsMode(rs[i].wide, rs[i].divider, i) {
      if Tried(log, i) {
        var k :| 0 <= k < |log| && Mode(log[k]) == i;
        assert rs[Mode(log[k])] == LongResult(swept[i], log[k]);
      }
    }
  }

  lemma PromotedIs(rs: seq<CalResult>, promoted: seq<CalResult>)
    requires Table(rs) && |promoted| == |rs|
    requires forall i | 0 <= i < |rs| :: promoted[i] == rs[i].(valid := rs[i].verified)
    ensures promoted == Promoted(rs) && Table(promoted) && CountValid(promoted) == CountVerified(rs)
  {
    CountPromoted(rs, promoted);
  }

  lemma SearchDone(run: Calibration, swept: seq<CalResult>)
    requires |run.sweep| == RESULT_COUNT && Sweeps(run.sweep) && swept == Swept(run.sweep)
    requires BestFirst(swept, run.longRuns, VERIFY_SECTORS) && LongEnough(swept, run.longRuns)
    ensures Searched(run)
  {
    hide Sweeps, BestFirst, LongEnough;
  }

  /** The winner's short and long runs are in the log. */
  lemma WinnerPicked(sd: GorvSd, reference: seq<word>, run: Calibration, best: int)
    requires |reference| == REFERENCE_SECTORS * WORDS && Searched(run) && Wins(run, best)
    requires Backed(sd.trace, reference, run.sweep) && Backed(sd.trace, reference, run.longRuns)
    requires sd.wide == run.rechecks[|run.rechecks| - 1].wide && sd.clockDiv == run.rechecks[|run.rechecks| - 1].divider
    requires Backed(sd.trace, reference, run.rechecks) && run.rechecks[|run.rechecks| - 1].to == |sd.trace|
    ensures Picked(sd, reference, run.longRuns[best])
  {
    hide CleanRun, HasRun, Better, Rate, Evident, Searched, Mode;
    var w, last := run.longRuns[best], run.rechecks[|run.rechecks| - 1];
    WinnerSwept(run, best);
    PassedHasRun(sd.trace, reference, run.sweep[Mode(w)]);
    PassedHasRun(sd.trace, reference, w);
    LastIsRun(sd.trace, reference, last);
  }

  /** A mode that has had a long run has passed the sweep. */
  lemma WinnerSwept(run: Calibration, k: nat)
    requires Searched(run) && k < |run.longRuns|
    ensures var w := run.longRuns[k];
            && w.sectors == VERIFY_SECTORS && 0 <= Mode(w) < |run.sweep|
            && var short := run.sweep[Mode(w)];
               short.err == 0 && short.sectors == SWEEP_SECTORS && short.wide == w.wide && short.divider == w.divider
  {
    hide Better, Rate, LongEnough;
    var w := run.longRuns[k];
    assert TestsBest(Swept(run.sweep), run.longRuns[..k], w);
    assert run.sweep[Mode(w)].err == 0;
  }

  lemma LoggedInOrder(trace: seq<Xfer>, reference: seq<word>, log: seq<Test>)
    requires |reference| == REFERENCE_SECTORS * WORDS && Backed(trace, reference, log)
    ensures forall k | 0 <= k < |log| :: log[k].startNs <= log[k].endNs
  {
    hide CleanRun, FailedRun;
  }

  lemma LastIsRun(trace: seq<Xfer>, reference: seq<word>, t: Test)
    requires |reference| == REFERENCE_SECTORS * WORDS && Evident(trace, reference, t) && t.err == 0 && t.to == |trace|
    ensures t.sectors <= |trace| && CleanRun(trace, |trace| - t.sectors, reference, t.sectors, t.wide, t.divider)
  {
    hide CleanRun;
  }

  /** A 0 return leaves the driver in a proven mode: the rechecked mode with the best long-run
      rate of those whose recheck did not fail or, if every mode with a passed long run failed
      its recheck, the 1-bit mode in which the reference itself was read twice without a fault.
      `run` is the log of the search and `best` the winner's long run in it. Nothing is written
      to the card. */
  method AutoCalibrate(sd: GorvSd) returns (err: int, ghost reference: seq<word>, ghost run: Calibration,
                       ghost best: int)
    requires Valid(sd.host.cfg, sd.host.s)
    modifies sd`rxFullEvents, sd`lastWordsQueued, sd`clockDiv, sd`dataClockDiv, sd`blocksTransferred,
             sd`transferRetries, sd`trace, sd`readLog, sd`tests, sd`wide, sd`calibrating, sd.host
    ensures Settling(sd.host.cfg, old(sd.host.s), sd.host.s)
    ensures old(sd.trace) <= sd.trace && !sd.calibrating
    ensures err == 0 ==>
              && sd.clockDiv == sd.dataClockDiv && sd.host.s.pending == {}
              && |reference| == REFERENCE_SECTORS * WORDS
              && Searched(run) && Backed(sd.trace, reference, run.sweep) && Backed(sd.trace, reference, run.longRuns)
              && Backed(sd.trace, reference, run.rechecks)
              && sd.tests == old(sd.tests) + run.sweep + run.longRuns + run.rechecks
              && if best >= 0 then
                   && Wins(run, best) && Picked(sd, reference, run.longRuns[best])
                   && forall k | 0 <= k < |run.longRuns| :: Faster(run.longRuns[k], run.longRuns[best]) ==>
                        run.longRuns[k].err != 0 || Rejected(run, run.longRuns[k])
                 else
                   && NoneWins(run) && !sd.wide && sd.clockDiv in {CALIBRATION_SAFE_DIV, CALIBRATION_FALLBACK_DIV}
                   && HasRun(sd.trace, reference, 2 * REFERENCE_SECTORS, false, sd.clockDiv)
  {
    hide Valid, Settling, CleanRun, HasRun, Backed, Evident, Searched, Wins, NoneWins, Picked, Faster, Rejected;
    ghost var c, s0 := sd.host.cfg, sd.host.s;
    SettlingSelf(c, s0);
    reference, run, best := [], Calibration([], [], []), -1;
    var outOfMemory: bool := *;
    if outOfMemory {
      sd.calibrating := false;
      return ENOMEM, reference, run, best;
    }
    var data, scratch := new word[REFERENCE_SECTORS * WORDS](_ => 0), new word[WORDS](_ => 0);
    sd.calibrating := true;
    var referenceDivider := CALIBRATION_SAFE_DIV;
    err := MakeReference(sd, data, scratch, referenceDivider);
    ghost var s1 := sd.host.s;
    SettlingTwice(c, s0, s0, s1);
    if err != 0 {
      referenceDivider := CALIBRATION_FALLBACK_DIV;
      err := MakeReference(sd, data, scratch, referenceDivider);
      SettlingTwice(c, s0, s1, sd.host.s);
    }
    if err != 0 {
      sd.calibrating := false;
      return;
    }
    reference := data[..];
    ghost var s, t1 := sd.host.s, sd.trace;
    err, run, best := SearchModes(sd, data, scratch, referenceDivider);
    SettlingTwice(c, s0, s, sd.host.s);
    RunKept(t1, sd.trace, reference, 2 * REFERENCE_SECTORS, false, referenceDivider);
    LoggedInOrder(sd.trace, reference, run.longRuns);
    if err == 0 && best >= 0 {
      WinnerIsFastest(run, best);
    }
    sd.calibrating := false;
  }
}
