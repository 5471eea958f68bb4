/** The destructive write self-test of the SD driver (gorv32_sd.c, `sd_write_selftest`). */
module SdSelftest {
  import opened Words
  import opened SdHost
  import opened SdDriver

  const WRITE_TEST_GUARD_SECTORS := 8192
  const SENTINELS := 4

  /** The layout that probe insists on before it enables the test. */
  predicate SafeLayout(rootLba: word, rootSectors: word, scratch: word) {
    && rootSectors >= 3
    && rootLba > 2 * WRITE_TEST_GUARD_SECTORS
    && WRITE_TEST_GUARD_SECTORS <= scratch < rootLba - WRITE_TEST_GUARD_SECTORS
    && rootLba <= U32_MAX - (rootSectors - 1)
  }

  /** Boot header, both neighbours of the scratch block, and the root superblock. */
  function SentinelLbas(rootLba: word, rootSectors: word, scratch: word): (l: seq<word>)
    requires SafeLayout(rootLba, rootSectors, scratch)
    ensures |l| == SENTINELS
  {
    [0, scratch - 1, scratch + 1, rootLba + 2]
  }

  ghost predicate IdleCard(c: Config, s: Hw) {
    Valid(c, s) && s.pending == {}
  }

  /** An idle card stayed idle, got no write, and holds what it held. */
  ghost predicate SameCard(c: Config, s: Hw, t: Hw) {
    && IdleCard(c, s) && IdleCard(c, t) && t.cmd24 == s.cmd24 && t.now >= s.now
    && forall l: word :: t.content[l] == s.content[l]
  }

  /** At most `n` further write commands, all to `lba`. */
  ghost predicate WritesOnly(before: seq<word>, after: seq<word>, lba: word, n: nat) {
    && before <= after && |after| <= |before| + n
    && forall i | |before| <= i < |after| :: after[i] == lba
  }

  lemma QuietOnIdle(c: Config, s: Hw, t: Hw)
    requires IdleCard(c, s) && (Quiet(c, s, t) || Settling(c, s, t))
    ensures SameCard(c, s, t)
  {
    hide ValidTransfer;
    forall l: word ensures t.content[l] == s.content[l] {
      assert Stable(c, s.pending, l);
    }
  }

  lemma SameTwice(c: Config, s: Hw, t: Hw, u: Hw)
    requires SameCard(c, s, t) && SameCard(c, t, u)
    ensures SameCard(c, s, u)
  {
    hide Valid;
  }

  lemma SameSelf(c: Config, s: Hw)
    requires IdleCard(c, s)
    ensures SameCard(c, s, s)
  {
    hide ValidTransfer;
  }

  /** A block as reads return it. */
  function View(swap: bool, content: map<word, Sector>, l: word): (r: seq<word>)
    requires l in content
    ensures |r| == WORDS
  {
    Wire(swap, content[l])
  }

  lemma ViewSame(swap: bool, a: map<word, Sector>, b: map<word, Sector>, l: word)
    requires l in a && l in b
    ensures View(swap, a, l) == View(swap, b, l) <==> a[l] == b[l]
  {
    WireTwice(swap, a[l]);
    WireTwice(swap, b[l]);
  }

  lemma IdleAfter(c: Config, s: Hw, t: Hw)
    requires SameCard(c, s, t)
    ensures IdleCard(c, t) && Valid(c, t) && Total(t.content) && Total(s.content) && t.cmd24 == s.cmd24
    ensures forall l: word :: t.content[l] == s.content[l]
  {
    hide ValidTransfer;
  }

  /** One read attempt from an idle card. */
  method Read(sd: GorvSd, lba: word, buffer: array<word>, off: nat) returns (err: int)
    requires IdleCard(sd.host.cfg, sd.host.s) && off + WORDS <= buffer.Length
    modifies sd`rxFullEvents, sd`lastWordsQueued, sd`readLog, sd.host, buffer
    ensures SameCard(sd.host.cfg, old(sd.host.s), sd.host.s)
    ensures OnlyBlock(old(buffer[..]), buffer[..], off)
    ensures err == 0 ==> buffer[off..off + WORDS] == View(sd.swapWords, old(sd.host.s).content, lba)
    ensures err in {0, ERANGE, EIO, ETIMEDOUT} && (err == ERANGE ==> !Addressable(sd.host.cfg, lba))
    ensures sd.readLog == if err == 0 then old(sd.readLog) + [ReadResult(lba, buffer[off..off + WORDS])]
                          else old(sd.readLog)
  {
    hide Valid, Wire, Quiet, WriteEffect;
    err := sd.TransferOneShot(lba, buffer, off, false);
    QuietOnIdle(sd.host.cfg, old(sd.host.s), sd.host.s);
  }

  /** Reads a block into two places and insists that both reads agree. */
  method ReadTwice(sd: GorvSd, lba: word, first: array<word>, off: nat, second: array<word>) returns (err: int)
    requires IdleCard(sd.host.cfg, sd.host.s) && off + WORDS <= first.Length && second.Length == WORDS
             && first != second
    modifies sd`rxFullEvents, sd`lastWordsQueued, sd`readLog, sd.host, first, second
    ensures SameCard(sd.host.cfg, old(sd.host.s), sd.host.s)
    ensures OnlyBlock(old(first[..]), first[..], off)
    ensures err == 0 ==> first[off..off + WORDS] == View(sd.swapWords, old(sd.host.s).content, lba)
    ensures old(sd.readLog) <= sd.readLog
  {
    hide IdleCard, SameCard, View;
    ghost var s0 := sd.host.s;
    err := Read(sd, lba, first, off);
    ghost var s1 := sd.host.s;
    IdleAfter(sd.host.cfg, s0, s1);
    if err != 0 {
      return;
    }
    err := Read(sd, lba, second, 0);
    SameTwice(sd.host.cfg, s0, s1, sd.host.s);
    if err != 0 {
      return;
    }
    if first[off..off + WORDS] != second[0..WORDS] {
      err := EILSEQ;
    }
  }

  /** The test buffers, all distinct. */
  datatype Buffers = Buffers(original: array<word>, scratch: array<word>, pattern: array<word>, sentinels: array<word>)

  ghost predicate Separate(b: Buffers) {
    && b.original.Length == b.scratch.Length == b.pattern.Length == WORDS && b.sentinels.Length == SENTINELS * WORDS
    && b.original != b.scratch && b.original != b.pattern && b.original != b.sentinels
    && b.scratch != b.pattern && b.scratch != b.sentinels && b.pattern != b.sentinels
  }

  /** The first `n` copies are the blocks `lbas` as read from `content`. */
  ghost predicate Copied(swap: bool, content: map<word, Sector>, lbas: seq<word>, copies: seq<word>, n: nat)
    requires Total(content)
  {
    && n <= |lbas| && |lbas| * WORDS <= |copies|
    && forall i: nat :: i < n ==> copies[i * WORDS..(i + 1) * WORDS] == View(swap, content, lbas[i])
  }

  lemma SamePrefix(a: seq<word>, b: seq<word>, lo: nat, hi: nat, n: nat)
    requires lo <= hi <= n <= |a| && n <= |b| && a[..n] == b[..n]
    ensures a[lo..hi] == b[lo..hi]
  {
    assert a[lo..hi] == a[..n][lo..hi];
    assert b[lo..hi] == b[..n][lo..hi];
  }

  lemma OneMoreCopy(swap: bool, content: map<word, Sector>, lbas: seq<word>, before: seq<word>, after: seq<word>,
                    n: nat)
    requires Total(content) && Copied(swap, content, lbas, before, n) && n < |lbas|
    requires OnlyBlock(before, after, n * WORDS)
    requires after[n * WORDS..(n + 1) * WORDS] == View(swap, content, lbas[n])
    ensures Copied(swap, content, lbas, after, n + 1)
  {
    hide View;
    forall i: nat | i < n ensures after[i * WORDS..(i + 1) * WORDS] == before[i * WORDS..(i + 1) * WORDS] {
      SamePrefix(before, after, i * WORDS, (i + 1) * WORDS, n * WORDS);
    }
  }

  /** The repeatable pre-reads of the scratch block and the sentinels. */
  method PreRead(sd: GorvSd, b: Buffers, lbas: seq<word>) returns (err: int)
    requires IdleCard(sd.host.cfg, sd.host.s) && Separate(b) && |lbas| == SENTINELS
    modifies sd`rxFullEvents, sd`lastWordsQueued, sd`readLog, sd.host, b.original, b.scratch, b.sentinels
    ensures SameCard(sd.host.cfg, old(sd.host.s), sd.host.s) && old(sd.readLog) <= sd.readLog
    ensures Total(old(sd.host.s).content)
    ensures err == 0 ==> b.original[..] == View(sd.swapWords, old(sd.host.s).content, sd.writeTestLba)
    ensures err == 0 ==> Copied(sd.swapWords, old(sd.host.s).content, lbas, b.sentinels[..], SENTINELS)
  {
    hide IdleCard, SameCard, View;
    ghost var c, s0 := sd.host.cfg, sd.host.s;
    err := ReadTwice(sd, sd.writeTestLba, b.original, 0, b.scratch);
    IdleAfter(c, s0, sd.host.s);
    assert b.original[..] == b.original[0..WORDS];
    if err != 0 {
      return;
    }
    for i := 0 to SENTINELS
      invariant SameCard(c, s0, sd.host.s) && old(sd.readLog) <= sd.readLog
      invariant b.original[..] == View(sd.swapWords, s0.content, sd.writeTestLba) && err == 0
      invariant Copied(sd.swapWords, s0.content, lbas, b.sentinels[..], i)
    {
      ghost var s, before := sd.host.s, b.sentinels[..];
      IdleAfter(c, s0, s);
      err := ReadTwice(sd, lbas[i], b.sentinels, i * WORDS, b.scratch);
      SameTwice(c, s0, s, sd.host.s);
      if err != 0 {
        return;
      }
      ViewSame(sd.swapWords, s0.content, s.content, lbas[i]);
      OneMoreCopy(sd.swapWords, s0.content, lbas, before, b.sentinels[..], i);
    }
  }

  /** CMD24 to the scratch block and to nothing else. */
  method WriteTestSector(sd: GorvSd, buffer: array<word>) returns (err: int)
    requires IdleCard(sd.host.cfg, sd.host.s) && buffer.Length == WORDS && sd.writeTestEnabled
    modifies sd`rxFullEvents, sd`lastWordsQueued, sd`readLog, sd`writeTestActive, sd.host, buffer
    ensures !sd.writeTestActive && buffer[..] == old(buffer[..]) && sd.readLog == old(sd.readLog)
    ensures Valid(sd.host.cfg, sd.host.s)
    ensures WritesOnly(old(sd.host.s).cmd24, sd.host.s.cmd24, sd.writeTestLba, 1)
    ensures err == 0 ==> sd.host.s.pending == {}
  {
    hide ValidTransfer, Wire, Quiet, Untouched;
    sd.writeTestActive := true;
    err := sd.TransferOneShot(sd.writeTestLba, buffer, 0, true);
    sd.writeTestActive := false;
  }

  /** The scratch block must read as `want`, twice. */
  method ReadBack(sd: GorvSd, want: array<word>, scratch: array<word>) returns (err: int)
    requires IdleCard(sd.host.cfg, sd.host.s) && want.Length == scratch.Length == WORDS && want != scratch
    modifies sd`rxFullEvents, sd`lastWordsQueued, sd`readLog, sd.host, scratch
    ensures SameCard(sd.host.cfg, old(sd.host.s), sd.host.s) && old(sd.readLog) <= sd.readLog
    ensures Total(old(sd.host.s).content)
    ensures err == 0 ==> want[..] == View(sd.swapWords, old(sd.host.s).content, sd.writeTestLba)
    ensures err == 0 ==> sd.readLog != old(sd.readLog)
                         && sd.readLog[|sd.readLog| - 1] == ReadResult(sd.writeTestLba, want[..])
  {
    hide IdleCard, SameCard, View;
    ghost var c, s0 := sd.host.cfg, sd.host.s;
    SameSelf(c, s0);
    IdleAfter(c, s0, s0);
    err := 0;
    for pass := 0 to 2
      invariant SameCard(c, s0, sd.host.s) && old(sd.readLog) <= sd.readLog && err == 0
      invariant pass > 0 ==> want[..] == View(sd.swapWords, s0.content, sd.writeTestLba)
      invariant pass > 0 ==> sd.readLog != old(sd.readLog)
                             && sd.readLog[|sd.readLog| - 1] == ReadResult(sd.writeTestLba, want[..])
    {
      ghost var s := sd.host.s;
      IdleAfter(c, s0, s);
      err := Read(sd, sd.writeTestLba, scratch, 0);
      SameTwice(c, s0, s, sd.host.s);
      if err != 0 {
        return;
      }
      ViewSame(sd.swapWords, s0.content, s.content, sd.writeTestLba);
      if want[..] != scratch[0..WORDS] {
        return EILSEQ;
      }
    }
  }

  /** Every sentinel is read twice and compared with its copy; the first failure is kept. */
  method PostRead(sd: GorvSd, b: Buffers, lbas: seq<word>, before: int) returns (err: int)
    requires IdleCard(sd.host.cfg, sd.host.s) && Separate(b) && |lbas| == SENTINELS
    modifies sd`rxFullEvents, sd`lastWordsQueued, sd`readLog, sd.host, b.pattern, b.scratch
    ensures SameCard(sd.host.cfg, old(sd.host.s), sd.host.s) && old(sd.readLog) <= sd.readLog
    ensures Total(old(sd.host.s).content) && (before != 0 ==> err == before)
    ensures err == 0 ==> Copied(sd.swapWords, old(sd.host.s).content, lbas, b.sentinels[..], SENTINELS)
  {
    hide IdleCard, SameCard, View;
    ghost var c, s0 := sd.host.cfg, sd.host.s;
    SameSelf(c, s0);
    IdleAfter(c, s0, s0);
    err := before;
    for i := 0 to SENTINELS
      invariant SameCard(c, s0, sd.host.s) && old(sd.readLog) <= sd.readLog
      invariant before != 0 ==> err == before
      invariant err == 0 ==> Copied(sd.swapWords, s0.content, lbas, b.sentinels[..], i)
    {
      ghost var s := sd.host.s;
      IdleAfter(c, s0, s);
      var sentinelError := ReadTwice(sd, lbas[i], b.scratch, 0, b.pattern);
      SameTwice(c, s0, s, sd.host.s);
      if sentinelError != 0 {
        err := if err == 0 then sentinelError else err;
        continue;
      }
      ViewSame(sd.swapWords, s0.content, s.content, lbas[i]);
      if b.sentinels[i * WORDS..(i + 1) * WORDS] != b.scratch[0..WORDS] {
        err := if err == 0 then EILSEQ else err;
      }
    }
  }

  /** These blocks hold in `t` what they held in `s`. */
  ghost predicate Restored(s: map<word, Sector>, t: map<word, Sector>, lbas: seq<word>) {
    Total(s) && Total(t) && forall i: nat :: i < |lbas| ==> t[lbas[i]] == s[lbas[i]]
  }

  /** Boot header, scratch block, both its neighbours and the root superblock are as they were. */
  ghost predicate NothingLost(s: map<word, Sector>, t: map<word, Sector>, rootLba: word, scratch: word) {
    && Total(s) && Total(t) && 0 < scratch < U32_MAX && rootLba <= U32_MAX - 2
    && t[0] == s[0] && t[scratch - 1] == s[scratch - 1] && t[scratch] == s[scratch] && t[scratch + 1] == s[scratch + 1]
    && t[rootLba + 2] == s[rootLba + 2]
  }

  lemma SentinelsAre(s: map<word, Sector>, t: map<word, Sector>, rootLba: word, rootSectors: word, scratch: word)
    requires SafeLayout(rootLba, rootSectors, scratch) && Restored(s, t, [scratch])
    requires Restored(s, t, SentinelLbas(rootLba, rootSectors, scratch))
    ensures NothingLost(s, t, rootLba, scratch)
  {
    var l := SentinelLbas(rootLba, rootSectors, scratch);
    assert t[l[0]] == s[l[0]] && t[l[1]] == s[l[1]] && t[l[2]] == s[l[2]] && t[l[3]] == s[l[3]];
    assert t[[scratch][0]] == s[[scratch][0]];
  }

  /** A block that differed from the scratch block's contents has been read from it. */
  ghost predicate SawPattern(before: seq<ReadResult>, after: seq<ReadResult>, lba: word, original: seq<word>) {
    && before <= after
    && exists i: nat :: |before| <= i < |after| && after[i].lba == lba && after[i].data != original
  }

  lemma CopiesAgree(swap: bool, a: map<word, Sector>, b: map<word, Sector>, lbas: seq<word>, copies: seq<word>)
    requires Total(a) && Total(b)
    requires Copied(swap, a, lbas, copies, |lbas|) && Copied(swap, b, lbas, copies, |lbas|)
    ensures Restored(a, b, lbas)
  {
    hide View;
    forall i: nat | i < |lbas| ensures b[lbas[i]] == a[lbas[i]] {
      assert copies[i * WORDS..(i + 1) * WORDS] == View(swap, a, lbas[i]) == View(swap, b, lbas[i]);
      ViewSame(swap, a, b, lbas[i]);
    }
  }

  lemma WritesTwice(a: seq<word>, b: seq<word>, d: seq<word>, lba: word, m: nat, n: nat)
    requires WritesOnly(a, b, lba, m) && WritesOnly(b, d, lba, n)
    ensures WritesOnly(a, d, lba, m + n)
  {
  }

  lemma SettledCard(c: Config, s: Hw, t: Hw, lba: word, n: nat, before: seq<word>)
    requires Settling(c, s, t) && WritesOnly(before, s.cmd24, lba, n)
    ensures Valid(c, t) && WritesOnly(before, t.cmd24, lba, n)
    ensures t.pending == {} ==> IdleCard(c, t)
  {
    hide ValidTransfer;
  }

  lemma SawIt(before: seq<ReadResult>, after: seq<ReadResult>, lba: word, original: seq<word>, pattern: seq<word>)
    requires before <= after && after != before && pattern != original
    requires after[|after| - 1] == ReadResult(lba, pattern)
    ensures SawPattern(before, after, lba, original)
  {
  }

  /** The test write and its read-back; on a failure the card is initialised anew, because a
      failed CMD24 may have landed. */
  method PatternPhase(sd: GorvSd, b: Buffers) returns (err: int, modeError: int)
    requires IdleCard(sd.host.cfg, sd.host.s) && Separate(b) && sd.writeTestEnabled
    requires b.pattern[..] != b.original[..]
    modifies sd`rxFullEvents, sd`lastWordsQueued, sd`readLog, sd`writeTestActive, sd`clockDiv, sd`dataClockDiv, sd`wide
    modifies sd.host, b.scratch, b.pattern
    ensures Valid(sd.host.cfg, sd.host.s) && old(sd.readLog) <= sd.readLog
    ensures WritesOnly(old(sd.host.s).cmd24, sd.host.s.cmd24, sd.writeTestLba, 1)
    ensures if modeError == 0 then IdleCard(sd.host.cfg, sd.host.s) else err != 0
    ensures err == 0 ==> SawPattern(old(sd.readLog), sd.readLog, sd.writeTestLba, b.original[..])
  {
    hide Valid, IdleCard, SameCard, View, Settling, WritesOnly, SawPattern;
    ghost var c, s0, scratch := sd.host.cfg, sd.host.s, sd.writeTestLba;
    ghost var pattern := b.pattern[..];
    modeError := 0;
    err := WriteTestSector(sd, b.pattern);
    ghost var s1 := sd.host.s;
    if err == 0 {
      IdleNow(c, s1);
      err := ReadBack(sd, b.pattern, b.scratch);
      SameWrites(c, s1, sd.host.s, scratch, 1, s0.cmd24);
    }
    if err == 0 {
      SawIt(old(sd.readLog), sd.readLog, scratch, b.original[..], pattern);
    } else {
      ghost var s2, tries := sd.host.s, 0;
      modeError, tries := sd.PrepareModeRetry(false, CALIBRATION_SAFE_DIV);
      SettledCard(c, s2, sd.host.s, scratch, 1, s0.cmd24);
    }
  }

  /** The one restoring write, whose outcome is only believed after reading the block back
      twice. */
  method RestorePhase(sd: GorvSd, b: Buffers) returns (restoreError: int, verified: bool)
    requires IdleCard(sd.host.cfg, sd.host.s) && Separate(b) && sd.writeTestEnabled
    modifies sd`rxFullEvents, sd`lastWordsQueued, sd`readLog, sd`writeTestActive, sd`clockDiv, sd`dataClockDiv, sd`wide
    modifies sd.host, b.scratch, b.original
    ensures Valid(sd.host.cfg, sd.host.s) && old(sd.readLog) <= sd.readLog
    ensures WritesOnly(old(sd.host.s).cmd24, sd.host.s.cmd24, sd.writeTestLba, 1)
    ensures if verified then
              && IdleCard(sd.host.cfg, sd.host.s) && Total(sd.host.s.content)
              && View(sd.swapWords, sd.host.s.content, sd.writeTestLba) == old(b.original[..])
            else restoreError != 0
  {
    hide Valid, IdleCard, SameCard, View, Settling, WritesOnly;
    ghost var c, s0, scratch := sd.host.cfg, sd.host.s, sd.writeTestLba;
    verified := false;
    restoreError := WriteTestSector(sd, b.original);
    ghost var s1 := sd.host.s;
    if restoreError != 0 {
      var modeError, _ := sd.PrepareModeRetry(false, CALIBRATION_SAFE_DIV);
      SettledCard(c, s1, sd.host.s, scratch, 1, s0.cmd24);
      if modeError != 0 {
        return;
      }
    } else {
      IdleNow(c, s1);
    }
    ghost var s2 := sd.host.s;
    var mismatch := ReadBack(sd, b.original, b.scratch);
    SameWrites(c, s2, sd.host.s, scratch, 1, s0.cmd24);
    if mismatch != 0 {
      restoreError := if restoreError == 0 then mismatch else restoreError;
      return;
    }
    verified := true;
    IdleAfter(c, s2, sd.host.s);
    ViewSame(sd.swapWords, s2.content, sd.host.s.content, scratch);
  }

  /** The pattern phase, the mandatory restoration and the final checks of the sentinels. */
  method WriteAndRestore(sd: GorvSd, b: Buffers, lbas: seq<word>) returns (err: int, restoreError: int, verified: bool)
    requires IdleCard(sd.host.cfg, sd.host.s) && Separate(b) && |lbas| == SENTINELS && sd.writeTestEnabled
    requires Total(sd.host.s.content) && b.pattern[..] != b.original[..]
    requires b.original[..] == View(sd.swapWords, sd.host.s.content, sd.writeTestLba)
    requires Copied(sd.swapWords, sd.host.s.content, lbas, b.sentinels[..], SENTINELS)
    modifies sd`rxFullEvents, sd`lastWordsQueued, sd`readLog, sd`writeTestActive, sd`clockDiv, sd`dataClockDiv, sd`wide
    modifies sd.host, b.original, b.scratch, b.pattern
    ensures Valid(sd.host.cfg, sd.host.s)
    ensures WritesOnly(old(sd.host.s).cmd24, sd.host.s.cmd24, sd.writeTestLba, 2)
    ensures verified ==> IdleCard(sd.host.cfg, sd.host.s)
                         && Restored(old(sd.host.s).content, sd.host.s.content, [sd.writeTestLba])
    ensures !verified ==> restoreError != 0
    ensures verified && err == 0 ==> Restored(old(sd.host.s).content, sd.host.s.content, lbas)
    ensures verified && err == 0 ==> SawPattern(old(sd.readLog), sd.readLog, sd.writeTestLba, old(b.original[..]))
  {
    hide Valid, IdleCard, SameCard, View, Settling, WritesOnly, Copied, SawPattern;
    ghost var c, s0, scratch := sd.host.cfg, sd.host.s, sd.writeTestLba;
    ghost var original, copies := b.original[..], b.sentinels[..];
    verified := false;
    err, restoreError := PatternPhase(sd, b);
    ghost var s1, seen := sd.host.s, sd.readLog;
    NoWrites(s1.cmd24, scratch, 1);
    WritesTwice(s0.cmd24, s1.cmd24, s1.cmd24, scratch, 1, 1);
    if restoreError != 0 {
      return;
    }
    restoreError, verified := RestorePhase(sd, b);
    ghost var s2 := sd.host.s;
    WritesTwice(s0.cmd24, s1.cmd24, s2.cmd24, scratch, 1, 1);
    if !verified {
      return;
    }
    ViewSame(sd.swapWords, s0.content, s2.content, scratch);
    if restoreError != 0 && err == 0 {
      err := restoreError;
    }
    err := PostRead(sd, b, lbas, err);
    SameWrites(c, s2, sd.host.s, scratch, 2, s0.cmd24);
    IdleAfter(c, s2, sd.host.s);
    if err == 0 {
      CopiesAgree(sd.swapWords, s0.content, s2.content, lbas, copies);
      SawLater(old(sd.readLog), old(sd.readLog), seen, sd.readLog, scratch, original);
    }
  }

  lemma IdleNow(c: Config, s: Hw)
    requires Valid(c, s) && s.pending == {}
    ensures IdleCard(c, s)
  {
  }

  lemma SameWrites(c: Config, s: Hw, t: Hw, lba: word, n: nat, before: seq<word>)
    requires SameCard(c, s, t) && WritesOnly(before, s.cmd24, lba, n)
    ensures Valid(c, t) && IdleCard(c, t) && WritesOnly(before, t.cmd24, lba, n)
  {
    hide ValidTransfer;
  }

  lemma NoWrites(a: seq<word>, lba: word, n: nat)
    ensures WritesOnly(a, a, lba, n)
  {
  }

  /** Back to the mode before the test or, failing that, to the safe mode, which is an error;
      an earlier error is kept. */
  method LeaveTestMode(sd: GorvSd, wide: bool, divider: word, before: int) returns (err: int)
    requires Valid(sd.host.cfg, sd.host.s)
    modifies sd`clockDiv, sd`dataClockDiv, sd`wide, sd.host
    ensures Settling(sd.host.cfg, old(sd.host.s), sd.host.s)
    ensures before != 0 ==> err == before
    ensures err == 0 ==> sd.wide == wide && sd.clockDiv == divider && sd.host.s.pending == {}
  {
    hide Valid, Settling;
    ghost var c, s0 := sd.host.cfg, sd.host.s;
    err := before;
    var modeError, tries := sd.PrepareModeRetry(wide, divider);
    ghost var s1 := sd.host.s;
    SettlingIsValid(c, s0, s1);
    if modeError != 0 {
      modeError, tries := sd.PrepareModeRetry(false, CALIBRATION_SAFE_DIV);
      SettlingOn(c, s0, s1, sd.host.s);
      if err == 0 {
        err := if modeError != 0 then modeError else EIO;
      }
    }
  }

  lemma SettlingIsValid(c: Config, s: Hw, t: Hw)
    requires Settling(c, s, t)
    ensures Valid(c, t)
  {
    hide ValidTransfer;
  }

  lemma SettlingOn(c: Config, s: Hw, t: Hw, u: Hw)
    requires Settling(c, s, t) && Settling(c, t, u)
    ensures Settling(c, s, u)
  {
    hide ValidTransfer;
  }

  /** The destructive self-test. Whatever the card does with a CMD24, failed or not: at
      most two are issued, both to the scratch block; a verified restoration means that the
      scratch block holds its original contents; and a 0 return of an enabled test means
      that a different block was written and read back, and that the scratch block and
      all four sentinels hold their original contents. */
  method WriteSelftest(sd: GorvSd) returns (err: int, restoreVerified: bool)
    requires IdleCard(sd.host.cfg, sd.host.s)
    requires sd.writeTestEnabled ==> SafeLayout(sd.rootLba, sd.rootSectors, sd.writeTestLba)
    modifies sd`rxFullEvents, sd`lastWordsQueued, sd`readLog, sd`writeTestActive, sd`clockDiv, sd`dataClockDiv, sd`wide
    modifies sd.host
    ensures Valid(sd.host.cfg, sd.host.s)
    ensures WritesOnly(old(sd.host.s).cmd24, sd.host.s.cmd24, sd.writeTestLba, 2)
    ensures !sd.writeTestEnabled ==> err == 0 && !restoreVerified && sd.host.s == old(sd.host.s)
    ensures restoreVerified ==> Restored(old(sd.host.s).content, sd.host.s.content, [sd.writeTestLba])
    ensures sd.writeTestEnabled && err == 0 ==>
              && restoreVerified
              && NothingLost(old(sd.host.s).content, sd.host.s.content, sd.rootLba, sd.writeTestLba)
              && Total(old(sd.host.s).content)
              && SawPattern(old(sd.readLog), sd.readLog, sd.writeTestLba,
                            View(sd.swapWords, old(sd.host.s).content, sd.writeTestLba))
    ensures !old(sd.writeTestActive) ==> !sd.writeTestActive
  {
    hide IdleCard, SameCard, View, Settling, WritesOnly, Copied, SawPattern, Restored, Separate, NothingLost,
      SentinelLbas;
    var scratch := sd.writeTestLba;
    ghost var c, s0 := sd.host.cfg, sd.host.s;
    SameSelf(c, s0);
    IdleAfter(c, s0, s0);
    NoWrites(s0.cmd24, scratch, 2);
    restoreVerified := false;
    if !sd.writeTestEnabled {
      return 0, false;
    }
    var outOfMemory: bool := *;
    if outOfMemory {
      return ENOMEM, false;
    }
    var lbas := SentinelLbas(sd.rootLba, sd.rootSectors, scratch);
    var b := NewBuffers();
    var savedDivider, savedWide := sd.dataClockDiv, sd.wide;
    var writeAttempted, restoreError := false, 0;
    ghost var tries;
    err, tries := sd.PrepareModeRetry(false, CALIBRATION_SAFE_DIV);
    SettledSame(c, s0, s0, sd.host.s);
    if err == 0 {
      ghost var s := sd.host.s;
      err := PreRead(sd, b, lbas);
      PreReadAgain(sd.swapWords, c, s0, s, sd.host.s, scratch, lbas, b.sentinels[..]);
    }
    ghost var s1, before := sd.host.s, sd.readLog;
    SameWrites(c, s0, s1, scratch, 2, s0.cmd24);
    IdleAfter(c, s0, s1);
    if err == 0 {
      MakePattern(b, scratch);
      writeAttempted := true;
      err, restoreError, restoreVerified := WriteAndRestore(sd, b, lbas);
    }
    ghost var s2 := sd.host.s;
    ghost var passed := err == 0 && restoreVerified;
    if writeAttempted && !restoreVerified && err == 0 {
      err := if restoreError != 0 then restoreError else EIO;
    }
    sd.writeTestActive := false;
    err := LeaveTestMode(sd, savedWide, savedDivider, err);
    SettledCard(c, s2, sd.host.s, scratch, 2, s0.cmd24);
    if restoreVerified {
      SameSelf(c, s2);
      SettledSame(c, s2, s2, sd.host.s);
      StillRestored(c, s0, s1, s2, sd.host.s, [scratch]);
      if passed {
        StillRestored(c, s0, s1, s2, sd.host.s, lbas);
        SentinelsAre(s0.content, sd.host.s.content, sd.rootLba, sd.rootSectors, scratch);
        SawLater(old(sd.readLog), before, sd.readLog, sd.readLog, scratch, View(sd.swapWords, s0.content, scratch));
      }
    }
  }

  lemma SettledSame(c: Config, s: Hw, t: Hw, u: Hw)
    requires SameCard(c, s, t) && Settling(c, t, u)
    ensures SameCard(c, s, u) && IdleCard(c, u)
  {
    hide Valid, Settling;
    QuietOnIdle(c, t, u);
    SameTwice(c, s, t, u);
  }

  lemma PreReadAgain(swap: bool, c: Config, s0: Hw, s: Hw, t: Hw, scratch: word, lbas: seq<word>, copies: seq<word>)
    requires SameCard(c, s0, s) && SameCard(c, s, t)
    ensures SameCard(c, s0, t) && IdleCard(c, t) && Total(s0.content) && Total(s.content) && Total(t.content)
    ensures View(swap, s.content, scratch) == View(swap, t.content, scratch) == View(swap, s0.content, scratch)
    ensures Copied(swap, s.content, lbas, copies, |lbas|) ==> Copied(swap, t.content, lbas, copies, |lbas|)
  {
    hide Valid, View;
    IdleAfter(c, s0, s);
    IdleAfter(c, s, t);
    SameTwice(c, s0, s, t);
    ViewSame(swap, s.content, t.content, scratch);
    ViewSame(swap, s0.content, t.content, scratch);
    forall i: nat | i < |lbas| ensures View(swap, s.content, lbas[i]) == View(swap, t.content, lbas[i]) {
      ViewSame(swap, s.content, t.content, lbas[i]);
    }
  }

  lemma StillRestored(c: Config, s0: Hw, s1: Hw, s2: Hw, s3: Hw, lbas: seq<word>)
    requires SameCard(c, s0, s1) && Restored(s1.content, s2.content, lbas) && SameCard(c, s2, s3)
    ensures Restored(s0.content, s3.content, lbas)
  {
    hide Valid;
    IdleAfter(c, s0, s1);
    IdleAfter(c, s2, s3);
  }

  lemma SawLater(a: seq<ReadResult>, b: seq<ReadResult>, d: seq<ReadResult>, e: seq<ReadResult>, lba: word,
                 original: seq<word>)
    requires a <= b && SawPattern(b, d, lba, original) && d <= e
    ensures SawPattern(a, e, lba, original)
  {
    var i: nat :| |b| <= i < |d| && d[i].lba == lba && d[i].data != original;
    assert e[i] == d[i];
  }

  method NewBuffers() returns (b: Buffers)
    ensures Separate(b) && fresh({b.original, b.scratch, b.pattern, b.sentinels})
  {
    var original, scratch := new word[WORDS](_ => 0), new word[WORDS](_ => 0);
    var pattern, sentinels := new word[WORDS](_ => 0), new word[SENTINELS * WORDS](_ => 0);
    b := Buffers(original, scratch, pattern, sentinels);
  }

  /** A recognisable pattern that differs from the original block. The generator's word
      mixing is arbitrary here. */
  method MakePattern(b: Buffers, lba: word)
    requires Separate(b)
    modifies b.pattern
    ensures b.pattern[..] != b.original[..]
    ensures b.pattern[0] == 0x31545753 && b.pattern[1] == lba
  {
    for i := 0 to WORDS {
      var value: int := *;
      b.pattern[i] := value % 0x1_0000_0000;
    }
    b.pattern[0], b.pattern[1] := 0x31545753, lba;
    if b.pattern[..] == b.original[..] {
      b.pattern[2] := U32_MAX - b.pattern[2];
      assert b.pattern[..][2] != b.original[..][2];
    }
  }
}
