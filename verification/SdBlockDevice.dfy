/** The probe sequence of the SD driver (gorv32_sd.c), with the layout check that guards the
    destructive self-test. */
module SdBlockDevice {
  import opened Bytes
  import opened Words
  import opened SdHost
  import opened SdDriver
  import opened SdSelftest
  import opened SdCalibration
  import opened SdRanking
  import opened SdRequests
  import Grv1Format

  // -------------------------------------------------------------- layout check

  /** Reads the boot header twice and follows its records. */
  method ValidateWriteTestLayout(sd: GorvSd) returns (err: int)
    requires IdleCard(sd.host.cfg, sd.host.s)
    modifies sd`rxFullEvents, sd`lastWordsQueued, sd`readLog, sd.host
    ensures SameCard(sd.host.cfg, old(sd.host.s), sd.host.s) && old(sd.readLog) <= sd.readLog
    ensures 0 in old(sd.host.s).content
    ensures var end := Grv1Format.LayoutEnd(View(sd.swapWords, old(sd.host.s).content, 0));
            && (err == 0 ==> end.At? && end.blocks + WRITE_TEST_GUARD_SECTORS <= sd.writeTestLba)
            && (err == EINVAL ==> end.Bad?)
            && (err == ERANGE ==> end.At? && end.blocks + WRITE_TEST_GUARD_SECTORS > sd.writeTestLba)
  {
    hide IdleCard, SameCard, View, Grv1Format.LayoutEnd;
    ghost var c, s0 := sd.host.cfg, sd.host.s;
    SameSelf(c, s0);
    IdleAfter(c, s0, s0);
    var sector, verify := new word[WORDS](_ => 0), new word[WORDS](_ => 0);
    err := Read(sd, 0, sector, 0);
    ghost var s1 := sd.host.s;
    IdleAfter(c, s0, s1);
    if err != 0 {
      return;
    }
    err := Read(sd, 0, verify, 0);
    SameTwice(c, s0, s1, sd.host.s);
    if err != 0 {
      return;
    }
    assert sector[..] == sector[0..WORDS];
    if sector[..] != verify[..] {
      return EILSEQ;
    }
    var h := sector[..];
    err := CheckLayout(h, sd.writeTestLba);
  }

  method CheckLayout(h: seq<word>, scratch: word) returns (err: int)
    requires |h| == 128
    ensures var end := Grv1Format.LayoutEnd(h);
            err == if end.Bad? then EINVAL
                   else if end.blocks + WRITE_TEST_GUARD_SECTORS > scratch then ERANGE else 0
  {
    if h[0] != Grv1Format.MAGIC {
      return EINVAL;
    }
    var count := h[1];
    if count == 0 || count > Grv1Format.MAX_RECORDS {
      return EINVAL;
    }
    var bootSectors: nat := 1;
    for i := 0 to count as int
      invariant Grv1Format.LayoutUpTo(h, i) == Grv1Format.At(bootSectors)
    {
      var src, len := h[3 + 3 * i], h[5 + 3 * i];
      if len == 0 || src as int != bootSectors * 512 {
        RejectedEarly(h, i, count as int);
        return EINVAL;
      }
      var end := src as int + len as int;
      bootSectors := Grv1Format.Max(bootSectors, Grv1Format.BlocksOf(end));
    }
    if bootSectors + WRITE_TEST_GUARD_SECTORS > scratch {
      return ERANGE;
    }
    return 0;
  }

  lemma {:induction false} RejectedEarly(h: seq<word>, i: nat, n: nat)
    requires |h| == 128 && i < n <= Grv1Format.MAX_RECORDS
    requires Grv1Format.LayoutUpTo(h, i).At?
    requires h[5 + 3 * i] == 0 || h[3 + 3 * i] as int != Grv1Format.LayoutUpTo(h, i).blocks * 512
    ensures Grv1Format.LayoutUpTo(h, n).Bad?
    decreases n
  {
    if i + 1 < n {
      RejectedEarly(h, i, n - 1);
    }
  }

  /** For a card that carries a packed image, the check passes exactly when no blob is empty
      and the image ends at least 8192 blocks before the scratch block. */
  lemma LayoutOfPackedCard(img: seq<byte>, blobs: seq<seq<byte>>, scratch: word)
    requires Grv1Format.IsImage(img, blobs)
    ensures |blobs| == 3
    ensures var end := Grv1Format.LayoutEnd(Grv1Format.HeaderWords(img));
            end.At? && end.blocks + WRITE_TEST_GUARD_SECTORS <= scratch
            <==> Grv1Format.NonEmpty(blobs, 3) && |img| / 512 + WRITE_TEST_GUARD_SECTORS <= scratch
  {
    hide Grv1Format.LayoutEnd, Grv1Format.IsImage;
    Grv1Format.LayoutOfImage(img, blobs);
  }

  // ------------------------------------------------------------------------- probe

  /** Chooses the word order in which block 0 starts with the GRV1 magic. The read of the
      root superblock is a diagnostic only. */
  method DetectWordOrder(sd: GorvSd) returns (err: int)
    requires IdleCard(sd.host.cfg, sd.host.s) && !sd.swapWords
    modifies sd`rxFullEvents, sd`lastWordsQueued, sd`clockDiv, sd`dataClockDiv, sd`blocksTransferred,
             sd`transferRetries, sd`trace, sd`readLog, sd`swapWords, sd.host
    ensures SameCard(sd.host.cfg, old(sd.host.s), sd.host.s)
    ensures err in {0, EIO, EINVAL} && 0 in old(sd.host.s).content
    ensures err == 0 ==> View(sd.swapWords, old(sd.host.s).content, 0)[0] == Grv1Format.MAGIC
    ensures err == EINVAL ==> forall swap :: View(swap, old(sd.host.s).content, 0)[0] != Grv1Format.MAGIC
  {
    hide IdleCard, SameCard;
    ghost var c, s0 := sd.host.cfg, sd.host.s;
    SameSelf(c, s0);
    IdleAfter(c, s0, s0);
    var sector := new word[WORDS](_ => 0);
    err := ReadWithRetries(sd, 0, sector);
    ghost var s1 := sd.host.s;
    IdleAfter(c, s0, s1);
    if err != 0 && sd.clockDiv < 24 {
      sd.clockDiv := 24;
      err := ReadWithRetries(sd, 0, sector);
      SameTwice(c, s0, s1, sd.host.s);
    }
    if err != 0 {
      return EIO;
    }
    assert sector[..] == s0.content[0];
    if sector[0] == Grv1Format.MAGIC {
      sd.swapWords := false;
    } else if Swab(sector[0]) == Grv1Format.MAGIC {
      sd.swapWords := true;
    } else {
      return EINVAL;
    }
    ghost var s2 := sd.host.s;
    IdleAfter(c, s0, s2);
    var superblock := (sd.rootLba + 2) % 0x1_0000_0000;
    var _ := ReadWithRetries(sd, superblock, sector);
    SameTwice(c, s0, s2, sd.host.s);
    return 0;
  }

  /** A read with retries from an idle card. */
  method ReadWithRetries(sd: GorvSd, lba: word, buffer: array<word>) returns (err: int)
    requires IdleCard(sd.host.cfg, sd.host.s) && buffer.Length == WORDS
    modifies sd`rxFullEvents, sd`lastWordsQueued, sd`clockDiv, sd`dataClockDiv, sd`blocksTransferred,
             sd`transferRetries, sd`trace, sd`readLog, sd.host, buffer
    ensures SameCard(sd.host.cfg, old(sd.host.s), sd.host.s) && lba in old(sd.host.s).content
    ensures err == 0 ==> buffer[..] == View(sd.swapWords, old(sd.host.s).content, lba)
  {
    hide Valid, Wire, Quiet, WriteEffect, SameCard;
    ghost var c, s0 := sd.host.cfg, sd.host.s;
    err := sd.TransferBlock(lba, buffer, 0, false);
    QuietOnIdle(c, s0, sd.host.s);
    IdleAfter(c, s0, sd.host.s);
    assert buffer[..] == buffer[0..WORDS];
  }

  /** The optional read benchmark. */
  method ReadSelftest(sd: GorvSd, sectors: word)
    requires Valid(sd.host.cfg, sd.host.s)
    modifies sd`rxFullEvents, sd`lastWordsQueued, sd`clockDiv, sd`dataClockDiv, sd`blocksTransferred,
             sd`transferRetries, sd`trace, sd`readLog, sd.host
    ensures Quiet(sd.host.cfg, old(sd.host.s), sd.host.s) && Valid(sd.host.cfg, sd.host.s)
  {
    hide Valid, Quiet, Wire, WriteEffect, OnlyBlock;
    ghost var c, s0 := sd.host.cfg, sd.host.s;
    QuietNothing(c, s0);
    var buffer := new word[WORDS](_ => 0);
    for i := 0 to if sectors < 1024 then sectors as int else 1024
      invariant Quiet(c, s0, sd.host.s) && Valid(c, sd.host.s)
    {
      ghost var s := sd.host.s;
      var lba := (sd.rootLba as int + i) % 0x1_0000_0000;
      var err := sd.TransferBlock(lba, buffer, 0, false);
      QuietTwice(c, s0, s, sd.host.s);
      if err != 0 {
        return;
      }
    }
  }

  /** A device-tree property. */
  datatype Property = Missing | Is(value: word)

  datatype DeviceTree = DeviceTree(rootLba: Property, rootSectors: Property, dataClockDiv: Property, readOnly: bool,
                                   testLba: Property, autoCalibrate: bool, selftestSectors: Property)

  /** The properties that probe accepts: a window below block 2^32, a clock divider the
      controller has, and a self-test only on a read-only device with a safe layout. */
  predicate Acceptable(dt: DeviceTree) {
    && dt.rootLba.Is? && dt.rootSectors.Is? && ValidWindow(Window(dt.rootLba.value, dt.rootSectors.value))
    && (dt.dataClockDiv.Is? ==> dt.dataClockDiv.value <= MAX_DIV)
    && (dt.testLba.Is? ==> dt.readOnly && SafeLayout(dt.rootLba.value, dt.rootSectors.value, dt.testLba.value))
  }

  /** The layout check would pass on this card. */
  ghost predicate LayoutPasses(swap: bool, content: map<word, Sector>, scratch: word)
    requires 0 in content
  {
    var end := Grv1Format.LayoutEnd(View(swap, content, 0));
    end.At? && end.blocks + WRITE_TEST_GUARD_SECTORS <= scratch
  }

  /** The self-test behind its layout check. A failure of either leaves the device usable,
      read-only. */
  method GuardedSelftest(sd: GorvSd) returns (err: int)
    requires IdleCard(sd.host.cfg, sd.host.s) && sd.writeTestEnabled
    requires SafeLayout(sd.rootLba, sd.rootSectors, sd.writeTestLba)
    modifies sd`rxFullEvents, sd`lastWordsQueued, sd`readLog, sd`writeTestActive, sd`clockDiv, sd`dataClockDiv, sd`wide
    modifies sd`selftests, sd.host
    ensures Valid(sd.host.cfg, sd.host.s) && (!old(sd.writeTestActive) ==> !sd.writeTestActive)
    ensures WritesOnly(old(sd.host.s).cmd24, sd.host.s.cmd24, sd.writeTestLba, 2)
    ensures 0 in old(sd.host.s).content
    ensures sd.host.s.cmd24 != old(sd.host.s).cmd24 ==>
              LayoutPasses(sd.swapWords, old(sd.host.s).content, sd.writeTestLba)
    ensures forall i | |old(sd.host.s.cmd24)| <= i < |sd.host.s.cmd24| :: sd.host.s.cmd24[i] == sd.writeTestLba
    ensures old(sd.host.s.cmd24) <= sd.host.s.cmd24 && |sd.host.s.cmd24| <= |old(sd.host.s.cmd24)| + 2
    ensures sd.selftests ==
            old(sd.selftests) + [Selftest(err, old(sd.host.s).content, sd.host.s.content)]
    ensures err == 0 ==> NothingLost(old(sd.host.s).content, sd.host.s.content, sd.rootLba, sd.writeTestLba)
  {
    hide IdleCard, SameCard, View, Grv1Format.LayoutEnd;
    ghost var c, s0 := sd.host.cfg, sd.host.s;
    err := ValidateWriteTestLayout(sd);
    ghost var s1 := sd.host.s;
    IdleAfter(c, s0, s1);
    NoWrites(s0.cmd24, sd.writeTestLba, 2);
    if err == 0 {
      var verified;
      err, verified := WriteSelftest(sd);
    }
    sd.selftests := sd.selftests + [Selftest(err, s0.content, sd.host.s.content)];
  }

  /** Brings the card up: identification, word order and, if asked for, calibration. `first`
      is the card as identification left it. */
  method BringUp(sd: GorvSd, autoCalibrate: bool) returns (err: int, ghost first: Hw)
    requires Valid(sd.host.cfg, sd.host.s) && !sd.swapWords
    modifies sd`rxFullEvents, sd`lastWordsQueued, sd`clockDiv, sd`dataClockDiv, sd`blocksTransferred,
             sd`transferRetries, sd`trace, sd`readLog, sd`tests, sd`swapWords, sd`wide, sd`calibrating, sd.host
    ensures Settling(sd.host.cfg, old(sd.host.s), sd.host.s) && (!old(sd.calibrating) ==> !sd.calibrating)
    ensures err == 0 ==> Settling(sd.host.cfg, old(sd.host.s), first) && IdleCard(sd.host.cfg, first)
    ensures err == 0 ==> SameCard(sd.host.cfg, first, sd.host.s) && Total(first.content)
                         && View(sd.swapWords, first.content, 0)[0] == Grv1Format.MAGIC
  {
    hide Valid, Settling, SameCard, View, Picked, HasRun, Searched, Wins, NoneWins, Backed;
    ghost var c, s0 := sd.host.cfg, sd.host.s;
    err := sd.CardInit();
    first := sd.host.s;
    if err != 0 {
      return;
    }
    SettledIdle(c, s0, first);
    SameSelf(c, first);
    if autoCalibrate {
      err := sd.PrepareMode(false, CALIBRATION_SAFE_DIV);
      SettlingTwice(c, s0, first, sd.host.s);
      if err != 0 {
        return;
      }
      QuietOnIdle(c, first, sd.host.s);
    }
    ghost var s1 := sd.host.s;
    IdleAfter(c, first, s1);
    err := DetectWordOrder(sd);
    ghost var s2 := sd.host.s;
    SameTwice(c, first, s1, s2);
    IdleAfter(c, first, s2);
    SameSettles(c, s0, first, s2);
    if err != 0 {
      return;
    }
    ViewSame(sd.swapWords, first.content, s1.content, 0);
    if autoCalibrate {
      var calibrated, _, _, _ := AutoCalibrate(sd);
      err := calibrated;
      SettlingTwice(c, s0, s2, sd.host.s);
      QuietOnIdle(c, s2, sd.host.s);
      SameTwice(c, first, s2, sd.host.s);
    }
  }

  lemma SettledIdle(c: Config, s: Hw, t: Hw)
    requires Settling(c, s, t) && t.pending == {}
    ensures IdleCard(c, t)
  {
    hide Valid;
  }

  lemma SameSettles(c: Config, s: Hw, t: Hw, u: Hw)
    requires Settling(c, s, t) && SameCard(c, t, u)
    ensures Settling(c, s, u)
  {
    hide ValidTransfer;
  }

  /** Takes over the device-tree properties, if they are acceptable. */
  method ReadProperties(sd: GorvSd, dt: DeviceTree) returns (err: int)
    modifies sd`rootLba, sd`rootSectors, sd`dataClockDiv, sd`readOnly, sd`writeTestEnabled, sd`writeTestLba
    ensures err == if Acceptable(dt) then 0 else EINVAL
    ensures err == 0 <==>
            && dt.rootLba.Is? && dt.rootSectors.Is?
            && 0 < dt.rootSectors.value && dt.rootLba.value + dt.rootSectors.value <= 0x1_0000_0000
            && (dt.dataClockDiv.Is? ==> dt.dataClockDiv.value <= 124)
            && (dt.testLba.Is? ==>
                  && dt.readOnly && dt.rootSectors.value >= 3 && dt.rootLba.value > 16384
                  && 8192 <= dt.testLba.value < dt.rootLba.value - 8192)
    ensures err == 0 ==>
              && sd.rootLba == dt.rootLba.value && sd.rootSectors == dt.rootSectors.value && sd.readOnly == dt.readOnly
              && sd.dataClockDiv == (if dt.dataClockDiv.Is? then dt.dataClockDiv.value else 24)
              && (sd.writeTestEnabled <==> dt.testLba.Is?) && (dt.testLba.Is? ==> sd.writeTestLba == dt.testLba.value)
  {
    if dt.rootLba.Missing? || dt.rootSectors.Missing? {
      return EINVAL;
    }
    sd.rootLba, sd.rootSectors := dt.rootLba.value, dt.rootSectors.value;
    if sd.rootSectors == 0 || sd.rootLba > U32_MAX - (sd.rootSectors - 1) {
      return EINVAL;
    }
    sd.dataClockDiv := if dt.dataClockDiv.Is? then dt.dataClockDiv.value else 24;
    if sd.dataClockDiv > MAX_DIV {
      return EINVAL;
    }
    sd.readOnly, sd.writeTestEnabled := dt.readOnly, dt.testLba.Is?;
    if sd.writeTestEnabled {
      sd.writeTestLba := dt.testLba.value;
      if !sd.readOnly {
        return EINVAL;
      }
      if sd.rootSectors < 3 || sd.rootLba <= 2 * WRITE_TEST_GUARD_SECTORS
         || sd.writeTestLba < WRITE_TEST_GUARD_SECTORS || sd.writeTestLba >= sd.rootLba - WRITE_TEST_GUARD_SECTORS {
        return EINVAL;
      }
    }
    return 0;
  }

  /** One self-test more has been run. If it succeeded, it has changed none of the blocks it
      looks after. */
  ghost predicate OneTest(before: seq<Selftest>, log: seq<Selftest>, rootLba: word, scratch: word) {
    && |log| == |before| + 1 && before <= log
    && var t := log[|before|]; t.err == 0 ==> NothingLost(t.before, t.after, rootLba, scratch)
  }

  /** The optional write self-test and the read benchmark of a card that was brought up in
      state `first`. */
  method Selftests(sd: GorvSd, sectors: word, ghost first: Hw)
    requires SameCard(sd.host.cfg, first, sd.host.s)
    requires sd.writeTestEnabled ==> SafeLayout(sd.rootLba, sd.rootSectors, sd.writeTestLba)
    modifies sd`rxFullEvents, sd`lastWordsQueued, sd`readLog, sd`writeTestActive, sd`clockDiv, sd`dataClockDiv, sd`wide,
             sd`blocksTransferred, sd`transferRetries, sd`trace, sd`selftests, sd.host
    ensures Valid(sd.host.cfg, sd.host.s) && (!old(sd.writeTestActive) ==> !sd.writeTestActive)
    ensures !sd.writeTestEnabled ==> SameCard(sd.host.cfg, first, sd.host.s) && sd.selftests == old(sd.selftests)
    ensures sd.writeTestEnabled ==> OneTest(old(sd.selftests), sd.selftests, sd.rootLba, sd.writeTestLba)
    ensures sd.host.s.cmd24 != old(sd.host.s).cmd24 ==>
              && sd.writeTestEnabled && 0 in first.content
              && WritesOnly(old(sd.host.s).cmd24, sd.host.s.cmd24, sd.writeTestLba, 2)
              && LayoutPasses(sd.swapWords, first.content, sd.writeTestLba)
  {
    hide Valid, IdleCard, SameCard, View, LayoutPasses, WritesOnly, Quiet, Restored, SafeLayout;
    ghost var c, s1 := sd.host.cfg, sd.host.s;
    IdleAfter(c, first, s1);
    if sd.writeTestEnabled {
      var _ := GuardedSelftest(sd);
      LayoutSame(sd.swapWords, first.content, s1.content, sd.writeTestLba);
    }
    ghost var s2 := sd.host.s;
    ReadSelftest(sd, sectors);
    QuietIsValid(c, s2, sd.host.s);
    if !sd.writeTestEnabled {
      QuietOnIdle(c, s2, sd.host.s);
      SameTwice(c, first, s1, sd.host.s);
    }
  }

  /** `first` is the card `s` after identification. If `s` had no reason to change block 0, the
      layout check would have passed on `s`. */
  ghost predicate LayoutKnown(c: Config, swap: bool, s: Hw, first: Hw, scratch: word) {
    && Settling(c, s, first) && IdleCard(c, first) && 0 in s.content
    && (Stable(c, s.pending, 0) ==> LayoutPasses(swap, s.content, scratch))
  }

  lemma KnownLayout(c: Config, swap: bool, s: Hw, first: Hw, scratch: word)
    requires Settling(c, s, first) && IdleCard(c, first) && 0 in first.content
    requires LayoutPasses(swap, first.content, scratch)
    ensures LayoutKnown(c, swap, s, first, scratch)
  {
    hide Valid, LayoutPasses, IdleCard;
    if Stable(c, s.pending, 0) {
      LayoutSame(swap, s.content, first.content, scratch);
    }
  }

  /** What probe does with the card: bring it up, and test it. */
  method StartUp(sd: GorvSd, autoCalibrate: bool, sectors: word) returns (err: int, ghost first: Hw)
    requires Valid(sd.host.cfg, sd.host.s) && !sd.swapWords
    requires sd.writeTestEnabled ==> SafeLayout(sd.rootLba, sd.rootSectors, sd.writeTestLba)
    modifies sd`rxFullEvents, sd`lastWordsQueued, sd`readLog, sd`writeTestActive, sd`clockDiv, sd`dataClockDiv, sd`wide,
             sd`blocksTransferred, sd`transferRetries, sd`trace, sd`tests, sd`swapWords, sd`calibrating, sd`selftests,
             sd.host
    ensures Valid(sd.host.cfg, sd.host.s)
    ensures !old(sd.writeTestActive) && !old(sd.calibrating) ==> !sd.writeTestActive && !sd.calibrating
    ensures sd.host.s.cmd24 != old(sd.host.s).cmd24 ==>
              && sd.writeTestEnabled && 0 in first.content
              && WritesOnly(old(sd.host.s).cmd24, sd.host.s.cmd24, sd.writeTestLba, 2)
              && LayoutPasses(sd.swapWords, first.content, sd.writeTestLba)
              && LayoutKnown(sd.host.cfg, sd.swapWords, old(sd.host.s), first, sd.writeTestLba)
    ensures err == 0 && sd.writeTestEnabled ==>
              OneTest(old(sd.selftests), sd.selftests, sd.rootLba, sd.writeTestLba)
    ensures err == 0 && !sd.writeTestEnabled ==>
              IdleCard(sd.host.cfg, sd.host.s) && 0 in sd.host.s.content
              && View(sd.swapWords, sd.host.s.content, 0)[0] == Grv1Format.MAGIC
  {
    hide Valid, Settling, IdleCard, SameCard, View, LayoutPasses, WritesOnly, SafeLayout, LayoutKnown;
    ghost var c, s0 := sd.host.cfg, sd.host.s;
    err, first := BringUp(sd, autoCalibrate);
    ghost var s1 := sd.host.s;
    SettledSilent(c, s0, s1);
    if err != 0 {
      return;
    }
    IdleAfter(c, first, s1);
    Selftests(sd, sectors, first);
    if sd.host.s.cmd24 != s0.cmd24 {
      KnownLayout(c, sd.swapWords, s0, first, sd.writeTestLba);
    }
    if !sd.writeTestEnabled {
      IdleAfter(c, first, sd.host.s);
      ViewSame(sd.swapWords, first.content, sd.host.s.content, 0);
    }
  }

  /** The probe sequence. Unacceptable properties are refused before the card is touched.
      A successful probe leaves a driver that is ready for requests in its window. Probe
      itself writes at most twice, only to the scratch block, only to a read-only device,
      and only if the boot image on the card ends 8192 blocks before that block. */
  method Probe(host: Host, dt: DeviceTree) returns (err: int, sd: GorvSd, ghost first: Hw)
    requires Valid(host.cfg, host.s)
    modifies host
    ensures fresh(sd) && sd.host == host && Valid(host.cfg, host.s)
    ensures !Acceptable(dt) ==> err == EINVAL && host.s == old(host.s)
    ensures err == 0 ==> Acceptable(dt) && Ready(sd) && sd.readOnly == dt.readOnly
                         && WindowOf(sd) == Window(dt.rootLba.value, dt.rootSectors.value)
    ensures host.s.cmd24 != old(host.s).cmd24 ==>
              && dt.readOnly && dt.testLba.Is? && 0 in first.content
              && WritesOnly(old(host.s).cmd24, host.s.cmd24, dt.testLba.value, 2)
              && LayoutPasses(sd.swapWords, first.content, dt.testLba.value)
              && LayoutKnown(host.cfg, sd.swapWords, old(host.s), first, dt.testLba.value)
    ensures err == 0 && dt.testLba.Is? ==> OneTest([], sd.selftests, dt.rootLba.value, dt.testLba.value)
    ensures err == 0 && dt.testLba.Missing? ==>
              IdleCard(host.cfg, host.s) && 0 in host.s.content
              && View(sd.swapWords, host.s.content, 0)[0] == Grv1Format.MAGIC
  {
    hide Valid, IdleCard, View, LayoutPasses, WritesOnly, Acceptable, SafeLayout, LayoutKnown;
    first := host.s;
    sd := new GorvSd(host);
    err := ReadProperties(sd, dt);
    if err != 0 {
      return;
    }
    AcceptableMeans(dt);
    err, first := StartUp(sd, dt.autoCalibrate, if dt.selftestSectors.Is? then dt.selftestSectors.value else 0);
  }

  lemma AcceptableMeans(dt: DeviceTree)
    requires Acceptable(dt)
    ensures dt.rootLba.Is? && dt.rootSectors.Is? && ValidWindow(Window(dt.rootLba.value, dt.rootSectors.value))
    ensures dt.testLba.Is? ==>
              dt.readOnly && SafeLayout(dt.rootLba.value, dt.rootSectors.value, dt.testLba.value)
  {
  }

  lemma SettledSilent(c: Config, s: Hw, t: Hw)
    requires Settling(c, s, t)
    ensures t.cmd24 == s.cmd24 && Valid(c, t)
  {
    hide ValidTransfer;
  }

  lemma LayoutSame(swap: bool, a: map<word, Sector>, b: map<word, Sector>, scratch: word)
    requires 0 in a && 0 in b && a[0] == b[0]
    ensures LayoutPasses(swap, a, scratch) <==> LayoutPasses(swap, b, scratch)
  {
    hide Grv1Format.LayoutEnd;
    ViewSame(swap, a, b, 0);
  }
}
