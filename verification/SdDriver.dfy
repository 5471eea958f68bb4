/** The polling block driver (boards/tang_mega_138k/system16/linux/kernel/gorv32_sd.c):
    FIFO transfer, retries, and the write window. */
module SdDriver {
  import opened Words
  import opened SdHost
  import SdRanking

  const EPERM := -1
  const EIO := -5
  const EAGAIN := -11
  const ENOMEM := -12
  const EINVAL := -22
  const EROFS := -30
  const ERANGE := -34
  const EILSEQ := -84
  const EOPNOTSUPP := -95
  const ETIMEDOUT := -110

  const U32_MAX := 0xFFFFFFFF
  const WORDS := 128
  const MAX_DIV := 124
  const READ_TRANSFER_TIMEOUT_NS := 50000000
  const WRITE_TRANSFER_TIMEOUT_NS := 750000000
  const CARD_READY_TIMEOUT_MS := 750
  const CALIBRATION_SAFE_DIV := 24

  /** A block as it crosses the FIFO, given the detected word order. */
  function Wire(swap: bool, s: seq<word>): (r: seq<word>)
    ensures |r| == |s|
  {
    if swap then seq(|s|, i requires 0 <= i < |s| => Swab(s[i])) else s
  }

  lemma WireTwice(swap: bool, s: seq<word>)
    ensures Wire(swap, Wire(swap, s)) == s
  {
    if swap {
      forall i | 0 <= i < |s| ensures Wire(swap, Wire(swap, s))[i] == s[i] {
        SwabTwice(s[i]);
      }
    }
  }

  /** Only the 128 words at `off` may have changed. */
  ghost predicate OnlyBlock(a: seq<word>, b: seq<word>, off: nat) {
    && |a| == |b| && off + WORDS <= |a|
    && a[..off] == b[..off] && a[off + WORDS..] == b[off + WORDS..]
  }

  lemma OnlyBlockSame(a: seq<word>, off: nat)
    requires off + WORDS <= |a|
    ensures OnlyBlock(a, a, off)
  {
  }

  lemma OnlyBlockTwice(a: seq<word>, b: seq<word>, d: seq<word>, off: nat)
    requires OnlyBlock(a, b, off) && OnlyBlock(b, d, off)
    ensures OnlyBlock(a, d, off)
  {
  }

  /** An access that neither writes to the card nor waits for a write to finish. */
  ghost predicate Quiet(c: Config, s: Hw, t: Hw) {
    && Valid(c, t) && t.cmd24 == s.cmd24 && t.pending == s.pending && t.now >= s.now
    && Untouched(c, s.pending, s.content, t.content)
  }

  /** One CMD24 to `lba` has been issued. */
  ghost predicate Wrote(c: Config, s: Hw, t: Hw, lba: word) {
    && Valid(c, t) && t.cmd24 == s.cmd24 + [lba] && t.pending == s.pending + {lba}
    && Untouched(c, t.pending, s.content, t.content)
  }

  /** The write now in the controller queued exactly these words, all after the response,
      the card has taken them all, and a trustworthy card has accepted them. */
  ghost predicate Delivered(c: Config, s: Hw, lba: word, wire: seq<word>) {
    && s.transfer == Writing(lba, [], wire, wire, 0)
    && |wire| == WORDS && s.flags.cmdDone && s.flags.dataDone && !s.flags.dataError && !s.failed
    && (c.honest ==> s.landing == Accepted(lba, wire))
  }

  /** A running read: `done` words have been read, in order. */
  ghost predicate ReadingAt(s: Hw, s0: Hw, lba: word, done: nat) {
    && s.transfer.Reading? && s.transfer.lba == lba && |s.transfer.popped| == done <= WORDS
    && s.cmd24 == s0.cmd24 && s.pending == s0.pending
  }

  /** A running write: the first `done` words of `wire` have been queued and none dropped. */
  ghost predicate WritingAt(s: Hw, s0: Hw, lba: word, wire: seq<word>, done: nat) {
    && s.transfer.Writing? && s.transfer.lba == lba && !s.failed
    && done <= |wire| == WORDS && s.transfer.queued == wire[..done] && s.transfer.dropped == 0
    && s.cmd24 == s0.cmd24 + [lba] && s.pending == s0.pending + {lba}
  }

  /** The words the driver has read so far. */
  function PoppedWords(t: Transfer): seq<word> { if t.Reading? then t.popped else [] }

  /** A running transfer as the driver knows it: `cmdDone` and `dataDone` are the driver's
      own flags, set from error-free samples of the event registers. */
  ghost predicate InFlight(c: Config, s0: Hw, s: Hw, lba: word, write: bool, wire: seq<word>,
                           done: nat, cmdDone: bool, dataDone: bool) {
    && Valid(c, s) && Untouched(c, s.pending, s0.content, s.content) && s.now >= s0.now
    && (if write then WritingAt(s, s0, lba, wire, done) else ReadingAt(s, s0, lba, done))
    && (cmdDone ==> s.flags.cmdDone) && (write && done > 0 ==> cmdDone)
    && (dataDone ==> s.flags.dataDone && !s.flags.dataError)
  }

  lemma Launched(c: Config, s0: Hw, s: Hw, t: Hw, lba: word, write: bool, wire: seq<word>)
    requires Valid(c, t) && |wire| == WORDS && Started(c, s, t, lba, write)
    requires Quiet(c, s0, s)
    ensures InFlight(c, s0, t, lba, write, wire, 0, false, false)
    ensures PoppedWords(t.transfer) == []
  {
    hide ValidTransfer;
  }

  lemma Ticked(c: Config, s0: Hw, s: Hw, t: Hw, lba: word, write: bool, wire: seq<word>,
               done: nat, cmdDone: bool, dataDone: bool)
    requires InFlight(c, s0, s, lba, write, wire, done, cmdDone, dataDone) && Advanced(c, s, t)
    ensures InFlight(c, s0, t, lba, write, wire, done, cmdDone, dataDone)
    ensures !write ==> PoppedWords(t.transfer) == PoppedWords(s.transfer) && (HasRx(s.transfer) ==> HasRx(t.transfer))
    ensures write && TxRoom(c, s.transfer) ==> TxRoom(c, t.transfer)
  {
    hide ValidTransfer;
  }

  lemma PushedOne(c: Config, s0: Hw, s: Hw, t: Hw, lba: word, wire: seq<word>, done: nat, dataDone: bool)
    requires InFlight(c, s0, s, lba, true, wire, done, true, dataDone) && done < WORDS
    requires Pushed(c, s, t, wire[done])
    ensures InFlight(c, s0, t, lba, true, wire, done + 1, true, dataDone)
  {
    hide ValidTransfer;
  }

  lemma DrainedSome(c: Config, s0: Hw, s: Hw, t: Hw, lba: word, wire: seq<word>,
                    done: nat, done2: nat, cmdDone: bool, dataDone: bool)
    requires InFlight(c, s0, s, lba, false, wire, done, cmdDone, dataDone)
    requires Drained(c, s, t) && ReadingAt(t, s0, lba, done2)
    ensures InFlight(c, s0, t, lba, false, wire, done2, cmdDone, dataDone)
  {
    hide ValidTransfer;
  }

  /** All words delivered and the FIFO empty: the card has the block. */
  lemma WriteIsDelivered(c: Config, s0: Hw, s: Hw, lba: word, wire: seq<word>)
    requires InFlight(c, s0, s, lba, true, wire, WORDS, true, true) && TxEmpty(s.transfer)
    ensures Delivered(c, s, lba, wire) && Wrote(c, s0, s, lba)
  {
    assert wire[..WORDS] == wire;
    assert s.transfer.taken + s.transfer.tx == s.transfer.taken;
  }

  /** A complete read of an error-free data phase is the block. */
  lemma ReadIsBlock(c: Config, s: Hw)
    requires Valid(c, s) && s.transfer.Reading? && |s.transfer.popped| == WORDS
    requires !s.transfer.corrupt && Stable(c, s.pending, s.transfer.lba)
    ensures s.transfer.popped == s.content[s.transfer.lba]
  {
    var t := s.transfer;
    assert |t.popped + t.rx| == |t.popped| + |t.rx|;
    assert t.rx == [] && t.sent == 128 && t.line[..128] == t.line;
    assert t.popped + t.rx == t.popped;
  }

  /** A block transfer: the mode it was started in, whether the first attempt succeeded,
      and the buffer afterwards. */
  datatype Xfer = Xfer(lba: word, write: bool, wide: bool, div: word, clean: bool, data: seq<word>)

  datatype ReadResult = ReadResult(lba: word, data: seq<word>)

  /** A write self-test: its result, and what the card held before and after it. */
  datatype Selftest = Selftest(err: int, before: map<word, Sector>, after: map<word, Sector>)

  function NextSlowerDivider(divider: word): (d: word)
    ensures d <= MAX_DIV && (divider < MAX_DIV ==> divider < d)
    ensures d + 1 == if 2 * (divider + 1) < 125 then 2 * (divider + 1) else 125
  {
    var d: int := 2 * divider as int + 1;
    if d < MAX_DIV then d else MAX_DIV
  }

  /** The commands in between have written nothing; a reset card has finished. */
  ghost predicate Settling(c: Config, s: Hw, t: Hw) {
    && Valid(c, t) && t.cmd24 == s.cmd24 && t.now >= s.now
    && (t.pending == s.pending || t.pending == {})
    && Untouched(c, s.pending, s.content, t.content)
  }

  class GorvSd {
    const host: Host
    var rootLba: word
    var rootSectors: word
    var clockDiv: word
    var dataClockDiv: word
    var wide: bool
    var swapWords: bool
    var readOnly: bool
    var calibrating: bool
    var writeTestEnabled: bool
    var writeTestActive: bool
    var writeTestLba: word
    var blocksTransferred: word
    var transferRetries: word
    var rxFullEvents: word
    var lastWordsQueued: word

    /** All block transfers so far, for specifications. */
    ghost var trace: seq<Xfer>
    ghost var tests: seq<SdRanking.Test>
    /** What every successful read attempt returned. */
    ghost var readLog: seq<ReadResult>
    ghost var selftests: seq<Selftest>

    constructor (host: Host)
      ensures this.host == host && !calibrating && !writeTestActive && !swapWords && selftests == []
      ensures blocksTransferred == transferRetries == rxFullEvents == 0
    {
      this.host := host;
      rootLba, rootSectors, clockDiv, dataClockDiv := 0, 0, 0, 24;
      wide, swapWords, readOnly, calibrating := false, false, false, false;
      writeTestEnabled, writeTestActive, writeTestLba := false, false, 0;
      blocksTransferred, transferRetries, rxFullEvents, lastWordsQueued := 0, 0, 0, 0;
      trace, readLog, tests, selftests := [], [], [], [];
    }

    predicate WriteLbaAllowed(lba: word)
      reads `writeTestActive, `writeTestEnabled, `writeTestLba, `readOnly, `rootLba, `rootSectors
    {
      if writeTestActive then writeTestEnabled && lba == writeTestLba
      else if readOnly || lba < rootLba then false
      else lba - rootLba < rootSectors
    }

    /** Drains the receive FIFO into the buffer. */
    method DrainRx(buffer: array<word>, off: nat, start: nat, lba: word, ghost s0: Hw) returns (done: nat)
      requires Valid(host.cfg, host.s) && off + WORDS <= buffer.Length
      requires ReadingAt(host.s, s0, lba, start)
      requires buffer[off..off + start] == Wire(swapWords, PoppedWords(host.s.transfer))
      modifies host, buffer
      ensures ReadingAt(host.s, s0, lba, done) && Drained(host.cfg, old(host.s), host.s) && Valid(host.cfg, host.s)
      ensures buffer[off..off + done] == Wire(swapWords, PoppedWords(host.s.transfer))
      ensures OnlyBlock(old(buffer[..]), buffer[..], off)
    {
      hide Valid, SameTransfer, Untouched, Wire, Drained, Popped;
      done := start;
      DrainedNothing(host.cfg, host.s);
      while done < WORDS
        invariant Valid(host.cfg, host.s)
        invariant ReadingAt(host.s, s0, lba, done) && Drained(host.cfg, old(host.s), host.s)
        invariant buffer[off..off + done] == Wire(swapWords, PoppedWords(host.s.transfer))
        invariant OnlyBlock(old(buffer[..]), buffer[..], off)
        decreases WORDS - done
      {
        ghost var before := host.s;
        var rxEmpty, _, _ := host.FifoStatus();
        DrainedTick(host.cfg, old(host.s), before, host.s, s0, lba, done);
        if rxEmpty {
          return;
        }
        ghost var s1 := host.s;
        var value := host.ReadRx();
        DrainedPop(host.cfg, old(host.s), s1, host.s, s0, lba, done, value);
        WireAppend(swapWords, PoppedWords(s1.transfer), value);
        buffer[off + done] := if swapWords then Swab(value) else value;
        done := done + 1;
      }
    }

    /** Queues at most one word, after the response and only into a FIFO with room. */
    method QueueWord(buffer: array<word>, off: nat, start: nat, lba: word, ghost wire: seq<word>,
                     cmdDone: bool, ghost dataDone: bool, ghost s0: Hw) returns (done: nat)
      requires Valid(host.cfg, host.s) && off + WORDS <= buffer.Length && start <= WORDS
      requires wire == Wire(swapWords, buffer[off..off + WORDS])
      requires InFlight(host.cfg, s0, host.s, lba, true, wire, start, cmdDone, dataDone)
      modifies this`lastWordsQueued, host
      ensures InFlight(host.cfg, s0, host.s, lba, true, wire, done, cmdDone, dataDone)
      ensures start <= done <= WORDS && host.s.now >= old(host.s.now) && Valid(host.cfg, host.s)
    {
      hide Valid, SameTransfer, InFlight, Untouched;
      done := start;
      if cmdDone && done < WORDS {
        ghost var s := host.s;
        var _, txFull, _ := host.FifoStatus();
        Ticked(host.cfg, s0, s, host.s, lba, true, wire, done, cmdDone, dataDone);
        CommandIsDone(host.cfg, s0, host.s, lba, wire, done, dataDone);
        if !txFull {
          var value := if swapWords then Swab(buffer[off + done]) else buffer[off + done];
          s := host.s;
          host.WriteTx(value);
          PushedOne(host.cfg, s0, s, host.s, lba, wire, done, dataDone);
          done := done + 1;
          lastWordsQueued := done;
        }
      }
    }

    /** The command events and, once the command is done, its response. */
    method SampleCommand(lba: word, ghost write: bool, ghost done: nat, cmdBefore: bool, ghost dataDone: bool,
                         ghost s0: Hw, ghost wire: seq<word>) returns (failed: bool, cmdDone: bool)
      requires Valid(host.cfg, host.s) && InFlight(host.cfg, s0, host.s, lba, write, wire, done, cmdBefore, dataDone)
      modifies host
      ensures Valid(host.cfg, host.s) && InFlight(host.cfg, s0, host.s, lba, write, wire, done, cmdDone, dataDone)
      ensures host.s.now > old(host.s.now)
      ensures !write ==> PoppedWords(host.s.transfer) == PoppedWords(old(host.s).transfer)
    {
      hide Valid, SameTransfer, InFlight, Untouched;
      ghost var c, s := host.cfg, host.s;
      cmdDone := cmdBefore;
      var cmdEventDone, cmdError := host.CmdEvent();
      Ticked(c, s0, s, host.s, lba, write, wire, done, cmdDone, dataDone);
      Sampled(c, s0, host.s, lba, write, wire, done, cmdDone, dataDone);
      if cmdError {
        return true, cmdDone;
      }
      if cmdEventDone {
        cmdDone := true;
        s := host.s;
        failed := host.ResponseError();
        Ticked(c, s0, s, host.s, lba, write, wire, done, cmdDone, dataDone);
        return;
      }
      return false, cmdDone;
    }

    /** One pass of the service loop: sample the command events, move words, sample the
        data events. Gives 0 once the transfer is complete. */
    method Service(lba: word, buffer: array<word>, off: nat, write: bool, start: nat, cmdBefore: bool, dataBefore: bool,
                   ghost s0: Hw, ghost wire: seq<word>)
      returns (again: bool, err: int, done: nat, cmdDone: bool, dataDone: bool)
      requires Valid(host.cfg, host.s) && off + WORDS <= buffer.Length && start <= WORDS
      requires InFlight(host.cfg, s0, host.s, lba, write, wire, start, cmdBefore, dataBefore)
      requires write ==> wire == Wire(swapWords, buffer[off..off + WORDS])
      requires !write ==> buffer[off..off + start] == Wire(swapWords, PoppedWords(host.s.transfer))
      modifies this`rxFullEvents, this`lastWordsQueued, host, buffer
      ensures InFlight(host.cfg, s0, host.s, lba, write, wire, done, cmdDone, dataDone) && done <= WORDS
      ensures Valid(host.cfg, host.s) && host.s.now > old(host.s.now)
      ensures write ==> buffer[..] == old(buffer[..])
      ensures !write ==> OnlyBlock(old(buffer[..]), buffer[..], off)
      ensures again && !write ==> buffer[off..off + done] == Wire(swapWords, PoppedWords(host.s.transfer))
      ensures rxFullEvents == old(rxFullEvents)
              || (!again && err == EIO && rxFullEvents == (old(rxFullEvents) + 1) % 0x1_0000_0000)
      ensures !again ==> err == 0 || err == EIO
      ensures !again && err == 0 && write ==> Delivered(host.cfg, host.s, lba, wire)
      ensures !again && err == 0 && !write && Stable(host.cfg, host.s.pending, lba) ==>
                lba in host.s.content && buffer[off..off + WORDS] == Wire(swapWords, host.s.content[lba])
    {
      hide Valid, SameTransfer, InFlight, WritingAt, ReadingAt, Delivered, Wire, Pushed, Untouched, Wrote;
      ghost var c, s := host.cfg, host.s;
      done, dataDone, again, err := start, dataBefore, false, EIO;
      var failed;
      failed, cmdDone := SampleCommand(lba, write, done, cmdBefore, dataDone, s0, wire);
      if failed {
        return;
      }
      if write {
        done := QueueWord(buffer, off, done, lba, wire, cmdDone, dataDone, s0);
      } else {
        s := host.s;
        StillReading(c, s0, s, lba, wire, done, cmdDone, dataDone);
        done := DrainRx(buffer, off, done, lba, s0);
        DrainedSome(c, s0, s, host.s, lba, wire, start, done, cmdDone, dataDone);
      }
      s := host.s;
      var full, error, ended := host.DataEvent();
      Ticked(c, s0, s, host.s, lba, write, wire, done, cmdDone, dataDone);
      Sampled(c, s0, host.s, lba, write, wire, done, cmdDone, dataDone);
      if full {
        rxFullEvents := (rxFullEvents + 1) % 0x1_0000_0000;
        return;
      }
      if error {
        return;
      }
      if ended {
        dataDone := true;
      }
      if cmdDone && dataDone && done == WORDS {
        if !write {
          ReadIsDone(c, s0, host.s, lba, wire, cmdDone);
          err := 0;
          return;
        }
        s := host.s;
        var _, _, txEmpty := host.FifoStatus();
        Ticked(c, s0, s, host.s, lba, write, wire, done, cmdDone, dataDone);
        if txEmpty {
          WriteIsDelivered(c, s0, host.s, lba, wire);
          err := 0;
          return;
        }
      }
      again := true;
    }

    /** Transfers one block. A 0 return means that the buffer of a read holds exactly the
        block, or that a write has delivered exactly the buffer's 128 words. */
    method TransferOnce(lba: word, buffer: array<word>, off: nat, write: bool) returns (err: int)
      requires Valid(host.cfg, host.s) && off + WORDS <= buffer.Length
      modifies this`rxFullEvents, this`lastWordsQueued, host, buffer
      ensures Valid(host.cfg, host.s)
      ensures err == EPERM <==> write && !old(WriteLbaAllowed(lba))
      ensures write ==>
                (err == EPERM <==>
                 !(if old(writeTestActive) then old(writeTestEnabled) && lba == old(writeTestLba)
                   else !old(readOnly) && old(rootLba) <= lba && lba - old(rootLba) < old(rootSectors)))
      ensures err == ERANGE <==> err != EPERM && !host.cfg.sdhc && lba > U32_MAX / 512
      ensures err == EPERM || err == ERANGE ==> host.s == old(host.s) && buffer[..] == old(buffer[..])
      ensures write ==> buffer[..] == old(buffer[..])
      ensures !write ==> OnlyBlock(old(buffer[..]), buffer[..], off) && Quiet(host.cfg, old(host.s), host.s)
      ensures write && err != EPERM && err != ERANGE ==> Wrote(host.cfg, old(host.s), host.s, lba)
      ensures err in {0, EPERM, ERANGE, EIO, ETIMEDOUT}
      ensures err == 0 && write ==>
                Delivered(host.cfg, host.s, lba, Wire(swapWords, old(buffer[off..off + WORDS])))
      ensures err == 0 && !write && Stable(host.cfg, host.s.pending, lba) ==>
                lba in host.s.content && buffer[off..off + WORDS] == Wire(swapWords, host.s.content[lba])
      ensures rxFullEvents == old(rxFullEvents)
              || (err == EIO && rxFullEvents == (old(rxFullEvents) + 1) % 0x1_0000_0000)
    {
      hide Valid, SameTransfer, InFlight, Delivered, Wire, Untouched, Quiet, Wrote, Stable;
      QuietNothing(host.cfg, host.s);
      assert OnlyBlock(buffer[..], buffer[..], off);
      if write && !WriteLbaAllowed(lba) {
        return EPERM;
      }
      if !host.cfg.sdhc && lba > U32_MAX / 512 {
        return ERANGE;
      }
      var arg: word := if host.cfg.sdhc then lba else lba * 512;
      var timeoutNs := if write then WRITE_TRANSFER_TIMEOUT_NS else READ_TRANSFER_TIMEOUT_NS;
      ghost var c, s0, wire := host.cfg, host.s, Wire(swapWords, buffer[off..off + WORDS]);
      host.Reset();
      if write {
        lastWordsQueued := 0;
      }
      ghost var s1 := host.s;
      host.StartData(arg, write);
      QuietReset(c, s0, s1);
      Launched(c, s0, s1, host.s, lba, write, wire);
      ghost var s := host.s;
      var startNs := host.Clock();
      var done: nat, spin: nat, cmdDone, dataDone := 0, 0, false, false;
      Ticked(c, s0, s, host.s, lba, write, wire, done, cmdDone, dataDone);
      EmptyWire(swapWords);
      ghost var checked := 0;
      while true
        invariant InFlight(c, s0, host.s, lba, write, wire, done, cmdDone, dataDone) && done <= WORDS
        invariant Valid(c, host.s)
        invariant !write ==> buffer[off..off + done] == Wire(swapWords, PoppedWords(host.s.transfer))
        invariant write ==> buffer[..] == old(buffer[..])
        invariant OnlyBlock(old(buffer[..]), buffer[..], off)
        invariant rxFullEvents == old(rxFullEvents)
        invariant startNs + spin <= host.s.now && checked <= timeoutNs
        invariant checked % 256 == 0 && checked <= spin <= checked + 256 && (spin == checked ==> spin == 0)
        decreases timeoutNs + 256 - spin
      {
        var again, err2, done2, cmd2, data2 :=
          Service(lba, buffer, off, write, done, cmdDone, dataDone, s0, wire);
        done, cmdDone, dataDone := done2, cmd2, data2;
        Aborted(c, s0, host.s, lba, write, wire, done, cmdDone, dataDone);
        if !again {
          return err2;
        }
        Multiples(checked, spin);
        if spin % 256 == 0 {
          s := host.s;
          var t := host.Clock();
          Ticked(c, s0, s, host.s, lba, write, wire, done, cmdDone, dataDone);
          Aborted(c, s0, host.s, lba, write, wire, done, cmdDone, dataDone);
          if t - startNs > timeoutNs {
            return ETIMEDOUT;
          }
          checked := spin;
        }
        spin := spin + 1;
      }
    }

    /** Polls CMD13 until the card is idle. A 0 return means that it has finished
        programming and has reported no error on the way. */
    method WaitTransferState() returns (err: int)
      requires Valid(host.cfg, host.s)
      modifies host
      ensures Valid(host.cfg, host.s) && host.s.cmd24 == old(host.s.cmd24)
      ensures Untouched(host.cfg, old(host.s.pending), old(host.s.content), host.s.content)
      ensures host.s.pending == old(host.s.pending) || host.s.pending == {}
      ensures err == 0 ==> host.s.pending == {} && Programmed(host.cfg, old(host.s), host.s.content)
      ensures err == 0 || err == EIO || err == ETIMEDOUT
    {
      hide ValidTransfer;
      var statusError := 0;
      for i := 0 to CARD_READY_TIMEOUT_MS
        invariant Valid(host.cfg, host.s) && host.s.cmd24 == old(host.s.cmd24)
        invariant Untouched(host.cfg, old(host.s.pending), old(host.s.content), host.s.content)
        invariant host.s.pending == old(host.s.pending) && host.s.landing == old(host.s.landing)
        invariant statusError == 0 ==> host.s.failed == old(host.s.failed)
        invariant statusError == 0 || statusError == EIO
      {
        var answered, bad, ready := host.Cmd13();
        if answered {
          if bad {
            statusError := EIO;
          }
          if ready {
            return statusError;
          }
        }
      }
      return if statusError != 0 then statusError else ETIMEDOUT;
    }

    /** One attempt. After a CMD24, failed or not, it waits for the card to become idle. */
    method TransferOneShot(lba: word, buffer: array<word>, off: nat, write: bool) returns (err: int)
      requires Valid(host.cfg, host.s) && off + WORDS <= buffer.Length
      modifies this`rxFullEvents, this`lastWordsQueued, this`readLog, host, buffer
      ensures Valid(host.cfg, host.s)
      ensures readLog == if !write && err == 0 then old(readLog) + [ReadResult(lba, buffer[off..off + WORDS])]
                         else old(readLog)
      ensures !write ==> OnlyBlock(old(buffer[..]), buffer[..], off) && Quiet(host.cfg, old(host.s), host.s)
      ensures !write && err == 0 && Stable(host.cfg, host.s.pending, lba) ==>
                buffer[off..off + WORDS] == Wire(swapWords, host.s.content[lba])
      ensures write ==> buffer[..] == old(buffer[..])
      ensures write ==>
                WriteEffect(host.cfg, old(host.s), host.s, lba, old(WriteLbaAllowed(lba)) && Addressable(host.cfg, lba),
                            err, Wire(swapWords, old(buffer[off..off + WORDS])))
      ensures err == EPERM <==> write && !old(WriteLbaAllowed(lba))
      ensures err == ERANGE <==> err != EPERM && !Addressable(host.cfg, lba)
      ensures err in {0, EPERM, ERANGE, EIO, ETIMEDOUT}
      ensures rxFullEvents == old(rxFullEvents) || err != 0
    {
      hide Valid, Delivered, Wire, Untouched, Quiet, Wrote, Stable, Advanced, WriteEffect, Programmed;
      ghost var c, s0, wire := host.cfg, host.s, Wire(swapWords, buffer[off..off + WORDS]);
      ghost var issued := WriteLbaAllowed(lba) && Addressable(c, lba);
      err := TransferOnce(lba, buffer, off, write);
      ghost var s1 := host.s;
      assert write && issued ==> Wrote(c, s0, s1, lba);
      assert write && err == 0 ==> Delivered(c, s1, lba, wire);
      var last1, last2 := SnapshotCommand();
      ghost var s2 := host.s;
      if write {
        var readyError := WaitTransferState();
        WriteSettled(c, s0, s1, s2, host.s, lba, issued, err, readyError, wire);
        if err == 0 {
          err := readyError;
        }
      } else {
        QuietTwice(c, s0, s1, s2);
        StillStable(c, s1, s2, lba);
        if err == 0 {
          readLog := readLog + [ReadResult(lba, buffer[off..off + WORDS])];
        }
      }
    }

    /** The event and FIFO registers kept for diagnostics. */
    method SnapshotCommand() returns (cmd: bool, data: bool)
      requires Valid(host.cfg, host.s)
      modifies host
      ensures Quiet(host.cfg, old(host.s), host.s) && Valid(host.cfg, host.s)
      ensures forall lba: word, wire: seq<word> ::
                Delivered(host.cfg, old(host.s), lba, wire) ==> Delivered(host.cfg, host.s, lba, wire)
    {
      hide Valid, Delivered, Untouched, Quiet;
      ghost var c, s := host.cfg, host.s;
      var cmdEvent, _ := host.CmdEvent();
      ghost var s1 := host.s;
      DeliveredTick(c, s, s1);
      var _, _, dataEvent := host.DataEvent();
      ghost var s2 := host.s;
      DeliveredTick(c, s1, s2);
      var _, _, _ := host.FifoStatus();
      DeliveredTick(c, s2, host.s);
      QuietTwice(c, s, s1, s2);
      QuietTwice(c, s, s2, host.s);
      cmd, data := cmdEvent, dataEvent;
    }

    /** Reads are tried three times, at a halved clock after each failure unless the driver
        is calibrating; a write is never repeated. */
    method TransferBlock(lba: word, buffer: array<word>, off: nat, write: bool) returns (err: int)
      requires Valid(host.cfg, host.s) && off + WORDS <= buffer.Length
      modifies this`rxFullEvents, this`lastWordsQueued, this`clockDiv, this`dataClockDiv, this`blocksTransferred,
               this`transferRetries, this`trace, this`readLog, host, buffer
      ensures Valid(host.cfg, host.s)
      ensures !write ==> OnlyBlock(old(buffer[..]), buffer[..], off) && Quiet(host.cfg, old(host.s), host.s)
      ensures !write && err == 0 && Stable(host.cfg, host.s.pending, lba) ==>
                buffer[off..off + WORDS] == Wire(swapWords, host.s.content[lba])
      ensures write ==> buffer[..] == old(buffer[..])
      ensures write ==>
                WriteEffect(host.cfg, old(host.s), host.s, lba, old(WriteLbaAllowed(lba)) && Addressable(host.cfg, lba),
                            err, Wire(swapWords, old(buffer[off..off + WORDS])))
      ensures err == EPERM ==> write && !old(WriteLbaAllowed(lba))
      ensures write && !old(WriteLbaAllowed(lba)) ==> err == EPERM
      ensures blocksTransferred == (old(blocksTransferred) + 1) % 0x1_0000_0000
      ensures transferRetries in {old(transferRetries), (old(transferRetries) + 1) % 0x1_0000_0000,
                                  (old(transferRetries) + 2) % 0x1_0000_0000}
      ensures err != 0 || write ==>
                transferRetries == (old(transferRetries) + if write then 0 else 2) % 0x1_0000_0000
      ensures trace == old(trace)
                       + [Xfer(lba, write, wide, old(clockDiv),
                               err == 0 && transferRetries == old(transferRetries) && rxFullEvents == old(rxFullEvents),
                               buffer[off..off + WORDS])]
      ensures calibrating ==> clockDiv == old(clockDiv) && dataClockDiv == old(dataClockDiv)
      ensures clockDiv != old(clockDiv) ==> dataClockDiv == clockDiv && old(clockDiv) < clockDiv <= MAX_DIV
      ensures !calibrating && !write && err != 0 && old(clockDiv) <= MAX_DIV ==>
                clockDiv == NextSlowerDivider(NextSlowerDivider(old(clockDiv)))
    {
      hide Valid, Wire, Untouched, Quiet, Stable, WriteEffect, WriteLbaAllowed, Addressable, OnlyBlock,
        NextSlowerDivider;
      OnlyBlockSame(buffer[..], off);
      ghost var c, s0, div0 := host.cfg, host.s, clockDiv;
      var initialDivider, rxFullBefore := clockDiv, rxFullEvents;
      var maxAttempts := if write then 1 else 3;
      var attempt := 0;
      err := EIO;
      QuietNothing(c, s0);
      while attempt < maxAttempts
        invariant 0 <= attempt <= maxAttempts && Valid(c, host.s) && err != 0
        invariant attempt == 0 ==> host.s == s0 && rxFullEvents == rxFullBefore && clockDiv == div0
        invariant attempt == 0 ==> err == EIO
        invariant attempt > 0 ==> (write && !old(WriteLbaAllowed(lba)) <==> err == EPERM)
        invariant write && attempt > 0 ==>
                    WriteEffect(c, s0, host.s, lba, old(WriteLbaAllowed(lba)) && Addressable(c, lba), err,
                                Wire(swapWords, old(buffer[off..off + WORDS])))
        invariant write ==> buffer[..] == old(buffer[..])
        invariant OnlyBlock(old(buffer[..]), buffer[..], off)
        invariant !write ==> Quiet(c, s0, host.s)
        invariant calibrating ==> clockDiv == old(clockDiv) && dataClockDiv == old(dataClockDiv)
        invariant clockDiv != div0 ==> dataClockDiv == clockDiv && div0 < clockDiv <= MAX_DIV
        invariant trace == old(trace) && transferRetries == old(transferRetries)
        invariant blocksTransferred == old(blocksTransferred)
        invariant !calibrating && div0 <= MAX_DIV && !write ==>
                    clockDiv == if attempt == 0 then div0
                                else if attempt == 1 then NextSlowerDivider(div0)
                                else NextSlowerDivider(NextSlowerDivider(div0))
      {
        ghost var s, before := host.s, buffer[..];
        err := TransferOneShot(lba, buffer, off, write);
        if !write {
          QuietTwice(c, s0, s, host.s);
          OnlyBlockTwice(old(buffer[..]), before, buffer[..], off);
        }
        if err == 0 {
          break;
        }
        if !calibrating && attempt + 1 < maxAttempts && clockDiv < MAX_DIV {
          clockDiv := NextSlowerDivider(clockDiv);
          dataClockDiv := clockDiv;
        }
        attempt := attempt + 1;
      }
      if !calibrating && err == 0 && rxFullEvents != rxFullBefore && clockDiv == initialDivider && clockDiv < MAX_DIV {
        clockDiv := NextSlowerDivider(clockDiv);
        dataClockDiv := clockDiv;
      }
      Account(if attempt < maxAttempts - 1 then attempt else maxAttempts - 1,
              Xfer(lba, write, wide, div0, err == 0 && attempt == 0, buffer[off..off + WORDS]));
    }

    /** Counts a block and its retries. */
    method Account(retries: nat, ghost x: Xfer)
      requires retries < 3
      modifies this`blocksTransferred, this`transferRetries, this`trace
      ensures trace == old(trace) + [x] && (transferRetries == old(transferRetries) <==> retries == 0)
      ensures blocksTransferred == (old(blocksTransferred) + 1) % 0x1_0000_0000
      ensures transferRetries == (old(transferRetries) + retries) % 0x1_0000_0000
    {
      blocksTransferred := (blocksTransferred + 1) % 0x1_0000_0000;
      transferRetries := (transferRetries + retries) % 0x1_0000_0000;
      trace := trace + [x];
    }

    /** Identification; on success the card is idle and the bus may be four bits wide. */
    method CardInit() returns (err: int)
      requires Valid(host.cfg, host.s)
      modifies this`clockDiv, this`wide, host
      ensures Settling(host.cfg, old(host.s), host.s)
      ensures err == 0 ==> clockDiv == dataClockDiv && host.s.pending == {}
      ensures err == 0 || err == EIO || err == ETIMEDOUT
    {
      hide ValidTransfer;
      clockDiv, wide := MAX_DIV, false;
      var ok := host.Identify();
      if !ok {
        var timedOut: bool := *;
        return if timedOut then ETIMEDOUT else EIO;
      }
      var fourBit := host.Command();
      wide := fourBit;
      clockDiv := dataClockDiv;
      return 0;
    }

    method SetBusWidth(newWide: bool) returns (err: int)
      requires Valid(host.cfg, host.s)
      modifies this`wide, host
      ensures Quiet(host.cfg, old(host.s), host.s)
      ensures err == 0 ==> wide == newWide
      ensures err == 0 || err == EIO
    {
      hide ValidTransfer;
      var ok := host.Command();
      if !ok {
        return EIO;
      }
      ok := host.Command();
      if !ok {
        return EIO;
      }
      wide := newWide;
      return 0;
    }

    /** A freshly initialised card in the given mode. */
    method PrepareMode(newWide: bool, divider: word) returns (err: int)
      requires Valid(host.cfg, host.s)
      modifies this`clockDiv, this`wide, host
      ensures Settling(host.cfg, old(host.s), host.s)
      ensures err == 0 ==> wide == newWide && clockDiv == divider && host.s.pending == {}
    {
      hide ValidTransfer;
      err := CardInit();
      if err != 0 {
        return;
      }
      clockDiv := CALIBRATION_SAFE_DIV;
      err := SetBusWidth(newWide);
      if err != 0 {
        return;
      }
      clockDiv := divider;
    }

    method PrepareModeRetry(newWide: bool, divider: word) returns (err: int, ghost tries: nat)
      requires Valid(host.cfg, host.s)
      modifies this`clockDiv, this`dataClockDiv, this`wide, host
      ensures Settling(host.cfg, old(host.s), host.s) && dataClockDiv == divider
      ensures 1 <= tries <= 3 && (err != 0 ==> tries == 3)
      ensures err == 0 ==> wide == newWide && clockDiv == divider && host.s.pending == {}
    {
      hide ValidTransfer;
      err, tries := EIO, 0;
      dataClockDiv := divider;
      for attempt := 0 to 3
        invariant Settling(host.cfg, old(host.s), host.s) && dataClockDiv == divider && err != 0
        invariant tries == attempt
      {
        tries := tries + 1;
        err := PrepareMode(newWide, divider);
        if err == 0 {
          return;
        }
      }
    }
  }

  predicate Addressable(c: Config, lba: word) { c.sdhc || lba <= U32_MAX / 512 }

  /** The outcome of a write attempt. Only an allowed, addressable write issues a CMD24, and
      exactly one; it may change its own block on a trustworthy card and any block on
      another. A 0 return means that the card is idle and that a trustworthy card holds the
      data. */
  ghost predicate WriteEffect(c: Config, s: Hw, t: Hw, lba: word, issued: bool, err: int, wire: seq<word>) {
    && Valid(c, t)
    && t.cmd24 == (if issued then s.cmd24 + [lba] else s.cmd24)
    && (t.pending == {} || t.pending == if issued then s.pending + {lba} else s.pending)
    && Untouched(c, if issued then s.pending + {lba} else s.pending, s.content, t.content)
    && (err == 0 ==> issued && t.pending == {} && (c.honest ==> t.content[lba] == wire))
  }

  lemma QuietTwice(c: Config, s: Hw, t: Hw, u: Hw)
    requires Quiet(c, s, t) && Quiet(c, t, u)
    ensures Quiet(c, s, u)
  {
    hide ValidTransfer;
  }

  lemma StillStable(c: Config, s: Hw, t: Hw, lba: word)
    requires Quiet(c, s, t)
    ensures s.pending == t.pending && Total(t.content)
    ensures Stable(c, t.pending, lba) ==> lba in s.content && t.content[lba] == s.content[lba]
  {
    hide ValidTransfer;
  }

  lemma DeliveredTick(c: Config, s: Hw, t: Hw)
    requires Valid(c, s) && Advanced(c, s, t)
    ensures Quiet(c, s, t)
    ensures forall lba: word, wire: seq<word> :: Delivered(c, s, lba, wire) ==> Delivered(c, t, lba, wire)
  {
    forall lba: word, wire: seq<word> | Delivered(c, s, lba, wire) ensures Delivered(c, t, lba, wire) {
      assert t.transfer.taken + t.transfer.tx == t.transfer.taken;
    }
  }

  lemma WriteSettled(c: Config, s0: Hw, s1: Hw, s2: Hw, s3: Hw, lba: word, issued: bool, err: int, readyError: int,
                     wire: seq<word>)
    requires Valid(c, s0) && Valid(c, s3) && Quiet(c, s1, s2)
    requires if issued then Wrote(c, s0, s1, lba) else s1 == s0
    requires err == 0 ==> issued && Delivered(c, s2, lba, wire)
    requires s3.cmd24 == s2.cmd24 && (s3.pending == s2.pending || s3.pending == {})
    requires Untouched(c, s2.pending, s2.content, s3.content)
    requires readyError == 0 ==> s3.pending == {} && Programmed(c, s2, s3.content)
    ensures WriteEffect(c, s0, s3, lba, issued, if err == 0 then readyError else err, wire)
  {
    hide ValidTransfer;
  }

  lemma StillReading(c: Config, s0: Hw, s: Hw, lba: word, wire: seq<word>, done: nat, cmdDone: bool, dataDone: bool)
    requires InFlight(c, s0, s, lba, false, wire, done, cmdDone, dataDone)
    ensures ReadingAt(s, s0, lba, done) && Valid(c, s)
  {
    hide ValidTransfer;
  }

  lemma Multiples(a: nat, b: nat)
    requires a % 256 == 0 && a <= b <= a + 256
    ensures b % 256 == 0 <==> b == a || b == a + 256
  {
  }

  lemma CommandIsDone(c: Config, s0: Hw, s: Hw, lba: word, wire: seq<word>, done: nat, dataDone: bool)
    requires InFlight(c, s0, s, lba, true, wire, done, true, dataDone)
    ensures Valid(c, s) && s.flags.cmdDone
  {
  }

  lemma QuietReset(c: Config, s: Hw, t: Hw)
    requires Valid(c, s) && Valid(c, t) && Untouched(c, t.pending, s.content, t.content)
    requires t.cmd24 == s.cmd24 && t.pending == s.pending && t.now >= s.now
    ensures Quiet(c, s, t)
  {
  }

  lemma QuietNothing(c: Config, s: Hw)
    requires Valid(c, s)
    ensures Quiet(c, s, s)
  {
  }

  /** Whatever happens to a transfer, a read writes nothing and a write is one CMD24. */
  lemma Aborted(c: Config, s0: Hw, s: Hw, lba: word, write: bool, wire: seq<word>,
                done: nat, cmdDone: bool, dataDone: bool)
    requires InFlight(c, s0, s, lba, write, wire, done, cmdDone, dataDone)
    ensures Valid(c, s)
    ensures if write then Wrote(c, s0, s, lba) else Quiet(c, s0, s)
  {
    hide ValidTransfer;
  }

  /** An error-free sample of the event registers may be recorded. */
  lemma Sampled(c: Config, s0: Hw, s: Hw, lba: word, write: bool, wire: seq<word>,
                done: nat, cmdDone: bool, dataDone: bool)
    requires InFlight(c, s0, s, lba, write, wire, done, cmdDone, dataDone)
    ensures s.flags.cmdDone ==> InFlight(c, s0, s, lba, write, wire, done, true, dataDone)
    ensures s.flags.dataDone && !s.flags.dataError ==> InFlight(c, s0, s, lba, write, wire, done, cmdDone, true)
    ensures done <= WORDS
  {
    hide ValidTransfer;
  }

  lemma ReadIsDone(c: Config, s0: Hw, s: Hw, lba: word, wire: seq<word>, cmdDone: bool)
    requires InFlight(c, s0, s, lba, false, wire, WORDS, cmdDone, true)
    ensures Total(s.content) && (Stable(c, s.pending, lba) ==> PoppedWords(s.transfer) == s.content[lba])
  {
    if Stable(c, s.pending, lba) {
      ReadIsBlock(c, s);
    }
  }

  lemma EmptyWire(swap: bool)
    ensures Wire(swap, []) == []
  {
  }

  lemma WireAppend(swap: bool, s: seq<word>, w: word)
    ensures Wire(swap, s + [w]) == Wire(swap, s) + [if swap then Swab(w) else w]
  {
    hide Swab;
  }

  lemma DrainedNothing(c: Config, s: Hw)
    requires Valid(c, s) && s.transfer.Reading?
    ensures Drained(c, s, s)
  {
    hide ValidTransfer;
  }

  lemma DrainedPop(c: Config, s0: Hw, s: Hw, t: Hw, start: Hw, lba: word, done: nat, w: word)
    requires Drained(c, s0, s) && Popped(c, s, t, w) && ReadingAt(s, start, lba, done) && done < WORDS
    ensures Drained(c, s0, t) && Valid(c, t) && ReadingAt(t, start, lba, done + 1)
    ensures PoppedWords(t.transfer) == PoppedWords(s.transfer) + [w]
  {
    hide ValidTransfer;
  }

  lemma DrainedTick(c: Config, s0: Hw, s: Hw, t: Hw, start: Hw, lba: word, done: nat)
    requires Drained(c, s0, s) && Advanced(c, s, t) && ReadingAt(s, start, lba, done)
    ensures Drained(c, s0, t) && ReadingAt(t, start, lba, done) && Valid(c, t)
            && PoppedWords(t.transfer) == PoppedWords(s.transfer)
    ensures |t.transfer.popped| == |s.transfer.popped|
  {
    hide ValidTransfer;
  }

  /** The effect of reading words on everything but the read itself. */
  ghost predicate Drained(c: Config, s: Hw, t: Hw) {
    && Valid(c, t) && t.now >= s.now && t.pending == s.pending && t.cmd24 == s.cmd24
    && s.transfer.Reading? && t.transfer.Reading?
    && t.transfer.lba == s.transfer.lba && t.transfer.line == s.transfer.line
       && t.transfer.corrupt == s.transfer.corrupt
    && (s.flags.cmdDone ==> t.flags.cmdDone)
    && (s.flags.dataDone ==> t.flags.dataDone && t.flags.dataError == s.flags.dataError)
    && Untouched(c, s.pending, s.content, t.content)
  }
}
