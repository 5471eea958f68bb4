/** The environment of the SD driver: a card behind a controller with two bounded FIFOs,
    as a state machine. Every register access lets it make nondeterministic progress. */
module SdHost {
  import opened Words

  type Sector = s: seq<word> | |s| == 128 witness seq(128, _ => 0)

  /** A trustworthy card (`honest`) programs no block but the addressed one, and has
      programmed it once it reports an accepted write as finished. Nothing is promised of
      any other card. `depth` is the size of each FIFO. */
  datatype Config = Config(sdhc: bool, honest: bool, depth: nat)

  /** The data command in progress. A read sends `line`, of which `sent` words have
      arrived: in `popped`, in the FIFO `rx`, or lost to a full FIFO. A write has `queued`
      words, of which the card has taken some and the rest are in the FIFO `tx`. */
  datatype Transfer =
    | Idle
    | Reading(lba: word, line: Sector, corrupt: bool, sent: nat, rx: seq<word>, lost: nat, popped: seq<word>)
    | Writing(lba: word, tx: seq<word>, taken: seq<word>, queued: seq<word>, dropped: nat)

  /** The data of a write whose data phase ended without an error. */
  datatype Landing = Nothing | Accepted(lba: word, data: Sector)

  datatype Flags = Flags(cmdDone: bool, cmdError: bool, dataDone: bool, dataError: bool, rxFull: bool)

  const NoFlags := Flags(false, false, false, false, false)

  /** `pending` holds the blocks the card may still be programming, and `cmd24` is the
      history of all write commands. */
  datatype Hw = Hw(content: map<word, Sector>, pending: set<word>, landing: Landing, failed: bool,
                   transfer: Transfer, flags: Flags, now: nat, cmd24: seq<word>)

  ghost predicate Total(content: map<word, Sector>) {
    forall l: word :: l in content
  }

  /** The card has no reason to change this block by itself. */
  predicate Stable(c: Config, pending: set<word>, l: word) {
    pending == {} || (c.honest && l !in pending)
  }

  /** Blocks that are not being programmed keep their contents. */
  ghost predicate Untouched(c: Config, pending: set<word>, a: map<word, Sector>, b: map<word, Sector>) {
    Total(a) && Total(b) && forall l: word :: Stable(c, pending, l) ==> a[l] == b[l]
  }

  ghost predicate ValidTransfer(c: Config, t: Transfer, f: Flags, pending: set<word>, landing: Landing) {
    match t
    case Idle => true
    case Reading(lba, line, corrupt, sent, rx, lost, popped) =>
      && |popped| + |rx| + lost == sent <= 128
      && (lost == 0 ==> popped + rx == line[..sent])
      && (corrupt && f.dataDone ==> f.dataError)
    case Writing(lba, tx, taken, queued, dropped) =>
      && taken + tx == queued
      && lba in pending
      && (f.dataDone && !f.dataError && c.honest ==> |taken| == 128 && landing == Accepted(lba, taken))
  }

  ghost predicate Valid(c: Config, s: Hw) {
    && Total(s.content)
    && ValidTransfer(c, s.transfer, s.flags, s.pending, s.landing)
    && (s.landing.Accepted? ==> s.landing.lba in s.pending)
    && (s.transfer.Reading? && !s.transfer.corrupt && Stable(c, s.pending, s.transfer.lba) ==>
          s.transfer.line == s.content[s.transfer.lba])
  }

  /** What time does to a command: words move, flags are raised, nothing else. */
  ghost predicate SameTransfer(a: Transfer, fa: Flags, b: Transfer, fb: Flags) {
    && (fa.cmdDone ==> fb.cmdDone)
    && (fa.dataDone ==> fb.dataDone && fa.dataError == fb.dataError)
    && match a
       case Idle => b.Idle?
       case Reading(lba, line, corrupt, _, rx, _, popped) =>
         && b.Reading? && b.lba == lba && b.line == line && b.corrupt == corrupt && b.popped == popped
         && |b.rx| >= |rx|
       case Writing(lba, tx, _, queued, dropped) =>
         && b.Writing? && b.lba == lba && |b.tx| <= |tx|
         && (fa.cmdDone || queued == [] ==> b.queued == queued && b.dropped == dropped)
  }

  ghost predicate Advanced(c: Config, s: Hw, t: Hw) {
    && Valid(c, t)
    && t.now > s.now && t.pending == s.pending && t.cmd24 == s.cmd24 && t.failed == s.failed
    && SameTransfer(s.transfer, s.flags, t.transfer, t.flags)
    && Untouched(c, s.pending, s.content, t.content)
  }

  // --------------------------------------------------- progress of the data command

  /** One more word arrives from the bus. */
  function Deliver(c: Config, t: Transfer, f: Flags): (r: (Transfer, Flags)) {
    if t.Reading? && t.sent < 128 then
      if |t.rx| < c.depth then (t.(rx := t.rx + [t.line[t.sent]], sent := t.sent + 1), f)
      else (t.(lost := t.lost + 1, sent := t.sent + 1), f.(rxFull := true))
    else (t, f)
  }

  /** The card takes a word from the transmit FIFO once its data phase has begun. */
  function Take(t: Transfer, f: Flags): Transfer {
    if t.Writing? && f.cmdDone && !f.dataDone && t.tx != [] && |t.taken| < 128 then
      t.(taken := t.taken + [t.tx[0]], tx := t.tx[1..])
    else t
  }

  /** The response. Words queued for a write before it are thrown away. */
  function EndCommand(t: Transfer, f: Flags): (r: (Transfer, Flags)) {
    (if t.Writing? && !f.cmdDone then t.(tx := [], queued := t.taken, dropped := t.dropped + |t.tx|) else t,
     f.(cmdDone := true))
  }

  /** The end of the data phase, with or without an error. A corrupted block shows up as a
      CRC error, and a trustworthy card ends an error-free write only with all the data in
      hand. */
  function EndData(c: Config, t: Transfer, f: Flags, bad: bool): (r: Flags) {
    if f.dataDone then f
    else
      var error := f.dataError || bad || (t.Reading? && t.corrupt) || (t.Writing? && c.honest && |t.taken| != 128);
      f.(dataDone := true, dataError := error)
  }

  function Landed(t: Transfer, before: Flags, after: Flags, landing: Landing): Landing {
    if !before.dataDone && after.dataDone && !after.dataError && t.Writing? && |t.taken| == 128
    then Accepted(t.lba, t.taken) else landing
  }

  lemma DeliverKeeps(c: Config, t: Transfer, f: Flags, pending: set<word>, landing: Landing)
    requires ValidTransfer(c, t, f, pending, landing)
    ensures var (t2, f2) := Deliver(c, t, f);
            ValidTransfer(c, t2, f2, pending, landing) && SameTransfer(t, f, t2, f2)
  {
    if t.Reading? && t.sent < 128 && t.lost == 0 && |t.rx| < c.depth {
      assert t.popped + (t.rx + [t.line[t.sent]]) == t.line[..t.sent] + [t.line[t.sent]];
    }
  }

  lemma TakeKeeps(c: Config, t: Transfer, f: Flags, pending: set<word>, landing: Landing)
    requires ValidTransfer(c, t, f, pending, landing)
    ensures ValidTransfer(c, Take(t, f), f, pending, landing) && SameTransfer(t, f, Take(t, f), f)
  {
    if t.Writing? && t.tx != [] {
      assert t.taken + t.tx == (t.taken + [t.tx[0]]) + t.tx[1..];
    }
  }

  lemma EndCommandKeeps(c: Config, t: Transfer, f: Flags, pending: set<word>, landing: Landing)
    requires ValidTransfer(c, t, f, pending, landing)
    ensures var (t2, f2) := EndCommand(t, f);
            ValidTransfer(c, t2, f2, pending, landing) && SameTransfer(t, f, t2, f2)
  {
    if t.Writing? && t.queued == [] {
      assert t.taken + t.tx == [];
      assert |t.taken + t.tx| == |t.taken| + |t.tx|;
    }
  }

  lemma EndDataKeeps(c: Config, t: Transfer, f: Flags, bad: bool, pending: set<word>, landing: Landing)
    requires ValidTransfer(c, t, f, pending, landing)
    ensures var f2 := EndData(c, t, f, bad);
            && ValidTransfer(c, t, f2, pending, Landed(t, f, f2, landing)) && SameTransfer(t, f, t, f2)
            && (Landed(t, f, f2, landing) != landing ==> t.Writing? && Landed(t, f, f2, landing).lba == t.lba)
  {
  }

  lemma SameTransferTwice(a: Transfer, fa: Flags, b: Transfer, fb: Flags, d: Transfer, fd: Flags)
    requires SameTransfer(a, fa, b, fb) && SameTransfer(b, fb, d, fd)
    ensures SameTransfer(a, fa, d, fd)
  {
  }

  class Host {
    const cfg: Config
    var s: Hw

    constructor (cfg: Config, content: map<word, Sector>)
      requires Total(content)
      ensures this.cfg == cfg && Valid(cfg, s) && s.content == content && s.pending == {} && s.cmd24 == []
    {
      this.cfg := cfg;
      s := Hw(content, {}, Nothing, false, Idle, NoFlags, 0, []);
    }

    /** Time passes, and the card programs what it has been told to program. */
    method Background()
      requires Valid(cfg, s)
      modifies this
      ensures Valid(cfg, s) && s.now > old(s.now) && Untouched(cfg, s.pending, old(s.content), s.content)
      ensures s == old(s).(content := s.content, now := s.now)
    {
      hide ValidTransfer;
      var content := s.content;
      if s.pending != {} {
        var c: map<word, Sector> := *;
        content := map l: word | l in s.content ::
          if l in c && (l in s.pending || !cfg.honest) then c[l] else s.content[l];
      }
      assert Untouched(cfg, s.pending, s.content, content);
      var dt: int := *;
      s := s.(content := content, now := s.now + 1 + if dt > 0 then dt else 0);
    }

    /** Arbitrary progress of card and controller. */
    method Tick()
      requires Valid(cfg, s)
      modifies this
      ensures Advanced(cfg, old(s), s)
    {
      hide ValidTransfer, SameTransfer;
      Background();
      var t, f, landing := Progress();
      KindKept(s.transfer, s.flags, t, f);
      s := s.(transfer := t, flags := f, landing := landing);
    }

    method Progress() returns (t: Transfer, f: Flags, landing: Landing)
      requires Valid(cfg, s)
      ensures ValidTransfer(cfg, t, f, s.pending, landing)
      ensures SameTransfer(s.transfer, s.flags, t, f)
      ensures landing.Accepted? ==> landing.lba in s.pending
    {
      hide ValidTransfer, SameTransfer, Deliver, Take, EndCommand, EndData, Landed;
      t, f, landing := s.transfer, s.flags, s.landing;
      Unmoved(t, f);
      if * {
        DeliverKeeps(cfg, t, f, s.pending, landing);
        var r := Deliver(cfg, t, f);
        SameTransferTwice(s.transfer, s.flags, t, f, r.0, r.1);
        t, f := r.0, r.1;
      }
      if * {
        TakeKeeps(cfg, t, f, s.pending, landing);
        SameTransferTwice(s.transfer, s.flags, t, f, Take(t, f), f);
        t := Take(t, f);
      }
      if * {
        EndCommandKeeps(cfg, t, f, s.pending, landing);
        var r := EndCommand(t, f);
        SameTransferTwice(s.transfer, s.flags, t, f, r.0, r.1);
        t, f := r.0, r.1;
      }
      if * {
        var bad: bool := *;
        EndDataKeeps(cfg, t, f, bad, s.pending, landing);
        WritingIsPending(cfg, t, f, s.pending, landing);
        var f2 := EndData(cfg, t, f, bad);
        SameTransferTwice(s.transfer, s.flags, t, f, t, f2);
        landing, f := Landed(t, f, f2, landing), f2;
      }
    }

    // --------------------------------------------------------------- registers

    method CmdEvent() returns (done: bool, error: bool)
      requires Valid(cfg, s)
      modifies this
      ensures Advanced(cfg, old(s), s) && done == s.flags.cmdDone && error == s.flags.cmdError
    {
      Tick();
      done, error := s.flags.cmdDone, s.flags.cmdError;
    }

    /** RESP0 masked with the R1 error bits. */
    method ResponseError() returns (error: bool)
      requires Valid(cfg, s)
      modifies this
      ensures Advanced(cfg, old(s), s)
    {
      Tick();
      error := *;
    }

    method DataEvent() returns (full: bool, error: bool, done: bool)
      requires Valid(cfg, s)
      modifies this
      ensures Advanced(cfg, old(s), s)
      ensures full == s.flags.rxFull && error == s.flags.dataError && done == s.flags.dataDone
    {
      Tick();
      full, error, done := s.flags.rxFull, s.flags.dataError, s.flags.dataDone;
    }

    /** Clears the data events; whatever was raised since they were last read is forgotten too. */
    method ClearDataEvent()
      requires Valid(cfg, s) && s.transfer.Reading?
      modifies this
      ensures DataCleared(cfg, old(s), s)
    {
      Tick();
      s := s.(flags := s.flags.(rxFull := false, dataError := false, dataDone := false));
    }

    method FifoStatus() returns (rxEmpty: bool, txFull: bool, txEmpty: bool)
      requires Valid(cfg, s)
      modifies this
      ensures Advanced(cfg, old(s), s)
      ensures rxEmpty == !HasRx(s.transfer) && txFull == !TxRoom(cfg, s.transfer) && txEmpty == TxEmpty(s.transfer)
    {
      Tick();
      rxEmpty, txFull, txEmpty := !HasRx(s.transfer), !TxRoom(cfg, s.transfer), TxEmpty(s.transfer);
    }

    method ReadRx() returns (w: word)
      requires Valid(cfg, s) && HasRx(s.transfer)
      modifies this
      ensures Popped(cfg, old(s), s, w)
    {
      Tick();
      var t := s.transfer;
      w := t.rx[0];
      assert t.popped + t.rx == t.popped + [w] + t.rx[1..];
      s := s.(transfer := t.(popped := t.popped + [w], rx := t.rx[1..]));
    }

    method WriteTx(w: word)
      requires Valid(cfg, s) && TxRoom(cfg, s.transfer) && s.flags.cmdDone
      modifies this
      ensures Pushed(cfg, old(s), s, w)
    {
      Tick();
      var t := s.transfer;
      assert t.taken + (t.tx + [w]) == t.taken + t.tx + [w];
      s := s.(transfer := t.(tx := t.tx + [w], queued := t.queued + [w]));
    }

    method Clock() returns (t: nat)
      requires Valid(cfg, s)
      modifies this
      ensures Advanced(cfg, old(s), s) && t == s.now
    {
      Tick();
      t := s.now;
    }

    /** Engine reset: FIFOs and event flags are cleared, the card keeps what it has. */
    method Reset()
      requires Valid(cfg, s)
      modifies this
      ensures Valid(cfg, s) && Untouched(cfg, s.pending, old(s.content), s.content)
      ensures s == old(s).(content := s.content, now := s.now, transfer := Idle, flags := NoFlags) && s.now > old(s.now)
    {
      s := s.(transfer := Idle, flags := NoFlags);
      Background();
    }

    /** CMD17 or CMD24, started by the write of the argument register. */
    method StartData(arg: word, write: bool)
      requires Valid(cfg, s) && s.transfer == Idle && s.flags == NoFlags
      modifies this
      ensures Valid(cfg, s) && Started(cfg, old(s), s, if cfg.sdhc then arg else arg / 512, write)
    {
      var lba: word := if cfg.sdhc then arg else arg / 512;
      if write {
        s := s.(pending := s.pending + {lba}, cmd24 := s.cmd24 + [lba], landing := Nothing, failed := false,
                transfer := Writing(lba, [], [], [], 0));
      } else {
        var noise: seq<int> := *;
        var garbled: bool := *;
        var line: Sector := if garbled && |noise| == 128
                            then seq(128, i requires 0 <= i < |noise| => noise[i] % 0x1_0000_0000)
                            else s.content[lba];
        s := s.(transfer := Reading(lba, line, line != s.content[lba], 0, [], 0, []));
      }
    }

    /** CMD13: may go unanswered; an answer tells whether the card is idle and whether an
        error has occurred. An idle card has finished programming. */
    method Cmd13() returns (answered: bool, statusError: bool, ready: bool)
      requires Valid(cfg, s)
      modifies this
      ensures Valid(cfg, s) && s.cmd24 == old(s.cmd24) && s.transfer == Idle && s.now > old(s.now)
      ensures Untouched(cfg, old(s.pending), old(s.content), s.content)
      ensures !(answered && ready) ==> s.pending == old(s.pending) && s.landing == old(s.landing)
      ensures !(answered && statusError) ==> s.failed == old(s.failed)
      ensures answered && ready ==> s.pending == {}
      ensures answered && ready && !statusError ==> Programmed(cfg, old(s), s.content)
    {
      Reset();
      answered, statusError, ready := *, *, *;
      if answered {
        s := s.(failed := s.failed || statusError);
        if ready {
          if cfg.honest && s.landing.Accepted? && !s.failed {
            s := s.(content := s.content[s.landing.lba := s.landing.data]);
          }
          s := s.(pending := {}, landing := Nothing);
        }
      }
    }

    /** A command without data; it may fail. */
    method Command() returns (ok: bool)
      requires Valid(cfg, s)
      modifies this
      ensures Valid(cfg, s) && Untouched(cfg, s.pending, old(s.content), s.content)
      ensures s.cmd24 == old(s.cmd24) && s.pending == old(s.pending) && s.transfer == Idle && s.now > old(s.now)
    {
      Reset();
      ok := *;
    }

    /** Card identification: on success the card has been reset and is idle. */
    method Identify() returns (ok: bool)
      requires Valid(cfg, s)
      modifies this
      ensures Valid(cfg, s) && s.cmd24 == old(s.cmd24) && s.transfer == Idle && s.now > old(s.now)
      ensures Untouched(cfg, old(s.pending), old(s.content), s.content)
      ensures s.pending == if ok then {} else old(s.pending)
    {
      Reset();
      ok := *;
      if ok {
        s := s.(pending := {}, landing := Nothing);
      }
    }
  }

  predicate HasRx(t: Transfer) { t.Reading? && t.rx != [] }

  predicate TxRoom(c: Config, t: Transfer) { t.Writing? && |t.tx| < c.depth }

  predicate TxEmpty(t: Transfer) { t.Writing? ==> t.tx == [] }

  /** The receive register gave `w`, the next word of the block unless one was lost. */
  ghost predicate Popped(c: Config, s: Hw, t: Hw, w: word) {
    && Valid(c, t) && s.transfer.Reading? && t.transfer.Reading?
    && t.now > s.now && t.pending == s.pending && t.cmd24 == s.cmd24
    && t.transfer.lba == s.transfer.lba && t.transfer.line == s.transfer.line
    && t.transfer.corrupt == s.transfer.corrupt && t.transfer.popped == s.transfer.popped + [w]
    && (s.flags.cmdDone ==> t.flags.cmdDone)
    && (s.flags.dataDone ==> t.flags.dataDone && t.flags.dataError == s.flags.dataError)
    && Untouched(c, s.pending, s.content, t.content)
  }

  ghost predicate DataCleared(c: Config, s: Hw, t: Hw) {
    && Valid(c, t) && s.transfer.Reading? && t.transfer.Reading?
    && t.now > s.now && t.pending == s.pending && t.cmd24 == s.cmd24
    && t.transfer.lba == s.transfer.lba && t.transfer.line == s.transfer.line
    && t.transfer.corrupt == s.transfer.corrupt && t.transfer.popped == s.transfer.popped
    && Untouched(c, s.pending, s.content, t.content)
  }

  /** The transmit register accepted `w` as the next word of the block. */
  ghost predicate Pushed(c: Config, s: Hw, t: Hw, w: word) {
    && Valid(c, t) && s.transfer.Writing? && t.transfer.Writing?
    && t.now > s.now && t.pending == s.pending && t.cmd24 == s.cmd24 && t.failed == s.failed
    && t.transfer.lba == s.transfer.lba && t.transfer.queued == s.transfer.queued + [w]
    && t.transfer.dropped == s.transfer.dropped
    && t.flags.cmdDone
    && (s.flags.dataDone ==> t.flags.dataDone && t.flags.dataError == s.flags.dataError)
    && Untouched(c, s.pending, s.content, t.content)
  }

  ghost predicate Started(c: Config, s: Hw, t: Hw, lba: word, write: bool) {
    && t.content == s.content && t.now == s.now && t.flags == NoFlags
    && if write then
         && t.transfer == Writing(lba, [], [], [], 0)
         && t.pending == s.pending + {lba} && t.cmd24 == s.cmd24 + [lba] && !t.failed
       else
         && t.transfer.Reading? && t.transfer.lba == lba && t.transfer.popped == []
         && t.pending == s.pending && t.cmd24 == s.cmd24
  }

  /** A trustworthy card has programmed the write it had accepted. */
  ghost predicate Programmed(c: Config, s: Hw, content: map<word, Sector>) {
    c.honest && s.landing.Accepted? && !s.failed ==>
      s.landing.lba in content && content[s.landing.lba] == s.landing.data
  }

  lemma Unmoved(t: Transfer, f: Flags)
    ensures SameTransfer(t, f, t, f)
  {
  }

  lemma WritingIsPending(c: Config, t: Transfer, f: Flags, pending: set<word>, landing: Landing)
    requires ValidTransfer(c, t, f, pending, landing)
    ensures t.Writing? ==> t.lba in pending
  {
  }

  lemma KindKept(a: Transfer, fa: Flags, b: Transfer, fb: Flags)
    requires SameTransfer(a, fa, b, fb)
    ensures a.Idle? <==> b.Idle?
    ensures a.Reading? <==> b.Reading?
    ensures a.Reading? ==> a.lba == b.lba && a.line == b.line && a.corrupt == b.corrupt
  {
  }
}
