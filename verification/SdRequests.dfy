/** Block requests of the SD driver (gorv32_sd.c, `gorv32_sd_queue_rq`). Over any run of
    requests the window of the card behaves as an array, except that a block whose write
    failed is in doubt until it has been written again. */
module SdRequests {
  import opened Words
  import opened SdHost
  import opened SdDriver
  import opened SdSelftest

  datatype Op = ReadOp | WriteOp | FlushOp | OtherOp

  /** A segment of a request: `len` bytes from word `off` of a buffer. */
  datatype Segment = Segment(buf: array<word>, off: nat, len: nat)

  /** One block of a request. */
  datatype Blk = Blk(buf: array<word>, off: nat)

  function SegmentBlocks(s: Segment): (b: seq<Blk>)
    ensures |b| == s.len / 512
  {
    seq(s.len / 512, j requires 0 <= j < s.len / 512 => Blk(s.buf, s.off + WORDS * j))
  }

  function RequestBlocks(segs: seq<Segment>): seq<Blk> {
    if segs == [] then [] else RequestBlocks(segs[..|segs| - 1]) + SegmentBlocks(segs[|segs| - 1])
  }

  /** The blocks of a request lie inside their buffers and do not overlap. */
  ghost predicate Laid(blks: seq<Blk>) {
    && (forall i: nat :: i < |blks| ==> blks[i].off + WORDS <= blks[i].buf.Length)
    && (forall i: nat, j: nat :: i < j < |blks| ==>
          blks[i].buf != blks[j].buf || blks[i].off + WORDS <= blks[j].off || blks[j].off + WORDS <= blks[i].off)
  }

  ghost function Buffers(blks: seq<Blk>): set<array<word>> {
    set i: nat | i < |blks| :: blks[i].buf
  }

  ghost function Data(b: Blk): Sector
    requires b.off + WORDS <= b.buf.Length
    reads b.buf
  {
    b.buf[b.off..b.off + WORDS]
  }

  /** The words of a request, segment by segment. */
  ghost function RequestWords(segs: seq<Segment>): seq<word>
    reads set i: nat | i < |segs| :: segs[i].buf
  {
    JoinedWords(segs, BuffersOf(segs))
  }

  /** What the buffers of the segments hold. */
  ghost function BuffersOf(segs: seq<Segment>): (bufs: seq<seq<word>>)
    reads set i: nat | i < |segs| :: segs[i].buf
    ensures |bufs| == |segs| && forall i: nat | i < |segs| :: bufs[i] == segs[i].buf[..]
  {
    seq(|segs|, i requires 0 <= i < |segs| reads set i: nat | i < |segs| :: segs[i].buf => segs[i].buf[..])
  }

  function JoinedWords(segs: seq<Segment>, bufs: seq<seq<word>>): seq<word>
    requires |segs| == |bufs|
  {
    if segs == [] then []
    else
      var n := |segs| - 1;
      JoinedWords(segs[..n], bufs[..n]) + Slice(bufs[n], segs[n].off, segs[n].off + segs[n].len / 4)
  }

  lemma WordsStep(segs: seq<Segment>)
    requires segs != []
    ensures var n := |segs| - 1;
            RequestWords(segs) ==
            RequestWords(segs[..n]) + Slice(segs[n].buf[..], segs[n].off, segs[n].off + segs[n].len / 4)
  {
    assert BuffersOf(segs)[..|segs| - 1] == BuffersOf(segs[..|segs| - 1]);
  }

  /** `s[lo:hi]`, cut off at the end of `s`. */
  function Slice(s: seq<word>, lo: nat, hi: nat): seq<word> {
    if hi <= |s| then if lo <= hi then s[lo..hi] else [] else if lo <= |s| then s[lo..] else []
  }

  /** Blocks one behind the other. */
  function Flat(data: seq<Sector>): (ws: seq<word>)
    ensures |ws| == 128 * |data|
  {
    if data == [] then [] else Flat(data[..|data| - 1]) + data[|data| - 1]
  }

  lemma {:induction false} FlatAppend(a: seq<Sector>, b: seq<Sector>)
    ensures Flat(a + b) == Flat(a) + Flat(b)
    decreases |b|
  {
    if b == [] {
      assert a + b == a;
    } else {
      var n := |b| - 1;
      assert (a + b)[..|a + b| - 1] == a + b[..n];
      FlatAppend(a, b[..n]);
    }
  }

  lemma FlatPrefix(a: seq<Sector>, b: seq<Sector>)
    requires a <= b
    ensures Flat(a) <= Flat(b)
  {
    assert b == a + b[|a|..];
    FlatAppend(a, b[|a|..]);
  }

  // ------------------------------------------------- what the card is known to hold

  datatype Window = Window(root: word, sectors: word)

  /** The window that probe accepts. */
  predicate ValidWindow(w: Window) {
    w.sectors > 0 && w.root + w.sectors <= 0x1_0000_0000
  }

  /** The card holds these blocks and has no reason to change them. */
  ghost predicate Knows(c: Config, s: Hw, known: map<word, Sector>) {
    && Valid(c, s)
    && forall l: word :: l in known ==> Stable(c, s.pending, l) && s.content[l] == known[l]
  }

  function Line(swap: bool, d: Sector): Sector { Wire(swap, d) }

  function Writes(known: map<word, Sector>, swap: bool, base: nat, data: seq<Sector>): map<word, Sector>
    requires base + |data| <= 0x1_0000_0000
  {
    if data == [] then known
    else
      var n := |data| - 1;
      Writes(known, swap, base, data[..n])[base + n := Line(swap, data[n])]
  }

  /** A request that has been served. `data` are the blocks read, or the blocks that were
      written before the first failure; `doubtful` says that one more write was tried and
      failed. */
  datatype Served = Served(op: Op, pos: nat, data: seq<Sector>, ok: bool, doubtful: bool)

  function Extent(r: Served): nat { |r.data| + if r.doubtful then 1 else 0 }

  predicate Fits(w: Window, r: Served) {
    Extent(r) > 0 ==> r.pos + Extent(r) <= w.sectors
  }

  function AfterRequest(known: map<word, Sector>, swap: bool, w: Window, r: Served): map<word, Sector>
    requires ValidWindow(w) && Fits(w, r)
  {
    if r.op != WriteOp || Extent(r) == 0 then known
    else
      var written := Writes(known, swap, w.root + r.pos, r.data);
      if r.doubtful then written - {w.root + r.pos + |r.data|} else written
  }

  /** Consecutive block addresses. */
  function Run(base: nat, n: nat): seq<word>
    requires base + n <= 0x1_0000_0000
  {
    seq(n, i requires 0 <= i < n => base + i)
  }

  /** The effect of a request on the card. One CMD24 per block, in order, inside the window,
      and none but for a write; a trustworthy card then holds what the request says. */
  ghost predicate Step(c: Config, w: Window, swap: bool, s: Hw, r: Served, t: Hw)
    requires ValidWindow(w)
  {
    && Fits(w, r) && Valid(c, t) && (r.ok ==> !r.doubtful)
    && (if r.op != WriteOp || Extent(r) == 0 then t.cmd24 == s.cmd24
        else
          || t.cmd24 == s.cmd24 + Run(w.root + r.pos, |r.data|)
          || (r.doubtful && t.cmd24 == s.cmd24 + Run(w.root + r.pos, |r.data| + 1)))
    && (r.op != WriteOp || c.honest ==>
          forall known :: Knows(c, s, known) ==> Knows(c, t, AfterRequest(known, swap, w, r)))
    && (r.op == ReadOp && r.ok ==> Shown(c, s, swap, w.root + r.pos, r.data))
  }

  /** `data` is what the blocks from `base` held, as far as that was known. */
  ghost predicate Shown(c: Config, s: Hw, swap: bool, base: nat, data: seq<Sector>) {
    forall known, i: nat :: Knows(c, s, known) && i < |data| && base + i < 0x1_0000_0000 && base + i in known ==>
      data[i] == Line(swap, known[base + i])
  }

  // ------------------------------------------------------------------ the proof steps

  lemma RunStep(base: nat, n: nat)
    requires base + n < 0x1_0000_0000
    ensures Run(base, n + 1) == Run(base, n) + [base + n]
  {
  }

  lemma QuietKnows(c: Config, s: Hw, t: Hw)
    requires Quiet(c, s, t)
    ensures forall known :: Knows(c, s, known) ==> Knows(c, t, known)
  {
    hide ValidTransfer;
  }

  lemma WriteKnows(c: Config, s: Hw, t: Hw, l: word, issued: bool, err: int, wire: Sector, known: map<word, Sector>)
    requires c.honest && Knows(c, s, known) && WriteEffect(c, s, t, l, issued, err, wire)
    ensures Knows(c, t, if err == 0 then known[l := wire] else known - {l})
  {
    hide ValidTransfer;
    ghost var after := if err == 0 then known[l := wire] else known - {l};
    forall m: word | m in after ensures Stable(c, t.pending, m) && t.content[m] == after[m] {
      if m != l {
        assert Stable(c, if issued then s.pending + {l} else s.pending, m);
      }
    }
  }

  /** The first `n` blocks have been written. */
  ghost predicate Stored(c: Config, s0: Hw, s: Hw, base: nat, swap: bool, data: seq<Sector>)
    requires base + |data| <= 0x1_0000_0000
  {
    && Valid(c, s) && s.cmd24 == s0.cmd24 + Run(base, |data|)
    && (c.honest ==> forall known :: Knows(c, s0, known) ==> Knows(c, s, Writes(known, swap, base, data)))
  }

  lemma StoredNothing(c: Config, s: Hw, base: nat, swap: bool)
    requires Valid(c, s) && base <= 0x1_0000_0000
    ensures Stored(c, s, s, base, swap, [])
  {
    hide Valid;
    assert s.cmd24 + Run(base, 0) == s.cmd24;
  }

  lemma StoredOne(c: Config, s0: Hw, s: Hw, t: Hw, base: nat, swap: bool, data: seq<Sector>, d: Sector, issued: bool)
    requires base + |data| < 0x1_0000_0000 && Stored(c, s0, s, base, swap, data)
    requires WriteEffect(c, s, t, base + |data|, issued, 0, Line(swap, d))
    ensures Stored(c, s0, t, base, swap, data + [d])
  {
    hide Valid, Wire;
    var n := |data|;
    RunStep(base, n);
    assert t.cmd24 == s0.cmd24 + (Run(base, n) + [base + n]);
    assert (data + [d])[..n] == data;
    if c.honest {
      forall known | Knows(c, s0, known) ensures Knows(c, t, Writes(known, swap, base, data + [d])) {
        WriteKnows(c, s, t, base + n, issued, 0, Line(swap, d), Writes(known, swap, base, data));
      }
    }
    assert Valid(c, t);
  }

  lemma StepStored(c: Config, w: Window, swap: bool, s: Hw, r: Served, t: Hw)
    requires ValidWindow(w) && r.op == WriteOp && !r.doubtful && Fits(w, r)
             && w.root + r.pos + |r.data| <= 0x1_0000_0000
    requires Stored(c, s, t, w.root + r.pos, swap, r.data)
    ensures Step(c, w, swap, s, r, t)
  {
    hide Valid;
    if |r.data| == 0 {
      assert s.cmd24 + Run(w.root + r.pos, |r.data|) == s.cmd24;
    }
  }

  lemma StepDoubtful(c: Config, w: Window, swap: bool, s0: Hw, r: Served, s: Hw, t: Hw, d: Sector, issued: bool,
                     err: int)
    requires ValidWindow(w) && r.op == WriteOp && !r.ok && r.doubtful && Fits(w, r) && err != 0
    requires Stored(c, s0, s, w.root + r.pos, swap, r.data)
    requires WriteEffect(c, s, t, w.root + r.pos + |r.data|, issued, err, Line(swap, d))
    ensures Step(c, w, swap, s0, r, t)
  {
    hide Valid, Wire, Writes;
    var base, n := w.root + r.pos, |r.data|;
    RunStep(base, n);
    assert issued ==> t.cmd24 == s0.cmd24 + (Run(base, n) + [base + n]);
    if c.honest {
      forall known | Knows(c, s0, known) ensures Knows(c, t, AfterRequest(known, swap, w, r)) {
        WriteKnows(c, s, t, base + n, issued, err, Line(swap, d), Writes(known, swap, base, r.data));
      }
    }
    assert Valid(c, t);
  }

  lemma ReadShows(c: Config, s: Hw, t: Hw, swap: bool, base: nat, data: seq<Sector>, d: Sector)
    requires Shown(c, s, swap, base, data) && Quiet(c, s, t) && base + |data| < 0x1_0000_0000
    requires Stable(c, t.pending, base + |data|) ==> d == Wire(swap, t.content[base + |data|])
    ensures Shown(c, s, swap, base, data + [d])
  {
    hide ValidTransfer, Wire;
  }

  // ---------------------------------------------------------------------- the handler

  /** The driver's window, and a driver ready for requests. */
  ghost function WindowOf(sd: GorvSd): Window
    reads sd`rootLba, sd`rootSectors
  {
    Window(sd.rootLba, sd.rootSectors)
  }

  ghost predicate Ready(sd: GorvSd)
    reads sd`rootLba, sd`rootSectors, sd`writeTestActive, sd`calibrating, sd.host
  {
    Valid(sd.host.cfg, sd.host.s) && ValidWindow(WindowOf(sd)) && !sd.writeTestActive && !sd.calibrating
  }

  /** The data of some blocks. */
  ghost predicate Holds(blks: seq<Blk>, data: seq<Sector>)
    requires Laid(blks)
    reads Buffers(blks)
  {
    |data| == |blks| && forall i: nat :: i < |blks| ==> Data(blks[i]) == data[i]
  }

  /** The k-th block of a request to one window position. */
  method WriteBlock(sd: GorvSd, lba: word, blks: seq<Blk>, k: nat, ghost data: seq<Sector>)
    returns (err: int, ghost issued: bool)
    requires Ready(sd) && !sd.readOnly && Laid(blks) && Holds(blks, data) && k < |blks|
    requires sd.rootLba <= lba && lba - sd.rootLba < sd.rootSectors
    modifies sd`rxFullEvents, sd`lastWordsQueued, sd`clockDiv, sd`dataClockDiv, sd`blocksTransferred,
             sd`transferRetries, sd`trace, sd`readLog, sd.host, Buffers(blks)
    ensures Ready(sd) && err != EPERM && Holds(blks, data)
    ensures forall b <- Buffers(blks) :: b[..] == old(b[..])
    ensures WriteEffect(sd.host.cfg, old(sd.host.s), sd.host.s, lba, issued, err, Line(sd.swapWords, data[k]))
  {
    hide Valid, Wire, WriteEffect, Addressable;
    ghost var b := blks[k];
    assert b.buf in Buffers(blks) && Data(b) == data[k];
    issued := sd.WriteLbaAllowed(lba) && Addressable(sd.host.cfg, lba);
    err := sd.TransferBlock(lba, blks[k].buf, blks[k].off, true);
  }

  /** Writes the blocks of a request to consecutive positions, up to the first failure. */
  method WriteBlocks(sd: GorvSd, pos: nat, blks: seq<Blk>, ghost data: seq<Sector>) returns (err: int, ghost r: Served)
    requires Ready(sd) && !sd.readOnly && Laid(blks) && pos + |blks| <= sd.rootSectors && Holds(blks, data)
    modifies sd`rxFullEvents, sd`lastWordsQueued, sd`clockDiv, sd`dataClockDiv, sd`blocksTransferred,
             sd`transferRetries, sd`trace, sd`readLog, sd.host, Buffers(blks)
    ensures Ready(sd) && err != EPERM && Holds(blks, data)
    ensures forall b <- Buffers(blks) :: b[..] == old(b[..])
    ensures r == Served(WriteOp, pos, r.data, err == 0, err != 0) && r.data <= data && (err == 0 ==> r.data == data)
    ensures Step(sd.host.cfg, WindowOf(sd), sd.swapWords, old(sd.host.s), r, sd.host.s)
  {
    hide Valid, Wire, WriteEffect, Stored, Step, Laid, Line, Data;
    ghost var c, s0, w, base, swap := sd.host.cfg, sd.host.s, WindowOf(sd), sd.rootLba + pos, sd.swapWords;
    StoredNothing(c, s0, base, swap);
    err := 0;
    assert data[..0] == [];
    for k := 0 to |blks|
      invariant Ready(sd) && err == 0 && Holds(blks, data)
      invariant forall b <- Buffers(blks) :: b[..] == old(b[..])
      invariant Stored(c, s0, sd.host.s, base, swap, data[..k])
    {
      ghost var s, issued := sd.host.s, false;
      err, issued := WriteBlock(sd, sd.rootLba + (pos + k), blks, k, data);
      if err != 0 {
        r := Served(WriteOp, pos, data[..k], false, true);
        StepDoubtful(c, w, swap, s0, r, s, sd.host.s, data[k], issued, err);
        return;
      }
      StoredOne(c, s0, s, sd.host.s, base, swap, data[..k], data[k], issued);
      assert data[..k + 1] == data[..k] + [data[k]];
    }
    assert data[..|blks|] == data;
    r := Served(WriteOp, pos, data, true, false);
    StepStored(c, w, swap, s0, r, sd.host.s);
  }

  method ReadBlock(sd: GorvSd, lba: word, b: Blk) returns (err: int)
    requires Ready(sd) && b.off + WORDS <= b.buf.Length
    modifies sd`rxFullEvents, sd`lastWordsQueued, sd`clockDiv, sd`dataClockDiv, sd`blocksTransferred,
             sd`transferRetries, sd`trace, sd`readLog, sd.host, b.buf
    ensures Ready(sd) && err != EPERM && OnlyBlock(old(b.buf[..]), b.buf[..], b.off)
    ensures Quiet(sd.host.cfg, old(sd.host.s), sd.host.s)
    ensures err == 0 && Stable(sd.host.cfg, sd.host.s.pending, lba) ==>
              Data(b) == Wire(sd.swapWords, sd.host.s.content[lba])
  {
    hide Valid, Wire, OnlyBlock, Quiet;
    err := sd.TransferBlock(lba, b.buf, b.off, false);
    QuietIsValid(sd.host.cfg, old(sd.host.s), sd.host.s);
  }

  lemma QuietIsValid(c: Config, s: Hw, t: Hw)
    requires Quiet(c, s, t)
    ensures Valid(c, t) && t.cmd24 == s.cmd24 && Total(t.content)
  {
    hide ValidTransfer;
  }

  lemma OthersKept(a: seq<word>, b: seq<word>, off: nat, other: nat)
    requires OnlyBlock(a, b, off) && other + WORDS <= |a|
    requires other + WORDS <= off || off + WORDS <= other
    ensures a[other..other + WORDS] == b[other..other + WORDS]
  {
    if other + WORDS <= off {
      SamePrefix(a, b, other, other + WORDS, off);
    } else {
      forall k | other <= k < other + WORDS ensures a[k] == b[k] {
        assert a[off + WORDS..][k - off - WORDS] == b[off + WORDS..][k - off - WORDS];
      }
    }
  }

  lemma StepRead(c: Config, w: Window, swap: bool, s: Hw, r: Served, t: Hw)
    requires ValidWindow(w) && r.op != WriteOp && !r.doubtful && Fits(w, r)
    requires Quiet(c, s, t) && (r.op == ReadOp && r.ok ==> Shown(c, s, swap, w.root + r.pos, r.data))
    ensures Step(c, w, swap, s, r, t)
  {
    hide Valid, Shown, Quiet;
    QuietKnows(c, s, t);
    QuietIsValid(c, s, t);
  }

  /** The k-th block of a request; the blocks before it keep what they have. */
  method ReadNext(sd: GorvSd, lba: word, blks: seq<Blk>, k: nat, ghost data: seq<Sector>) returns (err: int)
    requires Ready(sd) && Laid(blks) && k < |blks|
    requires |data| == k && forall i: nat :: i < k ==> Data(blks[i]) == data[i]
    modifies sd`rxFullEvents, sd`lastWordsQueued, sd`clockDiv, sd`dataClockDiv, sd`blocksTransferred,
             sd`transferRetries, sd`trace, sd`readLog, sd.host, Buffers(blks)
    ensures Ready(sd) && err != EPERM && Quiet(sd.host.cfg, old(sd.host.s), sd.host.s)
    ensures forall i: nat :: i < k ==> Data(blks[i]) == data[i]
    ensures err == 0 && Stable(sd.host.cfg, sd.host.s.pending, lba) ==>
              Data(blks[k]) == Wire(sd.swapWords, sd.host.s.content[lba])
  {
    hide Valid, Wire, Quiet, OnlyBlock;
    ghost var before := blks[k].buf[..];
    assert blks[k].buf in Buffers(blks);
    err := ReadBlock(sd, lba, blks[k]);
    forall i: nat | i < k ensures Data(blks[i]) == data[i] {
      if blks[i].buf == blks[k].buf {
        OthersKept(before, blks[k].buf[..], blks[k].off, blks[i].off);
        assert Data(blks[i]) == blks[k].buf[..][blks[i].off..blks[i].off + WORDS];
        assert before[blks[i].off..blks[i].off + WORDS] == data[i];
      }
    }
  }

  /** Reads consecutive positions into the blocks of a request, up to the first failure. */
  method ReadBlocks(sd: GorvSd, pos: nat, blks: seq<Blk>) returns (err: int, ghost data: seq<Sector>)
    requires Ready(sd) && Laid(blks) && pos + |blks| <= sd.rootSectors
    modifies sd`rxFullEvents, sd`lastWordsQueued, sd`clockDiv, sd`dataClockDiv, sd`blocksTransferred,
             sd`transferRetries, sd`trace, sd`readLog, sd.host, Buffers(blks)
    ensures Ready(sd) && err != EPERM && Quiet(sd.host.cfg, old(sd.host.s), sd.host.s)
    ensures err == 0 ==> Holds(blks, data)
    ensures err == 0 ==> Shown(sd.host.cfg, old(sd.host.s), sd.swapWords, sd.rootLba + pos, data)
  {
    hide Valid, Wire, Quiet, Shown;
    ghost var c, s0, base, swap := sd.host.cfg, sd.host.s, sd.rootLba + pos, sd.swapWords;
    QuietNothing(c, s0);
    NothingShown(c, s0, swap, base);
    err, data := 0, [];
    for k := 0 to |blks|
      invariant Ready(sd) && err == 0 && Quiet(c, s0, sd.host.s) && |data| == k
      invariant forall i: nat :: i < k ==> Data(blks[i]) == data[i]
      invariant Shown(c, s0, swap, base, data)
    {
      ghost var s := sd.host.s;
      err := ReadNext(sd, sd.rootLba + (pos + k), blks, k, data);
      QuietTwice(c, s0, s, sd.host.s);
      if err != 0 {
        return;
      }
      ReadShows(c, s0, sd.host.s, swap, base, data, Data(blks[k]));
      data := data + [Data(blks[k])];
    }
  }

  lemma NothingShown(c: Config, s: Hw, swap: bool, base: nat)
    ensures Shown(c, s, swap, base, [])
  {
  }

  predicate WellFormed(segs: seq<Segment>) {
    forall i: nat :: i < |segs| ==> segs[i].len % 512 == 0
  }

  /** How many segments come before the first one that is not whole blocks long. */
  function Whole(segs: seq<Segment>): (n: nat)
    ensures n <= |segs| && WellFormed(segs[..n]) && (n < |segs| ==> segs[n].len % 512 != 0)
  {
    if segs == [] then 0
    else
      var last := |segs| - 1;
      var n := Whole(segs[..last]);
      assert segs[..last][..n] == segs[..n];
      if n == last && segs[last].len % 512 == 0 then last + 1 else n
  }

  lemma WholeIs(segs: seq<Segment>, n: nat)
    requires n <= |segs| && WellFormed(segs[..n]) && (n < |segs| ==> segs[n].len % 512 != 0)
    ensures Whole(segs) == n && (n == |segs| <==> WellFormed(segs))
  {
    hide Whole;
    var m := Whole(segs);
    assert segs[..|segs|] == segs;
  }

  /** The blocks of the segments before the first one that is not whole blocks long. */
  method PlanBlocks(segs: seq<Segment>) returns (blks: seq<Blk>, malformed: bool)
    ensures malformed <==> !WellFormed(segs)
    ensures blks == RequestBlocks(segs[..Whole(segs)]) && (!malformed ==> blks == RequestBlocks(segs))
    ensures blks <= RequestBlocks(segs)
  {
    blks, malformed := [], false;
    for i := 0 to |segs|
      invariant blks == RequestBlocks(segs[..i]) && !malformed && WellFormed(segs[..i])
    {
      PlanPrefix(segs, i);
      if segs[i].len % 512 != 0 {
        WholeIs(segs, i);
        malformed := true;
        return;
      }
      assert segs[..i + 1][..i] == segs[..i];
      blks := blks + SegmentBlocks(segs[i]);
    }
    WholeIs(segs, |segs|);
    assert segs[..|segs|] == segs;
  }

  lemma {:induction false} PlanPrefix(segs: seq<Segment>, i: nat)
    requires i <= |segs|
    ensures RequestBlocks(segs[..i]) <= RequestBlocks(segs)
    decreases |segs| - i
  {
    if i < |segs| {
      assert segs[..i + 1][..i] == segs[..i];
      PlanPrefix(segs, i + 1);
    } else {
      assert segs[..i] == segs;
    }
  }

  lemma PrefixLaid(a: seq<Blk>, b: seq<Blk>)
    requires Laid(b) && a <= b
    ensures Laid(a) && Buffers(a) <= Buffers(b)
    ensures forall i: nat :: i < |b| ==> b[i].off + WORDS <= b[i].buf.Length
  {
    forall i: nat | i < |a| ensures a[i].buf in Buffers(b) {
      assert a[i] == b[i];
    }
  }

  /** The data of some blocks, as they are in memory now. */
  ghost function Contents(blks: seq<Blk>): (data: seq<Sector>)
    requires Laid(blks)
    reads Buffers(blks)
    ensures Holds(blks, data)
  {
    seq(|blks|, i requires 0 <= i < |blks| reads Buffers(blks) => Data(blks[i]))
  }

  /** The blocks of a segment are its words. */
  lemma {:induction false} SegmentIsWords(s: Segment, n: nat)
    requires n <= s.len / 512 && s.off + 128 * n <= s.buf.Length && Laid(SegmentBlocks(s)[..n])
    ensures Flat(Contents(SegmentBlocks(s)[..n])) == s.buf[s.off..s.off + 128 * n]
    decreases n
  {
    var blks := SegmentBlocks(s)[..n];
    if n > 0 {
      assert SegmentBlocks(s)[..n - 1] == blks[..n - 1];
      assert Laid(blks[..n - 1]);
      SegmentIsWords(s, n - 1);
      var data := Contents(blks);
      assert data[..n - 1] == Contents(blks[..n - 1]);
      assert Data(blks[n - 1]) == s.buf[s.off + 128 * (n - 1)..s.off + 128 * n];
    }
  }

  lemma LaidParts(a: seq<Blk>, b: seq<Blk>)
    requires Laid(a + b)
    ensures Laid(a) && Laid(b) && Contents(a + b) == Contents(a) + Contents(b)
  {
    PrefixLaid(a, a + b);
    SuffixLaid(a, b);
    ContentsJoin(a, b);
  }

  lemma SuffixLaid(a: seq<Blk>, b: seq<Blk>)
    requires Laid(a + b)
    ensures Laid(b)
  {
    var all := a + b;
    forall i: nat | i < |b| ensures b[i].off + WORDS <= b[i].buf.Length {
      assert all[|a| + i] == b[i];
    }
    forall i: nat, j: nat | i < j < |b|
      ensures b[i].buf != b[j].buf || b[i].off + WORDS <= b[j].off || b[j].off + WORDS <= b[i].off
    {
      assert all[|a| + i] == b[i] && all[|a| + j] == b[j];
    }
  }

  lemma ContentsJoin(a: seq<Blk>, b: seq<Blk>)
    requires Laid(a + b) && Laid(a) && Laid(b)
    ensures Contents(a + b) == Contents(a) + Contents(b)
  {
    hide Laid, Data;
    var x, y := Contents(a + b), Contents(a) + Contents(b);
    forall i: nat | i < |x| ensures x[i] == y[i] {
      assert (a + b)[i] == if i < |a| then a[i] else b[i - |a|];
      if i < |a| {
        InBlocks(a, i);
      } else {
        InBlocks(b, i - |a|);
      }
      InBlocks(a + b, i);
    }
  }

  lemma InBlocks(blks: seq<Blk>, i: nat)
    requires Laid(blks) && i < |blks|
    ensures blks[i].off + WORDS <= blks[i].buf.Length && Contents(blks)[i] == Data(blks[i])
  {
  }

  /** The blocks of a request are its words, in order. */
  lemma {:induction false} BlocksAreWords(segs: seq<Segment>)
    requires WellFormed(segs) && Laid(RequestBlocks(segs))
    ensures Flat(Contents(RequestBlocks(segs))) == RequestWords(segs)
    decreases |segs|
  {
    hide Laid, Holds, SegmentBlocks, Slice;
    if segs != [] {
      var n := |segs| - 1;
      var s := segs[n];
      LaidParts(RequestBlocks(segs[..n]), SegmentBlocks(s));
      BlocksAreWords(segs[..n]);
      FlatAppend(Contents(RequestBlocks(segs[..n])), Contents(SegmentBlocks(s)));
      WholeSegment(s);
      WordsStep(segs);
    }
  }

  /** The blocks up to the first ragged segment are the first words. */
  lemma PlannedAreWords(segs: seq<Segment>, n: nat, blks: seq<Blk>)
    requires n <= |segs| && WellFormed(segs[..n]) && blks == RequestBlocks(segs[..n]) && Laid(blks)
    ensures Flat(Contents(blks)) == RequestWords(segs[..n]) <= RequestWords(segs)
  {
    hide Laid;
    BlocksAreWords(segs[..n]);
    WordsPrefix(segs, n);
  }

  lemma {:induction false} WordsPrefix(segs: seq<Segment>, n: nat)
    requires n <= |segs|
    ensures RequestWords(segs[..n]) <= RequestWords(segs)
    decreases |segs|
  {
    if n < |segs| {
      assert segs[..|segs| - 1][..n] == segs[..n];
      WordsPrefix(segs[..|segs| - 1], n);
      WordsStep(segs);
    } else {
      assert segs[..n] == segs;
    }
  }

  lemma WholeSegment(s: Segment)
    requires s.len % 512 == 0 && Laid(SegmentBlocks(s))
    ensures Flat(Contents(SegmentBlocks(s))) == Slice(s.buf[..], s.off, s.off + s.len / 4)
  {
    var n := s.len / 512;
    assert SegmentBlocks(s)[..n] == SegmentBlocks(s);
    if n > 0 {
      assert SegmentBlocks(s)[n - 1].off + WORDS <= s.buf.Length;
      SegmentIsWords(s, n);
    }
  }

  /** The requests that are refused without touching the card. */
  ghost predicate Refused(sd: GorvSd, op: Op, pos: nat, sectors: nat)
    reads sd`readOnly, sd`rootSectors
  {
    || op == OtherOp
    || (op == WriteOp && sd.readOnly)
    || (op != FlushOp && (pos >= sd.rootSectors || sectors > sd.rootSectors - pos))
  }

  /** The driver's request handler. A flush succeeds at once; a refused request leaves the
      card alone; any other request acts on positions `pos`, `pos + 1`, ... of the window
      and fails only if its segments are not whole blocks or a transfer failed: the guard
      below never refuses it. `sectors` is the block layer's own count of the blocks. */
  method QueueRq(sd: GorvSd, op: Op, pos: nat, sectors: nat, segs: seq<Segment>) returns (err: int, ghost r: Served)
    requires Ready(sd) && Laid(RequestBlocks(segs)) && |RequestBlocks(segs)| <= sectors
    modifies sd`rxFullEvents, sd`lastWordsQueued, sd`clockDiv, sd`dataClockDiv, sd`blocksTransferred,
             sd`transferRetries, sd`trace, sd`readLog, sd.host, Buffers(RequestBlocks(segs))
    ensures Ready(sd) && err != EPERM
    ensures r.op == op && r.pos == pos && r.ok == (err == 0)
    ensures Step(sd.host.cfg, WindowOf(sd), sd.swapWords, old(sd.host.s), r, sd.host.s)
    ensures op == FlushOp || Refused(sd, op, pos, sectors) ==>
              sd.host.s == old(sd.host.s) && r.data == [] && !r.doubtful && (err == 0 <==> op == FlushOp)
    ensures op !in {FlushOp, ReadOp, WriteOp} ==> err == EOPNOTSUPP
    ensures op == WriteOp && sd.readOnly ==> err == EROFS
    ensures op == ReadOp || (op == WriteOp && !sd.readOnly) ==>
              pos >= sd.rootSectors || pos + sectors > sd.rootSectors ==> err == EIO
    ensures op in {ReadOp, WriteOp} && err == 0 ==> WellFormed(segs)
    ensures op == ReadOp ==> if err == 0 then Flat(r.data) == RequestWords(segs) else r.data == []
    ensures op == WriteOp ==>
              && Flat(r.data) <= old(RequestWords(segs)) && (err == 0 ==> Flat(r.data) == old(RequestWords(segs)))
              && (err != 0 ==> r.doubtful || Refused(sd, op, pos, sectors) || !WellFormed(segs))
              && (!r.doubtful && !Refused(sd, op, pos, sectors) ==>
                    Flat(r.data) == old(RequestWords(segs[..Whole(segs)])))
    ensures op != ReadOp ==> forall b <- Buffers(RequestBlocks(segs)) :: b[..] == old(b[..])
  {
    hide Valid, Wire, Quiet, Laid, RequestBlocks, Step, Shown, Whole, RequestWords, Flat, Holds;
    ghost var c, s0, w, swap := sd.host.cfg, sd.host.s, WindowOf(sd), sd.swapWords;
    ghost var all := RequestBlocks(segs);
    assert allocated(all);
    QuietNothing(c, s0);
    NoWords(segs);
    r := Served(op, pos, [], op == FlushOp, false);
    UntouchedStep(c, w, swap, s0, r);
    if op == FlushOp {
      return 0, r;
    }
    if op != ReadOp && op != WriteOp {
      return EOPNOTSUPP, r;
    }
    var write := op == WriteOp;
    if write && sd.readOnly {
      return EROFS, r;
    }
    if pos >= sd.rootSectors || sectors > sd.rootSectors - pos {
      return EIO, r;
    }
    var blks, malformed := PlanBlocks(segs);
    PrefixLaid(blks, all);
    WholeIsAll(segs);
    if write {
      ghost var part := Contents(blks);
      PlannedAreWords(segs, Whole(segs), blks);
      err, r := WriteBlocks(sd, pos, blks, part);
      FlatPrefix(r.data, part);
      if err == 0 && malformed {
        StepFailed(c, w, swap, s0, r, sd.host.s);
        err, r := EIO, r.(ok := false);
      }
    } else {
      ghost var shown;
      err, shown := ReadBlocks(sd, pos, blks);
      if err == 0 {
        HeldIsContents(blks, shown);
        PlannedAreWords(segs, Whole(segs), blks);
      }
      if err == 0 && malformed {
        err := EIO;
      }
      r := Served(op, pos, if err == 0 then shown else [], err == 0, false);
      StepRead(c, w, swap, s0, r, sd.host.s);
    }
  }

  lemma NoWords(segs: seq<Segment>)
    ensures Flat([]) == [] <= RequestWords(segs)
  {
  }

  lemma WholeIsAll(segs: seq<Segment>)
    ensures WellFormed(segs) ==> Whole(segs) == |segs| && segs[..|segs|] == segs
    ensures WellFormed(segs[..Whole(segs)])
  {
    hide Whole;
    if WellFormed(segs) {
      assert segs[..|segs|] == segs;
      WholeIs(segs, |segs|);
    }
  }

  lemma HeldIsContents(blks: seq<Blk>, data: seq<Sector>)
    requires Laid(blks) && Holds(blks, data)
    ensures data == Contents(blks)
  {
    hide Laid;
  }

  lemma UntouchedStep(c: Config, w: Window, swap: bool, s: Hw, r: Served)
    requires ValidWindow(w) && Valid(c, s) && Extent(r) == 0
    ensures Step(c, w, swap, s, r, s)
  {
    hide Valid;
  }

  lemma StepFailed(c: Config, w: Window, swap: bool, s: Hw, r: Served, t: Hw)
    requires ValidWindow(w) && r.op == WriteOp && Step(c, w, swap, s, r, t)
    ensures Step(c, w, swap, s, r.(ok := false), t)
  {
    hide Valid, Knows;
    var f := r.(ok := false);
    forall known | c.honest && Knows(c, s, known) ensures Knows(c, t, AfterRequest(known, swap, w, f)) {
      assert AfterRequest(known, swap, w, f) == AfterRequest(known, swap, w, r);
    }
  }

  // ------------------------------------------------------------------- whole runs

  /** A request with the card before and after it. Between requests time passes. */
  datatype Visit = Visit(before: Hw, r: Served, after: Hw)

  ghost function Last(s: Hw, vs: seq<Visit>): Hw {
    if vs == [] then s else vs[|vs| - 1].after
  }

  ghost predicate Linked(c: Config, w: Window, swap: bool, s: Hw, vs: seq<Visit>, i: nat)
    requires ValidWindow(w) && i < |vs|
  {
    Quiet(c, Last(s, vs[..i]), vs[i].before) && Step(c, w, swap, vs[i].before, vs[i].r, vs[i].after)
  }

  ghost predicate IsRun(c: Config, w: Window, swap: bool, s: Hw, vs: seq<Visit>)
    requires ValidWindow(w)
  {
    forall i: nat :: i < |vs| ==> Linked(c, w, swap, s, vs, i)
  }

  /** Any part of a run is a run. */
  lemma RunPart(c: Config, w: Window, swap: bool, s: Hw, vs: seq<Visit>, lo: nat, hi: nat)
    requires ValidWindow(w) && IsRun(c, w, swap, s, vs) && lo <= hi <= |vs|
    ensures IsRun(c, w, swap, Last(s, vs[..lo]), vs[lo..hi]) && IsRun(c, w, swap, s, vs[..hi])
    ensures lo < hi ==> Last(Last(s, vs[..lo]), vs[lo..hi]) == Last(s, vs[..hi])
    ensures hi < |vs| ==> Quiet(c, Last(s, vs[..hi]), vs[hi].before)
                          && Step(c, w, swap, vs[hi].before, vs[hi].r, vs[hi].after)
  {
    hide Quiet, Step;
    forall i: nat | i < hi ensures Linked(c, w, swap, s, vs[..hi], i) {
      assert Linked(c, w, swap, s, vs, i) && vs[..hi][..i] == vs[..i];
    }
    forall i: nat | i < hi - lo ensures Linked(c, w, swap, Last(s, vs[..lo]), vs[lo..hi], i) {
      assert Linked(c, w, swap, s, vs, lo + i);
    }
    if hi < |vs| {
      assert Linked(c, w, swap, s, vs, hi);
    }
  }

  /** What is known of the window after a run. */
  ghost function AfterRun(known: map<word, Sector>, swap: bool, w: Window, vs: seq<Visit>): map<word, Sector>
    requires ValidWindow(w) && AllFit(w, vs)
  {
    if vs == [] then known
    else AfterRequest(AfterRun(known, swap, w, vs[..|vs| - 1]), swap, w, vs[|vs| - 1].r)
  }

  predicate AllFit(w: Window, vs: seq<Visit>) {
    forall i: nat :: i < |vs| ==> Fits(w, vs[i].r)
  }

  lemma RunFits(c: Config, w: Window, swap: bool, s: Hw, vs: seq<Visit>)
    requires ValidWindow(w) && IsRun(c, w, swap, s, vs)
    ensures AllFit(w, vs)
  {
    hide Step, Quiet;
    forall i: nat | i < |vs| ensures Fits(w, vs[i].r) {
      assert Linked(c, w, swap, s, vs, i);
      StepFits(c, w, swap, vs[i].before, vs[i].r, vs[i].after);
    }
  }

  /** The request may have changed position `p` of the window. */
  predicate Touches(r: Served, p: nat) {
    r.op == WriteOp && r.pos <= p < r.pos + Extent(r)
  }

  lemma {:induction false} WritesAt(known: map<word, Sector>, swap: bool, base: nat, data: seq<Sector>, l: word)
    requires base + |data| <= 0x1_0000_0000
    ensures l in Writes(known, swap, base, data) <==> l in known || base <= l < base + |data|
    ensures base <= l < base + |data| ==> Writes(known, swap, base, data)[l] == Line(swap, data[l - base])
    ensures l in known && !(base <= l < base + |data|) ==> Writes(known, swap, base, data)[l] == known[l]
    decreases |data|
  {
    if data != [] {
      WritesAt(known, swap, base, data[..|data| - 1], l);
    }
  }

  /** A request changes what is known of the positions it touches, and of no others. */
  lemma RequestAt(known: map<word, Sector>, swap: bool, w: Window, r: Served, p: nat)
    requires ValidWindow(w) && Fits(w, r) && p < w.sectors
    ensures var after := AfterRequest(known, swap, w, r);
            && (!Touches(r, p) ==>
                  (w.root + p in after <==> w.root + p in known)
                    && (w.root + p in known ==> after[w.root + p] == known[w.root + p]))
            && (Touches(r, p) && p < r.pos + |r.data| ==>
                  w.root + p in after && after[w.root + p] == Line(swap, r.data[p - r.pos]))
            && (Touches(r, p) && p == r.pos + |r.data| ==> w.root + p !in after)
  {
    if r.op == WriteOp && Extent(r) > 0 {
      WritesAt(known, swap, w.root + r.pos, r.data, w.root + p);
    }
  }

  /** On a trustworthy card, what is known after a run is what the card holds. */
  lemma {:induction false} RunKnows(c: Config, w: Window, swap: bool, s: Hw, vs: seq<Visit>, known: map<word, Sector>)
    requires ValidWindow(w) && c.honest && IsRun(c, w, swap, s, vs) && Knows(c, s, known)
    ensures AllFit(w, vs) && Knows(c, Last(s, vs), AfterRun(known, swap, w, vs))
    decreases |vs|
  {
    hide Knows, AfterRequest, Quiet, IsRun;
    RunFits(c, w, swap, s, vs);
    if vs != [] {
      var n := |vs| - 1;
      RunPart(c, w, swap, s, vs, n, n);
      RunKnows(c, w, swap, s, vs[..n], known);
      QuietKnows(c, Last(s, vs[..n]), vs[n].before);
    }
  }

  /** Positions that no request of a run touched are known as before. */
  lemma {:induction false} RunKeeps(w: Window, swap: bool, vs: seq<Visit>, known: map<word, Sector>, p: nat)
    requires ValidWindow(w) && AllFit(w, vs) && p < w.sectors && w.root + p in known
    requires forall i: nat :: i < |vs| ==> !Touches(vs[i].r, p)
    ensures w.root + p in AfterRun(known, swap, w, vs)
    ensures AfterRun(known, swap, w, vs)[w.root + p] == known[w.root + p]
    decreases |vs|
  {
    hide AfterRequest, Touches, Fits;
    if vs != [] {
      var n := |vs| - 1;
      RunKeeps(w, swap, vs[..n], known, p);
      RequestAt(AfterRun(known, swap, w, vs[..n]), swap, w, vs[n].r, p);
    }
  }

  lemma StepFits(c: Config, w: Window, swap: bool, s: Hw, r: Served, t: Hw)
    requires ValidWindow(w) && Step(c, w, swap, s, r, t)
    ensures Fits(w, r) && (r.ok ==> !r.doubtful) && Valid(c, t)
  {
    hide Valid, Knows, AfterRequest, Shown;
  }

  /** The device is an array. In any run on a trustworthy card, whatever else the run did
      and however it failed, a successful read of a position returns what the last
      successful write put there, provided no later write touched it. */
  lemma ReadsLastWrite(c: Config, w: Window, swap: bool, s: Hw, vs: seq<Visit>, i: nat, j: nat, p: nat)
    requires ValidWindow(w) && c.honest && Valid(c, s) && IsRun(c, w, swap, s, vs)
    requires i < j < |vs| && vs[i].r.op == WriteOp && vs[j].r.op == ReadOp && vs[j].r.ok
    requires vs[i].r.pos <= p < vs[i].r.pos + |vs[i].r.data| && vs[j].r.pos <= p < vs[j].r.pos + |vs[j].r.data|
    requires forall k: nat :: i < k < j ==> !Touches(vs[k].r, p)
    ensures vs[j].r.data[p - vs[j].r.pos] == vs[i].r.data[p - vs[i].r.pos]
  {
    hide Valid, Knows, Quiet, Step, Wire, Touches, IsRun, AfterRequest, Fits;
    var a, b := vs[i], vs[j];
    RunPart(c, w, swap, s, vs, i, i);
    RunPart(c, w, swap, s, vs, j, j);
    StepFits(c, w, swap, a.before, a.r, a.after);
    StepFits(c, w, swap, b.before, b.r, b.after);
    var known := AfterRequest(map[], swap, w, a.r);
    KnowsAfterWrite(c, w, swap, vs, i, s);
    Touched(w, a.r, p);
    RequestAt(map[], swap, w, a.r, p);
    var mid := vs[i + 1..j];
    RunPart(c, w, swap, s, vs, i + 1, j);
    assert Last(s, vs[..i + 1]) == a.after;
    RunKnows(c, w, swap, a.after, mid, known);
    RunKeeps(w, swap, mid, known, p);
    var now := AfterRun(known, swap, w, mid);
    assert Last(a.after, mid) == Last(s, vs[..j]);
    QuietKnows(c, Last(s, vs[..j]), b.before);
    ReadsKnown(c, w, swap, b.before, b.r, b.after, now, p);
    WireTwice(swap, a.r.data[p - a.r.pos]);
    WireTwice(swap, b.r.data[p - b.r.pos]);
  }

  /** A position that no request has touched still reads as the card held it when the run
      began, unless the card was still writing it then. */
  lemma ReadsCard(c: Config, w: Window, swap: bool, s: Hw, vs: seq<Visit>, j: nat, p: nat)
    requires ValidWindow(w) && c.honest && Valid(c, s) && IsRun(c, w, swap, s, vs)
    requires j < |vs| && vs[j].r.op == ReadOp && vs[j].r.ok && vs[j].r.pos <= p < vs[j].r.pos + |vs[j].r.data|
    requires forall k: nat :: k < j ==> !Touches(vs[k].r, p)
    ensures p < w.sectors && w.root + p in s.content
    ensures Stable(c, s.pending, w.root + p) ==> vs[j].r.data[p - vs[j].r.pos] == Line(swap, s.content[w.root + p])
  {
    hide Knows, Quiet, Step, Wire, Touches, IsRun, AfterRequest, Line, Stable, ValidTransfer;
    var b, before := vs[j], vs[..j];
    RunPart(c, w, swap, s, vs, j, j);
    StepFits(c, w, swap, b.before, b.r, b.after);
    var l: word := w.root + p;
    if Stable(c, s.pending, l) {
      var known := map[l := s.content[l]];
      OneKnown(c, s, l);
      RunKnows(c, w, swap, s, before, known);
      RunKeeps(w, swap, before, known, p);
      QuietKnows(c, Last(s, before), b.before);
      ReadsKnown(c, w, swap, b.before, b.r, b.after, AfterRun(known, swap, w, before), p);
    }
  }

  lemma OneKnown(c: Config, s: Hw, l: word)
    requires Valid(c, s) && Stable(c, s.pending, l)
    ensures Knows(c, s, map[l := s.content[l]])
  {
    hide ValidTransfer;
  }

  lemma Touched(w: Window, r: Served, p: nat)
    requires Fits(w, r) && r.op == WriteOp && r.pos <= p < r.pos + |r.data|
    ensures Touches(r, p) && p < w.sectors
  {
  }

  lemma KnowsAfterWrite(c: Config, w: Window, swap: bool, vs: seq<Visit>, i: nat, s: Hw)
    requires ValidWindow(w) && c.honest && Valid(c, s) && IsRun(c, w, swap, s, vs) && i < |vs|
    ensures Fits(w, vs[i].r) && Knows(c, vs[i].after, AfterRequest(map[], swap, w, vs[i].r))
  {
    hide Valid, Stable, Shown, AfterRequest, Quiet, IsRun;
    RunPart(c, w, swap, s, vs, i, i);
    QuietIsValid(c, Last(s, vs[..i]), vs[i].before);
    assert Knows(c, vs[i].before, map[]);
  }

  lemma ReadsKnown(c: Config, w: Window, swap: bool, s: Hw, r: Served, t: Hw, known: map<word, Sector>, p: nat)
    requires ValidWindow(w) && Step(c, w, swap, s, r, t) && Knows(c, s, known)
    requires r.op == ReadOp && r.ok && r.pos <= p < r.pos + |r.data| && p < w.sectors && w.root + p in known
    ensures r.data[p - r.pos] == Line(swap, known[w.root + p])
  {
    hide Valid, Knows, AfterRequest, Line;
    var i := p - r.pos;
    assert w.root + r.pos + i == w.root + p;
  }

  /** Every further write command goes into the window. */
  ghost predicate Confined(before: seq<word>, after: seq<word>, w: Window) {
    && before <= after
    && forall i | |before| <= i < |after| :: w.root <= after[i] && after[i] - w.root < w.sectors
  }

  /** No run of requests, on any card, writes outside the window. */
  lemma {:induction false} RunConfined(c: Config, w: Window, swap: bool, s: Hw, vs: seq<Visit>)
    requires ValidWindow(w) && IsRun(c, w, swap, s, vs)
    ensures Confined(s.cmd24, Last(s, vs).cmd24, w)
    ensures var after := Last(s, vs).cmd24;
            forall i | |s.cmd24| <= i < |after| :: w.root <= after[i] < w.root + w.sectors
    decreases |vs|
  {
    hide Step, Quiet, IsRun;
    if vs != [] {
      var n := |vs| - 1;
      RunPart(c, w, swap, s, vs, n, n);
      RunConfined(c, w, swap, s, vs[..n]);
      QuietIsValid(c, Last(s, vs[..n]), vs[n].before);
      StepConfined(c, w, swap, vs[n].before, vs[n].r, vs[n].after);
    }
  }

  lemma StepConfined(c: Config, w: Window, swap: bool, s: Hw, r: Served, t: Hw)
    requires ValidWindow(w) && Step(c, w, swap, s, r, t)
    ensures Confined(s.cmd24, t.cmd24, w)
  {
    hide Valid, Knows, Shown, AfterRequest;
  }
}
