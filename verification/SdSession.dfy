/** The SD driver in operation (gorv32_sd.c): probe, and the requests that follow. */
module SdSession {
  import opened Words
  import opened SdHost
  import opened SdDriver
  import SdSelftest
  import opened SdRequests
  import opened SdBlockDevice

  /** What the block layer asks for. */
  datatype Request = Request(op: Op, pos: nat, sectors: nat, segs: seq<Segment>)

  ghost predicate Proper(q: Request) {
    Laid(RequestBlocks(q.segs)) && |RequestBlocks(q.segs)| <= q.sectors
  }

  ghost function AllBuffers(reqs: seq<Request>): set<array<word>> {
    set q: Request, s: Segment | q in reqs && s in q.segs :: s.buf
  }

  /** The buffers of a request. */
  ghost function Own(q: Request): set<array<word>> { set s: Segment | s in q.segs :: s.buf }

  /** What the buffers of each request hold. */
  ghost function Memory(reqs: seq<Request>): (m: seq<seq<word>>)
    reads AllBuffers(reqs)
    ensures |m| == |reqs| && forall i: nat | i < |reqs| :: m[i] == RequestWords(reqs[i].segs)
  {
    seq(|reqs|, i requires 0 <= i < |reqs| reads AllBuffers(reqs) => RequestWords(reqs[i].segs))
  }

  /** All the buffers' contents. */
  ghost function Held(reqs: seq<Request>): (h: seq<seq<seq<word>>>)
    reads AllBuffers(reqs)
    ensures |h| == |reqs| && forall i: nat | i < |reqs| :: h[i] == BuffersOf(reqs[i].segs)
  {
    seq(|reqs|, i requires 0 <= i < |reqs| reads AllBuffers(reqs) => BuffersOf(reqs[i].segs))
  }

  lemma MemoryIs(reqs: seq<Request>)
    ensures forall i: nat | i < |reqs| :: Memory(reqs)[i] == JoinedWords(reqs[i].segs, Held(reqs)[i])
  {
    hide JoinedWords;
  }

  /** A successful request is about all its words, and any other about the first of them. */
  predicate Matches(q: Request, r: Served, words: seq<word>) {
    Flat(r.data) <= words && (r.ok && (q.op == ReadOp || q.op == WriteOp) ==> Flat(r.data) == words)
  }

  /** None of the requests from `lo` to `hi` reads into a buffer of request `i`. */
  ghost predicate Unread(reqs: seq<Request>, i: nat, lo: nat, hi: nat)
    requires i < |reqs| && hi <= |reqs|
  {
    forall j: nat | lo <= j < hi && reqs[j].op == ReadOp :: Own(reqs[i]) !! Own(reqs[j])
  }

  lemma OwnBuffers(reqs: seq<Request>, q: Request)
    requires q in reqs
    ensures Buffers(RequestBlocks(q.segs)) <= Own(q) <= AllBuffers(reqs)
  {
    BlockBuffers(q.segs);
  }

  lemma {:induction false} BlockBuffers(segs: seq<Segment>)
    ensures forall b <- RequestBlocks(segs) :: exists s <- segs :: b.buf == s.buf
    decreases |segs|
  {
    if segs != [] {
      BlockBuffers(segs[..|segs| - 1]);
    }
  }

  predicate Puts(r: Served, p: nat) { r.op == WriteOp && r.pos <= p < r.pos + |r.data| }

  predicate Gets(r: Served, p: nat) { r.op == ReadOp && r.ok && r.pos <= p < r.pos + |r.data| }

  function At(r: Served, p: nat): Sector
    requires r.pos <= p < r.pos + |r.data|
  {
    r.data[p - r.pos]
  }

  /** Request `i` wrote position `p`, and request `j` is a later read of it, with nothing
      between them that may have changed it. */
  predicate Follows(vs: seq<Visit>, i: nat, j: nat, p: nat) {
    && i < j < |vs| && Puts(vs[i].r, p) && Gets(vs[j].r, p)
    && forall k: nat :: i < k < j ==> !Touches(vs[k].r, p)
  }

  /** Request `j` reads position `p`, and nothing before it may have changed it. */
  predicate Finds(vs: seq<Visit>, j: nat, p: nat) {
    j < |vs| && Gets(vs[j].r, p) && forall k: nat :: k < j ==> !Touches(vs[k].r, p)
  }

  /** Every successful read returns what the last write put there, and without one what the
      card `s` held, unless it was still writing that block. */
  ghost predicate LikeArray(c: Config, w: Window, swap: bool, s: Hw, vs: seq<Visit>)
    requires ValidWindow(w)
  {
    && (forall i: nat, j: nat, p: nat :: Follows(vs, i, j, p) ==> At(vs[j].r, p) == At(vs[i].r, p))
    && (forall j: nat, p: nat :: Finds(vs, j, p) ==>
          && p < w.sectors && w.root + p in s.content
          && (Stable(c, s.pending, w.root + p) ==> At(vs[j].r, p) == Line(swap, s.content[w.root + p])))
  }

  lemma RunIsArray(c: Config, w: Window, swap: bool, s: Hw, vs: seq<Visit>)
    requires ValidWindow(w) && c.honest && Valid(c, s) && IsRun(c, w, swap, s, vs)
    ensures LikeArray(c, w, swap, s, vs)
  {
    hide Valid, IsRun, Line, Stable;
    forall j: nat, p: nat | Finds(vs, j, p)
      ensures p < w.sectors && w.root + p in s.content
      ensures Stable(c, s.pending, w.root + p) ==> At(vs[j].r, p) == Line(swap, s.content[w.root + p])
    {
      ReadsCard(c, w, swap, s, vs, j, p);
    }
    forall i: nat, j: nat, p: nat | Follows(vs, i, j, p) ensures At(vs[j].r, p) == At(vs[i].r, p) {
      ReadsLastWrite(c, w, swap, s, vs, i, j, p);
    }
  }

  /** One more request in a run. */
  lemma RunMore(c: Config, w: Window, swap: bool, s: Hw, vs: seq<Visit>, v: Visit)
    requires ValidWindow(w) && IsRun(c, w, swap, s, vs)
    requires Quiet(c, Last(s, vs), v.before) && Step(c, w, swap, v.before, v.r, v.after)
    ensures IsRun(c, w, swap, s, vs + [v]) && Last(s, vs + [v]) == v.after
  {
    hide Quiet, Step;
    var more := vs + [v];
    forall i: nat | i < |more| ensures Linked(c, w, swap, s, more, i) {
      assert more[..i] == vs[..i];
      if i < |vs| {
        assert Linked(c, w, swap, s, vs, i);
      } else {
        assert more[..i] == vs;
      }
    }
  }

  lemma NothingWritten(c: Config, w: Window, swap: bool, s: Hw, r: Served, t: Hw)
    requires ValidWindow(w) && Step(c, w, swap, s, r, t) && r.op != WriteOp
    ensures t.cmd24 == s.cmd24
  {
    hide Valid, Knows, Shown, AfterRequest;
  }

  /** Time passes between two requests. */
  method Pause(host: Host)
    requires Valid(host.cfg, host.s)
    modifies host
    ensures Quiet(host.cfg, old(host.s), host.s)
  {
    hide Valid, Quiet;
    ghost var c, s0 := host.cfg, host.s;
    QuietNothing(c, s0);
    var ticks: int := *;
    while ticks > 0
      invariant Quiet(c, s0, host.s)
    {
      ghost var s1 := host.s;
      QuietIsValid(c, s0, s1);
      host.Tick();
      AdvancedQuiet(c, s1, host.s);
      QuietTwice(c, s0, s1, host.s);
      ticks := ticks - 1;
    }
  }

  /** Meanwhile nobody touches the buffers. */
  method Await(host: Host, reqs: seq<Request>)
    requires Valid(host.cfg, host.s) && forall q <- reqs :: Proper(q)
    modifies host
    ensures Quiet(host.cfg, old(host.s), host.s) && Memory(reqs) == old(Memory(reqs))
  {
    hide Valid, Quiet, JoinedWords, RequestWords;
    ghost var held := Held(reqs);
    MemoryIs(reqs);
    Pause(host);
    MemoryIs(reqs);
    forall k: nat | k < |reqs| ensures Held(reqs)[k] == held[k] {
      assert old(allocated(reqs[k].segs));
    }
  }

  lemma AdvancedQuiet(c: Config, s: Hw, t: Hw)
    requires Advanced(c, s, t)
    ensures Quiet(c, s, t)
  {
    hide Valid;
  }

  /** The requests of a driver that probe has made ready. */
  method Serve(sd: GorvSd, reqs: seq<Request>) returns (errs: seq<int>, ghost vs: seq<Visit>)
    requires Ready(sd) && forall q <- reqs :: Proper(q)
    modifies sd`rxFullEvents, sd`lastWordsQueued, sd`clockDiv, sd`dataClockDiv, sd`blocksTransferred,
             sd`transferRetries, sd`trace, sd`readLog, sd.host, AllBuffers(reqs)
    ensures Ready(sd) && |errs| == |vs| == |reqs|
    ensures IsRun(sd.host.cfg, WindowOf(sd), sd.swapWords, old(sd.host.s), vs) && Last(old(sd.host.s), vs) == sd.host.s
    ensures forall i: nat :: i < |reqs| ==> Answers(reqs[i], errs[i], vs[i].r)
    ensures forall i: nat | i < |reqs| && Unread(reqs, i, i + 1, |reqs|) :: Matches(reqs[i], vs[i].r, Memory(reqs)[i])
    ensures forall i: nat | i < |reqs| && reqs[i].op == WriteOp && Unread(reqs, i, 0, i) ::
              Matches(reqs[i], vs[i].r, old(Memory(reqs))[i])
    ensures sd.readOnly ==> sd.host.s.cmd24 == old(sd.host.s).cmd24
  {
    hide Valid, IsRun, Unread, Tracks, AllBuffers, Answers, Matches, RequestWords, Proper;
    ghost var c, s0, w, swap := sd.host.cfg, sd.host.s, WindowOf(sd), sd.swapWords;
    ghost var memory := Memory(reqs);
    NothingTracked(reqs, memory);
    errs, vs := [], [];
    NoRun(c, w, swap, s0);
    for i := 0 to |reqs|
      invariant Ready(sd) && |errs| == |vs| == i
      invariant IsRun(c, w, swap, s0, vs) && Last(s0, vs) == sd.host.s
      invariant forall k: nat :: k < i ==> Answers(reqs[k], errs[k], vs[k].r)
      invariant Tracks(reqs, vs, memory, Memory(reqs), i)
      invariant sd.readOnly ==> sd.host.s.cmd24 == s0.cmd24
    {
      var err;
      ghost var v;
      err, v := ServeNext(sd, reqs, i, s0, vs, memory);
      errs, vs := errs + [err], vs + [v];
    }
    AllTracked(reqs, vs, memory, Memory(reqs));
  }

  /** Request `i`, after a pause. */
  method ServeNext(sd: GorvSd, reqs: seq<Request>, i: nat, ghost s0: Hw, ghost vs: seq<Visit>,
                   ghost memory: seq<seq<word>>)
    returns (err: int, ghost v: Visit)
    requires Ready(sd) && |vs| == i < |reqs| && |memory| == |reqs| && forall q <- reqs :: Proper(q)
    requires IsRun(sd.host.cfg, WindowOf(sd), sd.swapWords, s0, vs) && Last(s0, vs) == sd.host.s
    requires Tracks(reqs, vs, memory, Memory(reqs), i)
    modifies sd`rxFullEvents, sd`lastWordsQueued, sd`clockDiv, sd`dataClockDiv, sd`blocksTransferred,
             sd`transferRetries, sd`trace, sd`readLog, sd.host, AllBuffers(reqs)
    ensures Ready(sd) && Answers(reqs[i], err, v.r)
    ensures IsRun(sd.host.cfg, WindowOf(sd), sd.swapWords, s0, vs + [v]) && Last(s0, vs + [v]) == sd.host.s
    ensures Tracks(reqs, vs + [v], memory, Memory(reqs), i + 1)
    ensures sd.readOnly ==> sd.host.s.cmd24 == old(sd.host.s).cmd24
  {
    hide Valid, Quiet, Step, IsRun, Tracks, Answers, Matches, RequestWords, Proper, AllBuffers, Own;
    Await(sd.host, reqs);
    QuietIsValid(sd.host.cfg, old(sd.host.s), sd.host.s);
    ghost var before, held := sd.host.s, Memory(reqs);
    ghost var r;
    err, r := ServeOne(sd, reqs, i);
    v := Visit(before, r, sd.host.s);
    TracksStep(reqs, vs, v, memory, held, Memory(reqs), i);
    RunMore(sd.host.cfg, WindowOf(sd), sd.swapWords, s0, vs, v);
  }

  /** The data of the first `i` requests and what the buffers held at first and hold now. */
  ghost predicate Tracks(reqs: seq<Request>, vs: seq<Visit>, memory: seq<seq<word>>, now: seq<seq<word>>, i: nat)
    requires |memory| == |now| == |reqs| && |vs| == i <= |reqs|
  {
    && (forall k: nat | k < i && Unread(reqs, k, k + 1, i) :: Matches(reqs[k], vs[k].r, now[k]))
    && (forall k: nat | k < i && reqs[k].op == WriteOp && Unread(reqs, k, 0, k) ::
          Matches(reqs[k], vs[k].r, memory[k]))
    && (forall k: nat | k < |reqs| && Unread(reqs, k, 0, i) :: now[k] == memory[k])
  }

  lemma NothingTracked(reqs: seq<Request>, memory: seq<seq<word>>)
    requires |memory| == |reqs|
    ensures Tracks(reqs, [], memory, memory, 0)
  {
  }

  lemma AllTracked(reqs: seq<Request>, vs: seq<Visit>, memory: seq<seq<word>>, now: seq<seq<word>>)
    requires |memory| == |now| == |reqs| == |vs| && Tracks(reqs, vs, memory, now, |reqs|)
    ensures forall i: nat | i < |reqs| && Unread(reqs, i, i + 1, |reqs|) :: Matches(reqs[i], vs[i].r, now[i])
    ensures forall i: nat | i < |reqs| && reqs[i].op == WriteOp && Unread(reqs, i, 0, i) ::
              Matches(reqs[i], vs[i].r, memory[i])
  {
    hide Unread, Matches;
  }

  lemma TracksStep(reqs: seq<Request>, vs: seq<Visit>, v: Visit, memory: seq<seq<word>>, held: seq<seq<word>>,
                   now: seq<seq<word>>, i: nat)
    requires |memory| == |held| == |now| == |reqs| && |vs| == i < |reqs| && Tracks(reqs, vs, memory, held, i)
    requires Matches(reqs[i], v.r, now[i]) && (reqs[i].op == WriteOp ==> Matches(reqs[i], v.r, held[i]))
    requires forall k: nat | k < |reqs| && (reqs[i].op == ReadOp ==> Own(reqs[k]) !! Own(reqs[i])) :: now[k] == held[k]
    ensures Tracks(reqs, vs + [v], memory, now, i + 1)
  {
    hide Own, Unread, Matches;
    forall k: nat | k < i && Unread(reqs, k, k + 1, i + 1) ensures Matches(reqs[k], vs[k].r, now[k]) {
      UnreadStep(reqs, k, k + 1, i);
    }
    forall k: nat | k < |reqs| && Unread(reqs, k, 0, i + 1) ensures now[k] == memory[k] {
      UnreadStep(reqs, k, 0, i);
    }
  }

  lemma UnreadStep(reqs: seq<Request>, k: nat, lo: nat, i: nat)
    requires k < |reqs| && lo <= i < |reqs|
    ensures Unread(reqs, k, lo, i + 1) <==>
              Unread(reqs, k, lo, i) && (reqs[i].op == ReadOp ==> Own(reqs[k]) !! Own(reqs[i]))
  {
    hide Own;
  }

  lemma NoRun(c: Config, w: Window, swap: bool, s: Hw)
    requires ValidWindow(w)
    ensures IsRun(c, w, swap, s, [])
  {
  }

  predicate Answers(q: Request, err: int, r: Served) {
    r.op == q.op && r.pos == q.pos && r.ok == (err == 0) && err != EPERM
  }

  method ServeOne(sd: GorvSd, reqs: seq<Request>, i: nat) returns (err: int, ghost r: Served)
    requires Ready(sd) && i < |reqs| && forall q <- reqs :: Proper(q)
    modifies sd`rxFullEvents, sd`lastWordsQueued, sd`clockDiv, sd`dataClockDiv, sd`blocksTransferred,
             sd`transferRetries, sd`trace, sd`readLog, sd.host, AllBuffers(reqs)
    ensures Ready(sd) && Answers(reqs[i], err, r)
    ensures Step(sd.host.cfg, WindowOf(sd), sd.swapWords, old(sd.host.s), r, sd.host.s)
    ensures Matches(reqs[i], r, Memory(reqs)[i])
    ensures reqs[i].op == WriteOp ==> Matches(reqs[i], r, old(Memory(reqs))[i])
    ensures forall k: nat | k < |reqs| && (reqs[i].op == ReadOp ==> Own(reqs[k]) !! Own(reqs[i])) ::
              Memory(reqs)[k] == old(Memory(reqs))[k]
    ensures sd.readOnly ==> sd.host.s.cmd24 == old(sd.host.s).cmd24
  {
    hide Valid, Laid, RequestBlocks, Step, RequestWords, JoinedWords, Flat;
    ghost var s0 := sd.host.s;
    OwnBuffers(reqs, reqs[i]);
    ghost var blks := RequestBlocks(reqs[i].segs);
    assert allocated(blks);
    NoWords(reqs[i].segs);
    ghost var held := Held(reqs);
    MemoryIs(reqs);
    err, r := QueueRq(sd, reqs[i].op, reqs[i].pos, reqs[i].sectors, reqs[i].segs);
    MemoryIs(reqs);
    forall k: nat | k < |reqs| && (reqs[i].op == ReadOp ==> Own(reqs[k]) !! Own(reqs[i]))
      ensures Held(reqs)[k] == held[k]
    {
      forall x: nat | x < |reqs[k].segs| ensures reqs[k].segs[x].buf[..] == held[k][x] {
        assert reqs[k].segs[x].buf in Own(reqs[k]) && old(allocated(reqs[k].segs));
      }
    }
    if reqs[i].op != WriteOp {
      NothingWritten(sd.host.cfg, WindowOf(sd), sd.swapWords, s0, r, sd.host.s);
    }
  }

  /** Probe, which leaves the buffers of later requests alone. */
  method ProbeFor(host: Host, dt: DeviceTree, reqs: seq<Request>) returns (err: int, sd: GorvSd, ghost first: Hw)
    requires Valid(host.cfg, host.s) && forall q <- reqs :: Proper(q)
    modifies host
    ensures fresh(sd) && sd.host == host && Valid(host.cfg, host.s) && Memory(reqs) == old(Memory(reqs))
    ensures !Acceptable(dt) ==> err == EINVAL && host.s == old(host.s)
    ensures err == 0 ==> Acceptable(dt) && Ready(sd) && sd.readOnly == dt.readOnly
                         && WindowOf(sd) == Window(dt.rootLba.value, dt.rootSectors.value)
    ensures host.s.cmd24 != old(host.s).cmd24 ==>
              && dt.readOnly && dt.testLba.Is?
              && SdSelftest.WritesOnly(old(host.s).cmd24, host.s.cmd24, dt.testLba.value, 2)
              && LayoutKnown(host.cfg, sd.swapWords, old(host.s), first, dt.testLba.value)
  {
    hide Valid, Acceptable, SdSelftest.WritesOnly, LayoutPasses, LayoutKnown, RequestWords, JoinedWords;
    ghost var held := Held(reqs);
    MemoryIs(reqs);
    err, sd, first := Probe(host, dt);
    MemoryIs(reqs);
    forall k: nat | k < |reqs| ensures Held(reqs)[k] == held[k] {
      assert old(allocated(reqs[k].segs));
    }
  }

  /** Probe, and any sequence of requests after it. On a read-only device no request writes;
      at most the two writes of the self-test reach the card, both to the scratch block, and
      only if the boot image on the card ends 8192 blocks before it. On any other device probe
      writes nothing, and every write of a request goes into the window. On a trustworthy card
      the window behaves as an array that begins with what the card holds after probe. A write
      takes its data from the request's buffers, and a read leaves it there, as long as no other
      read goes into these buffers. */
  method Session(host: Host, dt: DeviceTree, reqs: seq<Request>)
    returns (err: int, errs: seq<int>, ghost ready: Hw, ghost vs: seq<Visit>, ghost swap: bool)
    requires Valid(host.cfg, host.s) && forall q <- reqs :: Proper(q)
    modifies host, AllBuffers(reqs)
    ensures !Acceptable(dt) ==> err == EINVAL && host.s == old(host.s)
    ensures err != 0 ==> ready == host.s && errs == [] && vs == []
    ensures err == 0 ==>
              && dt.rootLba.Is? && dt.rootSectors.Is? && ValidWindow(Window(dt.rootLba.value, dt.rootSectors.value))
              && IsRun(host.cfg, Window(dt.rootLba.value, dt.rootSectors.value), swap, ready, vs)
              && Last(ready, vs) == host.s
              && |errs| == |vs| == |reqs| && (forall i: nat :: i < |reqs| ==> Answers(reqs[i], errs[i], vs[i].r))
              && (host.cfg.honest ==>
                    LikeArray(host.cfg, Window(dt.rootLba.value, dt.rootSectors.value), swap, ready, vs))
              && (forall i: nat | i < |reqs| && Unread(reqs, i, i + 1, |reqs|) ::
                    Matches(reqs[i], vs[i].r, Memory(reqs)[i]))
              && (forall i: nat | i < |reqs| && reqs[i].op == WriteOp && Unread(reqs, i, 0, i) ::
                    Matches(reqs[i], vs[i].r, old(Memory(reqs))[i]))
    ensures dt.readOnly ==> host.s.cmd24 == ready.cmd24
    ensures ready.cmd24 != old(host.s).cmd24 ==>
              && dt.readOnly && dt.testLba.Is? && 0 in old(host.s).content
              && (Stable(host.cfg, old(host.s).pending, 0) ==>
                    LayoutPasses(swap, old(host.s).content, dt.testLba.value))
              && SdSelftest.WritesOnly(old(host.s).cmd24, ready.cmd24, dt.testLba.value, 2)
    ensures err == 0 ==>
              Confined(ready.cmd24, host.s.cmd24, Window(dt.rootLba.value, dt.rootSectors.value))
  {
    hide Valid, Acceptable, SdSelftest.WritesOnly, IsRun, Confined, LikeArray, LayoutPasses;
    errs, vs := [], [];
    var sd: GorvSd;
    ghost var first;
    err, sd, first := ProbeFor(host, dt, reqs);
    ready, swap := host.s, sd.swapWords;
    if err != 0 {
      return;
    }
    AcceptableMeans(dt);
    ghost var c, w := host.cfg, WindowOf(sd);
    errs, vs := Serve(sd, reqs);
    RunConfined(c, w, swap, ready, vs);
    if c.honest {
      RunIsArray(c, w, swap, ready, vs);
    }
  }
}
