/** The request parser of the virtual 1541's serial worker
    (tools/virtual_1541/c64_1541_uart_gui.py, `SerialWorker._consume`). */
module FrameParser {
  import opened Bytes

  const REQ_MAGIC: byte := 0xC6
  const MAX_BINARY_REQUEST := 4096
  const JUNK_LIMIT := 512
  const JUNK_KEPT := 128

  /** What the worker dispatches: a binary request, a request whose checksum is wrong,
      or the raw bytes of an ASCII line. */
  datatype Event = Frame(cmd: byte, payload: seq<byte>) | BadSum(cmd: byte) | Line(raw: seq<byte>)

  /** `buf.find(b)`. */
  function Find(buf: seq<byte>, b: byte): (r: int)
    ensures -1 <= r < |buf|
    ensures r >= 0 ==> buf[r] == b && b !in buf[..r]
    ensures r < 0 ==> b !in buf
  {
    if buf == [] then -1
    else if buf[0] == b then 0
    else
      var t := Find(buf[1..], b);
      assert buf == [buf[0]] + buf[1..];
      if t < 0 then -1
      else
        assert buf[..t + 1] == [buf[0]] + buf[1..][..t];
        t + 1
  }

  function FindNewline(buf: seq<byte>): (r: int)
    ensures -1 <= r < |buf|
  {
    var lf, cr := Find(buf, 10), Find(buf, 13);
    if lf < 0 then cr else if cr < 0 || lf < cr then lf else cr
  }

  function FrameSum(cmd: byte, lo: byte, hi: byte, payload: seq<byte>): byte {
    (cmd as int + lo as int + hi as int + Sum(payload)) % 256
  }

  /** One iteration of the loop in `_consume`: return and wait for more bytes, or drop
      bytes from the front, possibly dispatching an event. */
  datatype Step = Wait | Drop(n: nat) | Emit(event: Event, n: nat)

  function NextStep(buf: seq<byte>): (s: Step)
    requires buf != []
    ensures !s.Wait? ==> 0 < s.n <= |buf|
  {
    if buf[0] == REQ_MAGIC then
      if |buf| < 5 then Wait
      else
        var length := Word(buf[2], buf[3]);
        if length > MAX_BINARY_REQUEST then Drop(1)
        else if |buf| < 5 + length then Wait
        else
          var payload := buf[4..4 + length];
          if buf[4 + length] == FrameSum(buf[1], buf[2], buf[3], payload)
          then Emit(Frame(buf[1], payload), 5 + length)
          else Emit(BadSum(buf[1]), 5 + length)
    else
      var magic, newline := Find(buf, REQ_MAGIC), FindNewline(buf);
      if magic >= 0 && (newline < 0 || magic < newline) then Drop(magic)
      else if newline < 0 then Wait
      else Emit(Line(buf[..newline]), newline + 1)
  }

  datatype Parsed = Parsed(events: seq<Event>, rest: seq<byte>)

  function Events(s: Step): seq<Event> { if s.Emit? then [s.event] else [] }

  /** The reference parser: it sees the whole stream and never discards what it waits on. */
  function Parse(buf: seq<byte>): (p: Parsed)
    decreases |buf|
  {
    if buf == [] then Parsed([], [])
    else
      var s := NextStep(buf);
      if s.Wait? then Parsed([], buf)
      else
        var p := Parse(buf[s.n..]);
        Parsed(Events(s) + p.events, p.rest)
  }

  /** What `_consume` keeps of the bytes it waits on. */
  function Keep(rest: seq<byte>): seq<byte> {
    if rest != [] && rest[0] != REQ_MAGIC && |rest| > JUNK_LIMIT then rest[|rest| - JUNK_KEPT..] else rest
  }

  class SerialWorker {
    var buf: seq<byte>
    var dispatched: seq<Event>

    constructor ()
      ensures buf == [] && dispatched == []
    {
      buf, dispatched := [], [];
    }

    method Receive(chunk: seq<byte>)
      modifies this
      ensures var p := Parse(old(buf) + chunk);
              dispatched == old(dispatched) + p.events && buf == Keep(p.rest)
    {
      buf := buf + chunk;
      Consume();
    }

    method Consume()
      modifies this
      ensures dispatched == old(dispatched) + Parse(old(buf)).events
      ensures buf == Keep(Parse(old(buf)).rest)
    {
      hide FrameSum, Find, FindNewline, Word, Parse;
      while buf != []
        invariant dispatched + Parse(buf).events == old(dispatched) + Parse(old(buf)).events
        invariant Parse(buf).rest == Parse(old(buf)).rest
        decreases |buf|
      {
        ghost var start, sent := buf, dispatched;
        if buf[0] == REQ_MAGIC {
          if |buf| < 5 {
            Waits(buf);
            return;
          }
          var cmd, length := buf[1], Word(buf[2], buf[3]);
          if length > MAX_BINARY_REQUEST {
            buf := buf[1..];
            Dropped(start, sent);
            continue;
          }
          var frameLen := 5 + length;
          if |buf| < frameLen {
            Waits(buf);
            return;
          }
          var payload, checksum := buf[4..4 + length], buf[4 + length];
          var expected := FrameSum(cmd, buf[2], buf[3], payload);
          buf := buf[frameLen..];
          dispatched := dispatched + [if checksum != expected then BadSum(cmd) else Frame(cmd, payload)];
          Dropped(start, sent);
          continue;
        }
        var magicAt, newline := Find(buf, REQ_MAGIC), FindNewline(buf);
        if magicAt >= 0 && (newline < 0 || magicAt < newline) {
          buf := buf[magicAt..];
          Dropped(start, sent);
          continue;
        }
        if newline < 0 {
          Waits(buf);
          if |buf| > JUNK_LIMIT {
            buf := buf[|buf| - JUNK_KEPT..];
          }
          return;
        }
        var line := buf[..newline];
        buf := buf[newline + 1..];
        dispatched := dispatched + [Line(line)];
        Dropped(start, sent);
      }
      NothingLeft();
    }
  }

  lemma NothingLeft()
    ensures Parse([]) == Parsed([], [])
  {
  }

  lemma ParseOnce(buf: seq<byte>)
    requires buf != [] && !NextStep(buf).Wait?
    ensures var s, p := NextStep(buf), Parse(buf[NextStep(buf).n..]);
            Parse(buf) == Parsed(Events(s) + p.events, p.rest)
  {
    hide NextStep;
  }

  /** Unrolls the reference parser by the step the worker has just made. */
  lemma Dropped(buf: seq<byte>, sent: seq<Event>)
    requires buf != [] && !NextStep(buf).Wait?
    ensures var s := NextStep(buf);
            && Parse(buf).rest == Parse(buf[s.n..]).rest
            && sent + Parse(buf).events == sent + Events(s) + Parse(buf[s.n..]).events
  {
    hide NextStep, Parse, Events;
    ParseOnce(buf);
    assert sent + (Events(NextStep(buf)) + Parse(buf[NextStep(buf).n..]).events)
        == sent + Events(NextStep(buf)) + Parse(buf[NextStep(buf).n..]).events;
  }

  // ------------------------------------------------------------ what is recognised

  /** A complete request is dispatched if and only if its last byte is the sum of the bytes
      between it and the frame start modulo 256, and is answered as a bad one otherwise. */
  lemma CompleteRequest(cmd: byte, lo: byte, hi: byte, payload: seq<byte>, check: byte, more: seq<byte>)
    requires |payload| == lo as int + 256 * hi as int <= 4096
    ensures var good := (cmd as int + lo as int + hi as int + Sum(payload) - check as int) % 256 == 0;
            NextStep([0xC6, cmd, lo, hi] + payload + [check] + more) ==
            Emit(if good then Frame(cmd, payload) else BadSum(cmd), 5 + |payload|)
  {
    hide Sum, FrameSum, NextStep;
    var s := [0xC6, cmd, lo, hi] + payload + [check] + more;
    assert s[4..4 + |payload|] == payload && s[4 + |payload|] == check;
    RequestStep(s);
    SumMatches(cmd, lo, hi, payload, check);
  }

  lemma RequestStep(s: seq<byte>)
    requires |s| >= 5 && s[0] == 0xC6 && s[2] as int + 256 * s[3] as int <= 4096
    requires |s| >= 5 + s[2] as int + 256 * s[3] as int
    ensures var n := s[2] as int + 256 * s[3] as int;
            NextStep(s) == Emit(if s[4 + n] == FrameSum(s[1], s[2], s[3], s[4..4 + n]) then Frame(s[1], s[4..4 + n])
                                else BadSum(s[1]), 5 + n)
  {
    hide FrameSum, Find, FindNewline;
  }

  lemma SumMatches(cmd: byte, lo: byte, hi: byte, payload: seq<byte>, check: byte)
    ensures check == FrameSum(cmd, lo, hi, payload)
            <==> (cmd as int + lo as int + hi as int + Sum(payload) - check as int) % 256 == 0
  {
    hide Sum;
  }

  /** What starts like a request but is too long loses its first byte; one that is not
      complete is waited for. */
  lemma OtherRequest(buf: seq<byte>)
    requires buf != [] && buf[0] == 0xC6
    ensures |buf| < 5 ==> NextStep(buf) == Wait
    ensures |buf| >= 5 && buf[2] as int + 256 * buf[3] as int > 4096 ==> NextStep(buf) == Drop(1)
    ensures 5 <= |buf| < 5 + buf[2] as int + 256 * buf[3] as int <= 5 + 4096 ==> NextStep(buf) == Wait
  {
    hide Find, FindNewline, FrameSum;
  }

  /** Anything else is a line up to the first line end, unless a request starts before it. */
  lemma NoRequest(buf: seq<byte>, k: nat)
    requires buf != [] && buf[0] != 0xC6 && k <= |buf|
    requires forall j | 0 <= j < k :: buf[j] != 0xC6 && buf[j] != 10 && buf[j] != 13
    ensures k == |buf| ==> NextStep(buf) == Wait
    ensures k < |buf| && buf[k] == 0xC6 ==> NextStep(buf) == Drop(k)
    ensures k < |buf| && (buf[k] == 10 || buf[k] == 13) ==> NextStep(buf) == Emit(Line(buf[..k]), k + 1)
  {
    hide Find;
    FoundFirst(buf, k, 0xC6);
    FoundFirst(buf, k, 10);
    FoundFirst(buf, k, 13);
  }

  lemma FoundFirst(buf: seq<byte>, k: nat, b: byte)
    requires k <= |buf| && forall j | 0 <= j < k :: buf[j] != b
    ensures k < |buf| && buf[k] == b ==> Find(buf, b) == k
    ensures Find(buf, b) < 0 || Find(buf, b) >= k
    ensures k == |buf| ==> Find(buf, b) < 0
    ensures k < |buf| && buf[k] != b ==> Find(buf, b) < 0 || Find(buf, b) > k
  {
    hide Find;
    var r := Find(buf, b);
    assert forall i | 0 <= i < r :: buf[i] in buf[..r];
  }

  /** Of junk beyond 512 bytes the last 128 are kept, and everything else is kept whole. */
  lemma KeptBytes(rest: seq<byte>)
    ensures |rest| > 512 && rest[0] != 0xC6 ==> Keep(rest) == rest[|rest| - 128..]
    ensures |rest| <= 512 || rest[0] == 0xC6 ==> Keep(rest) == rest
  {
  }

  /** A request with one changed command, payload or checksum byte is answered as a bad one. */
  lemma ChangedRequest(e: Event, j: nat, b: byte, more: seq<byte>)
    requires e.Frame? && |e.payload| <= 4096 && (j == 1 || 4 <= j < 5 + |e.payload|) && b != Encode(e)[j]
    ensures NextStep(Encode(e)[j := b] + more) == Emit(BadSum(if j == 1 then b else e.cmd), 5 + |e.payload|)
  {
    hide Sum, FrameSum, NextStep, Lo, Hi, Word;
    var n := |e.payload|;
    var (lo, hi) := (Lo(n), Hi(n));
    var sum := FrameSum(e.cmd, lo, hi, e.payload);
    var (cmd, check) := (if j == 1 then b else e.cmd, if j == 4 + n then b else sum);
    var payload := if 4 <= j < 4 + n then e.payload[j - 4 := b] else e.payload;
    LengthBytes(n);
    OneChanged(e.cmd, lo, hi, e.payload, sum, j, b);
    CompleteRequest(cmd, lo, hi, payload, check, more);
    SumIs(e.cmd, lo, hi, e.payload);
    if 4 <= j < 4 + n {
      SumChange(e.payload, j - 4, b);
    }
    NotCongruent(e.cmd as int + lo as int + hi as int + Sum(e.payload),
                 cmd as int + lo as int + hi as int + Sum(payload), sum, check);
  }

  lemma OneChanged(cmd: byte, lo: byte, hi: byte, payload: seq<byte>, sum: byte, j: nat, b: byte)
    requires j == 1 || 4 <= j < 5 + |payload|
    ensures var s := [0xC6, cmd, lo, hi] + payload + [sum];
            && s[j] == (if j == 1 then cmd else if j == 4 + |payload| then sum else payload[j - 4])
            && s[j := b] == [0xC6, if j == 1 then b else cmd, lo, hi]
                            + (if 4 <= j < 4 + |payload| then payload[j - 4 := b] else payload)
                            + [if j == 4 + |payload| then b else sum]
  {
  }

  /** Sums that differ by less than 256 together with their checks are not congruent. */
  lemma NotCongruent(s: nat, t: nat, sum: byte, check: byte)
    requires sum as int == s % 256 && 0 != (t - check) - (s - sum) && -256 < (t - check) - (s - sum) < 256
    ensures (t - check) % 256 != 0
  {
    assert (s - sum) % 256 == 0;
  }

  lemma SumIs(cmd: byte, lo: byte, hi: byte, payload: seq<byte>)
    ensures FrameSum(cmd, lo, hi, payload) as int == (cmd as int + lo as int + hi as int + Sum(payload)) % 256
  {
    hide Sum;
  }

  lemma LengthBytes(n: nat)
    requires n < 0x10000
    ensures Lo(n) as int + 256 * Hi(n) as int == n
  {
  }

  // --------------------------------------------------- more bytes never change a step

  lemma {:induction false} FindPrefix(a: seq<byte>, b: seq<byte>, x: byte)
    ensures Find(a, x) >= 0 ==> Find(a + b, x) == Find(a, x)
    ensures Find(a, x) < 0 ==> Find(a + b, x) == if Find(b, x) < 0 then -1 else |a| + Find(b, x)
  {
    if a == [] {
      assert a + b == b;
    } else {
      assert (a + b)[1..] == a[1..] + b;
      FindPrefix(a[1..], b, x);
    }
  }

  lemma NewlinePrefix(a: seq<byte>, b: seq<byte>)
    ensures FindNewline(a) >= 0 ==> FindNewline(a + b) == FindNewline(a)
    ensures FindNewline(a) < 0 ==> FindNewline(a + b) == if FindNewline(b) < 0 then -1 else |a| + FindNewline(b)
  {
    hide Find;
    FindPrefix(a, b, 10);
    FindPrefix(a, b, 13);
  }

  lemma StepStable(buf: seq<byte>, more: seq<byte>)
    requires buf != [] && !NextStep(buf).Wait?
    ensures NextStep(buf + more) == NextStep(buf)
  {
    hide Find, FindNewline, FrameSum;
    var all := buf + more;
    if buf[0] == REQ_MAGIC {
      assert all[0] == REQ_MAGIC;
      var length := Word(buf[2], buf[3]);
      if length <= MAX_BINARY_REQUEST {
        assert all[4..4 + length] == buf[4..4 + length];
      }
    } else {
      FindPrefix(buf, more, REQ_MAGIC);
      NewlinePrefix(buf, more);
      var magic, newline := Find(buf, REQ_MAGIC), FindNewline(buf);
      if magic >= 0 && (newline < 0 || magic < newline) {
      } else {
        assert all[..newline] == buf[..newline];
      }
    }
  }

  /** Parsing a prefix first and then its rest with the remaining bytes is parsing the
      whole stream. */
  lemma {:induction false} ParseAppend(buf: seq<byte>, more: seq<byte>)
    ensures var p, q := Parse(buf), Parse(Parse(buf).rest + more);
            Parse(buf + more) == Parsed(p.events + q.events, q.rest)
    decreases |buf|
  {
    hide NextStep;
    if buf == [] {
      assert buf + more == more;
    } else {
      var s := NextStep(buf);
      if !s.Wait? {
        StepStable(buf, more);
        assert (buf + more)[s.n..] == buf[s.n..] + more;
        ParseAppend(buf[s.n..], more);
      }
    }
  }

  // --------------------------------------------------------- junk and its truncation

  /** Neither the start of a frame nor the end of a line. */
  predicate Junk(s: seq<byte>) {
    forall b <- s :: b != REQ_MAGIC && b != 10 && b != 13
  }

  predicate Suffix<T(==)>(short: seq<T>, long: seq<T>) {
    |short| <= |long| && long[|long| - |short|..] == short
  }

  /** What the worker holds back compared with what the reference parser holds back. */
  predicate SameResidue(kept: seq<byte>, rest: seq<byte>) {
    kept == rest || (Junk(rest) && kept != [] && Suffix(kept, rest) && |rest| > JUNK_LIMIT)
  }

  /** An event of the worker compared with the reference: binary events are the same, and
      a line may only have lost the front of more than 512 bytes. */
  predicate SameEvent(got: Event, want: Event) {
    got == want || (got.Line? && want.Line? && Suffix(got.raw, want.raw) && |want.raw| > JUNK_LIMIT)
  }

  predicate SameEvents(got: seq<Event>, want: seq<Event>) {
    |got| == |want| && forall i | 0 <= i < |got| :: SameEvent(got[i], want[i])
  }

  lemma JunkHasNothing(s: seq<byte>)
    ensures Junk(s) <==> Find(s, REQ_MAGIC) < 0 && FindNewline(s) < 0
  {
    var m, lf, cr := Find(s, REQ_MAGIC), Find(s, 10), Find(s, 13);
    assert m >= 0 ==> s[m] in s;
    assert lf >= 0 ==> s[lf] in s;
    assert cr >= 0 ==> s[cr] in s;
  }

  lemma RestIsStuck(buf: seq<byte>)
    ensures var r := Parse(buf).rest; r != [] ==> NextStep(r).Wait?
    decreases |buf|
  {
    hide NextStep;
    if buf != [] && !NextStep(buf).Wait? {
      RestIsStuck(buf[NextStep(buf).n..]);
    }
  }

  lemma KeepSame(kept: seq<byte>, rest: seq<byte>)
    requires SameResidue(kept, rest)
    requires rest != [] ==> NextStep(rest).Wait?
    ensures SameResidue(Keep(kept), rest)
  {
    JunkHasNothing(rest);
    if Keep(kept) != kept && kept != rest {
      assert Keep(kept) == rest[|rest| - JUNK_KEPT..];
    }
  }

  /** Junk is dropped up to the first frame start after it, or ends in the first line. */
  lemma JunkStep(junk: seq<byte>, more: seq<byte>)
    requires Junk(junk) && junk != []
    ensures var magic, newline := Find(more, REQ_MAGIC), FindNewline(more);
            NextStep(junk + more)
            == if magic >= 0 && (newline < 0 || magic < newline) then Drop(|junk| + magic)
               else if newline < 0 then Wait
               else Emit(Line(junk + more[..newline]), |junk| + newline + 1)
  {
    hide Find, FindNewline;
    JunkHasNothing(junk);
    FindPrefix(junk, more, REQ_MAGIC);
    NewlinePrefix(junk, more);
    assert (junk + more)[0] == junk[0] && junk[0] in junk;
    var newline := FindNewline(more);
    if newline >= 0 {
      assert (junk + more)[..|junk| + newline] == junk + more[..newline];
    }
  }

  lemma JunkSuffix(kept: seq<byte>, rest: seq<byte>)
    requires Junk(rest) && Suffix(kept, rest)
    ensures Junk(kept)
    ensures forall more: seq<byte> :: Suffix(kept + more, rest + more)
  {
    var cut := |rest| - |kept|;
    forall b <- kept ensures b in rest {
      var i :| 0 <= i < |kept| && kept[i] == b;
      assert rest[cut..][i] == rest[cut + i];
    }
    forall more: seq<byte> ensures Suffix(kept + more, rest + more) {
      assert (rest + more)[cut..] == kept + more;
    }
  }

  lemma SameHead(a: Event, b: Event, t: seq<Event>)
    requires SameEvent(a, b)
    ensures SameEvents([a] + t, [b] + t)
  {
  }

  lemma SkipPrefix(a: seq<byte>, b: seq<byte>, k: nat)
    requires k <= |b|
    ensures (a + b)[|a| + k..] == b[k..]
  {
  }

  /** What becomes of junk when more bytes follow it. */
  lemma JunkParsed(junk: seq<byte>, more: seq<byte>)
    requires Junk(junk) && junk != []
    ensures var (magic, newline) := (Find(more, REQ_MAGIC), FindNewline(more));
            magic <= |more| && newline < |more| &&
            Parse(junk + more) ==
            if magic >= 0 && (newline < 0 || magic < newline) then Parse(more[magic..])
            else if newline < 0 then Parsed([], junk + more)
            else
              var p := Parse(more[newline + 1..]);
              Parsed([Line(junk + more[..newline])] + p.events, p.rest)
  {
    hide Find, FindNewline, NextStep, Junk, Parse;
    JunkStep(junk, more);
    var magic, newline := Find(more, REQ_MAGIC), FindNewline(more);
    if magic >= 0 && (newline < 0 || magic < newline) {
      JunkDropped(junk, more, magic);
    } else if newline >= 0 {
      JunkEmitted(junk, more, newline);
    } else {
      ParseWait(junk + more);
    }
  }

  lemma JunkDropped(junk: seq<byte>, more: seq<byte>, k: nat)
    requires junk != [] && k <= |more| && NextStep(junk + more) == Drop(|junk| + k)
    ensures Parse(junk + more) == Parse(more[k..])
  {
    hide NextStep, Parse;
    var buf := junk + more;
    SkipPrefix(junk, more, k);
    ParseDrop(buf, |junk| + k);
  }

  lemma JunkEmitted(junk: seq<byte>, more: seq<byte>, k: nat)
    requires junk != [] && k < |more|
    requires NextStep(junk + more) == Emit(Line(junk + more[..k]), |junk| + k + 1)
    ensures var p := Parse(more[k + 1..]);
            Parse(junk + more) == Parsed([Line(junk + more[..k])] + p.events, p.rest)
  {
    hide NextStep, Parse;
    var buf, line := junk + more, Line(junk + more[..k]);
    SkipPrefix(junk, more, k + 1);
    ParseEmit(buf, line, |junk| + k + 1);
  }

  lemma ParseDrop(buf: seq<byte>, n: nat)
    requires n <= |buf| && buf != [] && NextStep(buf) == Drop(n)
    ensures Parse(buf) == Parse(buf[n..])
  {
    hide NextStep;
    assert [] + Parse(buf[n..]).events == Parse(buf[n..]).events;
  }

  lemma ParseEmit(buf: seq<byte>, e: Event, n: nat)
    requires n <= |buf| && buf != [] && NextStep(buf) == Emit(e, n)
    ensures Parse(buf) == Parsed([e] + Parse(buf[n..]).events, Parse(buf[n..]).rest)
  {
    hide NextStep;
  }

  lemma ParseWait(buf: seq<byte>)
    requires buf != [] && NextStep(buf) == Wait
    ensures Parse(buf) == Parsed([], buf)
  {
    hide NextStep;
  }

  /** Losing the front of more than 512 bytes of junk changes at most the line they end in. */
  lemma JunkTruncated(kept: seq<byte>, rest: seq<byte>, more: seq<byte>)
    requires Junk(rest) && kept != [] && Suffix(kept, rest) && |rest| > JUNK_LIMIT
    ensures SameEvents(Parse(kept + more).events, Parse(rest + more).events)
    ensures SameResidue(Parse(kept + more).rest, Parse(rest + more).rest)
  {
    hide Find, FindNewline, Junk, Suffix, Parse, SameEvents;
    JunkSuffix(kept, rest);
    JunkParsed(kept, more);
    JunkParsed(rest, more);
    var magic, newline := Find(more, REQ_MAGIC), FindNewline(more);
    if magic >= 0 && (newline < 0 || magic < newline) {
      SameSelf(Parse(more[magic..]).events);
    } else if newline >= 0 {
      assert Suffix(kept + more[..newline], rest + more[..newline]);
      SameHead(Line(kept + more[..newline]), Line(rest + more[..newline]), Parse(more[newline + 1..]).events);
    } else {
      JunkJoin(rest, more);
      SameSelf([]);
    }
  }

  lemma SameSelf(es: seq<Event>)
    ensures SameEvents(es, es)
  {
  }

  lemma JunkJoin(a: seq<byte>, b: seq<byte>)
    requires Junk(a) && Find(b, REQ_MAGIC) < 0 && FindNewline(b) < 0
    ensures Junk(a + b)
  {
    JunkHasNothing(b);
  }

  // --------------------------------------------------------------- chunked reception

  /** The worker's run: its dispatched events and buffer after some chunks. */
  function Run(chunks: seq<seq<byte>>): Parsed {
    if chunks == [] then Parsed([], [])
    else
      var before := Run(chunks[..|chunks| - 1]);
      var p := Parse(before.rest + chunks[|chunks| - 1]);
      Parsed(before.events + p.events, Keep(p.rest))
  }

  function Stream(chunks: seq<seq<byte>>): seq<byte> {
    if chunks == [] then [] else Stream(chunks[..|chunks| - 1]) + chunks[|chunks| - 1]
  }

  method ReceiveAll(worker: SerialWorker, chunks: seq<seq<byte>>)
    requires worker.buf == [] && worker.dispatched == []
    modifies worker
    ensures Parsed(worker.dispatched, worker.buf) == Run(chunks)
  {
    for i := 0 to |chunks|
      invariant Parsed(worker.dispatched, worker.buf) == Run(chunks[..i])
    {
      assert chunks[..i + 1][..i] == chunks[..i];
      worker.Receive(chunks[i]);
    }
    assert chunks[..|chunks|] == chunks;
  }

  /** However the stream is cut into reads, the worker dispatches what the reference
      parser finds in the whole stream, apart from the fronts of over-long lines. */
  lemma {:induction false} ChunkIndependent(chunks: seq<seq<byte>>)
    ensures SameEvents(Run(chunks).events, Parse(Stream(chunks)).events)
    ensures SameResidue(Run(chunks).rest, Parse(Stream(chunks)).rest)
  {
    hide Parse, Keep, SameEvent;
    if chunks == [] {
      NothingLeft();
      assert SameResidue([], []);
    } else {
      var n := |chunks| - 1;
      var init, c := chunks[..n], chunks[n];
      ChunkIndependent(init);
      ParseAppend(Stream(init), c);
      ResidueParse(Run(init).rest, Parse(Stream(init)).rest, c);
      RestIsStuck(Stream(chunks));
      KeepSame(Parse(Run(init).rest + c).rest, Parse(Stream(chunks)).rest);
    }
  }

  lemma ResidueParse(kept: seq<byte>, rest: seq<byte>, c: seq<byte>)
    requires SameResidue(kept, rest)
    ensures SameEvents(Parse(kept + c).events, Parse(rest + c).events)
    ensures SameResidue(Parse(kept + c).rest, Parse(rest + c).rest)
  {
    hide Parse;
    if kept != rest {
      JunkTruncated(kept, rest, c);
    }
  }

  /** The binary part of an event sequence. */
  function Binary(events: seq<Event>): seq<Event> {
    if events == [] then []
    else (if events[0].Line? then [] else [events[0]]) + Binary(events[1..])
  }

  lemma {:induction false} SameBinary(got: seq<Event>, want: seq<Event>)
    requires SameEvents(got, want)
    ensures Binary(got) == Binary(want)
  {
    if got != [] {
      assert SameEvent(got[0], want[0]);
      SameBinary(got[1..], want[1..]);
    }
  }

  /** Two ways of cutting the same stream give the same frames and bad-checksum frames,
      and the same lines wherever the stream has no line of more than 512 bytes. */
  lemma ChunkingsAgree(a: seq<seq<byte>>, b: seq<seq<byte>>)
    requires Stream(a) == Stream(b)
    ensures Binary(Run(a).events) == Binary(Run(b).events)
    ensures |Run(a).events| == |Run(b).events|
    ensures (forall e <- Parse(Stream(a)).events :: e.Line? ==> |e.raw| <= JUNK_LIMIT)
              ==> Run(a).events == Run(b).events
  {
    hide Parse, Run, Stream, Binary;
    var want := Parse(Stream(a)).events;
    ChunkIndependent(a);
    ChunkIndependent(b);
    SameBinary(Run(a).events, want);
    SameBinary(Run(b).events, want);
    if forall e <- want :: e.Line? ==> |e.raw| <= JUNK_LIMIT {
      forall i | 0 <= i < |want| ensures Run(a).events[i] == Run(b).events[i] {
        assert want[i] in want;
        assert SameEvent(Run(a).events[i], want[i]) && SameEvent(Run(b).events[i], want[i]);
      }
    }
  }

  // ------------------------------------------------------------- encoded requests

  /** A request as a client puts it on the wire. */
  function Encode(e: Event): seq<byte>
    requires e.Frame? && |e.payload| <= MAX_BINARY_REQUEST
  {
    var lo, hi := Lo(|e.payload|), Hi(|e.payload|);
    [REQ_MAGIC, e.cmd, lo, hi] + e.payload + [FrameSum(e.cmd, lo, hi, e.payload)]
  }

  function EncodeAll(frames: seq<Event>): seq<byte>
    requires forall e <- frames :: e.Frame? && |e.payload| <= MAX_BINARY_REQUEST
  {
    if frames == [] then [] else Encode(frames[0]) + EncodeAll(frames[1..])
  }

  lemma EncodedBytes(e: Event, more: seq<byte>)
    requires e.Frame? && |e.payload| <= MAX_BINARY_REQUEST
    ensures var s, n := Encode(e) + more, |e.payload|;
            && |Encode(e)| == 5 + n
            && s[0] == REQ_MAGIC && s[1] == e.cmd && s[2] == Lo(n) && s[3] == Hi(n)
            && s[4..4 + n] == e.payload
            && s[4 + n] == FrameSum(e.cmd, Lo(n), Hi(n), e.payload)
  {
    hide FrameSum, Lo, Hi;
  }

  lemma EncodedStep(e: Event, more: seq<byte>)
    requires e.Frame? && |e.payload| <= MAX_BINARY_REQUEST
    ensures NextStep(Encode(e) + more) == Emit(e, |Encode(e)|)
  {
    hide FrameSum, Find, FindNewline, Lo, Hi, Word;
    var s := Encode(e) + more;
    WordRoundTrip(|e.payload|);
    EncodedBytes(e, more);
  }

  lemma {:induction false} EncodedParse(frames: seq<Event>)
    requires forall e <- frames :: e.Frame? && |e.payload| <= MAX_BINARY_REQUEST
    ensures Parse(EncodeAll(frames)) == Parsed(frames, [])
  {
    hide NextStep, Encode;
    if frames != [] {
      var more := EncodeAll(frames[1..]);
      EncodedStep(frames[0], more);
      EncodedParse(frames[1..]);
      assert (Encode(frames[0]) + more)[|Encode(frames[0])|..] == more;
      assert [frames[0]] + frames[1..] == frames;
    }
  }

  /** Resynchronisation: after any bytes that hold no frame start, in any chunking, the
      worker dispatches exactly the requests that were sent, in order. */
  lemma RequestsArrive(stale: seq<byte>, frames: seq<Event>, chunks: seq<seq<byte>>)
    requires forall e <- frames :: e.Frame? && |e.payload| <= MAX_BINARY_REQUEST
    requires REQ_MAGIC !in stale && Stream(chunks) == stale + EncodeAll(frames)
    ensures Binary(Run(chunks).events) == frames
  {
    hide Parse, Run, Binary;
    ChunkIndependent(chunks);
    SameBinary(Run(chunks).events, Parse(Stream(chunks)).events);
    StaleParse(stale, frames);
  }

  lemma {:induction false} StaleParse(stale: seq<byte>, frames: seq<Event>)
    requires forall e <- frames :: e.Frame? && |e.payload| <= MAX_BINARY_REQUEST
    requires REQ_MAGIC !in stale
    ensures Binary(Parse(stale + EncodeAll(frames)).events) == frames
    decreases |stale|
  {
    hide NextStep, FindNewline, EncodeAll, Parse;
    var wire := EncodeAll(frames);
    var all := stale + wire;
    EncodedParse(frames);
    FramesAreBinary(frames);
    if stale == [] {
      assert all == wire;
    } else {
      StaleStep(stale, frames);
      var newline := FindNewline(stale);
      if newline >= 0 {
        ParseOnce(all);
        assert all[newline + 1..] == stale[newline + 1..] + wire;
        StaleParse(stale[newline + 1..], frames);
      } else if frames != [] {
        ParseOnce(all);
        assert all[|stale|..] == wire;
        assert [] + frames == frames;
      } else {
        Waits(all);
      }
    }
  }

  lemma Waits(buf: seq<byte>)
    requires buf != [] && NextStep(buf).Wait?
    ensures Parse(buf) == Parsed([], buf)
  {
    hide NextStep;
  }

  /** Bytes without a frame start are consumed line by line up to the first request. */
  lemma StaleStep(stale: seq<byte>, frames: seq<Event>)
    requires forall e <- frames :: e.Frame? && |e.payload| <= MAX_BINARY_REQUEST
    requires REQ_MAGIC !in stale && stale != []
    ensures var s, newline := NextStep(stale + EncodeAll(frames)), FindNewline(stale);
            if newline >= 0 then s.Emit? && s.event.Line? && s.n == newline + 1
            else if frames == [] then s.Wait? else s == Drop(|stale|)
  {
    hide Find, FindNewline, Encode;
    var wire := EncodeAll(frames);
    assert (stale + wire)[0] == stale[0] && stale[0] in stale;
    FindPrefix(stale, wire, REQ_MAGIC);
    NewlinePrefix(stale, wire);
    WireStart(frames);
  }

  lemma WireStart(frames: seq<Event>)
    requires forall e <- frames :: e.Frame? && |e.payload| <= MAX_BINARY_REQUEST
    ensures var wire := EncodeAll(frames);
            if frames == [] then Find(wire, REQ_MAGIC) < 0 && FindNewline(wire) < 0
            else Find(wire, REQ_MAGIC) == 0 && FindNewline(wire) != 0
  {
    hide FrameSum;
    if frames != [] {
      var wire := EncodeAll(frames);
      assert wire == Encode(frames[0]) + EncodeAll(frames[1..]);
      EncodedBytes(frames[0], EncodeAll(frames[1..]));
      FirstMagic(wire);
    }
  }

  lemma FirstMagic(wire: seq<byte>)
    requires wire != [] && wire[0] == REQ_MAGIC
    ensures Find(wire, REQ_MAGIC) == 0 && FindNewline(wire) != 0
  {
  }

  lemma {:induction false} FramesAreBinary(frames: seq<Event>)
    requires forall e <- frames :: e.Frame?
    ensures Binary(frames) == frames
  {
    if frames != [] {
      assert frames[0] in frames;
      FramesAreBinary(frames[1..]);
      assert [frames[0]] + frames[1..] == frames;
    }
  }
}
