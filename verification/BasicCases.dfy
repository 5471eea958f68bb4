/** Tokenised BASIC programs byte by byte: what the printer of
    tools/d64/make_c64_basic_testdisk.py prints, and what the parser of
    tools/upload_monitor_hex.py accepts. */
module BasicCases {
  import opened Bytes
  import opened BasicLoader

  // ----------------------------------------------------------------------- printing

  /** A line: the address of the next one, its number, its body and a zero. */
  lemma LineIsPrinted(addr: nat, l: Line)
    requires addr + 5 + |l.body| < 0x10000 && l.number < 0x10000
    ensures var b := LineBytes(addr, l);
            && |b| == 5 + |l.body| && b[0] as int + 256 * b[1] as int == addr + 5 + |l.body|
            && b[2] as int + 256 * b[3] as int == l.number && b[4..4 + |l.body|] == l.body && b[4 + |l.body|] == 0
  {
  }

  /** The program: its lines, each where the link of the one before it says, and two zeros. */
  lemma ProgramIsPrinted(lines: seq<Line>, addr: nat, i: nat)
    requires i <= |lines|
    ensures LineAddr(lines, addr, 0) == addr
    ensures i < |lines| ==> LineAddr(lines, addr, i + 1) == LineAddr(lines, addr, i) + 5 + |lines[i].body|
    ensures var (t, at) := (Text(lines, addr), LineAddr(lines, addr, i) - addr);
            && 0 <= at && at + 2 <= |t|
            && (i < |lines| ==>
                  && at + 5 + |lines[i].body| <= |t|
                  && t[at..at + 5 + |lines[i].body|] == LineBytes(LineAddr(lines, addr, i), lines[i]))
            && (i == |lines| ==> t[at..] == [0, 0])
  {
    hide LineBytes, Text;
    TextFrom(lines, addr, i);
    if i < |lines| {
      TextSplit(lines, addr, i);
      Behind(Text(lines, addr), LineAddr(lines, addr, i) - addr, 5 + |lines[i].body|);
    } else {
      NoLines(lines[i..], LineAddr(lines, addr, i));
    }
  }

  lemma {:induction false} TextFrom(lines: seq<Line>, addr: nat, i: nat)
    requires i <= |lines|
    ensures var (t, at) := (Text(lines, addr), LineAddr(lines, addr, i) - addr);
            0 <= at && at + 2 <= |t| && t[at..] == Text(lines[i..], LineAddr(lines, addr, i))
  {
    hide LineBytes, Text;
    if i == 0 {
      assert lines[0..] == lines;
    } else {
      TextFrom(lines, addr, i - 1);
      TextSplit(lines, addr, i - 1);
      Behind(Text(lines, addr), LineAddr(lines, addr, i - 1) - addr, 5 + |lines[i - 1].body|);
    }
  }

  lemma Behind(t: seq<byte>, at: nat, n: nat)
    requires at + n <= |t|
    ensures t[at..][n..] == t[at + n..] && t[at..][..n] == t[at..at + n]
  {
  }

  // ------------------------------------------------------------------------ parsing

  /** A line from `p` up to `q`: its link gives the address of `q`, and a zero ends its body
      before. */
  ghost predicate IsLine(load: nat, data: seq<byte>, p: nat, q: nat) {
    && p < q <= |data| && p + 4 <= |data| && data[p] as int + 256 * data[p + 1] as int == load + q
    && exists k :: p + 4 <= k < q && data[k] == 0
  }

  /** Lines from each of these positions to the next, and a zero link at the last. */
  ghost predicate IsProgram(load: nat, data: seq<byte>, ps: seq<nat>) {
    && ps != [] && (forall i: nat :: i + 1 < |ps| ==> IsLine(load, data, ps[i], ps[i + 1]))
    && Inside(data, ps) && ps[|ps| - 1] + 2 <= |data| && data[ps[|ps| - 1]] == data[ps[|ps| - 1] + 1] == 0
  }

  predicate Inside(data: seq<byte>, ps: seq<nat>) {
    forall i: nat :: i < |ps| ==> ps[i] <= |data| && (i + 1 < |ps| ==> ps[i] + 4 <= |data|)
  }

  /** The body of the line at `p`. */
  function BodyAt(data: seq<byte>, p: nat): (b: seq<byte>)
    requires p + 4 <= |data|
    ensures 0 !in b && p + 4 + |b| <= |data| && b == data[p + 4..p + 4 + |b|]
    ensures p + 4 + |b| < |data| ==> data[p + 4 + |b|] == 0
  {
    data[p + 4..LineEnd(data, p + 4)]
  }

  /** The first call among the lines. */
  function CallIn(data: seq<byte>, ps: seq<nat>): Option<nat>
    requires Inside(data, ps)
  {
    if |ps| < 2 then None
    else
      assert ps[0] + 4 <= |data|;
      OrElse(FirstCall(BodyAt(data, ps[0]), 0), CallIn(data, ps[1..]))
  }

  lemma LineStep(load: nat, data: seq<byte>, p: nat, q: nat, call: Option<nat>, count: nat)
    requires IsLine(load, data, p, q)
    ensures ParseFrom(load, data, p, call, count) ==
            ParseFrom(load, data, q, OrElse(call, FirstCall(BodyAt(data, p), 0)), count + 1)
  {
    hide FirstCall;
    var k :| p + 4 <= k < q && data[k] == 0;
    assert LineEnd(data, p + 4) <= k;
  }

  /** Every such program is parsed: its length, its first call and the number of its lines. */
  lemma {:induction false} ProgramParses(load: nat, data: seq<byte>, ps: seq<nat>, call: Option<nat>, count: nat)
    requires IsProgram(load, data, ps)
    ensures ParseFrom(load, data, ps[0], call, count) ==
            Some(Parsed(ps[|ps| - 1] + 2, OrElse(call, CallIn(data, ps)), count + |ps| - 1))
    decreases |ps|
  {
    hide FirstCall, IsLine, ParseFrom, BodyAt;
    if |ps| == 1 {
      ParseStop(load, data, ps[0], call, count);
    } else {
      assert IsLine(load, data, ps[0], ps[0 + 1]);
      LineStep(load, data, ps[0], ps[1], call, count);
      TailIsProgram(load, data, ps);
      ProgramParses(load, data, ps[1..], OrElse(call, FirstCall(BodyAt(data, ps[0]), 0)), count + 1);
    }
  }

  lemma TailIsProgram(load: nat, data: seq<byte>, ps: seq<nat>)
    requires IsProgram(load, data, ps) && |ps| > 1
    ensures IsProgram(load, data, ps[1..]) && ps[0] + 4 <= |data|
  {
    forall i: nat | i + 1 < |ps[1..]| ensures IsLine(load, data, ps[1..][i], ps[1..][i + 1]) {
      assert IsLine(load, data, ps[i + 1], ps[(i + 1) + 1]);
    }
  }

  /** And nothing else is. */
  lemma {:induction false} ParsedIsProgram(load: nat, data: seq<byte>, pos: nat, call: Option<nat>, count: nat)
    returns (ps: seq<nat>)
    requires pos <= |data| && ParseFrom(load, data, pos, call, count).Some?
    ensures IsProgram(load, data, ps) && ps[0] == pos
    decreases |data| - pos
  {
    hide FirstCall, ParseFrom, IsLine, BodyAt, Word;
    LineOrEnd(load, data, pos, call, count);
    if Word(data[pos], data[pos + 1]) == 0 {
      ps := [pos];
    } else {
      var next := Word(data[pos], data[pos + 1]) - load;
      LineStep(load, data, pos, next, call, count);
      var rest := ParsedIsProgram(load, data, next, OrElse(call, FirstCall(BodyAt(data, pos), 0)), count + 1);
      ps := [pos] + rest;
      Prepended(load, data, pos, rest);
    }
  }

  lemma LineOrEnd(load: nat, data: seq<byte>, pos: nat, call: Option<nat>, count: nat)
    requires pos <= |data| && ParseFrom(load, data, pos, call, count).Some?
    ensures pos + 2 <= |data|
    ensures var link := Word(data[pos], data[pos + 1]);
            if link == 0 then data[pos] == data[pos + 1] == 0
            else pos < link - load <= |data| && pos + 4 <= |data| && IsLine(load, data, pos, link - load)
  {
    hide FirstCall;
    if Word(data[pos], data[pos + 1]) != 0 {
      assert data[LineEnd(data, pos + 4)] == 0;
    }
  }

  lemma Prepended(load: nat, data: seq<byte>, p: nat, ps: seq<nat>)
    requires IsProgram(load, data, ps) && IsLine(load, data, p, ps[0])
    ensures IsProgram(load, data, [p] + ps)
  {
    LineFits(load, data, p, ps[0]);
    hide IsLine;
    var all := [p] + ps;
    forall i: nat | i + 1 < |all| ensures IsLine(load, data, all[i], all[i + 1]) {
      if i > 0 {
        assert IsLine(load, data, ps[i - 1], ps[(i - 1) + 1]);
      }
    }
  }

  lemma LineFits(load: nat, data: seq<byte>, p: nat, q: nat)
    requires IsLine(load, data, p, q)
    ensures p + 4 <= |data|
  {
  }

  /** The first call is that of the first line that has one. */
  lemma {:induction false} CallIsFirst(load: nat, data: seq<byte>, ps: seq<nat>, i: nat)
    requires IsProgram(load, data, ps) && i + 1 < |ps|
    ensures (forall j: nat :: j < i ==> FirstCall(BodyAt(data, ps[j]), 0).None?)
            && FirstCall(BodyAt(data, ps[i]), 0).Some? ==>
              CallIn(data, ps) == FirstCall(BodyAt(data, ps[i]), 0)
    ensures (forall j: nat :: j + 1 < |ps| ==> FirstCall(BodyAt(data, ps[j]), 0).None?) ==> CallIn(data, ps) == None
    decreases |ps|
  {
    hide FirstCall, IsLine, BodyAt, Inside;
    TailIsProgram(load, data, ps);
    assert forall j: nat :: j + 1 < |ps[1..]| ==> ps[1..][j] == ps[j + 1];
    if |ps| > 2 {
      CallIsFirst(load, data, ps[1..], if i > 0 then i - 1 else 0);
    }
  }

  // ------------------------------------------------------------------------- upload

  /** An image is split exactly if it begins with a program with a call that goes behind the
      program and into the image. */
  lemma SplitExactly(load: nat, data: seq<byte>)
    ensures var (segments, run) := PrgSegments(load, data);
            var p := ParseFrom(load, data, 0, None, 0);
            if p.Some? && p.value.call.Some? && load + p.value.end <= p.value.call.value < load + |data| then
              && run == p.value.call.value && |segments| == 2
              && segments[0] == Segment(load, data[..p.value.end])
              && 0 <= run - load <= |data| && segments[1] == Segment(run, data[run - load..])
            else segments == [Segment(load, data)] && run == load
  {
    ParsedEnd(load, data, 0, None, 0);
    NoLineNoCall(load, data, 0, 0);
  }

  /** Without a line there is no call. */
  lemma NoLineNoCall(load: nat, data: seq<byte>, pos: nat, count: nat)
    requires pos <= |data|
    ensures var r := ParseFrom(load, data, pos, None, count);
            r.Some? && r.value.count == count ==> r.value.call == None
  {
    hide FirstCall;
    var r := ParseFrom(load, data, pos, None, count);
    if r.Some? {
      var ps := ParsedIsProgram(load, data, pos, None, count);
      ProgramParses(load, data, ps, None, count);
    }
  }
}
