/** Tokenised BASIC programs: the printer of tools/d64/make_c64_basic_testdisk.py, and the
    parser of tools/upload_monitor_hex.py that splits a PRG into BASIC and machine code. */
module BasicLoader {
  import opened Bytes

  const LOAD := 0x0801
  const CALL: byte := 0x9C

  /** A program line. */
  datatype Line = Line(number: nat, body: seq<byte>)

  predicate ZeroFree(body: seq<byte>) { forall k :: 0 <= k < |body| ==> body[k] != 0 }

  predicate Printable(lines: seq<Line>) { forall i: nat :: i < |lines| ==> ZeroFree(lines[i].body) }

  // ----------------------------------------------------------------------- printing

  function NextAddr(addr: nat, l: Line): nat { addr + 4 + |l.body| + 1 }

  function LineBytes(addr: nat, l: Line): (b: seq<byte>)
    ensures |b| == 5 + |l.body|
  {
    var next := NextAddr(addr, l);
    [Lo(next), Hi(next), Lo(l.number), Hi(l.number)] + l.body + [0]
  }

  /** The program text for lines that start at `addr`, with the final zero link. */
  function Text(lines: seq<Line>, addr: nat): (t: seq<byte>)
    ensures |t| >= 2
    decreases |lines|
  {
    if lines == [] then [0, 0] else LineBytes(addr, lines[0]) + Text(lines[1..], NextAddr(addr, lines[0]))
  }

  function LineAddr(lines: seq<Line>, addr: nat, i: nat): nat
    requires i <= |lines|
  {
    if i == 0 then addr else NextAddr(LineAddr(lines, addr, i - 1), lines[i - 1])
  }

  lemma {:induction false} TextSplit(lines: seq<Line>, addr: nat, i: nat)
    requires i < |lines|
    ensures Text(lines[i..], LineAddr(lines, addr, i)) ==
            LineBytes(LineAddr(lines, addr, i), lines[i]) + Text(lines[i + 1..], LineAddr(lines, addr, i + 1))
  {
    assert lines[i..][1..] == lines[i + 1..];
  }

  datatype Encoded = Encoded(next: nat, number: nat, body: seq<byte>)

  method BasicPrg(lines: seq<Line>) returns (out: seq<byte>)
    ensures out == [Lo(LOAD), Hi(LOAD)] + Text(lines, LOAD)
  {
    hide Text, LineBytes, NextAddr;
    var addr: nat, encoded: seq<Encoded> := LOAD, [];
    for i := 0 to |lines|
      invariant addr == LineAddr(lines, LOAD, i) && |encoded| == i
      invariant forall j: nat :: j < i ==>
                  encoded[j] == Encoded(LineAddr(lines, LOAD, j + 1), lines[j].number, lines[j].body)
    {
      var next := NextAddr(addr, lines[i]);
      encoded := encoded + [Encoded(next, lines[i].number, lines[i].body)];
      addr := next;
    }
    out := Emit(encoded, lines);
  }

  /** The second loop of the printer. */
  method Emit(encoded: seq<Encoded>, ghost lines: seq<Line>) returns (out: seq<byte>)
    requires |encoded| == |lines|
    requires forall j: nat :: j < |lines| ==>
               encoded[j] == Encoded(LineAddr(lines, LOAD, j + 1), lines[j].number, lines[j].body)
    ensures out == [Lo(LOAD), Hi(LOAD)] + Text(lines, LOAD)
  {
    hide Text, LineBytes, NextAddr, Lo, Hi;
    out := [Lo(LOAD), Hi(LOAD)];
    ghost var all := out + Text(lines, LOAD);
    assert lines[0..] == lines;
    for i := 0 to |encoded|
      invariant out + Text(lines[i..], LineAddr(lines, LOAD, i)) == all
    {
      var e := encoded[i];
      TextSplit(lines, LOAD, i);
      LineIs(LineAddr(lines, LOAD, i), lines[i]);
      ghost var rest := Text(lines[i + 1..], LineAddr(lines, LOAD, i + 1));
      ghost var before := out;
      out := out + [Lo(e.next), Hi(e.next), Lo(e.number), Hi(e.number)];
      out := out + e.body;
      out := out + [0];
      ghost var line := LineBytes(LineAddr(lines, LOAD, i), lines[i]);
      assert out == before + line;
      Regroup(before, line, rest);
    }
    NoLines(lines[|encoded|..], LineAddr(lines, LOAD, |encoded|));
    out := out + [0, 0];
  }

  lemma Regroup(a: seq<byte>, b: seq<byte>, c: seq<byte>)
    ensures a + b + c == a + (b + c)
  {
  }

  lemma LineIs(addr: nat, l: Line)
    ensures var next := NextAddr(addr, l);
            LineBytes(addr, l) == [Lo(next), Hi(next), Lo(l.number), Hi(l.number)] + l.body + [0]
  {
  }

  lemma NoLines(lines: seq<Line>, addr: nat)
    requires lines == []
    ensures Text(lines, addr) == [0, 0]
  {
  }

  // ------------------------------------------------------------------------ parsing

  function SkipSpaces(s: seq<byte>, p: nat): (q: nat)
    requires p <= |s|
    ensures p <= q <= |s| && (q < |s| ==> s[q] != 0x20)
    decreases |s| - p
  {
    if p < |s| && s[p] == 0x20 then SkipSpaces(s, p + 1) else p
  }

  predicate IsDigit(b: byte) { 48 <= b <= 57 }

  function SkipDigits(s: seq<byte>, p: nat): (q: nat)
    requires p <= |s|
    ensures p <= q <= |s| && (forall k :: p <= k < q ==> IsDigit(s[k])) && (q < |s| ==> !IsDigit(s[q]))
    decreases |s| - p
  {
    if p < |s| && IsDigit(s[p]) then SkipDigits(s, p + 1) else p
  }

  function Decimal(s: seq<byte>): nat
    requires forall k :: 0 <= k < |s| ==> IsDigit(s[k])
  {
    if s == [] then 0
    else
      assert IsDigit(s[|s| - 1]);
      10 * Decimal(s[..|s| - 1]) + (s[|s| - 1] - 48)
  }

  /** The operand of a CALL token at `k`. */
  function CallAt(s: seq<byte>, k: nat): Option<nat>
    requires k < |s|
  {
    if s[k] != CALL then None
    else
      var start := SkipSpaces(s, k + 1);
      var end := SkipDigits(s, start);
      if end > start then Some(Decimal(s[start..end])) else None
  }

  /** The first CALL with an operand, from `k` on. */
  function FirstCall(s: seq<byte>, k: nat): Option<nat>
    decreases |s| - k
  {
    if k >= |s| then None else if CallAt(s, k).Some? then CallAt(s, k) else FirstCall(s, k + 1)
  }

  method ParseBasicCall(content: seq<byte>) returns (r: Option<nat>)
    ensures r == FirstCall(content, 0)
  {
    for i := 0 to |content|
      invariant FirstCall(content, 0) == FirstCall(content, i)
    {
      if content[i] != CALL {
        continue;
      }
      var pos := i + 1;
      while pos < |content| && content[pos] == 0x20
        invariant i < pos <= |content| && SkipSpaces(content, i + 1) == SkipSpaces(content, pos)
      {
        pos := pos + 1;
      }
      var start := pos;
      while pos < |content| && 48 <= content[pos] <= 57
        invariant start <= pos <= |content| && SkipDigits(content, start) == SkipDigits(content, pos)
      {
        pos := pos + 1;
      }
      if pos > start {
        return Some(Decimal(content[start..pos]));
      }
    }
    return None;
  }

  /** Decimal digits as BASIC prints them. */
  function Digits(n: nat): (d: seq<byte>)
    ensures d != []
  {
    if n < 10 then [48 + n] else Digits(n / 10) + [48 + n % 10]
  }

  lemma {:induction false} DigitsAreDigits(n: nat)
    ensures forall d <- Digits(n) :: 48 <= d <= 57
  {
    if n >= 10 {
      DigitsAreDigits(n / 10);
    }
  }

  function Repeated(b: byte, n: nat): (s: seq<byte>)
    ensures |s| == n
  {
    seq(n, _ => b)
  }

  /** A number is read back, leading zeros or not. */
  lemma {:induction false} DecimalReads(zeros: nat, n: nat)
    ensures var s := Repeated(48, zeros) + Digits(n);
            (forall k | 0 <= k < |s| :: IsDigit(s[k])) && Decimal(s) == n
    decreases n, zeros
  {
    DigitsAreDigits(n);
    var s := Repeated(48, zeros) + Digits(n);
    assert forall k | 0 <= k < |s| :: IsDigit(s[k]) by {
      assert forall k | zeros <= k < |s| :: s[k] == Digits(n)[k - zeros] && Digits(n)[k - zeros] in Digits(n);
    }
    if n >= 10 {
      DecimalReads(zeros, n / 10);
      assert s[..|s| - 1] == Repeated(48, zeros) + Digits(n / 10);
    } else {
      ZerosRead(zeros);
      assert s[..|s| - 1] == Repeated(48, zeros);
    }
  }

  lemma {:induction false} ZerosRead(zeros: nat)
    ensures (forall k | 0 <= k < zeros :: IsDigit(Repeated(48, zeros)[k])) && Decimal(Repeated(48, zeros)) == 0
  {
    if zeros > 0 {
      ZerosRead(zeros - 1);
      assert Repeated(48, zeros)[..zeros - 1] == Repeated(48, zeros - 1);
    }
  }

  lemma {:induction false} Skipped(s: seq<byte>, p: nat, q: nat)
    requires p <= q <= |s|
    ensures (forall k | p <= k < q :: s[k] == 0x20) && (q < |s| ==> s[q] != 0x20) ==> SkipSpaces(s, p) == q
    ensures (forall k | p <= k < q :: 48 <= s[k] <= 57) && (q < |s| ==> !(48 <= s[q] <= 57)) ==> SkipDigits(s, p) == q
    decreases q - p
  {
    if p < q {
      Skipped(s, p + 1, q);
    }
  }

  lemma {:induction false} NoToken(s: seq<byte>, k: nat, n: nat)
    requires k <= n <= |s| && forall i | k <= i < n :: CallAt(s, i).None?
    ensures FirstCall(s, k) == FirstCall(s, n)
    decreases n - k
  {
    hide CallAt;
    if k < n {
      NoToken(s, k + 1, n);
    }
  }

  /** CALL, any number of spaces and a number is the call to that address, whatever comes in
      front of it without being a token and whatever follows without being a digit. */
  lemma CallIsRead(front: seq<byte>, spaces: nat, zeros: nat, n: nat, rest: seq<byte>)
    requires 0x9C !in front && (rest != [] ==> !(48 <= rest[0] <= 57))
    ensures FirstCall(front + [0x9C] + Repeated(0x20, spaces) + (Repeated(48, zeros) + Digits(n)) + rest, 0) == Some(n)
  {
    hide CallAt, FirstCall, Digits;
    var d := Repeated(48, zeros) + Digits(n);
    var head := front + [0x9C] + Repeated(0x20, spaces);
    var s := head + d + rest;
    DecimalReads(zeros, n);
    forall i | 0 <= i < |front| ensures s[i] != 0x9C {
      assert s[i] == front[i] && front[i] in front;
    }
    assert s[|head|..|head| + |d|] == d;
    FirstToken(s, |front|, |head|, |head| + |d|);
  }

  lemma FirstToken(s: seq<byte>, at: nat, start: nat, end: nat)
    requires at < start < end <= |s| && s[at] == 0x9C && forall i | 0 <= i < at :: s[i] != 0x9C
    requires forall i | at < i < start :: s[i] == 0x20
    requires (forall i | start <= i < end :: IsDigit(s[i])) && (end < |s| ==> !IsDigit(s[end]))
    ensures FirstCall(s, 0) == Some(Decimal(s[start..end]))
  {
    hide SkipSpaces, SkipDigits, Decimal;
    Skipped(s, at + 1, start);
    Skipped(s, start, end);
    NoToken(s, 0, at);
  }

  /** A token at `k` with a digit at `j` behind spaces. */
  predicate HasOperand(s: seq<byte>, k: nat, j: nat) {
    k < j < |s| && s[k] == 0x9C && (forall i | k < i < j :: s[i] == 0x20) && 48 <= s[j] <= 57
  }

  /** There is a call exactly if some token is followed by a number. */
  lemma NoCall(s: seq<byte>)
    ensures FirstCall(s, 0).Some? <==> exists k: nat, j: nat :: HasOperand(s, k, j)
  {
    hide SkipSpaces, SkipDigits, Decimal;
    if k: nat, j: nat :| HasOperand(s, k, j) {
      Skipped(s, k + 1, j);
      Skipped(s, j, j);
      assert CallAt(s, k).Some?;
      FoundLater(s, 0, k);
    } else {
      forall k: nat | k < |s| ensures CallAt(s, k).None? {
        if CallAt(s, k).Some? {
          OperandOf(s, k);
        }
      }
      NoToken(s, 0, |s|);
    }
  }

  lemma {:induction false} FoundLater(s: seq<byte>, k: nat, n: nat)
    requires k <= n < |s| && CallAt(s, n).Some?
    ensures FirstCall(s, k).Some?
    decreases n - k
  {
    hide CallAt;
    if k < n {
      FoundLater(s, k + 1, n);
    }
  }

  lemma OperandOf(s: seq<byte>, k: nat)
    requires k < |s| && CallAt(s, k).Some?
    ensures exists j: nat :: HasOperand(s, k, j)
  {
    hide Decimal;
    var start := SkipSpaces(s, k + 1);
    SpacesBefore(s, k + 1);
    assert HasOperand(s, k, start);
  }

  lemma {:induction false} SpacesBefore(s: seq<byte>, p: nat)
    requires p <= |s|
    ensures forall i | p <= i < SkipSpaces(s, p) :: s[i] == 0x20
    decreases |s| - p
  {
    if p < |s| && s[p] == 0x20 {
      SpacesBefore(s, p + 1);
    }
  }

  /** What the parser finds: the length of the BASIC part, the CALL, and the line count. */
  datatype Parsed = Parsed(end: nat, call: Option<nat>, count: nat)

  function LineEnd(data: seq<byte>, p: nat): (q: nat)
    requires p <= |data|
    ensures p <= q <= |data| && (forall k :: p <= k < q ==> data[k] != 0) && (q < |data| ==> data[q] == 0)
    decreases |data| - p
  {
    if p < |data| && data[p] != 0 then LineEnd(data, p + 1) else p
  }

  function OrElse(a: Option<nat>, b: Option<nat>): Option<nat> { if a.Some? then a else b }

  /** The parser from a position on. Every line moves the position forward. */
  function ParseFrom(load: nat, data: seq<byte>, pos: nat, call: Option<nat>, count: nat): Option<Parsed>
    requires pos <= |data|
    decreases |data| - pos
  {
    if pos + 2 > |data| then None
    else
      var nextPtr := Word(data[pos], data[pos + 1]);
      if nextPtr == 0 then Some(Parsed(pos + 2, call, count))
      else if nextPtr <= load + pos || nextPtr > load + |data| || pos + 4 > |data| then None
      else
        var nextPos, lineEnd := nextPtr - load, LineEnd(data, pos + 4);
        if lineEnd >= |data| || lineEnd >= nextPos then None
        else ParseFrom(load, data, nextPos, OrElse(call, FirstCall(data[pos + 4..lineEnd], 0)), count + 1)
  }

  /** The end of the line that starts at `p`. */
  method ScanLine(data: seq<byte>, p: nat) returns (q: nat)
    requires p <= |data|
    ensures q == LineEnd(data, p)
  {
    q := p;
    while q < |data| && data[q] != 0
      invariant p <= q <= |data| && LineEnd(data, p) == LineEnd(data, q)
    {
      q := q + 1;
    }
  }

  method ParseBasicLoader(load: nat, data: seq<byte>) returns (r: Option<Parsed>)
    ensures r == ParseFrom(load, data, 0, None, 0)
  {
    hide LineEnd, FirstCall, Word;
    var pos: nat, call: Option<nat>, count: nat := 0, None, 0;
    while true
      invariant pos <= |data| && ParseFrom(load, data, 0, None, 0) == ParseFrom(load, data, pos, call, count)
      decreases |data| - pos
    {
      if pos + 2 > |data| {
        return None;
      }
      var nextPtr := Word(data[pos], data[pos + 1]);
      if nextPtr == 0 {
        return Some(Parsed(pos + 2, call, count));
      }
      var currentAddr := load + pos;
      if nextPtr <= currentAddr || nextPtr > load + |data| || pos + 4 > |data| {
        return None;
      }
      var nextPos := nextPtr - load;
      var lineEnd := ScanLine(data, pos + 4);
      if lineEnd >= |data| || lineEnd >= nextPos {
        return None;
      }
      var found := ParseBasicCall(data[pos + 4..lineEnd]);
      if found.Some? && call.None? {
        call := found;
      }
      count := count + 1;
      pos := nextPos;
    }
  }

  // -------------------------------------------------------------------- round trip

  /** The first CALL of a program. */
  function ProgramCall(lines: seq<Line>): Option<nat> {
    if lines == [] then None else OrElse(FirstCall(lines[0].body, 0), ProgramCall(lines[1..]))
  }

  lemma OneLine(data: seq<byte>, pos: nat, addr: nat, l: Line)
    requires pos + |LineBytes(addr, l)| <= |data| && data[pos..pos + |LineBytes(addr, l)|] == LineBytes(addr, l)
    requires ZeroFree(l.body)
    ensures data[pos] == Lo(NextAddr(addr, l)) && data[pos + 1] == Hi(NextAddr(addr, l))
    ensures LineEnd(data, pos + 4) == pos + 4 + |l.body| && data[pos + 4..pos + 4 + |l.body|] == l.body
  {
    var b := LineBytes(addr, l);
    forall k | 0 <= k < |b| ensures data[pos + k] == b[k] {
      assert data[pos..pos + |b|][k] == data[pos + k];
    }
    forall k | 0 <= k < |l.body| ensures data[pos + 4 + k] == l.body[k] {
      assert data[pos + (4 + k)] == b[4 + k];
    }
    EndFound(data, pos + 4, pos + 4 + |l.body|);
  }

  lemma EndFound(data: seq<byte>, p: nat, q: nat)
    requires p <= q < |data| && data[q] == 0 && forall k :: p <= k < q ==> data[k] != 0
    ensures LineEnd(data, p) == q
  {
  }

  lemma ParseStep(load: nat, data: seq<byte>, pos: nat, l: Line, call: Option<nat>, count: nat)
    requires var next := NextAddr(load + pos, l);
             && next < 0x10000 && next < load + |data|
             && data[pos] == Lo(next) && data[pos + 1] == Hi(next)
             && LineEnd(data, pos + 4) == pos + 4 + |l.body| && data[pos + 4..pos + 4 + |l.body|] == l.body
    ensures ParseFrom(load, data, pos, call, count) ==
            ParseFrom(load, data, NextAddr(load + pos, l) - load, OrElse(call, FirstCall(l.body, 0)), count + 1)
  {
    hide FirstCall, Lo, Hi, Word, LineEnd;
    WordRoundTrip(NextAddr(load + pos, l));
  }

  /** Parsing a printed program that ends at or below FFFFh gives back its length, its line
      count and its first CALL, whatever follows it. */
  lemma {:induction false} ParsePrinted(load: nat, data: seq<byte>, pos: nat, lines: seq<Line>, call: Option<nat>,
                                        count: nat)
    requires Printable(lines) && pos + |Text(lines, load + pos)| <= |data|
    requires data[pos..pos + |Text(lines, load + pos)|] == Text(lines, load + pos)
    requires load + pos + |Text(lines, load + pos)| - 2 < 0x10000
    ensures ParseFrom(load, data, pos, call, count) ==
            Some(Parsed(pos + |Text(lines, load + pos)|, OrElse(call, ProgramCall(lines)), count + |lines|))
    decreases |lines|
  {
    hide ParseFrom, LineBytes, FirstCall, Text, LineEnd, Lo, Hi;
    TextParts(data, pos, lines, load);
    if lines == [] {
      ParseStop(load, data, pos, call, count);
    } else {
      var l := lines[0];
      OneLine(data, pos, load + pos, l);
      ParseStep(load, data, pos, l, call, count);
      ParsePrinted(load, data, NextAddr(load + pos, l) - load, lines[1..], OrElse(call, FirstCall(l.body, 0)),
                   count + 1);
    }
  }

  lemma ParseStop(load: nat, data: seq<byte>, pos: nat, call: Option<nat>, count: nat)
    requires pos + 2 <= |data| && data[pos] == 0 && data[pos + 1] == 0
    ensures ParseFrom(load, data, pos, call, count) == Some(Parsed(pos + 2, call, count))
  {
  }

  /** A program text in an image is its first line and the text of the others. */
  lemma TextParts(data: seq<byte>, pos: nat, lines: seq<Line>, load: nat)
    requires pos + |Text(lines, load + pos)| <= |data|
    requires data[pos..pos + |Text(lines, load + pos)|] == Text(lines, load + pos)
    ensures lines == [] ==> |Text(lines, load + pos)| == 2 && data[pos] == 0 && data[pos + 1] == 0
    ensures lines != [] ==>
              var (l, n) := (lines[0], |LineBytes(load + pos, lines[0])|);
              var (next, rest) := (NextAddr(load + pos, l) - load, Text(lines[1..], NextAddr(load + pos, l)));
              && next == pos + n && |Text(lines, load + pos)| == n + |rest| && |rest| >= 2
              && data[pos..pos + n] == LineBytes(load + pos, l) && data[next..next + |rest|] == rest
  {
    var t := Text(lines, load + pos);
    assert data[pos] == data[pos..pos + |t|][0] && data[pos + 1] == data[pos..pos + |t|][1];
    if lines != [] {
      var n := |LineBytes(load + pos, lines[0])|;
      assert data[pos..pos + n] == data[pos..pos + |t|][..n];
      assert data[pos + n..pos + |t|] == data[pos..pos + |t|][n..];
    }
  }

  /** A program that ends beyond FFFFh is not recognised in full. */
  lemma {:induction false} ParseTooLong(load: nat, data: seq<byte>, pos: nat, lines: seq<Line>, call: Option<nat>,
                                        count: nat)
    requires Printable(lines) && pos + |Text(lines, load + pos)| <= |data|
    requires data[pos..pos + |Text(lines, load + pos)|] == Text(lines, load + pos)
    requires load + pos < 0x10000 <= load + pos + |Text(lines, load + pos)| - 2
    ensures var r := ParseFrom(load, data, pos, call, count);
            r.Some? ==> r.value.end < pos + |Text(lines, load + pos)|
    decreases |lines|
  {
    hide ParseFrom, LineBytes, FirstCall, Text, LineEnd, Lo, Hi;
    TextParts(data, pos, lines, load);
    if lines != [] {
      var l := lines[0];
      var next := NextAddr(load + pos, l);
      OneLine(data, pos, load + pos, l);
      if next < 0x10000 {
        ParseStep(load, data, pos, l, call, count);
        ParseTooLong(load, data, next - load, lines[1..], OrElse(call, FirstCall(l.body, 0)), count + 1);
      } else {
        ParseOverflow(load, data, pos, l, call, count);
      }
    }
  }

  /** A link beyond FFFFh is printed truncated, and stops the parser on this line. */
  lemma ParseOverflow(load: nat, data: seq<byte>, pos: nat, l: Line, call: Option<nat>, count: nat)
    requires pos + 5 + |l.body| <= |data| && load + pos < 0x10000 <= NextAddr(load + pos, l)
    requires data[pos] == Lo(NextAddr(load + pos, l)) && data[pos + 1] == Hi(NextAddr(load + pos, l))
    requires LineEnd(data, pos + 4) == pos + 4 + |l.body|
    ensures var r := ParseFrom(load, data, pos, call, count); r.Some? ==> r.value.end == pos + 2
  {
    hide FirstCall, Lo, Hi, Word, LineEnd;
    Masked(NextAddr(load + pos, l));
  }

  lemma Masked(w: nat)
    requires w >= 0x10000
    ensures Word(Lo(w), Hi(w)) <= w - 0x10000
  {
  }

  /** The round trip of print and parse holds exactly for the programs that end at or below
      FFFFh. */
  lemma RoundTrip(lines: seq<Line>)
    requires Printable(lines)
    ensures var t := Text(lines, LOAD);
            ParseFrom(LOAD, t, 0, None, 0) == Some(Parsed(|t|, ProgramCall(lines), |lines|))
            <==> LOAD + |t| - 2 < 0x10000
  {
    hide Text, ParseFrom, ProgramCall;
    var t := Text(lines, LOAD);
    assert t[0..0 + |t|] == t;
    if LOAD + |t| - 2 < 0x10000 {
      ParsePrinted(LOAD, t, 0, lines, None, 0);
    } else {
      ParseTooLong(LOAD, t, 0, lines, None, 0);
    }
  }

  // ------------------------------------------------------------------------ upload

  datatype Segment = Segment(addr: nat, data: seq<byte>)

  /** The uploaded segments and the start address. */
  function PrgSegments(load: nat, data: seq<byte>): (seq<Segment>, nat) {
    var whole := ([Segment(load, data)], load);
    ParsedEnd(load, data, 0, None, 0);
    match ParseFrom(load, data, 0, None, 0)
    case None => whole
    case Some(p) =>
      if p.count == 0 || p.call.None? || p.call.value <= load || p.call.value >= load + |data|
         || p.end > p.call.value - load then whole
      else ([Segment(load, data[..p.end]), Segment(p.call.value, data[p.call.value - load..])], p.call.value)
  }

  /** Segments put their bytes at these addresses. */
  ghost predicate Uploads(segments: seq<Segment>, a: nat, b: byte) {
    exists i: nat :: i < |segments| && segments[i].addr <= a < segments[i].addr + |segments[i].data|
                     && segments[i].data[a - segments[i].addr] == b
  }

  lemma {:induction false} ParsedEnd(load: nat, data: seq<byte>, pos: nat, call: Option<nat>, count: nat)
    requires pos <= |data|
    ensures var r := ParseFrom(load, data, pos, call, count); r.Some? ==> pos + 2 <= r.value.end <= |data|
    decreases |data| - pos
  {
    if pos + 2 <= |data| {
      var nextPtr := Word(data[pos], data[pos + 1]);
      if !(nextPtr == 0 || nextPtr <= load + pos || nextPtr > load + |data| || pos + 4 > |data|) {
        var nextPos, lineEnd := nextPtr - load, LineEnd(data, pos + 4);
        if !(lineEnd >= |data| || lineEnd >= nextPos) {
          ParsedEnd(load, data, nextPos, OrElse(call, FirstCall(data[pos + 4..lineEnd], 0)), count + 1);
        }
      }
    }
  }

  /** Every upload puts image bytes where the image has them, and leaves out only the gap
      between the end of the BASIC program and the target of its CALL, if it has both. */
  lemma UploadIsImage(load: nat, data: seq<byte>, a: nat, b: byte)
    requires load <= a < load + |data|
    ensures var (segments, run) := PrgSegments(load, data);
            var p := ParseFrom(load, data, 0, None, 0);
            && (|segments| == 1 ==> run == load && (Uploads(segments, a, b) <==> b == data[a - load]))
            && (|segments| != 1 ==>
                  && p.Some? && p.value.call == Some(run) && load + p.value.end <= run < load + |data|
                  && (Uploads(segments, a, b) <==> b == data[a - load] && !(load + p.value.end <= a < run)))
  {
    ParsedEnd(load, data, 0, None, 0);
    var segments := PrgSegments(load, data).0;
    var i := a - load;
    if |segments| == 1 {
      assert segments[0].data[a - segments[0].addr] == data[i];
    } else {
      var p := ParseFrom(load, data, 0, None, 0).value;
      if i < p.end {
        assert segments[0].data[a - segments[0].addr] == data[i];
      } else if i >= p.call.value - load {
        assert segments[1].data[a - segments[1].addr] == data[i];
      }
    }
  }

  /** A printed program with machine code behind it, started by its CALL, is uploaded as
      these two parts. */
  lemma PrintedIsSplit(lines: seq<Line>, gap: seq<byte>, machine: seq<byte>, call: nat)
    requires lines != [] && Printable(lines) && machine != []
    requires var t := Text(lines, LOAD);
             ProgramCall(lines) == Some(call) && call == LOAD + |t| + |gap| && LOAD + |t| - 2 < 0x10000
    ensures var t := Text(lines, LOAD);
            PrgSegments(LOAD, t + gap + machine) == ([Segment(LOAD, t), Segment(call, machine)], call)
  {
    hide Text, ParseFrom, ProgramCall;
    var t := Text(lines, LOAD);
    var data := t + gap + machine;
    assert data[0..0 + |t|] == t;
    ParsePrinted(LOAD, data, 0, lines, None, 0);
    assert data[..|t|] == t && data[call - LOAD..] == machine;
  }
}
