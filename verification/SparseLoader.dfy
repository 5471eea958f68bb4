/** The sparse BASIC loader (tools/bin_to_basic_loader_checksums.py): the generator, and the
    BASIC program it generates. */
module SparseLoader {
  import opened Bytes
  import opened LoaderProgram

  /** Bytes for consecutive addresses. */
  datatype Run = Run(addr: nat, data: seq<byte>)

  function End(r: Run): nat { r.addr + |r.data| }

  /** Byte `i` lies in a span of at least `minSkip` filler bytes. */
  ghost predicate Skipped(data: seq<byte>, fill: byte, minSkip: nat, i: nat) {
    exists lo: nat, hi: nat :: lo <= i < hi && lo + minSkip <= hi && Filler(data, fill, lo, hi)
  }

  ghost predicate Filler(data: seq<byte>, fill: byte, lo: nat, hi: nat) {
    hi <= |data| && forall k :: lo <= k < hi ==> data[k] == fill
  }

  /** Some run covers this address. */
  predicate Covered(runs: seq<Run>, a: nat) {
    runs != [] && (runs[|runs| - 1].addr <= a < End(runs[|runs| - 1]) || Covered(runs[..|runs| - 1], a))
  }

  /** Non-empty pieces of the image at `base`, ascending and disjoint. */
  ghost predicate Faithful(runs: seq<Run>, data: seq<byte>, base: nat) {
    && (forall i: nat :: i < |runs| ==> Piece(runs[i], data, base))
    && (forall i: nat, j: nat :: i < j < |runs| ==> End(runs[i]) <= runs[j].addr)
  }

  predicate Piece(r: Run, data: seq<byte>, base: nat) {
    && r.data != [] && base <= r.addr && End(r) <= base + |data|
    && r.data == data[r.addr - base..End(r) - base]
  }

  lemma CoveredOneMore(runs: seq<Run>, r: Run, a: nat)
    ensures Covered(runs + [r], a) <==> Covered(runs, a) || r.addr <= a < End(r)
  {
    assert (runs + [r])[..|runs|] == runs;
  }

  lemma FaithfulOneMore(runs: seq<Run>, r: Run, data: seq<byte>, base: nat)
    requires Faithful(runs, data, base) && Piece(r, data, base) && EndOf(runs) <= r.addr
    ensures Faithful(runs + [r], data, base) && EndOf(runs + [r]) == End(r)
  {
    forall i: nat | i < |runs| ensures End((runs + [r])[i]) <= r.addr {
    }
  }

  function EndOf(runs: seq<Run>): nat {
    if runs == [] then 0 else End(runs[|runs| - 1])
  }

  /** No span of filler bytes goes across this position. */
  predicate Boundary(data: seq<byte>, fill: byte, i: nat) {
    i == 0 || i >= |data| || data[i - 1] != fill || data[i] != fill
  }

  lemma FillerAcross(data: seq<byte>, fill: byte, lo: nat, hi: nat, i: nat)
    requires Filler(data, fill, lo, hi) && lo < i < hi
    ensures !Boundary(data, fill, i)
  {
  }

  /** A span of filler bytes between two boundaries is skipped exactly if it is long enough. */
  lemma GapSkipped(data: seq<byte>, fill: byte, minSkip: nat, lo: nat, hi: nat, i: nat)
    requires Filler(data, fill, lo, hi) && lo <= i < hi && minSkip > 0
    requires Boundary(data, fill, lo) && Boundary(data, fill, hi)
    ensures Skipped(data, fill, minSkip, i) <==> lo + minSkip <= hi
  {
    if l: nat, h: nat :| l <= i < h && l + minSkip <= h && Filler(data, fill, l, h) {
      if l < lo {
        FillerAcross(data, fill, l, h, lo);
      }
      if h > hi {
        FillerAcross(data, fill, l, h, hi);
      }
    }
  }

  lemma KeptByte(data: seq<byte>, fill: byte, minSkip: nat, i: nat)
    requires i < |data| && data[i] != fill
    ensures !Skipped(data, fill, minSkip, i)
  {
  }

  /** Below position `n`, the runs cover exactly what is not skipped. */
  ghost predicate Emitted(runs: seq<Run>, data: seq<byte>, base: nat, fill: byte, minSkip: nat, n: nat) {
    forall a: nat :: base <= a < base + n ==> (Covered(runs, a) <==> !Skipped(data, fill, minSkip, a - base))
  }

  /** Cuts out the long spans of filler bytes, and nothing else. */
  method SplitSparseRuns(data: seq<byte>, base: nat, fill: byte, minSkip: nat) returns (runs: seq<Run>)
    requires minSkip > 0
    ensures Faithful(runs, data, base)
    ensures Emitted(runs, data, base, fill, minSkip, |data|)
  {
    hide Skipped, Covered, Faithful;
    runs := [];
    var start, i, n := 0, 0, |data|;
    Empty(data, base);
    while i < n
      invariant start <= i <= n && Boundary(data, fill, i)
      invariant Faithful(runs, data, base) && EndOf(runs) <= base + start
      invariant Emitted(runs, data, base, fill, minSkip, start)
      invariant forall k: nat :: start <= k < i ==> !Skipped(data, fill, minSkip, k)
      decreases n - i
    {
      if data[i] != fill {
        KeptByte(data, fill, minSkip, i);
        i := i + 1;
        continue;
      }
      var gapStart := i;
      while i < n && data[i] == fill
        invariant gapStart <= i <= n && Filler(data, fill, gapStart, i)
      {
        i := i + 1;
      }
      forall k: nat | gapStart <= k < i ensures Skipped(data, fill, minSkip, k) <==> i - gapStart >= minSkip {
        GapSkipped(data, fill, minSkip, gapStart, i, k);
      }
      if i - gapStart >= minSkip {
        if gapStart > start {
          var r := Run(base + start, data[start..gapStart]);
          Extend(runs, r, data, base, fill, minSkip, start, gapStart);
          runs := runs + [r];
        }
        forall a: nat | base + gapStart <= a < base + i ensures !Covered(runs, a) {
          BeyondEnd(runs, data, base, a);
        }
        start := i;
      }
    }
    if start < n {
      var r := Run(base + start, data[start..n]);
      Extend(runs, r, data, base, fill, minSkip, start, n);
      runs := runs + [r];
    }
  }

  lemma Empty(data: seq<byte>, base: nat)
    ensures Faithful([], data, base)
  {
  }

  /** Addresses past the last run are not covered. */
  lemma {:induction false} BeyondEnd(runs: seq<Run>, data: seq<byte>, base: nat, a: nat)
    requires Faithful(runs, data, base) && EndOf(runs) <= a
    ensures !Covered(runs, a)
  {
    if runs != [] {
      var rest := runs[..|runs| - 1];
      assert EndOf(rest) <= EndOf(runs);
      BeyondEnd(rest, data, base, a);
    }
  }

  lemma Extend(runs: seq<Run>, r: Run, data: seq<byte>, base: nat, fill: byte, minSkip: nat, start: nat, end: nat)
    requires start < end <= |data| && r == Run(base + start, data[start..end])
    requires Faithful(runs, data, base) && EndOf(runs) <= base + start
    requires Emitted(runs, data, base, fill, minSkip, start)
    requires forall k: nat :: start <= k < end ==> !Skipped(data, fill, minSkip, k)
    ensures Faithful(runs + [r], data, base) && EndOf(runs + [r]) == base + end
    ensures Emitted(runs + [r], data, base, fill, minSkip, end)
  {
    hide Skipped, Covered, Faithful;
    FaithfulOneMore(runs, r, data, base);
    forall a: nat | base <= a < base + end ensures Covered(runs + [r], a) <==> !Skipped(data, fill, minSkip, a - base) {
      CoveredOneMore(runs, r, a);
      if a >= base + start {
        BeyondEnd(runs, data, base, a);
      }
    }
  }

  /** Splits the runs into records of at most `perLine` bytes. */
  method ChunkRuns(runs: seq<Run>, perLine: nat, ghost data: seq<byte>, ghost base: nat) returns (chunks: seq<Run>)
    requires perLine > 0 && Faithful(runs, data, base)
    ensures Faithful(chunks, data, base)
    ensures forall i: nat :: i < |chunks| ==> |chunks[i].data| <= perLine
    ensures forall a: nat :: Covered(chunks, a) <==> Covered(runs, a)
  {
    hide Covered, Faithful, Piece;
    chunks := [];
    Empty(data, base);
    assert runs[..0] == [];
    for i := 0 to |runs|
      invariant Faithful(chunks, data, base) && EndOf(chunks) == EndOf(runs[..i])
      invariant forall j: nat :: j < |chunks| ==> |chunks[j].data| <= perLine
      invariant forall a: nat :: Covered(chunks, a) <==> Covered(runs[..i], a)
    {
      var run, off := runs[i], 0;
      ghost var done := chunks;
      RunAt(runs, i, data, base);
      while off < |run.data|
        invariant Faithful(chunks, data, base) && (off > 0 ==> EndOf(chunks) == run.addr + Min(off, |run.data|))
        invariant off == 0 ==> chunks == done
        invariant forall j: nat :: j < |chunks| ==> |chunks[j].data| <= perLine
        invariant forall a: nat ::
                    Covered(chunks, a) <==> Covered(done, a) || run.addr <= a < run.addr + Min(off, |run.data|)
      {
        var c := Run(run.addr + off, run.data[off..Min(off + perLine, |run.data|)]);
        PartOfPiece(run, off, Min(off + perLine, |run.data|), data, base);
        FaithfulOneMore(chunks, c, data, base);
        forall a: nat ensures Covered(chunks + [c], a) <==> Covered(chunks, a) || c.addr <= a < End(c) {
          CoveredOneMore(chunks, c, a);
        }
        chunks := chunks + [c];
        off := off + perLine;
      }
      ghost var seen := runs[..i] + [run];
      forall a: nat ensures Covered(chunks, a) <==> Covered(seen, a) {
        CoveredOneMore(runs[..i], run, a);
        assert Covered(done, a) <==> Covered(runs[..i], a);
      }
      assert runs[..i + 1] == seen;
    }
    assert runs[..|runs|] == runs;
  }

  lemma PartOfPiece(r: Run, lo: nat, hi: nat, data: seq<byte>, base: nat)
    requires Piece(r, data, base) && lo < hi <= |r.data|
    ensures Piece(Run(r.addr + lo, r.data[lo..hi]), data, base)
  {
    SliceOfSlice(data, r.addr - base, |r.data|, lo, hi);
  }

  lemma SliceOfSlice(s: seq<byte>, at: nat, n: nat, lo: nat, hi: nat)
    requires at + n <= |s| && lo <= hi <= n
    ensures s[at..at + n][lo..hi] == s[at + lo..at + hi]
  {
    var a, b := s[at..at + n], s[at + lo..at + hi];
    var c := a[lo..hi];
    forall k | 0 <= k < |c| ensures c[k] == b[k] {
      assert c[k] == a[lo + k];
    }
  }

  function Min(a: nat, b: nat): nat { if a < b then a else b }

  lemma RunAt(runs: seq<Run>, i: nat, data: seq<byte>, base: nat)
    requires Faithful(runs, data, base) && i < |runs|
    ensures Piece(runs[i], data, base) && EndOf(runs[..i]) <= runs[i].addr
  {
  }

  /** Drops the bytes for addresses FFFAh to FFFFh. */
  function MaybeDropVectors(data: seq<byte>, base: nat): (r: seq<byte>)
    ensures r <= data
    ensures base + |data| <= MEMORY ==> (r != [] ==> base + |r| <= 0xFFFA) && (r != data ==> 0xFFFA <= base + |r|)
  {
    if base + |data| <= 0xFFFA || base >= MEMORY then data
    else Slice(data, 0, if base < 0xFFFA then 0xFFFA - base else 0)
  }

  // ------------------------------------------------------------- what the loader does

  /** A DATA record of the loader, with the checksum it states. */
  datatype Record = Record(al: byte, ah: byte, payload: seq<byte>, check: byte)

  function RecordRun(r: Record): Run { Run(r.al + 256 * r.ah as int, r.payload) }

  predicate Loadable(r: Record) { 1 <= |r.payload| < 256 && End(RecordRun(r)) <= MEMORY }

  predicate AllLoadable(rs: seq<Record>) {
    forall i: nat :: i < |rs| ==> Loadable(rs[i])
  }

  /** The sum of a record without its checksum. */
  function RecordSum(r: Record): nat { r.al as int + r.ah as int + |r.payload| + Sum(r.payload) }

  predicate CheckOk(r: Record) { r.check as int == RecordSum(r) % 256 }

  function Encode(r: Record): seq<byte>
    requires Loadable(r)
  {
    [r.al, r.ah, |r.payload|] + r.payload + [r.check]
  }

  function EncodeAll(rs: seq<Record>): seq<byte>
    requires AllLoadable(rs)
  {
    if rs == [] then [] else EncodeAll(rs[..|rs| - 1]) + Encode(rs[|rs| - 1])
  }

  function Payloads(rs: seq<Record>): seq<byte> {
    if rs == [] then [] else Payloads(rs[..|rs| - 1]) + rs[|rs| - 1].payload
  }

  predicate InMemory(runs: seq<Run>) {
    forall i: nat :: i < |runs| ==> End(runs[i]) <= MEMORY
  }

  /** Memory after the runs have been copied to it, in order. */
  function Poked(mem: seq<byte>, runs: seq<Run>): (m: seq<byte>)
    requires |mem| == MEMORY && InMemory(runs)
    ensures |m| == MEMORY
  {
    if runs == [] then mem
    else
      var r := runs[|runs| - 1];
      assert End(r) <= MEMORY;
      Splice(Poked(mem, runs[..|runs| - 1]), r.addr, r.data)
  }

  function RunsOf(rs: seq<Record>): (r: seq<Run>)
    ensures |r| == |rs| && (AllLoadable(rs) ==> InMemory(r))
  {
    seq(|rs|, i requires 0 <= i < |rs| => RecordRun(rs[i]))
  }

  /** How the loader ends, without the checks in `lost`: at the first record with a wrong
      checksum, or with a wrong size or total, or well. */
  function Verdict(rs: seq<Record>, i: nat, n: int, t: byte, lost: set<int>): Outcome
    requires i <= |rs|
    decreases |rs| - i
  {
    if i < |rs| then if 140 in lost || CheckOk(rs[i]) then Verdict(rs, i + 1, n, t, lost) else RecordStop(i + 1)
    else if 170 !in lost && |Payloads(rs)| != n then SizeStop
    else if 190 !in lost && Sum(Payloads(rs)) % 256 != t then TotalStop
    else Loaded
  }

  /** The loader accepts nothing but records with right checksums, size and total; a check
      that is lost accepts everything. */
  lemma {:induction false} VerdictLoaded(rs: seq<Record>, i: nat, n: int, t: byte, lost: set<int>)
    requires i <= |rs|
    ensures Verdict(rs, i, n, t, lost) == Loaded <==>
              && (140 in lost || forall j: nat :: i <= j < |rs| ==> CheckOk(rs[j]))
              && (170 in lost || |Payloads(rs)| == n) && (190 in lost || Sum(Payloads(rs)) % 256 == t as int)
    decreases |rs| - i
  {
    hide CheckOk, Payloads, Sum;
    if i < |rs| {
      VerdictLoaded(rs, i + 1, n, t, lost);
    }
  }

  /** One changed byte in the address, the payload or the checksum of a record is noticed. */
  lemma OneByteNoticed(r: Record, s: Record, j: nat, b: byte)
    requires CheckOk(r) && s != r
    requires s == r.(al := b) || s == r.(ah := b) || s == r.(check := b)
             || (j < |r.payload| && s == r.(payload := r.payload[j := b]))
    ensures !CheckOk(s)
  {
    hide Sum, RecordSum;
    if s == r.(check := b) {
      CheckNotSummed(r, b);
    } else {
      SumOfChanged(r, s, j, b);
      NotCongruent(RecordSum(r), RecordSum(s));
    }
  }

  lemma CheckNotSummed(r: Record, b: byte)
    ensures RecordSum(r.(check := b)) == RecordSum(r)
  {
  }

  lemma SumOfChanged(r: Record, s: Record, j: nat, b: byte)
    requires s == r.(al := b) || s == r.(ah := b) || (j < |r.payload| && s == r.(payload := r.payload[j := b]))
    requires s != r
    ensures s.check == r.check && RecordSum(s) != RecordSum(r) && -256 < RecordSum(s) - RecordSum(r) < 256
  {
    hide Sum;
    if j < |r.payload| && s == r.(payload := r.payload[j := b]) {
      SumChange(r.payload, j, b);
      SameByte(r.payload, j);
    }
  }

  lemma NotCongruent(a: nat, b: nat)
    requires a != b && -256 < a - b < 256
    ensures a % 256 != b % 256
  {
  }

  lemma SameByte(p: seq<byte>, j: nat)
    requires j < |p|
    ensures p[j := p[j]] == p
  {
  }

  lemma SumOne(s: seq<byte>, j: nat)
    requires j < |s|
    ensures Sum(s[..j + 1]) == Sum(s[..j]) + s[j]
  {
    assert s[..j + 1][..j] == s[..j];
  }

  lemma {:induction false} EncodedPrefix(rs: seq<Record>, i: nat)
    requires i <= |rs| && AllLoadable(rs)
    ensures EncodeAll(rs[..i]) <= EncodeAll(rs)
    ensures i < |rs| ==> EncodeAll(rs[..i]) + Encode(rs[i]) <= EncodeAll(rs)
    ensures i < |rs| ==> EncodeAll(rs[..i + 1]) == EncodeAll(rs[..i]) + Encode(rs[i])
    ensures i < |rs| ==> Payloads(rs[..i + 1]) == Payloads(rs[..i]) + rs[i].payload
    decreases |rs| - i
  {
    if i < |rs| {
      assert rs[..i + 1][..i] == rs[..i];
      EncodedPrefix(rs, i + 1);
    } else {
      assert rs[..i] == rs;
    }
  }

  /** Where the DATA pointer finds the parts of a record. */
  lemma RecordInStream(rs: seq<Record>, i: nat, t: byte, stream: seq<byte>)
    requires i < |rs| && AllLoadable(rs) && stream == EncodeAll(rs) + [t]
    ensures var (d, k) := (|EncodeAll(rs[..i])|, |rs[i].payload|);
            && d + k + 4 == |EncodeAll(rs[..i + 1])| <= |stream|
            && stream[d] == rs[i].al && stream[d + 1] == rs[i].ah && stream[d + 2] == k
            && stream[d + 3..d + 3 + k] == rs[i].payload && stream[d + 3 + k] == rs[i].check
  {
    hide EncodeAll, Encode, Loadable;
    EncodedPrefix(rs, i);
    var a, e := EncodeAll(rs[..i]), Encode(rs[i]);
    EncodeParts(rs[i]);
    Inside(a, e, stream);
    assert stream[|a|..|a| + |e|][3..3 + |rs[i].payload|] == stream[|a| + 3..|a| + 3 + |rs[i].payload|];
  }

  lemma EncodeParts(r: Record)
    requires Loadable(r)
    ensures var (e, k) := (Encode(r), |r.payload|);
            && |e| == k + 4 && e[0] == r.al && e[1] == r.ah && e[2] == k && e[3..3 + k] == r.payload
               && e[3 + k] == r.check
  {
  }

  lemma Inside(a: seq<byte>, e: seq<byte>, s: seq<byte>)
    requires a + e <= s
    ensures s[|a|..|a| + |e|] == e && forall j :: 0 <= j < |e| ==> s[|a| + j] == e[j]
  {
    assert (a + e)[|a|..] == e;
  }

  lemma PokedOne(mem: seq<byte>, rs: seq<Record>, i: nat)
    requires |mem| == MEMORY && i < |rs| && AllLoadable(rs)
    ensures Poked(mem, RunsOf(rs[..i + 1])) ==
            Splice(Poked(mem, RunsOf(rs[..i])), RecordRun(rs[i]).addr, rs[i].payload)
  {
    assert RunsOf(rs[..i + 1])[..i] == RunsOf(rs[..i]);
  }

  lemma SpliceOneMore(m0: seq<byte>, m: seq<byte>, at: nat, p: seq<byte>, j: nat)
    requires j < |p| && at + |p| <= |m0| && m == Splice(m0, at, p[..j])
    ensures m[at + j := p[j]] == Splice(m0, at, p[..j + 1])
  {
  }

  /** Adding a byte and subtracting 256 if the result exceeds 255 is addition modulo 256. */
  lemma ConditionalSubtract(c: int, x: nat, b: byte)
    requires c == x % 256
    ensures Fold(c + b) == (x + b) % 256
  {
  }

  lemma NothingPoked(mem: seq<byte>, at: nat, p: seq<byte>)
    requires |mem| == MEMORY && at + |p| <= MEMORY
    ensures Splice(mem, at, p[..0]) == mem && Sum(p[..0]) == 0 && p[..|p|] == p
  {
  }

  /** A run of a program from a state; DATA lines have replaced the loader lines in `lost`. */
  datatype Execution = Execution(prog: Listing, lost: set<int>, stream: seq<byte>, start: State)

  /** Where the run is: at line `x` with these variables. */
  ghost predicate At(run: Execution, x: int, v: Vars, mem: seq<byte>) {
    Intact(run.prog, run.lost) && |mem| == MEMORY && Leads(run.prog, run.stream, run.start, Running(x, v, mem))
  }

  /** Lines 40 to 120, which load one record, are in place. */
  predicate BodyKept(lost: set<int>) {
    forall x | x in lost :: x < 40 || x > 120
  }

  /** One line of the loader. */
  lemma Line(run: Execution, x: int, v: Vars, mem: seq<byte>)
    requires At(run, x, v, mem) && InLoader(x) && x >= 30 && x !in run.lost
    ensures Leads(run.prog, run.stream, run.start, Settled(Exec(LoaderLine(x), x, v, mem, run.stream)))
  {
    hide Leads, Exec, Settled;
    Advance(run.prog, run.lost, run.stream, run.start, x, v, mem);
  }

  /** A loader line that a DATA line has replaced. */
  lemma LostLine(run: Execution, x: int, v: Vars, mem: seq<byte>)
    requires At(run, x, v, mem) && InLoader(x) && 30 <= x < 190 && x in run.lost
    ensures At(run, NextInLoader(x + 1), v, mem)
  {
    hide Leads;
    Advance(run.prog, run.lost, run.stream, run.start, x, v, mem);
  }

  /** Lines 40 to 70: the address, the count and the start of the checksum. */
  lemma HeadLines(run: Execution, v: Vars, mem: seq<byte>) returns (w: Vars)
    requires At(run, 40, v, mem) && BodyKept(run.lost) && v.d + 3 <= |run.stream|
    ensures var (al, ah, k) := (run.stream[v.d] as int, run.stream[v.d + 1] as int, run.stream[v.d + 2] as int);
            && At(run, 80, w, mem)
            && w == v.(d := v.d + 3, k := k, a := al + 256 * ah, c := Fold(Fold(al + ah + k)), j := 1,
                 loopJ := Open(71, k))
  {
    hide Leads, Fold, Intact;
    var (al, ah, k) := (run.stream[v.d] as int, run.stream[v.d + 1] as int, run.stream[v.d + 2] as int);
    Line(run, 40, v, mem);
    w := v.(d := v.d + 3, k := k, a := al + 256 * ah, c := al + ah + k);
    Line(run, 50, w, mem);
    w := w.(c := Fold(w.c));
    Line(run, 60, w, mem);
    w := w.(c := Fold(w.c));
    Line(run, 70, w, mem);
    w := w.(j := 1, loopJ := Open(71, k));
  }

  /** Lines 80 to 110: one byte. */
  lemma ByteLines(run: Execution, v: Vars, mem: seq<byte>) returns (w: Vars)
    requires At(run, 80, v, mem) && BodyKept(run.lost)
    requires v.d < |run.stream| && 0 <= v.a < MEMORY && v.loopJ == Open(71, v.k)
    ensures var b := run.stream[v.d];
            && w == v.(d := v.d + 1, b := b, a := v.a + 1, p := v.p + 1, s := Fold(v.s + b), c := Fold(v.c + b),
                       j := v.j + 1, loopJ := if v.j < v.k then Open(71, v.k) else Closed)
            && At(run, if v.j < v.k then 80 else 120, w, mem[v.a := b])
  {
    hide Leads, Fold, Intact;
    var b := run.stream[v.d];
    var m := mem[v.a := b];
    Line(run, 80, v, mem);
    w := v.(d := v.d + 1, b := b, a := v.a + 1, p := v.p + 1);
    Line(run, 90, w, m);
    w := w.(s := Fold(w.s + b));
    Line(run, 100, w, m);
    w := w.(c := Fold(w.c + b));
    Line(run, 110, w, m);
    w := w.(j := w.j + 1, loopJ := if w.j < w.k then Open(71, w.k) else Closed);
  }

  /** Line 120. */
  lemma CheckLines(run: Execution, v: Vars, mem: seq<byte>) returns (w: Vars)
    requires At(run, 120, v, mem) && BodyKept(run.lost) && v.d < |run.stream|
    ensures w == v.(d := v.d + 1, x := run.stream[v.d]) && At(run, 140, w, mem)
  {
    hide Leads, Intact;
    Line(run, 120, v, mem);
    w := v.(d := v.d + 1, x := run.stream[v.d]);
  }

  /** The first `i` bytes of a payload have been copied to `at` and added to both sums. */
  ghost predicate Copied(mem: seq<byte>, at: nat, payload: seq<byte>, head: nat, before: nat, i: nat, m: seq<byte>,
                         c: int, s: int)
  {
    && i <= |payload| && at + |payload| <= |mem| == MEMORY && m == Splice(mem, at, payload[..i])
    && c == (head + Sum(payload[..i])) % 256 && s == (before + Sum(payload[..i])) % 256
  }

  lemma CopiedNone(mem: seq<byte>, at: nat, payload: seq<byte>, head: nat, before: nat)
    requires |mem| == MEMORY && at + |payload| <= MEMORY && head < 768
    ensures Copied(mem, at, payload, head, before, 0, mem, Fold(Fold(head)), before % 256)
  {
    NothingPoked(mem, at, payload);
  }

  lemma CopiedMore(mem: seq<byte>, at: nat, payload: seq<byte>, head: nat, before: nat, i: nat, m: seq<byte>, c: int,
                   s: int)
    requires Copied(mem, at, payload, head, before, i, m, c, s) && i < |payload|
    ensures |m| == MEMORY && at + i < MEMORY
    ensures Copied(mem, at, payload, head, before, i + 1, m[at + i := payload[i]], Fold(c + payload[i]),
                   Fold(s + payload[i]))
  {
    hide Sum, Splice;
    SumOne(payload, i);
    SpliceOneMore(mem, m, at, payload, i);
    ConditionalSubtract(c, head + Sum(payload[..i]), payload[i]);
    ConditionalSubtract(s, before + Sum(payload[..i]), payload[i]);
  }

  lemma CopiedAll(mem: seq<byte>, r: Record, before: nat, m: seq<byte>, c: int, s: int)
    requires Loadable(r)
    requires Copied(mem, RecordRun(r).addr, r.payload, r.al as int + r.ah as int + |r.payload|, before, |r.payload|,
                    m, c, s)
    ensures m == Splice(mem, RecordRun(r).addr, r.payload) && 0 <= c < 256 && s == (before + Sum(r.payload)) % 256
    ensures c == r.check <==> CheckOk(r)
  {
    hide Sum, Splice;
    assert r.payload[..|r.payload|] == r.payload;
  }

  /** One record of the generated program, lines 40 to 130: POKEs the payload and keeps the
      record checksum and the total by conditional subtraction. The loop is what the lines
      do: `v` and `w` are the program's variables before and after. */
  method LoadRecord(stream: seq<byte>, d0: nat, mem: seq<byte>, s0: byte, p0: nat, ghost r: Record, ghost before: nat,
                    ghost run: Execution, ghost v: Vars)
    returns (d: nat, m: seq<byte>, s: byte, p: nat, check: byte, x: byte, ghost w: Vars)
    requires |mem| == MEMORY && Loadable(r) && d0 + |r.payload| + 4 <= |stream|
    requires stream[d0] == r.al && stream[d0 + 1] == r.ah && stream[d0 + 2] == |r.payload|
    requires stream[d0 + 3..d0 + 3 + |r.payload|] == r.payload && stream[d0 + 3 + |r.payload|] == r.check
    requires s0 as int == before % 256
    requires At(run, 40, v, mem) && BodyKept(run.lost) && run.stream == stream
    requires v.d == d0 && v.s == s0 && v.p == p0
    ensures d == d0 + |r.payload| + 4 && m == Splice(mem, RecordRun(r).addr, r.payload)
    ensures p == p0 + |r.payload| && s as int == (before + Sum(r.payload)) % 256
    ensures check == x <==> CheckOk(r)
    ensures At(run, 140, w, m) && w.d == d && w.s == s && w.p == p && w.c == check && w.x == x
    ensures w.r == v.r && w.n == v.n && w.loopR == v.loopR
  {
    hide Sum, Splice, CheckOk, At, Fold, Copied;
    ghost var body, at := stream[d0 + 3..d0 + 3 + |r.payload|], RecordRun(r).addr;
    ghost var head := r.al as int + r.ah as int + |r.payload|;
    w := HeadLines(run, v, mem);
    var al, ah, k := stream[d0], stream[d0 + 1], stream[d0 + 2];
    d := d0 + 3;
    var a: nat := al as int + 256 * ah as int;
    var c: int := Fold(Fold(al as int + ah as int + k as int));
    var sum: int := s0;
    m, p := mem, p0;
    var j: nat := 1;
    CopiedNone(mem, at, r.payload, head, before);
    while j <= k as int
      invariant 1 <= j <= |r.payload| + 1 && d == d0 + 2 + j && a == at + (j - 1) && p == p0 + (j - 1)
      invariant Copied(mem, at, r.payload, head, before, j - 1, m, c, sum)
      invariant At(run, if j <= k as int then 80 else 120, w, m)
      invariant j <= k as int ==> w.loopJ == Open(71, w.k)
      invariant w.d == d && w.s == sum && w.p == p && w.c == c && w.a == a && w.j == j && w.k == k as int
      invariant w.r == v.r && w.n == v.n && w.loopR == v.loopR
    {
      assert stream[d0 + 3 + (j - 1)] == body[j - 1] == r.payload[j - 1];
      CopiedMore(mem, at, r.payload, head, before, j - 1, m, c, sum);
      var b := stream[d];
      w := ByteLines(run, w, m);
      m := m[a := b];
      d, a, p := d + 1, a + 1, p + 1;
      sum := Fold(sum + b);
      c := Fold(c + b);
      j := j + 1;
    }
    CopiedAll(mem, r, before, m, c, sum);
    check, x, s := c, stream[d], sum;
    w := CheckLines(run, w, m);
    d := d + 1;
  }

  lemma StartOfLoad(mem: seq<byte>, rs: seq<Record>)
    requires |mem| == MEMORY
    ensures EncodeAll(rs[..0]) == [] && Payloads(rs[..0]) == [] && Sum([]) == 0 && Poked(mem, RunsOf(rs[..0])) == mem
  {
  }

  lemma VerdictStep(rs: seq<Record>, i: nat, n: int, t: byte, lost: set<int>)
    requires i <= |rs|
    ensures i < |rs| ==> Verdict(rs, i, n, t, lost) ==
                         if 140 in lost || CheckOk(rs[i]) then Verdict(rs, i + 1, n, t, lost) else RecordStop(i + 1)
    ensures i == |rs| ==> Verdict(rs, i, n, t, lost) ==
                          LastChecks(|Payloads(rs)|, n, Sum(Payloads(rs)) % 256, t as int, lost)
  {
  }

  /** The checks of size and total. */
  function LastChecks(p: int, n: int, s: int, t: int, lost: set<int>): Outcome {
    if 170 !in lost && p != n then SizeStop else if 190 !in lost && s != t then TotalStop else Loaded
  }

  /** Lines 0 to 30. Without line 10 the variables stay 0, and without line 30 no loop is open. */
  lemma FirstLines(run: Execution, mem: seq<byte>, l: nat, n: nat) returns (w: Vars)
    requires Intact(run.prog, run.lost) && BodyKept(run.lost) && |mem| == MEMORY && run.start == Start(mem)
    requires 10 in run.prog && if 10 in run.lost then Passive(run.prog[10]) else run.prog[10] == SetUp(l, n)
    ensures At(run, 40, w, mem)
    ensures var v := if 10 in run.lost then ZERO else ZERO.(l := l, n := n);
            w == if 30 in run.lost then v else v.(r := 1, loopR := Open(31, v.l))
  {
    hide Leads, LoaderLine;
    NoStep(run.prog, run.stream, run.start);
    Walk(run.prog, run.stream, run.start, 0, 10, ZERO, mem);
    Advance(run.prog, run.lost, run.stream, run.start, 10, ZERO, mem);
    w := if 10 in run.lost then ZERO else ZERO.(l := l, n := n);
    if 30 in run.lost {
      LostLine(run, 30, w, mem);
    } else {
      assert LoaderLine(30) == ForR by { ForRLine(); }
      Line(run, 30, w, mem);
      w := w.(r := 1, loopR := Open(31, w.l));
    }
  }

  lemma ForRLine()
    ensures LoaderLine(30) == ForR
  {
  }

  /** Line 140: a wrong checksum stops the run. */
  lemma CheckLine(run: Execution, v: Vars, mem: seq<byte>)
    requires At(run, 140, v, mem)
    ensures if v.c != v.x && 140 !in run.lost then Leads(run.prog, run.stream, run.start, Halted(RecordStop(v.r), mem))
            else At(run, 150, v, mem)
  {
    hide Leads, Intact;
    if 140 in run.lost {
      LostLine(run, 140, v, mem);
    } else {
      Line(run, 140, v, mem);
    }
  }

  /** Line 150: the next record or line 160 follows; without a loop it is an error. */
  lemma NextLine(run: Execution, v: Vars, mem: seq<byte>) returns (w: Vars)
    requires At(run, 150, v, mem) && 150 !in run.lost && (v.loopR.Open? ==> v.loopR.line == 31)
    ensures v.loopR.Closed? ==> Leads(run.prog, run.stream, run.start, Halted(Fault, mem))
    ensures v.loopR.Open? && v.r < v.loopR.limit ==> w == v.(r := v.r + 1, loopJ := Closed) && At(run, 40, w, mem)
    ensures v.loopR.Open? && v.r >= v.loopR.limit ==>
              w == v.(r := v.r + 1, loopR := Closed, loopJ := Closed) && At(run, 160, w, mem)
  {
    hide Leads, Intact;
    Line(run, 150, v, mem);
    w := v;
    if v.loopR.Open? {
      w := v.(r := v.r + 1, loopR := if v.r < v.loopR.limit then v.loopR else Closed, loopJ := Closed);
    }
  }

  /** Lines 160 to the end. */
  lemma LastLines(run: Execution, v: Vars, mem: seq<byte>)
    requires At(run, 160, v, mem) && 160 !in run.lost && v.d < |run.stream|
    ensures Leads(run.prog, run.stream, run.start,
                  Halted(AtEnd(run.prog, LastChecks(v.p, v.n, v.s, run.stream[v.d] as int, run.lost)), mem))
  {
    hide Leads, Intact;
    Line(run, 160, v, mem);
    var w := v.(d := v.d + 1, t := run.stream[v.d]);
    if 170 in run.lost {
      LostLine(run, 170, w, mem);
    } else {
      Line(run, 170, w, mem);
    }
    if 170 in run.lost || w.p == w.n {
      TotalLine(run, w, mem);
    }
  }

  lemma TotalLine(run: Execution, v: Vars, mem: seq<byte>)
    requires At(run, 190, v, mem)
    ensures Leads(run.prog, run.stream, run.start,
                  Halted(AtEnd(run.prog, if 190 !in run.lost && v.s != v.t then TotalStop else Loaded), mem))
  {
    hide Leads, LoaderLine;
    Advance(run.prog, run.lost, run.stream, run.start, 190, v, mem);
    if 190 in run.lost {
      Finish(run.prog, run.lost, run.stream, run.start, 200, v, mem);
    } else {
      assert LoaderLine(190) == StopOnTotal by { TotalIsLine(); }
      if v.s == v.t {
        Finish(run.prog, run.lost, run.stream, run.start, 200, v, mem);
      }
    }
  }

  lemma TotalIsLine()
    ensures LoaderLine(190) == StopOnTotal
  {
  }

  /** The first `r` records have been loaded. */
  ghost predicate LoadedSoFar(rs: seq<Record>, r: nat, mem: seq<byte>, d: nat, p: nat, s: int, m: seq<byte>)
    requires |mem| == MEMORY && AllLoadable(rs)
  {
    && r <= |rs| && |m| == MEMORY && m == Poked(mem, RunsOf(rs[..r]))
    && d == |EncodeAll(rs[..r])| && p == |Payloads(rs[..r])| && s == Sum(Payloads(rs[..r])) % 256
  }

  lemma OneMoreLoaded(rs: seq<Record>, r: nat, mem: seq<byte>, d: nat, p: nat, s: int, m: seq<byte>, t: byte,
                      stream: seq<byte>)
    requires |mem| == MEMORY && AllLoadable(rs) && r < |rs| && LoadedSoFar(rs, r, mem, d, p, s, m)
    requires stream == EncodeAll(rs) + [t]
    ensures s == Sum(Payloads(rs[..r])) % 256 && d + |rs[r].payload| + 4 <= |stream| && Loadable(rs[r]) && |m| == MEMORY
    ensures stream[d] == rs[r].al && stream[d + 1] == rs[r].ah && stream[d + 2] == |rs[r].payload|
    ensures stream[d + 3..d + 3 + |rs[r].payload|] == rs[r].payload && stream[d + 3 + |rs[r].payload|] == rs[r].check
    ensures LoadedSoFar(rs, r + 1, mem, d + |rs[r].payload| + 4, p + |rs[r].payload|,
                        (Sum(Payloads(rs[..r])) + Sum(rs[r].payload)) % 256,
                        Splice(m, RecordRun(rs[r]).addr, rs[r].payload))
  {
    hide Sum, Splice, Poked, RunsOf, Payloads, EncodeAll, Encode;
    RecordInStream(rs, r, t, stream);
    EncodedPrefix(rs, r);
    SumAppend(Payloads(rs[..r]), rs[r].payload);
    PokedOne(mem, rs, r);
  }

  lemma AllLoaded(rs: seq<Record>, mem: seq<byte>, d: nat, p: nat, s: int, m: seq<byte>)
    requires |mem| == MEMORY && AllLoadable(rs) && LoadedSoFar(rs, |rs|, mem, d, p, s, m)
    ensures m == Poked(mem, RunsOf(rs)) && d == |EncodeAll(rs)| && p == |Payloads(rs)| && s == Sum(Payloads(rs)) % 256
  {
    assert rs[..|rs|] == rs;
  }

  lemma NothingLoaded(rs: seq<Record>, mem: seq<byte>)
    requires |mem| == MEMORY && AllLoadable(rs)
    ensures LoadedSoFar(rs, 0, mem, 0, 0, 0, mem)
  {
    StartOfLoad(mem, rs);
  }

  /** The generated BASIC program, with at most its checks lost, over arbitrary records with
      arbitrary stated checksums: RUN ends as `Verdict` says, and when it ends well it has
      copied every record and jumps, if the jump has not been lost. */
  method RunLoader(l: nat, n: nat, stream: seq<byte>, mem: seq<byte>, ghost rs: seq<Record>, ghost total: byte,
                   prog: Listing, lost: set<int>)
    returns (outcome: Outcome, m: seq<byte>)
    requires |mem| == MEMORY && AllLoadable(rs) && rs != [] && l == |rs| && stream == EncodeAll(rs) + [total]
    requires Intact(prog, lost) && lost <= SPARE && 10 in prog && prog[10] == SetUp(l, n) && DataOf(prog) == stream
    ensures outcome == Verdict(rs, 0, n, total, lost)
    ensures outcome == Loaded ==> m == Poked(mem, RunsOf(rs))
    ensures Ends(prog, mem, AtEnd(prog, outcome), m)
  {
    hide Sum, Splice, Poked, RunsOf, Payloads, EncodeAll, Encode, Verdict, AllLoadable, Loadable, CheckOk, RecordRun,
      InMemory, At, Intact, Leads, DataOf, LoadedSoFar, BodyKept;
    var s: byte, p: nat, d: nat := 0, 0, 0;
    m := mem;
    NothingLoaded(rs, mem);
    OnlyChecks(lost);
    ghost var run := Execution(prog, lost, stream, Start(mem));
    ghost var v := FirstLines(run, mem, l, n);
    for r := 0 to l
      invariant LoadedSoFar(rs, r, mem, d, p, s, m)
      invariant Verdict(rs, 0, n, total, lost) == Verdict(rs, r, n, total, lost)
      invariant v.d == d && v.s == s && v.p == p && v.n == n
      invariant if r < l then v.r == r + 1 && v.loopR == Open(31, l) && At(run, 40, v, m) else At(run, 160, v, m)
    {
      OneMoreLoaded(rs, r, mem, d, p, s, m, total, stream);
      VerdictStep(rs, r, n, total, lost);
      var check, x;
      d, m, s, p, check, x, v := LoadRecord(stream, d, m, s, p, rs[r], Sum(Payloads(rs[..r])), run, v);
      CheckLine(run, v, m);
      if 140 !in lost && check != x {
        return RecordStop(r + 1), m;
      }
      v := NextLine(run, v, m);
    }
    AllLoaded(rs, mem, d, p, s, m);
    RunEnds(run, rs, total, n, v, m);
    outcome := LastChecks(p, n, s as int, stream[d] as int, lost);
  }

  lemma OnlyChecks(lost: set<int>)
    requires lost <= SPARE
    ensures BodyKept(lost) && 10 !in lost && 30 !in lost && 150 !in lost && 160 !in lost
  {
  }

  /** Behind the last record the program compares the size and the total. */
  lemma RunEnds(run: Execution, rs: seq<Record>, total: byte, n: nat, v: Vars, mem: seq<byte>)
    requires At(run, 160, v, mem) && 160 !in run.lost && AllLoadable(rs) && run.stream == EncodeAll(rs) + [total]
    requires v.d == |EncodeAll(rs)| && v.p == |Payloads(rs)| && v.s == Sum(Payloads(rs)) % 256 && v.n == n
    ensures v.d < |run.stream| && run.stream[v.d] == total
    ensures var outcome := LastChecks(v.p, n, v.s, total as int, run.lost);
            && outcome == Verdict(rs, |rs|, n, total, run.lost)
            && Leads(run.prog, run.stream, run.start, Halted(AtEnd(run.prog, outcome), mem))
  {
    hide Sum, Payloads, EncodeAll, At, Leads, Verdict;
    VerdictStep(rs, |rs|, n, total, run.lost);
    LastLines(run, v, mem);
  }

  /** How a run ends that has lost line 10, 30 or 150 and nothing else. */
  function OneLost(lost: set<int>, records: nat): Outcome {
    if 30 in lost then Fault else if 150 in lost && records == 1 then Loaded else SizeStop
  }

  /** A good end comes with the jump. */
  function Finally(outcome: Outcome, sys: int, noRun: bool): Outcome {
    if outcome == Loaded then Ending(sys, noRun) else outcome
  }

  /** Without line 10 `L` and `N` stay 0, without line 30 there is no loop for line 150 to go
      on with, and without line 150 nothing goes back. In each case the program loads the
      first record and no other. */
  method RunFirst(stream: seq<byte>, mem: seq<byte>, ghost rs: seq<Record>, ghost total: byte, ghost prog: Listing,
                  lost: set<int>)
    returns (m: seq<byte>)
    requires |mem| == MEMORY && AllLoadable(rs) && rs != [] && stream == EncodeAll(rs) + [total] && CheckOk(rs[0])
    requires total == Sum(Payloads(rs)) % 256 && DataOf(prog) == stream
    requires Intact(prog, lost) && FirstOnly(lost)
    requires 10 in prog && if 10 in lost then Passive(prog[10]) else prog[10] == SetUp(|rs|, |Payloads(rs)|)
    ensures m == Splice(mem, RecordRun(rs[0]).addr, rs[0].payload)
    ensures Ends(prog, mem, AtEnd(prog, OneLost(lost, |rs|)), m)
  {
    hide Sum, Splice, Payloads, EncodeAll, Encode, CheckOk, RecordRun, InMemory, At, Intact, Leads, DataOf, BodyKept,
      AllLoadable, Loadable, FirstOnly, RunsOf, OneLost;
    StartOfLoad(mem, rs);
    BodyIsKept(lost);
    FirstIsPart(rs);
    ghost var run := Execution(prog, lost, stream, Start(mem));
    ghost var v := FirstLines(run, mem, |rs|, |Payloads(rs)|);
    RecordInStream(rs, 0, total, stream);
    var d, s, p, check, x;
    d, m, s, p, check, x, v := LoadRecord(stream, 0, mem, 0, 0, rs[0], 0, run, v);
    AfterFirst(run, rs, total, v, m);
  }

  /** Lines 140 to the end behind the first record. */
  lemma AfterFirst(run: Execution, rs: seq<Record>, total: byte, v: Vars, mem: seq<byte>)
    requires At(run, 140, v, mem) && v.c == v.x && FirstOnly(run.lost)
    requires rs != [] && AllLoadable(rs) && run.stream == EncodeAll(rs) + [total] && total == Sum(Payloads(rs)) % 256
    requires v.d == |rs[0].payload| + 4 && v.p == |rs[0].payload| && v.s == Sum(rs[0].payload) % 256
    requires v.n == if 10 in run.lost then 0 else |Payloads(rs)|
    requires if 30 in run.lost then v.loopR.Closed?
             else v.loopR == Open(31, if 10 in run.lost then 0 else |rs|) && v.r == 1
    requires 10 in run.lost || 30 in run.lost || 150 in run.lost
    ensures Leads(run.prog, run.stream, run.start, Halted(AtEnd(run.prog, OneLost(run.lost, |rs|)), mem))
  {
    hide At, Leads, Sum, Payloads, EncodeAll, AllLoadable, FirstOnly;
    BodyIsKept(run.lost);
    FirstIsPart(rs);
    CheckLine(run, v, mem);
    if 150 in run.lost {
      LostLine(run, 150, v, mem);
      LastLines(run, v, mem);
    } else {
      var w := NextLine(run, v, mem);
      if 30 !in run.lost {
        LastLines(run, w, mem);
      }
    }
  }

  lemma BodyIsKept(lost: set<int>)
    requires FirstOnly(lost)
    ensures BodyKept(lost) && (forall x | x in lost :: x < 130 || x == 150) && (10 in lost ==> 30 !in lost)
    ensures 150 in lost ==> 10 !in lost && 30 !in lost
    ensures 10 in lost || 30 in lost || 150 in lost
  {
  }

  /** The first record is not empty, and it is everything if there is no other. */
  lemma FirstIsPart(rs: seq<Record>)
    requires rs != [] && AllLoadable(rs)
    ensures Loadable(rs[0]) && 0 < |rs[0].payload| <= |Payloads(rs)|
            && (|rs[0].payload| == |Payloads(rs)| <==> |rs| == 1)
    ensures |rs| == 1 ==> Payloads(rs) == rs[0].payload && |EncodeAll(rs)| == |rs[0].payload| + 4
    ensures |rs[0].payload| + 4 <= |EncodeAll(rs)|
  {
    hide Sum, Encode, Payloads, EncodeAll;
    PayloadsGrow(rs, 1);
    EncodedPrefix(rs, 0);
    EncodedPrefix(rs, 1);
    EncodeParts(rs[0]);
    NoRecords(rs);
  }

  lemma NoRecords(rs: seq<Record>)
    requires rs != []
    ensures EncodeAll(rs[..0]) == [] && Payloads(rs[..0]) == [] && (|rs| == 1 ==> rs[..1] == rs)
  {
  }

  lemma {:induction false} PayloadsGrow(rs: seq<Record>, i: nat)
    requires AllLoadable(rs) && i <= |rs|
    ensures |Payloads(rs[..i])| + |rs| - i <= |Payloads(rs)|
    decreases |rs|
  {
    var n := |rs| - 1;
    if i == |rs| {
      assert rs[..i] == rs;
    } else {
      assert rs[..n][..i] == rs[..i] && Loadable(rs[n]);
      PayloadsGrow(rs[..n], i);
    }
  }

  // ------------------------------------------------------------------- the generator

  function RecordOf(r: Run): Record {
    var al, ah := Lo(r.addr), Hi(r.addr);
    Record(al, ah, r.data, (al as int + ah as int + |r.data| + Sum(r.data)) % 256)
  }

  function RecordsOf(runs: seq<Run>): (rs: seq<Record>)
    ensures |rs| == |runs|
  {
    seq(|runs|, i requires 0 <= i < |runs| => RecordOf(runs[i]))
  }

  datatype GenError =
    | EmptyInput | LoadAddress | SysAddress | TooBig | BytesPerLine | MinSkip | FillRange | LineStep
    | NothingLeft | NoData | LineNumbers

  datatype Options = Options(addr: int, perLine: int, fill: int, minSkip: int, dropVectors: bool, lineStart: int,
                             lineStep: int, noRun: bool)

  /** The number of DATA line `i`. */
  function LineNo(o: Options, i: nat): int { o.lineStart + o.lineStep * i }

  /** The DATA lines: one for each record and one for the total. */
  function DataLines(rs: seq<Record>, o: Options): (lines: seq<Numbered>)
    requires AllLoadable(rs)
    ensures |lines| == |rs| + 1
  {
    seq(|rs| + 1, i requires 0 <= i <= |rs| =>
      Numbered(LineNo(o, i), Data(if i < |rs| then Encode(rs[i]) else [Sum(Payloads(rs)) % 256])))
  }

  /** The program's lines whose numbers the DATA lines of `count` records have. */
  function Lost(o: Options, count: nat): set<int> {
    set i: nat | i <= count && InProgram(LineNo(o, i), o.noRun) :: LineNo(o, i)
  }

  /** The DATA lines of `count` records have line numbers, and none of the program's. */
  predicate LinesClear(o: Options, count: nat) { o.lineStart >= 0 && Lost(o, count) == {} }

  /** Line 10, 30 or 150 is lost, and nothing else. */
  predicate FirstOnly(lost: set<int>) { lost == {10} || lost == {30} || lost == {150} }

  predicate ValidOptions(o: Options, size: nat) {
    && 0 <= o.addr && o.addr + size <= MEMORY && 1 <= o.perLine <= 24 && o.minSkip >= 1 && 0 <= o.fill < 256
    && o.lineStep > 0
  }

  /** The bytes that are to be loaded. */
  function Image(data: seq<byte>, o: Options): (image: seq<byte>)
    requires o.addr >= 0
    ensures image <= data
  {
    if o.dropVectors then MaybeDropVectors(data, o.addr) else data
  }

  /** The records of a valid image: short pieces of it that cover exactly what is not
      skipped. */
  ghost predicate Chunked(chunks: seq<Run>, data: seq<byte>, o: Options)
    requires ValidOptions(o, |data|)
  {
    && Faithful(chunks, Image(data, o), o.addr)
    && Emitted(chunks, Image(data, o), o.addr, o.fill, o.minSkip, |Image(data, o)|)
    && forall i: nat :: i < |chunks| ==> |chunks[i].data| <= o.perLine
  }

  method Generate(data: seq<byte>, sys: int, o: Options)
    returns (r: Result<seq<Numbered>, GenError>, ghost chunks: seq<Run>)
    ensures r.Ok? <==>
              && data != [] && 0 <= sys < MEMORY && ValidOptions(o, |data|) && Image(data, o) != []
              && chunks != [] && LineNo(o, |chunks|) <= LAST_LINE
    ensures r.Err? ==>
              r.error ==
              if data == [] then EmptyInput
              else if o.addr < 0 || o.addr > 0xFFFF then LoadAddress
              else if sys < 0 || sys > 0xFFFF then SysAddress
              else if o.addr + |data| > 0x10000 then TooBig
              else if o.perLine < 1 || o.perLine > 24 then BytesPerLine
              else if o.minSkip < 1 then MinSkip
              else if o.fill < 0 || o.fill > 0xFF then FillRange
              else if o.lineStep < 1 then LineStep
              else if Image(data, o) == [] then NothingLeft
              else if chunks == [] then NoData
              else LineNumbers
    ensures data == [] ==> r == Err(EmptyInput)
    ensures r.Ok? ==>
              && 0 <= sys <= 0xFFFF && 0 <= o.addr && o.addr + |data| <= 0x10000 && 1 <= o.perLine <= 24
              && o.minSkip >= 1 && 0 <= o.fill <= 0xFF && o.lineStep >= 1 && |r.value| >= 27
    ensures ValidOptions(o, |data|) && data != [] && 0 <= sys < MEMORY && Image(data, o) != [] ==>
              Chunked(chunks, data, o)
    ensures r.Ok? ==> var rs := RecordsOf(chunks);
              AllLoadable(rs) && r.value == File(|rs|, |Payloads(rs)|, sys, o.noRun, DataLines(rs, o))
  {
    hide Faithful, Emitted, Sum, Payloads, Covered, Image, Encode, LineNo, ProgramLines;
    chunks := [];
    if data == [] { return Err(EmptyInput), []; }
    if !(0 <= o.addr <= 65535) { return Err(LoadAddress), []; }
    if !(0 <= sys <= 65535) { return Err(SysAddress), []; }
    if o.addr + |data| > MEMORY { return Err(TooBig), []; }
    if !(1 <= o.perLine <= 24) { return Err(BytesPerLine), []; }
    if o.minSkip < 1 { return Err(MinSkip), []; }
    if !(0 <= o.fill <= 255) { return Err(FillRange), []; }
    if o.lineStep <= 0 { return Err(LineStep), []; }
    var image := Image(data, o);
    if image == [] { return Err(NothingLeft), []; }
    var runs := SplitSparseRuns(image, o.addr, o.fill, o.minSkip);
    var records := ChunkRuns(runs, o.perLine, image, o.addr);
    chunks := records;
    SameEmitted(runs, records, image, o.addr, o.fill, o.minSkip);
    if records == [] { return Err(NoData), chunks; }
    RecordsLoadable(records, image, o);
    var payload := JoinPayloads(records);
    var lines, lineNo := [], o.lineStart;
    ghost var rs := RecordsOf(records);
    FirstLineNo(o);
    for i := 0 to |records|
      invariant lineNo == LineNo(o, i) && (i > 0 ==> lineNo <= LAST_LINE)
      invariant lines == DataLines(rs, o)[..i]
    {
      lines := lines + [Numbered(lineNo, Data(Encode(RecordOf(records[i]))))];
      NextLineNo(o, i);
      lineNo := lineNo + o.lineStep;
      if lineNo > LAST_LINE {
        LaterLines(o, i + 1, |records|);
        return Err(LineNumbers), chunks;
      }
    }
    lines := lines + [Numbered(lineNo, Data([Sum(payload) % 256]))];
    assert lines == DataLines(rs, o);
    return Ok(ProgramLines(|records|, |payload|, sys, o.noRun) + lines), chunks;
  }

  /** The emitted bytes, which are counted and summed. */
  method JoinPayloads(records: seq<Run>) returns (payload: seq<byte>)
    ensures payload == Payloads(RecordsOf(records))
  {
    hide Sum;
    payload := [];
    ghost var rs := RecordsOf(records);
    for i := 0 to |records|
      invariant payload == Payloads(rs[..i])
    {
      assert rs[..i + 1][..i] == rs[..i];
      payload := payload + records[i].data;
    }
    assert rs[..|records|] == rs;
  }

  lemma FirstLineNo(o: Options)
    ensures LineNo(o, 0) == o.lineStart
  {
  }

  lemma NextLineNo(o: Options, i: nat)
    ensures LineNo(o, i + 1) == LineNo(o, i) + o.lineStep
  {
  }

  lemma LaterLines(o: Options, i: nat, n: nat)
    requires o.lineStep > 0 && i <= n
    ensures LineNo(o, i) <= LineNo(o, n) && (i < n ==> LineNo(o, i) < LineNo(o, n))
  {
  }

  /** The DATA lines ascend, and their values are the records and the total. */
  lemma DataLinesRise(rs: seq<Record>, o: Options)
    requires AllLoadable(rs) && o.lineStep > 0 && LineNo(o, |rs|) <= LAST_LINE
    ensures Rising(DataLines(rs, o)) && Values(DataLines(rs, o)) == EncodeAll(rs) + [Sum(Payloads(rs)) % 256]
  {
    hide LineNo, Sum, Payloads, EncodeAll, Encode, Loadable, Rising, Values;
    var lines := DataLines(rs, o);
    NumbersRise(rs, o);
    RecordValues(rs, o, |rs|);
    assert rs[..|rs|] == rs && lines[..|lines| - 1] == lines[..|rs|];
    LastValues(lines);
  }

  lemma LastValues(data: seq<Numbered>)
    requires data != [] && forall i | 0 <= i < |data| :: data[i].stmt.Data?
    ensures Values(data) == Values(data[..|data| - 1]) + data[|data| - 1].stmt.values
  {
  }

  lemma NumbersRise(rs: seq<Record>, o: Options)
    requires AllLoadable(rs) && o.lineStep > 0 && LineNo(o, |rs|) <= LAST_LINE
    ensures Rising(DataLines(rs, o))
  {
    hide LineNo, Sum, Payloads, EncodeAll, Encode, Loadable;
    var lines := DataLines(rs, o);
    forall i | 0 <= i < |lines| ensures lines[i].stmt.values != [] && lines[i].no <= LAST_LINE {
      LaterLines(o, i, |rs|);
      if i < |rs| {
        EncodeParts(rs[i]);
      }
    }
    forall i, j | 0 <= i < j < |lines| ensures lines[i].no < lines[j].no {
      LaterLines(o, i, j);
    }
  }

  lemma {:induction false} RecordValues(rs: seq<Record>, o: Options, i: nat)
    requires AllLoadable(rs) && i <= |rs|
    ensures Values(DataLines(rs, o)[..i]) == EncodeAll(rs[..i])
    decreases i
  {
    hide LineNo, Sum, Payloads, Encode, Loadable;
    var lines := DataLines(rs, o);
    if i > 0 {
      RecordValues(rs, o, i - 1);
      assert lines[..i][..i - 1] == lines[..i - 1] && rs[..i][..i - 1] == rs[..i - 1];
    }
  }

  /** What BASIC holds after a generated file has been typed in: the program without the lines
      that DATA lines have replaced, and the DATA if they have line numbers. It is the whole
      program exactly if the DATA lines leave the program's line numbers alone. */
  lemma TypedIn(rs: seq<Record>, sys: int, o: Options)
    requires AllLoadable(rs) && rs != [] && o.lineStep > 0 && LineNo(o, |rs|) <= LAST_LINE
    ensures var (n, lost) := (|Payloads(rs)|, Lost(o, |rs|));
            var prog := Entered(File(|rs|, n, sys, o.noRun, DataLines(rs, o)));
            var stream := EncodeAll(rs) + [Sum(Payloads(rs)) % 256];
            && (Complete(prog, |rs|, n, stream, Ending(sys, o.noRun)) <==> LinesClear(o, |rs|))
            && AtEnd(prog, Loaded) == (if 210 in lost then Loaded else Ending(sys, o.noRun))
            && Intact(prog, lost) && (DataOf(prog) == stream <==> o.lineStart >= 0)
            && 10 in prog && if 10 in lost then Passive(prog[10]) else prog[10] == SetUp(|rs|, n)
  {
    hide LineNo, Sum, Payloads, EncodeAll, Encode, Loadable, Values, Entered, File, Intact, DataOf, Rising, InLoader,
      Complete, Lost, LostLines, AtEnd, InProgram;
    var data, n := DataLines(rs, o), |Payloads(rs)|;
    DataLinesRise(rs, o);
    FirstLineNo(o);
    CompleteIffClear(|rs|, n, sys, o.noRun, data);
    IntactButLost(|rs|, n, sys, o.noRun, data);
    DataOfFile(|rs|, n, sys, o.noRun, data);
    LostIsLost(rs, o);
  }

  lemma LostIsLost(rs: seq<Record>, o: Options)
    requires AllLoadable(rs)
    ensures LostLines(DataLines(rs, o), o.noRun) == Lost(o, |rs|)
  {
    hide LineNo, Sum, Payloads, Encode, Loadable, InLoader, InProgram;
    var data := DataLines(rs, o);
    forall x | x in Lost(o, |rs|) ensures x in LostLines(data, o.noRun) {
      var i: nat :| i <= |rs| && InProgram(LineNo(o, i), o.noRun) && x == LineNo(o, i);
      assert data[i].no == x;
    }
  }

  /** Nothing can go wrong from line 211 on, and the default start is 1000. */
  lemma LateLinesClear(o: Options, count: nat)
    requires o.lineStart > (if o.noRun then 190 else 210) && o.lineStep > 0
    ensures LinesClear(o, count)
  {
    hide LineNo;
    FirstLineNo(o);
    forall i: nat | i <= count ensures !InProgram(LineNo(o, i), o.noRun) {
      LaterLines(o, 0, i);
    }
  }

  /** One record with `--line-start 10 --line-step 10` loses line 10, and the total takes the
      place of line 20, which only prints. */
  lemma StartAtTen(o: Options)
    requires o.lineStart == 10 && o.lineStep == 10
    ensures Lost(o, 1) == {10}
  {
    hide LineNo;
    FirstLineNo(o);
    NextLineNo(o, 0);
    assert LineNo(o, 0) in Lost(o, 1);
  }

  lemma SameEmitted(runs: seq<Run>, chunks: seq<Run>, data: seq<byte>, base: nat, fill: byte, minSkip: nat)
    requires forall a: nat :: Covered(chunks, a) <==> Covered(runs, a)
    requires Emitted(runs, data, base, fill, minSkip, |data|)
    ensures Emitted(chunks, data, base, fill, minSkip, |data|)
  {
    hide Covered;
  }

  lemma RecordsLoadable(chunks: seq<Run>, image: seq<byte>, o: Options)
    requires 0 <= o.addr && o.addr + |image| <= MEMORY && Faithful(chunks, image, o.addr)
    requires 1 <= o.perLine <= 24 && forall i: nat :: i < |chunks| ==> |chunks[i].data| <= o.perLine
    ensures AllLoadable(RecordsOf(chunks)) && RunsOf(RecordsOf(chunks)) == chunks && InMemory(chunks)
    ensures forall i: nat :: i < |chunks| ==>
              Loadable(RecordOf(chunks[i])) && RecordsOf(chunks)[i] == RecordOf(chunks[i])
  {
    hide Loadable, RecordRun, RecordOf;
    forall i: nat | i < |chunks| ensures Loadable(RecordOf(chunks[i])) && RecordRun(RecordOf(chunks[i])) == chunks[i] {
      assert Piece(chunks[i], image, o.addr);
      RecordLoadable(chunks[i]);
    }
  }

  lemma RecordLoadable(r: Run)
    requires 1 <= |r.data| < 256 && End(r) <= MEMORY
    ensures Loadable(RecordOf(r)) && RecordRun(RecordOf(r)) == r
  {
    hide Sum;
  }

  /** The checksums of the generator are the ones that the program computes. */
  lemma VerdictOnGenerated(chunks: seq<Run>, lost: set<int>)
    ensures var rs := RecordsOf(chunks); Verdict(rs, 0, |Payloads(rs)|, Sum(Payloads(rs)) % 256, lost) == Loaded
  {
    hide Sum, Payloads, Verdict;
    var rs := RecordsOf(chunks);
    VerdictLoaded(rs, 0, |Payloads(rs)|, Sum(Payloads(rs)) % 256, lost);
  }

  lemma SpliceAt(s: seq<byte>, at: nat, p: seq<byte>, a: nat)
    requires at + |p| <= |s| && a < |s|
    ensures Splice(s, at, p)[a] == if at <= a < at + |p| then p[a - at] else s[a]
  {
  }

  /** Memory after the copy, address by address. */
  lemma {:induction false} PokedAt(mem: seq<byte>, runs: seq<Run>, data: seq<byte>, base: nat, a: nat)
    requires |mem| == MEMORY && Faithful(runs, data, base) && base + |data| <= MEMORY && InMemory(runs) && a < MEMORY
    ensures Covered(runs, a) ==> base <= a < base + |data|
    ensures Poked(mem, runs)[a] == if Covered(runs, a) then data[a - base] else mem[a]
    decreases |runs|
  {
    hide Splice;
    if runs != [] {
      var n := |runs| - 1;
      PokedAt(mem, runs[..n], data, base, a);
      assert Piece(runs[n], data, base) && End(runs[n]) <= MEMORY;
      SpliceAt(Poked(mem, runs[..n]), runs[n].addr, runs[n].data, a);
    }
  }

  /** Over memory filled with the filler byte, copying the records is copying the image. */
  lemma CopyIsImage(mem: seq<byte>, chunks: seq<Run>, data: seq<byte>, base: nat, fill: byte, minSkip: nat)
    requires |mem| == MEMORY && base + |data| <= MEMORY && InMemory(chunks)
    requires Faithful(chunks, data, base) && Emitted(chunks, data, base, fill, minSkip, |data|)
    requires forall a: nat :: base <= a < base + |data| ==> mem[a] == fill
    ensures Poked(mem, chunks) == Splice(mem, base, data)
  {
    hide Covered, Faithful, Poked;
    forall a: nat | a < MEMORY ensures Poked(mem, chunks)[a] == Splice(mem, base, data)[a] {
      PokedAt(mem, chunks, data, base, a);
    }
  }

  /** BASIC holds the program for these chunks. */
  ghost predicate Holds(prog: Listing, chunks: seq<Run>, end: Outcome) {
    var rs := RecordsOf(chunks);
    && AllLoadable(rs)
    && Complete(prog, |rs|, |Payloads(rs)|, EncodeAll(rs) + [Sum(Payloads(rs)) % 256], end)
  }

  lemma OwnCheckOk(chunks: seq<Run>)
    requires chunks != []
    ensures CheckOk(RecordsOf(chunks)[0])
  {
    hide Sum;
  }

  /** Running the loader over memory filled with the filler byte. */
  method RunHeld(prog: Listing, lost: set<int>, mem: seq<byte>, ghost chunks: seq<Run>, ghost image: seq<byte>,
                 ghost o: Options)
    returns (outcome: Outcome, m: seq<byte>)
    requires |mem| == MEMORY && AllLoadable(RecordsOf(chunks)) && chunks != [] && InMemory(chunks)
    requires Intact(prog, lost) && lost <= SPARE
    requires var (rs, n) := (RecordsOf(chunks), |Payloads(RecordsOf(chunks))|);
             10 in prog && prog[10] == SetUp(|rs|, n) && DataOf(prog) == EncodeAll(rs) + [Sum(Payloads(rs)) % 256]
    requires RunsOf(RecordsOf(chunks)) == chunks && 0 <= o.addr && o.addr + |image| <= MEMORY && 0 <= o.fill < 256
    requires o.minSkip >= 0
    requires Faithful(chunks, image, o.addr) && Emitted(chunks, image, o.addr, o.fill, o.minSkip, |image|)
    requires forall a: nat :: o.addr <= a < o.addr + |image| ==> mem[a] == o.fill
    ensures outcome == AtEnd(prog, Loaded) && m == Splice(mem, o.addr, image) && Ends(prog, mem, outcome, m)
  {
    hide Faithful, Emitted, Sum, Payloads, EncodeAll, Covered, Poked, Verdict, RecordsOf, RunsOf, Intact, Ends, Splice,
      DataOf, InMemory, AllLoadable;
    ghost var rs := RecordsOf(chunks);
    ghost var total := Sum(Payloads(rs)) % 256;
    VerdictOnGenerated(chunks, lost);
    CopyIsImage(mem, chunks, image, o.addr, o.fill, o.minSkip);
    outcome, m := RunLoader(prog[10].l, prog[10].n, DataOf(prog), mem, rs, total, prog, lost);
    outcome := AtEnd(prog, outcome);
  }

  /** Generating a loader, typing it in and running it. BASIC then holds the program exactly
      if the DATA lines leave its line numbers alone. The run is a plain copy of the image
      that changes nothing else and ends with the jump, as long as the DATA lines have line
      numbers and replace at most checks and the jump; without line 210 it ends without the
      jump. If they replace exactly line 10, 30 or 150, the run loads the first record and
      ends with an error, unless it is line 150 and there is only one record. */
  method LoadGenerated(data: seq<byte>, sys: int, o: Options, mem: seq<byte>)
    returns (r: Result<seq<Numbered>, GenError>, outcome: Outcome, m: seq<byte>, ghost chunks: seq<Run>)
    requires |mem| == MEMORY
    requires forall a: nat :: o.addr <= a < o.addr + |data| && a < MEMORY ==> mem[a] == o.fill
    ensures r.Ok? ==> ValidOptions(o, |data|) && Chunked(chunks, data, o) && InMemory(chunks) && chunks != []
    ensures r.Ok? ==> (LinesClear(o, |chunks|) <==> Holds(Entered(r.value), chunks, Ending(sys, o.noRun)))
    ensures r.Ok? && o.lineStart >= 0 && Lost(o, |chunks|) <= SPARE ==>
              && outcome == (if 210 in Lost(o, |chunks|) then Loaded else Ending(sys, o.noRun))
              && m == Splice(mem, o.addr, Image(data, o)) && Ends(Entered(r.value), mem, outcome, m)
    ensures r.Ok? && o.lineStart >= 0 && FirstOnly(Lost(o, |chunks|)) ==>
              && outcome == Finally(OneLost(Lost(o, |chunks|), |chunks|), sys, o.noRun)
              && m == Splice(mem, chunks[0].addr, chunks[0].data) && Ends(Entered(r.value), mem, outcome, m)
    ensures r.Err? ==> m == mem
  {
    hide Faithful, Emitted, Sum, Payloads, EncodeAll, Covered, RecordsOf, RunsOf, LinesClear, FirstOnly, Lost,
      Complete, Entered, Ends, Intact, LineNo, DataLines, Splice, Image, File, DataOf, AllLoadable, OneLost;
    r, chunks := Generate(data, sys, o);
    outcome, m := Loaded, mem;
    if r.Ok? {
      ghost var rs := RecordsOf(chunks);
      RecordsLoadable(chunks, Image(data, o), o);
      TypedIn(rs, sys, o);
      var prog, count: nat := Entered(r.value), |r.value| - 26;
      var lost := Lost(o, count);
      if o.lineStart >= 0 && FirstOnly(lost) {
        OwnCheckOk(chunks);
        NoneIsCheck(lost);
        m := RunFirst(DataOf(prog), mem, rs, Sum(Payloads(rs)) % 256, prog, lost);
        outcome := AtEnd(prog, OneLost(lost, count));
      } else if o.lineStart >= 0 && lost <= SPARE {
        outcome, m := RunHeld(prog, lost, mem, chunks, Image(data, o), o);
      }
    }
  }

  lemma NoneIsCheck(lost: set<int>)
    requires FirstOnly(lost)
    ensures !(lost <= SPARE) && 210 !in lost
  {
    assert 10 in lost || 30 in lost || 150 in lost;
  }
}
