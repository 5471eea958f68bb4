/** The generated BASIC loader (tools/bin_to_basic_loader_checksums.py), line by line and byte
    by byte. */
module LoaderCases {
  import opened Bytes
  import opened LoaderProgram
  import opened SparseLoader

  /** With `--drop-vectors` exactly the bytes for addresses below FFFAh are left. */
  lemma VectorsDropped(data: seq<byte>, o: Options)
    requires ValidOptions(o, |data|)
    ensures Image(data, o.(dropVectors := false)) == data
    ensures var image := Image(data, o.(dropVectors := true));
            && image <= data && (image != [] ==> o.addr + |image| <= 0xFFFA)
            && (image != data ==> o.addr + |image| >= 0xFFFA)
  {
  }

  /** An address is covered if one of the runs has a byte for it. */
  lemma {:induction false} CoveredMeans(runs: seq<Run>, a: nat)
    ensures Covered(runs, a) <==> exists i: nat :: i < |runs| && runs[i].addr <= a < runs[i].addr + |runs[i].data|
  {
    if runs != [] {
      CoveredMeans(runs[..|runs| - 1], a);
    }
  }

  /** The lines of the program, as they are listed. */
  lemma Listed(l: nat, n: nat, sys: int)
    ensures ProgramLines(l, n, sys, false) ==
            [Numbered(1, Rem), Numbered(2, Rem), Numbered(3, Rem), Numbered(10, SetUp(l, n)), Numbered(20, Print),
             Numbered(30, ForR), Numbered(40, ReadHead), Numbered(50, FoldCheck), Numbered(60, FoldCheck),
             Numbered(70, ForJ), Numbered(80, PokeByte), Numbered(90, AddTotal), Numbered(100, AddCheck),
             Numbered(110, NextJ), Numbered(120, ReadCheck), Numbered(130, Print), Numbered(140, StopOnCheck),
             Numbered(150, NextR), Numbered(160, ReadTotal), Numbered(170, StopOnSize), Numbered(180, Print),
             Numbered(190, StopOnTotal), Numbered(200, Print), Numbered(210, Sys(sys)), Numbered(220, End)]
    ensures ProgramLines(l, n, sys, true) == ProgramLines(l, n, sys, false)[23 := Numbered(210, Print)]
  {
  }

  /** A checksum: congruent to the sum, and a byte. */
  ghost predicate Checksum(c: byte, address: nat, data: seq<byte>) {
    exists q: int :: c as int + 256 * q == address % 256 + address / 256 + |data| + Sum(data)
  }

  lemma ChecksumIs(c: byte, address: nat, data: seq<byte>)
    requires c as int == (address % 256 + address / 256 + |data| + Sum(data)) % 256
    ensures Checksum(c, address, data)
  {
    var t := address % 256 + address / 256 + |data| + Sum(data);
    assert c as int + 256 * (t / 256) == t;
  }

  /** The DATA line of a chunk: address, count, bytes and checksum. */
  lemma DataLine(chunks: seq<Run>, o: Options, i: nat)
    requires AllLoadable(RecordsOf(chunks)) && i < |chunks| && |chunks[i].data| < 256 && chunks[i].addr < 0x10000
    ensures var (ln, a, data) := (DataLines(RecordsOf(chunks), o)[i], chunks[i].addr, chunks[i].data);
            && ln.no == o.lineStart + o.lineStep * i && ln.stmt.Data? && |ln.stmt.values| == |data| + 4
            && ln.stmt.values[..3] == [a % 256, a / 256, |data|] && ln.stmt.values[3..|data| + 3] == data
            && Checksum(ln.stmt.values[|data| + 3], a, data)
  {
    hide Sum, AllLoadable, Checksum;
    var r := RecordOf(chunks[i]);
    assert Loadable(r) by { assert RecordsOf(chunks)[i] == r; LoadableAt(chunks, i); }
    var values := Encode(r);
    assert values == [r.al, r.ah, |r.payload|] + r.payload + [r.check];
    ChecksumIs(r.check, chunks[i].addr, chunks[i].data);
  }

  lemma LoadableAt(chunks: seq<Run>, i: nat)
    requires AllLoadable(RecordsOf(chunks)) && i < |chunks|
    ensures Loadable(RecordsOf(chunks)[i])
  {
    hide Loadable;
  }

  /** The bytes of all chunks. */
  function Emission(chunks: seq<Run>): seq<byte> {
    if chunks == [] then [] else chunks[0].data + Emission(chunks[1..])
  }

  lemma {:induction false} EmissionIs(chunks: seq<Run>)
    ensures Payloads(RecordsOf(chunks)) == Emission(chunks)
    decreases |chunks|
  {
    if chunks != [] {
      var rest := chunks[1..];
      EmissionIs(rest);
      assert RecordsOf(chunks) == [RecordOf(chunks[0])] + RecordsOf(rest);
      PayloadsFront(RecordOf(chunks[0]), RecordsOf(rest));
    }
  }

  lemma {:induction false} PayloadsFront(r: Record, rs: seq<Record>)
    ensures Payloads([r] + rs) == r.payload + Payloads(rs)
    decreases |rs|
  {
    var all := [r] + rs;
    if rs == [] {
      assert all[..0] == [] && Payloads([]) == [];
      assert all == [r];
    } else {
      var n := |rs| - 1;
      assert all[..|all| - 1] == [r] + rs[..n];
      PayloadsFront(r, rs[..n]);
    }
  }

  /** The last DATA line and line 10: the sum and the number of all bytes. */
  lemma TotalLine(chunks: seq<Run>, o: Options)
    requires AllLoadable(RecordsOf(chunks))
    ensures DataLines(RecordsOf(chunks), o)[|chunks|] ==
              Numbered(o.lineStart + o.lineStep * |chunks|, Data([Sum(Emission(chunks)) % 256]))
    ensures |Payloads(RecordsOf(chunks))| == |Emission(chunks)|
  {
    hide Sum, AllLoadable, Payloads;
    EmissionIs(chunks);
  }

  /** How a run over any records ends: at the first wrong record, then with a wrong size, then
      with a wrong total. */
  lemma {:induction false} VerdictStops(rs: seq<Record>, i: nat, n: int, t: byte, lost: set<int>)
    requires i <= |rs|
    ensures var stop := Verdict(rs, i, n, t, lost);
            && (stop.RecordStop? ==> 140 !in lost && i < stop.r <= |rs| && !CheckOk(rs[stop.r - 1])
                                     && forall j :: i <= j < stop.r - 1 ==> CheckOk(rs[j]))
            && (!stop.RecordStop? && 140 !in lost ==> forall j :: i <= j < |rs| ==> CheckOk(rs[j]))
            && (stop == SizeStop ==> 170 !in lost && |Payloads(rs)| != n)
            && (stop == TotalStop ==> 190 !in lost && Sum(Payloads(rs)) % 256 != t as int
                                      && (170 in lost || |Payloads(rs)| == n))
            && (stop.RecordStop? || stop in {SizeStop, TotalStop, Loaded})
    decreases |rs| - i
  {
    hide CheckOk, Payloads, Sum;
    if i < |rs| {
      VerdictStops(rs, i + 1, n, t, lost);
    }
  }

  /** A record is right if its checksum is congruent to the sum of its other bytes. */
  lemma CheckMeans(r: Record)
    ensures CheckOk(r) <==> Checksum(r.check, r.al as int + 256 * r.ah as int, r.payload)
  {
    hide Sum;
    var (a, t) := (r.al as int + 256 * r.ah as int, RecordSum(r));
    assert a % 256 == r.al as int && a / 256 == r.ah as int;
    if CheckOk(r) {
      ChecksumIs(r.check, a, r.payload);
    }
    if Checksum(r.check, a, r.payload) {
      var q: int :| r.check as int + 256 * q == t;
      assert t % 256 == r.check as int;
    }
  }

  /** What is an error when the program runs: reading behind the DATA, writing behind the
      memory, and going on with a loop that is not open. */
  lemma Faults(v: Vars, line: int, mem: seq<byte>, stream: seq<byte>)
    ensures v.d >= |stream| ==>
              forall st | st in {ReadHead, PokeByte, ReadCheck, ReadTotal} ::
                Exec(st, line, v, mem, stream) == Halted(Fault, mem)
    ensures v.a < 0 || v.a >= |mem| ==> Exec(PokeByte, line, v, mem, stream) == Halted(Fault, mem)
    ensures v.loopJ.Closed? ==> Exec(NextJ, line, v, mem, stream) == Halted(Fault, mem)
    ensures v.loopR.Closed? ==> Exec(NextR, line, v, mem, stream) == Halted(Fault, mem)
  {
  }
}
