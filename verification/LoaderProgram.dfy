/** The BASIC program that tools/bin_to_basic_loader_checksums.py generates: its numbered
    lines, what BASIC holds after they have been typed in, and its execution line by line. */
module LoaderProgram {
  import opened Bytes

  const MEMORY := 0x10000
  const LAST_LINE := 63999

  // ----------------------------------------------------------------------- lines

  /** The statements of a line. `Print` stands for lines that only print. */
  datatype Stmt =
    | Rem | Print | SetUp(l: nat, n: nat) | ForR | ReadHead | FoldCheck | ForJ | PokeByte | AddTotal | AddCheck
    | NextJ | ReadCheck | StopOnCheck | NextR | ReadTotal | StopOnSize | StopOnTotal | Sys(addr: int) | End
    | Data(values: seq<byte>)

  datatype Numbered = Numbered(no: int, stmt: Stmt)

  /** The program in memory, by line number. */
  type Listing = map<int, Stmt>

  predicate IsLineNumber(x: int) { 0 <= x <= LAST_LINE }

  /** A line typed in replaces the one with its number. A line without a line number, which
      is what a negative one is, is not stored. */
  function Enter(prog: Listing, ln: Numbered): Listing {
    if IsLineNumber(ln.no) then prog[ln.no := ln.stmt] else prog
  }

  function Entered(lines: seq<Numbered>): Listing {
    if lines == [] then map[] else Enter(Entered(lines[..|lines| - 1]), lines[|lines| - 1])
  }

  predicate Passive(s: Stmt) { s.Rem? || s.Print? || s.Data? }

  /** The values of the DATA lines below line `x`, in the order of the line numbers. */
  function DataBelow(prog: Listing, x: nat): seq<byte> {
    if x == 0 then []
    else DataBelow(prog, x - 1) + if x - 1 in prog && prog[x - 1].Data? then prog[x - 1].values else []
  }

  function DataOf(prog: Listing): seq<byte> { DataBelow(prog, LAST_LINE + 1) }

  /** The lines that load the records. */
  predicate InLoader(x: int) { x == 10 || (30 <= x <= 190 && x % 10 == 0 && x != 130 && x != 180) }

  /** The lines that do more than print: those of the loader and, unless `--no-run` is given,
      the jump behind it. */
  predicate InProgram(x: int, noRun: bool) { InLoader(x) || (x == 210 && !noRun) }

  /** The lines without which the records are still loaded: the checks and the jump. */
  const SPARE: set<int> := {140, 170, 190, 210}

  function LoaderLine(x: int): Stmt {
    if x == 30 then ForR
    else if x == 40 then ReadHead
    else if x == 50 || x == 60 then FoldCheck
    else if x == 70 then ForJ
    else if x == 80 then PokeByte
    else if x == 90 then AddTotal
    else if x == 100 then AddCheck
    else if x == 110 then NextJ
    else if x == 120 then ReadCheck
    else if x == 140 then StopOnCheck
    else if x == 150 then NextR
    else if x == 160 then ReadTotal
    else if x == 170 then StopOnSize
    else if x == 190 then StopOnTotal
    else Print
  }

  // ------------------------------------------------------------------- execution

  /** `Called` is the jump to the machine code, `Loaded` the end of the program without it. */
  datatype Outcome = Loaded | Called(addr: int) | RecordStop(r: int) | SizeStop | TotalStop | Fault

  datatype Loop = Closed | Open(line: int, limit: int)

  /** The variables, which start at 0, the DATA pointer and the open loops. */
  datatype Vars = Vars(l: int, n: int, s: int, p: int, r: int, a: int, c: int, k: int, j: int, b: int, x: int, t: int,
                       d: nat, loopR: Loop, loopJ: Loop)

  const ZERO := Vars(0, 0, 0, 0, 0, 0, 0, 0, 0, 0, 0, 0, 0, Closed, Closed)

  datatype State = Running(line: int, v: Vars, mem: seq<byte>) | Halted(outcome: Outcome, mem: seq<byte>)

  function Fold(x: int): int { if x > 255 then x - 256 else x }

  /** One line. A loop's body runs at least once; NEXT without FOR, READ past the last value
      and POKE outside the memory are errors. */
  function Exec(st: Stmt, line: int, v: Vars, mem: seq<byte>, stream: seq<byte>): State {
    var next := line + 1;
    match st
    case SetUp(l, n) => Running(next, v.(l := l, n := n, s := 0, p := 0), mem)
    case ForR => Running(next, v.(r := 1, loopR := Open(next, v.l), loopJ := Closed), mem)
    case ReadHead =>
      if v.d + 3 > |stream| then Halted(Fault, mem)
      else
        var (al, ah, k) := (stream[v.d] as int, stream[v.d + 1] as int, stream[v.d + 2] as int);
        Running(next, v.(d := v.d + 3, k := k, a := al + 256 * ah, c := al + ah + k), mem)
    case FoldCheck => Running(next, v.(c := Fold(v.c)), mem)
    case ForJ => Running(next, v.(j := 1, loopJ := Open(next, v.k)), mem)
    case PokeByte =>
      if v.d >= |stream| || !(0 <= v.a < |mem|) then Halted(Fault, mem)
      else Running(next, v.(d := v.d + 1, b := stream[v.d], a := v.a + 1, p := v.p + 1), mem[v.a := stream[v.d]])
    case AddTotal => Running(next, v.(s := Fold(v.s + v.b)), mem)
    case AddCheck => Running(next, v.(c := Fold(v.c + v.b)), mem)
    case NextJ =>
      if v.loopJ.Closed? then Halted(Fault, mem)
      else if v.j + 1 <= v.loopJ.limit then Running(v.loopJ.line, v.(j := v.j + 1), mem)
      else Running(next, v.(j := v.j + 1, loopJ := Closed), mem)
    case ReadCheck =>
      if v.d >= |stream| then Halted(Fault, mem) else Running(next, v.(d := v.d + 1, x := stream[v.d]), mem)
    case StopOnCheck => if v.c != v.x then Halted(RecordStop(v.r), mem) else Running(next, v, mem)
    case NextR =>
      if v.loopR.Closed? then Halted(Fault, mem)
      else if v.r + 1 <= v.loopR.limit then Running(v.loopR.line, v.(r := v.r + 1, loopJ := Closed), mem)
      else Running(next, v.(r := v.r + 1, loopR := Closed, loopJ := Closed), mem)
    case ReadTotal =>
      if v.d >= |stream| then Halted(Fault, mem) else Running(next, v.(d := v.d + 1, t := stream[v.d]), mem)
    case StopOnSize => if v.p != v.n then Halted(SizeStop, mem) else Running(next, v, mem)
    case StopOnTotal => if v.s != v.t then Halted(TotalStop, mem) else Running(next, v, mem)
    case Sys(addr) => Halted(Called(addr), mem)
    case End => Halted(Loaded, mem)
    case _ => Running(next, v, mem)
  }

  /** Line numbers that are not in use are skipped; the program ends after the last line. */
  function Step(prog: Listing, stream: seq<byte>, st: State): State {
    if st.Halted? then st
    else if st.line > LAST_LINE then Halted(Loaded, st.mem)
    else if st.line !in prog then st.(line := st.line + 1)
    else Exec(prog[st.line], st.line, st.v, st.mem, stream)
  }

  function Steps(prog: Listing, stream: seq<byte>, st: State, n: nat): State {
    if n == 0 then st else Step(prog, stream, Steps(prog, stream, st, n - 1))
  }

  /** Execution gets from `a` to `b`. */
  ghost predicate Leads(prog: Listing, stream: seq<byte>, a: State, b: State) {
    exists n: nat :: Steps(prog, stream, a, n) == b
  }

  function Start(mem: seq<byte>): State { Running(0, ZERO, mem) }

  /** RUN with this program and memory ends so. */
  ghost predicate Ends(prog: Listing, mem: seq<byte>, outcome: Outcome, m: seq<byte>) {
    Leads(prog, DataOf(prog), Start(mem), Halted(outcome, m))
  }

  /** A run ends in at most one way. */
  lemma EndsOnce(prog: Listing, mem: seq<byte>, o1: Outcome, m1: seq<byte>, o2: Outcome, m2: seq<byte>)
    requires Ends(prog, mem, o1, m1) && Ends(prog, mem, o2, m2)
    ensures o1 == o2 && m1 == m2
  {
    hide DataOf, Step;
    var stream := DataOf(prog);
    var i: nat :| Steps(prog, stream, Start(mem), i) == Halted(o1, m1);
    var j: nat :| Steps(prog, stream, Start(mem), j) == Halted(o2, m2);
    StaysHalted(prog, stream, Start(mem), i, if i < j then j else i);
    StaysHalted(prog, stream, Start(mem), j, if i < j then j else i);
  }

  lemma {:induction false} StaysHalted(prog: Listing, stream: seq<byte>, a: State, i: nat, j: nat)
    requires i <= j && Steps(prog, stream, a, i).Halted?
    ensures Steps(prog, stream, a, j) == Steps(prog, stream, a, i)
    decreases j
  {
    hide Exec;
    if i < j {
      StaysHalted(prog, stream, a, i, j - 1);
    }
  }

  lemma NoStep(prog: Listing, stream: seq<byte>, a: State)
    ensures Leads(prog, stream, a, a)
  {
    assert Steps(prog, stream, a, 0) == a;
  }

  lemma OneStep(prog: Listing, stream: seq<byte>, a: State, b: State)
    requires Leads(prog, stream, a, b)
    ensures Leads(prog, stream, a, Step(prog, stream, b))
  {
    hide Step;
    var n: nat :| Steps(prog, stream, a, n) == b;
    assert Steps(prog, stream, a, n + 1) == Step(prog, stream, b);
  }

  /** Nothing happens on the way from line `x` to line `y`. */
  lemma {:induction false} Walk(prog: Listing, stream: seq<byte>, a: State, x: int, y: int, v: Vars, mem: seq<byte>)
    requires 0 <= x <= y <= LAST_LINE + 1 && forall z | x <= z < y && z in prog :: Passive(prog[z])
    requires Leads(prog, stream, a, Running(x, v, mem))
    ensures Leads(prog, stream, a, Running(y, v, mem))
    decreases y - x
  {
    hide Leads;
    if x < y {
      OneStep(prog, stream, a, Running(x, v, mem));
      Walk(prog, stream, a, x + 1, y, v, mem);
    }
  }

  /** The loader's lines from 30 on are in place, up to those in `lost`, which have no effect,
      and no other line interferes with them. */
  ghost predicate Intact(prog: Listing, lost: set<int>) {
    && (forall x | 30 <= x <= 190 && InLoader(x) ::
          x in prog && if x in lost then Passive(prog[x]) else prog[x] == LoaderLine(x))
    && (forall x | x in prog && x < 200 && !InLoader(x) :: Passive(prog[x]))
    && (forall x | x in prog && x >= 200 ::
          Passive(prog[x]) || (x == 210 && prog[x].Sys?) || (x > 210 && prog[x].End?))
  }

  /** The next loader line. */
  function NextInLoader(z: int): int {
    if z <= 30 then 30
    else if 120 < z <= 140 then 140
    else if 170 < z <= 190 then 190
    else (z + 9) / 10 * 10
  }

  /** Ahead to the next loader line. */
  function Settled(st: State): State {
    if st.Running? && 10 < st.line <= 191 then st.(line := NextInLoader(st.line)) else st
  }

  /** A loader line has its effect, and execution goes on at the next one. */
  lemma Advance(prog: Listing, lost: set<int>, stream: seq<byte>, a: State, x: int, v: Vars, mem: seq<byte>)
    requires Intact(prog, lost) && InLoader(x) && x in prog && Leads(prog, stream, a, Running(x, v, mem))
    ensures Leads(prog, stream, a, Settled(Exec(prog[x], x, v, mem, stream)))
  {
    hide Leads, Exec, LoaderLine;
    OneStep(prog, stream, a, Running(x, v, mem));
    var st := Exec(prog[x], x, v, mem, stream);
    if st.Running? && 10 < st.line <= 191 {
      Walk(prog, stream, a, st.line, NextInLoader(st.line), st.v, st.mem);
    }
  }

  /** A run that ends well jumps to the machine code, if the jump is there. */
  function AtEnd(prog: Listing, outcome: Outcome): Outcome {
    if outcome == Loaded && 210 in prog && prog[210].Sys? then Called(prog[210].addr) else outcome
  }

  /** Behind the loader the program jumps or ends. */
  lemma {:induction false} Finish(prog: Listing, lost: set<int>, stream: seq<byte>, a: State, x: int, v: Vars,
                                  mem: seq<byte>)
    requires Intact(prog, lost) && 200 <= x <= LAST_LINE + 1 && Leads(prog, stream, a, Running(x, v, mem))
    ensures Leads(prog, stream, a, Halted(if x <= 210 then AtEnd(prog, Loaded) else Loaded, mem))
    decreases LAST_LINE + 1 - x
  {
    hide Leads, LoaderLine;
    OneStep(prog, stream, a, Running(x, v, mem));
    if x <= LAST_LINE && (x in prog ==> Passive(prog[x])) {
      Finish(prog, lost, stream, a, x + 1, v, mem);
    }
  }

  // -------------------------------------------------------------- typing it in

  /** The numbers of the program's own lines. */
  function ProgramNo(i: nat): int { if i < 3 then i + 1 else 10 * (i - 2) }

  function ProgramStmt(no: int, l: nat, n: nat, sys: int, noRun: bool): Stmt {
    if no == 10 then SetUp(l, n)
    else if InLoader(no) then LoaderLine(no)
    else if no <= 3 then Rem
    else if no == 210 && !noRun then Sys(sys)
    else if no == 220 then End
    else Print
  }

  /** The lines that come before the DATA lines. */
  function ProgramLines(l: nat, n: nat, sys: int, noRun: bool): (lines: seq<Numbered>)
    ensures |lines| == 25
  {
    seq(25, i requires 0 <= i < 25 => Numbered(ProgramNo(i), ProgramStmt(ProgramNo(i), l, n, sys, noRun)))
  }

  /** DATA lines with ascending numbers. */
  ghost predicate Rising(data: seq<Numbered>) {
    && (forall i | 0 <= i < |data| :: data[i].stmt.Data? && data[i].stmt.values != [] && data[i].no <= LAST_LINE)
    && (forall i, j | 0 <= i < j < |data| :: data[i].no < data[j].no)
  }

  /** All values of DATA lines, and those of the lines that are stored. */
  function Values(data: seq<Numbered>): seq<byte>
    requires forall i | 0 <= i < |data| :: data[i].stmt.Data?
  {
    if data == [] then [] else Values(data[..|data| - 1]) + data[|data| - 1].stmt.values
  }

  function Stored(data: seq<Numbered>): seq<byte>
    requires forall i | 0 <= i < |data| :: data[i].stmt.Data?
  {
    if data == [] then []
    else
      var last := data[|data| - 1];
      Stored(data[..|data| - 1]) + if IsLineNumber(last.no) then last.stmt.values else []
  }

  lemma {:induction false} StoredIsAll(data: seq<Numbered>)
    requires Rising(data)
    ensures |Stored(data)| <= |Values(data)|
    ensures data == [] || data[0].no >= 0 ==> Stored(data) == Values(data)
    ensures data != [] && data[0].no < 0 ==> |Stored(data)| < |Values(data)|
    decreases |data|
  {
    if data != [] {
      StoredIsAll(data[..|data| - 1]);
    }
  }

  /** A line is stored unless a later one has its number. */
  lemma {:induction false} EnteredLast(lines: seq<Numbered>, i: nat)
    requires i < |lines| && IsLineNumber(lines[i].no)
    requires forall j | i < j < |lines| :: lines[j].no != lines[i].no
    ensures lines[i].no in Entered(lines) && Entered(lines)[lines[i].no] == lines[i].stmt
    decreases |lines|
  {
    hide IsLineNumber;
    if i < |lines| - 1 {
      EnteredLast(lines[..|lines| - 1], i);
    }
  }

  lemma {:induction false} EnteredFrom(lines: seq<Numbered>, x: int) returns (i: nat)
    requires x in Entered(lines)
    ensures IsLineNumber(x) && i < |lines| && lines[i].no == x && Entered(lines)[x] == lines[i].stmt
    ensures forall j | i < j < |lines| :: lines[j].no != x
    decreases |lines|
  {
    hide IsLineNumber;
    var n := |lines| - 1;
    if IsLineNumber(lines[n].no) && lines[n].no == x {
      i := n;
    } else {
      i := EnteredFrom(lines[..n], x);
    }
  }

  ghost predicate NoDataFrom(prog: Listing, y: int) {
    forall x | x in prog && x >= y :: !prog[x].Data?
  }

  /** A DATA line behind all the others adds its values at the end, whatever it replaces. */
  lemma {:induction false} DataReplaced(prog: Listing, y: nat, values: seq<byte>, x: nat)
    requires NoDataFrom(prog, y)
    ensures DataBelow(prog[y := Data(values)], x) == DataBelow(prog, x) + if x <= y then [] else values
    decreases x
  {
    if x > 0 {
      DataReplaced(prog, y, values, x - 1);
    }
  }

  lemma {:induction false} NoDataBelow(prog: Listing, x: nat)
    requires NoDataFrom(prog, 0)
    ensures DataBelow(prog, x) == []
    decreases x
  {
    if x > 0 {
      NoDataBelow(prog, x - 1);
    }
  }

  lemma NoDataYet(program: seq<Numbered>)
    requires forall ln <- program :: !ln.stmt.Data?
    ensures NoDataFrom(Entered(program), 0)
  {
    forall x | x in Entered(program) ensures !Entered(program)[x].Data? {
      var i := EnteredFrom(program, x);
      assert program[i] in program;
    }
  }

  lemma Positive(lines: seq<Numbered>, y: int)
    requires y <= 0 && NoDataFrom(Entered(lines), 0)
    ensures NoDataFrom(Entered(lines), y)
  {
    forall x | x in Entered(lines) ensures x >= 0 {
      var _ := EnteredFrom(lines, x);
    }
  }

  /** READ sees the values of the stored DATA lines in the order of the lines. */
  lemma {:induction false} DataTyped(program: seq<Numbered>, data: seq<Numbered>)
    requires forall ln <- program :: !ln.stmt.Data?
    requires Rising(data)
    ensures DataOf(Entered(program + data)) == Stored(data)
    ensures NoDataFrom(Entered(program + data), if data == [] then 0 else data[|data| - 1].no + 1)
    decreases |data|
  {
    hide DataBelow, IsLineNumber, Entered;
    var lines := program + data;
    if data == [] {
      assert lines == program;
      NoDataYet(program);
      NoDataBelow(Entered(lines), LAST_LINE + 1);
    } else {
      var n := |data| - 1;
      DataTyped(program, data[..n]);
      assert lines[..|lines| - 1] == program + data[..n];
      EnteredMore(lines);
      if n == 0 && data[n].no < 0 {
        Positive(program + data[..n], data[n].no + 1);
      }
      OneMoreData(Entered(program + data[..n]), data, n);
    }
  }

  lemma EnteredMore(lines: seq<Numbered>)
    requires lines != []
    ensures Entered(lines) == Enter(Entered(lines[..|lines| - 1]), lines[|lines| - 1])
  {
  }

  lemma OneMoreData(prog: Listing, data: seq<Numbered>, n: nat)
    requires Rising(data) && |data| == n + 1 && DataOf(prog) == Stored(data[..n])
    requires NoDataFrom(prog, if n == 0 then if data[n].no < 0 then data[n].no + 1 else 0 else data[n - 1].no + 1)
    ensures DataOf(Enter(prog, data[n])) == Stored(data)
    ensures NoDataFrom(Enter(prog, data[n]), data[n].no + 1)
  {
    hide DataBelow;
    if IsLineNumber(data[n].no) {
      DataReplaced(prog, data[n].no, data[n].stmt.values, LAST_LINE + 1);
    }
  }

  /** The file: the program and the DATA lines, as they are typed in. */
  function File(l: nat, n: nat, sys: int, noRun: bool, data: seq<Numbered>): (lines: seq<Numbered>)
    ensures |lines| == 25 + |data|
  {
    ProgramLines(l, n, sys, noRun) + data
  }

  /** BASIC holds the whole program, which ends so, and reads these values. */
  ghost predicate Complete(prog: Listing, l: nat, n: nat, stream: seq<byte>, end: Outcome) {
    && Intact(prog, {}) && 10 in prog && prog[10] == SetUp(l, n) && DataOf(prog) == stream
    && AtEnd(prog, Loaded) == end
  }

  /** The lines of the program that DATA lines replace. */
  function LostLines(data: seq<Numbered>, noRun: bool): set<int> {
    set j | 0 <= j < |data| && InProgram(data[j].no, noRun) :: data[j].no
  }

  /** How the program is to end. */
  function Ending(sys: int, noRun: bool): Outcome { if noRun then Loaded else Called(sys) }

  lemma ProgramLineKept(l: nat, n: nat, sys: int, noRun: bool, data: seq<Numbered>, i: nat)
    requires i < 25 && forall j | 0 <= j < |data| :: data[j].no != ProgramNo(i)
    ensures var prog := Entered(File(l, n, sys, noRun, data));
            ProgramNo(i) in prog && prog[ProgramNo(i)] == ProgramStmt(ProgramNo(i), l, n, sys, noRun)
  {
    hide ProgramStmt;
    var lines := File(l, n, sys, noRun, data);
    assert lines[i] == Numbered(ProgramNo(i), ProgramStmt(ProgramNo(i), l, n, sys, noRun));
    forall j | i < j < |lines| ensures lines[j].no != lines[i].no {
      if j >= 25 {
        assert lines[j] == data[j - 25];
      }
    }
    EnteredLast(lines, i);
  }

  lemma DataLineKept(l: nat, n: nat, sys: int, noRun: bool, data: seq<Numbered>, j: nat)
    requires Rising(data) && j < |data| && data[j].no >= 0
    ensures var prog := Entered(File(l, n, sys, noRun, data)); data[j].no in prog && prog[data[j].no] == data[j].stmt
  {
    var lines := File(l, n, sys, noRun, data);
    assert lines[25 + j] == data[j];
    forall k | 25 + j < k < |lines| ensures lines[k].no != data[j].no {
      assert lines[k] == data[k - 25];
    }
    EnteredLast(lines, 25 + j);
  }

  /** Every stored line is a DATA line or a line of the program. */
  lemma StoredLine(l: nat, n: nat, sys: int, noRun: bool, data: seq<Numbered>, x: int)
    requires Rising(data) && x in Entered(File(l, n, sys, noRun, data))
    ensures var st := Entered(File(l, n, sys, noRun, data))[x]; st.Data? || st == ProgramStmt(x, l, n, sys, noRun)
    ensures x >= 0
  {
    hide ProgramStmt;
    var lines := File(l, n, sys, noRun, data);
    var i := EnteredFrom(lines, x);
    if i >= 25 {
      assert lines[i] == data[i - 25];
    }
  }

  /** After the file has been typed in, the loader's lines are in place but for those that
      DATA lines have replaced, and so is the jump. */
  lemma IntactButLost(l: nat, n: nat, sys: int, noRun: bool, data: seq<Numbered>)
    requires Rising(data)
    ensures var prog := Entered(File(l, n, sys, noRun, data));
            && Intact(prog, LostLines(data, noRun))
            && 10 in prog && (if 10 in LostLines(data, noRun) then Passive(prog[10]) else prog[10] == SetUp(l, n))
            && AtEnd(prog, Loaded) == if 210 in LostLines(data, noRun) then Loaded else Ending(sys, noRun)
  {
    hide LoaderLine, File, Entered;
    var prog := Entered(File(l, n, sys, noRun, data));
    forall x | InProgram(x, noRun)
      ensures x in prog
              && if x in LostLines(data, noRun) then Passive(prog[x]) else prog[x] == ProgramStmt(x, l, n, sys, noRun)
    {
      if x in LostLines(data, noRun) {
        var j :| 0 <= j < |data| && InProgram(data[j].no, noRun) && data[j].no == x;
        DataLineKept(l, n, sys, noRun, data, j);
      } else {
        assert ProgramNo(x / 10 + 2) == x;
        ProgramLineKept(l, n, sys, noRun, data, x / 10 + 2);
      }
    }
    forall x | x in prog ensures x >= 0 && (prog[x].Data? || prog[x] == ProgramStmt(x, l, n, sys, noRun)) {
      StoredLine(l, n, sys, noRun, data, x);
    }
  }

  lemma DataOfFile(l: nat, n: nat, sys: int, noRun: bool, data: seq<Numbered>)
    requires Rising(data) && data != []
    ensures DataOf(Entered(File(l, n, sys, noRun, data))) == Values(data) <==> data[0].no >= 0
  {
    hide DataOf, Entered, Values, Stored;
    DataTyped(ProgramLines(l, n, sys, noRun), data);
    StoredIsAll(data);
  }

  /** After typing in the file, BASIC holds the program if and only if the DATA lines have
      line numbers and none of them is the number of a line that does more than print. */
  lemma CompleteIffClear(l: nat, n: nat, sys: int, noRun: bool, data: seq<Numbered>)
    requires Rising(data) && data != []
    ensures Complete(Entered(File(l, n, sys, noRun, data)), l, n, Values(data), Ending(sys, noRun)) <==>
              data[0].no >= 0 && LostLines(data, noRun) == {}
  {
    hide DataOf, Entered, Values, LoaderLine, File, Intact, LostLines;
    var prog := Entered(File(l, n, sys, noRun, data));
    DataOfFile(l, n, sys, noRun, data);
    IntactButLost(l, n, sys, noRun, data);
    if LostLines(data, noRun) != {} {
      var x := SomeElement(LostLines(data, noRun));
      LostIsLine(data, noRun, x);
      if Intact(prog, {}) && 30 <= x <= 190 {
        NotBoth(prog, LostLines(data, noRun), x);
      }
    }
  }

  lemma SomeElement<T>(s: set<T>) returns (x: T)
    requires s != {}
    ensures x in s
  {
    x :| x in s;
  }

  lemma LostIsLine(data: seq<Numbered>, noRun: bool, x: int)
    requires x in LostLines(data, noRun)
    ensures InProgram(x, noRun)
  {
  }

  lemma NotBoth(prog: Listing, lost: set<int>, x: int)
    requires Intact(prog, {}) && Intact(prog, lost) && InLoader(x) && x != 10
    ensures x !in lost
  {
  }
}
