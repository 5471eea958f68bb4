/** The channels of the virtual 1541 (tools/virtual_1541/c64_1541_uart_gui.py, class D64Drive
    and the commands of Protocol.handle_binary that use them). */
module VirtualDrive {
  import opened Bytes
  import opened D64Geometry
  import opened D64Readers
  import opened D64RoundTrip
  import opened D64Layout
  import opened D64Builder
  import opened DriveNames
  import opened DriveDirectory
  import opened DriveCommands
  import BasicLoader

  datatype Channel = Channel(data: seq<byte>, pos: nat)

  type Channels = map<nat, Channel>

  /** Channels and status of a drive with a mounted disk. */
  datatype State = State(channels: Channels, status: Status)

  const OK := Status(0, 0, 0)

  /** The result byte of the binary protocol. */
  datatype Code = StatusOk | NoDisk | NotFound | IoError | Eof

  /** The texts that go with error codes are left out. */
  datatype Reply = Reply(code: Code, data: seq<byte>)

  /** What an OPEN comes to: data for the channel, or a result and perhaps a new status. */
  datatype Opened = Opens(data: seq<byte>) | Fails(code: Code, status: Option<Status>)

  datatype Command =
    | Open(ch: nat, name: seq<byte>)
    | Close(ch: nat)
    | Read(ch: nat, size: nat)
    | Write(ch: nat, payload: seq<byte>)
    | Dos(payload: seq<byte>)

  function Masked(ch: nat): nat { ch % 16 }

  predicate Valid(m: Channels) {
    forall ch :: ch in m ==> m[ch].pos <= |m[ch].data|
  }

  function Clamp(at: int, n: nat): nat {
    if at < 0 then 0 else if at < n then at else n
  }

  predicate Mountable(img: seq<byte>) { |img| == D64_SIZE && Listing(img).Ok? }

  /** What an OPEN of this name comes to, on a mounted disk. */
  function OpenData(img: seq<byte>, name: seq<byte>): Opened
    requires Mountable(img)
  {
    var (entries, spec) := (Listing(img).value, ParseSpec(name));
    if spec.Buffer? then Opens(Zeros(SECTOR_SIZE))
    else if Writing(spec) then Fails(StatusOk, Some(Status(26, 0, 0)))
    else if IsDirectory(spec) then
      match Program(DirectoryLines(img, entries))
      case Some(data) => Opens(data)
      case None => Fails(IoError, None)
    else
      var i := Find(entries, Kinds(spec.kind), Target(spec));
      if i == |entries| then Fails(NotFound, Some(Status(62, 0, 0)))
      else
        match PrgFrom(img, entries[i].first, {}, [])
        case Ok(data) => Opens(data)
        case Err(_) => Fails(IoError, None)
  }

  /** A command of the command channel. */
  function DosStep(img: seq<byte>, s: State, command: string): (State, Code) {
    match ParseDos(command)
    case Nothing => (s, StatusOk)
    case Reset => (State(map[], OK), StatusOk)
    case Restart => (State(map[], Status(73, 0, 0)), StatusOk)
    case Validate => (s.(status := OK), StatusOk)
    case BlockRead(ch, track, sector) =>
      (match ReadSector(img, track, sector)
       case None => (s.(status := Status(66, track, sector)), IoError)
       case Some(data) => (State(s.channels[ch := Channel(data, 0)], Status(0, track, sector)), StatusOk))
    case Pointer(ch, at) =>
      var c := if ch in s.channels then s.channels[ch] else Channel(Zeros(SECTOR_SIZE), 0);
      (State(s.channels[ch := c.(pos := Clamp(at, |c.data|))], OK), StatusOk)
    case NoNumbers => (s.(status := Status(30, 0, 0)), IoError)
    case Protected => (s.(status := Status(26, 0, 0)), StatusOk)
    case Memory => (s.(status := Status(31, 0, 0)), StatusOk)
    case Unknown => (s.(status := Status(30, 0, 0)), StatusOk)
  }

  /** A successful command is answered with the status line. */
  function Answer(r: (State, Code)): (State, Reply) {
    (r.0, Reply(r.1, if r.1 == StatusOk then StatusLine(r.0.status) else []))
  }

  /** The effect of a command, and the reply of the binary protocol. Channel 15 is the command
      channel. */
  function Step(img: seq<byte>, s: State, c: Command): (State, Reply)
    requires Mountable(img)
  {
    match c
    case Open(ch, name) =>
      if Masked(ch) == 15 then
        Answer(DosStep(img, s.(channels := s.channels[15 := Channel([], 0)]), Unquoted(C64Name(name))))
      else (
        match OpenData(img, name)
        case Opens(data) => Answer((State(s.channels[Masked(ch) := Channel(data, 0)], OK), StatusOk))
        case Fails(code, status) => Answer((if status.Some? then s.(status := status.value) else s, code)))
    case Close(ch) => Answer((State(s.channels - {Masked(ch)}, OK), StatusOk))
    case Read(ch, size) =>
      var (m, k) := (s.channels, Masked(ch));
      if k == 15 then (s, Reply(StatusOk, StatusLine(s.status) + [13]))
      else if k !in m then (s.(status := Status(61, 0, 0)), Reply(NoDisk, []))
      else
        var (data, pos) := (m[k].data, m[k].pos);
        var out := Slice(data, pos, pos + size);
        (State(m[k := Channel(data, pos + |out|)],
               if out == [] && pos >= |data| then Status(64, 0, 0) else OK),
         Reply(if out == [] then Eof else StatusOk, out))
    case Write(ch, payload) =>
      if Masked(ch) == 15 then Answer(DosStep(img, s, C64Name(payload)))
      else Answer((s.(status := Status(26, 0, 0)), StatusOk))
    case Dos(payload) => Answer(DosStep(img, s, C64Name(payload)))
  }

  /** A mounted disk and its channels. */
  class Drive {
    const img: seq<byte>
    const entries: seq<Entry>
    var channels: Channels
    var status: Status

    constructor (img: seq<byte>, entries: seq<Entry>)
      requires |img| == D64_SIZE && Listing(img) == Ok(entries)
      ensures this.img == img && this.entries == entries && channels == map[] && status == OK
    {
      this.img, this.entries, channels, status := img, entries, map[], OK;
    }

    ghost predicate Mounted() { |img| == D64_SIZE && Listing(img) == Ok(entries) }

    function Now(): State
      reads this
    {
      State(channels, status)
    }

    function StatusReply(): Reply
      reads this
    {
      Reply(StatusOk, StatusLine(status))
    }

    method DosCommand(command: string) returns (code: Code)
      modifies this
      ensures (Now(), code) == DosStep(img, old(Now()), command)
    {
      hide ParseDos, ReadSector;
      code := StatusOk;
      match ParseDos(command)
      case Nothing =>
      case Reset => channels, status := map[], OK;
      case Restart => channels, status := map[], Status(73, 0, 0);
      case Validate => status := OK;
      case BlockRead(ch, track, sector) =>
        var data := ReadSector(img, track, sector);
        if data.None? {
          status := Status(66, track, sector);
          return IoError;
        }
        channels := channels[ch := Channel(data.value, 0)];
        status := Status(0, track, sector);
      case Pointer(ch, at) =>
        if ch !in channels {
          channels := channels[ch := Channel(Zeros(SECTOR_SIZE), 0)];
        }
        channels := channels[ch := channels[ch].(pos := Clamp(at, |channels[ch].data|))];
        assert channels == old(channels)[ch := channels[ch]];
        status := OK;
      case NoNumbers =>
        status := Status(30, 0, 0);
        return IoError;
      case Protected => status := Status(26, 0, 0);
      case Memory => status := Status(31, 0, 0);
      case Unknown => status := Status(30, 0, 0);
    }

    /** A command with its answer. */
    method Command(command: string) returns (reply: Reply)
      modifies this
      ensures (Now(), reply) == Answer(DosStep(img, old(Now()), command))
    {
      hide DosStep, StatusLine;
      var code := DosCommand(command);
      reply := if code == StatusOk then StatusReply() else Reply(code, []);
    }

    method OpenChannel(ch: nat, name: seq<byte>) returns (reply: Reply)
      requires Mounted()
      modifies this
      ensures (Now(), reply) == Step(img, old(Now()), Open(ch, name))
    {
      hide ParseSpec, Listing, PrgFrom, Find, Program, DirectoryLines, Target, Writing, IsDirectory, Kinds, DosStep,
        StatusLine, C64Name, Unquoted;
      if Masked(ch) == 15 {
        channels := channels[15 := Channel([], 0)];
        reply := Command(Unquoted(C64Name(name)));
        return;
      }
      var spec := ParseSpec(name);
      if spec.Buffer? {
        channels := channels[Masked(ch) := Channel(Zeros(SECTOR_SIZE), 0)];
        status := OK;
        return StatusReply();
      }
      if Writing(spec) {
        status := Status(26, 0, 0);
        return StatusReply();
      }
      var data := [];
      if IsDirectory(spec) {
        var directory := DirectoryPrg(img, entries);
        if directory.None? {
          return Reply(IoError, []);
        }
        data := directory.value;
      } else {
        var i := FindLoadEntry(entries, Kinds(spec.kind), Target(spec));
        if i == |entries| {
          status := Status(62, 0, 0);
          return Reply(NotFound, []);
        }
        var file := FollowPrgChain(img, entries[i].first);
        if file.Err? {
          return Reply(IoError, []);
        }
        data := file.value;
      }
      channels := channels[Masked(ch) := Channel(data, 0)];
      status := OK;
      return StatusReply();
    }

    method CloseChannel(ch: nat) returns (reply: Reply)
      requires Mounted()
      modifies this
      ensures (Now(), reply) == Step(img, old(Now()), Close(ch))
    {
      hide OpenData, Listing, StatusLine;
      channels := channels - {Masked(ch)};
      status := OK;
      return StatusReply();
    }

    /** CMD_READ. The drive's own status says END OF FILE exactly when nothing is left; the
        protocol also says so for a read of size 0. */
    method ReadChannel(ch: nat, size: nat) returns (reply: Reply)
      requires Mounted() && Valid(channels) && size < 0x10000
      modifies this
      ensures (Now(), reply) == Step(img, old(Now()), Read(ch, size)) && Valid(channels)
      ensures var k := Masked(ch);
              k != 15 && k in old(channels) ==>
                var left := |old(channels)[k].data| - old(channels)[k].pos;
                && status == (if left == 0 then Status(64, 0, 0) else OK)
                && (reply.code == Eof <==> left == 0 || size == 0)
    {
      hide OpenData, Listing, DosStep, StatusLine;
      if Masked(ch) == 15 {
        return Reply(StatusOk, StatusLine(status) + [13]);
      }
      if Masked(ch) !in channels {
        status := Status(61, 0, 0);
        return Reply(NoDisk, []);
      }
      var c := channels[Masked(ch)];
      var out := Slice(c.data, c.pos, c.pos + size);
      var pos := c.pos + |out|;
      channels := channels[Masked(ch) := c.(pos := pos)];
      if out == [] && pos >= |c.data| {
        status := Status(64, 0, 0);
      } else {
        status := OK;
      }
      reply := Reply(if out == [] then Eof else StatusOk, out);
    }

    method WriteChannel(ch: nat, payload: seq<byte>) returns (reply: Reply)
      requires Mounted()
      modifies this
      ensures (Now(), reply) == Step(img, old(Now()), Write(ch, payload))
    {
      hide OpenData, Listing, DosStep, StatusLine, C64Name;
      if Masked(ch) == 15 {
        reply := Command(C64Name(payload));
        return;
      }
      status := Status(26, 0, 0);
      return StatusReply();
    }
  }

  // ------------------------------------------------------------------------- runs

  /** The drive after a run of commands. */
  function After(img: seq<byte>, s: State, cs: seq<Command>): State
    requires Mountable(img)
  {
    if cs == [] then s else Step(img, After(img, s, cs[..|cs| - 1]), cs[|cs| - 1]).0
  }

  /** What the READs of channel `k` returned in a run, in order. */
  function Output(img: seq<byte>, s: State, cs: seq<Command>, k: nat): seq<byte>
    requires Mountable(img)
  {
    if cs == [] then []
    else
      var n := |cs| - 1;
      var reply := Step(img, After(img, s, cs[..n]), cs[n]).1;
      Output(img, s, cs[..n], k) + if cs[n].Read? && Masked(cs[n].ch) == k then reply.data else []
  }

  predicate DosHarmless(img: seq<byte>, command: string, k: nat) {
    match ParseDos(command)
    case Reset => false
    case Restart => false
    case BlockRead(ch, track, sector) => ch != k || ReadSector(img, track, sector).None?
    case Pointer(ch, _) => ch != k
    case _ => true
  }

  /** The command leaves channel `k` open on the same data, except for reading from it. */
  predicate Harmless(img: seq<byte>, c: Command, k: nat)
    requires Mountable(img)
  {
    match c
    case Open(ch, name) =>
      if Masked(ch) == 15 then k != 15 && DosHarmless(img, Unquoted(C64Name(name)), k)
      else Masked(ch) != k || OpenData(img, name).Fails?
    case Close(ch) => Masked(ch) != k
    case Read(_, _) => true
    case Write(ch, payload) => Masked(ch) != 15 || DosHarmless(img, C64Name(payload), k)
    case Dos(payload) => DosHarmless(img, C64Name(payload), k)
  }

  lemma DosKeeps(img: seq<byte>, s: State, command: string, k: nat)
    requires k in s.channels && DosHarmless(img, command, k)
    ensures var t := DosStep(img, s, command).0.channels; k in t && t[k] == s.channels[k]
  {
    hide ParseDos, ReadSector;
  }

  lemma StepKeeps(img: seq<byte>, s: State, c: Command, k: nat)
    requires Mountable(img) && k in s.channels && Harmless(img, c, k) && !(c.Read? && Masked(c.ch) == k)
    ensures var t := Step(img, s, c).0.channels; k in t && t[k] == s.channels[k]
  {
    hide OpenData, DosStep, DosHarmless, C64Name, Unquoted, StatusLine;
    match c
    case Open(ch, name) =>
      if Masked(ch) == 15 {
        DosKeeps(img, s.(channels := s.channels[15 := Channel([], 0)]), Unquoted(C64Name(name)), k);
      }
    case Write(ch, payload) =>
      if Masked(ch) == 15 {
        DosKeeps(img, s, C64Name(payload), k);
      }
    case Dos(payload) => DosKeeps(img, s, C64Name(payload), k);
    case _ =>
  }

  lemma StepReads(img: seq<byte>, s: State, ch: nat, size: nat)
    requires var (m, k) := (s.channels, Masked(ch)); Mountable(img) && k != 15 && k in m && m[k].pos <= |m[k].data|
    ensures var (m, k, r) := (s.channels, Masked(ch), Step(img, s, Read(ch, size)));
            var t := r.0.channels;
            && k in t && t[k].data == m[k].data && m[k].pos <= t[k].pos <= |m[k].data|
            && m[k].data[..m[k].pos] + r.1.data == m[k].data[..t[k].pos]
  {
    hide OpenData, DosStep;
  }

  lemma DosValid(img: seq<byte>, s: State, command: string)
    requires Valid(s.channels)
    ensures Valid(DosStep(img, s, command).0.channels)
  {
    hide ParseDos, ReadSector;
  }

  /** Every command keeps read positions inside their data. */
  lemma StepValid(img: seq<byte>, s: State, c: Command)
    requires Mountable(img) && Valid(s.channels)
    ensures Valid(Step(img, s, c).0.channels)
  {
    hide OpenData, DosStep, C64Name, Unquoted, StatusLine;
    match c
    case Open(ch, name) =>
      if Masked(ch) == 15 {
        DosValid(img, s.(channels := s.channels[15 := Channel([], 0)]), Unquoted(C64Name(name)));
      }
    case Write(ch, payload) =>
      if Masked(ch) == 15 {
        DosValid(img, s, C64Name(payload));
      }
    case Dos(payload) => DosValid(img, s, C64Name(payload));
    case _ =>
  }

  /** So does every run, whatever its commands. */
  lemma {:induction false} RunValid(img: seq<byte>, s: State, cs: seq<Command>)
    requires Mountable(img) && Valid(s.channels)
    ensures Valid(After(img, s, cs).channels)
    decreases |cs|
  {
    hide Step, Valid;
    if cs != [] {
      var n := |cs| - 1;
      RunValid(img, s, cs[..n]);
      StepValid(img, After(img, s, cs[..n]), cs[n]);
    }
  }

  /** However reads of a channel are cut, and whatever happens on other channels in between,
      they return the data in order, up to the read position. */
  lemma {:induction false} ReadsInOrder(img: seq<byte>, s: State, cs: seq<Command>, k: nat)
    requires Mountable(img) && Valid(s.channels) && k != 15 && k in s.channels && s.channels[k].pos == 0
    requires forall i: nat :: i < |cs| ==> Harmless(img, cs[i], k)
    ensures var (m, t) := (s.channels, After(img, s, cs).channels);
            k in t && t[k].data == m[k].data && t[k].pos <= |m[k].data|
              && Output(img, s, cs, k) == m[k].data[..t[k].pos]
    decreases |cs|
  {
    hide OpenData, Harmless, Step, Masked;
    if cs != [] {
      var n := |cs| - 1;
      ReadsInOrder(img, s, cs[..n], k);
      var t := After(img, s, cs[..n]);
      if cs[n].Read? && Masked(cs[n].ch) == k {
        StepReads(img, t, cs[n].ch, cs[n].size);
      } else {
        StepKeeps(img, t, cs[n], k);
      }
    }
  }

  /** A further read says END OF FILE, for a size of at least 1, exactly when the reads so far
      have returned everything. */
  lemma EofWhenDone(img: seq<byte>, s: State, cs: seq<Command>, ch: nat, size: nat)
    requires var (m, k) := (s.channels, Masked(ch)); Mountable(img) && Valid(m) && k != 15 && k in m && m[k].pos == 0
    requires forall i: nat :: i < |cs| ==> Harmless(img, cs[i], Masked(ch))
    ensures var k := Masked(ch);
            Step(img, After(img, s, cs), Read(ch, size)).1.code == Eof
            <==> size == 0 || Output(img, s, cs, k) == s.channels[k].data
  {
    hide OpenData, Harmless, Output, After, DosStep;
    ReadsInOrder(img, s, cs, Masked(ch));
  }

  /** A block read sent as a command gives the sector to the next READ of its channel. */
  lemma BlockReadReads(img: seq<byte>, s: State, ch: nat, p: Pos, size: nat)
    requires Mountable(img) && OnDisk(p) && Masked(ch) != 15 && size >= SECTOR_SIZE
    ensures var sent := Step(img, s, Dos(AsciiBytes(BlockCommand(ch, p.track, p.sector))));
            && sent.1 == Reply(StatusOk, StatusLine(Status(0, p.track, p.sector)))
            && Step(img, sent.0, Read(ch, size)).1 == Reply(StatusOk, SectorAt(img, SectorIndex(p)))
  {
    hide ParseDos, BlockCommand, C64Name, AsciiBytes, ReadSector, OpenData, StatusLine, Unquoted, Listing;
    var command := BlockCommand(ch, p.track, p.sector);
    BlockEnds(ch, p.track, p.sector);
    TextC64Name(command);
    BlockParsed(ch, p.track, p.sector);
    SectorRead(img, p.track, p.sector);
    IndexBijection(p);
  }

  lemma BlockEnds(ch: nat, track: nat, sector: nat)
    ensures var s := BlockCommand(ch, track, sector);
            && s != "" && s[0] !in {' ', '"'} && s[|s| - 1] !in {' ', '"'}
            && forall i | 0 <= i < |s| :: ' ' <= s[i] <= '~'
  {
    hide BlockCommand, Parts, Decimal;
    BlockParts(ch, track, sector);
  }

  lemma BuiltMounts(img: seq<byte>, prgs: seq<Prg>)
    requires |img| == D64_SIZE && TotalBlocks(prgs) <= DATA_SECTORS && Readable(img, prgs)
    ensures Mountable(img) && Listing(img).value == Catalog(prgs)
  {
    hide Listing, Catalog, FollowFrom, PrgFrom, Body, TotalBlocks;
  }

  /** OPEN of a listed name that means nothing but itself opens exactly that file, if no
      earlier one is listed with the same name. */
  lemma OpensOwnName(img: seq<byte>, prgs: seq<Prg>, i: nat)
    requires |img| == D64_SIZE && TotalBlocks(prgs) <= DATA_SECTORS && Readable(img, prgs) && i < |prgs|
    requires |Body(prgs[i])| >= 2 && Plain(ListedName(prgs[i].name)) && ListedName(prgs[i].name) != "*"
    requires forall j | 0 <= j < i :: ListedName(prgs[j].name) != ListedName(prgs[i].name)
    ensures Mountable(img) && OpenData(img, AsciiBytes(ListedName(prgs[i].name))) == Opens(Body(prgs[i]))
  {
    hide PrgFrom, FollowFrom, Catalog, Body, Listing, TotalBlocks, ParseSpec, Find, ListedName, Whole, Target,
      IsDirectory, UpperCase;
    BuiltMounts(img, prgs);
    NameGiven(prgs[i].name);
    WholeSpec(ListedName(prgs[i].name));
    OwnName(prgs, i);
    assert Kinds("") == LOADABLE;
  }

  lemma NameGiven(name: seq<ascii>)
    requires Plain(ListedName(name))
    ensures name != []
  {
  }

  /** Such a file of a disk that the builder made, opened by its name and read until END OF
      FILE with reads of any sizes from 1 up, comes back byte for byte. */
  lemma BuiltFileReads(img: seq<byte>, prgs: seq<Prg>, i: nat, s: State, ch: nat, cs: seq<Command>, size: nat)
    requires |img| == D64_SIZE && TotalBlocks(prgs) <= DATA_SECTORS && Readable(img, prgs) && i < |prgs|
    requires Valid(s.channels) && Masked(ch) != 15
    requires |Body(prgs[i])| >= 2 && Plain(ListedName(prgs[i].name)) && ListedName(prgs[i].name) != "*"
    requires forall j | 0 <= j < i :: ListedName(prgs[j].name) != ListedName(prgs[i].name)
    requires size > 0 && Mountable(img)
    requires forall j: nat :: j < |cs| ==> Harmless(img, cs[j], Masked(ch))
    ensures var start := Step(img, s, Open(ch, AsciiBytes(ListedName(prgs[i].name))));
            && start.1.code == StatusOk
            && (Step(img, After(img, start.0, cs), Read(ch, size)).1.code == Eof
                <==> Output(img, start.0, cs, Masked(ch)) == Body(prgs[i]))
  {
    hide OpenData, Harmless, Output, After, Body, ListedName, Plain, Readable, Mountable, DosStep, StatusLine;
    OpensOwnName(img, prgs, i);
    var start := Step(img, s, Open(ch, AsciiBytes(ListedName(prgs[i].name)))).0;
    EofWhenDone(img, start, cs, ch, size);
  }

  /** OPEN of `$` on a built disk gives the directory program, with a line for each file. */
  lemma BuiltDirectoryOpens(img: seq<byte>, prgs: seq<Prg>)
    requires |img| == D64_SIZE && TotalBlocks(prgs) <= DATA_SECTORS && |prgs| <= 126 && Readable(img, prgs)
    requires Accounted(img, |prgs|, TotalBlocks(prgs))
    ensures var lines := DirectoryLines(img, Catalog(prgs));
            && Mountable(img) && Program(lines).Some? && OpenData(img, AsciiBytes("$")) == Opens(Program(lines).value)
            && BasicLoader.ParseFrom(BasicLoader.LOAD, Program(lines).value[2..], 0, None, 0) ==
                 Some(BasicLoader.Parsed(|Program(lines).value| - 2, BasicLoader.ProgramCall(lines), |prgs| + 2))
  {
    hide PrgFrom, Catalog, Listing, TotalBlocks, BasicLoader.ParseFrom, Accounted, Readable, BasicLoader.ProgramCall,
      DirectoryLines, Program, ParseSpec, IsDirectory, AsciiBytes;
    BuiltMounts(img, prgs);
    BuiltDirectory(img, prgs);
    WholeSpec("$");
  }
}
