/** The commands of the virtual 1541 (tools/virtual_1541/c64_1541_uart_gui.py), one after the
    other, as a C64 program sends them and sees the answers. */
module DriveCases {
  import opened Bytes
  import opened D64Geometry
  import opened D64Readers
  import opened D64RoundTrip
  import opened DriveNames
  import opened D64Layout
  import opened D64Builder
  import opened DriveDirectory
  import opened DriveCommands
  import opened VirtualDrive
  import BasicLoader

  // ----------------------------------------------------------------- characters

  /** Text that a command or a name can be, without spaces and quotes around it. */
  predicate Bare(s: string) {
    && s != "" && s[0] !in {' ', '"'} && s[|s| - 1] !in {' ', '"'}
    && forall i | 0 <= i < |s| :: ' ' <= s[i] <= '~'
  }

  lemma BareComesThrough(s: string)
    requires Bare(s)
    ensures Unquoted(s) == s && C64Name(AsciiBytes(s)) == s
  {
    hide C64Name, Unquoted;
    TextC64Name(s);
  }

  /** Small letters become capital ones and everything else stays. */
  lemma Capitals()
    ensures UpperCase("abcdefghijklmnopqrstuvwxyz") == "ABCDEFGHIJKLMNOPQRSTUVWXYZ"
    ensures forall s :: (forall i | 0 <= i < |s| :: s[i] < 'a' || s[i] > 'z') ==> UpperCase(s) == s
  {
    var (s, t) := ("abcdefghijklmnopqrstuvwxyz", "ABCDEFGHIJKLMNOPQRSTUVWXYZ");
    assert forall i | 0 <= i < 26 :: s[i] as int == 97 + i && t[i] as int == 65 + i;
    assert UpperCase(s) == t;
  }

  lemma {:induction false} FrontStripped<T>(front: seq<T>, rest: seq<T>, cut: set<T>)
    requires (forall i | 0 <= i < |front| :: front[i] in cut) && (rest != [] ==> rest[0] !in cut)
    ensures LStrip(front + rest, cut) == rest
    decreases |front|
  {
    if front == [] {
      assert front + rest == rest;
    } else {
      assert (front + rest)[1..] == front[1..] + rest;
      FrontStripped(front[1..], rest, cut);
    }
  }

  lemma {:induction false} BackStripped<T>(rest: seq<T>, back: seq<T>, cut: set<T>)
    requires (forall i | 0 <= i < |back| :: back[i] in cut) && (rest != [] ==> rest[|rest| - 1] !in cut)
    ensures RStrip(rest + back, cut) == rest
    decreases |back|
  {
    if back == [] {
      assert rest + back == rest;
    } else {
      var n := |back| - 1;
      assert (rest + back)[..|rest| + n] == rest + back[..n];
      BackStripped(rest, back[..n], cut);
    }
  }

  lemma BothStripped<T>(front: seq<T>, core: seq<T>, back: seq<T>, cut: set<T>)
    requires (forall i | 0 <= i < |front| :: front[i] in cut) && (forall i | 0 <= i < |back| :: back[i] in cut)
    requires core != [] && core[0] !in cut && core[|core| - 1] !in cut
    ensures Strip(front + core + back, cut) == core
  {
    assert front + core + back == front + (core + back);
    FrontStripped(front, core + back, cut);
    BackStripped(core, back, cut);
  }

  /** Zeros, spaces and shifted spaces around a name are dropped, and then its quotes. */
  lemma QuotedName(front: seq<byte>, text: string, back: seq<byte>)
    requires (forall i | 0 <= i < |front| :: front[i] in {0, 0x20, 0xA0})
    requires (forall i | 0 <= i < |back| :: back[i] in {0, 0x20, 0xA0}) && Bare(text)
    ensures C64Name(front + ([0x22] + AsciiBytes(text) + [0x22]) + back) == text
  {
    hide Strip, Characters;
    var name := AsciiBytes(text);
    BothStripped(front, [0x22] + name + [0x22], back, {0, 0x20, 0xA0});
    BothStripped([0x22], name, [0x22], {0x22});
    CharactersOf(text);
    NothingToStrip(text, {' '});
  }

  /** A character outside ASCII becomes a question mark. */
  lemma AsciiOnly(s: string, i: nat)
    requires i < |s|
    ensures AsciiBytes(s)[i] == if s[i] as int <= 0x7F then s[i] as int else 0x3F
  {
  }

  /** Which bytes are characters of a name. */
  lemma OneCharacter(b: byte)
    ensures 0x20 <= b <= 0x7E ==> Characters([b]) == [b as char]
    ensures b == 0xA0 ==> Characters([b]) == " "
    ensures b < 0x20 || 0x7E < b != 0xA0 ==> Characters([b]) == ""
  {
    assert [b][..0] == [] && Characters([]) == "";
  }

  lemma {:induction false} CharactersJoin(a: seq<byte>, b: seq<byte>)
    ensures Characters(a + b) == Characters(a) + Characters(b)
    decreases |b|
  {
    if b == [] {
      assert a + b == a;
    } else {
      var n := |b| - 1;
      assert (a + b)[..|a| + n] == a + b[..n];
      CharactersJoin(a, b[..n]);
    }
  }

  // -------------------------------------------------------------- command strings

  lemma Upper(c: string, u: string)
    requires UpperCase(c) == u && Bare(c)
    ensures Unquoted(c) == c && UpperCase(Unquoted(c)) == u
  {
    hide UpperCase, Unquoted, C64Name;
    BareComesThrough(c);
  }

  /** Initialising closes all channels, and `UJ` shows who the drive is. `V` only says OK. */
  lemma PlainCommands(img: seq<byte>, s: State, c: string)
    requires Bare(c)
    ensures UpperCase(c) in {"I", "I0", "UI", "UI+", "UI-"} ==>
              DosStep(img, s, c) == (State(map[], Status(0, 0, 0)), StatusOk)
    ensures UpperCase(c) == "UJ" ==> DosStep(img, s, c) == (State(map[], Status(73, 0, 0)), StatusOk)
    ensures UpperCase(c) in {"V", "V0"} ==> DosStep(img, s, c) == (State(s.channels, Status(0, 0, 0)), StatusOk)
  {
    hide UpperCase, Unquoted, ReadSector, Bare, ParseBlock, ParsePointer, Numbers;
    Upper(c, UpperCase(c));
  }

  /** Commands that would write are refused, memory is not there to be read, and what begins
      in no known way is a syntax error. None of them touches a channel. */
  lemma RefusedCommands(img: seq<byte>, s: State, c: string)
    requires Bare(c) && |c| >= 3
    ensures UpperCase(c)[..2] in {"N:", "S:", "R:", "C:"}
            || UpperCase(c)[..3] in {"B-W", "B-A", "B-F", "M-W", "M-E"} ==>
              DosStep(img, s, c) == (s.(status := Status(26, 0, 0)), StatusOk)
    ensures UpperCase(c)[..3] == "M-R" ==> DosStep(img, s, c) == (s.(status := Status(31, 0, 0)), StatusOk)
    ensures UpperCase(c)[0] !in {'I', 'U', 'V', 'B', 'N', 'S', 'R', 'C', 'M'} ==>
              DosStep(img, s, c) == (s.(status := Status(30, 0, 0)), StatusOk)
  {
    hide UpperCase, Unquoted, ReadSector, Bare, ParseDos;
    Upper(c, UpperCase(c));
    RefusedParsed(c, UpperCase(c));
  }

  lemma RefusedParsed(c: string, u: string)
    requires UpperCase(Unquoted(c)) == u && |u| >= 3
    ensures u[..2] in {"N:", "S:", "R:", "C:"} || u[..3] in {"B-W", "B-A", "B-F", "M-W", "M-E"} ==>
              ParseDos(c) == Protected
    ensures u[..3] == "M-R" ==> ParseDos(c) == Memory
    ensures u[0] !in {'I', 'U', 'V', 'B', 'N', 'S', 'R', 'C', 'M'} ==> ParseDos(c) == Unknown
  {
    hide UpperCase, Unquoted, ParseBlock, ParsePointer, Numbers;
    assert u[..2] == [u[0], u[1]] && u[..3] == [u[0], u[1], u[2]];
  }

  /** A block command without numbers fails. */
  lemma NoNumbersGiven(img: seq<byte>, s: State)
    ensures DosStep(img, s, "B-R") == DosStep(img, s, "B-P") == (s.(status := Status(30, 0, 0)), IoError)
  {
    OnlyName("B-R");
    OnlyName("B-P");
  }

  predicate BlockLetters(c: string) { |c| == 3 && c[0] == 'B' && c[1] == '-' && (c[2] == 'R' || c[2] == 'P') }

  lemma OnlyName(c: string)
    requires BlockLetters(c)
    ensures ParseDos(c) == NoNumbers
  {
    hide ParseDos, Numbers, Unquoted, UpperCase, C64Name, AsciiBytes, BlockLetters, Bare;
    LettersBare(c);
    BareComesThrough(c);
    NoneIn(c);
    NameOnly(c);
  }

  lemma LettersBare(c: string)
    requires BlockLetters(c)
    ensures Bare(c) && UpperCase(c) == c
  {
  }

  lemma NameOnly(c: string)
    requires BlockLetters(c) && UpperCase(Unquoted(c)) == c && Numbers(Unquoted(c)) == []
    ensures ParseDos(c) == NoNumbers
  {
    hide ParseDos, Numbers, Unquoted, UpperCase;
    BlockName(c, c);
  }

  lemma BlockName(c: string, u: string)
    requires UpperCase(Unquoted(c)) == u && |u| >= 3 && u[0] == 'B' && u[1] == '-'
    ensures u[2] == 'R' ==> ParseDos(c) == ParseBlock(Numbers(Unquoted(c)))
    ensures u[2] == 'P' ==> ParseDos(c) == ParsePointer(Numbers(Unquoted(c)))
  {
    hide Numbers, Unquoted, UpperCase, ParseBlock, ParsePointer;
  }

  lemma NoneIn(c: string)
    requires BlockLetters(c)
    ensures Numbers(c) == []
  {
    hide Number, NumbersOf, Parts, UpperCase;
    NoneFound(c, ':');
    assert Spaced(c) == c;
    assert Parts(c) == [c] by { OnePart(c); }
    LettersBare(c);
    assert [c][1..] == [];
    NumbersAfter(c, [c]);
    NoNumbersAtAll();
  }

  lemma OnePart(c: string)
    requires c != "" && forall i | 0 <= i < |c| :: c[i] != ' '
    ensures Parts(c) == [c]
  {
    FirstPart(c, "");
  }

  /** A block read of a sector that is not there is error 66 with its track and sector. */
  lemma NoSector(img: seq<byte>, s: State, ch: nat, track: nat, sector: nat)
    requires Mountable(img) && (!(1 <= track <= 35) || sector >= SectorsPerTrack(track))
    ensures Step(img, s, Dos(AsciiBytes(BlockCommand(ch, track, sector)))) ==
            (State(s.channels, Status(66, track, sector)), Reply(IoError, []))
  {
    hide ParseDos, BlockCommand, C64Name, AsciiBytes, ReadSector, StatusLine, Unquoted, Listing, SectorsPerTrack;
    var c := BlockCommand(ch, track, sector);
    BlockEnds(ch, track, sector);
    TextC64Name(c);
    BlockParsed(ch, track, sector);
    SectorRead(img, track, sector);
  }

  // ------------------------------------------------------------ the buffer pointer

  function PointerCommand(ch: nat, at: nat): string { "B-P " + (Decimal(ch) + " " + Decimal(at)) }

  lemma PointerText(ch: nat, at: nat)
    ensures BlockText(PointerCommand(ch, at))
  {
    hide Decimal, Parts, BlockText, BlockChar;
    DecimalText(ch, "");
    DecimalText(at, "");
    Constants();
    JoinText(Decimal(ch), " ");
    JoinText(Decimal(ch) + " ", Decimal(at));
    JoinText("B-P ", Decimal(ch) + " " + Decimal(at));
  }

  lemma PointerBare(ch: nat, at: nat)
    ensures var s := PointerCommand(ch, at); Bare(s) && UpperCase(s) == s && Spaced(s) == s && IndexOf(s, ':') == |s|
  {
    hide Decimal, UpperCase, Spaced;
    PointerText(ch, at);
    var s := PointerCommand(ch, at);
    PlainText(s);
    DecimalText(at, "");
    assert s[|s| - 1] == Decimal(at)[|Decimal(at)| - 1];
  }

  lemma PointerParts(ch: nat, at: nat)
    ensures Parts(PointerCommand(ch, at)) == ["B-P", Decimal(ch), Decimal(at)]
  {
    hide Decimal, Parts, BlockText;
    DecimalText(ch, Decimal(at));
    DecimalText(at, "");
    FirstPart("B-P", Decimal(ch) + " " + Decimal(at));
    assert PointerCommand(ch, at) == "B-P" + " " + (Decimal(ch) + " " + Decimal(at));
  }

  lemma PointerNumbers(ch: nat, at: nat)
    ensures NumbersOf([Decimal(ch), Decimal(at)]) == [ch, at]
  {
    hide Decimal, Number, NumbersOf;
    OneNumber(ch, [Decimal(at)]);
    OneNumber(at, []);
    NoNumbersAtAll();
    assert [Decimal(ch), Decimal(at)] == [Decimal(ch)] + [Decimal(at)];
    assert [Decimal(at)] == [Decimal(at)] + [];
  }

  lemma NumbersAfter(s: string, parts: seq<string>)
    requires IndexOf(s, ':') == |s| && Spaced(s) == s && Parts(s) == parts
    requires parts != [] && StartsWith(UpperCase(parts[0]), "B-")
    ensures Numbers(s) == NumbersOf(parts[1..])
  {
    hide Parts, Spaced, Number, NumbersOf, UpperCase;
  }

  lemma PointerRead(ch: nat, at: nat)
    ensures Numbers(PointerCommand(ch, at)) == [ch, at]
  {
    hide Decimal, Parts, Spaced, Numbers, NumbersOf, Bare, PointerCommand, UpperCase;
    var parts := ["B-P", Decimal(ch), Decimal(at)];
    PointerParts(ch, at);
    PointerBare(ch, at);
    HeadOfPointer();
    NumbersAfter(PointerCommand(ch, at), parts);
    PointerNumbers(ch, at);
    assert parts[1..] == [Decimal(ch), Decimal(at)];
  }

  lemma HeadOfPointer()
    ensures StartsWith(UpperCase("B-P"), "B-")
  {
  }

  lemma PointerParsed(ch: nat, at: nat)
    ensures ParseDos(PointerCommand(ch, at)) == Pointer(ch % 16, at % 256)
  {
    hide Decimal, Numbers, Unquoted, UpperCase, Bare;
    var s := PointerCommand(ch, at);
    PointerBare(ch, at);
    BareComesThrough(s);
    PointerRead(ch, at);
    assert s[0] == 'B' && s[1] == '-' && s[2] == 'P';
  }

  lemma PointerSet(img: seq<byte>, s: State, c: string, k: nat, at: nat)
    requires ParseDos(c) == Pointer(k, at)
    ensures var data := if k in s.channels then s.channels[k].data else seq(256, _ => 0);
            var pos := if at < |data| then at else |data|;
            DosStep(img, s, c) == (State(s.channels[k := Channel(data, pos)], Status(0, 0, 0)), StatusOk)
  {
    hide ParseDos;
    assert Zeros(SECTOR_SIZE) == seq(256, _ => 0);
  }

  /** A READ returns the bytes from the position on, as many as it asks for or as there are. */
  lemma ReadsFrom(img: seq<byte>, s: State, ch: nat, size: nat)
    requires Mountable(img) && ch % 16 != 15 && ch % 16 in s.channels
    ensures var (data, at) := (s.channels[ch % 16].data, s.channels[ch % 16].pos);
            Step(img, s, Read(ch, size)).1.data ==
              if at >= |data| then [] else if at + size >= |data| then data[at..] else data[at..at + size]
  {
    hide OpenData, DosStep;
  }

  /** After a pointer command the next READ of that channel begins at this byte of its data,
      or of 256 zeros if it was not open. Other channels stay as they are. */
  lemma PointerMoves(img: seq<byte>, s: State, ch: nat, at: nat, size: nat)
    requires Mountable(img) && Masked(ch) != 15 && at < 256
    ensures var sent := Step(img, s, Dos(AsciiBytes(PointerCommand(ch, at))));
            var data := if ch % 16 in s.channels then s.channels[ch % 16].data else seq(256, _ => 0);
            && sent.1 == Reply(StatusOk, StatusLine(Status(0, 0, 0)))
            && Step(img, sent.0, Read(ch, size)).1.data ==
                 (if at >= |data| then [] else if at + size >= |data| then data[at..] else data[at..at + size])
            && forall k | k in s.channels && k != ch % 16 ::
                 k in sent.0.channels && sent.0.channels[k] == s.channels[k]
  {
    hide ParseDos, PointerCommand, AsciiBytes, StatusLine, Bare, DosStep, Step, Mountable;
    var (c, k) := (PointerCommand(ch, at), ch % 16);
    PointerBare(ch, at);
    PointerParsed(ch, at);
    PointerSet(img, s, c, k, at);
    SentIs(img, s, c);
    ReadsFrom(img, Step(img, s, Dos(AsciiBytes(c))).0, ch, size);
  }

  /** A command sent as text. */
  lemma SentIs(img: seq<byte>, s: State, c: string)
    requires Mountable(img) && Bare(c)
    ensures Step(img, s, Dos(AsciiBytes(c))) == Answer(DosStep(img, s, c))
  {
    hide C64Name, AsciiBytes, OpenData, StatusLine, Unquoted, Bare, DosStep;
    BareComesThrough(c);
  }

  // --------------------------------------------------------------- data channels

  /** CLOSE forgets the channel, READ of a channel that is not open and WRITE are refused, and
      READ of channel 15 gives the status line and a carriage return. */
  lemma ChannelCases(img: seq<byte>, s: State, ch: nat, size: nat, payload: seq<byte>)
    requires Mountable(img)
    ensures Step(img, s, Close(ch)) ==
              (State(map k | k in s.channels && k != ch % 16 :: s.channels[k], Status(0, 0, 0)),
               Reply(StatusOk, StatusLine(Status(0, 0, 0))))
    ensures ch % 16 == 15 ==> Step(img, s, Read(ch, size)) == (s, Reply(StatusOk, StatusLine(s.status) + [0x0D]))
    ensures ch % 16 != 15 && ch % 16 !in s.channels ==>
              Step(img, s, Read(ch, size)) == (State(s.channels, Status(61, 0, 0)), Reply(NoDisk, []))
    ensures ch % 16 != 15 ==>
              Step(img, s, Write(ch, payload)) ==
              (State(s.channels, Status(26, 0, 0)), Reply(StatusOk, StatusLine(Status(26, 0, 0))))
  {
    hide OpenData, DosStep, StatusLine;
    var left := map k | k in s.channels && k != ch % 16 :: s.channels[k];
    assert s.channels - {Masked(ch)} == left;
    assert Step(img, s, Close(ch)) == Answer((State(left, OK), StatusOk));
  }

  /** OPEN of `#` gives a buffer of 256 zeros, and of a name that means no file it fails. */
  lemma OpenCases(img: seq<byte>, s: State, ch: nat, name: string)
    requires Mountable(img) && ch % 16 != 15 && Bare(name) && name[0] == '#'
    ensures Step(img, s, Open(ch, AsciiBytes(name))) ==
              (State(s.channels[ch % 16 := Channel(seq(256, _ => 0), 0)], Status(0, 0, 0)),
               Reply(StatusOk, StatusLine(Status(0, 0, 0))))
  {
    hide StatusLine, Listing, C64Name, AsciiBytes, Bare;
    BareComesThrough(name);
    assert Zeros(SECTOR_SIZE) == seq(256, _ => 0);
    assert name != "" by { BareStarts(name); }
    assert OpenData(img, AsciiBytes(name)) == Opens(seq(256, _ => 0));
  }

  lemma BareStarts(name: string)
    requires Bare(name)
    ensures name != ""
  {
  }

  /** An unknown name leaves the channels as they are. */
  lemma UnknownName(img: seq<byte>, s: State, ch: nat, name: string)
    requires Mountable(img) && ch % 16 != 15 && Plain(name) && name != "*"
    requires forall e <- Listing(img).value :: UpperCase(e.name) != UpperCase(name)
    requires Literal(UpperCase(name))
    ensures Step(img, s, Open(ch, AsciiBytes(name))) == (State(s.channels, Status(62, 0, 0)), Reply(NotFound, []))
  {
    hide StatusLine, Listing, AsciiBytes, Whole, UpperCase, ParseSpec, Target, IsDirectory, Glob;
    WholeSpec(name);
    var (entries, target) := (Listing(img).value, UpperCase(name));
    assert |target| == |name| && !Wild(target);
    FindMeans(entries, LOADABLE, target);
    assert Kinds("") == LOADABLE;
    WholeEnds(name);
    assert target[0] != '*';
  }

  // ----------------------------------------------------------------- status lines

  /** Numbers below 100 are shown with two digits. */
  lemma TwoDigitsShown(n: nat)
    requires n < 100
    ensures var s := TwoDigits(n);
            && |s| == 2 && '0' <= s[0] <= '9' && '0' <= s[1] <= '9'
            && 10 * (s[0] as int - 48) + (s[1] as int - 48) == n
  {
    if n >= 10 {
      assert n / 10 < 10 && Decimal(n / 10) == [Digit(n / 10)];
    }
  }

  /** The status line has this number and text, and then track and sector. */
  ghost predicate Shows(code: nat, number: string, text: string) {
    forall t, s ::
      StatusLine(Status(code, t, s)) == AsciiBytes(number + "," + text + "," + TwoDigits(t) + "," + TwoDigits(s))
  }

  lemma StatusTexts()
    ensures Shows(0, "00", "OK") && Shows(26, "26", "WRITE PROTECT ON") && Shows(30, "30", "SYNTAX ERROR")
    ensures Shows(31, "31", "SYNTAX ERROR") && Shows(61, "61", "FILE NOT OPEN") && Shows(62, "62", "FILE NOT FOUND")
    ensures Shows(64, "64", "END OF FILE") && Shows(66, "66", "ILLEGAL TRACK OR SECTOR")
    ensures Shows(73, "73", "VIRTUAL 1541 UART")
  {
    hide Shows;
    StatusText(0, 0, "OK");
    StatusText(2, 6, "WRITE PROTECT ON");
    StatusText(3, 0, "SYNTAX ERROR");
    StatusText(3, 1, "SYNTAX ERROR");
    StatusText(6, 1, "FILE NOT OPEN");
    StatusText(6, 2, "FILE NOT FOUND");
    StatusText(6, 4, "END OF FILE");
    StatusText(6, 6, "ILLEGAL TRACK OR SECTOR");
    StatusText(7, 3, "VIRTUAL 1541 UART");
  }

  lemma StatusText(a: nat, b: nat, text: string)
    requires a < 10 && b < 10 && Message(10 * a + b) == text
    ensures Shows(10 * a + b, [Digit(a), Digit(b)], text)
  {
    hide AsciiBytes, TwoDigits;
    ShownTwice(a, b);
  }

  lemma ShownTwice(a: nat, b: nat)
    requires a < 10 && b < 10
    ensures TwoDigits(10 * a + b) == [Digit(a), Digit(b)]
  {
    var n := 10 * a + b;
    assert n / 10 == a && n % 10 == b && Decimal(a) == [Digit(a)] && Decimal(b) == [Digit(b)];
    assert n >= 10 ==> Decimal(n) == [Digit(a)] + [Digit(b)];
  }

  // -------------------------------------------------------------- names of an OPEN

  /** The short and the long name of each file type. */
  lemma TypeNames(s: string)
    ensures Alias("P") == Alias("PRG") == "PRG" && Alias("S") == Alias("SEQ") == "SEQ"
    ensures Alias("U") == Alias("USR") == "USR"
    ensures s !in {"P", "PRG", "S", "SEQ", "U", "USR"} ==> Alias(s) == ""
  {
  }

  predicate Part(s: string) { Whole(s) && UpperCase(s) == s }

  lemma NoneFound(s: string, c: char)
    requires forall i | 0 <= i < |s| :: s[i] != c
    ensures IndexOf(s, c) == |s|
  {
    var k := IndexOf(s, c);
    if k < |s| {
      assert false;
    }
  }

  lemma {:induction false} SplitAt(a: string, rest: string)
    requires forall i | 0 <= i < |a| :: a[i] != ','
    ensures Split(a, ',') == [a] && Split(a + "," + rest, ',') == [a] + Split(rest, ',')
  {
    var s := a + "," + rest;
    assert forall i | 0 <= i < |a| :: s[i] == a[i];
    NoneFound(a, ',');
    assert s[|a|] == ',' && IndexOf(s, ',') == |a|;
    assert s[|a| + 1..] == rest && s[..|a|] == a;
  }

  lemma OneModifier(part: string)
    requires Part(part)
    ensures Modifiers([part]) == if Alias(part) != "" then (Alias(part), "") else ("", part)
  {
    hide Strip, Alias, UpperCase;
    WholeEnds(part);
    NothingToStrip(part, {' '});
    assert [part][..0] == [] && [part][0] == part && "" + part == part;
    assert Modifiers([]) == ("", "");
  }

  lemma TwoModifiers(kind: string, mode: string)
    requires Part(kind) && Part(mode) && Alias(kind) != "" && Alias(mode) == ""
    ensures Modifiers([kind, mode]) == Modifiers([mode, kind]) == (Alias(kind), mode)
  {
    hide Strip, Alias, UpperCase, Modifiers;
    OneModifier(kind);
    OneModifier(mode);
    AddModifier([kind], mode);
    AddModifier([mode], kind);
    assert [kind] + [mode] == [kind, mode] && [mode] + [kind] == [mode, kind] && "" + mode == mode;
  }

  lemma AddModifier(parts: seq<string>, part: string)
    requires Part(part)
    ensures var (kind, mode) := Modifiers(parts);
            Modifiers(parts + [part]) == if Alias(part) != "" then (Alias(part), mode) else (kind, mode + part)
  {
    hide Strip, Alias, UpperCase;
    WholeEnds(part);
    NothingToStrip(part, {' '});
    assert (parts + [part])[..|parts|] == parts;
  }

  /** The drive number in front of a name is dropped. */
  lemma DriveDropped(drive: string, name: string)
    requires Whole(drive) && Whole(name)
    ensures Normalized(drive + ":" + name) == name
  {
    hide Strip, Whole;
    var s := drive + ":" + name;
    WholeEnds(drive);
    WholeEnds(name);
    NothingToStrip(s, {' '});
    NothingToStrip(s, {'"'});
    NothingToStrip(name, {' '});
    NothingToStrip(name, {'"'});
    assert forall i | 0 <= i < |drive| :: s[i] == drive[i] != ':';
    assert s[|drive|] == ':' && IndexOf(s, ':') == |drive| && s[|drive| + 1..] == name;
  }

  lemma SpecParts(head: string, rest: string, name: string)
    requires Bare(head) && Bare(head + "," + rest) && head[0] != '#' && Normalized(head) == name
    requires forall i | 0 <= i < |head| :: head[i] != ','
    ensures var (kind, mode) := Modifiers(Split(rest, ','));
            ParseSpec(AsciiBytes(head + "," + rest)) == Spec(name, kind, mode)
  {
    hide Strip, Normalized, C64Name, Modifiers, Split, Unquoted, AsciiBytes;
    var s := head + "," + rest;
    BareComesThrough(s);
    SplitAt(head, rest);
    NothingToStrip(head, {' '});
    assert s[0] == head[0];
    assert ([head] + Split(rest, ','))[1..] == Split(rest, ',');
  }

  /** `drive:name,type,mode`, with the last two in any order. */
  lemma TypedSpec(drive: string, name: string, kind: string, mode: string)
    requires Whole(drive) && Whole(name) && drive[0] != '#'
    requires Part(kind) && Part(mode) && Alias(kind) != "" && Alias(mode) == ""
    ensures ParseSpec(AsciiBytes(drive + ":" + name + "," + (kind + "," + mode))) == Spec(name, Alias(kind), mode)
    ensures ParseSpec(AsciiBytes(drive + ":" + name + "," + (mode + "," + kind))) == Spec(name, Alias(kind), mode)
  {
    hide Strip, Normalized, C64Name, Modifiers, Split, Unquoted, AsciiBytes, ParseSpec, UpperCase, Alias, Whole;
    DriveDropped(drive, name);
    JoinedBare(drive, ":", name);
    SplitPair(kind, mode);
    SplitPair(mode, kind);
    TwoModifiers(kind, mode);
    JoinedBare(kind, ",", mode);
    JoinedBare(mode, ",", kind);
    JoinedBareBare(drive + ":" + name, kind + "," + mode);
    JoinedBareBare(drive + ":" + name, mode + "," + kind);
    NoComma(drive, name);
    SpecParts(drive + ":" + name, kind + "," + mode, name);
    SpecParts(drive + ":" + name, mode + "," + kind, name);
  }

  lemma NoComma(drive: string, name: string)
    requires Whole(drive) && Whole(name)
    ensures forall i | 0 <= i < |drive + ":" + name| :: (drive + ":" + name)[i] != ','
  {
    WholeEnds(drive);
    WholeEnds(name);
  }

  lemma JoinedBare(a: string, c: string, b: string)
    requires Whole(a) && Whole(b) && (c == ":" || c == ",")
    ensures Bare(a + c + b) && (a + c + b)[0] == a[0] && Bare(a) && Bare(b)
  {
    WholeEnds(a);
    WholeEnds(b);
    assert (a + c + b)[|a + c + b| - 1] == b[|b| - 1];
  }

  lemma JoinedBareBare(a: string, b: string)
    requires Bare(a) && Bare(b)
    ensures Bare(a + "," + b)
  {
    assert (a + "," + b)[|a + "," + b| - 1] == b[|b| - 1];
  }

  lemma SplitPair(a: string, b: string)
    requires Whole(a) && Whole(b)
    ensures Split(a + "," + b, ',') == [a, b] && Split(a, ',') == [a]
  {
    hide Split, Whole;
    WholeEnds(a);
    WholeEnds(b);
    SplitAt(a, b);
    SplitAt(b, a);
  }

  /** One thing behind the name: `,W` and `,A` ask for writing, which is refused, and `,R`
      changes nothing. */
  lemma ModeBehind(img: seq<byte>, name: string)
    requires Mountable(img) && Plain(name)
    ensures OpenData(img, AsciiBytes(name + "," + "W")) == Fails(StatusOk, Some(Status(26, 0, 0)))
    ensures OpenData(img, AsciiBytes(name + "," + "A")) == Fails(StatusOk, Some(Status(26, 0, 0)))
    ensures OpenData(img, AsciiBytes(name + "," + "R")) == OpenData(img, AsciiBytes(name))
  {
    hide ParseSpec, Whole, Listing, PrgFrom, Find, Program, DirectoryLines, Target, IsDirectory, AsciiBytes, Alias,
      UpperCase;
    Capitals();
    SingleLetters();
    BehindSpec(name, "W");
    BehindSpec(name, "A");
    BehindSpec(name, "R");
    WholeSpec(name);
    SameTarget(name);
  }

  lemma SameTarget(name: string)
    ensures Target(Spec(name, "", "R")) == Target(Spec(name, "", ""))
    ensures IsDirectory(Spec(name, "", "R")) == IsDirectory(Spec(name, "", ""))
  {
  }

  lemma SingleLetters()
    ensures forall c: char | 'A' <= c <= 'Z' :: Part([c])
    ensures Alias("W") == Alias("A") == Alias("R") == ""
  {
    forall c: char | 'A' <= c <= 'Z' ensures Part([c]) {
      assert UpperCase([c]) == [c];
    }
  }

  /** A type behind the name leaves only the files of this type. */
  lemma TypeBehind(img: seq<byte>, name: string, part: string, kind: string)
    requires Mountable(img) && Plain(name) && (part, kind) in {("P", "PRG"), ("S", "SEQ"), ("U", "USR")}
    requires forall e <- Listing(img).value :: e.kind != kind
    ensures OpenData(img, AsciiBytes(name + "," + part)) == Fails(NotFound, Some(Status(62, 0, 0)))
  {
    hide ParseSpec, Whole, Listing, PrgFrom, Glob, Program, DirectoryLines, Target, AsciiBytes, UpperCase;
    var entries := Listing(img).value;
    SingleLetters();
    assert Part(part);
    BehindSpec(name, part);
    WholeSpec(name);
    assert IsDirectory(Spec(name, kind, "")) == IsDirectory(Spec(name, "", ""));
    assert Kinds(kind) == {kind};
    FindMeans(entries, {kind}, Target(Spec(name, kind, "")));
  }

  lemma BehindSpec(name: string, part: string)
    requires Plain(name) && Part(part)
    ensures ParseSpec(AsciiBytes(name + "," + part)) ==
              if Alias(part) != "" then Spec(name, Alias(part), "") else Spec(name, "", part)
  {
    hide Strip, Normalized, C64Name, Modifiers, Split, Unquoted, AsciiBytes, ParseSpec, UpperCase, Alias, Whole;
    WholeNormalized(name);
    JoinedBare(name, ",", part);
    WholeEnds(name);
    SplitPair(part, part);
    OneModifier(part);
    SpecParts(name, part, name);
  }

  // --------------------------------------------------------------------- patterns

  predicate Literal(p: string) { forall i | 0 <= i < |p| :: p[i] !in {'*', '?', '['} }

  /** Ordinary characters match only themselves. */
  lemma {:induction false} OnlyItself(p: string, s: string)
    requires Literal(p)
    ensures Glob(p, s) <==> p == s
    decreases |p|
  {
    if p != "" && s != "" {
      assert p[0] !in {'*', '?', '['};
      assert forall i | 0 <= i < |p[1..]| :: p[1..][i] == p[i + 1];
      OnlyItself(p[1..], s[1..]);
      assert p == [p[0]] + p[1..] && s == [s[0]] + s[1..];
    }
  }

  /** A `?` matches any one character. */
  lemma {:induction false} AnyCharacters(n: nat, s: string)
    ensures Glob(seq(n, _ => '?'), s) <==> |s| == n
    decreases n
  {
    if n > 0 && s != "" {
      assert seq(n, _ => '?')[1..] == seq(n - 1, _ => '?');
      AnyCharacters(n - 1, s[1..]);
    }
  }

  lemma {:induction false} EndsWith(q: string, s: string)
    requires Literal(q)
    ensures Glob("*" + q, s) <==> |q| <= |s| && s[|s| - |q|..] == q
    decreases |s|
  {
    hide Glob, Literal;
    StarStep(q, s);
    OnlyItself(q, s);
    if s != "" {
      EndsWith(q, s[1..]);
      assert |q| < |s| ==> s[1..][|s| - 1 - |q|..] == s[|s| - |q|..];
      assert |q| == |s| ==> s[|s| - |q|..] == s;
    }
  }

  lemma StarStep(q: string, s: string)
    ensures Glob("*" + q, s) <==> Glob(q, s) || (s != "" && Glob("*" + q, s[1..]))
  {
    assert ("*" + q)[1..] == q && ("*" + q)[0] == '*';
  }

  /** A star between two texts matches what begins with one and ends with the other behind it. */
  lemma {:induction false} StarBetween(p: string, q: string, s: string)
    requires Literal(p) && Literal(q)
    ensures Glob(p + "*" + q, s) <==> |p| + |q| <= |s| && p <= s && s[|s| - |q|..] == q
    decreases |p|
  {
    if p == "" {
      assert p + "*" + q == "*" + q;
      EndsWith(q, s);
    } else {
      var pat := p + "*" + q;
      assert p[0] !in {'*', '?', '['} && pat[0] == p[0] && pat[1..] == p[1..] + "*" + q;
      assert forall i | 0 <= i < |p[1..]| :: p[1..][i] == p[i + 1];
      if s != "" {
        StarBetween(p[1..], q, s[1..]);
        assert p <= s <==> p[0] == s[0] && p[1..] <= s[1..];
        assert |q| < |s| ==> s[1..][|s| - 1 - |q|..] == s[|s| - |q|..];
      }
    }
  }

  predicate Items(items: string) { items != "" && forall i | 0 <= i < |items| :: items[i] !in {']', '-', '!'} }

  lemma {:induction false} AmongItems(items: string, c: char)
    requires forall i | 0 <= i < |items| :: items[i] !in {']', '-', '!'}
    ensures Among(items, c) <==> c in items
    decreases |items|
  {
    if items != "" {
      assert forall i | 0 <= i < |items[1..]| :: items[1..][i] == items[i + 1];
      AmongItems(items[1..], c);
      assert items == [items[0]] + items[1..];
      assert |items| >= 2 ==> items[1] != '-';
    }
  }

  lemma {:induction false} SetEndsAt(pat: string, j: nat, k: nat)
    requires j <= k < |pat| && pat[k] == ']' && forall i | j <= i < k :: pat[i] != ']'
    ensures SetEnd(pat, j) == k
    decreases k - j
  {
    if j < k {
      SetEndsAt(pat, j + 1, k);
    }
  }

  /** A set matches one of its characters. */
  lemma SetMatches(items: string, rest: string, c: char, s: string)
    requires Items(items)
    ensures Glob("[" + items + "]" + rest, [c] + s) <==> c in items && Glob(rest, s)
  {
    hide Among, Glob;
    AmongItems(items, c);
    var (p, k) := ("[" + items + "]" + rest, |items| + 1);
    assert forall i | 1 <= i < k :: p[i] == items[i - 1];
    assert p[1] == items[0] && p[k] == ']';
    SetEndsAt(p, 1, k);
    assert Closing(p) == k && p[1..k] == items && p[k + 1..] == rest && ([c] + s)[1..] == s;
    SetStep(p, [c] + s);
    assert items[0] != '!';
  }

  /** With `!` it matches any other character. */
  lemma OtherMatches(items: string, rest: string, c: char, s: string)
    requires Items(items)
    ensures Glob("[!" + items + "]" + rest, [c] + s) <==> c !in items && Glob(rest, s)
  {
    hide Among, Glob;
    AmongItems(items, c);
    var (p, k) := ("[!" + items + "]" + rest, |items| + 2);
    assert forall i | 2 <= i < k :: p[i] == items[i - 2];
    assert p[1] == '!' && p[2] == items[0] && p[k] == ']';
    SetEndsAt(p, 2, k);
    assert p[1..k] == "!" + items && ("!" + items)[1..] == items;
    assert Closing(p) == k && p[k + 1..] == rest && ([c] + s)[1..] == s;
    SetStep(p, [c] + s);
  }

  /** A bracket directly behind the opening one is a character of the set. */
  lemma BracketMatches(items: string, c: char)
    requires Items(items)
    ensures Glob("[]" + items + "]", [c]) <==> c == ']' || c in items
  {
    hide Among, Glob;
    var p := "[]" + items + "]";
    var k := |items| + 2;
    assert p[0] == '[' && p[1] == ']' && p[k] == ']' && forall i | 2 <= i < k :: p[i] == items[i - 2];
    SetEndsAt(p, 2, k);
    assert Closing(p) == k && p[1..k] == "]" + items && p[k + 1..] == "" && [c][1..] == "";
    SetStep(p, [c]);
    OnlyItself("", "");
    BracketAmong(items, c);
  }

  lemma BracketAmong(items: string, c: char)
    requires Items(items)
    ensures Among("]" + items, c) <==> c == ']' || c in items
  {
    AmongItems(items, c);
    assert ("]" + items)[1..] == items && ("]" + items)[1] == items[0];
  }

  /** A range matches every character from its first to its last. */
  lemma RangeMatches(a: char, b: char, c: char)
    requires a !in {']', '!'} && b != ']'
    ensures Glob(['[', a, '-', b, ']'], [c]) <==> a <= c <= b
  {
    hide Glob, Among;
    RangeAmong(a, b, c);
    var p := ['[', a, '-', b, ']'];
    SetEndsAt(p, 1, 4);
    assert Closing(p) == 4 && p[1..4] == [a, '-', b] && p[5..] == "" && [c][1..] == "";
    SetStep(p, [c]);
    OnlyItself("", "");
  }

  lemma RangeAmong(a: char, b: char, c: char)
    ensures Among([a, '-', b], c) <==> a <= c <= b
  {
    assert [a, '-', b][3..] == [];
  }

  lemma SetStep(p: string, s: string)
    requires p != "" && p[0] == '[' && Closing(p) < |p| && s != ""
    ensures Glob(p, s) <==> InSet(p[1..Closing(p)], s[0]) && Glob(p[Closing(p) + 1..], s[1..])
  {
    hide InSet, Closing;
  }

  // ---------------------------------------------------------------------- numbers

  /** A sign, and leading zeros, which only zero may have. */
  lemma NumberSigns(n: nat)
    ensures Number("+" + Decimal(n)) == Some(n) && Number("-" + Decimal(n)) == Some(0 - n)
    ensures Number("0" + Decimal(n)) == if n == 0 then Some(0) else None
  {
    hide Digits, Decimal;
    DecimalDigits(n);
    var d := Decimal(n);
    NumberReadsBack(n);
    assert ("+" + d)[1..] == d && ("-" + d)[1..] == d;
    assert forall i | 0 <= i < |d| :: '0' <= d[i] <= '9';
    assert d[0] !in {'x', 'X', 'o', 'O', 'b', 'B', '+', '-'} && (|d| >= 2 ==> '0' <= d[1] <= '9');
    DigitsBehindZero(d);
    assert ("0" + d)[0] == '0' && ("0" + d)[1] == d[0];
  }

  lemma {:induction false} DigitsBehindZero(d: string)
    requires d != "" && forall i | 0 <= i < |d| :: '0' <= d[i] <= '9'
    ensures Digits("0" + d, 10) == Digits(d, 10)
    decreases |d|
  {
    var z := "0" + d;
    var n := |d| - 1;
    assert z[n + 1] == d[n] && z[..n + 1] == "0" + d[..n];
    if n == 0 {
      assert d[..0] == "" && "0" + d[..0] == "0" && z[0] == '0';
      assert Digits("0", 10) == Some(0);
    } else {
      assert z[n] == d[n - 1] != '_';
      DigitsBehindZero(d[..n]);
    }
  }

  function HexChar(d: nat): char
    requires d < 16
  {
    if d < 10 then ('0' as int + d) as char else ('a' as int + d - 10) as char
  }

  function HexText(n: nat): string { if n < 16 then [HexChar(n)] else HexText(n / 16) + [HexChar(n % 16)] }

  lemma {:induction false} HexDigits(n: nat)
    ensures var s := HexText(n); s != "" && Digits(s, 16) == Some(n) && (forall i | 0 <= i < |s| :: s[i] != '_')
    decreases n
  {
    hide Digits, DigitValue, HexChar;
    HexDigit(n % 16);
    if n >= 16 {
      HexDigits(n / 16);
      DigitAdded(HexText(n / 16), HexChar(n % 16));
    }
  }

  lemma HexDigit(d: nat)
    requires d < 16
    ensures DigitValue(HexChar(d)) == d && HexChar(d) != '_' && Digits([HexChar(d)], 16) == Some(d)
  {
    assert [HexChar(d)][0] == HexChar(d);
  }

  lemma DigitAdded(s: string, c: char)
    requires s != "" && s[|s| - 1] != '_' && Digits(s, 16).Some? && DigitValue(c) < 16
    ensures Digits(s + [c], 16) == Some(16 * Digits(s, 16).value + DigitValue(c))
  {
    hide DigitValue, Digits;
    var t := s + [c];
    assert t[..|t| - 1] == s && t[|t| - 1] == c && t[|t| - 2] == s[|s| - 1];
    DigitsStep(t);
  }

  lemma DigitsStep(t: string)
    requires |t| > 1 && DigitValue(t[|t| - 1]) < 16 && t[|t| - 2] != '_' && Digits(t[..|t| - 1], 16).Some?
    ensures Digits(t, 16) == Some(16 * Digits(t[..|t| - 1], 16).value + DigitValue(t[|t| - 1]))
  {
    hide DigitValue;
  }

  /** A hexadecimal number, also with an underscore behind its prefix. */
  lemma HexReadsBack(n: nat)
    ensures Number("0x" + HexText(n)) == Number("0X" + HexText(n)) == Number("0x_" + HexText(n)) == Some(n)
  {
    hide HexText, Digits;
    HexDigits(n);
    var s := HexText(n);
    assert ("0x" + s)[2..] == s && ("0X" + s)[2..] == s && ("0x_" + s)[2..] == "_" + s && ("_" + s)[1..] == s;
    assert s[0] != '_';
  }

  /** Binary and octal numbers. */
  lemma OtherBases()
    ensures Number("0b101") == Number("0B101") == Some(5) && Number("0o17") == Number("0O17") == Some(15)
  {
    assert "101"[..2] == "10" && "10"[..1] == "1" && Digits("1", 2) == Some(1) && Digits("10", 2) == Some(2);
    assert "17"[..1] == "1" && Digits("1", 8) == Some(1);
    assert "0b101"[2..] == "0B101"[2..] == "101" && "0o17"[2..] == "0O17"[2..] == "17";
  }

  /** Underscores stand between digits, one at a time. */
  lemma Underscores(n: nat)
    ensures Number(Decimal(n) + "_") == Number(Decimal(n) + "__0") == None
    ensures n > 0 ==> Number(Decimal(n) + "_0") == Some(10 * n)
  {
    hide Decimal, Digits;
    DecimalDigits(n);
    var d := Decimal(n);
    assert forall i | 0 <= i < |d| :: '0' <= d[i] <= '9';
    var (one, two, ten) := (d + "_", d + "__0", d + "_0");
    assert one[0] == two[0] == ten[0] == d[0] && '0' <= d[0] <= '9';
    assert one[1] in d || one[1] == '_';
    assert two[1] in d || two[1] == '_';
    assert ten[1] in d || ten[1] == '_';
    UnderscoreDigits(d);
  }

  lemma UnderscoreDigits(d: string)
    requires d != "" && Digits(d, 10).Some?
    ensures Digits(d + "_", 10) == Digits(d + "__0", 10) == None
    ensures Digits(d + "_0", 10) == Some(10 * Digits(d, 10).value)
  {
    var (one, two, ten) := (d + "_", d + "__0", d + "_0");
    assert one[|d|] == '_' && Digits(one, 10) == None;
    assert two[|d| + 2] == '0' && two[|d| + 1] == '_' && two[..|d| + 1] == one;
    assert ten[|d| + 1] == '0' && ten[|d|] == '_' && ten[..|d|] == d;
  }

  lemma NoNumber()
    ensures Number("") == Number("0x") == Number("0b2") == Number("A") == None
  {
  }

  /** How many numbers a block read has decides what they are. */
  lemma BlockForms(a: int, b: int, c: int, d: int)
    ensures ParseBlock([a, b, c, d]) == BlockRead(a % 16, c, d) && ParseBlock([a, b, c]) == BlockRead(a % 16, b, c)
    ensures ParseBlock([a, b]) == BlockRead(2, a, b) && ParseBlock([a]) == ParseBlock([]) == NoNumbers
  {
  }

  lemma CommaForm(track: nat, sector: nat)
    ensures var tail := "0," + (Decimal(track) + "," + Decimal(sector));
            Spaced(tail) == "0 " + (Decimal(track) + " " + Decimal(sector))
  {
    hide Decimal;
    DecimalDigits(track);
    DecimalDigits(sector);
  }

  lemma BehindColon(head: string, tail: string, parts: seq<string>)
    requires IndexOf(head, ':') == |head| && Parts(Spaced(tail)) == parts
    requires parts != [] && !StartsWith(UpperCase(parts[0]), "B-")
    ensures Numbers(head + ":" + tail) == NumbersOf(parts)
  {
    hide Parts, Spaced, NumbersOf, UpperCase;
    var c := head + ":" + tail;
    assert c[|head|] == ':' && forall i | 0 <= i < |head| :: c[i] == head[i];
    assert IndexOf(c, ':') == |head| && c[|head| + 1..] == tail;
  }

  /** A colon and commas in place of spaces. */
  lemma NumbersBehindColon(track: nat, sector: nat)
    ensures Numbers("B-R" + ":" + ("0," + (Decimal(track) + "," + Decimal(sector)))) == [0, track, sector]
  {
    hide NumbersOf, Decimal, Parts, Spaced, Numbers, UpperCase;
    CommaForm(track, sector);
    LastParts(track, sector);
    ThreeNumbers(track, sector);
    NoneFound("B-R", ':');
    ZeroIsNoName();
    BehindColon("B-R", "0," + (Decimal(track) + "," + Decimal(sector)), ["0", Decimal(track), Decimal(sector)]);
  }

  lemma ZeroIsNoName()
    ensures !StartsWith(UpperCase("0"), "B-")
  {
  }

  lemma ThreeNumbers(track: nat, sector: nat)
    ensures NumbersOf(["0", Decimal(track), Decimal(sector)]) == [0, track, sector]
  {
    hide Decimal, Number, NumbersOf;
    PointerNumbers(track, sector);
    OneNumber(0, [Decimal(track), Decimal(sector)]);
    assert Decimal(0) == "0" by { DecimalDigits(0); }
    assert ["0", Decimal(track), Decimal(sector)] == [Decimal(0)] + [Decimal(track), Decimal(sector)];
  }

  // ------------------------------------------------------------------- directory

  /** The program is there exactly if all its addresses and line numbers have 16 bits. */
  lemma ProgramExactly(lines: seq<BasicLoader.Line>)
    ensures Program(lines).Some? <==>
            && 0x0801 + |BasicLoader.Text(lines, 0x0801)| - 2 <= 0xFFFF
            && forall i | 0 <= i < |lines| :: lines[i].number <= 0xFFFF
    ensures Program(lines).Some? ==> Program(lines).value == [0x01, 0x08] + BasicLoader.Text(lines, 0x0801)
  {
    hide BasicLoader.Text;
    if forall i | 0 <= i < |lines| :: lines[i].number <= 0xFFFF {
      forall l | l in lines ensures l.number < 0x10000 {
      }
    }
    if forall l <- lines :: l.number < 0x10000 {
      forall i | 0 <= i < |lines| ensures lines[i].number <= 0xFFFF {
        assert lines[i] in lines;
      }
    }
  }

  /** File types by number. */
  lemma TypesByNumber(t: nat)
    ensures FileType(0) == "DEL" && FileType(1) == "SEQ" && FileType(2) == "PRG" && FileType(3) == "USR"
    ensures FileType(4) == "REL" && (t > 4 ==> FileType(t) == "???")
  {
  }

  /** Printable characters stand for themselves, shifted spaces at the end are left out, and
      everything else is shown as a dot. */
  lemma {:induction false} NameShown(text: string, n: nat, b: byte)
    requires forall i | 0 <= i < |text| :: ' ' <= text[i] <= '~'
    ensures DecodeName(AsciiBytes(text) + seq(n, _ => 0xA0)) == text
    ensures b < 0x20 || 0x7E < b != 0xA0 ==> DecodeName([b]) == "."
    decreases n
  {
    hide DecodeName, Printable;
    var raw := AsciiBytes(text) + seq(n, _ => 0xA0);
    OneShown(b);
    if n > 0 {
      assert raw[|raw| - 1] == 0xA0 && raw[..|raw| - 1] == AsciiBytes(text) + seq(n - 1, _ => 0xA0);
      NameShown(text, n - 1, b);
      SpaceDropped(raw);
    } else {
      assert raw == AsciiBytes(text);
      TextShown(text);
    }
  }

  lemma SpaceDropped(raw: seq<byte>)
    requires raw != [] && raw[|raw| - 1] == 0xA0
    ensures DecodeName(raw) == DecodeName(raw[..|raw| - 1])
  {
    hide Printable;
  }

  lemma TextShown(text: string)
    requires forall i | 0 <= i < |text| :: ' ' <= text[i] <= '~'
    ensures DecodeName(AsciiBytes(text)) == text
  {
    var raw := AsciiBytes(text);
    assert RStripA0(raw) == raw;
    assert forall i | 0 <= i < |text| :: Printable(raw[i]) == text[i];
  }

  lemma OneShown(b: byte)
    ensures b < 0x20 || 0x7E < b != 0xA0 ==> DecodeName([b]) == "."
  {
  }

  /** The first line of the directory of a built image, and the last one. */
  lemma OuterLines(img: seq<byte>, entries: seq<Entry>)
    requires |img| == D64_SIZE && Labelled(SectorAt(img, BAM_INDEX))
    ensures var lines := DirectoryLines(img, entries);
            && lines[0] == BasicLoader.Line(0, AsciiBytes("\"" + "TESTDISK" + "\" " + "00 2A"))
            && lines[|entries| + 1] == BasicLoader.Line(FreeBlocks(img), AsciiBytes("BLOCKS FREE."))
  {
    hide AsciiBytes, FreeBlocks, SectorAt, DecodeName;
    TitleIs(SectorAt(img, BAM_INDEX));
  }

  /** The line of a file. */
  lemma FileLine(img: seq<byte>, prgs: seq<Prg>, i: nat)
    requires |img| == D64_SIZE && TotalBlocks(prgs) <= DATA_SECTORS && i < |prgs|
    ensures DirectoryLines(img, Catalog(prgs))[i + 1] ==
            BasicLoader.Line(Blocks(prgs[i]), AsciiBytes("\"" + ListedName(prgs[i].name) + "\" " + "PRG"))
  {
    hide TotalBlocks, Blocks, ListedName, AsciiBytes, FreeBlocks, Title;
    StartStep(prgs, i);
    assert DirectoryLines(img, Catalog(prgs))[i + 1] == EntryLine(Catalog(prgs)[i]);
  }

  lemma TitleIs(bam: seq<byte>)
    requires Labelled(bam)
    ensures |bam| == 256 && DecodeName(bam[0x90..0xA0]) == "TESTDISK"
  {
    hide DecodeName;
    assert AsciiBytes("TESTDISK") == [84, 69, 83, 84, 68, 73, 83, 75];
    assert bam[0x90..0xA0] == AsciiBytes("TESTDISK") + seq(8, _ => 0xA0);
    NameShown("TESTDISK", 8, 0);
  }
}
