/** The command channel of the virtual 1541 (tools/virtual_1541/c64_1541_uart_gui.py): command
    strings, their numbers, and the status line. */
module DriveCommands {
  import opened Bytes
  import opened D64Geometry
  import opened DriveNames

  // --------------------------------------------------------------------- numbers

  function DigitValue(c: char): nat {
    if '0' <= c <= '9' then c as nat - '0' as nat
    else if 'a' <= c <= 'z' then c as nat - 'a' as nat + 10
    else if 'A' <= c <= 'Z' then c as nat - 'A' as nat + 10
    else 36
  }

  /** Digits, with single underscores between them. */
  function Digits(s: string, base: nat): Option<nat>
    requires 2 <= base <= 16
  {
    if s == "" then None
    else
      var n := |s| - 1;
      if DigitValue(s[n]) >= base then None
      else if n == 0 then Some(DigitValue(s[n]))
      else
        match Digits(if s[n - 1] == '_' then s[..n - 1] else s[..n], base)
        case None => None
        case Some(v) => Some(base * v + DigitValue(s[n]))
  }

  function Prefixed(s: string, base: nat): Option<nat>
    requires 2 <= base <= 16
  {
    Digits(if s != "" && s[0] == '_' then s[1..] else s, base)
  }

  /** A number without a sign: decimal without leading zeros, or with a prefix. */
  function Unsigned(s: string): Option<nat> {
    if |s| >= 2 && s[0] == '0' && s[1] in {'x', 'X'} then Prefixed(s[2..], 16)
    else if |s| >= 2 && s[0] == '0' && s[1] in {'o', 'O'} then Prefixed(s[2..], 8)
    else if |s| >= 2 && s[0] == '0' && s[1] in {'b', 'B'} then Prefixed(s[2..], 2)
    else
      var v := Digits(s, 10);
      if s != "" && s[0] == '0' && v != Some(0) then None else v
  }

  function Number(s: string): Option<int> {
    if s != "" && s[0] in {'+', '-'} then
      match Unsigned(s[1..])
      case None => None
      case Some(v) =>
        var i: int := v;
        Some(if s[0] == '-' then -i else i)
    else
      match Unsigned(s)
      case None => None
      case Some(v) => Some(v)
  }

  /** The parts between spaces. */
  function Parts(s: string): seq<string>
    decreases |s|
  {
    var k := IndexOf(s, ' ');
    var rest := if k < |s| then Parts(s[k + 1..]) else [];
    if k == 0 then rest else [s[..k]] + rest
  }

  function Spaced(s: string): string {
    seq(|s|, i requires 0 <= i < |s| => if s[i] == ',' then ' ' else s[i])
  }

  /** The parts that are numbers. */
  function NumbersOf(parts: seq<string>): seq<int> {
    if parts == [] then []
    else (if Number(parts[0]).Some? then [Number(parts[0]).value] else []) + NumbersOf(parts[1..])
  }

  function StartsWith(s: string, head: string): bool { head <= s }

  function Numbers(command: string): seq<int> {
    var k := IndexOf(command, ':');
    var parts := Parts(Spaced(if k < |command| then command[k + 1..] else command));
    NumbersOf(if parts != [] && StartsWith(UpperCase(parts[0]), "B-") then parts[1..] else parts)
  }

  // -------------------------------------------------------------------- commands

  /** A DOS command. `NoNumbers` is a block command without the numbers it needs. */
  datatype Dos =
    | Nothing | Reset | Restart | Validate | BlockRead(ch: nat, track: int, sector: int) | Pointer(ch: nat, at: nat)
    | NoNumbers | Protected | Memory | Unknown

  function ParseDos(command: string): Dos {
    var raw := Unquoted(command);
    var upper := UpperCase(raw);
    if upper == "" then Nothing
    else if upper == "UJ" then Restart
    else if upper in {"I", "I0", "UI", "UI+", "UI-"} then Reset
    else if upper == "V" || upper == "V0" then Validate
    else if StartsWith(upper, "B-R") then ParseBlock(Numbers(raw))
    else if StartsWith(upper, "B-P") then ParsePointer(Numbers(raw))
    else if StartsWith(upper, "B-W") || StartsWith(upper, "B-A") || StartsWith(upper, "B-F") || StartsWith(upper, "N:")
            || StartsWith(upper, "S:") || StartsWith(upper, "R:") || StartsWith(upper, "C:") || StartsWith(upper, "M-W")
            || StartsWith(upper, "M-E") then Protected
    else if StartsWith(upper, "M-R") then Memory
    else Unknown
  }

  /** Channel, drive, track and sector; channel, track and sector; or track and sector. */
  function ParseBlock(nums: seq<int>): Dos {
    if |nums| >= 4 then BlockRead(nums[0] % 16, nums[2], nums[3])
    else if |nums| == 3 then BlockRead(nums[0] % 16, nums[1], nums[2])
    else if |nums| == 2 then BlockRead(2, nums[0], nums[1])
    else NoNumbers
  }

  function ParsePointer(nums: seq<int>): Dos {
    if |nums| >= 2 then Pointer(nums[0] % 16, nums[1] % 256) else NoNumbers
  }

  // ---------------------------------------------------------------------- sectors

  /** The offset of a sector whose numbers may be anything. There is no check for negative
      sector numbers. */
  function Offset(track: int, sector: int): Option<int> {
    if 1 <= track <= 17 then if sector >= 21 then None else Some(((track - 1) * 21 + sector) * SECTOR_SIZE)
    else if 18 <= track <= 24 then if sector >= 19 then None else Some((357 + (track - 18) * 19 + sector) * SECTOR_SIZE)
    else if 25 <= track <= 30 then if sector >= 18 then None else Some((490 + (track - 25) * 18 + sector) * SECTOR_SIZE)
    else if 31 <= track <= 35 then if sector >= 17 then None else Some((598 + (track - 31) * 17 + sector) * SECTOR_SIZE)
    else None
  }

  /** `s[lo:hi]`, where negative bounds count from the end. */
  function PySlice(s: seq<byte>, lo: int, hi: int): (r: seq<byte>)
    ensures lo >= 0 && hi >= 0 ==> r == Slice(s, lo, hi)
  {
    var n := |s|;
    Slice(s, if lo >= 0 then lo else if n + lo >= 0 then n + lo else 0,
          if hi >= 0 then hi else if n + hi >= 0 then n + hi else 0)
  }

  function ReadSector(img: seq<byte>, track: int, sector: int): Option<seq<byte>> {
    match Offset(track, sector)
    case None => None
    case Some(at) => Some(PySlice(img, at, at + SECTOR_SIZE))
  }

  /** A block is read exactly if its track exists and its sector number is not too large. If
      the number is not negative either, it is the sector of these numbers. */
  lemma SectorRead(img: seq<byte>, track: int, sector: int)
    requires |img| == D64_SIZE
    ensures ReadSector(img, track, sector).Some? <==> 1 <= track <= 35 && sector < SectorsPerTrack(track)
    ensures 0 <= sector < SectorsPerTrack(track) ==>
              var p := Pos(track, sector);
              OnDisk(p) && ReadSector(img, track, sector) == Some(SectorAt(img, SectorIndex(p)))
  {
    hide SectorAt, PySlice, Offset, SectorIndex;
    OffsetExists(track, sector);
    if 0 <= sector < SectorsPerTrack(track) {
      OffsetOnDisk(track, sector);
      WholeSector(img, SectorIndex(Pos(track, sector)));
    }
  }

  lemma OffsetExists(track: int, sector: int)
    ensures Offset(track, sector).Some? <==> 1 <= track <= 35 && sector < SectorsPerTrack(track)
    ensures 0 <= sector < SectorsPerTrack(track) ==> 1 <= track <= 35
  {
  }

  lemma OffsetOnDisk(track: int, sector: int)
    requires 1 <= track <= 35 && 0 <= sector < SectorsPerTrack(track)
    ensures var p := Pos(track, sector);
            && OnDisk(p) && SectorIndex(p) < D64_SECTORS
            && Offset(track, sector) == Some(SectorIndex(p) * SECTOR_SIZE)
  {
    hide SectorIndex;
    IndexBijection(Pos(track, sector));
    IndexOfTrack(track, sector);
  }

  lemma IndexOfTrack(track: int, sector: int)
    requires 1 <= track <= 35 && 0 <= sector < SectorsPerTrack(track)
    ensures Offset(track, sector) == Some(SectorIndex(Pos(track, sector)) * SECTOR_SIZE)
  {
  }

  lemma WholeSector(img: seq<byte>, index: nat)
    requires |img| == D64_SIZE && index < D64_SECTORS
    ensures PySlice(img, index * SECTOR_SIZE, index * SECTOR_SIZE + SECTOR_SIZE) == SectorAt(img, index)
  {
  }

  /** Sector -1 of a track is the last one of the track before, and of track 1 it is empty. */
  lemma NegativeSector(img: seq<byte>)
    requires |img| == D64_SIZE
    ensures ReadSector(img, 18, -1) == Some(SectorAt(img, 356)) && ReadSector(img, 1, -1) == Some([])
  {
  }

  /** Negative sector numbers count back from the first sector of the track: over the sectors
      before it, then nothing for -1, and then over those at the end of the disk. */
  lemma NegativeSectors(img: seq<byte>, track: int, sector: int)
    requires |img| == D64_SIZE && 1 <= track <= 35 && sector < 0
    ensures var k := SectorIndex(Pos(track, 0)) + sector;
            ReadSector(img, track, sector) ==
              if k >= 0 then Some(SectorAt(img, k))
              else if -683 <= k < -1 then Some(SectorAt(img, 683 + k)) else Some([])
  {
    hide SectorAt;
    var k := SectorIndex(Pos(track, 0)) + sector;
    assert Offset(track, sector) == Some(k * SECTOR_SIZE);
    IndexBijection(Pos(track, 0));
    if k >= 0 {
      WholeSector(img, k);
    } else if -683 <= k < -1 {
      assert PySlice(img, k * SECTOR_SIZE, k * SECTOR_SIZE + SECTOR_SIZE) ==
             Slice(img, (683 + k) * SECTOR_SIZE, (683 + k) * SECTOR_SIZE + SECTOR_SIZE);
      WholeSector(img, 683 + k);
    }
  }

  /** Digits beyond 9 in either case. */
  lemma LetterDigits(c: char)
    ensures DigitValue(UpperChar(c)) == DigitValue(c)
    ensures DigitValue('0') == 0 && DigitValue('9') == 9 && DigitValue('A') == 10 && DigitValue('F') == 15
    ensures DigitValue(c) < 36 <==> '0' <= c <= '9' || 'a' <= c <= 'z' || 'A' <= c <= 'Z'
  {
  }

  // ------------------------------------------------------------------ status line

  datatype Status = Status(code: nat, track: int, sector: int)

  function Digit(n: nat): char
    requires n < 10
  {
    ('0' as int + n) as char
  }

  function Decimal(n: nat): (s: string)
    ensures s != ""
  {
    if n < 10 then [Digit(n)] else Decimal(n / 10) + [Digit(n % 10)]
  }

  function TwoDigits(n: int): string {
    if n < 0 then "-" + Decimal(-n) else if n < 10 then "0" + Decimal(n) else Decimal(n)
  }

  function Message(code: nat): string {
    if code == 0 then "OK"
    else if code == 26 then "WRITE PROTECT ON"
    else if code == 30 || code == 31 then "SYNTAX ERROR"
    else if code == 61 then "FILE NOT OPEN"
    else if code == 62 then "FILE NOT FOUND"
    else if code == 64 then "END OF FILE"
    else if code == 66 then "ILLEGAL TRACK OR SECTOR"
    else if code == 73 then "VIRTUAL 1541 UART"
    else "DRIVE NOT READY"
  }

  function StatusLine(s: Status): seq<byte> {
    AsciiBytes(TwoDigits(s.code) + "," + Message(s.code) + "," + TwoDigits(s.track) + "," + TwoDigits(s.sector))
  }

  // ------------------------------------------------------------------ round trips

  lemma {:induction false} DecimalDigits(n: nat)
    ensures forall i | 0 <= i < |Decimal(n)| :: '0' <= Decimal(n)[i] <= '9'
    ensures Digits(Decimal(n), 10) == Some(n) && (Decimal(n)[0] == '0' ==> n == 0)
    ensures n < 10 ==> Decimal(n) == [Digit(n)]
  {
    if n >= 10 {
      DecimalDigits(n / 10);
      var s, k := Decimal(n), |Decimal(n)| - 1;
      assert s[..k] == Decimal(n / 10) && s[k] == Digit(n % 10) && DigitValue(s[k]) == n % 10;
      assert s[k - 1] != '_' && s[0] == Decimal(n / 10)[0];
    }
  }

  /** A decimal number is read back. */
  lemma NumberReadsBack(n: nat)
    ensures Number(Decimal(n)) == Some(n)
  {
    hide Digits, Decimal;
    DecimalDigits(n);
    var s := Decimal(n);
    assert |s| >= 2 ==> '0' <= s[1] <= '9';
    assert '0' <= s[0] <= '9';
  }

  /** A word in front of others. */
  lemma FirstPart(w: string, rest: string)
    requires w != "" && forall i | 0 <= i < |w| :: w[i] != ' '
    ensures Parts(w + " " + rest) == [w] + Parts(rest) && Parts(w) == [w]
  {
    var s := w + " " + rest;
    assert s[|w|] == ' ' && forall i | 0 <= i < |w| :: s[i] == w[i];
    assert IndexOf(s, ' ') == |w| && IndexOf(w, ' ') == |w|;
    assert s[|w| + 1..] == rest && s[..|w|] == w && w[..|w|] == w;
  }

  /** A block read as it is sent, with drive 0. */
  function BlockCommand(ch: nat, track: nat, sector: nat): string {
    "B-R " + (Decimal(ch) + " " + ("0 " + (Decimal(track) + " " + Decimal(sector))))
  }

  /** Digits, spaces and the letters of a block command. */
  predicate BlockChar(c: char) { '0' <= c <= '9' || c in {' ', 'B', '-', 'R', 'P'} }

  predicate BlockText(s: string) { forall i | 0 <= i < |s| :: BlockChar(s[i]) }

  lemma JoinText(a: string, b: string)
    requires BlockText(a) && BlockText(b)
    ensures BlockText(a + b)
  {
  }

  lemma DecimalText(n: nat, rest: string)
    ensures BlockText(Decimal(n)) && Parts(Decimal(n)) == [Decimal(n)]
    ensures Parts(Decimal(n) + " " + rest) == [Decimal(n)] + Parts(rest)
    ensures '0' <= Decimal(n)[|Decimal(n)| - 1] <= '9'
  {
    hide Decimal, Parts;
    DecimalDigits(n);
    FirstPart(Decimal(n), rest);
  }

  lemma BlockParts(ch: nat, track: nat, sector: nat)
    ensures var s := BlockCommand(ch, track, sector);
            && Parts(s) == ["B-R", Decimal(ch), "0", Decimal(track), Decimal(sector)]
            && BlockText(s) && "B-R" <= s && '0' <= s[|s| - 1] <= '9'
  {
    hide Decimal, Parts, BlockText, BlockChar;
    var rest := "0 " + (Decimal(track) + " " + Decimal(sector));
    var b := Decimal(ch) + " " + rest;
    LastParts(track, sector);
    DecimalText(ch, rest);
    DecimalText(sector, "");
    FirstPart("B-R", b);
    assert "B-R " + b == "B-R" + " " + b;
    CommandText(ch, track, sector);
    LastChar(ch, track, sector);
  }

  lemma LastParts(track: nat, sector: nat)
    ensures Parts("0 " + (Decimal(track) + " " + Decimal(sector))) == ["0", Decimal(track), Decimal(sector)]
  {
    hide Decimal, Parts, BlockText;
    var c := Decimal(track) + " " + Decimal(sector);
    DecimalText(track, Decimal(sector));
    DecimalText(sector, "");
    FirstPart("0", c);
    assert "0 " + c == "0" + " " + c;
  }

  lemma LastChar(ch: nat, track: nat, sector: nat)
    ensures var s := BlockCommand(ch, track, sector); "B-R" <= s && s[|s| - 1] == Decimal(sector)[|Decimal(sector)| - 1]
  {
    hide Decimal;
  }

  lemma CommandText(ch: nat, track: nat, sector: nat)
    ensures BlockText(BlockCommand(ch, track, sector))
  {
    hide Decimal, Parts, BlockText, BlockChar;
    var c := Decimal(track) + " " + Decimal(sector);
    DecimalText(track, "");
    DecimalText(sector, "");
    DecimalText(ch, "");
    Constants();
    JoinText(Decimal(track), " ");
    JoinText(Decimal(track) + " ", Decimal(sector));
    JoinText("0 ", c);
    JoinText(Decimal(ch), " ");
    JoinText(Decimal(ch) + " ", "0 " + c);
    JoinText("B-R ", Decimal(ch) + " " + ("0 " + c));
  }

  lemma Constants()
    ensures BlockText(" ") && BlockText("0 ") && BlockText("B-R ") && BlockText("B-P ")
  {
  }

  lemma PlainText(s: string)
    requires BlockText(s)
    ensures UpperCase(s) == s && Spaced(s) == s && IndexOf(s, ':') == |s|
  {
  }

  /** The command is understood. */
  lemma BlockParsed(ch: nat, track: nat, sector: nat)
    ensures ParseDos(BlockCommand(ch, track, sector)) == BlockRead(ch % 16, track, sector)
  {
    hide Decimal, Parts, BlockText, BlockCommand, Strip, UpperCase, Spaced, Number;
    var s := BlockCommand(ch, track, sector);
    var parts := ["B-R", Decimal(ch), "0", Decimal(track), Decimal(sector)];
    BlockParts(ch, track, sector);
    PlainText(s);
    NothingToStrip(s, {' '});
    NothingToStrip(s, {'"'});
    assert s[0] == 'B' && s[1] == '-' && s[2] == 'R';
    Constants();
    assert UpperCase("B-R") == "B-R" by { HeadUpper(); }
    FourNumbers(ch, track, sector);
    assert parts[1..] == [Decimal(ch), "0", Decimal(track), Decimal(sector)];
  }

  lemma HeadUpper()
    ensures UpperCase("B-R") == "B-R"
  {
  }

  lemma FourNumbers(ch: nat, track: nat, sector: nat)
    ensures NumbersOf([Decimal(ch), "0", Decimal(track), Decimal(sector)]) == [ch, 0, track, sector]
  {
    hide Decimal, Number, NumbersOf;
    OneNumber(ch, ["0", Decimal(track), Decimal(sector)]);
    OneNumber(0, [Decimal(track), Decimal(sector)]);
    OneNumber(track, [Decimal(sector)]);
    OneNumber(sector, []);
    NoNumbersAtAll();
    DecimalDigits(0);
    assert Decimal(0) == "0";
    var b := ["0", Decimal(track), Decimal(sector)];
    assert [Decimal(ch), "0", Decimal(track), Decimal(sector)] == [Decimal(ch)] + b;
    assert ["0", Decimal(track), Decimal(sector)] == [Decimal(0)] + [Decimal(track), Decimal(sector)];
    assert [Decimal(track), Decimal(sector)] == [Decimal(track)] + [Decimal(sector)];
    assert [Decimal(sector)] == [Decimal(sector)] + [];
  }

  lemma NoNumbersAtAll()
    ensures NumbersOf([]) == []
  {
  }

  lemma OneNumber(n: nat, rest: seq<string>)
    ensures NumbersOf([Decimal(n)] + rest) == [n] + NumbersOf(rest)
  {
    hide Decimal, Number;
    NumberReadsBack(n);
    assert ([Decimal(n)] + rest)[1..] == rest;
  }
}
