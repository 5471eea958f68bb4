/** The directory of the virtual 1541 as a file (tools/virtual_1541/c64_1541_uart_gui.py): a
    BASIC program with one line for each entry. */
module DriveDirectory {
  import opened Bytes
  import opened D64Geometry
  import opened D64Readers
  import opened D64RoundTrip
  import opened D64Layout
  import opened D64Builder
  import opened DriveNames
  import BasicLoader

  type Line = BasicLoader.Line

  /** The program, if every address and line number has 16 bits. */
  function Program(lines: seq<Line>): Option<seq<byte>> {
    var text := BasicLoader.Text(lines, BasicLoader.LOAD);
    if BasicLoader.LOAD + |text| - 2 < 0x10000 && forall l <- lines :: l.number < 0x10000 then
      Some([Lo(BasicLoader.LOAD), Hi(BasicLoader.LOAD)] + text)
    else None
  }

  method MakeBasicPrg(lines: seq<Line>) returns (r: Option<seq<byte>>)
    ensures r == Program(lines)
  {
    hide BasicLoader.Text, BasicLoader.LineBytes, Lo, Hi;
    var addr: nat, body: seq<byte> := BasicLoader.LOAD, [];
    ghost var all := BasicLoader.Text(lines, addr);
    assert lines[0..] == lines;
    for i := 0 to |lines|
      invariant addr == BasicLoader.LineAddr(lines, BasicLoader.LOAD, i) == BasicLoader.LOAD + |body|
      invariant body + BasicLoader.Text(lines[i..], addr) == all && addr < 0x10000
      invariant forall j | 0 <= j < i :: lines[j].number < 0x10000
    {
      var line := lines[i];
      BasicLoader.TextSplit(lines, BasicLoader.LOAD, i);
      BasicLoader.LineIs(addr, line);
      BasicLoader.Regroup(body, BasicLoader.LineBytes(addr, line),
                          BasicLoader.Text(lines[i + 1..], addr + 5 + |line.body|));
      var next := addr + 4 + |line.body| + 1;
      if next / 256 > 255 || line.number / 256 > 255 {
        assert lines[i] in lines;
        return None;
      }
      body := body + ([Lo(next), Hi(next), Lo(line.number), Hi(line.number)] + line.body + [0]);
      addr := next;
    }
    BasicLoader.NoLines(lines[|lines|..], addr);
    return Some([Lo(BasicLoader.LOAD), Hi(BasicLoader.LOAD)] + (body + [0, 0]));
  }

  function Title(img: seq<byte>): string
    requires |img| == D64_SIZE
  {
    DecodeName(SectorAt(img, BAM_INDEX)[0x90..0xA0])
  }

  function Quoted(name: string, tail: string): string { "\"" + name + "\" " + tail }

  function EntryLine(e: Entry): Line { BasicLoader.Line(e.blocks, AsciiBytes(Quoted(e.name, e.kind))) }

  /** The title, the entries with their block counts, and the free blocks. */
  function DirectoryLines(img: seq<byte>, entries: seq<Entry>): (lines: seq<Line>)
    requires |img| == D64_SIZE
    ensures |lines| == |entries| + 2
  {
    [BasicLoader.Line(0, AsciiBytes(Quoted(Title(img), "00 2A")))]
    + seq(|entries|, i requires 0 <= i < |entries| => EntryLine(entries[i]))
    + [BasicLoader.Line(FreeBlocks(img), AsciiBytes("BLOCKS FREE."))]
  }

  method DirectoryPrg(img: seq<byte>, entries: seq<Entry>) returns (r: Option<seq<byte>>)
    requires |img| == D64_SIZE
    ensures r == Program(DirectoryLines(img, entries))
  {
    hide Program, Title;
    var lines := [BasicLoader.Line(0, AsciiBytes(Quoted(Title(img), "00 2A")))];
    for i := 0 to |entries|
      invariant |lines| == i + 1 && lines == DirectoryLines(img, entries)[..i + 1]
    {
      lines := lines + [EntryLine(entries[i])];
    }
    lines := lines + [BasicLoader.Line(FreeBlocks(img), AsciiBytes("BLOCKS FREE."))];
    assert lines == DirectoryLines(img, entries);
    r := MakeBasicPrg(lines);
  }

  predicate Visible(s: string) { forall i | 0 <= i < |s| :: ' ' <= s[i] <= '~' }

  lemma QuotedVisible(name: string, tail: string)
    requires Visible(name) && Visible(tail)
    ensures Visible(Quoted(name, tail)) && |Quoted(name, tail)| == |name| + |tail| + 3
  {
  }

  lemma VisibleBytes(s: string)
    requires Visible(s)
    ensures BasicLoader.ZeroFree(AsciiBytes(s))
  {
  }

  lemma DecodedVisible(raw: seq<byte>)
    ensures Visible(DecodeName(raw)) && |DecodeName(raw)| <= |raw|
  {
    hide Printable;
    StripShortens(raw);
    forall b: byte ensures ' ' <= Printable(b) <= '~' {
      PrintableVisible(b);
    }
  }

  lemma PrintableVisible(b: byte)
    ensures ' ' <= Printable(b) <= '~'
  {
  }

  lemma {:induction false} StripShortens(raw: seq<byte>)
    ensures |RStripA0(raw)| <= |raw|
  {
    if raw != [] && raw[|raw| - 1] == 0xA0 {
      StripShortens(raw[..|raw| - 1]);
    }
  }

  /** Short lines without a zero byte, and with a 16-bit number. */
  predicate ShortLine(l: Line) { BasicLoader.ZeroFree(l.body) && |l.body| <= 26 && l.number < 0x10000 }

  lemma {:induction false} ShortText(lines: seq<Line>, addr: nat)
    requires forall l <- lines :: ShortLine(l)
    ensures |BasicLoader.Text(lines, addr)| <= 2 + 31 * |lines|
    decreases |lines|
  {
    hide BasicLoader.LineBytes, BasicLoader.ZeroFree;
    if lines != [] {
      assert ShortLine(lines[0]);
      forall l | l in lines[1..] ensures ShortLine(l) {
      }
      ShortText(lines[1..], BasicLoader.NextAddr(addr, lines[0]));
    }
  }

  lemma EntryLineShort(prgs: seq<Prg>, i: nat)
    requires TotalBlocks(prgs) <= DATA_SECTORS && i < |prgs|
    ensures ShortLine(EntryLine(Catalog(prgs)[i]))
  {
    hide TotalBlocks, ListedName, BasicLoader.ZeroFree, Visible, Quoted, AsciiBytes;
    StartStep(prgs, i);
    var e := Catalog(prgs)[i];
    NameDecodes(prgs[i].name);
    DecodedVisible(PetsciiName(prgs[i].name));
    assert Visible("PRG") by { Letters(); }
    QuotedVisible(e.name, e.kind);
    VisibleBytes(Quoted(e.name, e.kind));
  }

  lemma Letters()
    ensures Visible("PRG") && Visible("00 2A") && Visible("BLOCKS FREE.")
  {
  }

  /** The directory of a built disk is a program of one line for each file and two more, and
      the loader's parser takes it apart again. Its last line has the number of blocks
      that data, directory and BAM leave free. */
  lemma BuiltDirectory(img: seq<byte>, prgs: seq<Prg>)
    requires |img| == D64_SIZE && TotalBlocks(prgs) <= DATA_SECTORS && |prgs| <= 126
    requires Accounted(img, |prgs|, TotalBlocks(prgs))
    ensures var lines := DirectoryLines(img, Catalog(prgs));
            && Program(lines).Some?
            && BasicLoader.ParseFrom(BasicLoader.LOAD, Program(lines).value[2..], 0, None, 0) ==
                 Some(BasicLoader.Parsed(|Program(lines).value| - 2, BasicLoader.ProgramCall(lines), |prgs| + 2))
            && lines[|prgs| + 1].number + 1 + DirSectors(|prgs|) + TotalBlocks(prgs) == D64_SECTORS
  {
    hide BasicLoader.Text, BasicLoader.ParseFrom, BasicLoader.ProgramCall, TotalBlocks, Catalog, EntryLine, FreeBlocks,
      Title, Quoted, AsciiBytes, Visible, BasicLoader.ZeroFree;
    var lines := DirectoryLines(img, Catalog(prgs));
    assert FreeBlocks(img) < 0x10000;
    forall k | 0 <= k < |lines| ensures ShortLine(lines[k]) {
      if 1 <= k <= |prgs| {
        EntryLineShort(prgs, k - 1);
        assert lines[k] == EntryLine(Catalog(prgs)[k - 1]);
      } else {
        OuterLineShort(img);
      }
    }
    ShortText(lines, BasicLoader.LOAD);
    assert forall k: nat :: k < |lines| ==> BasicLoader.ZeroFree(lines[k].body);
    BasicLoader.RoundTrip(lines);
    assert Program(lines).value[2..] == BasicLoader.Text(lines, BasicLoader.LOAD);
  }

  lemma OuterLineShort(img: seq<byte>)
    requires |img| == D64_SIZE && FreeBlocks(img) < 0x10000
    ensures ShortLine(BasicLoader.Line(0, AsciiBytes(Quoted(Title(img), "00 2A"))))
    ensures ShortLine(BasicLoader.Line(FreeBlocks(img), AsciiBytes("BLOCKS FREE.")))
  {
    hide BasicLoader.ZeroFree, Visible, Quoted, FreeBlocks;
    Letters();
    DecodedVisible(SectorAt(img, BAM_INDEX)[0x90..0xA0]);
    QuotedVisible(Title(img), "00 2A");
    VisibleBytes(Quoted(Title(img), "00 2A"));
    VisibleBytes("BLOCKS FREE.");
  }
}
