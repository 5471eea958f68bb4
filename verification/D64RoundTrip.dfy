/** The readers applied to what the builder writes. */
module D64RoundTrip {
  import opened Bytes
  import opened D64Geometry
  import opened D64Layout
  import opened D64Readers

  // ------------------------------------------------------------------- files

  lemma BlockIsRead(img: seq<byte>, body: seq<byte>, first: nat, i: nat)
    requires |img| == D64_SIZE && Stored(img, body, first) && i < BlocksFor(|body|)
    ensures OnDisk(DataPos(first + i))
    ensures Here(img, DataPos(first + i)) == BlockBytes(body, first, i)
    ensures Next(img, DataPos(first + i)).track == 0 <==> i + 1 == BlocksFor(|body|)
    ensures i + 1 < BlocksFor(|body|) ==> Next(img, DataPos(first + i)) == DataPos(first + i + 1)
  {
    hide ReadWholeSector, ReadAnySector;
    DataNumberInverse(first + i);
    if i + 1 < BlocksFor(|body|) {
      DataNumberInverse(first + i + 1);
    }
    FullImageReads(img, DataPos(first + i));
  }

  lemma BlockPayload(body: seq<byte>, first: nat, i: nat)
    requires i < BlocksFor(|body|) && first + BlocksFor(|body|) <= DATA_SECTORS
    ensures i + 1 < BlocksFor(|body|) ==>
              BlockBytes(body, first, i)[2..] + body[CHUNK * (i + 1)..] == body[CHUNK * i..]
    ensures i + 1 == BlocksFor(|body|) ==> Tail(BlockBytes(body, first, i)) == body[CHUNK * i..]
  {
    hide DataPos;
    var c := Chunk(body, i);
    var sec := BlockBytes(body, first, i);
    if i + 1 == BlocksFor(|body|) {
      assert c == body[CHUNK * i..] && 1 <= |c|;
      assert sec[2..|c| + 2] == c;
    } else {
      assert c == body[CHUNK * i..CHUNK * (i + 1)] && |c| == CHUNK;
      assert sec[2..] == c;
    }
  }

  lemma {:induction false} StoredFromBlock(img: seq<byte>, body: seq<byte>, first: nat, i: nat)
    requires |img| == D64_SIZE && Stored(img, body, first) && i < BlocksFor(|body|)
    ensures FollowFrom(img, DataPos(first + i), i) == Ok(body[CHUNK * i..])
    decreases BlocksFor(|body|) - i
  {
    hide ReadWholeSector, ReadAnySector, BlockBytes, Tail, DataPos;
    BlockIsRead(img, body, first, i);
    BlockPayload(body, first, i);
    if i + 1 < BlocksFor(|body|) {
      StoredFromBlock(img, body, first, i + 1);
    }
  }

  /** The chain of a stored file visits the file's own blocks and no other data sector. */
  lemma {:induction false} ChainIsBlocks(img: seq<byte>, body: seq<byte>, first: nat, i: nat, n: nat, p: Pos)
    requires |img| == D64_SIZE && Stored(img, body, first) && i < BlocksFor(|body|) <= i + n
    requires OnDisk(p) && p.track != DIR_TRACK
    ensures p in ChainFrom(img, DataPos(first + i), n) <==> first + i <= DataNumber(p) < first + BlocksFor(|body|)
    decreases n
  {
    hide BlockBytes, DataPos, DataNumber, Here, Next, OnDisk, Stored, BlocksFor;
    assert first + BlocksFor(|body|) <= DATA_SECTORS by { StoredFits(img, body, first); }
    BlockIsRead(img, body, first, i);
    DataNumberInverse(first + i);
    DataPosInverse(p);
    if i + 1 < BlocksFor(|body|) {
      ChainIsBlocks(img, body, first, i + 1, n - 1, p);
    }
  }

  lemma StoredFits(img: seq<byte>, body: seq<byte>, first: nat)
    requires |img| == D64_SIZE && Stored(img, body, first)
    ensures first + BlocksFor(|body|) <= DATA_SECTORS
  {
  }

  /** A stored file is returned byte for byte by both chain readers. */
  lemma StoredReads(img: seq<byte>, f: Prg, first: nat)
    requires |img| == D64_SIZE && Stored(img, Body(f), first)
    ensures FollowFrom(img, DataPos(first), 0) == Ok(Body(f))
    ensures PrgFrom(img, DataPos(first), {}, []) == Ok(Body(f))
  {
    hide FollowFrom, PrgFrom, Stored;
    StoredFromBlock(img, Body(f), first, 0);
    assert Body(f)[CHUNK * 0..] == Body(f);
    ChainReadersAgree(img, DataPos(first));
  }

  // --------------------------------------------------------------- directory

  /** How the directory shows a file. */
  function Listed(f: Prg, first: nat): Entry
    requires first < DATA_SECTORS
  {
    Entry(FT_PRG, "PRG", true, DataPos(first), ListedName(f.name), Blocks(f))
  }

  /** Upper-cased, cut to 16 characters, unprintable characters shown as dots. */
  function ListedName(name: seq<ascii>): string {
    var n := UpperName(name);
    seq(|n|, i requires 0 <= i < |n| => Printable(n[i]))
  }

  lemma {:induction false} PaddingStripped(raw: seq<byte>, n: nat)
    requires forall b <- raw :: b < 128
    ensures RStripA0(raw + seq(n, _ => 0xA0)) == raw
  {
    var padded := raw + seq(n, _ => 0xA0);
    if n > 0 {
      assert padded[..|padded| - 1] == raw + seq(n - 1, _ => 0xA0);
      PaddingStripped(raw, n - 1);
    } else {
      assert padded == raw;
      assert raw != [] ==> raw[|raw| - 1] in raw;
    }
  }

  lemma EntryFields(f: Prg, first: nat)
    requires first < DATA_SECTORS
    ensures var e := DirEntry(f, first);
            && e[0] == FT_PRG && e[1] == DataPos(first).track && e[2] == DataPos(first).sector
            && e[3..19] == PetsciiName(f.name) && e[28] == 0 && e[29] == 0
            && e[30] == Lo(Blocks(f)) && e[31] == Hi(Blocks(f))
  {
    hide BlocksFor, DataPos, PetsciiName, Lo, Hi;
  }

  lemma EntryDecodes(f: Prg, first: nat)
    requires first + Blocks(f) <= DATA_SECTORS
    ensures DecodeEntry(DirEntry(f, first)) == Listed(f, first)
  {
    hide BlocksFor, DataPos, DirEntry, PetsciiName, DecodeName, ListedName, Lo, Hi, Body;
    EntryFields(f, first);
    NameDecodes(f.name);
    WordRoundTrip(Blocks(f));
    assert FT_PRG % 8 == 2;
  }

  lemma NameDecodes(name: seq<ascii>)
    ensures DecodeName(PetsciiName(name)) == ListedName(name)
  {
    hide UpperName, RStripA0, Printable;
    PaddingStripped(UpperName(name), 16 - |UpperName(name)|);
  }

  lemma {:induction false} SlotsDecode(slots: seq<seq<byte>>, group: seq<seq<byte>>, listed: seq<Entry>)
    requires forall e <- slots :: 30 <= |e| <= 32
    requires |group| == |listed| <= |slots|
    requires forall j | 0 <= j < |group| ::
               slots[j] == group[j] && slots[j][0] != 0 && DecodeEntry(slots[j]) == listed[j]
    requires forall j | |group| <= j < |slots| :: slots[j][0] == 0
    ensures SlotEntries(slots) == listed
    decreases |slots|
  {
    hide DecodeEntry;
    if slots != [] {
      if group != [] {
        SlotsDecode(slots[1..], group[1..], listed[1..]);
      } else {
        SlotsDecode(slots[1..], [], []);
      }
    }
  }

  lemma DirSectorDecodes(sec: seq<byte>, group: seq<seq<byte>>, link: Pos, listed: seq<Entry>)
    requires |group| == |listed| <= ENTRIES_PER_SECTOR
    requires forall e <- group :: |e| == 32 && e[0] != 0
    requires forall j | 0 <= j < |group| :: DecodeEntry(group[j]) == listed[j]
    requires IsDirSector(sec, group, link)
    ensures SectorEntries(sec) == listed
  {
    hide DecodeEntry;
    var slots := Slots(sec);
    forall j | 0 <= j < 8
      ensures j < |group| ==> slots[j] == group[j]
      ensures j >= |group| ==> slots[j][0] == 0
    {
      if j < |group| {
        assert Slot(sec, j) == sec[2 + 32 * j..34 + 32 * j];
      } else {
        assert Slot(sec, j)[0] == sec[2 + 32 * j];
      }
    }
    SlotsDecode(slots, group, listed);
  }

  function Catalog(prgs: seq<Prg>): (c: seq<Entry>)
    requires TotalBlocks(prgs) <= DATA_SECTORS
    ensures |c| == |prgs|
  {
    seq(|prgs|, i requires 0 <= i < |prgs| => (StartStep(prgs, i); Listed(prgs[i], Start(prgs, i))))
  }

  function DirEntries(prgs: seq<Prg>): (es: seq<seq<byte>>)
    requires TotalBlocks(prgs) <= DATA_SECTORS
    ensures |es| == |prgs|
    ensures forall e <- es :: |e| == 32 && e[0] == FT_PRG
  {
    seq(|prgs|, i requires 0 <= i < |prgs| => (StartStep(prgs, i); DirEntry(prgs[i], Start(prgs, i))))
  }

  ghost predicate Directory(img: seq<byte>, entries: seq<seq<byte>>)
    requires |img| == D64_SIZE && forall e <- entries :: |e| == 32
  {
    && |entries| <= MAX_FILES
    && forall g: nat | g < DirSectors(|entries|) ::
         IsDirSector(SectorAt(img, 358 + g), Group(entries, g), DirLink(DirSectors(|entries|), g))
  }

  ghost function DirPositions(g: nat): set<Pos>
    requires g <= 18
  {
    set s: byte | 1 <= s <= g :: Pos(DIR_TRACK, s)
  }

  lemma {:induction false} ListingFrom(img: seq<byte>, prgs: seq<Prg>, g: nat)
    requires |img| == D64_SIZE && TotalBlocks(prgs) <= DATA_SECTORS
    requires Directory(img, DirEntries(prgs)) && g < DirSectors(|prgs|)
    ensures EntriesFrom(img, Pos(DIR_TRACK, g + 1), DirPositions(g)) == Ok(Catalog(prgs)[7 * g..])
    decreases DirSectors(|prgs|) - g
  {
    hide ReadWholeSector, ReadAnySector, DecodeEntry, DirEntry, TotalBlocks, SectorEntries, Listed, IsDirSector,
      SectorAt, Directory, Catalog, DirEntries;
    var entries, listed := DirEntries(prgs), Catalog(prgs);
    DirectoryAt(img, entries, g);
    var p, groups := Pos(DIR_TRACK, g + 1), DirSectors(|prgs|);
    FullImageReads(img, p);
    assert SectorIndex(p) == 358 + g;
    var sec := SectorAt(img, 358 + g);
    var group := Group(entries, g);
    GroupDecodes(prgs, g, sec);
    assert p !in DirPositions(g);
    assert DirPositions(g) + {p} == DirPositions(g + 1);
    LinkIs(sec, group, DirLink(groups, g));
    if g + 1 < groups {
      ListingFrom(img, prgs, g + 1);
      assert Group(listed, g) + listed[7 * (g + 1)..] == listed[7 * g..];
    } else {
      assert Group(listed, g) + [] == listed[7 * g..];
    }
  }

  lemma DirectoryAt(img: seq<byte>, entries: seq<seq<byte>>, g: nat)
    requires |img| == D64_SIZE && (forall e <- entries :: |e| == 32) && Directory(img, entries)
    requires g < DirSectors(|entries|)
    ensures |entries| <= MAX_FILES
    ensures IsDirSector(SectorAt(img, 358 + g), Group(entries, g), DirLink(DirSectors(|entries|), g))
  {
    hide SectorAt, IsDirSector;
  }

  lemma LinkIs(sec: seq<byte>, group: seq<seq<byte>>, link: Pos)
    requires |group| <= ENTRIES_PER_SECTOR && forall e <- group :: |e| == 32
    requires IsDirSector(sec, group, link)
    ensures |sec| == SECTOR_SIZE && Pos(sec[0], sec[1]) == link
  {
  }

  lemma EntryAt(prgs: seq<Prg>, i: nat)
    requires TotalBlocks(prgs) <= DATA_SECTORS && i < |prgs|
    ensures DecodeEntry(DirEntries(prgs)[i]) == Catalog(prgs)[i]
  {
    hide DecodeEntry, DirEntry, Listed, TotalBlocks, BlocksFor, DataPos;
    StartStep(prgs, i);
    EntryDecodes(prgs[i], Start(prgs, i));
  }

  lemma GroupDecodes(prgs: seq<Prg>, g: nat, sec: seq<byte>)
    requires TotalBlocks(prgs) <= DATA_SECTORS && g < DirSectors(|prgs|) <= 18
    requires IsDirSector(sec, Group(DirEntries(prgs), g), DirLink(DirSectors(|prgs|), g))
    ensures SectorEntries(sec) == Group(Catalog(prgs), g)
  {
    hide DecodeEntry, DirEntries, Catalog, IsDirSector, SectorEntries, TotalBlocks;
    var entries, catalog := DirEntries(prgs), Catalog(prgs);
    var group, listed := Group(entries, g), Group(catalog, g);
    forall j | 0 <= j < |group| ensures DecodeEntry(group[j]) == listed[j] {
      EntryAt(prgs, 7 * g + j);
    }
    DirSectorDecodes(sec, group, DirLink(DirSectors(|prgs|), g), listed);
  }

  /** The directory lister returns the added files in order and nothing else. */
  lemma DirectoryReads(img: seq<byte>, prgs: seq<Prg>)
    requires |img| == D64_SIZE && TotalBlocks(prgs) <= DATA_SECTORS
    requires Directory(img, DirEntries(prgs))
    ensures Listing(img) == Ok(Catalog(prgs))
  {
    hide Directory, EntriesFrom, Catalog, DirEntries, TotalBlocks;
    ListingFrom(img, prgs, 0);
    assert DirPositions(0) == {};
    assert Catalog(prgs)[7 * 0..] == Catalog(prgs);
  }
}
