/** A built D64 image (tools/d64/create_test_d64.py) sector by sector and byte by byte. */
module D64Bytes {
  import opened Bytes
  import opened D64Geometry
  import opened D64Layout
  import opened D64Allocator
  import opened D64RoundTrip
  import opened D64Builder

  // ---------------------------------------------------------------------- sectors

  /** The sectors of a track, by the zone that the track is in. */
  lemma Zones(t: int)
    ensures 1 <= t <= 17 ==> SectorsPerTrack(t) == 21
    ensures 18 <= t <= 24 ==> SectorsPerTrack(t) == 19
    ensures 25 <= t <= 30 ==> SectorsPerTrack(t) == 18
    ensures 31 <= t <= 35 ==> SectorsPerTrack(t) == 17
    ensures t < 1 || t > 35 ==> SectorsPerTrack(t) == 0
  {
  }

  /** In index order every sector is followed by the next one of its track, or by the first
      one of the next track. */
  lemma NextIndex(i: nat)
    requires i + 1 < 683
    ensures PosAt(0) == Pos(1, 0) && PosAt(682) == Pos(35, 16)
    ensures var (p, q) := (PosAt(i), PosAt(i + 1));
            q == if p.sector + 1 < SectorsPerTrack(p.track) then Pos(p.track, p.sector + 1) else Pos(p.track + 1, 0)
  {
    hide PosAt;
    IndexBijection(Pos(35, 16));
    IndexBijection(Pos(1, 0));
    var p := PosAt(i);
    OnDiskTrack(p);
    var q := if p.sector + 1 < SectorsPerTrack(p.track) then Pos(p.track, p.sector + 1) else Pos(p.track + 1, 0);
    IndexFollows(p, q);
    IndexBijection(q);
  }

  lemma IndexFollows(p: Pos, q: Pos)
    requires OnDisk(p) && 1 <= p.track <= 35 && p != Pos(35, 16)
    requires q == if p.sector + 1 < SectorsPerTrack(p.track) then Pos(p.track, p.sector + 1) else Pos(p.track + 1, 0)
    ensures SectorIndex(q) == SectorIndex(p) + 1
  {
  }

  /** File blocks go through the sectors in this order, without track 18. */
  lemma DataOrder(k: nat)
    requires k < 664
    ensures DataPos(0) == Pos(1, 0) && DataPos(356) == Pos(17, 20) && DataPos(357) == Pos(19, 0)
    ensures k != 356 && k + 1 < 664 ==>
              var (p, q) := (DataPos(k), DataPos(k + 1));
              q == if p.sector + 1 < SectorsPerTrack(p.track) then Pos(p.track, p.sector + 1) else Pos(p.track + 1, 0)
  {
    hide PosAt;
    IndexBijection(Pos(1, 0));
    IndexBijection(Pos(17, 20));
    IndexBijection(Pos(19, 0));
    if k != 356 && k + 1 < 664 {
      NextIndex(DataIndex(k));
    }
  }

  // ------------------------------------------------------------------------ files

  /** A file starts with its load address. */
  lemma FileBytes(f: Prg)
    ensures Body(f)[..2] == [f.load % 256, f.load / 256 % 256] && Body(f)[2..] == f.payload
  {
  }

  /** As many blocks of 254 bytes as are needed. */
  lemma BlockCount(f: Prg)
    ensures 254 * (Blocks(f) - 1) < |f.payload| + 2 <= 254 * Blocks(f)
  {
  }

  /** A sector of a file: the position of the next one and 254 bytes, or in the last sector 0,
      the number of the last byte, the remaining bytes and zeros. */
  lemma ChainSector(body: seq<byte>, first: nat, i: nat)
    requires i < BlocksFor(|body|) && first + BlocksFor(|body|) <= DATA_SECTORS
    ensures 254 * i < |body|
    ensures var (sec, left) := (BlockBytes(body, first, i), |body| - 254 * i);
            if left > 254 then
              && i + 1 < BlocksFor(|body|) && Pos(sec[0], sec[1]) == DataPos(first + i + 1)
              && sec[2..] == body[254 * i..254 * i + 254]
            else
              && i + 1 == BlocksFor(|body|) && sec[0] == 0 && sec[1] as int == left + 1
              && sec[2..2 + left] == body[254 * i..] && forall k :: 2 + left <= k < 256 ==> sec[k] == 0
  {
    hide DataPos;
  }

  // -------------------------------------------------------------------- directory

  /** The entry of a file: closed PRG, first sector, name, zeros, and the number of blocks. */
  lemma EntryIs(f: Prg, first: nat)
    requires first < DATA_SECTORS && Blocks(f) < 0x10000
    ensures var e := DirEntry(f, first);
            && e[0] == 0x82 && Pos(e[1], e[2]) == DataPos(first) && e[3..19] == PetsciiName(f.name)
            && e[19..30] == seq(11, _ => 0) && e[30] as int + 256 * e[31] as int == Blocks(f)
  {
    hide DataPos, Blocks;
    assert Zeros(11) == seq(11, _ => 0);
  }

  /** A name: capital letters instead of small ones, cut to 16 characters or filled up with
      shifted spaces. */
  lemma NameIs(name: seq<ascii>, k: nat)
    requires k < 16
    ensures var b := PetsciiName(name)[k];
            if k >= |name| then b == 0xA0
            else if 0x61 <= name[k] <= 0x7A then b as int == name[k] as int - 0x20
            else b as int == name[k] as int
  {
  }

  /** The sectors of the directory: one for every seven files, at least one. */
  lemma DirectorySize(n: nat)
    ensures var d := DirSectors(n); d >= 1 && n <= 7 * d && (n > 7 ==> 7 * (d - 1) < n) && (n <= 7 ==> d == 1)
  {
  }

  /** Where the directory of a built image has the entry of file `i`: in sector 18/1, 18/2 and so
      on, seven to a sector, and after the last sector the chain ends. */
  lemma DirectoryBytes(img: seq<byte>, prgs: seq<Prg>, i: nat)
    requires |img| == D64_SIZE && TotalBlocks(prgs) <= DATA_SECTORS && Directory(img, DirEntries(prgs))
    requires i < |prgs|
    ensures Start(prgs, i) < DATA_SECTORS
    ensures var at := 91648 + 256 * (i / 7) + 2 + 32 * (i % 7);
            at + 32 <= |img| && img[at..at + 32] == DirEntry(prgs[i], Start(prgs, i))
  {
    hide TotalBlocks, DirEntry, Start, Directory, SectorAt;
    StartStep(prgs, i);
    var es := DirEntries(prgs);
    assert es[i] == DirEntry(prgs[i], Start(prgs, i));
    SlotOf(img, es, i);
    SectorBytes(img, 358 + i / 7, 2 + 32 * (i % 7), 34 + 32 * (i % 7));
  }

  lemma SlotOf(img: seq<byte>, es: seq<seq<byte>>, i: nat)
    requires |img| == D64_SIZE && (forall e <- es :: |e| == 32) && Directory(img, es) && i < |es|
    ensures i / 7 < 18 && SectorAt(img, 358 + i / 7)[2 + 32 * (i % 7)..34 + 32 * (i % 7)] == es[i]
  {
    hide SectorAt;
    var (g, j) := (i / 7, i % 7);
    assert i == 7 * g + j && g < DirSectors(|es|);
    assert IsDirSector(SectorAt(img, 358 + g), Group(es, g), DirLink(DirSectors(|es|), g));
    assert |Group(es, g)| == if 7 * g + 7 <= |es| then 7 else |es| - 7 * g;
    assert j < |Group(es, g)| && Group(es, g)[j] == es[i];
  }

  lemma SectorBytes(img: seq<byte>, index: nat, lo: nat, hi: nat)
    requires |img| == D64_SIZE && index < D64_SECTORS && lo <= hi <= 256
    ensures 256 * index + hi <= |img| && SectorAt(img, index)[lo..hi] == img[256 * index + lo..256 * index + hi]
  {
    var (a, b) := (SectorAt(img, index)[lo..hi], img[256 * index + lo..256 * index + hi]);
    forall k | 0 <= k < hi - lo ensures a[k] == b[k] {
      assert a[k] == SectorAt(img, index)[lo + k];
    }
  }

  /** Behind the entries of its last sector the directory has zeros. */
  lemma DirectoryRest(img: seq<byte>, prgs: seq<Prg>, g: nat)
    requires |img| == D64_SIZE && TotalBlocks(prgs) <= DATA_SECTORS && Directory(img, DirEntries(prgs))
    requires g < DirSectors(|prgs|)
    ensures DirSectors(|prgs|) <= 18
    ensures var (sec, left) := (SectorAt(img, 358 + g), |prgs| - 7 * g);
            && sec[..2] == (if g + 1 < DirSectors(|prgs|) then [18, g + 2] else [0, 0xFF])
            && forall k :: 2 + 32 * left <= k < 256 && k >= 2 ==> sec[k] == 0
  {
    hide TotalBlocks, DirEntry, Start, SectorAt;
    var es := DirEntries(prgs);
    var sec := SectorAt(img, 358 + g);
    assert IsDirSector(sec, Group(es, g), DirLink(DirSectors(|es|), g));
    assert |Group(es, g)| == if 7 * g + 7 <= |prgs| then 7 else if 7 * g <= |prgs| then |prgs| - 7 * g else 0;
  }

  // -------------------------------------------------------------------------- BAM

  /** Bit `s` of a byte, and how many bits of it are set. */
  lemma BitMeans(b: byte, s: nat)
    requires s < 8
    ensures Bit(b, s) <==>
            b as int / (if s == 0 then 1 else if s == 1 then 2 else if s == 2 then 4 else if s == 3 then 8
                        else if s == 4 then 16 else if s == 5 then 32 else if s == 6 then 64 else 128) % 2 == 1
  {
    Shift(b, s);
    Divisions(b);
  }

  /** `v` shifted right by `s` bits. */
  function ShiftedDown(v: nat, s: nat): nat { if s == 0 then v else ShiftedDown(v, s - 1) / 2 }

  lemma {:induction false} Shift(v: nat, s: nat)
    ensures Bit(v, s) <==> ShiftedDown(v, s) % 2 == 1
  {
    if s > 0 {
      Shift(v / 2, s - 1);
      ShiftFront(v, s - 1);
    }
  }

  lemma {:induction false} ShiftFront(v: nat, s: nat)
    ensures ShiftedDown(v / 2, s) == ShiftedDown(v, s) / 2
  {
    if s > 0 {
      ShiftFront(v, s - 1);
    }
  }

  lemma Divisions(b: byte)
    ensures ShiftedDown(b, 0) == b && ShiftedDown(b, 1) == b / 2 && ShiftedDown(b, 2) == b / 4
    ensures ShiftedDown(b, 3) == b / 8 && ShiftedDown(b, 4) == b / 16 && ShiftedDown(b, 5) == b / 32
    ensures ShiftedDown(b, 6) == b / 64 && ShiftedDown(b, 7) == b / 128
  {
    assert ShiftedDown(b, 3) == ShiftedDown(b, 2) / 2;
    assert ShiftedDown(b, 4) == ShiftedDown(b, 3) / 2;
    assert ShiftedDown(b, 5) == ShiftedDown(b, 4) / 2;
    assert ShiftedDown(b, 6) == ShiftedDown(b, 5) / 2;
    assert ShiftedDown(b, 7) == ShiftedDown(b, 6) / 2;
  }

  /** The four bytes of a track, from offset 4 on: how many sectors are free, and their bits,
      eight to a byte. */
  lemma BamPlaces(bam: seq<byte>, t: nat, s: nat)
    requires |bam| == 256 && 1 <= t <= 35 && s < 24
    ensures BamBase(t) == 4 * t && (BamBit(bam, t, s) <==> Bit(bam[4 * t + 1 + s / 8], s % 8))
  {
    hide Bit;
  }

  /** Free sectors are added up track by track. */
  lemma FreeAdds(bam: seq<byte>, t: nat)
    requires |bam| == 256 && 1 <= t <= 35
    ensures FreeUpTo(bam, 0) == 0 && FreeUpTo(bam, t) == FreeUpTo(bam, t - 1) + bam[4 * t] as int
  {
  }

  /** The bits of a byte that are set. */
  lemma BitsCounted(b: byte)
    ensures PopCount(b) == Ones(b, 8)
  {
    Ones8(b, 8);
  }

  function Ones(v: nat, n: nat): nat { if n == 0 then 0 else Ones(v, n - 1) + if Bit(v, n - 1) then 1 else 0 }

  lemma {:induction false} OnesFront(v: nat, n: nat)
    ensures Ones(v, n + 1) == v % 2 + Ones(v / 2, n)
  {
    if n > 0 {
      OnesFront(v, n - 1);
    }
  }

  lemma {:induction false} Ones8(v: nat, n: nat)
    requires v < Pow2(n)
    ensures PopCount(v) == Ones(v, n)
    decreases n
  {
    if n > 0 {
      Ones8(v / 2, n - 1);
      OnesFront(v, n - 1);
    }
  }
}
