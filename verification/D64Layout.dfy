/** What tools/d64/create_test_d64.py writes: file chains on the data tracks, the
    directory on track 18, and the block availability map (BAM). */
module D64Layout {
  import opened Bytes
  import opened D64Geometry

  const FT_PRG: byte := 0x82
  const CHUNK := 254
  const DATA_SECTORS := 664
  const ENTRIES_PER_SECTOR := 7
  const MAX_FILES := 126

  type ascii = c: int | 0 <= c < 128

  /** The arguments of one `add_prg` call. */
  datatype Prg = Prg(name: seq<ascii>, load: int, payload: seq<byte>)

  // ------------------------------------------------------------- file chains

  /** Sector index of the k-th data sector: index order, track 18 left out. */
  function DataIndex(k: nat): nat { if k < 357 then k else k + 19 }

  function DataPos(k: nat): Pos
    requires k < DATA_SECTORS
  {
    PosAt(DataIndex(k))
  }

  /** The number of a data-track position in allocation order. */
  function DataNumber(p: Pos): int
  {
    SectorIndex(p) - if p.track > DIR_TRACK then 19 else 0
  }

  lemma DataNumberInverse(k: nat)
    requires k < DATA_SECTORS
    ensures OnDisk(DataPos(k)) && DataPos(k).track != DIR_TRACK && DataPos(k).track != 0
    ensures DataNumber(DataPos(k)) == k && SectorIndex(DataPos(k)) == DataIndex(k)
  {
  }

  lemma DataPosInverse(p: Pos)
    requires OnDisk(p) && p.track != DIR_TRACK
    ensures 0 <= DataNumber(p) < DATA_SECTORS && DataPos(DataNumber(p)) == p
  {
    IndexBijection(p);
    if p.track < 18 {
      assert SectorIndex(p) < 357;
    } else {
      assert SectorIndex(p) >= 376;
    }
  }

  function Body(f: Prg): (b: seq<byte>)
    ensures |b| == |f.payload| + 2
  {
    [Lo(f.load), Hi(f.load)] + f.payload
  }

  function BlocksFor(bytes: nat): nat { (bytes + CHUNK - 1) / CHUNK }

  function Blocks(f: Prg): (n: nat)
    ensures n >= 1
  {
    BlocksFor(|Body(f)|)
  }

  function TotalBlocks(prgs: seq<Prg>): nat {
    if prgs == [] then 0 else TotalBlocks(prgs[..|prgs| - 1]) + Blocks(prgs[|prgs| - 1])
  }

  /** Number of the first data block of file `i`: files are packed without gaps. */
  function Start(prgs: seq<Prg>, i: nat): nat
    requires i <= |prgs|
  {
    TotalBlocks(prgs[..i])
  }

  lemma {:induction false} StartStep(prgs: seq<Prg>, i: nat)
    requires i < |prgs|
    ensures Start(prgs, i + 1) == Start(prgs, i) + Blocks(prgs[i])
    ensures Start(prgs, i + 1) <= TotalBlocks(prgs)
    decreases |prgs| - i
  {
    assert prgs[..i + 1][..i] == prgs[..i];
    if i + 1 < |prgs| {
      StartStep(prgs, i + 1);
    } else {
      assert prgs[..i + 1] == prgs;
    }
  }

  function Chunk(body: seq<byte>, i: nat): (c: seq<byte>)
    ensures |c| <= CHUNK
  {
    Slice(body, CHUNK * i, CHUNK * i + CHUNK)
  }

  /** A sector: two link bytes, then the data, then zeros. */
  function LinkedSector(link: Pos, c: seq<byte>): (sec: seq<byte>)
    requires |c| <= CHUNK
    ensures |sec| == SECTOR_SIZE
  {
    [link.track, link.sector] + c + Zeros(CHUNK - |c|)
  }

  /** Sector `i` of a file whose blocks start at data block `first`: it links to the next
      block, and the last one gives the offset of its final byte instead. */
  function BlockBytes(body: seq<byte>, first: nat, i: nat): (sec: seq<byte>)
    requires i < BlocksFor(|body|) && first + BlocksFor(|body|) <= DATA_SECTORS
    ensures |sec| == SECTOR_SIZE
  {
    var c := Chunk(body, i);
    LinkedSector(if i + 1 < BlocksFor(|body|) then DataPos(first + i + 1) else Pos(0, |c| + 1), c)
  }

  ghost predicate Stored(img: seq<byte>, body: seq<byte>, first: nat)
    requires |img| == D64_SIZE
  {
    && first + BlocksFor(|body|) <= DATA_SECTORS
    && forall i: nat :: i < BlocksFor(|body|) ==>
         SectorAt(img, DataIndex(first + i)) == BlockBytes(body, first, i)
  }

  // --------------------------------------------------------------- directory

  function Upper(c: ascii): ascii { if 'a' as int <= c <= 'z' as int then c - 32 else c }

  function UpperName(name: seq<ascii>): (n: seq<byte>)
    ensures |n| == if |name| < 16 then |name| else 16
    ensures forall b <- n :: b < 128
  {
    seq(if |name| < 16 then |name| else 16, i requires 0 <= i < |name| => Upper(name[i]))
  }

  function PetsciiName(name: seq<ascii>): (n: seq<byte>)
    ensures |n| == 16
  {
    UpperName(name) + seq(16 - |UpperName(name)|, _ => 0xA0)
  }

  function EntryBytes(name: seq<ascii>, first: Pos, blocks: nat): (e: seq<byte>)
    ensures |e| == 32
  {
    [FT_PRG, first.track, first.sector] + PetsciiName(name) + Zeros(11) + [Lo(blocks), Hi(blocks)]
  }

  function DirEntry(f: Prg, first: nat): (e: seq<byte>)
    requires first < DATA_SECTORS
    ensures |e| == 32
  {
    EntryBytes(f.name, DataPos(first), Blocks(f))
  }

  function DirSectors(entries: nat): nat {
    if entries == 0 then 1 else (entries + ENTRIES_PER_SECTOR - 1) / ENTRIES_PER_SECTOR
  }

  function Group<T>(entries: seq<T>, g: nat): (r: seq<T>)
    ensures |r| <= ENTRIES_PER_SECTOR
    ensures forall j | 0 <= j < |r| :: 7 * g + j < |entries| && r[j] == entries[7 * g + j]
  {
    Slice(entries, 7 * g, 7 * g + 7)
  }

  /** A directory sector holding the entries of `group` and the given link. */
  ghost predicate IsDirSector(sec: seq<byte>, group: seq<seq<byte>>, link: Pos)
    requires |group| <= ENTRIES_PER_SECTOR && forall e <- group :: |e| == 32
  {
    && |sec| == SECTOR_SIZE
    && sec[0] == link.track && sec[1] == link.sector
    && (forall j | 0 <= j < |group| :: sec[2 + 32 * j..34 + 32 * j] == group[j])
    && (forall k | 2 + 32 * |group| <= k < SECTOR_SIZE :: sec[k] == 0)
  }

  function DirLink(groups: nat, g: nat): Pos
    requires g < groups <= 18
  {
    if g + 1 < groups then Pos(DIR_TRACK, g + 2) else Pos(0, 0xFF)
  }

  // --------------------------------------------------------------------- BAM

  function Pow2(n: nat): (p: nat)
    ensures p >= 1
  {
    if n == 0 then 1 else 2 * Pow2(n - 1)
  }

  /** Bit `s` of a number. */
  predicate Bit(v: nat, s: nat) { if s == 0 then v % 2 == 1 else Bit(v / 2, s - 1) }

  function PopCount(v: nat): nat {
    if v == 0 then 0 else v % 2 + PopCount(v / 2)
  }

  function FromBits(bits: seq<bool>): nat {
    if bits == [] then 0 else (if bits[0] then 1 else 0) + 2 * FromBits(bits[1..])
  }

  function Count(bits: seq<bool>): nat {
    if bits == [] then 0 else (if bits[0] then 1 else 0) + Count(bits[1..])
  }

  lemma {:induction false} FromBitsAppend(bits: seq<bool>, b: bool)
    ensures FromBits(bits + [b]) == FromBits(bits) + if b then Pow2(|bits|) else 0
    ensures Count(bits + [b]) == Count(bits) + if b then 1 else 0
    ensures FromBits(bits) < Pow2(|bits|) && Count(bits) <= |bits|
  {
    if bits != [] {
      assert (bits + [b])[1..] == bits[1..] + [b];
      FromBitsAppend(bits[1..], b);
    }
  }

  lemma {:induction false} FromBitsAt(bits: seq<bool>, s: nat)
    requires s < |bits|
    ensures Bit(FromBits(bits), s) == bits[s]
  {
    LowestBit(bits);
    if s > 0 {
      FromBitsAt(bits[1..], s - 1);
    }
  }

  lemma LowestBit(bits: seq<bool>)
    requires bits != []
    ensures FromBits(bits) / 2 == FromBits(bits[1..]) && (FromBits(bits) % 2 == 1 <==> bits[0])
  {
  }

  lemma {:induction false} FromBitsPopCount(bits: seq<bool>)
    ensures PopCount(FromBits(bits)) == Count(bits)
  {
    if bits != [] {
      LowestBit(bits);
      FromBitsPopCount(bits[1..]);
    }
  }

  /** `v` shifted left by `k` bits. */
  function Shifted(v: nat, k: nat): nat { if k == 0 then v else 2 * Shifted(v, k - 1) }

  /** Bits and population count of a number split after its lowest `k` bits. */
  lemma {:induction false} SplitBits(lo: nat, hi: nat, k: nat, s: nat)
    requires lo < Pow2(k)
    ensures Bit(lo + Shifted(hi, k), s) == if s < k then Bit(lo, s) else Bit(hi, s - k)
    ensures PopCount(lo + Shifted(hi, k)) == PopCount(lo) + PopCount(hi)
    decreases k
  {
    if k > 0 {
      var x := Shifted(hi, k - 1);
      SplitBits(lo / 2, hi, k - 1, if s == 0 then 0 else s - 1);
      assert (lo + 2 * x) / 2 == lo / 2 + x && (lo + 2 * x) % 2 == lo % 2;
    }
  }

  /** Free sectors of a track, in sector order. */
  function FreeBits(used: set<Pos>, track: nat): seq<bool>
    requires 1 <= track <= 35
  {
    seq(SectorsPerTrack(track), s requires 0 <= s < SectorsPerTrack(track) => Pos(track, s) !in used)
  }

  function BamBase(track: nat): nat
    requires 1 <= track <= 35
    ensures 4 <= BamBase(track) <= 140
  {
    4 + (track - 1) * 4
  }

  /** The bit a 1541 tests to see whether a sector is free. */
  predicate BamBit(bam: seq<byte>, track: nat, s: nat)
    requires |bam| == SECTOR_SIZE && 1 <= track <= 35 && s < 24
  {
    Bit(bam[BamBase(track) + 1 + s / 8], s % 8)
  }

  /** The three bitmap bytes of a track as one number. */
  function BamValue(bam: seq<byte>, track: nat): nat
    requires |bam| == SECTOR_SIZE && 1 <= track <= 35
  {
    var b := BamBase(track);
    bam[b + 1] as int + 256 * (bam[b + 2] as int + 256 * bam[b + 3] as int)
  }

  ghost predicate BamTrack(bam: seq<byte>, used: set<Pos>, track: nat)
    requires |bam| == SECTOR_SIZE && 1 <= track <= 35
  {
    && bam[BamBase(track)] == Count(FreeBits(used, track))
    && BamValue(bam, track) == FromBits(FreeBits(used, track))
  }

  ghost predicate IsBam(bam: seq<byte>, used: set<Pos>)
    requires |bam| == SECTOR_SIZE
  {
    forall t: nat | 1 <= t <= 35 :: BamTrack(bam, used, t)
  }

  /** In a BAM sector written for `used`, every track's free byte is the population
      count of its bitmap, and a bit is set exactly for the sectors not in `used`. */
  lemma BamExact(bam: seq<byte>, used: set<Pos>, track: nat, s: nat)
    requires |bam| == SECTOR_SIZE && IsBam(bam, used)
    requires 1 <= track <= 35 && s < SectorsPerTrack(track)
    ensures BamBit(bam, track, s) <==> Pos(track, s) !in used
    ensures bam[BamBase(track)] == PopCount(bam[BamBase(track) + 1])
                                   + PopCount(bam[BamBase(track) + 2])
                                   + PopCount(bam[BamBase(track) + 3])
  {
    hide Bit, PopCount, FromBits, Count;
    assert BamTrack(bam, used, track);
    FromBitsAt(FreeBits(used, track), s);
    FromBitsPopCount(FreeBits(used, track));
    ThreeBytes(bam[BamBase(track) + 1], bam[BamBase(track) + 2], bam[BamBase(track) + 3], s);
  }

  lemma ByteShift(v: nat)
    ensures Pow2(8) == 256 && Shifted(v, 8) == 256 * v
  {
    assert Shifted(v, 2) == 2 * Shifted(v, 1) == 4 * v;
    assert Shifted(v, 4) == 2 * Shifted(v, 3) == 4 * Shifted(v, 2);
    assert Shifted(v, 6) == 2 * Shifted(v, 5) == 4 * Shifted(v, 4);
  }

  lemma ThreeBytes(b0: byte, b1: byte, b2: byte, s: nat)
    requires s < 24
    ensures var v := b0 as int + 256 * (b1 as int + 256 * b2 as int);
            && Bit(v, s) == Bit(if s < 8 then b0 else if s < 16 then b1 else b2, s % 8)
            && PopCount(v) == PopCount(b0) + PopCount(b1) + PopCount(b2)
  {
    hide Bit, PopCount, Shifted, Pow2;
    ByteShift(b1 as int + 256 * b2 as int);
    ByteShift(b2);
    SplitBits(b0, b1 as int + 256 * b2 as int, 8, s);
    SplitBits(b1, b2, 8, if s < 8 then 0 else s - 8);
  }
}
