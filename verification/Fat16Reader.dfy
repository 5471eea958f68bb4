/** Readers of a FAT16 card: the independent root-directory reader and D64 sector map of the
    SD hook (tools/test_c64_sd_hook.py), and a reader that follows FAT chains. */
module Fat16Reader {
  import opened Bytes
  import opened D64Geometry
  import opened Fat16Layout
  import opened Fat16Builder

  datatype Item = Item(short: seq<byte>, startLba: int)

  datatype ReadError = IndexError | Unsupported

  predicate IsD64Name(short: seq<byte>)
    requires |short| == 11
  {
    short[8..11] == [68, 54, 52]
  }

  /** The D64 files among the first `i`, with the blocks where they start. */
  function Listed(g: Geometry, files: seq<File>, i: nat): seq<Item>
    requires g.spc > 0 && i <= |files|
  {
    if i == 0 then []
    else
      var short := ShortName(files[i - 1].name);
      Listed(g, files, i - 1) + if IsD64Name(short) then [Item(short, StartLba(g, |files|, i - 1))] else []
  }

  /** A card made of acceptable files. */
  ghost predicate GoodCard(img: seq<byte>, g: Geometry, files: seq<File>) {
    g.spc > 0 && Buildable(g, |files|) && g.reserved > 0 && |files| <= g.rootEntries && Accepted(files)
      && IsCard(img, g, files)
  }

  lemma CardBoot(img: seq<byte>, g: Geometry, files: seq<File>)
    requires GoodCard(img, g, files)
    ensures var bs := g.partStart * BLOCK;
            && bs + BLOCK <= |img| && Le16(img, bs + 11) == BLOCK && img[bs + 13] == g.spc
            && Le16(img, bs + 14) == g.reserved && img[bs + 16] == g.numFats && Le16(img, bs + 17) == g.rootEntries
            && Le16(img, bs + 22) == FatSectors(g, |files|)
    ensures img[510] == 0x55 && img[511] == 0xAA
    ensures if g.partStart == 0 then img[450] == 0 else img[450] == 6 && Le32(img, 454) == g.partStart
  {
    hide Word, FatSectors, First, RootSectors, ShortName, Buildable, Entry;
    var bs := g.partStart * BLOCK;
    var b := img[bs..][..BLOCK];
    assert forall k :: 0 <= k < BLOCK ==> b[k] == img[bs + k];
  }

  lemma CardEntry(img: seq<byte>, g: Geometry, files: seq<File>, i: nat)
    requires GoodCard(img, g, files) && i < g.rootEntries
    ensures var off := g.partStart * BLOCK + EntryBase(g, |files|, i);
            && off + 32 <= |img|
            && if i >= |files| then img[off] == 0
               else var short := ShortName(files[i].name);
                    && img[off] == short[0] && img[off..off + 11] == short && img[off + 8..off + 11] == short[8..11]
                    && img[off + 11] == 0x20 && Le16(img, off + 26) == First(g, i)
  {
    hide FatSectors, First, RootSectors, RootBase, ShortName, Buildable, IsBoot, IsFat, FatBase, Word, Entry, DataBase;
    var n, bs := |files|, g.partStart * BLOCK;
    var at, v := EntryBase(g, n, i), img[bs..];
    assert img[bs + at] == v[at];
    if i < n {
      var e := Entry(files[i].name, First(g, i), |files[i].data|);
      assert Reads(v, at, e);
      FirstInFat(g, i, n);
      EntryFields(files[i].name, First(g, i), |files[i].data|);
      SliceOfSlice(img, bs, at, e, 0, 32);
      EntryBytes(img, bs + at, e);
    }
  }

  lemma EntryFields(name: seq<byte>, first: nat, size: nat)
    requires first < 0x10000
    ensures var (e, short) := (Entry(name, first, size), ShortName(name));
            e[0] == short[0] && e[..11] == short && e[8..11] == short[8..11] && e[11] == 0x20 && Le16(e, 26) == first
  {
    hide ShortName, Lo, Hi, Word;
    WordRoundTrip(first);
  }

  lemma EntryBytes(img: seq<byte>, off: nat, e: seq<byte>)
    requires |e| == 32 && off + 32 <= |img| && img[off..off + 32] == e[0..32]
    ensures img[off] == e[0] && img[off..off + 11] == e[..11] && img[off + 8..off + 11] == e[8..11]
    ensures img[off + 11] == e[11] && Le16(img, off + 26) == Le16(e, 26)
  {
    hide Word;
    assert forall k :: 0 <= k < 32 ==> img[off..off + 32][k] == img[off + k] && e[0..32][k] == e[k];
  }

  lemma FirstInFat(g: Geometry, i: nat, n: nat)
    requires Buildable(g, n) && i < n
    ensures 2 <= First(g, i) < First(g, n) < 0xFFF7
  {
    hide FatSectors, RootSectors;
    ClustersInVolume(g, n);
    ChainInFat(g, i, n);
  }

  /** What the boot sector tells. */
  datatype Volume = Volume(rootLba: nat, dataLba: nat, spc: nat, rootEntries: nat)

  function VolumeOf(g: Geometry, n: nat): Volume
    requires g.spc > 0
  {
    var root := g.partStart + g.reserved + Span(g.numFats, FatSectors(g, n));
    Volume(root, root + RootSectors(g), g.spc, g.rootEntries)
  }

  method ReadBoot(img: seq<byte>, ghost g: Geometry, ghost files: seq<File>) returns (r: Result<Volume, ReadError>)
    ensures GoodCard(img, g, files) ==> r == Ok(VolumeOf(g, |files|))
  {
    hide ShortName, FatSectors, First, RootBase, IsCard, Accepted, Buildable, Word, Span;
    if GoodCard(img, g, files) {
      CardBoot(img, g, files);
    }
    var partLba: nat := 0;
    if Slice(img, 510, 512) == [0x55, 0xAA] {
      if img[450] in [0x04, 0x06, 0x0E] {
        partLba := Le32(img, 454);
      }
    }
    var bs := partLba * BLOCK;
    if bs + 13 > |img| {
      return Err(IndexError);
    }
    if Le16(img, bs + 11) != BLOCK {
      return Err(Unsupported);
    }
    if bs + 24 > |img| {
      return Err(IndexError);
    }
    var spc: nat, reserved, fats: nat := img[bs + 13], Le16(img, bs + 14), img[bs + 16];
    var rootEntries, spf := Le16(img, bs + 17), Le16(img, bs + 22);
    var rootSecs := (rootEntries * 32 + 511) / 512;
    var rootLba := partLba + reserved + Span(fats, spf);
    return Ok(Volume(rootLba, rootLba + rootSecs, spc, rootEntries));
  }

  /** What a directory slot holds for the reader. */
  datatype Slot = End | Other | Found(item: Item) | Broken

  function SlotAt(img: seq<byte>, v: Volume, i: nat): Slot {
    var off := v.rootLba * BLOCK + i * 32;
    if off >= |img| then Broken
    else if img[off] == 0 then End
    else if img[off] == 0xE5 then Other
    else if off + 11 >= |img| then Broken
    else if img[off + 11] / 8 % 4 != 0 || img[off + 8..off + 11] != [68, 54, 52] then Other
    else if off + 28 > |img| then Broken
    else Found(Item(img[off..off + 11], v.dataLba + (Le16(img, off + 26) - 2) * v.spc))
  }

  lemma SlotOnCard(img: seq<byte>, g: Geometry, files: seq<File>, i: nat)
    requires GoodCard(img, g, files) && i < g.rootEntries
    ensures |files| <= g.rootEntries
    ensures SlotAt(img, VolumeOf(g, |files|), i) ==
            if i >= |files| then End
            else
              var short := ShortName(files[i].name);
              if IsD64Name(short) then Found(Item(short, StartLba(g, |files|, i))) else Other
  {
    hide ShortName, FatSectors, First, RootSectors, IsCard, Accepted, Buildable, Word;
    var n := |files|;
    CardEntry(img, g, files, i);
    assert VolumeOf(g, n).rootLba * BLOCK + i * 32 == g.partStart * BLOCK + EntryBase(g, n, i) by {
      RootAt(g, n);
    }
    if i < n {
      ShortNameVisible(files[i].name);
    }
  }

  lemma RootAt(g: Geometry, n: nat)
    requires g.spc > 0
    ensures VolumeOf(g, n).rootLba * BLOCK == g.partStart * BLOCK + RootBase(g, n)
  {
    hide FatSectors, RootSectors;
  }

  /** The reference reader. On a card that the builder made it lists exactly the files whose
      8.3 name ends in D64, in order, at the blocks where their data starts. */
  method ListD64(img: seq<byte>, ghost g: Geometry, ghost files: seq<File>) returns (r: Result<seq<Item>, ReadError>)
    ensures GoodCard(img, g, files) ==> r == Ok(Listed(g, files, |files|))
  {
    hide ShortName, GoodCard, SlotAt, VolumeOf, StartLba, IsD64Name;
    ghost var good, n := GoodCard(img, g, files), |files|;
    var boot := ReadBoot(img, g, files);
    if boot.Err? {
      return Err(boot.error);
    }
    var v := boot.value;
    if good {
      GoodGeometry(img, g, files);
    }
    var items := [];
    for i := 0 to v.rootEntries
      invariant good ==> i <= n && items == Listed(g, files, i)
    {
      if good {
        SlotOnCard(img, g, files, i);
      }
      match SlotAt(img, v, i)
      case End => return Ok(items);
      case Broken => return Err(IndexError);
      case Other =>
      case Found(item) => items := items + [item];
    }
    return Ok(items);
  }

  lemma GoodGeometry(img: seq<byte>, g: Geometry, files: seq<File>)
    requires GoodCard(img, g, files)
    ensures g.spc > 0 && VolumeOf(g, |files|).rootEntries == g.rootEntries && |files| <= g.rootEntries
  {
  }

  // ------------------------------------------------------- the D64 behind a start block

  /** Where a D64 sector lives: a block relative to the file, and the half of it. */
  datatype SdLocation = SdLocation(block: nat, half: nat)

  function Locate(p: Pos): Result<SdLocation, ()> {
    var offset := ByteOffset(p);
    if offset == INVALID_INDEX then Err(()) else Ok(SdLocation(offset / 512, offset / 256 % 2 * 256))
  }

  /** A file on the card is what lies at its start block. */
  lemma DataOnCard(img: seq<byte>, g: Geometry, files: seq<File>, i: nat, lo: nat, hi: nat)
    requires GoodCard(img, g, files) && i < |files| && lo <= hi <= D64_SIZE
    ensures var at := StartLba(g, |files|, i) * BLOCK;
            at + hi <= |img| && |files[i].data| == D64_SIZE && img[at + lo..at + hi] == files[i].data[lo..hi]
  {
    hide FatSectors, First, RootSectors, Entry, ShortName, Buildable, IsBoot, IsFat, FatBase, DataBase, StartLba,
      RootBase;
    var n, bs := |files|, g.partStart * BLOCK;
    var d, v, at := files[i].data, img[bs..], DataBase(g, n, i);
    assert Reads(v, at, d);
    StartAt(g, n, i);
    SliceOfSlice(img, bs, at, d, lo, hi);
  }

  lemma StartAt(g: Geometry, n: nat, i: nat)
    requires g.spc > 0
    ensures StartLba(g, n, i) * BLOCK == g.partStart * BLOCK + DataBase(g, n, i)
  {
    hide Span, DataStart, First;
  }

  lemma SliceOfSlice(img: seq<byte>, base: nat, at: nat, d: seq<byte>, lo: nat, hi: nat)
    requires base <= |img| && Reads(img[base..], at, d) && lo <= hi <= |d|
    ensures base + at + hi <= |img| && img[base + at + lo..base + at + hi] == d[lo..hi]
  {
    var w := img[base..];
    forall k | lo <= k < hi ensures img[base + at + k] == d[k] {
      assert w[at..at + |d|][k] == w[at + k];
    }
  }

  /** The hook's sector map and the image reader find the same 256 bytes: for every position
      on the disk, and for no other. */
  lemma SectorOnCard(img: seq<byte>, g: Geometry, files: seq<File>, i: nat, p: Pos)
    requires GoodCard(img, g, files) && i < |files|
    ensures Locate(p).Ok? <==> OnDisk(p)
    ensures OnDisk(p) ==>
              var at := (StartLba(g, |files|, i) + Locate(p).value.block) * BLOCK + Locate(p).value.half;
              && |files[i].data| == D64_SIZE && at + 256 <= |img| && SectorIndex(p) < D64_SECTORS
              && img[at..at + 256] == SectorAt(files[i].data, SectorIndex(p))
  {
    hide GoodCard, StartLba, SectorIndex;
    IndexBijection(p);
    if OnDisk(p) {
      var k := SectorIndex(p);
      assert (k * 256) / 512 * 512 + (k * 256) / 256 % 2 * 256 == k * 256;
      DataOnCard(img, g, files, i, k * 256, (k + 1) * 256);
    }
  }

  // ------------------------------------------------------------------ following chains

  /** The address of cluster `c` when cluster 2 is at `data`. */
  function ClusterAddr(data: nat, size: nat, c: nat): nat
    requires c >= 2
  {
    data + Span(c - 2, size)
  }

  /** Reads a file by its FAT chain, at most `fuel` clusters. */
  function FollowFat(img: seq<byte>, fat: nat, data: nat, size: nat, c: nat, fuel: nat): seq<byte>
    decreases fuel
  {
    if fuel == 0 || fat + 2 * c + 2 > |img| || c < 2 then []
    else
      var at, next := ClusterAddr(data, size, c), Le16(img, fat + 2 * c);
      Slice(img, at, at + size) + if next >= 0xFFF8 then [] else FollowFat(img, fat, data, size, next, fuel - 1)
  }

  /** Where copy `k` of the FAT and cluster 2 are. */
  function FatAt(g: Geometry, n: nat, k: nat): nat
    requires g.spc > 0
  {
    g.partStart * BLOCK + FatBase(g, n, k)
  }

  function ClustersAt(g: Geometry, n: nat): nat
    requires g.spc > 0
  {
    (g.partStart + DataStart(g, n)) * BLOCK
  }

  lemma NextCluster(data: nat, size: nat, c: nat)
    requires c >= 2
    ensures ClusterAddr(data, size, c) + size == ClusterAddr(data, size, c + 1)
  {
    MulStep(c - 2, c - 1, size);
    assert (c - 1) * size == (c - 2) * size + size;
  }

  lemma FatOnCard(img: seq<byte>, g: Geometry, files: seq<File>, k: nat, c: nat)
    requires GoodCard(img, g, files) && k < g.numFats && 2 * c + 2 <= FatSectors(g, |files|) * BLOCK
    ensures var at := FatAt(g, |files|, k) + 2 * c;
            at + 2 <= |img| && Le16(img, at) == FatValue(g, |files|, c)
  {
    hide FatSectors, First, RootSectors, Entry, ShortName, Buildable, IsBoot, FatBase, DataStart, RootBase, FatValue,
      Word;
    var n, bs := |files|, g.partStart * BLOCK;
    var v, b, size := img[bs..], FatBase(g, n, k), FatSectors(g, n) * BLOCK;
    var fat := v[b..b + size];
    assert IsFat(fat, g, n);
    assert Le16(fat, 2 * c) == FatValue(g, n, c);
    assert fat[2 * c] == img[bs + b + 2 * c] && fat[2 * c + 1] == img[bs + b + 2 * c + 1];
  }

  /** The address of the end of the j-th cluster of a file, for j from 0. */
  function Mark(g: Geometry, n: nat, i: nat, j: nat): nat
    requires g.spc > 0
  {
    ClusterAddr(ClustersAt(g, n), g.spc * BLOCK, First(g, i) + j)
  }

  /** From its j-th cluster on, the chain of a file runs through its clusters in order and
      ends with the last one. */
  lemma {:induction false} ChainFrom(img: seq<byte>, g: Geometry, files: seq<File>, k: nat, i: nat, j: nat, extra: nat)
    requires GoodCard(img, g, files) && k < g.numFats && i < |files| && j < Clusters(g)
    requires Mark(g, |files|, i, Clusters(g)) <= |img|
    ensures var n := |files|;
            && Mark(g, n, i, j) + g.spc * BLOCK <= Mark(g, n, i, Clusters(g))
            && FollowFat(img, FatAt(g, n, k), ClustersAt(g, n), g.spc * BLOCK, First(g, i) + j, Clusters(g) - j + extra)
               == img[Mark(g, n, i, j)..Mark(g, n, i, Clusters(g))]
    decreases Clusters(g) - j
  {
    hide FatSectors, RootSectors, Buildable, DataStart, Word, GoodCard, FatAt, ClustersAt, Clusters, First, ClusterAddr;
    hide FollowFat, Le16, Accepted;
    var n, c := |files|, First(g, i) + j;
    ChainInFat(g, i, n);
    ChainEntry(img, g, files, k, i, j);
    NextCluster(ClustersAt(g, n), g.spc * BLOCK, c);
    FollowStep(img, FatAt(g, n, k), ClustersAt(g, n), g.spc * BLOCK, c, Clusters(g) - j + extra);
    if j + 1 < Clusters(g) {
      ChainFrom(img, g, files, k, i, j + 1, extra);
    }
  }

  lemma FollowStep(img: seq<byte>, fat: nat, data: nat, size: nat, c: nat, fuel: nat)
    requires fuel > 0 && c >= 2 && fat + 2 * c + 2 <= |img|
    ensures var (at, next) := (ClusterAddr(data, size, c), Le16(img, fat + 2 * c));
            && (at + size <= |img| ==> Slice(img, at, at + size) == img[at..at + size])
            && FollowFat(img, fat, data, size, c, fuel) ==
               Slice(img, at, at + size)
               + if next >= 0xFFF8 then [] else FollowFat(img, fat, data, size, next, fuel - 1)
  {
    hide ClusterAddr, Le16;
  }

  lemma ChainEntry(img: seq<byte>, g: Geometry, files: seq<File>, k: nat, i: nat, j: nat)
    requires GoodCard(img, g, files) && k < g.numFats && i < |files| && j < Clusters(g)
    ensures var c := First(g, i) + j;
            && 2 <= c && c + 1 < 0xFFF8 && FatAt(g, |files|, k) + 2 * c + 2 <= |img|
            && Le16(img, FatAt(g, |files|, k) + 2 * c) == if j == Clusters(g) - 1 then EOC else c + 1
  {
    hide FatSectors, RootSectors, Buildable, DataStart, Word, GoodCard, FatAt, Clusters;
    var n, c := |files|, First(g, i) + j;
    GoodGeometryAll(img, g, files);
    FirstInFat(g, i, n);
    ChainInFat(g, i, n);
    FatOnCard(img, g, files, k, c);
    ModIs(i, Clusters(g), j);
  }

  lemma GoodGeometryAll(img: seq<byte>, g: Geometry, files: seq<File>)
    requires GoodCard(img, g, files)
    ensures Buildable(g, |files|) && g.spc > 0
  {
  }

  /** Following the chain of a file in any copy of the FAT gives the file, padded to whole
      clusters, and a longer bound on the chain makes no difference. */
  lemma ChainIsFile(img: seq<byte>, g: Geometry, files: seq<File>, k: nat, i: nat, fuel: nat)
    requires GoodCard(img, g, files) && k < g.numFats && i < |files| && fuel >= Clusters(g)
    ensures var (n, size) := (|files|, g.spc * BLOCK);
            var bytes := FollowFat(img, FatAt(g, n, k), ClustersAt(g, n), size, First(g, i), fuel);
            |bytes| == Clusters(g) * size && bytes[..D64_SIZE] == files[i].data
  {
    hide FatSectors, RootSectors, Buildable, DataStart, GoodCard, FatAt, Clusters, FollowFat, Mark, StartLba;
    hide ClustersAt, First;
    var n, size := |files|, g.spc * BLOCK;
    GoodGeometryAll(img, g, files);
    MarkBounds(img, g, files, i);
    ChainFrom(img, g, files, k, i, 0, fuel - Clusters(g));
    DataOnCard(img, g, files, i, 0, D64_SIZE);
    var bytes := FollowFat(img, FatAt(g, n, k), ClustersAt(g, n), size, First(g, i), fuel);
    var at := Mark(g, n, i, 0);
    var to := Mark(g, n, i, Clusters(g));
    assert bytes == img[at..to];
    SlicePrefix(img, at, to, D64_SIZE);
    assert files[i].data[0..D64_SIZE] == files[i].data;
  }

  lemma SlicePrefix(s: seq<byte>, at: nat, to: nat, n: nat)
    requires at + n <= to <= |s|
    ensures s[at..to][..n] == s[at..at + n]
  {
  }

  lemma MarkBounds(img: seq<byte>, g: Geometry, files: seq<File>, i: nat)
    requires GoodCard(img, g, files) && i < |files|
    ensures var n := |files|;
            && Mark(g, n, i, Clusters(g)) <= |img| && Mark(g, n, i, 0) == StartLba(g, n, i) * BLOCK
            && Mark(g, n, i, Clusters(g)) == Mark(g, n, i, 0) + Clusters(g) * (g.spc * BLOCK)
            && Clusters(g) > 0 && D64_SIZE <= Clusters(g) * (g.spc * BLOCK)
  {
    hide FatSectors, RootSectors, DataStart, Clusters, IsVolume, Accepted, Span, First;
    var n, c := |files|, Clusters(g);
    AtLeastTwo(g, i);
    ChainInFat(g, i, n);
    Products(First(g, i) - 2, c, First(g, n) - 2, g.spc);
    InVolume(g, n);
  }

  lemma Products(a: nat, c: nat, b: nat, s: nat)
    requires a + c <= b
    ensures Span(a + c, s * BLOCK) <= Span(b, s) * BLOCK
    ensures Span(a + c, s * BLOCK) == Span(a, s * BLOCK) + c * (s * BLOCK)
    ensures Span(a, s * BLOCK) == Span(a, s) * BLOCK
  {
    MulLess(a + c, b, s);
    assert (a + c) * (s * BLOCK) == (a + c) * s * BLOCK;
    assert (a + c) * (s * BLOCK) == a * (s * BLOCK) + c * (s * BLOCK);
    assert a * (s * BLOCK) == a * s * BLOCK;
  }

  /** The cluster chains of different files have no cluster in common. */
  lemma ChainsDisjoint(g: Geometry, i: nat, j: nat, a: nat, b: nat)
    requires g.spc > 0 && i < j && a < Clusters(g) && b < Clusters(g)
    ensures First(g, i) + a < First(g, j) + b
  {
    hide Clusters;
    MulStep(i, j, Clusters(g));
  }

  // ---------------------------------------------------------------- the hook image

  const HOOK_LBA := 8

  /** Embeds the boot hook in front of the partition, if there is room. */
  function EmbedHook(img: seq<byte>, g: Geometry, hook: seq<byte>): (r: Result<seq<byte>, ()>)
    requires |img| == g.imageSize && g.partStart * BLOCK <= |img|
  {
    if HOOK_LBA + (|hook| + BLOCK - 1) / BLOCK > g.partStart then Err(())
    else Ok(Splice(img, HOOK_LBA * BLOCK, hook))
  }

  /** An embedded hook leaves every file of the card where it was. */
  lemma HookKeepsCard(img: seq<byte>, g: Geometry, files: seq<File>, hook: seq<byte>)
    requires GoodCard(img, g, files) && EmbedHook(img, g, hook).Ok?
    ensures GoodCard(EmbedHook(img, g, hook).value, g, files)
    ensures EmbedHook(img, g, hook).value[HOOK_LBA * BLOCK..HOOK_LBA * BLOCK + |hook|] == hook
  {
    hide IsVolume, Buildable, Accepted, Word;
    var at, bs := HOOK_LBA * BLOCK, g.partStart * BLOCK;
    var r := EmbedHook(img, g, hook).value;
    assert at + |hook| <= bs;
    SpliceReads(img, at, hook, bs, |img|);
    assert r[bs..] == img[bs..];
    SpliceReads(img, at, hook, 0, at);
    assert forall k :: 0 <= k < 512 ==> r[k] == r[..at][k] && img[k] == img[..at][k];
    SpliceReads(img, at, hook, at, at + |hook|);
  }
}
