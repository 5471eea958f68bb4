/** A reader of FAT32 cards that goes by the directory and follows FAT chains. */
module Fat32Reader {
  import opened Bytes
  import opened Regions
  import opened Fat32Builder
  import opened Fat32Directory
  import F = Fat16Layout
  import Fat16Builder

  /** A card that the builder has made. */
  ghost predicate GoodCard(img: seq<byte>, g: Geometry, files: seq<File>) {
    g.spc > 0 && FieldsFit(g, files) && IsCard(img, g, files)
  }

  function VolumeAt(g: Geometry): nat { g.partStart * BLOCK }

  function FatAt(g: Geometry, files: seq<File>, k: nat): nat
    requires g.spc > 0
  {
    VolumeAt(g) + FatBase(g, files, k)
  }

  function ClusterAt(g: Geometry, files: seq<File>, c: nat): nat
    requires g.spc > 0 && c >= 2
  {
    VolumeAt(g) + ClusterBase(g, files, c)
  }

  /** Where a reader finds cluster `c`, if cluster 2 is at `data`. */
  function Address(data: nat, size: nat, c: nat): nat
    requires c >= 2
  {
    data + Span(c - 2, size)
  }

  /** Reads a file by its chain in the FAT at `fat`, at most `fuel` clusters. */
  function Follow(img: seq<byte>, fat: nat, data: nat, size: nat, c: nat, fuel: nat): seq<byte>
    decreases fuel
  {
    if fuel == 0 || fat + 4 * c + 4 > |img| || c < 2 then []
    else
      var at, next := Address(data, size, c), Masked(F.Le32(img, fat + 4 * c));
      Slice(img, at, at + size) + if next >= 0x0FFFFFF8 then [] else Follow(img, fat, data, size, next, fuel - 1)
  }

  /** A region of the volume, on the card. */
  lemma RegionOnCard(img: seq<byte>, base: nat, p: Part, lo: nat, hi: nat)
    requires base <= |img| && Holds(img[base..], p) && lo <= hi <= |p.bytes|
    ensures base + p.at + hi <= |img| && img[base + p.at + lo..base + p.at + hi] == p.bytes[lo..hi]
  {
    var vol := img[base..];
    Inside(vol, p, lo, hi);
    var a, b := img[base + p.at + lo..base + p.at + hi], vol[p.at + lo..p.at + hi];
    forall k | 0 <= k < |b| ensures a[k] == b[k] {
      assert b[k] == vol[p.at + lo + k];
    }
  }

  lemma PartsOf(img: seq<byte>, g: Geometry, files: seq<File>)
    returns (vol: seq<byte>, boot: seq<byte>, fat: seq<byte>)
    requires GoodCard(img, g, files)
    ensures g.spc > 0 && VolumeAt(g) <= |img| && vol == img[VolumeAt(g)..]
    ensures FieldsFit(g, files) && IsBoot(boot, g, files) && IsFat(fat, g, files)
    ensures IsVolume(vol, g, files, boot, fat, Root(g, files))
  {
    hide IsFat, IsBoot, IsVolume, FieldsFit, MbrParts, Root;
    var b, f, root :| IsCardOf(img, g, files, b, f, root);
    vol, boot, fat := img[VolumeAt(g)..], b, f;
  }

  /** Every copy of the FAT links a file's clusters in order and ends the chain at its last. */
  lemma LinkOnCard(img: seq<byte>, g: Geometry, files: seq<File>, k: nat, i: nat, j: nat)
    requires GoodCard(img, g, files) && k < g.numFats && i < |files| && j < Count(g, |files[i].data|)
    ensures var c := First(g, files, i) + j;
            && FatAt(g, files, k) + 4 * c + 4 <= |img|
            && F.Le32(img, FatAt(g, files, k) + 4 * c)
               == if j == Count(g, |files[i].data|) - 1 then EOC else Masked(c + 1)
  {
    hide GoodCard, First, Count, FatAt, FatSectors, IsFat, IsBoot, IsVolume, Root, FieldsFit, Word32, F.Le32, Masked;
    var vol, boot, fat := PartsOf(img, g, files);
    var c := First(g, files, i) + j;
    LinkInFat(fat, g, files, i, j);
    FatOnCard(img, g, files, vol, boot, fat, k, 4 * c, 4 * c + 4);
    Le32Slice(img, FatAt(g, files, k) + 4 * c);
    Le32Slice(fat, 4 * c);
    WordIs(fat, c);
  }

  lemma FatOnCard(img: seq<byte>, g: Geometry, files: seq<File>, vol: seq<byte>, boot: seq<byte>, fat: seq<byte>,
                  k: nat, lo: nat, hi: nat)
    requires g.spc > 0 && VolumeAt(g) <= |img| && vol == img[VolumeAt(g)..]
    requires IsVolume(vol, g, files, boot, fat, Root(g, files)) && k < g.numFats && lo <= hi <= |fat|
    ensures var at := FatAt(g, files, k); at + hi <= |img| && img[at + lo..at + hi] == fat[lo..hi]
  {
    hide FatBase, VolumeSectors, Root, Holds, FatParts, Cluster, DataParts;
    FatPart(g, files, fat, k);
    RegionOnCard(img, VolumeAt(g), FatParts(g, files, fat)[k], lo, hi);
  }

  lemma LinkInFat(fat: seq<byte>, g: Geometry, files: seq<File>, i: nat, j: nat)
    requires g.spc > 0 && IsFat(fat, g, files) && i < |files| && j < Count(g, |files[i].data|)
    ensures var c := First(g, files, i) + j;
            4 * c + 4 <= |fat| && Word32(fat, c) == if j == Count(g, |files[i].data|) - 1 then EOC else Masked(c + 1)
  {
    hide First, Count, FatSectors, Word32, Masked;
    assert Chain(fat, First(g, files, i), Count(g, |files[i].data|), Count(g, |files[i].data|));
  }

  lemma WordIs(fat: seq<byte>, c: nat)
    requires 4 * c + 4 <= |fat|
    ensures Word32(fat, c) == F.Le32(fat, 4 * c)
  {
  }

  /** The file's bytes are in its clusters. */
  lemma DataOnCard(img: seq<byte>, g: Geometry, files: seq<File>, i: nat)
    requires GoodCard(img, g, files) && i < |files|
    ensures var (at, data) := (ClusterAt(g, files, First(g, files, i)), files[i].data);
            at + |data| <= |img| && img[at..at + |data|] == data
  {
    hide GoodCard, First, ClusterBase, IsFat, IsBoot, Root, VolumeSectors, FieldsFit, DataParts, FatParts, Cluster,
      Holds;
    var vol, boot, fat := PartsOf(img, g, files);
    DataPart(g, files, i);
    RegionOnCard(img, VolumeAt(g), DataParts(g, files)[i], 0, |files[i].data|);
  }

  lemma ClusterStep(g: Geometry, files: seq<File>, c: nat)
    requires g.spc > 0 && c >= 2
    ensures Address(ClusterAt(g, files, 2), ClusterBytes(g), c) == ClusterAt(g, files, c)
    ensures ClusterAt(g, files, c + 1) == ClusterAt(g, files, c) + ClusterBytes(g)
  {
    hide ClusterBase, Span, ClusterBytes;
    ClusterBaseIs(g, files, 2, c);
    ClusterBaseIs(g, files, c, c + 1);
    SpanOne(ClusterBytes(g));
  }

  /** All clusters of a file lie on the card. */
  lemma ClustersOnCard(img: seq<byte>, g: Geometry, files: seq<File>, i: nat)
    requires GoodCard(img, g, files) && i < |files|
    ensures var end := First(g, files, i) + Count(g, |files[i].data|);
            && end <= Next(g, files) && ClusterAt(g, files, end) <= |img|
            && ClusterAt(g, files, end)
               == ClusterAt(g, files, First(g, files, i)) + Span(Count(g, |files[i].data|), ClusterBytes(g))
  {
    hide GoodCard, Root, VolumeSectors, First, Count, ClusterBase, IsFat, IsBoot, IsVolume, FieldsFit, Span;
    var vol, boot, fat := PartsOf(img, g, files);
    VolumeLength(vol, g, files, boot, fat, Root(g, files));
    var first, end := First(g, files, i), First(g, files, i) + Count(g, |files[i].data|);
    FirstMonotone(g, files, i, |files|);
    ClusterBaseIs(g, files, first, end);
    ClusterBaseIs(g, files, end, Next(g, files));
    LastByte(g, files);
  }

  lemma {:induction false} ChainFrom(img: seq<byte>, g: Geometry, files: seq<File>, k: nat, i: nat, j: nat, extra: nat)
    requires GoodCard(img, g, files) && k < g.numFats && i < |files| && j < Count(g, |files[i].data|)
    requires ClusterAt(g, files, First(g, files, i) + Count(g, |files[i].data|)) <= |img|
    requires First(g, files, i) + Count(g, |files[i].data|) <= 0x0FFFFFF7
    ensures var (first, count) := (First(g, files, i), Count(g, |files[i].data|));
            && ClusterAt(g, files, first + j) + ClusterBytes(g) <= ClusterAt(g, files, first + count)
            && Follow(img, FatAt(g, files, k), ClusterAt(g, files, 2), ClusterBytes(g), first + j, count - j + extra)
               == Slice(img, ClusterAt(g, files, first + j), ClusterAt(g, files, first + count))
    decreases Count(g, |files[i].data|) - j
  {
    hide GoodCard, First, Count, ClusterAt, FatAt, Follow, Address, ClusterBytes, Masked, F.Le32, Slice;
    GoodSpc(img, g, files);
    var first, count := First(g, files, i), Count(g, |files[i].data|);
    var c := first + j;
    LinkOnCard(img, g, files, k, i, j);
    ClusterStep(g, files, c);
    MaskedSmall(EOC);
    if j + 1 < count {
      MaskedSmall(c + 1);
    }
    if j + 1 < count {
      ChainFrom(img, g, files, k, i, j + 1, extra);
    }
    FollowStep(img, FatAt(g, files, k), ClusterAt(g, files, 2), ClusterBytes(g), c, count - j + extra);
    SliceJoins(img, ClusterAt(g, files, c), ClusterAt(g, files, c) + ClusterBytes(g),
               ClusterAt(g, files, first + count));
  }

  lemma SliceJoins(s: seq<byte>, a: nat, b: nat, c: nat)
    requires a <= b <= c <= |s|
    ensures s[a..b] + Slice(s, b, c) == Slice(s, a, c) && s[a..b] == Slice(s, a, b)
  {
  }

  lemma GoodSpc(img: seq<byte>, g: Geometry, files: seq<File>)
    requires GoodCard(img, g, files)
    ensures g.spc > 0
  {
  }

  lemma FollowStep(img: seq<byte>, fat: nat, data: nat, size: nat, c: nat, fuel: nat)
    requires fuel > 0 && c >= 2 && fat + 4 * c + 4 <= |img| && Address(data, size, c) + size <= |img|
    ensures var (at, next) := (Address(data, size, c), Masked(F.Le32(img, fat + 4 * c)));
            Follow(img, fat, data, size, c, fuel)
            == img[at..at + size] + if next >= 0x0FFFFFF8 then [] else Follow(img, fat, data, size, next, fuel - 1)
  {
    hide Address, Masked, F.Le32;
  }

  /** Following a file's chain in any copy of the FAT gives the file, padded to whole clusters,
      and a longer bound on the chain makes no difference, as long as the file's cluster numbers
      are no end-of-chain marks. */
  lemma ChainIsFile(img: seq<byte>, g: Geometry, files: seq<File>, k: nat, i: nat, fuel: nat)
    requires GoodCard(img, g, files) && k < g.numFats && i < |files| && fuel >= Count(g, |files[i].data|)
    requires First(g, files, i) + Count(g, |files[i].data|) <= 0x0FFFFFF7
    ensures var (count, size) := (Count(g, |files[i].data|), ClusterBytes(g));
            var bytes := Follow(img, FatAt(g, files, k), ClusterAt(g, files, 2), size, First(g, files, i), fuel);
            |bytes| == Span(count, size) && |files[i].data| <= |bytes| && bytes[..|files[i].data|] == files[i].data
  {
    hide GoodCard, First, Count, ClusterAt, FatAt, Follow, ClusterBytes, Span;
    GoodSpc(img, g, files);
    var first, count, data := First(g, files, i), Count(g, |files[i].data|), files[i].data;
    ClustersOnCard(img, g, files, i);
    ChainFrom(img, g, files, k, i, 0, fuel - count);
    DataOnCard(img, g, files, i);
    var at, end := ClusterAt(g, files, first), ClusterAt(g, files, first + count);
    Prefix(img, at, end, |data|);
  }

  lemma Prefix(s: seq<byte>, at: nat, to: nat, n: nat)
    requires at + n <= to <= |s|
    ensures s[at..to][..n] == s[at..at + n]
  {
    var a, b := s[at..to], s[at..at + n];
    forall k | 0 <= k < n ensures a[..n][k] == b[k] {
      assert a[k] == s[at + k];
    }
  }

  /** Different files have no cluster in common, and none has the root's cluster 2. */
  lemma ChainsDisjoint(g: Geometry, files: seq<File>, i: nat, j: nat)
    requires g.spc > 0 && i < j < |files|
    ensures 2 < First(g, files, i) < First(g, files, i) + Count(g, |files[i].data|) <= First(g, files, j)
    ensures First(g, files, j) + Count(g, |files[j].data|) <= Next(g, files)
  {
    hide Count;
    FirstMonotone(g, files, i, j);
    FirstMonotone(g, files, j, |files|);
  }

  /** The place of file `i` in the directory, as far as it is in the root's cluster. */
  function Slot(img: seq<byte>, g: Geometry, files: seq<File>, i: nat): seq<byte>
    requires g.spc > 0
  {
    var at, n := ClusterAt(g, files, 2), 32 * (|g.prefix| + i);
    if n + 32 <= ClusterBytes(g) then Slice(img, at + n, at + n + 32) else []
  }

  /** The place is in the root's cluster, and no short entry before the files has reached the
      end of the directory buffer. */
  predicate Listed(g: Geometry, i: nat) {
    32 * (|g.prefix| + i + 1) <= ClusterBytes(g) && FilesAligned(g)
  }

  /** In terms of the builder's options. */
  lemma ListedByOptions(g: Geometry, i: nat, whole: nat, fillers: nat)
    requires g.spc > 0 && OptionsGive(g.prefix, whole, fillers)
    ensures Listed(g, i) <==>
              && 32 * (whole + fillers + i + 1) <= ClusterBytes(g)
              && (fillers == 0 || 32 * whole + 33 * ShortFillers(fillers) <= ClusterBytes(g))
  {
    hide FilesAligned, ClusterBytes;
    FillersFit(g, whole, fillers);
  }

  lemma SlotOnCard(img: seq<byte>, g: Geometry, files: seq<File>, i: nat)
    requires GoodCard(img, g, files) && Apart(g)
    ensures var n := 32 * (|g.prefix| + i);
            n + 32 <= ClusterBytes(g) ==>
              Slot(img, g, files, i) == Cluster(ClusterBytes(g), Root(g, files))[n..n + 32]
  {
    hide GoodCard, First, ClusterBase, IsFat, IsBoot, Root, VolumeSectors, FieldsFit, FatParts, DataParts, Cluster,
      Holds, ClusterBytes;
    var vol, boot, fat := PartsOf(img, g, files);
    var n, size := 32 * (|g.prefix| + i), ClusterBytes(g);
    if n + 32 <= size {
      RegionOnCard(img, VolumeAt(g), Part(ClusterBase(g, files, 2), Cluster(size, Root(g, files))), n, n + 32);
    }
  }

  /** A listed file's entry stands at its place. */
  lemma EntryAtPlace(img: seq<byte>, g: Geometry, files: seq<File>, i: nat)
    requires GoodCard(img, g, files) && i < |files| && Apart(g) && Listed(g, i)
    ensures Slot(img, g, files, i) == Entry(files[i].name, First(g, files, i), |files[i].data|)
  {
    hide First, Root, Entry, FilesAligned, FilesStart, IsCard, FieldsFit, ClusterBytes, Cluster, Slot;
    SlotOnCard(img, g, files, i);
    FilesInRow(g, files, i);
    var n := 32 * (|g.prefix| + i);
    ClusterReads(ClusterBytes(g), Root(g, files), n, n + 32);
  }

  /** It does so if and only if the file is listed, as long as names have no zero byte. */
  lemma AtPlaceIffListed(img: seq<byte>, g: Geometry, files: seq<File>, i: nat)
    requires GoodCard(img, g, files) && i < |files| && Apart(g) && NamesOk(files)
    ensures Slot(img, g, files, i) == Entry(files[i].name, First(g, files, i), |files[i].data|) <==> Listed(g, i)
  {
    hide First, Root, Entry, FilesAligned, IsCard, ClusterBytes, Cluster, Slot, NamesOk;
    if Listed(g, i) {
      EntryAtPlace(img, g, files, i);
    } else if 32 * (|g.prefix| + i + 1) <= ClusterBytes(g) {
      SlotOnCard(img, g, files, i);
      NextFits(g, files);
      NotAtPlace(g, files, i);
    } else {
      OutsideSlot(img, g, files, i);
    }
  }

  lemma OutsideSlot(img: seq<byte>, g: Geometry, files: seq<File>, i: nat)
    requires g.spc > 0 && 32 * (|g.prefix| + i + 1) > ClusterBytes(g)
    ensures Slot(img, g, files, i) == []
  {
    hide ClusterBytes;
  }

  lemma NextFits(g: Geometry, files: seq<File>)
    requires g.spc > 0 && FieldsFit(g, files) && Apart(g)
    ensures Next(g, files) <= 0x1_0000_0000
  {
    hide First, FatSectors;
    SomeClusters(Next(g, files) - 2, g.spc);
    if g.numFats > 0 {
      SomeClusters(FatSectors(g, files), g.numFats);
    }
  }

  lemma SomeClusters(n: nat, k: nat)
    requires k > 0
    ensures n <= Span(n, k) == Span(k, n)
  {
  }

  /** With 63 fillers before a single file, in a cluster of four sectors, the last filler
      reaches the end of the buffer: the file's entry stands one byte before its place, and
      what is at its place is no entry of it. */
  lemma EntryMoved(img: seq<byte>, g: Geometry, f: File)
    requires GoodCard(img, g, [f]) && Apart(g) && NamesOk([f])
    requires g.spc == 4 && OptionsGive(g.prefix, 0, 63)
    ensures Slot(img, g, [f], 0) != Entry(f.name, 3, |f.data|)
    ensures var at := ClusterAt(g, [f], 2);
            at + 2047 <= |img| && img[at + 2015..at + 2047] == Entry(f.name, 3, |f.data|)
  {
    hide Root, Entry, FilesAligned, IsCard, Cluster, Slot, NamesOk, FieldsFit, IsFat, IsBoot, VolumeSectors, Holds;
    var root := Root(g, [f]);
    FillersFit(g, 0, 63);
    AtPlaceIffListed(img, g, [f], 0);
    FilesInRow(g, [f], 0);
    StartOf63(g);
    var vol, boot, fat := PartsOf(img, g, [f]);
    ClusterReads(2048, root, 2015, 2047);
    RegionOnCard(img, VolumeAt(g), Part(ClusterBase(g, [f], 2), Cluster(2048, root)), 2015, 2047);
  }

  lemma StartOf63(g: Geometry)
    requires g.spc == 4 && OptionsGive(g.prefix, 0, 63)
    ensures FilesStart(g) == 2015
  {
    hide RootUpTo, PutEntry, OptionsGive, Shorts;
    var es, size := g.prefix, ClusterBytes(g);
    GivenLengths(es, 0, 63);
    forall j: nat | j < 62 && |es[j]| == 31 ensures Shorts(es, j + 1) == j + 1 {
      ShortsOf(es, 0, 63, j + 1);
    }
    ShortsOf(es, 0, 63, 62);
    BufferLength(size, es, 62);
    PutAt(RootUpTo(size, es, 62), 32 * 62, es[62]);
    LastPut(size, es);
  }

  lemma LastPut(size: nat, es: seq<DirEntry>)
    requires |es| == 63
    ensures RootUpTo(size, es, 63) == PutEntry(RootUpTo(size, es, 62), 32 * 62, es[62])
  {
  }

  /** A file looked up by its directory entry and read along its chain, in any copy of the
      FAT, and cut to the size that the entry states, comes back byte for byte. */
  lemma FileReadsBack(img: seq<byte>, g: Geometry, files: seq<File>, k: nat, i: nat, fuel: nat)
    requires GoodCard(img, g, files) && k < g.numFats && i < |files| && fuel >= Count(g, |files[i].data|)
    requires Listed(g, i) && First(g, files, i) + Count(g, |files[i].data|) <= 0x0FFFFFF7
    ensures var e := Slot(img, g, files, i);
            && |e| == 32 && e[..11] == ShortName(files[i].name)
            && var (first, size) := (F.Le16(e, 26) + 0x10000 * F.Le16(e, 20), F.Le32(e, 28));
               Slice(Follow(img, FatAt(g, files, k), ClusterAt(g, files, 2), ClusterBytes(g), first, fuel), 0, size)
               == files[i].data
  {
    hide GoodCard, First, Count, ClusterAt, FatAt, Follow, ClusterBytes, Entry, Slot, Span, Next, Listed, F.Le32Bytes,
      F.Le32, F.Le16;
    GoodSpc(img, g, files);
    ClustersOnCard(img, g, files, i);
    SmallFields(img, g, files, i);
    EntryAtPlace(img, g, files, i);
    EntryFields(files[i].name, First(g, files, i), |files[i].data|);
    Fat16Builder.LongReads(|files[i].data|);
    ChainIsFile(img, g, files, k, i, fuel);
  }

  lemma SmallFields(img: seq<byte>, g: Geometry, files: seq<File>, i: nat)
    requires GoodCard(img, g, files) && i < |files|
    ensures |files[i].data| < 0x1_0000_0000
  {
    assert files[i] in files;
  }

  /** The boot sector, as it stands on the card. */
  lemma BootOnCard(img: seq<byte>, g: Geometry, files: seq<File>) returns (boot: seq<byte>)
    requires GoodCard(img, g, files) && g.reserved > 0
    ensures IsBoot(boot, g, files) && VolumeAt(g) + BLOCK <= |img| && img[VolumeAt(g)..VolumeAt(g) + BLOCK] == boot
  {
    hide GoodCard, IsFat, BootParts, Root, VolumeSectors, FieldsFit, FatParts, DataParts, Cluster, Holds;
    var vol, b, fat := PartsOf(img, g, files);
    boot := b;
    RegionOnCard(img, VolumeAt(g), Part(0, boot), 0, BLOCK);
    assert boot[0..BLOCK] == boot;
  }

  lemma BootField(boot: seq<byte>, g: Geometry, files: seq<File>, i: nat)
    requires g.spc > 0 && FieldsFit(g, files) && IsBoot(boot, g, files) && i < |BootParts(g, files)|
    ensures Holds(boot, BootParts(g, files)[i])
  {
    hide BootParts, Holds, FieldsFit;
    assert BootParts(g, files)[i] in BootParts(g, files);
  }

  lemma Field16(v: seq<byte>, at: nat, w: nat)
    requires Holds(v, Part(at, Le16Bytes(w))) && w < 0x10000
    ensures at + 2 <= |v| && F.Le16(v, at) == w
  {
    assert v[at] == v[at..at + 2][0] && v[at + 1] == v[at..at + 2][1];
    WordRoundTrip(w);
  }

  lemma Field32(v: seq<byte>, at: nat, w: nat)
    requires Holds(v, Part(at, F.Le32Bytes(w)))
    ensures at + 4 <= |v| && F.Le32(v, at) == F.Le32(F.Le32Bytes(w), 0)
  {
    hide F.Le32Bytes, F.Le32;
    Le32Slice(v, at);
  }

  lemma Field8(v: seq<byte>, at: nat, b: byte)
    requires Holds(v, Part(at, [b]))
    ensures at < |v| && v[at] == b
  {
    assert v[at] == v[at..at + 1][0];
  }

  /** A reader that computes its addresses from the boot sector finds the FATs and cluster 2
      where they are. */
  lemma BootSays(img: seq<byte>, g: Geometry, files: seq<File>, k: nat)
    requires GoodCard(img, g, files) && g.reserved > 0
    ensures var at := VolumeAt(g);
            && at + BLOCK <= |img|
            && var (b, spc) := (img[at..at + BLOCK], img[at + 13]);
               var (reserved, fats, spf) := (F.Le16(b, 14), b[16], F.Le32(b, 36));
               && F.Le16(b, 11) == BLOCK && spc == g.spc && F.Le32(b, 44) == 2
               && FatAt(g, files, k) == at + (reserved + Span(k, spf)) * BLOCK
               && ClusterAt(g, files, 2) == at + (reserved + Span(fats, spf)) * BLOCK
  {
    hide IsCard, IsBoot, VolumeSectors, FatSectors, Next, F.Le32Bytes, Le16Bytes, F.Le32, F.Le16, Holds, Span;
    var b := BootOnCard(img, g, files);
    BootField(b, g, files, 2);
    Field16(b, 11, BLOCK);
    BootField(b, g, files, 3);
    Field8(b, 13, g.spc);
    BootField(b, g, files, 4);
    Field16(b, 14, g.reserved);
    BootField(b, g, files, 5);
    Field8(b, 16, g.numFats);
    BootField(b, g, files, 11);
    Field32(b, 36, FatSectors(g, files));
    BootField(b, g, files, 12);
    Field32(b, 44, 2);
    Fat16Builder.LongReads(FatSectors(g, files));
    Fat16Builder.LongReads(2);
    assert img[VolumeAt(g) + 13] == b[13];
    SpanOne(g.spc);
  }

  // ---------------------------------------------------------------------- FAT type

  datatype FatType = Fat12 | Fat16 | Fat32

  /** The FAT type is decided by the number of clusters alone. */
  function TypeByCount(clusters: nat): FatType {
    if clusters < 4085 then Fat12 else if clusters < 65525 then Fat16 else Fat32
  }

  /** The number of clusters that the boot sector's fields give. */
  function ClusterCount(g: Geometry, files: seq<File>): nat
    requires g.spc > 0
  {
    (VolumeSectors(g, files) - DataStart(g, files)) / g.spc
  }

  /** A card is FAT32 by that rule exactly when the root and the files need 65525 clusters;
      the builder does not pad smaller volumes. */
  lemma TypeOfCard(g: Geometry, files: seq<File>)
    requires g.spc > 0
    ensures ClusterCount(g, files) == Next(g, files) - 2
    ensures TypeByCount(ClusterCount(g, files)) == Fat32 <==> Next(g, files) >= 65527
  {
    hide DataStart, First;
    SpanDivides(Next(g, files) - 2, g.spc);
  }

  lemma SpanDivides(n: nat, k: nat)
    requires k > 0
    ensures Span(n, k) / k == n
  {
    var p := Span(n, k);
    var q := p / k;
    assert q * k <= p < q * k + k;
    assert q < n ==> (q + 1) * k <= n * k;
    assert n < q ==> (n + 1) * k <= q * k;
  }

  /** A card with a single D64 file is a FAT12 volume by that rule. */
  lemma OneDiskIsFat12(g: Geometry, f: File)
    requires g.spc > 0 && |f.data| == 174848
    ensures TypeByCount(ClusterCount(g, [f])) == Fat12
  {
    hide ClusterCount, Span;
    TypeOfCard(g, [f]);
    FirstStep(g, [f], 0);
    AtMostBlocks(g, |f.data|);
  }

  lemma AtMostBlocks(g: Geometry, size: nat)
    requires g.spc > 0
    ensures Count(g, size) <= size / BLOCK + 1
  {
    hide Span;
    var c := Count(g, size);
    if c > 1 {
      SpanAtLeast(c - 1, g.spc);
    }
  }

  lemma SpanAtLeast(n: nat, k: nat)
    requires k > 0
    ensures Span(n, k * BLOCK) >= n * BLOCK
  {
    assert n * (k * BLOCK) >= n * BLOCK;
  }
}
