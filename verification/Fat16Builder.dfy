/** The FAT16 card builder (tools/d64/make_fat16_d64_card.py, class Fat16Builder). */
module Fat16Builder {
  import opened Bytes
  import opened D64Geometry
  import opened Fat16Layout

  // ----------------------------------------------------------- offsets on the volume

  lemma MulStep(a: nat, b: nat, k: nat)
    requires a < b
    ensures a * k + k <= b * k
  {
    assert (a + 1) * k <= b * k;
  }

  /** FAT copies lie between the boot sector and the root directory, one after the other. */
  lemma FatBases(g: Geometry, n: nat, j: nat, k: nat)
    requires g.spc > 0 && j < k
    ensures FatBase(g, n, j) + FatSectors(g, n) * BLOCK <= FatBase(g, n, k)
    ensures BLOCK <= FatBase(g, n, k) && (g.reserved > 0 ==> BLOCK <= FatBase(g, n, j))
  {
    MulStep(j, k, FatSectors(g, n));
  }

  /** File data lies behind the root directory, one file after the other. */
  lemma DataBases(g: Geometry, n: nat, i: nat, j: nat)
    requires g.spc > 0 && i < j
    ensures RootBase(g, n) + 32 * g.rootEntries <= DataBase(g, n, i)
    ensures DataBase(g, n, i) + D64_SIZE <= DataBase(g, n, j)
  {
    hide Clusters, FatSectors, RootSectors;
    Slots(Clusters(g), g.spc, i, j);
  }

  lemma EntryBases(g: Geometry, n: nat, i: nat, j: nat)
    requires g.spc > 0
    ensures i < j ==> EntryBase(g, n, i) + 32 <= EntryBase(g, n, j)
    ensures RootBase(g, n) <= EntryBase(g, n, i)
    ensures i < g.rootEntries ==> EntryBase(g, n, i) + 32 <= RootBase(g, n) + 32 * g.rootEntries
  {
    hide RootBase;
  }

  lemma Slots(c: nat, s: nat, i: nat, j: nat)
    requires i < j && D64_SIZE <= c * (s * BLOCK)
    ensures (i * c) * s * BLOCK + D64_SIZE <= (j * c) * s * BLOCK
  {
    MulStep(i, j, c);
    MulLess(i * c + c, j * c, s);
    assert (i * c + c) * s == (i * c) * s + c * s;
  }

  lemma MulLess(a: nat, b: nat, k: nat)
    requires a <= b
    ensures a * k <= b * k
  {
  }

  lemma InVolume(g: Geometry, n: nat)
    requires Buildable(g, n)
    ensures Apart(g) ==> BLOCK <= RootBase(g, n)
    ensures RootBase(g, n) + 32 * g.rootEntries <= VolumeSectors(g) * BLOCK
    ensures DataBase(g, n, n) <= VolumeSectors(g) * BLOCK
    ensures g.imageSize == (g.partStart + VolumeSectors(g)) * BLOCK && VolumeSectors(g) > 0
  {
    hide Clusters, FatSectors, RootSectors;
    if g.numFats > 0 {
      FatBases(g, n, 0, g.numFats);
    }
    assert g.numFats * FatSectors(g, n) >= 0;
    assert Span(First(g, n) - 2, g.spc) >= 0;
  }

  /** Bytes that a splice does not touch are read as before. */
  lemma SpliceKeeps(v: seq<byte>, at: nat, p: seq<byte>, lo: nat, q: seq<byte>)
    requires at + |p| <= |v| && Reads(v, lo, q) && (lo + |q| <= at || at + |p| <= lo)
    ensures Reads(Splice(v, at, p), lo, q)
  {
    SpliceReads(v, at, p, lo, lo + |q|);
  }

  lemma SplicePuts(v: seq<byte>, at: nat, p: seq<byte>)
    requires at + |p| <= |v|
    ensures Reads(Splice(v, at, p), at, p)
  {
    SpliceReads(v, at, p, at, at + |p|);
  }

  // ------------------------------------------------------------------ boot and FAT

  function Put16(s: seq<byte>, at: nat, w: int): (r: seq<byte>)
    requires at + 2 <= |s|
    ensures |r| == |s|
  {
    s[at := Lo(w)][at + 1 := Hi(w)]
  }

  lemma Put16Reads(s: seq<byte>, at: nat, w: int)
    requires at + 2 <= |s|
    ensures 0 <= w < 0x10000 ==> Le16(Put16(s, at, w), at) == w
    ensures forall k :: 0 <= k < |s| && !(at <= k < at + 2) ==> Put16(s, at, w)[k] == s[k]
  {
    hide Lo, Hi, Word;
    if 0 <= w < 0x10000 {
      WordRoundTrip(w);
    }
  }

  lemma LowHalf(w: int)
    ensures Lo(w) == Lo(w % 0x10000) && Hi(w) == Hi(w % 0x10000)
  {
  }

  // --------------------------------------------------------------- filling the volume

  /** A volume on which the boot sector, `nf` FAT copies, `ne` directory entries and
      the data of `nd` files are in place. */
  ghost predicate Progress(v: seq<byte>, g: Geometry, files: seq<File>, boot: seq<byte>, fat: seq<byte>,
                           nf: nat, ne: nat, nd: nat)
    requires g.spc > 0
  {
    var n := |files|;
    && nf <= g.numFats && ne <= n && nd <= n && RootBase(g, n) + 32 * g.rootEntries <= |v|
    && (g.reserved > 0 ==> Reads(v, 0, boot))
    && (forall k: nat :: k < nf ==> Reads(v, FatBase(g, n, k), fat))
    && (forall i: nat :: i < ne ==>
         Reads(v, EntryBase(g, n, i), Entry(files[i].name, First(g, i), |files[i].data|)))
    && (Apart(g) ==> forall i: nat :: ne <= i < g.rootEntries ==> v[EntryBase(g, n, i)] == 0)
    && (forall i: nat :: i < nd ==> Reads(v, DataBase(g, n, i), files[i].data))
  }

  ghost predicate Ready(g: Geometry, files: seq<File>, boot: seq<byte>, fat: seq<byte>, v: seq<byte>) {
    && g.spc > 0 && Buildable(g, |files|) && |files| <= g.rootEntries
    && |boot| == BLOCK && |fat| == FatSectors(g, |files|) * BLOCK && |v| == VolumeSectors(g) * BLOCK
    && forall i: nat :: i < |files| ==> |files[i].data| == D64_SIZE
  }

  lemma BootPlaced(g: Geometry, files: seq<File>, boot: seq<byte>, fat: seq<byte>, v: seq<byte>)
    requires Ready(g, files, boot, fat, v) && v == Zeros(|v|)
    ensures BLOCK <= |v| && Progress(Splice(v, 0, boot), g, files, boot, fat, 0, 0, 0)
  {
    hide Clusters, FatSectors, RootSectors;
    InVolume(g, |files|);
    SplicePuts(v, 0, boot);
    forall i: nat | Apart(g) && i < g.rootEntries ensures Splice(v, 0, boot)[EntryBase(g, |files|, i)] == 0 {
    }
  }

  lemma FatPlaced(g: Geometry, files: seq<File>, boot: seq<byte>, fat: seq<byte>, v: seq<byte>, k: nat)
    requires Ready(g, files, boot, fat, v) && Progress(v, g, files, boot, fat, k, 0, 0) && k < g.numFats
    ensures FatBase(g, |files|, k) + |fat| <= |v|
    ensures Progress(Splice(v, FatBase(g, |files|, k), fat), g, files, boot, fat, k + 1, 0, 0)
  {
    hide Clusters, FatSectors, RootSectors, Buildable, Reads, FatBase;
    var n, at := |files|, FatBase(g, |files|, k);
    InVolume(g, n);
    FatBases(g, n, k, g.numFats);
    var w := Splice(v, at, fat);
    if g.reserved > 0 {
      SpliceKeeps(v, at, fat, 0, boot);
    }
    SplicePuts(v, at, fat);
    forall j: nat | j < k ensures Reads(w, FatBase(g, n, j), fat) {
      FatBases(g, n, j, k);
      SpliceKeeps(v, at, fat, FatBase(g, n, j), fat);
    }
    forall i: nat | Apart(g) && i < g.rootEntries ensures w[EntryBase(g, n, i)] == 0 {
      assert v[EntryBase(g, n, i)] == 0;
    }
  }

  lemma EntryPlaced(g: Geometry, files: seq<File>, boot: seq<byte>, fat: seq<byte>, v: seq<byte>, i: nat)
    requires Ready(g, files, boot, fat, v) && Progress(v, g, files, boot, fat, g.numFats, i, i) && i < |files|
    ensures var (at, e) := (EntryBase(g, |files|, i), Entry(files[i].name, First(g, i), |files[i].data|));
            at + 32 <= |v| && Progress(Splice(v, at, e), g, files, boot, fat, g.numFats, i + 1, i)
  {
    hide Clusters, FatSectors, RootSectors, Buildable, Reads, FatBase, DataBase, EntryBase, Entry, First;
    var n := |files|;
    var at, e := EntryBase(g, n, i), Entry(files[i].name, First(g, i), |files[i].data|);
    InVolume(g, n);
    EntryBases(g, n, i, i);
    var w := Splice(v, at, e);
    SplicePuts(v, at, e);
    if g.reserved > 0 {
      SpliceKeeps(v, at, e, 0, boot);
    }
    forall k: nat | k < g.numFats ensures Reads(w, FatBase(g, n, k), fat) {
      FatBases(g, n, k, g.numFats);
      SpliceKeeps(v, at, e, FatBase(g, n, k), fat);
    }
    forall j: nat | j < i
      ensures Reads(w, EntryBase(g, n, j), Entry(files[j].name, First(g, j), |files[j].data|))
    {
      EntryBases(g, n, j, i);
      SpliceKeeps(v, at, e, EntryBase(g, n, j), Entry(files[j].name, First(g, j), |files[j].data|));
    }
    forall j: nat | i < j < g.rootEntries ensures at + 32 <= EntryBase(g, n, j) < |v| {
      EntryBases(g, n, i, j);
      EntryBases(g, n, j, j);
    }
    forall j: nat | Apart(g) && i + 1 <= j < g.rootEntries ensures w[EntryBase(g, n, j)] == 0 {
      assert v[EntryBase(g, n, j)] == 0;
    }
    forall j: nat | j < i ensures Reads(w, DataBase(g, n, j), files[j].data) {
      DataBases(g, n, j, n);
      SpliceKeeps(v, at, e, DataBase(g, n, j), files[j].data);
    }
  }

  lemma DataPlaced(g: Geometry, files: seq<File>, boot: seq<byte>, fat: seq<byte>, v: seq<byte>, i: nat)
    requires Ready(g, files, boot, fat, v) && Progress(v, g, files, boot, fat, g.numFats, i + 1, i) && i < |files|
    ensures var (at, d) := (DataBase(g, |files|, i), files[i].data);
            at + |d| <= |v| && Progress(Splice(v, at, d), g, files, boot, fat, g.numFats, i + 1, i + 1)
  {
    hide Clusters, FatSectors, RootSectors, Buildable, Reads, FatBase, DataBase, Entry, First;
    var n := |files|;
    var at, d := DataBase(g, n, i), files[i].data;
    InVolume(g, n);
    DataBases(g, n, i, n);
    var w := Splice(v, at, d);
    SplicePuts(v, at, d);
    if g.reserved > 0 {
      SpliceKeeps(v, at, d, 0, boot);
    }
    forall k: nat | k < g.numFats ensures Reads(w, FatBase(g, n, k), fat) {
      FatBases(g, n, k, g.numFats);
      SpliceKeeps(v, at, d, FatBase(g, n, k), fat);
    }
    forall j: nat | j < i + 1
      ensures Reads(w, EntryBase(g, n, j), Entry(files[j].name, First(g, j), |files[j].data|))
    {
      SpliceKeeps(v, at, d, EntryBase(g, n, j), Entry(files[j].name, First(g, j), |files[j].data|));
    }
    forall j: nat | Apart(g) && i + 1 <= j < g.rootEntries ensures w[EntryBase(g, n, j)] == 0 {
      assert v[EntryBase(g, n, j)] == 0;
    }
    forall j: nat | j < i ensures Reads(w, DataBase(g, n, j), files[j].data) {
      DataBases(g, n, j, i);
      SpliceKeeps(v, at, d, DataBase(g, n, j), files[j].data);
    }
  }

  lemma FinishedVolume(g: Geometry, files: seq<File>, boot: seq<byte>, fat: seq<byte>, v: seq<byte>)
    requires Ready(g, files, boot, fat, v) && Progress(v, g, files, boot, fat, g.numFats, |files|, |files|)
    requires IsBoot(boot, g, |files|) && IsFat(fat, g, |files|)
    ensures IsVolume(v, g, files)
  {
    hide Clusters, FatSectors, RootSectors, Buildable, FatBase, DataBase, Entry, First, IsBoot, IsFat;
    InVolume(g, |files|);
    assert g.reserved > 0 ==> v[..BLOCK] == boot;
    forall k: nat | k < g.numFats
      ensures FatBase(g, |files|, k) + FatSectors(g, |files|) * BLOCK <= |v|
      ensures IsFat(v[FatBase(g, |files|, k)..FatBase(g, |files|, k) + FatSectors(g, |files|) * BLOCK], g, |files|)
    {
      assert Reads(v, FatBase(g, |files|, k), fat);
    }
  }

  // ------------------------------------------------------------------------ builder

  datatype BuildError = BadSize | NameCollision | ImageSize | TooSmall | NotFat16 | FieldRange

  /** The files that the builder accepts: D64 images with different short names. */
  ghost predicate Accepted(files: seq<File>) {
    && (forall i: nat :: i < |files| ==> |files[i].data| == D64_SIZE)
    && (forall i: nat, j: nat :: i < j < |files| ==> ShortName(files[i].name) != ShortName(files[j].name))
  }

  /** One of the files has this short name. */
  predicate Taken(files: seq<File>, name: seq<byte>) {
    exists i: nat :: i < |files| && ShortName(files[i].name) == ShortName(name)
  }

  lemma ModIs(i: nat, c: nat, k: nat)
    requires k < c
    ensures (i * c + k) % c == k
  {
    var q, r := (i * c + k) / c, (i * c + k) % c;
    assert (q - i) * c == k - r;
    if q > i {
      MulLess(1, q - i, c);
    } else if q < i {
      MulLess(1, i - q, c);
    }
  }

  lemma SetFat(fat: seq<byte>, c: nat, w: nat)
    requires 2 * c + 2 <= |fat| && w < 0x10000
    ensures var r := Put16(fat, 2 * c, w);
            && Le16(r, 2 * c) == w
            && forall d: nat :: 2 * d + 2 <= |fat| && d != c ==> Le16(r, 2 * d) == Le16(fat, 2 * d)
  {
    hide Lo, Hi, Word;
    Put16Reads(fat, 2 * c, w);
  }

  class Builder {
    const g: Geometry
    var files: seq<File>

    ghost predicate Valid() reads this { Accepted(files) && g.imageSize % BLOCK == 0 }

    static method Create(g: Geometry) returns (r: Result<Builder, BuildError>)
      ensures r.Ok? <==> g.imageSize % BLOCK == 0
      ensures r.Ok? ==> fresh(r.value) && r.value.g == g && r.value.files == [] && r.value.Valid()
      ensures r.Err? ==> r.error == ImageSize
    {
      if g.imageSize % BLOCK != 0 {
        return Err(ImageSize);
      }
      var b := new Builder(g);
      return Ok(b);
    }

    constructor (g: Geometry)
      ensures this.g == g && files == []
    {
      this.g, files := g, [];
    }

    /** Accepts exactly the D64 images whose short name is still free. */
    method AddFile(name: seq<byte>, data: seq<byte>) returns (r: Result<(), BuildError>)
      requires Valid()
      modifies this
      ensures Valid()
      ensures r.Ok? <==> |data| == D64_SIZE && !old(Taken(files, name))
      ensures r.Err? ==> r.error == if |data| != D64_SIZE then BadSize else NameCollision
      ensures files == if r.Ok? then old(files) + [File(name, data)] else old(files)
    {
      hide ShortName;
      if |data| != D64_SIZE {
        return Err(BadSize);
      }
      var newShort := ShortName(name);
      for i := 0 to |files|
        invariant files == old(files) && forall j: nat :: j < i ==> ShortName(files[j].name) != newShort
      {
        if ShortName(files[i].name) == newShort {
          return Err(NameCollision);
        }
      }
      files := files + [File(name, data)];
      return Ok(());
    }

    /** The first cluster of every file. */
    method Plan() returns (layout: seq<nat>, nextCluster: nat)
      requires Valid() && g.spc > 0
      ensures |layout| == |files| && nextCluster == First(g, |files|)
      ensures forall i: nat :: i < |files| ==> layout[i] == First(g, i)
    {
      hide Clusters;
      layout, nextCluster := [], 2;
      for i := 0 to |files|
        invariant |layout| == i && nextCluster == First(g, i)
        invariant forall j: nat :: j < i ==> layout[j] == First(g, j)
      {
        layout := layout + [nextCluster];
        nextCluster := nextCluster + ClustersOf(|files[i].data|);
      }
    }

    function ClustersOf(size: nat): (c: nat)
      requires g.spc > 0
      ensures size == D64_SIZE ==> c == Clusters(g)
    {
      (size + g.spc * BLOCK - 1) / (g.spc * BLOCK)
    }

    method BuildFat(layout: seq<nat>) returns (fat: seq<byte>)
      requires Valid() && Buildable(g, |files|) && First(g, |files|) < 0xFFFF && |layout| == |files|
      requires forall i: nat :: i < |files| ==> layout[i] == First(g, i)
      ensures IsFat(fat, g, |files|)
    {
      hide Clusters, FatSectors, RootSectors, Put16, Le16, Buildable;
      ghost var n, size := |files|, FatSectors(g, |files|) * BLOCK;
      fat := Zeros(FatSectors(g, |files|) * BLOCK);
      ZeroWords(fat);
      FatHead(g, n);
      SetFat(fat, 0, 0xFFF8);
      fat := Put16(fat, 0, 0xFFF8);
      SetFat(fat, 1, 0xFFFF);
      fat := Put16(fat, 2, 0xFFFF);
      for i := 0 to |layout|
        invariant |fat| == size && FatUpTo(fat, g, n, First(g, i))
      {
        var first, clusters := layout[i], ClustersOf(|files[i].data|);
        ChainInFat(g, i, n);
        for k := 0 to clusters
          invariant |fat| == size && FatUpTo(fat, g, n, first + k)
        {
          var cluster := first + k;
          ghost var c := Clusters(g);
          ModIs(i, c, k);
          assert cluster - 2 == i * c + k;
          var value := if k == clusters - 1 then 0xFFFF else cluster + 1;
          SetFat(fat, cluster, value);
          fat := Put16(fat, 2 * cluster, value);
        }
      }
      forall c: nat | 2 * c + 2 <= |fat| ensures Le16(fat, 2 * c) == FatValue(g, n, c) {
      }
    }

    /** Builds the card, or says why not: every byte of every file is where its directory
        entry and its FAT chain say. */
    method Build() returns (r: Result<seq<byte>, BuildError>, startLbas: seq<nat>)
      requires Valid() && g.spc > 0 && |files| <= g.rootEntries
      ensures r.Ok? <==> Buildable(g, |files|)
      ensures r == Err(TooSmall) <==> VolumeSectors(g) < DataStart(g, |files|) + Span(First(g, |files|) - 2, g.spc)
      ensures r.Ok? ==> IsCard(r.value, g, files)
      ensures r.Ok? ==>
                |startLbas| == |files| && forall i: nat :: i < |files| ==> startLbas[i] == StartLba(g, |files|, i)
    {
      hide Clusters, FatSectors, RootSectors, DataStart, FatBase, DataBase, Entry, IsBoot, IsFat, First, Span,
        ClusterCount;
      hide RootBase, IsVolume, IsCard, VolumeSectors;
      startLbas := [];
      var layout, nextCluster := Plan();
      AtLeastTwo(g, |files|);
      var dataStart := DataStart(g, |files|);
      var volumeSectors := VolumeSectors(g);
      if volumeSectors < dataStart + Span(nextCluster - 2, g.spc) {
        return Err(TooSmall), [];
      }
      var clusterCount := ClusterCount(volumeSectors - dataStart, g.spc);
      if clusterCount < 4085 || clusterCount >= 65525 {
        return Err(NotFat16), [];
      }
      if g.spc >= 256 || g.reserved >= 0x10000 || g.rootEntries >= 0x10000 || g.numFats >= 256
         || FatSectors(g, |files|) >= 0x10000 || volumeSectors >= 0x1_0000_0000 || g.partStart >= 0x1_0000_0000 {
        return Err(FieldRange), [];
      }
      ghost var n := |files|;
      ClustersInVolume(g, n);
      var fat := BuildFat(layout);
      BootIsRead(g, n);
      var boot := BootSector(g, |files|);
      InVolume(g, n);
      var volume := FillVolume(layout, boot, fat);
      var img := WrapCard(volume);
      for i := 0 to |layout|
        invariant |startLbas| == i && forall j: nat :: j < i ==> startLbas[j] == StartLba(g, n, j)
      {
        AtLeastTwo(g, i);
        startLbas := startLbas + [g.partStart + dataStart + Span(layout[i] - 2, g.spc)];
      }
      return Ok(img), startLbas;
    }

    method FillVolume(layout: seq<nat>, boot: seq<byte>, fat: seq<byte>) returns (volume: seq<byte>)
      requires Valid() && Buildable(g, |files|) && |files| <= g.rootEntries
      requires |layout| == |files| && forall i: nat :: i < |files| ==> layout[i] == First(g, i)
      requires IsBoot(boot, g, |files|) && IsFat(fat, g, |files|)
      ensures |volume| == VolumeSectors(g) * BLOCK && IsVolume(volume, g, files)
    {
      hide Clusters, FatSectors, RootSectors, DataStart, FatBase, DataBase, RootBase, Entry, Progress, IsBoot, IsFat,
        First;
      hide Splice, Buildable, VolumeSectors, IsVolume, Accepted, Ready, Span, ShortName;
      ghost var n := |files|;
      NonNegative(g, n);
      volume := Zeros(VolumeSectors(g) * BLOCK);
      NowReady(g, files, boot, fat, volume);
      BootPlaced(g, files, boot, fat, volume);
      volume := Splice(volume, 0, boot);
      NowReady(g, files, boot, fat, volume);
      for k := 0 to g.numFats
        invariant |volume| == VolumeSectors(g) * BLOCK && Ready(g, files, boot, fat, volume)
        invariant Progress(volume, g, files, boot, fat, k, 0, 0)
      {
        FatPlaced(g, files, boot, fat, volume, k);
        volume := Splice(volume, FatBase(g, |files|, k), fat);
        NowReady(g, files, boot, fat, volume);
      }
      for i := 0 to |layout|
        invariant |volume| == VolumeSectors(g) * BLOCK && Ready(g, files, boot, fat, volume)
        invariant Progress(volume, g, files, boot, fat, g.numFats, i, i)
      {
        EntryPlaced(g, files, boot, fat, volume, i);
        var entry := Entry(files[i].name, layout[i], |files[i].data|);
        volume := Splice(volume, EntryBase(g, |files|, i), entry);
        NowReady(g, files, boot, fat, volume);
        DataPlaced(g, files, boot, fat, volume, i);
        DataBaseIs(g, n, i);
        AtLeastTwo(g, i);
        var dataBase := (DataStart(g, |files|) + Span(layout[i] - 2, g.spc)) * BLOCK;
        volume := Splice(volume, dataBase, files[i].data);
        NowReady(g, files, boot, fat, volume);
      }
      FinishedVolume(g, files, boot, fat, volume);
    }

    method WrapCard(volume: seq<byte>) returns (card: seq<byte>)
      requires Buildable(g, |files|)
      requires |volume| == VolumeSectors(g) * BLOCK && IsVolume(volume, g, files)
      ensures IsCard(card, g, files)
    {
      hide Clusters, FatSectors, RootSectors, DataStart, First, IsVolume, Lo, Hi, Word;
      InVolume(g, |files|);
      BuildableFields(g, |files|);
      if g.partStart == 0 {
        assert volume[0..] == volume;
        return volume;
      }
      var p, v := g.partStart, VolumeSectors(g);
      var part: seq<byte> := [0, 0, 0, 0, 0x06, 0, 0, 0, Lo(p), Hi(p), Lo(p / 0x10000), Hi(p / 0x10000),
                              Lo(v), Hi(v), Lo(v / 0x10000), Hi(v / 0x10000)];
      var mbr := Zeros(446) + part + Zeros(48) + [0x55, 0xAA];
      var start := p * BLOCK;
      var c0 := Splice(Zeros(g.imageSize), 0, mbr);
      card := Splice(c0, start, volume);
      assert card[start..] == volume;
      LongRoundTrip(p);
      LongRoundTrip(v);
      assert forall k :: 0 <= k < BLOCK ==> card[k] == mbr[k];
      assert forall k :: 0 <= k < 16 ==> mbr[446 + k] == part[k];
      assert card[446..454] == part[..8];
    }
  }

  lemma NowReady(g: Geometry, files: seq<File>, boot: seq<byte>, fat: seq<byte>, v: seq<byte>)
    requires g.spc > 0 && Buildable(g, |files|) && |files| <= g.rootEntries && Accepted(files)
    requires IsBoot(boot, g, |files|) && IsFat(fat, g, |files|) && |v| == VolumeSectors(g) * BLOCK
    ensures Ready(g, files, boot, fat, v) && |boot| == BLOCK
  {
    hide Clusters, FatSectors, RootSectors, First, ShortName;
  }

  lemma NonNegative(g: Geometry, n: nat)
    requires Buildable(g, n)
    ensures g.spc > 0 && VolumeSectors(g) >= 0
  {
    BuildableFields(g, n);
  }

  lemma AtLeastTwo(g: Geometry, i: nat)
    requires g.spc > 0
    ensures First(g, i) >= 2
  {
  }

  lemma DataBaseIs(g: Geometry, n: nat, i: nat)
    requires g.spc > 0
    ensures DataBase(g, n, i) == (DataStart(g, n) + Span(First(g, i) - 2, g.spc)) * BLOCK
  {
  }

  /** The boot sector, field after field: the first 28 bytes, the next 34, and the rest. */
  function BootHead(g: Geometry, n: nat): (head: seq<byte>)
    requires Buildable(g, n)
    ensures |head| == 28
  {
    var v, spf := VolumeSectors(g), FatSectors(g, n);
    var short := if v <= 0xFFFF then v else 0;
    [0xEB, 0x3C, 0x90, 77, 83, 68, 79, 83, 53, 46, 48, Lo(BLOCK), Hi(BLOCK), g.spc, Lo(g.reserved), Hi(g.reserved),
     g.numFats, Lo(g.rootEntries), Hi(g.rootEntries), Lo(short), Hi(short), 0xF8, Lo(spf), Hi(spf), 63, 0, 255, 0]
  }

  function BootTail(g: Geometry): (tail: seq<byte>)
    ensures |tail| == 34
  {
    var v, p := VolumeSectors(g), g.partStart;
    var long := if v <= 0xFFFF then 0 else v;
    Le32Bytes(p) + Le32Bytes(long) +
    [0x80, 0, 0x29, 0x02, 0x07, 0x26, 0x20, 77, 73, 83, 84, 69, 82, 32, 68, 54, 52, 32, 70, 65, 84, 49, 54, 32, 32, 32]
  }

  function BootSector(g: Geometry, n: nat): (boot: seq<byte>)
    requires Buildable(g, n)
    ensures |boot| == BLOCK
  {
    BootHead(g, n) + BootTail(g) + Zeros(448) + [0x55, 0xAA]
  }

  lemma BootIsRead(g: Geometry, n: nat)
    requires Buildable(g, n)
    ensures g.spc > 0 && IsBoot(BootSector(g, n), g, n)
  {
    BuildableFields(g, n);
    HeadIsRead(g, n);
    TailIsRead(g);
    LongReads(g.partStart);
    LongReads(if VolumeSectors(g) <= 0xFFFF then 0 else VolumeSectors(g));
    TextsInHead(g, n);
    hide FatSectors, DataStart, First, RootSectors, Word, Buildable, BootHead, BootTail, VolumeSectors, Le16, Le32,
      Le32Bytes;
    Assembled(BootHead(g, n), BootTail(g));
    TextsAssembled(BootHead(g, n), BootTail(g));
  }

  lemma TextsInHead(g: Geometry, n: nat)
    requires Buildable(g, n)
    ensures var (h, t) := (BootHead(g, n), BootTail(g));
            && h[..11] == [0xEB, 0x3C, 0x90, 0x4D, 0x53, 0x44, 0x4F, 0x53, 0x35, 0x2E, 0x30]
            && h[21] == 0xF8 && h[24..28] == [63, 0, 255, 0] && t[8..15] == [0x80, 0, 0x29, 0x02, 0x07, 0x26, 0x20]
            && t[15..26] == [0x4D, 0x49, 0x53, 0x54, 0x45, 0x52, 0x20, 0x44, 0x36, 0x34, 0x20]
            && t[26..34] == [0x46, 0x41, 0x54, 0x31, 0x36, 0x20, 0x20, 0x20]
  {
    hide FatSectors, Buildable, VolumeSectors, Le32Bytes, Lo, Hi;
  }

  lemma TextsAssembled(head: seq<byte>, tail: seq<byte>)
    requires |head| == 28 && |tail| == 34
    ensures var b := head + tail + Zeros(448) + [0x55, 0xAA];
            && |b| == BLOCK && b[..11] == head[..11] && b[21] == head[21] && b[24..28] == head[24..28]
            && b[36..43] == tail[8..15] && b[43..54] == tail[15..26] && b[54..62] == tail[26..34]
            && forall k :: 62 <= k < 510 ==> b[k] == 0
  {
    var b := head + tail + Zeros(448) + [0x55, 0xAA];
    assert forall k :: 0 <= k < 28 ==> b[k] == head[k];
    assert forall k :: 28 <= k < 62 ==> b[k] == tail[k - 28];
  }

  /** Where the parts of the boot sector end up. */
  lemma Assembled(head: seq<byte>, tail: seq<byte>)
    requires |head| == 28 && |tail| == 34
    ensures var b := head + tail + Zeros(448) + [0x55, 0xAA];
            && |b| == BLOCK && b[13] == head[13] && b[16] == head[16] && Le16(b, 11) == Le16(head, 11)
            && Le16(b, 14) == Le16(head, 14) && Le16(b, 17) == Le16(head, 17) && Le16(b, 19) == Le16(head, 19)
            && Le16(b, 22) == Le16(head, 22) && Le32(b, 28) == Le32(tail, 0) && Le32(b, 32) == Le32(tail, 4)
            && b[450] == 0 && b[510] == 0x55 && b[511] == 0xAA
  {
    hide Word;
    var b := head + tail + Zeros(448) + [0x55, 0xAA];
    assert b[..28] == head && b[28..62] == tail;
    assert forall k :: 0 <= k < 28 ==> b[k] == head[k];
    assert forall k :: 0 <= k < 34 ==> b[28..62][k] == b[28 + k];
    assert forall k :: 28 <= k < 62 ==> b[k] == tail[k - 28];
  }

  lemma HeadIsRead(g: Geometry, n: nat)
    requires Buildable(g, n)
    ensures g.spc > 0
    ensures var (h, v) := (BootHead(g, n), VolumeSectors(g));
            && Le16(h, 11) == BLOCK && h[13] == g.spc && Le16(h, 14) == g.reserved && h[16] == g.numFats
            && Le16(h, 17) == g.rootEntries && Le16(h, 22) == FatSectors(g, n)
            && Le16(h, 19) == if v < 0x10000 then v else 0
  {
    hide FatSectors, DataStart, First, RootSectors, Lo, Hi, Word;
    var v := VolumeSectors(g);
    BuildableFields(g, n);
    WordRoundTrip(BLOCK);
    WordRoundTrip(g.reserved);
    WordRoundTrip(g.rootEntries);
    WordRoundTrip(FatSectors(g, n));
    WordRoundTrip(if v <= 0xFFFF then v else 0);
  }

  lemma TailIsRead(g: Geometry)
    ensures var (t, v) := (BootTail(g), VolumeSectors(g));
            && Le32(t, 0) == Le32(Le32Bytes(g.partStart), 0)
            && Le32(t, 4) == Le32(Le32Bytes(if v <= 0xFFFF then 0 else v), 0)
  {
    hide Lo, Hi, Word, Le32Bytes, VolumeSectors;
    var v := VolumeSectors(g);
    var p, long := Le32Bytes(g.partStart), Le32Bytes(if v <= 0xFFFF then 0 else v);
    var t := BootTail(g);
    assert forall k | 0 <= k < 4 :: t[k] == p[k];
    assert forall k | 4 <= k < 8 :: t[k] == long[k - 4];
  }

  lemma LongReads(w: nat)
    requires w < 0x1_0000_0000
    ensures Le32(Le32Bytes(w), 0) == w
  {
    hide Lo, Hi, Word;
    LongRoundTrip(w);
  }

  lemma BuildableFields(g: Geometry, n: nat)
    requires Buildable(g, n)
    ensures g.spc < 256 && g.reserved < 0x10000 && g.rootEntries < 0x10000 && g.numFats < 256
            && g.partStart < 0x1_0000_0000
    ensures 0 <= VolumeSectors(g) < 0x1_0000_0000 && FatSectors(g, n) < 0x10000
  {
    hide FatSectors, RootSectors, Clusters;
    assert Span(First(g, n) - 2, g.spc) >= 0;
  }

  lemma LongRoundTrip(w: nat)
    requires w < 0x1_0000_0000
    ensures Word(Lo(w), Hi(w)) + 0x10000 * Word(Lo(w / 0x10000), Hi(w / 0x10000)) == w
  {
    LowHalf(w);
    WordRoundTrip(w % 0x10000);
    WordRoundTrip(w / 0x10000);
  }

  lemma ClustersInVolume(g: Geometry, n: nat)
    requires Buildable(g, n)
    ensures First(g, n) - 2 <= ClusterCount(VolumeSectors(g) - DataStart(g, n), g.spc) < 65525
  {
    hide Clusters, FatSectors, RootSectors;
    DivAtLeast(First(g, n) - 2, g.spc, VolumeSectors(g) - DataStart(g, n));
  }

  lemma DivAtLeast(a: nat, k: nat, b: nat)
    requires k > 0 && a * k <= b
    ensures a <= b / k
  {
    var q := b / k;
    assert b < (q + 1) * k;
    if q < a {
      MulLess(q + 1, a, k);
    }
  }

  /** The FAT below cluster `c` is final and zero from there on. */
  ghost predicate FatUpTo(fat: seq<byte>, g: Geometry, n: nat, c: nat)
    requires g.spc > 0
  {
    forall d: nat :: 2 * d + 2 <= |fat| ==> Le16(fat, 2 * d) == if d < c then FatValue(g, n, d) else 0
  }

  lemma ZeroWords(fat: seq<byte>)
    requires fat == Zeros(|fat|)
    ensures forall d: nat :: 2 * d + 2 <= |fat| ==> Le16(fat, 2 * d) == 0
  {
  }

  lemma FatHead(g: Geometry, n: nat)
    requires g.spc > 0
    ensures 4 <= 2 * First(g, n) <= FatSectors(g, n) * BLOCK && First(g, 0) == 2
  {
    hide Clusters;
  }

  lemma ChainInFat(g: Geometry, i: nat, n: nat)
    requires g.spc > 0 && i < n
    ensures First(g, i) + Clusters(g) == First(g, i + 1) <= First(g, n)
    ensures 2 * First(g, n) <= FatSectors(g, n) * BLOCK
  {
    hide Clusters, FatSectors;
    MulLess(i + 1, n, Clusters(g));
  }
}
