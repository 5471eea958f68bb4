/** The FAT32 card builder (tools/d64/make_fat32_card.py, class Fat32Builder): files of any
    sizes, one after the other behind a root directory in cluster 2. */
module Fat32Builder {
  import opened Bytes
  import opened Regions
  import F = Fat16Layout
  import Fat16Builder

  const BLOCK := 512
  const EOC := 0x0FFFFFFF

  /** A directory entry as it is put down: the filler entries are one byte short. */
  type DirEntry = e: seq<byte> | 31 <= |e| <= 32 witness seq(32, _ => 0)

  /** `partStart` is 0 on a card without a partition table, `forcedSpf` 0 without a forced FAT
      size. `prefix` are the directory entries before those of the files. */
  datatype Geometry = Geometry(spc: nat, reserved: nat, numFats: nat, partStart: nat, forcedSpf: nat,
                               prefix: seq<DirEntry>)

  datatype File = File(name: seq<byte>, data: seq<byte>)

  // ---------------------------------------------------------------------- geometry

  /** `n` things of `size` each. */
  function Span(n: nat, size: nat): nat { n * size }

  lemma SpanAdd(a: nat, b: nat, size: nat)
    ensures Span(a + b, size) == Span(a, size) + Span(b, size)
  {
  }

  lemma SpanOf(n: nat, size: nat, k: nat)
    ensures Span(n, size) * k == Span(n, size * k)
  {
    assert n * size * k == n * (size * k);
  }

  lemma SpanOne(size: nat)
    ensures Span(1, size) == size && Span(0, size) == 0
  {
  }

  function ClusterBytes(g: Geometry): nat { g.spc * BLOCK }

  /** The clusters of a file; an empty file has one, too. */
  function Count(g: Geometry, size: nat): (c: nat)
    requires g.spc > 0
    ensures c > 0 && size <= Span(c, ClusterBytes(g)) && (c > 1 ==> Span(c - 1, ClusterBytes(g)) < size)
  {
    var b := ClusterBytes(g);
    var c := (size + b - 1) / b;
    CeilDiv(size, b);
    if c > 1 then c else 1
  }

  lemma CeilDiv(a: nat, b: nat)
    requires b > 0
    ensures var c := (a + b - 1) / b; c >= 0 && a <= Span(c, b) && (c > 0 ==> Span(c - 1, b) < a)
    ensures Span(1, b) == b
  {
    var c := (a + b - 1) / b;
    assert c * b <= a + b - 1 < c * b + b;
    assert c > 0 ==> (c - 1) * b == c * b - b;
  }

  /** The first cluster of file `i`. */
  function First(g: Geometry, files: seq<File>, i: nat): (c: nat)
    requires g.spc > 0 && i <= |files|
    ensures c >= 3
  {
    if i == 0 then 3 else First(g, files, i - 1) + Count(g, |files[i - 1].data|)
  }

  function Next(g: Geometry, files: seq<File>): nat
    requires g.spc > 0
  {
    First(g, files, |files|)
  }

  lemma {:induction false} FirstMonotone(g: Geometry, files: seq<File>, i: nat, j: nat)
    requires g.spc > 0 && i <= j <= |files|
    ensures First(g, files, i) <= First(g, files, j)
    ensures i < j ==> First(g, files, i) + Count(g, |files[i].data|) <= First(g, files, j)
    decreases j
  {
    hide Count;
    if i < j {
      FirstMonotone(g, files, i, j - 1);
    }
  }

  function Max(a: nat, b: nat): nat { if a > b then a else b }

  function FatSectors(g: Geometry, files: seq<File>): (s: nat)
    requires g.spc > 0
    ensures s > 0 && 4 * Next(g, files) <= s * BLOCK
  {
    Max(Max(1, (4 * Next(g, files) + BLOCK - 1) / BLOCK), g.forcedSpf)
  }

  function DataStart(g: Geometry, files: seq<File>): nat
    requires g.spc > 0
  {
    g.reserved + Span(g.numFats, FatSectors(g, files))
  }

  function VolumeSectors(g: Geometry, files: seq<File>): nat
    requires g.spc > 0
  {
    DataStart(g, files) + Span(Next(g, files) - 2, g.spc)
  }

  // Byte offsets on the volume.

  function FatBase(g: Geometry, files: seq<File>, k: nat): nat
    requires g.spc > 0
  {
    (g.reserved + Span(k, FatSectors(g, files))) * BLOCK
  }

  function ClusterBase(g: Geometry, files: seq<File>, c: nat): nat
    requires g.spc > 0 && c >= 2
  {
    (DataStart(g, files) + Span(c - 2, g.spc)) * BLOCK
  }

  lemma FatBaseStep(g: Geometry, files: seq<File>, k: nat)
    requires g.spc > 0
    ensures FatBase(g, files, k + 1) == FatBase(g, files, k) + FatSectors(g, files) * BLOCK
    ensures FatBase(g, files, 0) == g.reserved * BLOCK && FatBase(g, files, g.numFats) == DataStart(g, files) * BLOCK
  {
    hide FatSectors;
    SpanAdd(k, 1, FatSectors(g, files));
    SpanOne(FatSectors(g, files));
  }

  lemma ClusterBaseIs(g: Geometry, files: seq<File>, c: nat, d: nat)
    requires g.spc > 0 && 2 <= c <= d
    ensures ClusterBase(g, files, d) == ClusterBase(g, files, c) + Span(d - c, ClusterBytes(g))
    ensures ClusterBase(g, files, 2) == DataStart(g, files) * BLOCK
  {
    hide DataStart;
    SpanAdd(c - 2, d - c, g.spc);
    SpanOf(d - c, g.spc, BLOCK);
    SpanOne(g.spc);
  }

  // ---------------------------------------------------------------------- contents

  function Le16Bytes(w: nat): (b: seq<byte>)
    ensures |b| == 2
  {
    [Lo(w), Hi(w)]
  }

  /** The 8.3 name: upper case, split at the last dot, cut and padded. */
  function ShortName(name: seq<byte>): (r: seq<byte>)
    ensures |r| == 11
  {
    var u := F.Upper(name);
    var dot := F.AfterDot(u);
    if dot <= 1 then F.Pad(u, 8) + F.Pad([], 3) else F.Pad(u[..dot - 1], 8) + F.Pad(u[dot..], 3)
  }

  /** The 32-byte directory entry of a file. */
  function Entry(name: seq<byte>, first: nat, size: nat): (e: seq<byte>)
    ensures |e| == 32
  {
    ShortName(name) + [0x20] + Zeros(8) + [Lo(first / 0x10000), Hi(first / 0x10000)] + Zeros(4)
    + [Lo(first), Hi(first)] + F.Le32Bytes(size)
  }

  /** All directory entries. */
  function Entries(g: Geometry, files: seq<File>): (es: seq<DirEntry>)
    requires g.spc > 0
    ensures |es| == |g.prefix| + |files|
  {
    g.prefix + seq(|files|, i requires 0 <= i < |files| => Entry(files[i].name, First(g, files, i), |files[i].data|))
  }

  function Word32(fat: seq<byte>, c: nat): nat
    requires 4 * c + 4 <= |fat|
  {
    F.Le32(fat, 4 * c)
  }

  /** Entries have 28 bits. */
  function Masked(w: nat): nat { w % 0x1000_0000 }

  lemma MaskedSmall(w: nat)
    requires w < 0x1000_0000
    ensures Masked(w) == w
  {
  }

  /** The first `n` links of a chain of `count` clusters are in place. */
  ghost predicate Chain(fat: seq<byte>, first: nat, count: nat, n: nat) {
    && n <= count && 4 * (first + n) <= |fat|
    && forall c: nat :: first <= c < first + n ==>
         Word32(fat, c) == if c == first + count - 1 then EOC else Masked(c + 1)
  }

  /** Files before `i` have their chains, file `i` its first `n` links, and the rest is zero. */
  ghost predicate Filled(fat: seq<byte>, g: Geometry, files: seq<File>, i: nat, n: nat)
    requires g.spc > 0 && i <= |files|
  {
    && |fat| == FatSectors(g, files) * BLOCK && 4 * Next(g, files) <= |fat|
    && Word32(fat, 0) == 0x0FFFFFF8 && Word32(fat, 1) == EOC && Word32(fat, 2) == EOC
    && (forall j: nat :: j < i ==> Chain(fat, First(g, files, j), Count(g, |files[j].data|), Count(g, |files[j].data|)))
    && (i < |files| ==> Chain(fat, First(g, files, i), Count(g, |files[i].data|), n))
    && forall c: nat :: First(g, files, i) + n <= c && 4 * c + 4 <= |fat| ==> Word32(fat, c) == 0
  }

  /** The whole table. */
  ghost predicate IsFat(fat: seq<byte>, g: Geometry, files: seq<File>)
    requires g.spc > 0
  {
    Filled(fat, g, files, |files|, 0)
  }

  lemma SetReads(fat: seq<byte>, c: nat, w: nat, d: nat)
    requires 4 * c + 4 <= |fat| && 4 * d + 4 <= |fat| && w < 0x1_0000_0000
    ensures Word32(Splice(fat, 4 * c, F.Le32Bytes(w)), d) == if d == c then w else Word32(fat, d)
  {
    hide Splice;
    var after := Splice(fat, 4 * c, F.Le32Bytes(w));
    SpliceReads(fat, 4 * c, F.Le32Bytes(w), 4 * d, 4 * d + 4);
    Fat16Builder.LongReads(w);
    Le32Slice(after, 4 * d);
    Le32Slice(fat, 4 * d);
  }

  lemma Le32Slice(v: seq<byte>, at: nat)
    requires at + 4 <= |v|
    ensures F.Le32(v, at) == F.Le32(v[at..at + 4], 0)
  {
  }

  lemma LinkAdded(fat: seq<byte>, g: Geometry, files: seq<File>, i: nat, k: nat)
    requires g.spc > 0 && i < |files| && Filled(fat, g, files, i, k) && k < Count(g, |files[i].data|)
    ensures var c := First(g, files, i) + k;
            && 4 * c + 4 <= |fat|
            && Filled(Splice(fat, 4 * c,
                             F.Le32Bytes(if k == Count(g, |files[i].data|) - 1 then EOC else Masked(c + 1))),
                      g, files, i, k + 1)
  {
    hide Count, FatSectors, F.Le32Bytes, Splice, First, Word32;
    var c, count := First(g, files, i) + k, Count(g, |files[i].data|);
    FirstMonotone(g, files, i, |files|);
    var w := if k == count - 1 then EOC else Masked(c + 1);
    var after := Splice(fat, 4 * c, F.Le32Bytes(w));
    forall d: nat | 4 * d + 4 <= |fat| ensures Word32(after, d) == if d == c then w else Word32(fat, d) {
      SetReads(fat, c, w, d);
    }
    forall j: nat | j < i
      ensures Chain(after, First(g, files, j), Count(g, |files[j].data|), Count(g, |files[j].data|))
    {
      FirstMonotone(g, files, j, i);
      ChainKept(fat, after, First(g, files, j), Count(g, |files[j].data|), c);
    }
  }

  lemma ChainKept(fat: seq<byte>, after: seq<byte>, first: nat, count: nat, c: nat)
    requires Chain(fat, first, count, count) && first + count <= c && |after| == |fat|
    requires forall d: nat | 4 * d + 4 <= |fat| :: d != c ==> Word32(after, d) == Word32(fat, d)
    ensures Chain(after, first, count, count)
  {
    hide Word32;
  }

  lemma ChainDone(fat: seq<byte>, g: Geometry, files: seq<File>, i: nat)
    requires g.spc > 0 && i < |files| && Filled(fat, g, files, i, Count(g, |files[i].data|))
    ensures Filled(fat, g, files, i + 1, 0)
  {
    hide Count, FatSectors, Word32, Chain, First;
    FirstStep(g, files, i);
    if i + 1 < |files| {
      FirstMonotone(g, files, i + 1, |files|);
      ChainEmpty(fat, First(g, files, i + 1), Count(g, |files[i + 1].data|));
    }
    forall c: nat | First(g, files, i + 1) <= c && 4 * c + 4 <= |fat| ensures Word32(fat, c) == 0 {
    }
  }

  lemma FirstStep(g: Geometry, files: seq<File>, i: nat)
    requires g.spc > 0 && i < |files|
    ensures First(g, files, i + 1) == First(g, files, i) + Count(g, |files[i].data|)
  {
  }

  lemma ChainEmpty(fat: seq<byte>, first: nat, count: nat)
    requires 4 * first <= |fat|
    ensures Chain(fat, first, count, 0)
  {
  }

  lemma HeadFilled(fat: seq<byte>, g: Geometry, files: seq<File>)
    requires g.spc > 0 && |fat| == FatSectors(g, files) * BLOCK && forall k :: 0 <= k < |fat| ==> fat[k] == 0
    ensures var a := Splice(fat, 0, F.Le32Bytes(0x0FFFFFF8));
            var b := Splice(a, 4, F.Le32Bytes(EOC));
            Filled(Splice(b, 8, F.Le32Bytes(EOC)), g, files, 0, 0)
  {
    hide Count, FatSectors, F.Le32Bytes, Splice;
    FirstMonotone(g, files, 0, |files|);
    var a := Splice(fat, 0, F.Le32Bytes(0x0FFFFFF8));
    var b := Splice(a, 4, F.Le32Bytes(EOC));
    var e := Splice(b, 8, F.Le32Bytes(EOC));
    forall d: nat | 4 * d + 4 <= |fat|
      ensures Word32(e, d) == if d == 0 then 0x0FFFFFF8 else if d == 1 || d == 2 then EOC else 0
    {
      SetReads(fat, 0, 0x0FFFFFF8, d);
      SetReads(a, 1, EOC, d);
      SetReads(b, 2, EOC, d);
    }
  }

  // ------------------------------------------------------------------------ regions

  function BootParts(g: Geometry, files: seq<File>): (ps: seq<Part>)
    requires g.spc > 0 && FieldsFit(g, files)
    ensures Ascending(ps) && EndOf(ps) == BLOCK
  {
    [Part(0, [0xEB, 0x58, 0x90]), Part(3, [77, 83, 68, 79, 83, 53, 46, 48]), Part(11, Le16Bytes(BLOCK)),
     Part(13, [g.spc]), Part(14, Le16Bytes(g.reserved)), Part(16, [g.numFats]), Part(17, Le16Bytes(0)),
     Part(19, Le16Bytes(0)), Part(21, [0xF8]), Part(22, Le16Bytes(0)), Part(32, F.Le32Bytes(VolumeSectors(g, files))),
     Part(36, F.Le32Bytes(FatSectors(g, files))), Part(44, F.Le32Bytes(2)), Part(48, Le16Bytes(1)),
     Part(50, Le16Bytes(6)), Part(510, [0x55, 0xAA])]
  }

  function MbrParts(g: Geometry, files: seq<File>): (ps: seq<Part>)
    requires g.spc > 0
    ensures Ascending(ps) && EndOf(ps) == BLOCK
  {
    [Part(446, [0, 0, 0, 0, 0x0C, 0, 0, 0] + F.Le32Bytes(g.partStart) + F.Le32Bytes(VolumeSectors(g, files))),
     Part(510, [0x55, 0xAA])]
  }

  /** Every number fits its field. */
  predicate FieldsFit(g: Geometry, files: seq<File>)
    requires g.spc > 0
  {
    && g.spc < 256 && g.reserved < 0x10000 && g.numFats < 256
    && VolumeSectors(g, files) < 0x1_0000_0000 && FatSectors(g, files) < 0x1_0000_0000
    && (g.partStart > 0 ==> g.partStart < 0x1_0000_0000)
    && forall f <- files :: |f.data| < 0x1_0000_0000
  }

  // ------------------------------------------------------------------ root directory

  /** How many of the first `i` entries are short. */
  function Shorts(es: seq<DirEntry>, i: nat): (n: nat)
    requires i <= |es|
    ensures n <= i
  {
    if i == 0 then 0 else Shorts(es, i - 1) + 32 - |es[i - 1]|
  }

  /** `root[off:off+32] = e`: a short entry makes the buffer shorter. */
  function PutEntry(root: seq<byte>, off: nat, e: seq<byte>): seq<byte> {
    Slice(root, 0, off) + e + Slice(root, off + 32, |root|)
  }

  /** The directory buffer after the first `i` entries. */
  function RootUpTo(size: nat, es: seq<DirEntry>, i: nat): seq<byte>
    requires i <= |es|
  {
    if i == 0 then Zeros(size) else PutEntry(RootUpTo(size, es, i - 1), 32 * (i - 1), es[i - 1])
  }

  /** What the root's cluster gets of the directory buffer. */
  function Cluster(size: nat, root: seq<byte>): (c: seq<byte>)
    ensures |c| == size
  {
    var head := Slice(root, 0, size);
    head + Zeros(size - |head|)
  }

  lemma ClusterReads(size: nat, root: seq<byte>, lo: nat, hi: nat)
    requires lo <= hi <= |root| && hi <= size
    ensures Cluster(size, root)[lo..hi] == root[lo..hi]
  {
  }

  // ------------------------------------------------------------------------- volume

  function FatParts(g: Geometry, files: seq<File>, fat: seq<byte>): (ps: seq<Part>)
    requires g.spc > 0
    ensures |ps| == g.numFats
  {
    seq(g.numFats, k requires 0 <= k < g.numFats => Part(FatBase(g, files, k), fat))
  }

  function DataParts(g: Geometry, files: seq<File>): (ps: seq<Part>)
    requires g.spc > 0
    ensures |ps| == |files|
  {
    seq(|files|, i requires 0 <= i < |files| => Part(ClusterBase(g, files, First(g, files, i)), files[i].data))
  }

  /** The volume behind the reserved sectors, region by region. */
  function VolumeParts(g: Geometry, files: seq<File>, fat: seq<byte>, cluster: seq<byte>): (ps: seq<Part>)
    requires g.spc > 0
    ensures |ps| == 1 + g.numFats + |files|
  {
    FatParts(g, files, fat) + [Part(ClusterBase(g, files, 2), cluster)] + DataParts(g, files)
  }

  /** The regions of the volume do not overlap, and fit. */
  lemma VolumeAscends(g: Geometry, files: seq<File>, fat: seq<byte>, cluster: seq<byte>)
    requires g.spc > 0 && |fat| == FatSectors(g, files) * BLOCK && |cluster| == ClusterBytes(g)
    ensures var ps := VolumeParts(g, files, fat, cluster);
            && Ascending(ps) && EndOf(ps) <= VolumeSectors(g, files) * BLOCK
            && g.reserved * BLOCK <= ps[0].at && BLOCK <= VolumeSectors(g, files) * BLOCK
  {
    hide FatSectors, DataStart, First, Count, FatBase, ClusterBase, Span, ClusterBytes, VolumeSectors;
    var ps, nf := VolumeParts(g, files, fat, cluster), g.numFats;
    forall i | 0 < i < |ps| ensures PartEnd(ps[i - 1]) <= ps[i].at {
      if i <= nf {
        FatBaseStep(g, files, i - 1);
        ClusterBaseIs(g, files, 2, 2);
      } else {
        DataAscends(g, files, i - nf - 1);
      }
    }
    FatBaseStep(g, files, 0);
    ClusterBaseIs(g, files, 2, 2);
    if |files| > 0 {
      DataAscends(g, files, |files|);
    }
    LastByte(g, files);
    SomeSectors(g, files);
  }

  lemma SomeSectors(g: Geometry, files: seq<File>)
    requires g.spc > 0
    ensures VolumeSectors(g, files) >= 1
  {
    hide DataStart, Count;
    FirstMonotone(g, files, 0, |files|);
    var n := Next(g, files) - 3;
    SpanAdd(1, n, g.spc);
    SpanOne(g.spc);
  }

  lemma DataAscends(g: Geometry, files: seq<File>, i: nat)
    requires g.spc > 0 && i <= |files|
    ensures i == 0 ==> First(g, files, 0) == 3 && ClusterBase(g, files, 3) == ClusterBase(g, files, 2) + ClusterBytes(g)
    ensures i > 0 ==>
              ClusterBase(g, files, First(g, files, i - 1)) + |files[i - 1].data| <=
                ClusterBase(g, files, First(g, files, i))
  {
    hide DataStart, Count, ClusterBase, Span, ClusterBytes;
    if i == 0 {
      ClusterBaseIs(g, files, 2, 3);
      SpanOne(ClusterBytes(g));
    } else {
      ClusterBaseIs(g, files, First(g, files, i - 1), First(g, files, i));
    }
  }

  lemma LastByte(g: Geometry, files: seq<File>)
    requires g.spc > 0
    ensures ClusterBase(g, files, Next(g, files)) == VolumeSectors(g, files) * BLOCK
    ensures |files| == 0 ==> ClusterBase(g, files, 2) + ClusterBytes(g) == VolumeSectors(g, files) * BLOCK
  {
    hide DataStart, Count;
    if |files| == 0 {
      DataAscends(g, files, 0);
    }
  }

  /** A volume that holds these regions. Without a reserved sector the boot sector is lost. */
  ghost predicate IsVolume(v: seq<byte>, g: Geometry, files: seq<File>, boot: seq<byte>, fat: seq<byte>,
                           root: seq<byte>)
    requires g.spc > 0
  {
    && VolumeSectors(g, files) * BLOCK <= |v|
    && (|root| <= ClusterBytes(g) ==> |v| == VolumeSectors(g, files) * BLOCK)
    && (g.reserved > 0 ==> Holds(v, Part(0, boot)))
    && (forall k | 0 <= k < g.numFats :: Holds(v, FatParts(g, files, fat)[k]))
    && (Apart(g) ==> Holds(v, Part(ClusterBase(g, files, 2), Cluster(ClusterBytes(g), root))))
    && forall i | 0 <= i < |files| :: Holds(v, DataParts(g, files)[i])
  }

  /** The root directory does not start in the block of the boot sector. */
  predicate Apart(g: Geometry) { g.reserved > 0 || g.numFats > 0 }

  /** The part of the volume that is written before the root directory. */
  ghost predicate HeadWritten(v: seq<byte>, g: Geometry, files: seq<File>, boot: seq<byte>, fat: seq<byte>)
    requires g.spc > 0
  {
    && |v| == VolumeSectors(g, files) * BLOCK && (g.reserved > 0 ==> Holds(v, Part(0, boot)))
    && (forall k | 0 <= k < g.numFats :: Holds(v, FatParts(g, files, fat)[k]))
    && (Apart(g) ==> forall k | ClusterBase(g, files, 2) <= k < |v| :: v[k] == 0)
  }

  /** ... and with it. A directory that is longer than its cluster runs into the files' data,
      which is written later. */
  ghost predicate RootWritten(v: seq<byte>, g: Geometry, files: seq<File>, boot: seq<byte>, fat: seq<byte>,
                              root: seq<byte>)
    requires g.spc > 0
  {
    && VolumeSectors(g, files) * BLOCK <= |v| && ClusterBase(g, files, 3) <= |v|
    && (|root| <= ClusterBytes(g) ==> |v| == VolumeSectors(g, files) * BLOCK)
    && (g.reserved > 0 ==> Holds(v, Part(0, boot)))
    && (forall k | 0 <= k < g.numFats :: Holds(v, FatParts(g, files, fat)[k]))
    && (Apart(g) ==> Holds(v, Part(ClusterBase(g, files, 2), Cluster(ClusterBytes(g), root))))
  }

  /** Where the FATs, the root's cluster and the data lie. */
  lemma Places(g: Geometry, files: seq<File>, fat: seq<byte>)
    requires g.spc > 0 && |fat| == FatSectors(g, files) * BLOCK
    ensures Ascending(FatParts(g, files, fat)) && EndOf(FatParts(g, files, fat)) <= ClusterBase(g, files, 2)
    ensures g.numFats > 0 ==> FatParts(g, files, fat)[0].at == g.reserved * BLOCK
    ensures g.reserved * BLOCK <= ClusterBase(g, files, 2)
    ensures Ascending(DataParts(g, files)) && EndOf(DataParts(g, files)) <= VolumeSectors(g, files) * BLOCK
    ensures |files| > 0 ==> DataParts(g, files)[0].at == ClusterBase(g, files, 3)
    ensures ClusterBase(g, files, 3) == ClusterBase(g, files, 2) + ClusterBytes(g) <= VolumeSectors(g, files) * BLOCK
    ensures BLOCK <= VolumeSectors(g, files) * BLOCK
  {
    hide FatSectors, DataStart, First, Count, FatBase, ClusterBase, Span, ClusterBytes, VolumeSectors, Ascending;
    var cluster := Cluster(ClusterBytes(g), []);
    var ps, nf := VolumeParts(g, files, fat, cluster), g.numFats;
    VolumeAscends(g, files, fat, cluster);
    PrefixAscends(ps, nf, VolumeSectors(g, files) * BLOCK);
    SuffixAscends(ps, nf + 1);
    assert ps[..nf] == FatParts(g, files, fat) && ps[nf + 1..] == DataParts(g, files);
    FatBaseStep(g, files, 0);
    ClusterBaseIs(g, files, 2, 2);
    BehindReserved(g, files);
    DataAscends(g, files, 0);
    EndsBelow(ps, nf);
    if nf > 0 {
      AdjacentParts(ps, nf);
    }
  }

  lemma BehindReserved(g: Geometry, files: seq<File>)
    requires g.spc > 0
    ensures g.reserved <= DataStart(g, files)
  {
    hide FatSectors;
  }

  lemma AdjacentParts(ps: seq<Part>, i: nat)
    requires Ascending(ps) && 0 < i < |ps|
    ensures PartEnd(ps[i - 1]) <= ps[i].at
  {
  }

  lemma HeadIsWritten(g: Geometry, files: seq<File>, boot: seq<byte>, fat: seq<byte>, v: seq<byte>)
    requires g.spc > 0 && |fat| == FatSectors(g, files) * BLOCK && |boot| == BLOCK
             && |v| == VolumeSectors(g, files) * BLOCK
    requires Holds(v, Part(0, boot)) && forall k | BLOCK <= k < |v| :: v[k] == 0
    ensures BLOCK <= |v| && Ascending(FatParts(g, files, fat)) && EndOf(FatParts(g, files, fat)) <= |v|
    ensures HeadWritten(Assemble(v, FatParts(g, files, fat)), g, files, boot, fat)
  {
    hide FatSectors, DataStart, First, Count, FatBase, ClusterBase, Span, ClusterBytes, VolumeSectors, Assemble,
      FatParts, Ascending, EndOf;
    Places(g, files, fat);
    var ps := FatParts(g, files, fat);
    var w := Assemble(v, ps);
    AssembleReads(v, ps);
    if g.reserved > 0 {
      NonEmpty(ps);
      AssembleKeeps(v, ps, BLOCK);
      HoldsBelow(v, w, Part(0, boot), BLOCK);
    }
    ClusterBehindBoot(g, files);
  }

  lemma NonEmpty(ps: seq<Part>)
    ensures |ps| == 0 <==> ps == []
  {
  }

  /** The root's cluster starts behind the first block, or there is no FAT in front of it. */
  lemma ClusterBehindBoot(g: Geometry, files: seq<File>)
    requires g.spc > 0
    ensures Apart(g) ==> BLOCK <= ClusterBase(g, files, 2)
  {
    hide FatSectors, Span;
    ClusterBaseIs(g, files, 2, 2);
    if g.numFats > 0 {
      SpanAdd(1, g.numFats - 1, FatSectors(g, files));
      SpanOne(FatSectors(g, files));
    }
  }

  lemma RootIsWritten(g: Geometry, files: seq<File>, boot: seq<byte>, fat: seq<byte>, root: seq<byte>, v: seq<byte>)
    requires g.spc > 0 && |fat| == FatSectors(g, files) * BLOCK && |boot| == BLOCK
             && HeadWritten(v, g, files, boot, fat)
    ensures RootWritten(Patch(v, ClusterBase(g, files, 2), root), g, files, boot, fat, root)
  {
    hide FatSectors, DataStart, First, Count, FatBase, ClusterBase, Span, ClusterBytes, VolumeSectors, Patch, FatParts,
      Ascending, Cluster, Holds;
    Places(g, files, fat);
    ClusterBehindBoot(g, files);
    var at, size := ClusterBase(g, files, 2), ClusterBytes(g);
    var w := Patch(v, at, root);
    PatchReads(v, at, root);
    if g.reserved > 0 {
      HoldsBelow(v, w, Part(0, boot), at);
    }
    forall k | 0 <= k < g.numFats ensures Holds(w, FatParts(g, files, fat)[k]) {
      EndsBelow(FatParts(g, files, fat), k);
      HoldsBelow(v, w, FatParts(g, files, fat)[k], at);
    }
    if Apart(g) {
      ClusterHeld(v, at, root, size);
    }
  }

  lemma ClusterHeld(v: seq<byte>, at: nat, root: seq<byte>, size: nat)
    requires at + size <= |v| && forall k | at <= k < |v| :: v[k] == 0
    ensures Holds(Patch(v, at, root), Part(at, Cluster(size, root)))
  {
    hide Patch;
    PatchReads(v, at, root);
    var w := Patch(v, at, root);
    if |root| < size {
      assert w[at + |root|..at + size] == w[at + |root|..][..size - |root|] == v[at + |root|..][..size - |root|];
      assert w[at..at + size] == w[at..at + |root|] + w[at + |root|..at + size];
      assert w[at + |root|..at + size] == Zeros(size - |root|);
    } else {
      assert w[at..at + size] == w[at..at + |root|][..size];
    }
  }

  lemma DataIsWritten(g: Geometry, files: seq<File>, boot: seq<byte>, fat: seq<byte>, root: seq<byte>, v: seq<byte>)
    requires g.spc > 0 && |fat| == FatSectors(g, files) * BLOCK && |boot| == BLOCK
    requires RootWritten(v, g, files, boot, fat, root)
    ensures Ascending(DataParts(g, files)) && EndOf(DataParts(g, files)) <= |v|
    ensures IsVolume(Assemble(v, DataParts(g, files)), g, files, boot, fat, root)
  {
    hide FatSectors, DataStart, First, Count, FatBase, ClusterBase, Span, ClusterBytes, VolumeSectors, Assemble,
      FatParts, DataParts, Ascending, EndOf, Cluster, Holds;
    Places(g, files, fat);
    ClusterBehindBoot(g, files);
    var ps, n := DataParts(g, files), ClusterBase(g, files, 3);
    var w := Assemble(v, ps);
    AssembleReads(v, ps);
    NonEmpty(ps);
    AssembleKeeps(v, ps, n);
    if g.reserved > 0 {
      HoldsBelow(v, w, Part(0, boot), n);
    }
    forall k | 0 <= k < g.numFats ensures Holds(w, FatParts(g, files, fat)[k]) {
      EndsBelow(FatParts(g, files, fat), k);
      HoldsBelow(v, w, FatParts(g, files, fat)[k], n);
    }
    if Apart(g) {
      HoldsBelow(v, w, Part(ClusterBase(g, files, 2), Cluster(ClusterBytes(g), root)), n);
    }
  }

  // ------------------------------------------------------------------------ the card

  /** A card with these files. */
  ghost predicate IsCard(img: seq<byte>, g: Geometry, files: seq<File>)
    requires g.spc > 0 && FieldsFit(g, files)
  {
    exists boot, fat, root :: IsCardOf(img, g, files, boot, fat, root)
  }

  ghost predicate IsCardOf(img: seq<byte>, g: Geometry, files: seq<File>, boot: seq<byte>, fat: seq<byte>,
                           root: seq<byte>)
    requires g.spc > 0 && FieldsFit(g, files)
  {
    && IsBoot(boot, g, files) && IsFat(fat, g, files) && root == Root(g, files)
    && g.partStart * BLOCK <= |img| && IsVolume(img[g.partStart * BLOCK..], g, files, boot, fat, root)
    && (g.partStart > 0 ==>
          && BLOCK <= |img| && Blank(img[..BLOCK], 0, 446) && Blank(img[..BLOCK], 462, 510)
          && forall p <- MbrParts(g, files) :: Holds(img[..BLOCK], p))
  }

  ghost predicate IsBoot(boot: seq<byte>, g: Geometry, files: seq<File>)
    requires g.spc > 0 && FieldsFit(g, files)
  {
    && |boot| == BLOCK && (forall p <- BootParts(g, files) :: Holds(boot, p))
    && Blank(boot, 24, 32) && Blank(boot, 40, 44) && Blank(boot, 52, 510)
  }

  /** Zeros from `lo` up to `hi`. */
  ghost predicate Blank(v: seq<byte>, lo: nat, hi: nat) { hi <= |v| && forall k :: lo <= k < hi ==> v[k] == 0 }

  lemma BootGaps(g: Geometry, files: seq<File>)
    requires g.spc > 0 && FieldsFit(g, files)
    ensures var boot := Assemble(Zeros(BLOCK), BootParts(g, files));
            Blank(boot, 24, 32) && Blank(boot, 40, 44) && Blank(boot, 52, 510)
  {
    hide VolumeSectors, FatSectors, F.Le32Bytes, Le16Bytes, Assemble;
    var ps := BootParts(g, files);
    forall k | 24 <= k < 32 || 40 <= k < 44 || 52 <= k < 510 ensures Assemble(Zeros(BLOCK), ps)[k] == 0 {
      AssembleElsewhere(Zeros(BLOCK), ps, k);
    }
  }

  lemma MbrGaps(g: Geometry, files: seq<File>)
    requires g.spc > 0
    ensures var mbr := Assemble(Zeros(BLOCK), MbrParts(g, files)); Blank(mbr, 0, 446) && Blank(mbr, 462, 510)
  {
    hide VolumeSectors, F.Le32Bytes, Assemble;
    var ps := MbrParts(g, files);
    forall k | 0 <= k < 446 || 462 <= k < 510 ensures Assemble(Zeros(BLOCK), ps)[k] == 0 {
      AssembleElsewhere(Zeros(BLOCK), ps, k);
    }
  }

  /** The directory buffer with all entries. */
  function Root(g: Geometry, files: seq<File>): seq<byte>
    requires g.spc > 0
  {
    RootUpTo(ClusterBytes(g), Entries(g, files), |Entries(g, files)|)
  }

  class Builder {
    const g: Geometry
    var files: seq<File>

    constructor (g: Geometry)
      ensures this.g == g && files == []
    {
      this.g, files := g, [];
    }

    method AddFile(name: seq<byte>, data: seq<byte>)
      modifies this
      ensures files == old(files) + [File(name, data)]
    {
      files := files + [File(name, data)];
    }

    /** The table: the reserved entries, the root's single cluster, and a chain per file. */
    method BuildFat() returns (fat: seq<byte>)
      requires g.spc > 0
      ensures IsFat(fat, g, files)
    {
      hide Count, FatSectors, F.Le32Bytes, Splice, Filled, First, Next;
      fat := Zeros(FatSectors(g, files) * BLOCK);
      HeadFilled(fat, g, files);
      RoomForHead(g, files);
      fat := Splice(fat, 0, F.Le32Bytes(0x0FFFFFF8));
      fat := Splice(fat, 4, F.Le32Bytes(EOC));
      fat := Splice(fat, 8, F.Le32Bytes(EOC));
      for i := 0 to |files|
        invariant Filled(fat, g, files, i, 0)
      {
        var first, count := First(g, files, i), Count(g, |files[i].data|);
        for k := 0 to count
          invariant Filled(fat, g, files, i, k)
        {
          LinkAdded(fat, g, files, i, k);
          var c := first + k;
          fat := Splice(fat, 4 * c, F.Le32Bytes(if k == count - 1 then EOC else Masked(c + 1)));
        }
        ChainDone(fat, g, files, i);
      }
    }

    /** One entry after the other into the root's cluster. */
    method BuildRoot() returns (root: seq<byte>)
      requires g.spc > 0
      ensures root == Root(g, files)
    {
      hide PutEntry, Entries;
      var entries := Entries(g, files);
      root := Zeros(ClusterBytes(g));
      var off := 0;
      for i := 0 to |entries|
        invariant off == 32 * i && root == RootUpTo(ClusterBytes(g), entries, i)
      {
        root := PutEntry(root, off, entries[i]);
        off := off + 32;
      }
    }

    method BuildVolume(boot: seq<byte>, fat: seq<byte>, root: seq<byte>) returns (vol: seq<byte>)
      requires g.spc > 0 && |boot| == BLOCK && |fat| == FatSectors(g, files) * BLOCK
      ensures IsVolume(vol, g, files, boot, fat, root)
    {
      hide FatBase, ClusterBase, First, Count, Assemble, VolumeSectors, FatSectors, ClusterBytes, Ascending, EndOf,
        FatParts, DataParts, Holds, IsVolume, HeadWritten, RootWritten, Patch, Splice;
      SomeSectors(g, files);
      vol := Zeros(VolumeSectors(g, files) * BLOCK);
      BootWritten(vol, boot);
      vol := Splice(vol, 0, boot);
      ghost var blank, ps := vol, FatParts(g, files, fat);
      HeadIsWritten(g, files, boot, fat, vol);
      NoParts(vol, ps);
      for n := 0 to g.numFats
        invariant Ascending(ps[..n]) && EndOf(ps[..n]) <= |blank| && vol == Assemble(blank, ps[..n])
      {
        AssembleMore(blank, ps, n);
        FatPart(g, files, fat, n);
        vol := Splice(vol, FatBase(g, files, n), fat);
      }
      assert ps[..g.numFats] == ps;
      RootIsWritten(g, files, boot, fat, root, vol);
      vol := Patch(vol, ClusterBase(g, files, 2), root);
      blank, ps := vol, DataParts(g, files);
      DataIsWritten(g, files, boot, fat, root, vol);
      NoParts(vol, ps);
      for i := 0 to |files|
        invariant Ascending(ps[..i]) && EndOf(ps[..i]) <= |blank| && vol == Assemble(blank, ps[..i])
      {
        AssembleMore(blank, ps, i);
        DataPart(g, files, i);
        vol := Splice(vol, ClusterBase(g, files, First(g, files, i)), files[i].data);
      }
      assert ps[..|files|] == ps;
    }

    /** A card is built exactly when every number fits its field. */
    method Build() returns (r: Option<seq<byte>>)
      requires g.spc > 0
      ensures r.Some? <==> FieldsFit(g, files)
      ensures r.Some? ==> IsCard(r.value, g, files)
    {
      hide First, Next, Count, Assemble, FatSectors, VolumeSectors, BootParts, MbrParts, IsFat, IsVolume, Patch, Root,
        Holds, Ascending, EndOf, Blank;
      if !FieldsFit(g, files) {
        return None;
      }
      var boot := Assemble(Zeros(BLOCK), BootParts(g, files));
      AssembleReads(Zeros(BLOCK), BootParts(g, files));
      PartsHeld(boot, BootParts(g, files));
      BootGaps(g, files);
      var fat := BuildFat();
      FatLength(fat, g, files);
      var root := BuildRoot();
      var vol := BuildVolume(boot, fat, root);
      if g.partStart == 0 {
        assert vol[0..] == vol;
        assert IsCardOf(vol, g, files, boot, fat, root);
        return Some(vol);
      }
      var mbr := Assemble(Zeros(BLOCK), MbrParts(g, files));
      AssembleReads(Zeros(BLOCK), MbrParts(g, files));
      PartsHeld(mbr, MbrParts(g, files));
      MbrGaps(g, files);
      VolumeLength(vol, g, files, boot, fat, root);
      var card := WrapCard(mbr, vol);
      assert IsCardOf(card, g, files, boot, fat, root);
      return Some(card);
    }

    /** The volume behind its partition table. */
    method WrapCard(mbr: seq<byte>, vol: seq<byte>) returns (card: seq<byte>)
      requires g.spc > 0 && g.partStart > 0 && |mbr| == BLOCK && VolumeSectors(g, files) * BLOCK <= |vol|
      ensures g.partStart * BLOCK <= |card| && card[..BLOCK] == mbr && card[g.partStart * BLOCK..] == vol
    {
      hide VolumeSectors, Patch, Splice;
      var zeros := Zeros((g.partStart + VolumeSectors(g, files)) * BLOCK);
      SpliceReads(zeros, 0, mbr, 0, BLOCK);
      var withTable := Splice(zeros, 0, mbr);
      assert withTable[0..BLOCK] == mbr;
      var at := g.partStart * BLOCK;
      PatchReads(withTable, at, vol);
      card := Patch(withTable, at, vol);
      assert card[..BLOCK] == card[..at][..BLOCK] == withTable[..BLOCK];
      assert card[at..] == card[at..at + |vol|];
    }
  }

  lemma VolumeLength(v: seq<byte>, g: Geometry, files: seq<File>, boot: seq<byte>, fat: seq<byte>, root: seq<byte>)
    requires g.spc > 0 && IsVolume(v, g, files, boot, fat, root)
    ensures VolumeSectors(g, files) * BLOCK <= |v|
  {
    hide VolumeSectors, Holds;
  }

  lemma BootWritten(v: seq<byte>, boot: seq<byte>)
    requires |boot| == BLOCK <= |v| && forall k | 0 <= k < |v| :: v[k] == 0
    ensures Holds(Splice(v, 0, boot), Part(0, boot))
    ensures forall k | BLOCK <= k < |v| :: Splice(v, 0, boot)[k] == 0
  {
  }

  lemma FatPart(g: Geometry, files: seq<File>, fat: seq<byte>, k: nat)
    requires g.spc > 0 && k < g.numFats
    ensures FatParts(g, files, fat)[k] == Part(FatBase(g, files, k), fat)
  {
    hide FatBase;
  }

  lemma DataPart(g: Geometry, files: seq<File>, i: nat)
    requires g.spc > 0 && i < |files|
    ensures DataParts(g, files)[i] == Part(ClusterBase(g, files, First(g, files, i)), files[i].data)
  {
    hide ClusterBase, First;
  }

  lemma NoParts(v: seq<byte>, parts: seq<Part>)
    ensures Ascending(parts[..0]) && EndOf(parts[..0]) == 0 && Assemble(v, parts[..0]) == v
  {
  }

  lemma PartsHeld(v: seq<byte>, parts: seq<Part>)
    requires forall i | 0 <= i < |parts| :: Holds(v, parts[i])
    ensures forall p <- parts :: Holds(v, p)
  {
  }

  lemma RoomForHead(g: Geometry, files: seq<File>)
    requires g.spc > 0
    ensures FatSectors(g, files) * BLOCK >= 12
  {
  }

  lemma FatLength(fat: seq<byte>, g: Geometry, files: seq<File>)
    requires g.spc > 0 && IsFat(fat, g, files)
    ensures |fat| == FatSectors(g, files) * BLOCK
  {
  }
}
