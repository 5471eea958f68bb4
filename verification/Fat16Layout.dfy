/** FAT16 cards for D64 images (tools/d64/make_fat16_d64_card.py): geometry, and what a card
    with given files looks like. */
module Fat16Layout {
  import opened Bytes
  import opened D64Geometry

  const BLOCK := 512
  const EOC := 0xFFFF

  /** `partStart` is 0 on a card without a partition table. */
  datatype Geometry = Geometry(imageSize: nat, spc: nat, reserved: nat, rootEntries: nat, numFats: nat, partStart: nat)

  datatype File = File(name: seq<byte>, data: seq<byte>)

  // ------------------------------------------------------------------------- names

  function Upper(s: seq<byte>): (u: seq<byte>)
    ensures |u| == |s|
  {
    seq(|s|, i requires 0 <= i < |s| => if 97 <= s[i] <= 122 then s[i] - 32 else s[i])
  }

  /** One past the last dot, or 0. */
  function AfterDot(s: seq<byte>): (i: nat)
    ensures i <= |s| && (i > 0 ==> s[i - 1] == 46) && (forall k :: i <= k < |s| ==> s[k] != 46)
  {
    if s == [] then 0 else if s[|s| - 1] == 46 then |s| else AfterDot(s[..|s| - 1])
  }

  predicate IsAlnum(b: byte) { 48 <= b <= 57 || 65 <= b <= 90 || 97 <= b <= 122 }

  predicate InStem(b: byte) { IsAlnum(b) || b == 95 || b == 45 || b == 36 || b == 126 }

  function Keep(s: seq<byte>, stem: bool): (r: seq<byte>)
    ensures forall k :: 0 <= k < |r| ==> InStem(r[k])
  {
    if s == [] then []
    else
      var b := s[|s| - 1];
      Keep(s[..|s| - 1], stem) + if (if stem then InStem(b) else IsAlnum(b)) then [b] else []
  }

  function Pad(s: seq<byte>, n: nat): (r: seq<byte>)
    ensures |r| == n
  {
    if |s| >= n then s[..n] else s + seq(n - |s|, _ => 32)
  }

  /** The 8.3 name of an ASCII file name. */
  function ShortName(name: seq<byte>): (r: seq<byte>)
    ensures |r| == 11
  {
    var u := Upper(name);
    var dot := AfterDot(u);
    if dot == 0 then Pad(Keep(u, true), 8) + Pad([], 3)
    else Pad(Keep(u[..dot - 1], true), 8) + Pad(Keep(u[dot..], false), 3)
  }

  /** A short name never looks like the end of the directory or like a deleted file. */
  lemma ShortNameVisible(name: seq<byte>)
    ensures ShortName(name)[0] == 32 || InStem(ShortName(name)[0])
    ensures ShortName(name)[0] != 0 && ShortName(name)[0] != 0xE5
  {
    hide Keep;
  }

  // ---------------------------------------------------------------------- geometry

  /** Clusters of one D64 file. */
  function Clusters(g: Geometry): (c: nat)
    requires g.spc > 0
    ensures (c - 1) * (g.spc * BLOCK) < D64_SIZE <= c * (g.spc * BLOCK) && c > 0
  {
    var b := g.spc * BLOCK;
    CeilDiv(D64_SIZE, b);
    (D64_SIZE + b - 1) / b
  }

  lemma CeilDiv(a: nat, b: nat)
    requires a > 0 && b > 0
    ensures var c := (a + b - 1) / b; (c - 1) * b < a <= c * b && c > 0
  {
    var c := (a + b - 1) / b;
    assert c * b <= a + b - 1 < c * b + b;
  }

  function First(g: Geometry, i: nat): nat
    requires g.spc > 0
  {
    2 + i * Clusters(g)
  }

  function FatSectors(g: Geometry, n: nat): (s: nat)
    requires g.spc > 0
    ensures s >= 1 && 2 * First(g, n) <= s * BLOCK
  {
    var need := (First(g, n) * 2 + BLOCK - 1) / BLOCK;
    if need > 1 then need else 1
  }

  function RootSectors(g: Geometry): (s: nat)
    ensures 32 * g.rootEntries <= s * BLOCK
  {
    (g.rootEntries * 32 + BLOCK - 1) / BLOCK
  }

  function DataStart(g: Geometry, n: nat): nat
    requires g.spc > 0
  {
    g.reserved + g.numFats * FatSectors(g, n) + RootSectors(g)
  }

  /** The blocks of some clusters, and the clusters in some blocks. */
  function Span(clusters: nat, spc: nat): nat { clusters * spc }

  function ClusterCount(sectors: int, spc: nat): int
    requires spc > 0
  {
    sectors / spc
  }

  function VolumeSectors(g: Geometry): int { g.imageSize / BLOCK - g.partStart }

  /** The absolute block at which file `i` of `n` starts. */
  function StartLba(g: Geometry, n: nat, i: nat): nat
    requires g.spc > 0
  {
    g.partStart + DataStart(g, n) + Span(First(g, i) - 2, g.spc)
  }

  /** The sizes that the builder accepts: the files fit, the cluster count is that of a
      FAT16 volume, and every number fits its field of the boot sector. */
  predicate Buildable(g: Geometry, n: nat) {
    && g.spc > 0 && g.imageSize % BLOCK == 0
    && VolumeSectors(g) >= DataStart(g, n) + Span(First(g, n) - 2, g.spc)
    && 4085 <= ClusterCount(VolumeSectors(g) - DataStart(g, n), g.spc) < 65525
    && g.spc < 256 && g.reserved < 0x10000 && g.rootEntries < 0x10000 && g.numFats < 256
    && FatSectors(g, n) < 0x10000 && VolumeSectors(g) < 0x1_0000_0000 && g.partStart < 0x1_0000_0000
  }

  // ------------------------------------------------------------------------ layout

  predicate Reads(v: seq<byte>, at: nat, p: seq<byte>) {
    at + |p| <= |v| && v[at..at + |p|] == p
  }

  function Le16(v: seq<byte>, at: nat): nat
    requires at + 2 <= |v|
  {
    Word(v[at], v[at + 1])
  }

  function Le32(v: seq<byte>, at: nat): nat
    requires at + 4 <= |v|
  {
    Le16(v, at) + 0x10000 * Le16(v, at + 2)
  }

  function Le32Bytes(w: nat): (b: seq<byte>)
    ensures |b| == 4
  {
    [Lo(w), Hi(w), Lo(w / 0x10000), Hi(w / 0x10000)]
  }

  /** The FAT of a card with `n` files: one linear chain per file. */
  function FatValue(g: Geometry, n: nat, c: nat): nat
    requires g.spc > 0
  {
    if c == 0 then 0xFFF8
    else if c == 1 then 0xFFFF
    else if c < First(g, n) then if (c - 2) % Clusters(g) == Clusters(g) - 1 then EOC else c + 1
    else 0
  }

  ghost predicate IsFat(fat: seq<byte>, g: Geometry, n: nat)
    requires g.spc > 0
  {
    && |fat| == FatSectors(g, n) * BLOCK
    && forall c: nat :: 2 * c + 2 <= |fat| ==> Le16(fat, 2 * c) == FatValue(g, n, c)
  }

  /** What is the same in every boot sector: jump, system, media, a geometry of 63 sectors and
      255 heads, drive, serial number, label and file system. */
  ghost predicate BootTexts(b: seq<byte>)
    requires |b| == BLOCK
  {
    && b[..11] == [0xEB, 0x3C, 0x90, 0x4D, 0x53, 0x44, 0x4F, 0x53, 0x35, 0x2E, 0x30]
    && b[21] == 0xF8 && b[24..28] == [63, 0, 255, 0] && b[36..43] == [0x80, 0, 0x29, 0x02, 0x07, 0x26, 0x20]
    && b[43..54] == [0x4D, 0x49, 0x53, 0x54, 0x45, 0x52, 0x20, 0x44, 0x36, 0x34, 0x20]
    && b[54..62] == [0x46, 0x41, 0x54, 0x31, 0x36, 0x20, 0x20, 0x20] && forall k :: 62 <= k < 510 ==> b[k] == 0
  }

  ghost predicate IsBoot(b: seq<byte>, g: Geometry, n: nat)
    requires g.spc > 0
  {
    && |b| == BLOCK && BootTexts(b) && Le16(b, 11) == BLOCK
    && b[13] == g.spc && Le16(b, 14) == g.reserved && b[16] == g.numFats
    && Le16(b, 17) == g.rootEntries && Le16(b, 22) == FatSectors(g, n) && Le32(b, 28) == g.partStart
    && (if VolumeSectors(g) < 0x10000 then Le16(b, 19) == VolumeSectors(g) && Le32(b, 32) == 0
        else Le16(b, 19) == 0 && Le32(b, 32) == VolumeSectors(g))
    && b[450] == 0 && b[510] == 0x55 && b[511] == 0xAA
  }

  function FatBase(g: Geometry, n: nat, k: nat): nat
    requires g.spc > 0
  {
    (g.reserved + k * FatSectors(g, n)) * BLOCK
  }

  function RootBase(g: Geometry, n: nat): nat
    requires g.spc > 0
  {
    FatBase(g, n, g.numFats)
  }

  /** The place of directory entry `i`. */
  function EntryBase(g: Geometry, n: nat, i: nat): nat
    requires g.spc > 0
  {
    RootBase(g, n) + 32 * i
  }

  function DataBase(g: Geometry, n: nat, i: nat): nat
    requires g.spc > 0
  {
    (DataStart(g, n) + Span(First(g, i) - 2, g.spc)) * BLOCK
  }

  /** The 32-byte directory entry of a file. */
  function Entry(name: seq<byte>, first: nat, size: nat): (e: seq<byte>)
    ensures |e| == 32
  {
    ShortName(name) + [0x20] + Zeros(14) + [Lo(first), Hi(first)]
    + [Lo(size), Hi(size), Lo(size / 0x10000), Hi(size / 0x10000)]
  }

  /** The root directory does not start in the block of the boot sector. */
  predicate Apart(g: Geometry) { g.reserved > 0 || g.numFats > 0 }

  /** A volume with these files. Without a reserved sector the boot sector is lost. */
  ghost predicate IsVolume(v: seq<byte>, g: Geometry, files: seq<File>)
    requires g.spc > 0
  {
    var n := |files|;
    && RootBase(g, n) + 32 * g.rootEntries <= |v| && BLOCK <= |v|
    && (g.reserved > 0 ==> IsBoot(v[..BLOCK], g, n))
    && (forall k: nat :: k < g.numFats ==>
          FatBase(g, n, k) + FatSectors(g, n) * BLOCK <= |v|
          && IsFat(v[FatBase(g, n, k)..FatBase(g, n, k) + FatSectors(g, n) * BLOCK], g, n))
    && (forall i: nat :: i < n ==>
         Reads(v, EntryBase(g, n, i), Entry(files[i].name, First(g, i), |files[i].data|)))
    && (Apart(g) ==> forall i: nat :: n <= i < g.rootEntries ==> v[EntryBase(g, n, i)] == 0)
    && (forall i: nat :: i < n ==> Reads(v, DataBase(g, n, i), files[i].data))
  }

  /** A card with these files: the volume, behind a partition table if there is one. */
  ghost predicate IsCard(img: seq<byte>, g: Geometry, files: seq<File>)
    requires g.spc > 0
  {
    && |img| == g.imageSize && g.partStart * BLOCK + BLOCK <= |img|
    && IsVolume(img[g.partStart * BLOCK..], g, files)
    && (g.partStart > 0 ==>
          && (forall k :: 0 <= k < 446 || 462 <= k < 510 ==> img[k] == 0)
          && img[446..454] == [0, 0, 0, 0, 0x06, 0, 0, 0]
          && Le32(img, 454) == g.partStart && Le32(img, 458) == VolumeSectors(g)
          && img[510] == 0x55 && img[511] == 0xAA)
  }
}
