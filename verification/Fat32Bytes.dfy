/** The numbers and names of a FAT32 card (tools/d64/make_fat32_card.py) in terms of its
    options. */
module Fat32Bytes {
  import opened Bytes
  import opened Regions
  import opened Fat32Builder
  import opened Fat32Directory
  import opened Fat32Reader
  import F = Fat16Layout
  import Fat16Builder
  import Fat16Bytes

  // ---------------------------------------------------------------------- geometry

  /** As many clusters as a file needs, and one for an empty file. */
  ghost predicate Clusters(g: Geometry, size: nat, c: nat) {
    c > 0 && size <= c * (g.spc * 512) && (c > 1 ==> (c - 1) * (g.spc * 512) < size)
  }

  lemma ClustersAre(g: Geometry, size: nat, c: nat)
    requires g.spc > 0 && Clusters(g, size, c)
    ensures Count(g, size) == c
  {
    var d, b := Count(g, size), g.spc * 512;
    if c < d {
      Fat16Builder.MulLess(c, d - 1, b);
    } else if d < c {
      Fat16Builder.MulLess(d, c - 1, b);
    }
  }

  /** Files begin at cluster 3, one behind the other. */
  lemma FirstClusters(g: Geometry, files: seq<File>, i: nat, c: nat)
    requires g.spc > 0 && i < |files| && Clusters(g, |files[i].data|, c)
    ensures First(g, files, 0) == 3 && First(g, files, i + 1) == First(g, files, i) + c
  {
    hide Clusters;
    ClustersAre(g, |files[i].data|, c);
  }

  /** The sectors of a FAT copy with entries for all clusters: as many as needed, but not fewer
      than are asked for. */
  lemma FatSectorsAre(g: Geometry, files: seq<File>, f: nat)
    requires g.spc > 0 && 512 * (f - 1) < 4 * Next(g, files) <= 512 * f
    ensures FatSectors(g, files) == if g.forcedSpf > f then g.forcedSpf else f
  {
    hide First;
    assert (4 * Next(g, files) + 511) / 512 == f && f >= 1;
  }

  /** Where everything is, with FAT copies of `f` sectors. */
  lemma Places(g: Geometry, files: seq<File>, f: nat, k: nat)
    requires g.spc > 0 && FatSectors(g, files) == f && Next(g, files) >= 2
    ensures FatAt(g, files, k) == 512 * (g.partStart + g.reserved + k * f)
    ensures ClusterAt(g, files, 2 + k) == 512 * (g.partStart + g.reserved + g.numFats * f + k * g.spc)
    ensures VolumeSectors(g, files) == g.reserved + g.numFats * f + (Next(g, files) - 2) * g.spc
  {
    hide FatSectors, First;
  }

  /** When a card is built: every number fits its field. */
  lemma FieldsFitMeans(g: Geometry, files: seq<File>)
    requires g.spc > 0
    ensures FieldsFit(g, files) <==>
              && g.spc <= 255 && g.numFats <= 255 && g.reserved <= 0xFFFF && g.partStart <= 0xFFFFFFFF
              && FatSectors(g, files) <= 0xFFFFFFFF && VolumeSectors(g, files) <= 0xFFFFFFFF
              && forall i | 0 <= i < |files| :: |files[i].data| <= 0xFFFFFFFF
  {
    hide FatSectors, VolumeSectors;
    if forall i | 0 <= i < |files| :: |files[i].data| <= 0xFFFFFFFF {
      forall f | f in files ensures |f.data| < 0x1_0000_0000 {
      }
    }
    if forall f <- files :: |f.data| < 0x1_0000_0000 {
      forall i | 0 <= i < |files| ensures |files[i].data| <= 0xFFFFFFFF {
        assert files[i] in files;
      }
    }
  }

  // ------------------------------------------------------------------- boot sectors

  /** The number in four bytes, the lowest first. */
  function Number(s: seq<byte>): int
    requires |s| == 4
  {
    s[0] as int + 0x100 * s[1] as int + 0x10000 * s[2] as int + 0x1000000 * s[3] as int
  }

  lemma NumberOfBytes(w: nat)
    requires w < 0x1_0000_0000
    ensures Number(F.Le32Bytes(w)) == w
  {
    hide Lo, Hi;
    Fat16Builder.LongRoundTrip(w);
  }

  lemma TwoBytes(w: nat)
    requires w < 0x10000
    ensures Le16Bytes(w) == [w % 256, w / 256]
  {
  }

  /** The boot sector, byte for byte. */
  lemma BootBytes(boot: seq<byte>, g: Geometry, files: seq<File>)
    requires g.spc > 0 && FieldsFit(g, files) && IsBoot(boot, g, files)
    ensures |boot| == 512
    ensures boot[..13] == [0xEB, 0x58, 0x90, 0x4D, 0x53, 0x44, 0x4F, 0x53, 0x35, 0x2E, 0x30, 0x00, 0x02]
    ensures boot[13..24] == [g.spc, g.reserved % 256, g.reserved / 256, g.numFats, 0, 0, 0, 0, 0xF8, 0, 0]
    ensures Number(boot[32..36]) == VolumeSectors(g, files) && Number(boot[36..40]) == FatSectors(g, files)
    ensures boot[44..52] == [2, 0, 0, 0, 1, 0, 6, 0] && boot[510..] == [0x55, 0xAA]
    ensures forall k | 24 <= k < 32 || 40 <= k < 44 || 52 <= k < 510 :: boot[k] == 0
  {
    hide VolumeSectors, FatSectors, F.Le32Bytes, Number, Blank, Le16Bytes;
    var ps := BootParts(g, files);
    forall i | 0 <= i < |ps| ensures Holds(boot, ps[i]) {
      BootField(boot, g, files, i);
    }
    HeadBytes(boot, g, files);
    MiddleBytes(boot, g, files);
    assert ps[10] == Part(32, F.Le32Bytes(VolumeSectors(g, files)));
    assert ps[11] == Part(36, F.Le32Bytes(FatSectors(g, files)));
    assert ps[15] == Part(510, [0x55, 0xAA]);
    NumberOfBytes(VolumeSectors(g, files));
    NumberOfBytes(FatSectors(g, files));
    assert boot[510..] == boot[510..512];
    GapBytes(boot, g, files);
  }

  lemma GapBytes(boot: seq<byte>, g: Geometry, files: seq<File>)
    requires g.spc > 0 && FieldsFit(g, files) && IsBoot(boot, g, files)
    ensures |boot| == 512 && forall k | 24 <= k < 32 || 40 <= k < 44 || 52 <= k < 510 :: boot[k] == 0
  {
    hide BootParts, FieldsFit, Holds;
  }

  lemma HeadBytes(boot: seq<byte>, g: Geometry, files: seq<File>)
    requires g.spc > 0 && FieldsFit(g, files) && |boot| == 512
    requires forall i | 0 <= i < |BootParts(g, files)| :: Holds(boot, BootParts(g, files)[i])
    ensures boot[..13] == [0xEB, 0x58, 0x90, 0x4D, 0x53, 0x44, 0x4F, 0x53, 0x35, 0x2E, 0x30, 0x00, 0x02]
    ensures boot[44..52] == [2, 0, 0, 0, 1, 0, 6, 0]
  {
    hide VolumeSectors, FatSectors, F.Le32Bytes, Le16Bytes, FieldsFit, Holds;
    var ps := BootParts(g, files);
    assert Holds(boot, ps[0]) && Holds(boot, ps[1]) && Holds(boot, ps[2]);
    assert Holds(boot, ps[12]) && Holds(boot, ps[13]) && Holds(boot, ps[14]);
    TwoBytes(512);
    TwoBytes(1);
    TwoBytes(6);
    SmallLong();
    NamePieces(boot);
    RootPieces(boot);
  }

  lemma NamePieces(boot: seq<byte>)
    requires |boot| == 512 && Holds(boot, Part(0, [0xEB, 0x58, 0x90]))
    requires Holds(boot, Part(3, [77, 83, 68, 79, 83, 53, 46, 48])) && Holds(boot, Part(11, [0, 2]))
    ensures boot[..13] == [0xEB, 0x58, 0x90, 0x4D, 0x53, 0x44, 0x4F, 0x53, 0x35, 0x2E, 0x30, 0x00, 0x02]
  {
    Cut(boot, 0, 3, 11);
    Cut(boot, 0, 11, 13);
    assert boot[..13] == boot[0..13];
  }

  lemma RootPieces(boot: seq<byte>)
    requires |boot| == 512 && Holds(boot, Part(44, [2, 0, 0, 0])) && Holds(boot, Part(48, [1, 0]))
    requires Holds(boot, Part(50, [6, 0]))
    ensures boot[44..52] == [2, 0, 0, 0, 1, 0, 6, 0]
  {
    Cut(boot, 44, 48, 50);
    Cut(boot, 44, 50, 52);
  }

  lemma Cut(s: seq<byte>, lo: nat, mid: nat, hi: nat)
    requires lo <= mid <= hi <= |s|
    ensures s[lo..hi] == s[lo..mid] + s[mid..hi]
  {
  }

  lemma SmallLong()
    ensures F.Le32Bytes(2) == [2, 0, 0, 0]
  {
  }

  lemma MiddleBytes(boot: seq<byte>, g: Geometry, files: seq<File>)
    requires g.spc > 0 && FieldsFit(g, files) && |boot| == 512
    requires forall i | 0 <= i < |BootParts(g, files)| :: Holds(boot, BootParts(g, files)[i])
    ensures boot[13..24] == [g.spc, g.reserved % 256, g.reserved / 256, g.numFats, 0, 0, 0, 0, 0xF8, 0, 0]
  {
    hide VolumeSectors, FatSectors, F.Le32Bytes, Le16Bytes, Holds;
    var ps := BootParts(g, files);
    assert Holds(boot, ps[3]) && Holds(boot, ps[4]) && Holds(boot, ps[5]) && Holds(boot, ps[6]);
    assert Holds(boot, ps[7]) && Holds(boot, ps[8]) && Holds(boot, ps[9]);
    TwoBytes(g.reserved);
    TwoBytes(0);
    GeometryPieces(boot, g.spc, g.reserved % 256, g.reserved / 256, g.numFats);
  }

  lemma GeometryPieces(boot: seq<byte>, spc: byte, lo: byte, hi: byte, numFats: byte)
    requires |boot| == 512 && Holds(boot, Part(13, [spc])) && Holds(boot, Part(14, [lo, hi]))
    requires Holds(boot, Part(16, [numFats])) && Holds(boot, Part(17, [0, 0])) && Holds(boot, Part(19, [0, 0]))
    requires Holds(boot, Part(21, [0xF8])) && Holds(boot, Part(22, [0, 0]))
    ensures boot[13..24] == [spc, lo, hi, numFats, 0, 0, 0, 0, 0xF8, 0, 0]
  {
    Cut(boot, 13, 14, 16);
    Cut(boot, 13, 16, 17);
    Cut(boot, 13, 17, 19);
    Cut(boot, 13, 19, 21);
    Cut(boot, 13, 21, 22);
    Cut(boot, 13, 22, 24);
  }

  /** The partition table: one partition of type 0Ch. */
  lemma MbrBytes(img: seq<byte>, g: Geometry, files: seq<File>)
    requires GoodCard(img, g, files) && g.partStart > 0
    ensures |img| >= 512 && img[446..454] == [0, 0, 0, 0, 0x0C, 0, 0, 0] && img[510..512] == [0x55, 0xAA]
    ensures Number(img[454..458]) == g.partStart && Number(img[458..462]) == VolumeSectors(g, files)
    ensures forall k | 0 <= k < 446 || 462 <= k < 510 :: img[k] == 0
  {
    hide VolumeSectors, F.Le32Bytes, Number, IsVolume, IsFat, IsBoot, Root, Holds, MbrParts, Blank;
    var boot, fat, root :| IsCardOf(img, g, files, boot, fat, root);
    MbrHolds(img[..512], g, files);
    Front(img, 446, 454);
    Front(img, 454, 458);
    Front(img, 458, 462);
    Front(img, 510, 512);
    BlankIs(img, 0, 446);
    BlankIs(img, 462, 510);
  }

  lemma Front(img: seq<byte>, lo: nat, hi: nat)
    requires lo <= hi <= 512 <= |img|
    ensures img[..512][lo..hi] == img[lo..hi]
  {
  }

  lemma BlankIs(img: seq<byte>, lo: nat, hi: nat)
    requires |img| >= 512 && hi <= 512 && Blank(img[..512], lo, hi)
    ensures forall k | lo <= k < hi :: img[k] == 0
  {
    forall k | lo <= k < hi ensures img[k] == 0 {
      assert img[..512][k] == 0;
    }
  }

  lemma MbrHolds(mbr: seq<byte>, g: Geometry, files: seq<File>)
    requires g.spc > 0 && FieldsFit(g, files) && g.partStart > 0 && |mbr| == 512
    requires forall p <- MbrParts(g, files) :: Holds(mbr, p)
    ensures mbr[446..454] == [0, 0, 0, 0, 0x0C, 0, 0, 0] && mbr[510..512] == [0x55, 0xAA]
    ensures Number(mbr[454..458]) == g.partStart && Number(mbr[458..462]) == VolumeSectors(g, files)
  {
    hide VolumeSectors, F.Le32Bytes, Number;
    var ps := MbrParts(g, files);
    assert ps[0] in ps && ps[1] in ps;
    var (head, first, size) :=
      ([0, 0, 0, 0, 0x0C, 0, 0, 0], F.Le32Bytes(g.partStart), F.Le32Bytes(VolumeSectors(g, files)));
    assert ps[0].bytes == head + first + size;
    ThreePieces(mbr, 446, head, first, size);
    NumberOfBytes(g.partStart);
    NumberOfBytes(VolumeSectors(g, files));
  }

  lemma ThreePieces(v: seq<byte>, at: nat, a: seq<byte>, b: seq<byte>, c: seq<byte>)
    requires at + |a| + |b| + |c| <= |v| && v[at..at + |a| + |b| + |c|] == a + b + c
    ensures v[at..at + |a|] == a && v[at + |a|..at + |a| + |b|] == b
    ensures v[at + |a| + |b|..at + |a| + |b| + |c|] == c
  {
    var (w, n) := (v[at..at + |a| + |b| + |c|], |a| + |b| + |c|);
    assert forall k | 0 <= k < n :: v[at + k] == w[k];
    assert v[at..at + |a|] == w[..|a|] && v[at + |a|..at + |a| + |b|] == w[|a|..|a| + |b|];
    assert v[at + |a| + |b|..at + n] == w[|a| + |b|..];
  }

  // --------------------------------------------------------------- directory entries

  /** Name, attribute, the two halves of the cluster number, and the size. */
  lemma EntryBytes(name: seq<byte>, first: nat, size: nat)
    requires size < 0x1_0000_0000
    ensures var e := Entry(name, first, size);
            && e[..11] == ShortName(name) && e[11] == 0x20 && e[12..20] == seq(8, _ => 0) && e[22..26] == seq(4, _ => 0)
            && e[20] == first / 0x10000 % 256 && e[21] == first / 0x1000000 % 256
            && e[26] == first % 256 && e[27] == first / 256 % 256 && Number(e[28..]) == size
  {
    hide ShortName, F.Le32Bytes, Number;
    var e := Entry(name, first, size);
    assert e[28..] == F.Le32Bytes(size) && e[12..20] == Zeros(8) && e[22..26] == Zeros(4);
    assert Zeros(8) == seq(8, _ => 0) && Zeros(4) == seq(4, _ => 0);
    assert first / 0x10000 / 256 == first / 0x1000000;
    NumberOfBytes(size);
  }

  /** A name is only split at its last dot, made upper case, cut and padded. If nothing is in
      front of that dot, the whole name is the stem. */
  lemma NameWithDot(stem: seq<byte>, ext: seq<byte>)
    requires stem != [] && forall k :: 0 <= k < |ext| ==> ext[k] != 0x2E
    ensures ShortName(stem + [0x2E] + ext) == F.Pad(F.Upper(stem), 8) + F.Pad(F.Upper(ext), 3)
  {
    hide F.Pad;
    var u := F.Upper(stem + [0x2E] + ext);
    assert u == F.Upper(stem) + [0x2E] + F.Upper(ext);
    Fat16Bytes.LastDot(u, |stem|);
    assert u[..|stem|] == F.Upper(stem) && u[|stem| + 1..] == F.Upper(ext);
  }

  lemma NameWithoutStem(name: seq<byte>)
    requires forall k :: 1 <= k < |name| ==> name[k] != 0x2E
    ensures ShortName(name) == F.Pad(F.Upper(name), 8) + [0x20, 0x20, 0x20]
  {
    var u := F.Upper(name);
    if F.AfterDot(u) > 1 {
      assert false;
    }
    assert F.Pad([], 3) == [0x20, 0x20, 0x20];
  }

  /** The FAT: the reserved entries, the root's only cluster, and zeros behind the last file. */
  lemma FatWords(fat: seq<byte>, g: Geometry, files: seq<File>, c: nat)
    requires g.spc > 0 && IsFat(fat, g, files)
    ensures |fat| == FatSectors(g, files) * 512 && Word32(fat, 0) == 0x0FFFFFF8
    ensures Word32(fat, 1) == 0x0FFFFFFF && Word32(fat, 2) == 0x0FFFFFFF
    ensures Next(g, files) <= c && 4 * c + 4 <= |fat| ==> Word32(fat, c) == 0
  {
    hide Word32, FatSectors, First;
  }
}
