/** The numbers and names of a FAT16 card (tools/d64/make_fat16_d64_card.py) in terms of its
    options. */
module Fat16Bytes {
  import opened Bytes
  import opened D64Geometry
  import opened Fat16Layout
  import opened Fat16Builder
  import Fat16Reader

  // ---------------------------------------------------------------------- geometry

  /** Clusters of a file, sectors of a FAT copy and sectors of the root directory: as many as
      are needed, and no more. */
  ghost predicate Sizes(g: Geometry, n: nat, c: nat, f: nat, r: nat) {
    && (c - 1) * (g.spc * 512) < 174848 <= c * (g.spc * 512)
    && 512 * (f - 1) < 2 * (2 + n * c) <= 512 * f
    && 512 * (r - 1) < 32 * g.rootEntries <= 512 * r
  }

  lemma OnlyOne(a: nat, k: nat, c: nat, d: nat)
    requires (c - 1) * k < a <= c * k && (d - 1) * k < a <= d * k
    ensures c == d
  {
    if c < d {
      MulLess(c, d - 1, k);
    } else if d < c {
      MulLess(d, c - 1, k);
    }
  }

  lemma RoundUp(a: nat, q: nat)
    requires 512 * (q - 1) < a <= 512 * q
    ensures (a + 511) / 512 == q
  {
  }

  lemma SizesAre(g: Geometry, n: nat, c: nat, f: nat, r: nat)
    requires g.spc > 0 && Sizes(g, n, c, f, r)
    ensures Clusters(g) == c && FatSectors(g, n) == f && RootSectors(g) == r
    ensures First(g, n) == 2 + n * c
  {
    hide RootSectors, FatSectors;
    ClustersAre(g, c);
    RoundUp(First(g, n) * 2, f);
    FatSectorsAre(g, n, f);
    RoundUp(g.rootEntries * 32, r);
    RootSectorsAre(g, r);
  }

  lemma ClustersAre(g: Geometry, c: nat)
    requires g.spc > 0 && (c - 1) * (g.spc * 512) < 174848 <= c * (g.spc * 512)
    ensures Clusters(g) == c
  {
    OnlyOne(174848, g.spc * 512, c, Clusters(g));
  }

  lemma FatSectorsAre(g: Geometry, n: nat, f: nat)
    requires g.spc > 0 && (First(g, n) * 2 + 511) / 512 == f && 512 * (f - 1) < First(g, n) * 2
    ensures FatSectors(g, n) == f
  {
    assert First(g, n) >= 2;
  }

  lemma RootSectorsAre(g: Geometry, r: nat)
    requires (g.rootEntries * 32 + 511) / 512 == r
    ensures RootSectors(g) == r
  {
  }

  /** Where everything is. */
  lemma Places(g: Geometry, n: nat, c: nat, f: nat, r: nat, i: nat)
    requires g.spc > 0 && Sizes(g, n, c, f, r)
    ensures FatBase(g, n, i) == 512 * (g.reserved + i * f)
    ensures EntryBase(g, n, i) == 512 * (g.reserved + g.numFats * f) + 32 * i
    ensures DataBase(g, n, i) == 512 * (g.reserved + g.numFats * f + r + (i * c) * g.spc)
    ensures StartLba(g, n, i) == g.partStart + g.reserved + g.numFats * f + r + (i * c) * g.spc
    ensures DataStart(g, n) == g.reserved + g.numFats * f + r
  {
    hide FatSectors, RootSectors, Clusters;
    SizesAre(g, n, c, f, r);
  }

  /** When a card is built: the files fit, there are as many clusters as FAT16 has, and every
      number fits its field. */
  lemma BuildableMeans(g: Geometry, n: nat, c: nat, f: nat, r: nat)
    requires g.spc > 0 && Sizes(g, n, c, f, r)
    ensures var (data, volume) := (g.reserved + g.numFats * f + r, g.imageSize / 512 - g.partStart);
            Buildable(g, n) <==>
              && g.imageSize % 512 == 0 && volume >= data + (n * c) * g.spc
              && 4085 <= (volume - data) / g.spc <= 65524
              && g.spc <= 255 && g.numFats <= 255 && g.reserved <= 0xFFFF && g.rootEntries <= 0xFFFF && f <= 0xFFFF
              && volume <= 0xFFFFFFFF && g.partStart <= 0xFFFFFFFF
  {
    hide FatSectors, RootSectors, Clusters, DataStart;
    SizesAre(g, n, c, f, r);
    Places(g, n, c, f, r, n);
  }

  /** The card that is built without options: 32 MB with a partition at block 2048. */
  const DEFAULT := Geometry(0x2000000, 4, 1, 512, 2, 2048)

  /** A file has 86 clusters, one FAT sector is enough for two files, and the first file
      starts at block 2083. */
  lemma DefaultStart()
    ensures Sizes(DEFAULT, 2, 86, 1, 32) && StartLba(DEFAULT, 2, 0) == 2083 && StartLba(DEFAULT, 2, 1) == 2427
  {
    hide StartLba;
    Places(DEFAULT, 2, 86, 1, 32, 0);
    Places(DEFAULT, 2, 86, 1, 32, 1);
  }

  lemma DefaultSizes(n: nat)
    ensures Sizes(DEFAULT, n, 86, (172 * n + 515) / 512, 32)
  {
  }

  /** It takes 184 files, and no more. */
  lemma DefaultHolds(n: nat)
    ensures Buildable(DEFAULT, n) <==> n <= 184
  {
    hide Buildable, Sizes;
    var f := (172 * n + 515) / 512;
    DefaultSizes(n);
    BuildableMeans(DEFAULT, n, 86, f, 32);
  }

  /** The boot hook is embedded at block 8 exactly if it ends before the partition. */
  lemma HookFits(img: seq<byte>, g: Geometry, hook: seq<byte>)
    requires |img| == g.imageSize && g.partStart * 512 <= |img|
    ensures Fat16Reader.EmbedHook(img, g, hook).Ok? <==> 8 <= g.partStart && 4096 + |hook| <= 512 * g.partStart
    ensures Fat16Reader.EmbedHook(img, g, hook).Ok? ==>
              Fat16Reader.EmbedHook(img, g, hook).value == img[..4096] + hook + img[4096 + |hook|..]
  {
  }

  // --------------------------------------------------------------------- FAT entries

  /** The two reserved words, the chain of file `i`, and zeros behind the last file. */
  lemma FatWords(g: Geometry, n: nat, c: nat, i: nat, k: nat)
    requires g.spc > 0 && Clusters(g) == c && i < n && k < c
    ensures FatValue(g, n, 0) == 0xFFF8 && FatValue(g, n, 1) == 0xFFFF
    ensures FatValue(g, n, 2 + i * c + k) == if k == c - 1 then 0xFFFF else 2 + i * c + k + 1
    ensures FatValue(g, n, 2 + n * c + k) == 0
  {
    hide Clusters;
    ModIs(i, c, k);
    MulLess(i + 1, n, c);
    assert (i + 1) * c == i * c + c;
  }

  // --------------------------------------------------------------- directory entries

  /** Name, attribute, cluster and size. */
  lemma EntryBytes(name: seq<byte>, first: nat)
    requires first < 0x10000
    ensures var e := Entry(name, first, 174848);
            && e[..11] == ShortName(name) && e[11] == 0x20 && e[12..26] == seq(14, _ => 0)
            && e[26] as int + 256 * e[27] as int == first && e[28..] == [0x00, 0xAB, 0x02, 0x00]
  {
    hide ShortName;
    var e := Entry(name, first, 174848);
    assert 174848 / 0x10000 == 2 && Lo(174848) == 0 && Hi(174848) == 0xAB;
    assert Zeros(14) == seq(14, _ => 0);
  }

  // ------------------------------------------------------------------------- names

  const CAPITALS := "ABCDEFGHIJKLMNOPQRSTUVWXYZ"
  const SMALL := "abcdefghijklmnopqrstuvwxyz"
  const DIGITS := "0123456789"

  /** The characters of a stem and of an extension. */
  lemma NameCharacters(b: byte)
    ensures IsAlnum(b) <==> (b as char) in CAPITALS + SMALL + DIGITS
    ensures InStem(b) <==> (b as char) in CAPITALS + SMALL + DIGITS + "_-$~"
  {
    var c := b as char;
    InDigits(c);
    InCapitals(c);
    InSmall(c);
    assert c in "_-$~" <==> c in {'_', '-', '$', '~'};
  }

  lemma InDigits(c: char)
    ensures c in DIGITS <==> '0' <= c <= '9'
  {
    assert forall i | 0 <= i < 10 :: DIGITS[i] as int == 48 + i;
    if '0' <= c <= '9' {
      assert DIGITS[c as int - 48] == c;
    }
  }

  lemma InCapitals(c: char)
    ensures c in CAPITALS <==> 'A' <= c <= 'Z'
  {
    assert forall i | 0 <= i < 26 :: CAPITALS[i] as int == 65 + i;
    if 'A' <= c <= 'Z' {
      assert CAPITALS[c as int - 65] == c;
    }
  }

  lemma InSmall(c: char)
    ensures c in SMALL <==> 'a' <= c <= 'z'
  {
    assert forall i | 0 <= i < 26 :: SMALL[i] as int == 97 + i;
    if 'a' <= c <= 'z' {
      assert SMALL[c as int - 97] == c;
    }
  }

  /** Small letters become capital ones, and nothing else changes. */
  lemma UpperLetters(s: seq<byte>, i: nat)
    requires i < |s|
    ensures forall k: nat :: k < 26 && s[i] as int == SMALL[k] as int ==> Upper(s)[i] as int == CAPITALS[k] as int
    ensures (s[i] as char) !in SMALL ==> Upper(s)[i] == s[i]
  {
    assert forall k | 0 <= k < 26 :: SMALL[k] as int == 97 + k && CAPITALS[k] as int == 65 + k;
    InSmall(s[i] as char);
  }

  /** The wanted characters, one after the other. */
  lemma {:induction false} KeptJoin(a: seq<byte>, b: seq<byte>, stem: bool)
    ensures Keep(a + b, stem) == Keep(a, stem) + Keep(b, stem)
    decreases |b|
  {
    if b == [] {
      assert a + b == a;
    } else {
      var n := |b| - 1;
      assert (a + b)[..|a| + n] == a + b[..n];
      KeptJoin(a, b[..n], stem);
    }
  }

  lemma KeptOne(b: byte)
    ensures Keep([b], true) == if InStem(b) then [b] else []
    ensures Keep([b], false) == if IsAlnum(b) then [b] else []
  {
    assert [b][..0] == [] && Keep([], true) == Keep([], false) == [];
  }

  /** Filled up with spaces, or cut. */
  lemma PaddedTo(s: seq<byte>, n: nat, k: nat)
    requires k < n
    ensures Pad(s, n)[k] == if k < |s| then s[k] else 0x20
  {
  }

  /** What is in front of the last dot is the stem, and what is behind it the extension. */
  lemma NameWithDot(stem: seq<byte>, ext: seq<byte>)
    requires forall k :: 0 <= k < |ext| ==> ext[k] != 0x2E
    ensures ShortName(stem + [0x2E] + ext) ==
              Pad(Keep(Upper(stem), true), 8) + Pad(Keep(Upper(ext), false), 3)
  {
    hide Keep, Pad;
    var u := Upper(stem + [0x2E] + ext);
    assert u == Upper(stem) + [0x2E] + Upper(ext);
    LastDot(u, |stem|);
    assert u[..|stem|] == Upper(stem) && u[|stem| + 1..] == Upper(ext);
  }

  lemma LastDot(u: seq<byte>, at: nat)
    requires at < |u| && u[at] == 0x2E && forall k :: at < k < |u| ==> u[k] != 0x2E
    ensures AfterDot(u) == at + 1
  {
    var i := AfterDot(u);
    if i <= at {
      assert false;
    }
  }

  /** A name without a dot is a stem. */
  lemma NameWithoutDot(name: seq<byte>)
    requires forall k :: 0 <= k < |name| ==> name[k] != 0x2E
    ensures ShortName(name) == Pad(Keep(Upper(name), true), 8) + [0x20, 0x20, 0x20]
  {
    hide Keep;
    var u := Upper(name);
    assert AfterDot(u) == 0 by {
      var i := AfterDot(u);
      if i > 0 {
        assert false;
      }
    }
    assert Pad([], 3) == [0x20, 0x20, 0x20];
  }
}
