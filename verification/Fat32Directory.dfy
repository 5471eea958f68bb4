/** The root directory of the FAT32 card builder (tools/d64/make_fat32_card.py): where the
    entries of the files come to stand behind entries that are one byte short. */
module Fat32Directory {
  import opened Bytes
  import opened Fat32Builder
  import F = Fat16Layout
  import Fat16Builder

  // ------------------------------------------------------------------ the buffer

  /** No short one of the first `p` entries reaches the end of the buffer. */
  predicate Aligned(size: nat, es: seq<DirEntry>, p: nat)
    requires p <= |es|
  {
    forall j: nat | j < p && |es[j]| == 31 :: 32 * (j + 1) + Shorts(es, j + 1) <= size
  }

  /** Where an entry that is put at `off` comes to stand. */
  function Place(root: seq<byte>, off: nat): nat { if off < |root| then off else |root| }

  lemma PutAt(root: seq<byte>, off: nat, e: DirEntry)
    ensures var (r, at) := (PutEntry(root, off, e), Place(root, off));
            && |r| == (if |root| >= off + 32 then |root| - 32 else at) + |e|
            && r[..at] == root[..at] && r[at..at + |e|] == e
  {
  }

  /** As long as no short entry reaches the end, the buffer loses a byte for each; from then on
      it is too short for the next entry to stand at its place. */
  lemma {:induction false} BufferLength(size: nat, es: seq<DirEntry>, i: nat)
    requires i <= |es|
    ensures Aligned(size, es, i) ==>
              |RootUpTo(size, es, i)| == if size - Shorts(es, i) > 32 * i then size - Shorts(es, i) else 32 * i
    ensures !Aligned(size, es, i) ==> |RootUpTo(size, es, i)| < 32 * i
    decreases i
  {
    hide PutEntry;
    if i > 0 {
      BufferLength(size, es, i - 1);
      AlignedStep(size, es, i - 1);
      PutAt(RootUpTo(size, es, i - 1), 32 * (i - 1), es[i - 1]);
    }
  }

  lemma AlignedStep(size: nat, es: seq<DirEntry>, i: nat)
    requires i < |es|
    ensures Aligned(size, es, i + 1) <==>
              Aligned(size, es, i) && (|es[i]| == 31 ==> 32 * (i + 1) + Shorts(es, i + 1) <= size)
  {
    hide Shorts;
  }

  function Whole(e: seq<byte>): (w: seq<byte>)
    requires |e| <= 32
    ensures |w| == 32
  {
    e + Zeros(32 - |e|)
  }

  /** Behind the entries put down so far there are zeros. */
  lemma {:induction false} ZeroTail(size: nat, es: seq<DirEntry>, i: nat)
    requires i <= |es|
    ensures forall k | 32 * i <= k < |RootUpTo(size, es, i)| :: RootUpTo(size, es, i)[k] == 0
    decreases i
  {
    hide PutEntry;
    if i > 0 {
      ZeroTail(size, es, i - 1);
      PutTail(RootUpTo(size, es, i - 1), 32 * (i - 1), es[i - 1]);
    }
  }

  lemma PutTail(root: seq<byte>, off: nat, e: DirEntry)
    ensures |root| < off + 32 ==> |PutEntry(root, off, e)| <= off + 32
    ensures |root| >= off + 32 ==>
              && |PutEntry(root, off, e)| == |root| - 32 + |e|
              && forall k | off + |e| <= k < |root| - 32 + |e| :: PutEntry(root, off, e)[k] == root[k + 32 - |e|]
  {
  }

  /** An entry that came to stand at its place stays there, whatever follows. */
  lemma {:induction false} EntryStays(size: nat, es: seq<DirEntry>, n: nat, i: nat)
    requires n < i <= |es| && Aligned(size, es, n + 1)
    ensures 32 * n + 32 <= |RootUpTo(size, es, i)|
    ensures RootUpTo(size, es, i)[32 * n..32 * n + 32] == Whole(es[n])
    decreases i
  {
    hide PutEntry;
    var before, off := RootUpTo(size, es, i - 1), 32 * (i - 1);
    if n == i - 1 {
      AlignedStep(size, es, n);
      BufferLength(size, es, n);
      BufferLength(size, es, i);
      PutAt(before, off, es[n]);
      if |es[n]| == 31 {
        ZeroTail(size, es, n);
        PutTail(before, off, es[n]);
        ShortIsWhole(RootUpTo(size, es, i), off, es[n]);
      }
    } else {
      EntryStays(size, es, n, i - 1);
      LaterPut(before, off, es[i - 1], 32 * n);
    }
  }

  lemma ShortIsWhole(r: seq<byte>, off: nat, e: seq<byte>)
    requires off + 32 <= |r| && |e| == 31 && r[off..off + 31] == e && r[off + 31] == 0
    ensures r[off..off + 32] == Whole(e)
  {
    assert r[off..off + 32] == r[off..off + 31] + [r[off + 31]];
  }

  lemma LaterPut(root: seq<byte>, off: nat, e: seq<byte>, at: nat)
    requires at + 32 <= off && at + 32 <= |root|
    ensures at + 32 <= |PutEntry(root, off, e)| && PutEntry(root, off, e)[at..at + 32] == root[at..at + 32]
  {
  }

  lemma ClusterZero(size: nat, root: seq<byte>, k: nat)
    requires k < size && (k < |root| ==> root[k] == 0)
    ensures Cluster(size, root)[k] == 0
  {
  }

  /** The root's cluster has every entry in front of which, itself included, no short one has
      reached the end of the buffer, and behind all entries, if there is room, the mark of the
      end. */
  lemma RootHasEntries(g: Geometry, files: seq<File>)
    requires g.spc > 0
    ensures var (es, size) := (Entries(g, files), ClusterBytes(g));
            && (forall n: nat | n < |es| && Aligned(size, es, n + 1) && 32 * (n + 1) <= size ::
                  Cluster(size, Root(g, files))[32 * n..32 * n + 32] == Whole(es[n]))
            && (32 * |es| < size ==> Cluster(size, Root(g, files))[32 * |es|] == 0)
  {
    hide Entries, ClusterBytes, RootUpTo, Aligned, Cluster, Whole;
    var es, size := Entries(g, files), ClusterBytes(g);
    forall n: nat | n < |es| && Aligned(size, es, n + 1) && 32 * (n + 1) <= size
      ensures Cluster(size, Root(g, files))[32 * n..32 * n + 32] == Whole(es[n])
    {
      EntryStays(size, es, n, |es|);
      ClusterReads(size, Root(g, files), 32 * n, 32 * n + 32);
    }
    if 32 * |es| < size {
      ZeroTail(size, es, |es|);
      ClusterZero(size, Root(g, files), 32 * |es|);
    }
  }

  /** Where the row of whole entries behind the first `p` begins. */
  function RowStart(size: nat, es: seq<DirEntry>, p: nat): nat
    requires p <= |es|
  {
    Place(RootUpTo(size, es, p), 32 * p)
  }

  predicate WholeFrom(es: seq<DirEntry>, p: nat) { forall j: nat | p <= j < |es| :: |es[j]| == 32 }

  /** Whole entries stand one behind the other. */
  lemma {:induction false} RowGrows(size: nat, es: seq<DirEntry>, p: nat, i: nat)
    requires p <= i <= |es| && WholeFrom(es, p)
    ensures Place(RootUpTo(size, es, i), 32 * i) == RowStart(size, es, p) + 32 * (i - p)
    decreases i
  {
    hide PutEntry;
    if i > p {
      RowGrows(size, es, p, i - 1);
      PutAt(RootUpTo(size, es, i - 1), 32 * (i - 1), es[i - 1]);
    }
  }

  lemma {:induction false} InRow(size: nat, es: seq<DirEntry>, p: nat, n: nat, i: nat)
    requires p <= n < i <= |es| && WholeFrom(es, p)
    ensures var at := RowStart(size, es, p) + 32 * (n - p);
            at + 32 <= |RootUpTo(size, es, i)| && RootUpTo(size, es, i)[at..at + 32] == es[n]
    decreases i
  {
    hide PutEntry, RowStart;
    var before, at := RootUpTo(size, es, i - 1), RowStart(size, es, p) + 32 * (n - p);
    RowGrows(size, es, p, i - 1);
    PutAt(before, 32 * (i - 1), es[i - 1]);
    if n < i - 1 {
      InRow(size, es, p, n, i - 1);
      Prefix(before, RootUpTo(size, es, i), Place(before, 32 * (i - 1)), at);
    }
  }

  lemma Prefix(a: seq<byte>, b: seq<byte>, n: nat, at: nat)
    requires at + 32 <= n <= |a| && n <= |b| && a[..n] == b[..n]
    ensures a[at..at + 32] == b[at..at + 32]
  {
    assert a[at..at + 32] == a[..n][at..at + 32];
  }

  /** If the row does not begin at its place, nothing follows it. */
  lemma RowEnds(size: nat, es: seq<DirEntry>, p: nat)
    requires p <= |es| && WholeFrom(es, p) && RowStart(size, es, p) < 32 * p
    ensures |RootUpTo(size, es, |es|)| == RowStart(size, es, p) + 32 * (|es| - p)
  {
    RowGrows(size, es, p, |es|);
  }

  // ------------------------------------------------------------------- the files

  /** The entries of the files stand at multiples of 32. */
  predicate FilesAligned(g: Geometry) { Aligned(ClusterBytes(g), g.prefix, |g.prefix|) }

  function FilesStart(g: Geometry): nat { RowStart(ClusterBytes(g), g.prefix, |g.prefix|) }

  lemma {:induction false} SamePrefix(size: nat, a: seq<DirEntry>, b: seq<DirEntry>, i: nat)
    requires a <= b && i <= |a|
    ensures Shorts(a, i) == Shorts(b, i) && RootUpTo(size, a, i) == RootUpTo(size, b, i)
    decreases i
  {
    if i > 0 {
      SamePrefix(size, a, b, i - 1);
    }
  }

  /** The entries of the files stand one behind the other from `FilesStart` on, which is their
      place exactly if the entries before them are aligned. */
  lemma FilesInRow(g: Geometry, files: seq<File>, i: nat)
    requires g.spc > 0 && i < |files|
    ensures var (at, root) := (FilesStart(g) + 32 * i, Root(g, files));
            && at + 32 <= |root| && root[at..at + 32] == Entry(files[i].name, First(g, files, i), |files[i].data|)
    ensures FilesStart(g) <= 32 * |g.prefix| && (FilesStart(g) == 32 * |g.prefix| <==> FilesAligned(g))
    ensures !FilesAligned(g) ==> |Root(g, files)| == FilesStart(g) + 32 * |files|
  {
    hide RootUpTo, Entry, First, Aligned, ClusterBytes;
    var size, es, p := ClusterBytes(g), Entries(g, files), |g.prefix|;
    SamePrefix(size, g.prefix, es, p);
    BufferLength(size, g.prefix, p);
    InRow(size, es, p, p + i, |es|);
    if !FilesAligned(g) {
      RowEnds(size, es, p);
    }
  }

  // ------------------------------------------------------------- the builder's options

  /** What the options of the builder put before the files: `whole` entries, and `fillers`, of
      which the first 100 are short. */
  predicate OptionsGive(prefix: seq<DirEntry>, whole: nat, fillers: nat) {
    && |prefix| == whole + fillers
    && forall j: nat | j < |prefix| :: |prefix[j]| == if whole <= j < whole + 100 then 31 else 32
  }

  function ShortFillers(fillers: nat): nat { if fillers < 100 then fillers else 100 }

  /** The files' entries are aligned exactly if there is no filler or the cluster has 33 bytes
      for each short one behind the entries before. */
  lemma FillersFit(g: Geometry, whole: nat, fillers: nat)
    requires g.spc > 0 && OptionsGive(g.prefix, whole, fillers)
    ensures FilesAligned(g) <==> fillers == 0 || 32 * whole + 33 * ShortFillers(fillers) <= ClusterBytes(g)
  {
    hide Shorts, ClusterBytes, OptionsGive;
    var n, size, es := ShortFillers(fillers), ClusterBytes(g), g.prefix;
    GivenLengths(es, whole, fillers);
    forall j: nat | j < |es| && |es[j]| == 31 ensures Shorts(es, j + 1) == j + 1 - whole {
      ShortsOf(es, whole, fillers, j + 1);
    }
    if fillers > 0 && FilesAligned(g) {
      assert |es[whole + n - 1]| == 31;
    }
  }

  lemma GivenLengths(es: seq<DirEntry>, whole: nat, fillers: nat)
    requires OptionsGive(es, whole, fillers)
    ensures |es| == whole + fillers
    ensures forall j: nat | j < |es| :: |es[j]| == if whole <= j < whole + 100 then 31 else 32
  {
  }

  lemma {:induction false} ShortsOf(es: seq<DirEntry>, whole: nat, fillers: nat, i: nat)
    requires OptionsGive(es, whole, fillers) && i <= whole + ShortFillers(fillers)
    ensures Shorts(es, i) == if i <= whole then 0 else i - whole
    decreases i
  {
    if i > 0 {
      ShortsOf(es, whole, fillers, i - 1);
    }
  }

  // ------------------------------------------------------- entries that have moved

  /** File names have no zero byte. */
  predicate NamesOk(files: seq<File>) { forall f <- files :: 0 !in f.name }

  lemma {:induction false} PadNonZero(s: seq<byte>, n: nat)
    requires 0 !in s
    ensures 0 !in F.Pad(s, n)
  {
  }

  lemma UpperNonZero(s: seq<byte>)
    requires 0 !in s
    ensures 0 !in F.Upper(s)
  {
  }

  lemma ShortNameNonZero(name: seq<byte>)
    requires 0 !in name
    ensures 0 !in ShortName(name)
  {
    hide F.Upper, F.Pad, F.AfterDot;
    var u := F.Upper(name);
    var dot := F.AfterDot(u);
    UpperNonZero(name);
    PadNonZero([], 3);
    PadNonZero(u, 8);
    if dot > 1 {
      PadNonZero(u[..dot - 1], 8);
      PadNonZero(u[dot..], 3);
    }
  }

  /** Name and attribute byte are not zero; the bytes 12 to 19 and 22 to 25 are. */
  predicate Shaped(e: seq<byte>) {
    && |e| == 32 && (forall k | 0 <= k < 12 :: e[k] != 0)
    && (forall k | 12 <= k < 20 :: e[k] == 0) && (forall k | 22 <= k < 26 :: e[k] == 0)
  }

  lemma EntryShaped(name: seq<byte>, first: nat, size: nat)
    requires 0 !in name
    ensures Shaped(Entry(name, first, size))
  {
    hide ShortName, Lo, Hi, F.Le32Bytes;
    ShortNameNonZero(name);
    var e, short := Entry(name, first, size), ShortName(name);
    forall k | 0 <= k < 11 ensures e[k] != 0 {
      assert e[k] == short[k] && short[k] in short;
    }
  }

  /** The 32 bytes from position `r` of two entries, or of zeros where there is none. */
  predicate Straddles(s: seq<byte>, a: seq<byte>, b: seq<byte>, r: nat) {
    && |s| == |a| == |b| == 32 && 0 < r < 32
    && forall k | 0 <= k < 32 :: s[k] == if k + r < 32 then a[k + r] else b[k + r - 32]
  }

  predicate ShapedOrZero(e: seq<byte>) { Shaped(e) || e == Zeros(32) }

  /** What is cut out across two entries is no entry. */
  lemma NoEntryAcross(s: seq<byte>, a: seq<byte>, b: seq<byte>, r: nat)
    requires Straddles(s, a, b, r) && ShapedOrZero(a) && ShapedOrZero(b)
    ensures !Shaped(s)
  {
    if r < 26 {
      var k := if r <= 12 then 12 - r else if 20 <= r < 22 then 22 - r else 0;
      assert s[k] == a[k + r];
    } else if b == Zeros(32) {
      assert s[32 - r] == b[0];
    } else {
      assert s[12] == b[r - 20];
    }
  }

  /** The `q`-th entry of the row, and zeros behind its end. */
  function RowEntry(g: Geometry, files: seq<File>, q: nat): (e: seq<byte>)
    requires g.spc > 0
    ensures |e| == 32
  {
    if q < |files| then Entry(files[q].name, First(g, files, q), |files[q].data|) else Zeros(32)
  }

  lemma RowEntryShaped(g: Geometry, files: seq<File>, q: nat)
    requires g.spc > 0 && NamesOk(files)
    ensures ShapedOrZero(RowEntry(g, files, q))
  {
    hide Entry, First;
    if q < |files| {
      assert files[q] in files;
      EntryShaped(files[q].name, First(g, files, q), |files[q].data|);
    }
  }

  /** The root's cluster from the row on, if the files' entries are not aligned. */
  lemma RowByte(g: Geometry, files: seq<File>, q: nat, c: nat)
    requires g.spc > 0 && !FilesAligned(g) && c < 32 && FilesStart(g) + 32 * q + c < ClusterBytes(g) && files != []
    ensures Cluster(ClusterBytes(g), Root(g, files))[FilesStart(g) + 32 * q + c] == RowEntry(g, files, q)[c]
  {
    hide Root, FilesStart, FilesAligned, ClusterBytes, Entry, First;
    var root, at := Root(g, files), FilesStart(g) + 32 * q;
    if q < |files| {
      FilesInRow(g, files, q);
      assert root[at + c] == root[at..at + 32][c];
    } else {
      FilesInRow(g, files, 0);
    }
  }

  /** Where the files' entries are not aligned, no place has its entry. */
  lemma NotAtPlace(g: Geometry, files: seq<File>, i: nat)
    requires g.spc > 0 && i < |files| && NamesOk(files) && !FilesAligned(g) && Next(g, files) <= 0x1_0000_0000
    requires 32 * (|g.prefix| + i + 1) <= ClusterBytes(g)
    ensures var at := 32 * (|g.prefix| + i);
            Cluster(ClusterBytes(g), Root(g, files))[at..at + 32] != RowEntry(g, files, i)
  {
    hide Root, FilesStart, FilesAligned, ClusterBytes, RowEntry, Shaped, First, Cluster;
    FilesInRow(g, files, i);
    var at, gap := 32 * (|g.prefix| + i), 32 * |g.prefix| - FilesStart(g);
    var u, r := gap / 32, gap % 32;
    var s := Cluster(ClusterBytes(g), Root(g, files))[at..at + 32];
    var a, b := RowEntry(g, files, i + u), RowEntry(g, files, i + u + 1);
    forall k | 0 <= k < 32 ensures s[k] == if k + r < 32 then a[k + r] else b[k + r - 32] {
      if k + r < 32 {
        RowByte(g, files, i + u, k + r);
      } else {
        RowByte(g, files, i + u + 1, k + r - 32);
      }
    }
    RowEntryShaped(g, files, i + u);
    RowEntryShaped(g, files, i + u + 1);
    FileShaped(g, files, i);
    if r == 0 {
      assert s == a;
      EntriesDiffer(g, files, i, i + u);
    } else {
      NoEntryAcross(s, a, b, r);
    }
  }

  lemma FileShaped(g: Geometry, files: seq<File>, i: nat)
    requires g.spc > 0 && i < |files| && NamesOk(files)
    ensures Shaped(RowEntry(g, files, i))
  {
    hide Entry, First, Shaped;
    assert files[i] in files;
    EntryShaped(files[i].name, First(g, files, i), |files[i].data|);
  }

  /** Two files begin at different clusters. */
  lemma EntriesDiffer(g: Geometry, files: seq<File>, i: nat, j: nat)
    requires g.spc > 0 && i < |files| && i < j && NamesOk(files) && Next(g, files) <= 0x1_0000_0000
    ensures RowEntry(g, files, i) != RowEntry(g, files, j)
  {
    hide Entry, First, Count;
    FileShaped(g, files, i);
    if j < |files| {
      FirstMonotone(g, files, i, j);
      FirstMonotone(g, files, j, |files|);
      EntryFields(files[i].name, First(g, files, i), |files[i].data|);
      EntryFields(files[j].name, First(g, files, j), |files[j].data|);
    } else {
      assert RowEntry(g, files, i)[0] != 0 && RowEntry(g, files, j)[0] == 0;
    }
  }

  lemma Fields(a: seq<byte>, z: seq<byte>, hi: seq<byte>, y: seq<byte>, lo: seq<byte>, size: seq<byte>)
    requires |a| == 11 && |z| == 8 && |hi| == 2 && |y| == 4 && |lo| == 2 && |size| == 4
    ensures var e := a + [0x20] + z + hi + y + lo + size;
            |e| == 32 && e[..11] == a && e[20..22] == hi && e[26..28] == lo && e[28..32] == size
  {
  }

  lemma EntryFields(name: seq<byte>, first: nat, size: nat)
    requires first < 0x1_0000_0000
    ensures var e := Entry(name, first, size);
            && e[..11] == ShortName(name)
            && F.Le16(e, 26) + 0x10000 * F.Le16(e, 20) == first && F.Le32(e, 28) == F.Le32(F.Le32Bytes(size), 0)
  {
    hide ShortName, F.Le32Bytes, F.Le32;
    var e := Entry(name, first, size);
    var hi, lo := [Lo(first / 0x10000), Hi(first / 0x10000)], [Lo(first), Hi(first)];
    Fields(ShortName(name), Zeros(8), hi, Zeros(4), lo, F.Le32Bytes(size));
    assert e[20..22] == hi && e[26..28] == lo && e[28..32] == F.Le32Bytes(size);
    Halves(e, first);
    Le32Slice(e, 28);
  }

  lemma Halves(e: seq<byte>, first: nat)
    requires first < 0x1_0000_0000 && |e| == 32
    requires e[20..22] == [Lo(first / 0x10000), Hi(first / 0x10000)] && e[26..28] == [Lo(first), Hi(first)]
    ensures F.Le16(e, 26) + 0x10000 * F.Le16(e, 20) == first
  {
    hide Lo, Hi, Word;
    assert e[20] == e[20..22][0] && e[21] == e[20..22][1] && e[26] == e[26..28][0] && e[27] == e[26..28][1];
    Fat16Builder.LongRoundTrip(first);
  }
}
