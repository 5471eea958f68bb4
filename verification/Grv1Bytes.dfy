/** The GRV1 image and the memory it is booted into, byte by byte, without the functions of
    the format. */
module Grv1Bytes {
  import opened Bytes
  import opened Words
  import opened Grv1Format
  import opened Grv1Packer
  import opened Grv1Boot

  /** The number in four bytes, the lowest first. */
  function Number(s: seq<byte>, at: nat): int
    requires at + 4 <= |s|
  {
    s[at] as int + 0x100 * s[at + 1] as int + 0x10000 * s[at + 2] as int + 0x1000000 * s[at + 3] as int
  }

  lemma NumberIsWord(s: seq<byte>, at: nat)
    requires at + 4 <= |s|
    ensures WordAt(s, at) as int == Number(s, at)
  {
  }

  /** A word of the card as its FIFO shows it: in this order of bytes, or in the other one. */
  lemma FifoNumber(s: seq<byte>, at: nat)
    requires at + 4 <= |s|
    ensures FifoWord(false, s, at) as int == Number(s, at)
    ensures FifoWord(true, s, at) as int == Number([s[at + 3], s[at + 2], s[at + 1], s[at]], 0)
  {
  }

  // ---------------------------------------------------------------------- sums

  /** The bytes, each with the weight of its place in its word. */
  function Weighted(s: seq<byte>): nat {
    if s == [] then 0
    else
      var n := |s| - 1;
      Weighted(s[..n])
      + s[n] as int
        * (if n % 4 == 0 then 1 else if n % 4 == 1 then 0x100 else if n % 4 == 2 then 0x10000 else 0x1000000)
  }

  lemma {:induction false} WeightedAppend(a: seq<byte>, b: seq<byte>)
    requires |a| % 4 == 0
    ensures Weighted(a + b) == Weighted(a) + Weighted(b)
    decreases |b|
  {
    if b == [] {
      assert a + b == a;
    } else {
      var n := |b| - 1;
      assert (a + b)[..|a| + n] == a + b[..n] && (|a| + n) % 4 == n % 4;
      WeightedAppend(a, b[..n]);
    }
  }

  lemma {:induction false} WeightedZeros(n: nat)
    ensures Weighted(Zeros(n)) == 0
  {
    if n > 0 {
      assert Zeros(n)[..n - 1] == Zeros(n - 1);
      WeightedZeros(n - 1);
    }
  }

  lemma WeightedFour(s: seq<byte>)
    requires |s| == 4
    ensures Weighted(s) == Number(s, 0)
  {
    assert s[..3][..2] == s[..2] && s[..2][..1] == s[..1] && s[..1][..0] == [];
    assert Weighted(s[..1]) == s[0] as int;
    assert Weighted(s[..2]) == s[0] as int + 0x100 * s[1] as int;
  }

  /** The word sum is the sum of the weighted bytes. */
  lemma {:induction false} SumIsWeighted(s: seq<byte>, n: nat)
    requires 4 * n <= |s|
    ensures SumWords(s, n) == Weighted(s[..4 * n])
  {
    hide WordAt, Weighted;
    if n == 0 {
      assert s[..0] == [] && Weighted([]) == 0 by { WeightedZeros(0); assert Zeros(0) == []; }
    } else {
      SumIsWeighted(s, n - 1);
      var (head, last) := (s[..4 * (n - 1)], s[4 * (n - 1)..4 * n]);
      assert s[..4 * n] == head + last;
      WeightedAppend(head, last);
      WeightedFour(last);
      NumberIsWord(s, 4 * (n - 1));
    }
  }

  /** Zeros behind the last word of a blob do not count. */
  lemma PaddedSum(blob: seq<byte>)
    ensures SumWords(Padded(blob), WordsOf(|blob|)) == Weighted(Padded(blob))
  {
    hide SumWords, Weighted, WordsOf, BlocksOf;
    var (p, n) := (Padded(blob), 4 * WordsOf(|blob|));
    RoundedUp(|blob|);
    SumIsWeighted(p, WordsOf(|blob|));
    assert p[n..] == Zeros(|p| - n);
    WeightedZeros(|p| - n);
    WeightedAppend(p[..n], p[n..]);
    assert p == p[..n] + p[n..];
  }

  // --------------------------------------------------------------------- the image

  /** The places of the blobs in an image. */
  ghost predicate Places(blobs: seq<seq<byte>>, dtb: int, kernel: int, end: int) {
    && |blobs| == 3 && dtb % 512 == kernel % 512 == end % 512 == 0
    && 512 + |blobs[0]| <= dtb < 512 + |blobs[0]| + 512
    && dtb + |blobs[1]| <= kernel < dtb + |blobs[1]| + 512
    && kernel + |blobs[2]| <= end < kernel + |blobs[2]| + 512
  }

  /** The bytes from `at` on are these, and zeros up to `end`. */
  ghost predicate Holds(img: seq<byte>, at: int, blob: seq<byte>, end: int) {
    && 0 <= at <= at + |blob| <= end <= |img| && img[at..at + |blob|] == blob
    && forall k :: at + |blob| <= k < end ==> img[k] == 0
  }

  lemma PlaceOf(n: nat)
    ensures n <= 512 * BlocksOf(n) < n + 512
  {
  }

  lemma SumsAre(blobs: seq<seq<byte>>)
    requires |blobs| == RECORDS
    ensures SumBlobs(blobs, 3) ==
              Weighted(Padded(blobs[0])) + Weighted(Padded(blobs[1])) + Weighted(Padded(blobs[2]))
    ensures SrcBlock(blobs, 0) == 1 && SrcBlock(blobs, 1) == 1 + BlocksOf(|blobs[0]|)
    ensures SrcBlock(blobs, 2) == 1 + BlocksOf(|blobs[0]|) + BlocksOf(|blobs[1]|)
    ensures SrcBlock(blobs, 3) == 1 + BlocksOf(|blobs[0]|) + BlocksOf(|blobs[1]|) + BlocksOf(|blobs[2]|)
  {
    hide Weighted, Padded, SumWords, BlocksOf, WordsOf;
    PaddedSum(blobs[0]);
    PaddedSum(blobs[1]);
    PaddedSum(blobs[2]);
    assert SumBlobs(blobs, 1) == SumWords(Padded(blobs[0]), WordsOf(|blobs[0]|));
    assert SumBlobs(blobs, 2) == SumBlobs(blobs, 1) + SumWords(Padded(blobs[1]), WordsOf(|blobs[1]|));
    assert SrcBlock(blobs, 1) == 1 + BlocksOf(|blobs[0]|);
    assert SrcBlock(blobs, 2) == SrcBlock(blobs, 1) + BlocksOf(|blobs[1]|);
  }

  /** A packed image: `GRV1`, three records with their places, destinations and lengths, the
      blobs in whole blocks, zeros everywhere else, and the sum of all words behind the
      header block. */
  lemma ImageBytes(img: seq<byte>, blobs: seq<seq<byte>>)
    requires IsImage(img, blobs)
    ensures |img| >= 512 && |blobs| == 3
    ensures img[..8] == [0x47, 0x52, 0x56, 0x31, 3, 0, 0, 0] && forall k :: 48 <= k < 512 ==> img[k] == 0
    ensures Number(img, 8) == Weighted(img[512..]) % 0x1_0000_0000
    ensures Number(img, 12) == 512 && Number(img, 16) == 0 && Number(img, 20) == |blobs[0]|
    ensures Number(img, 28) == 0x3F0000 && Number(img, 32) == |blobs[1]|
    ensures Number(img, 40) == 0x400000 && Number(img, 44) == |blobs[2]|
    ensures var (dtb, kernel) := (Number(img, 24), Number(img, 36));
            && Places(blobs, dtb, kernel, |img|)
            && Holds(img, 512, blobs[0], dtb) && Holds(img, dtb, blobs[1], kernel)
            && Holds(img, kernel, blobs[2], |img|)
  {
    hide IsImage, WordAt, Weighted, Places, Holds;
    RecordsOfImage(img, blobs);
    HeaderOfImage(img, blobs);
  }

  lemma HeaderOfImage(img: seq<byte>, blobs: seq<seq<byte>>)
    requires IsImage(img, blobs)
    ensures |img| >= 512 && img[..8] == [0x47, 0x52, 0x56, 0x31, 3, 0, 0, 0]
    ensures forall k :: 48 <= k < 512 ==> img[k] == 0
    ensures Number(img, 8) == Weighted(img[512..]) % 0x1_0000_0000
  {
    hide WordAt, Weighted, SumBlobs, SrcBlock, RecordAt, PayloadAt;
    HeaderBytes(img);
    NumberIsWord(img, 8);
    BehindHeader(img, blobs);
  }

  lemma RecordsOfImage(img: seq<byte>, blobs: seq<seq<byte>>)
    requires IsImage(img, blobs)
    ensures |img| >= 512 && |blobs| == 3
    ensures Number(img, 12) == 512 && Number(img, 16) == 0 && Number(img, 20) == |blobs[0]|
    ensures Number(img, 28) == 0x3F0000 && Number(img, 32) == |blobs[1]|
    ensures Number(img, 40) == 0x400000 && Number(img, 44) == |blobs[2]|
    ensures var (dtb, kernel) := (Number(img, 24), Number(img, 36));
            && Places(blobs, dtb, kernel, |img|)
            && Holds(img, 512, blobs[0], dtb) && Holds(img, dtb, blobs[1], kernel)
            && Holds(img, kernel, blobs[2], |img|)
  {
    hide IsImage, WordAt, SumBlobs, SrcBlock, Padded, BlocksOf, Holds, Number, Places;
    assert |blobs| == 3 && |img| == 512 * SrcBlock(blobs, 3) by { ImageDescribes(img, blobs); WholeImage(img, blobs); }
    SumsAre(blobs);
    RecordBytes(img, blobs, 0);
    RecordBytes(img, blobs, 1);
    RecordBytes(img, blobs, 2);
    BlockPlaces(blobs);
  }

  lemma BlockPlaces(blobs: seq<seq<byte>>)
    requires |blobs| == 3
    ensures var (a, b, c) := (BlocksOf(|blobs[0]|), BlocksOf(|blobs[1]|), BlocksOf(|blobs[2]|));
            Places(blobs, 512 * (1 + a), 512 * (1 + a + b), 512 * (1 + a + b + c))
  {
    hide BlocksOf;
    PlaceOf(|blobs[0]|);
    PlaceOf(|blobs[1]|);
    PlaceOf(|blobs[2]|);
  }

  lemma HeaderBytes(img: seq<byte>)
    requires |img| >= 512 && WordAt(img, 0) == 0x31565247 && WordAt(img, 4) == 3
    ensures img[..8] == [0x47, 0x52, 0x56, 0x31, 3, 0, 0, 0]
  {
    hide WordBytes, WordAt;
    WordBytesWritten(img, 0);
    WordBytesWritten(img, 4);
    assert WordBytes(0x31565247) == [0x47, 0x52, 0x56, 0x31] && WordBytes(3) == [3, 0, 0, 0] by { MagicBytes(); }
    assert img[..8] == img[0..4] + img[4..8];
  }

  lemma MagicBytes()
    ensures WordBytes(0x31565247) == [0x47, 0x52, 0x56, 0x31] && WordBytes(3) == [3, 0, 0, 0]
  {
  }

  lemma RecordBytes(img: seq<byte>, blobs: seq<seq<byte>>, i: nat)
    requires IsImage(img, blobs) && i < 3
    ensures var (lo, n) := (512 * SrcBlock(blobs, i), |blobs[i]|);
            && |img| >= 512 && Number(img, 12 + 12 * i) == lo && Number(img, 16 + 12 * i) == Dst(i)
            && Number(img, 20 + 12 * i) == n
            && lo + 512 * BlocksOf(n) <= |img| && img[lo..lo + 512 * BlocksOf(n)] == Padded(blobs[i])
            && Holds(img, lo, blobs[i], lo + 512 * BlocksOf(n))
  {
    hide WordAt, SumBlobs, SrcBlock, BlocksOf, IsImage, Number, Padded, Holds;
    assert |img| >= 512 && |blobs| == 3 by { ImageDescribes(img, blobs); }
    ImageRecord(img, blobs, i);
    NumberIsWord(img, 12 + 12 * i);
    NumberIsWord(img, 16 + 12 * i);
    NumberIsWord(img, 20 + 12 * i);
    PaddedHeld(img, 512 * SrcBlock(blobs, i), blobs[i]);
  }

  lemma PaddedHeld(img: seq<byte>, lo: nat, blob: seq<byte>)
    requires var hi := lo + 512 * BlocksOf(|blob|); hi <= |img| && img[lo..hi] == Padded(blob)
    ensures Holds(img, lo, blob, lo + 512 * BlocksOf(|blob|))
  {
    hide BlocksOf;
    PlaceOf(|blob|);
    var (p, n) := (Padded(blob), |blob|);
    var part := img[lo..lo + |p|];
    assert img[lo..lo + n] == part[..n] == p[..n] == blob;
    forall k | lo + n <= k < lo + |p| ensures img[k] == 0 {
      assert img[k] == part[k - lo] == p[k - lo];
    }
  }

  lemma BehindHeader(img: seq<byte>, blobs: seq<seq<byte>>)
    requires IsImage(img, blobs)
    ensures |img| >= 512 && Weighted(img[512..]) == SumBlobs(blobs, 3)
  {
    hide IsImage, Weighted, SumBlobs, SrcBlock, Padded, BlocksOf, WordAt, Holds, Number;
    RecordBytes(img, blobs, 0);
    RecordBytes(img, blobs, 1);
    RecordBytes(img, blobs, 2);
    assert |blobs| == 3 && |img| == 512 * SrcBlock(blobs, 3) by { ImageDescribes(img, blobs); WholeImage(img, blobs); }
    SumsAre(blobs);
    var (b, c) := (BlocksOf(|blobs[0]|), BlocksOf(|blobs[1]|));
    BlocksAreWords(b);
    BlocksAreWords(c);
    assert |Padded(blobs[0])| == 512 * b && |Padded(blobs[1])| == 512 * c;
    ThreeParts(img, Padded(blobs[0]), Padded(blobs[1]), Padded(blobs[2]));
  }

  lemma BlocksAreWords(b: nat)
    ensures 512 * b % 4 == 0
  {
  }

  lemma ThreeParts(img: seq<byte>, p: seq<byte>, q: seq<byte>, r: seq<byte>)
    requires |p| % 4 == |q| % 4 == 0 && |img| == 512 + |p| + |q| + |r|
    requires img[512..512 + |p|] == p && img[512 + |p|..512 + |p| + |q|] == q && img[512 + |p| + |q|..|img|] == r
    ensures Weighted(img[512..]) == Weighted(p) + Weighted(q) + Weighted(r)
  {
    hide Weighted;
    var rest := img[512 + |p|..];
    assert rest == q + r by { Cut(img, 512 + |p|, 512 + |p| + |q|); }
    assert img[512..] == p + rest by { Cut(img, 512, 512 + |p|); }
    WeightedAppend(p, rest);
    WeightedAppend(q, r);
  }

  lemma Cut(s: seq<byte>, lo: nat, hi: nat)
    requires lo <= hi <= |s|
    ensures s[lo..] == s[lo..hi] + s[hi..|s|]
  {
  }

  lemma WholeImage(img: seq<byte>, blobs: seq<seq<byte>>)
    requires IsImage(img, blobs)
    ensures |img| == 512 * SrcBlock(blobs, 3)
  {
    hide SrcBlock, SumBlobs, WordAt;
  }

  /** The blobs that the packer takes. */
  lemma FittingSizes(blobs: seq<seq<byte>>)
    ensures Fits(blobs) <==>
            |blobs| == 3 && |blobs[0]| <= 0x3F0000 && |blobs[1]| <= 0x10000 && |blobs[2]| <= 0x3FC00000
  {
  }

  // ----------------------------------------------------------------------- booting

  /** A booted image: every blob byte for byte at its address. */
  lemma LoadedBytes(mem: seq<byte>, blobs: seq<seq<byte>>)
    requires Fits(blobs) && |mem| == SDRAM_SIZE && Loaded(mem, blobs, 3)
    ensures |mem| == 0x40000000 && mem[..|blobs[0]|] == blobs[0]
    ensures mem[0x3F0000..0x3F0000 + |blobs[1]|] == blobs[1] && mem[0x400000..0x400000 + |blobs[2]|] == blobs[2]
  {
    hide WordsOf, Padded;
    BlobBytes(mem, blobs, 0);
    BlobBytes(mem, blobs, 1);
    BlobBytes(mem, blobs, 2);
  }

  lemma BlobBytes(mem: seq<byte>, blobs: seq<seq<byte>>, i: nat)
    requires Fits(blobs) && |mem| == SDRAM_SIZE && Loaded(mem, blobs, 3) && i < 3
    ensures Dst(i) + |blobs[i]| <= |mem| && mem[Dst(i)..Dst(i) + |blobs[i]|] == blobs[i]
  {
    hide BlobAt;
    assert BlobAt(mem, blobs[i], Dst(i), |blobs[i]|);
    BlobHeld(mem, blobs[i], Dst(i));
  }

  lemma BlobHeld(mem: seq<byte>, blob: seq<byte>, d: nat)
    requires BlobAt(mem, blob, d, |blob|)
    ensures d + |blob| <= |mem| && mem[d..d + |blob|] == blob
  {
    hide WordsOf, BlocksOf;
    var (n, m) := (|blob|, 4 * WordsOf(|blob|));
    RoundedUp(n);
    var (area, p) := (mem[d..d + m], Padded(blob));
    forall k | 0 <= k < n ensures mem[d + k] == blob[k] {
      assert mem[d + k] == area[k] == p[..m][k] == p[k];
    }
    assert mem[d..d + n] == blob;
  }

  /** The sum over the memory of one record: its bytes, rounded up to whole words. */
  lemma AreaBytes(mem: seq<byte>, d: nat, len: nat, m: nat)
    requires len <= m < len + 4 && m % 4 == 0 && d + m <= |mem|
    ensures d + 4 * WordsOf(len) <= |mem| && AreaSum(mem, d, len) == Weighted(mem[d..d + m])
  {
    hide SumWords, Weighted;
    RoundedUp(len);
    assert m == 4 * (m / 4) && m / 4 == WordsOf(len);
    SumIsWeighted(mem[d..d + m], m / 4);
    assert mem[d..d + m][..m] == mem[d..d + m];
  }

  /** The checksum of a header: the sum over the memory of all its records. */
  lemma {:induction false} MemoryBytes(mem: seq<byte>, h: seq<word>, n: nat)
    requires |mem| == SDRAM_SIZE && InMemory(h, n + 1)
    ensures InMemory(h, n) && MemSum(mem, h, 0) == 0
    ensures var (d, len) := (h[4 + 3 * n] as int, h[5 + 3 * n] as int);
            MemSum(mem, h, n + 1) == MemSum(mem, h, n) + AreaSum(mem, d, len)
  {
    hide AreaSum, WordsOf;
  }

  lemma SeenWord(card: seq<byte>, swapped: bool, k: nat)
    requires |card| >= BLOCK && k < 128
    ensures SeenHeader(card, swapped).1[k] ==
              (if FifoWord(!swapped, card, 0) == MAGIC then FifoWord(!swapped, card, 4 * k)
               else FifoWord(swapped, card, 4 * k))
  {
    hide Swab, WordAt, FifoWord;
    OtherOrder(card, swapped, 4 * k);
    OtherOrder(card, swapped, 0);
    SwabTwice(FifoWord(swapped, card, 0));
    SwabTwice(MAGIC);
  }

  lemma OtherOrder(s: seq<byte>, swapped: bool, at: nat)
    requires at + 4 <= |s|
    ensures Swab(FifoWord(swapped, s, at)) == FifoWord(!swapped, s, at)
  {
    hide Swab, WordAt, Little;
    FifoWordSwapped(s, at);
    assert FifoWord(false, s, at) == WordAt(s, at);
  }

  /** The header of any card begins with the magic exactly if its bytes are `GRV1` in one of
      the two orders, and then all of it is seen in this order. */
  lemma HeaderSeen(card: seq<byte>, swapped: bool, k: nat)
    requires |card| >= BLOCK && k < 128
    ensures var (head, h) := (card[..4], SeenHeader(card, swapped).1);
            && (h[0] as int == 0x31565247 <==> head in {[0x47, 0x52, 0x56, 0x31], [0x31, 0x56, 0x52, 0x47]})
            && (head == [0x47, 0x52, 0x56, 0x31] ==> h[k] as int == Number(card, 4 * k))
            && (head == [0x31, 0x56, 0x52, 0x47] ==> h[k] == FifoWord(true, card, 4 * k))
            && (h[0] as int != 0x31565247 ==> h[k] == FifoWord(swapped, card, 4 * k))
  {
    hide SeenHeader, FifoWord, Number;
    FirstWords(card);
    FifoNumber(card, 4 * k);
    SeenWord(card, swapped, 0);
    SeenWord(card, swapped, k);
    assert [0x47, 0x52, 0x56, 0x31][0] != [0x31, 0x56, 0x52, 0x47][0];
  }

  lemma FirstWords(card: seq<byte>)
    requires |card| >= 4
    ensures FifoWord(false, card, 0) == 0x31565247 <==> card[..4] == [0x47, 0x52, 0x56, 0x31]
    ensures FifoWord(true, card, 0) == 0x31565247 <==> card[..4] == [0x31, 0x56, 0x52, 0x47]
  {
    hide Little;
    assert card[..4] == [card[0], card[1], card[2], card[3]];
    LittleMagic(card[0], card[1], card[2], card[3]);
    LittleMagic(card[3], card[2], card[1], card[0]);
  }

  lemma LittleMagic(b0: byte, b1: byte, b2: byte, b3: byte)
    ensures Little(b0, b1, b2, b3) == 0x31565247 <==> b0 == 0x47 && b1 == 0x52 && b2 == 0x56 && b3 == 0x31
  {
    hide WordBytes, Little;
    LittleBytes(b0, b1, b2, b3);
    MagicBytes();
    assert Little(0x47, 0x52, 0x56, 0x31) == 0x31565247 by { LittleIs(); }
  }

  lemma LittleIs()
    ensures Little(0x47, 0x52, 0x56, 0x31) == 0x31565247
  {
  }

  /** The loops go over all words and blocks of a record, except for lengths of almost 4 GB,
      for which they do nothing. */
  lemma LoopCounts(len: word)
    ensures len <= 0xFFFFFFFC ==> len as int <= 4 * LoopWords(len) < len as int + 4
    ensures len > 0xFFFFFFFC ==> LoopWords(len) == 0
    ensures len <= 0xFFFFFE00 ==> len as int <= 512 * LoopBlocks(len) < len as int + 512
    ensures len > 0xFFFFFE00 ==> LoopBlocks(len) == 0
  {
  }

  // ------------------------------------------------------------ the kernel's check

  /** The records of a header follow each other from byte 512 on, each at the next whole block,
      and none is empty. */
  ghost predicate Contiguous(h: seq<word>, n: nat)
    requires |h| == 128 && n <= 8
  {
    && (forall i: nat :: i < n ==> h[3 + 3 * i] % 512 == 0 && h[5 + 3 * i] > 0)
    && (n > 0 ==> h[3] == 512)
    && forall i: nat :: i + 1 < n ==> Follows(h, i)
  }

  /** Record `i + 1` begins at the first whole block behind record `i`. */
  predicate Follows(h: seq<word>, i: nat)
    requires |h| == 128 && i < 7
  {
    var end := h[3 + 3 * i] as int + h[5 + 3 * i] as int;
    end <= h[6 + 3 * i] as int < end + 512
  }

  lemma RecordEndMeans(h: seq<word>, i: nat, before: nat)
    requires |h| == 128 && i < 8
    ensures var (r, src, len) := (RecordEnd(h, i, before), h[3 + 3 * i] as int, h[5 + 3 * i] as int);
            && (r.At? <==> len > 0 && src == 512 * before)
            && (r.At? ==> src + len <= 512 * r.blocks < src + len + 512)
  {
    PlaceOf(h[3 + 3 * i] as int + h[5 + 3 * i] as int);
  }

  lemma NextBlock(end: nat, blocks: nat, src: nat)
    requires end <= 512 * blocks < end + 512
    ensures src % 512 == 0 && end <= src < end + 512 <==> src == 512 * blocks
  {
    if src % 512 == 0 {
      assert src == 512 * (src / 512);
    }
  }

  lemma ContiguousStep(h: seq<word>, i: nat)
    requires |h| == 128 && 0 < i < 8
    ensures Contiguous(h, i + 1) <==>
            Contiguous(h, i) && h[3 + 3 * i] % 512 == 0 && h[5 + 3 * i] > 0 && Follows(h, i - 1)
  {
    hide Follows;
  }

  lemma {:induction false} LayoutUpToMeans(h: seq<word>, n: nat)
    requires |h| == 128 && 0 < n <= 8
    ensures LayoutUpTo(h, n).At? <==> Contiguous(h, n)
    ensures LayoutUpTo(h, n).At? ==>
              var end := h[3 * n] as int + h[3 * n + 2] as int; end <= 512 * LayoutUpTo(h, n).blocks < end + 512
  {
    hide RecordEnd, Contiguous;
    var i := n - 1;
    if i > 0 {
      LayoutUpToMeans(h, i);
      ContiguousStep(h, i);
      var before := LayoutUpTo(h, i);
      if before.At? {
        RecordEndMeans(h, i, before.blocks);
        NextBlock(h[3 * i] as int + h[3 * i + 2] as int, before.blocks, h[3 * n] as int);
      }
    } else {
      assert LayoutUpTo(h, 0) == At(1);
      RecordEndMeans(h, 0, 1);
      FirstRecord(h);
    }
  }

  lemma FirstRecord(h: seq<word>)
    requires |h| == 128
    ensures Contiguous(h, 1) <==> h[3] == 512 && h[5] > 0
  {
    if h[3] == 512 && h[5] > 0 {
      forall i: nat | i < 1 ensures h[3 + 3 * i] % 512 == 0 && h[5 + 3 * i] > 0 {
      }
    }
    if Contiguous(h, 1) {
      assert h[3 + 3 * 0] % 512 == 0 && h[5 + 3 * 0] > 0;
    }
  }

  /** The kernel accepts exactly the headers with the magic and 1 to 8 contiguous records, and
      their end is the first block behind the last one. */
  lemma LayoutMeans(h: seq<word>)
    requires |h| == 128
    ensures LayoutEnd(h).At? <==> h[0] == 0x31565247 && 1 <= h[1] <= 8 && Contiguous(h, h[1])
    ensures LayoutEnd(h).At? ==>
              var end := h[3 * h[1]] as int + h[3 * h[1] + 2] as int; end <= 512 * LayoutEnd(h).blocks < end + 512
  {
    hide LayoutUpTo, Contiguous;
    if 1 <= h[1] <= 8 {
      LayoutUpToMeans(h, h[1]);
    }
  }
}
