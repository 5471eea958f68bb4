/** The GRV1 boot container, shared by the packer (make_gorv32_flash_image.py), the
    zero-stage bootloader (zsbl/main.c) and the kernel's layout check (gorv32_sd.c). */
module Grv1Format {
  import opened Bytes
  import opened Words

  const MAGIC: word := 0x31565247
  const SDRAM_SIZE := 0x40000000
  const XIP_PAYLOAD_MAX := 0x2F0000
  const BLOCK := 512
  const DTB_DST := 0x3F0000
  const KERNEL_DST := 0x400000
  const RECORDS := 3
  const HEADER := 48

  /** Where the three blobs (OpenSBI, DTB, kernel) go. */
  function Dst(i: nat): word
    requires i < RECORDS
  {
    if i == 0 then 0 else if i == 1 then DTB_DST else KERNEL_DST
  }

  /** The blobs that pass the packer's overlap and size checks. */
  predicate Fits(blobs: seq<seq<byte>>) {
    && |blobs| == RECORDS
    && |blobs[0]| <= DTB_DST && |blobs[1]| <= KERNEL_DST - DTB_DST
    && KERNEL_DST + |blobs[2]| <= SDRAM_SIZE
  }

  /** Whole blocks needed for `n` bytes. */
  function BlocksOf(n: nat): nat { (n + 511) / 512 }

  function WordsOf(n: nat): nat { (n + 3) / 4 }

  /** Block number at which record `i` starts; record 3 is the end of the image. */
  function SrcBlock(blobs: seq<seq<byte>>, i: nat): nat
    requires i <= |blobs|
  {
    if i == 0 then 1 else SrcBlock(blobs, i - 1) + BlocksOf(|blobs[i - 1]|)
  }

  lemma {:induction false} SrcBlockGrows(blobs: seq<seq<byte>>, i: nat, j: nat)
    requires i <= j <= |blobs|
    ensures 1 <= SrcBlock(blobs, i) <= SrcBlock(blobs, j)
    decreases j
  {
    if i < j {
      SrcBlockGrows(blobs, i, j - 1);
    } else if 0 < i {
      SrcBlockGrows(blobs, i - 1, i - 1);
    }
  }

  lemma WordsInBlocks(n: nat)
    ensures n <= BLOCK * BlocksOf(n) && 4 * WordsOf(n) <= BLOCK * BlocksOf(n)
  {
    var b := BlocksOf(n);
    assert n <= 512 * b;
    assert (n + 3) / 4 <= (512 * b + 3) / 4 == 128 * b;
  }

  /** A blob filled up with zeros to whole blocks. */
  function Padded(blob: seq<byte>): (p: seq<byte>)
    ensures |p| == BLOCK * BlocksOf(|blob|) && 4 * WordsOf(|blob|) <= |p|
  {
    WordsInBlocks(|blob|);
    blob + Zeros(BLOCK * BlocksOf(|blob|) - |blob|)
  }

  /** Sum of the first `n` words. */
  function SumWords(s: seq<byte>, n: nat): nat
    requires 4 * n <= |s|
  {
    if n == 0 then 0 else SumWords(s, n - 1) + WordAt(s, 4 * (n - 1))
  }

  /** Sum of all words of the zero-padded blobs before blob `i`. */
  function SumBlobs(blobs: seq<seq<byte>>, i: nat): nat
    requires i <= |blobs|
  {
    if i == 0 then 0 else SumBlobs(blobs, i - 1) + SumWords(Padded(blobs[i - 1]), WordsOf(|blobs[i - 1]|))
  }

  lemma {:induction false} SumWordsPrefix(a: seq<byte>, b: seq<byte>, n: nat)
    requires 4 * n <= |a| && 4 * n <= |b| && a[..4 * n] == b[..4 * n]
    ensures SumWords(a, n) == SumWords(b, n)
  {
    if n > 0 {
      assert a[..4 * (n - 1)] == a[..4 * n][..4 * (n - 1)] == b[..4 * (n - 1)];
      SumWordsPrefix(a, b, n - 1);
      forall k | 4 * (n - 1) <= k < 4 * n ensures a[k] == b[k] {
        assert a[k] == a[..4 * n][k] && b[k] == b[..4 * n][k];
      }
    }
  }

  ghost predicate RecordAt(img: seq<byte>, blobs: seq<seq<byte>>, i: nat)
    requires i < |blobs| == RECORDS && |img| >= HEADER
  {
    && WordAt(img, 12 + 12 * i) as int == BLOCK * SrcBlock(blobs, i)
    && WordAt(img, 16 + 12 * i) == Dst(i)
    && WordAt(img, 20 + 12 * i) as int == |blobs[i]|
  }

  ghost predicate PayloadAt(img: seq<byte>, blobs: seq<seq<byte>>, i: nat)
    requires i < |blobs|
  {
    var lo := BLOCK * SrcBlock(blobs, i);
    var hi := lo + BLOCK * BlocksOf(|blobs[i]|);
    hi <= |img| && img[lo..hi] == Padded(blobs[i])
  }

  /** The rest of the header block is blank. */
  ghost predicate Blank(img: seq<byte>) {
    |img| >= BLOCK && forall k :: HEADER <= k < BLOCK ==> img[k] == 0
  }

  /** What a packed image is: the header, then every blob in whole blocks, in order. */
  ghost predicate IsImage(img: seq<byte>, blobs: seq<seq<byte>>) {
    && Fits(blobs)
    && |img| == BLOCK * SrcBlock(blobs, RECORDS) && Blank(img)
    && WordAt(img, 0) == MAGIC && WordAt(img, 4) == RECORDS
    && WordAt(img, 8) as int == SumBlobs(blobs, RECORDS) % 0x1_0000_0000
    && (forall i: nat :: i < RECORDS ==> RecordAt(img, blobs, i) && PayloadAt(img, blobs, i))
  }

  // --------------------------------------------------------- kernel layout check

  const MAX_RECORDS := 8

  /** Where the records of a header end, in blocks; Bad when one of them is empty or does not
      start at the expected place. */
  datatype End = Bad | At(blocks: nat)

  function Max(a: nat, b: nat): nat { if a > b then a else b }

  function RecordEnd(h: seq<word>, i: nat, before: nat): End
    requires |h| == 128 && i < MAX_RECORDS
  {
    var src, len := h[3 + 3 * i], h[5 + 3 * i];
    if len == 0 || src as int != before * BLOCK then Bad
    else At(Max(before, BlocksOf(src as int + len as int)))
  }

  /** First block after the records 0..n-1. */
  function LayoutUpTo(h: seq<word>, n: nat): End
    requires |h| == 128 && n <= MAX_RECORDS
  {
    if n == 0 then At(1)
    else
      var before := LayoutUpTo(h, n - 1);
      if before.Bad? then Bad else RecordEnd(h, n - 1, before.blocks)
  }

  /** The kernel's verdict on a header block: where the boot image ends. */
  function LayoutEnd(h: seq<word>): End
    requires |h| == 128
  {
    if h[0] != MAGIC || h[1] == 0 || h[1] > MAX_RECORDS then Bad else LayoutUpTo(h, h[1])
  }

  /** Whatever the header says, an accepted layout ends no record beyond the reported end,
      and the records follow each other without gap or overlap behind the header. */
  lemma {:induction false} LayoutIsSound(h: seq<word>, n: nat, i: nat)
    requires |h| == 128 && i < n <= MAX_RECORDS && LayoutUpTo(h, n).At?
    ensures LayoutUpTo(h, i).At? && h[5 + 3 * i] > 0
    ensures BLOCK <= h[3 + 3 * i] as int == BLOCK * LayoutUpTo(h, i).blocks
    ensures h[3 + 3 * i] as int + h[5 + 3 * i] as int <= BLOCK * LayoutUpTo(h, i + 1).blocks <=
              BLOCK * LayoutUpTo(h, n).blocks
    decreases n
  {
    if i + 1 < n {
      LayoutIsSound(h, n - 1, i);
    } else if i > 0 {
      LayoutIsSound(h, i, i - 1);
    }
  }

  function HeaderWords(img: seq<byte>): (h: seq<word>)
    requires |img| >= BLOCK
    ensures |h| == 128
  {
    seq(128, k requires 0 <= k < 128 => WordAt(img, 4 * k))
  }

  lemma ImageRecord(img: seq<byte>, blobs: seq<seq<byte>>, i: nat)
    requires IsImage(img, blobs) && i < RECORDS
    ensures RecordAt(img, blobs, i) && PayloadAt(img, blobs, i)
  {
    hide RecordAt, PayloadAt;
  }

  /** The header words give the records of the blobs. */
  ghost predicate Describes(h: seq<word>, blobs: seq<seq<byte>>) {
    && |h| == 128 && |blobs| == RECORDS
    && forall i: nat :: i < RECORDS ==>
         h[3 + 3 * i] as int == BLOCK * SrcBlock(blobs, i) && h[5 + 3 * i] as int == |blobs[i]|
  }

  lemma ImageDescribes(img: seq<byte>, blobs: seq<seq<byte>>)
    requires IsImage(img, blobs)
    ensures Describes(HeaderWords(img), blobs)
    ensures HeaderWords(img)[0] == MAGIC && HeaderWords(img)[1] == RECORDS
    ensures HeaderWords(img)[2] as int == SumBlobs(blobs, RECORDS) % 0x1_0000_0000
    ensures |img| / BLOCK == SrcBlock(blobs, RECORDS) && |blobs| == RECORDS && |img| >= BLOCK && Fits(blobs)
    ensures forall i: nat :: i < RECORDS ==> HeaderWords(img)[4 + 3 * i] == Dst(i)
  {
    hide WordAt, SrcBlock, PayloadAt, SumBlobs;
    forall i: nat | i < RECORDS
      ensures HeaderWords(img)[3 + 3 * i] as int == BLOCK * SrcBlock(blobs, i)
      ensures HeaderWords(img)[4 + 3 * i] == Dst(i) && HeaderWords(img)[5 + 3 * i] as int == |blobs[i]|
    {
      ImageRecord(img, blobs, i);
    }
  }

  predicate NonEmpty(blobs: seq<seq<byte>>, n: nat)
    requires n <= |blobs|
  {
    forall i: nat :: i < n ==> blobs[i] != []
  }

  lemma {:induction false} PackedLayout(h: seq<word>, blobs: seq<seq<byte>>, n: nat)
    requires Describes(h, blobs) && n <= RECORDS
    ensures LayoutUpTo(h, n) == if NonEmpty(blobs, n) then At(SrcBlock(blobs, n)) else Bad
  {
    if n > 0 {
      PackedLayout(h, blobs, n - 1);
      var before, len := SrcBlock(blobs, n - 1), |blobs[n - 1]|;
      assert BlocksOf(BLOCK * before + len) == before + BlocksOf(len);
      assert h[3 + 3 * (n - 1)] as int == BLOCK * before && h[5 + 3 * (n - 1)] as int == len;
    }
  }

  /** The kernel accepts a packed image exactly when none of its blobs is empty, and then
      finds its true end. */
  lemma LayoutOfImage(img: seq<byte>, blobs: seq<seq<byte>>)
    requires IsImage(img, blobs)
    ensures |blobs| == RECORDS
    ensures LayoutEnd(HeaderWords(img)) == if NonEmpty(blobs, RECORDS) then At(|img| / BLOCK) else Bad
  {
    hide LayoutUpTo, IsImage, Describes, NonEmpty, HeaderWords, SrcBlock;
    ImageDescribes(img, blobs);
    PackedLayout(HeaderWords(img), blobs, RECORDS);
  }
}
