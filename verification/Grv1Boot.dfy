/** The zero-stage bootloader (boards/tang_mega_138k/system16/linux/zsbl/main.c): loading a
    GRV1 image from an SD card or from the flash window into SDRAM. */
module Grv1Boot {
  import opened Bytes
  import opened Words
  import opened Grv1Format
  import Grv1Fifo
  import SdHost

  /** Four bytes as the card's receive FIFO presents them. */
  function FifoWord(swapped: bool, s: seq<byte>, at: nat): word
    requires at + 4 <= |s|
  {
    if swapped then Little(s[at + 3], s[at + 2], s[at + 1], s[at]) else WordAt(s, at)
  }

  lemma SameFifoWord(swapped: bool, card: seq<byte>, at: nat)
    requires at + 4 <= BLOCK <= |card|
    ensures FifoWord(swapped, Block(card, 0), at) == FifoWord(swapped, card, at)
  {
    hide Little;
  }

  lemma FifoWordSwapped(s: seq<byte>, at: nat)
    requires at + 4 <= |s|
    ensures Swab(FifoWord(true, s, at)) == WordAt(s, at)
    ensures Swab(WordAt(s, at)) == FifoWord(true, s, at)
  {
    LittleBytes(s[at], s[at + 1], s[at + 2], s[at + 3]);
    LittleBytes(s[at + 3], s[at + 2], s[at + 1], s[at]);
  }

  /** Memory after a copy of `data` to `at`. */
  lemma SpliceStep(mem: seq<byte>, at: nat, data: seq<byte>, n: nat, m: nat)
    requires n <= m <= |data| && at + |data| <= |mem|
    ensures Splice(Splice(mem, at, data[..n]), at + n, data[n..m]) == Splice(mem, at, data[..m])
  {
    var a, b := Splice(Splice(mem, at, data[..n]), at + n, data[n..m]), Splice(mem, at, data[..m]);
    forall k | 0 <= k < |mem| ensures a[k] == b[k] {
    }
  }

  /** Blobs 0..n-1 stand in memory at their destinations, filled up to whole blocks. */
  ghost predicate Loaded(mem: seq<byte>, blobs: seq<seq<byte>>, n: nat)
    requires Fits(blobs) && n <= RECORDS && |mem| == SDRAM_SIZE
  {
    forall i: nat :: i < n ==> BlobAt(mem, blobs[i], Dst(i), |blobs[i]|)
  }

  /** The first `n` words of the padded blob stand at `dst`. */
  ghost predicate BlobAt(mem: seq<byte>, blob: seq<byte>, dst: nat, n: nat) {
    dst + 4 * WordsOf(n) <= |mem| && n <= |blob| && mem[dst..dst + 4 * WordsOf(n)] == Padded(blob)[..4 * WordsOf(n)]
  }

  /** Copying whole blocks to a destination stays inside the destination's own area. */
  lemma AreasDisjoint(blobs: seq<seq<byte>>, i: nat, j: nat)
    requires Fits(blobs) && i < RECORDS && j < RECORDS
    ensures Dst(i) + BLOCK * BlocksOf(|blobs[i]|) <= SDRAM_SIZE
    ensures i < j ==> Dst(i) + BLOCK * BlocksOf(|blobs[i]|) <= Dst(j)
    ensures 4 * WordsOf(|blobs[i]|) <= BLOCK * BlocksOf(|blobs[i]|)
  {
  }

  /** A record's copy leaves the earlier blobs alone and puts its own in place. */
  lemma CopyLoads(mem: seq<byte>, after: seq<byte>, blobs: seq<seq<byte>>, i: nat, n: nat)
    requires Fits(blobs) && i < RECORDS && |mem| == |after| == SDRAM_SIZE && Loaded(mem, blobs, i)
    requires 4 * WordsOf(|blobs[i]|) <= n <= BLOCK * BlocksOf(|blobs[i]|) && Dst(i) + n <= SDRAM_SIZE
    requires after == Splice(mem, Dst(i), Padded(blobs[i])[..n])
    ensures Loaded(after, blobs, i + 1)
  {
    hide Padded, WordsOf, BlocksOf;
    forall j: nat | j < i + 1 ensures BlobAt(after, blobs[j], Dst(j), |blobs[j]|) {
      AreasDisjoint(blobs, j, i);
      var lo, hi := Dst(j) as int, Dst(j) + 4 * WordsOf(|blobs[j]|);
      SpliceReads(mem, Dst(i), Padded(blobs[i])[..n], lo, hi);
      if j < i {
        assert BlobAt(mem, blobs[j], Dst(j), |blobs[j]|);
      } else {
        assert Padded(blobs[i])[..n][..hi - lo] == Padded(blobs[i])[..hi - lo];
      }
    }
  }

  /** Block `l` of a medium. */
  function Block(card: seq<byte>, l: nat): (b: seq<byte>)
    requires BLOCK * (l + 1) <= |card|
    ensures |b| == BLOCK
  {
    card[BLOCK * l..BLOCK * (l + 1)]
  }

  /** The controller presents block `l` of the card word by word. */
  ghost predicate Shows(content: map<word, SdHost.Sector>, card: seq<byte>, swapped: bool, l: word)
    requires BLOCK * (l + 1) <= |card|
  {
    l in content && forall k: nat :: k < 128 ==> content[l][k] == FifoWord(swapped, Block(card, l), 4 * k)
  }

  /** The system's main memory, and the two places an image can come from: the card behind
      its controller, whose bytes are `card`, and the flash window. */
  class Soc {
    var mem: array<byte>
    const host: SdHost.Host
    const card: seq<byte>
    const swapped: bool
    const flash: seq<byte>

    constructor (host: SdHost.Host, card: seq<byte>, swapped: bool, flash: seq<byte>)
      ensures this.host == host && this.card == card && this.swapped == swapped && this.flash == flash
      ensures mem.Length == SDRAM_SIZE && fresh(mem)
    {
      this.host, this.card, this.swapped, this.flash := host, card, swapped, flash;
      mem := new byte[SDRAM_SIZE](_ => 0);
    }

    /** The card is idle and holds `card`; a card with byte addresses has at most 4 GB. */
    ghost predicate CardOk()
      reads host
    {
      && SdHost.Valid(host.cfg, host.s) && host.s.pending == {}
      && |card| <= (if host.cfg.sdhc then BLOCK * 0x1_0000_0000 else 0x1_0000_0000)
      && forall l: word :: BLOCK * (l + 1) <= |card| ==> Shows(host.s.content, card, swapped, l)
    }

    /** A block's words, as the loader's byte order has them. A read beyond the end of the
        card fails. */
    method ReadWords(lba: nat, swap: bool) returns (ok: bool, words: seq<word>)
      requires CardOk()
      modifies host
      ensures CardOk() && |words| <= 128
      ensures ok ==> BLOCK * (lba + 1) <= |card| && |words| == 128
                     && forall k: nat :: k < 128 ==>
                          words[k] == Grv1Fifo.Ordered(swap, FifoWord(swapped, Block(card, lba), 4 * k))
    {
      hide FifoWord, Block, SdHost.Valid, Grv1Fifo.Ordered;
      if BLOCK * (lba + 1) > |card| {
        return false, [];
      }
      ghost var content := host.s.content;
      ok, words := Grv1Fifo.ReadWords(host, lba, swap);
      assert Shows(content, card, swapped, lba);
    }

    /** A store to any address. Only main memory is modelled. */
    method StoreWord(at: nat, w: word)
      requires mem.Length == SDRAM_SIZE
      modifies mem
      ensures at + 4 <= mem.Length ==> mem[..] == Splice(old(mem[..]), at, WordBytes(w))
    {
      var a, b := at % 0x1_0000_0000, WordBytes(w);
      if a + 4 <= mem.Length {
        mem[a], mem[a + 1], mem[a + 2], mem[a + 3] := b[0], b[1], b[2], b[3];
      }
    }

    /** A load from any address. */
    method LoadWord(at: nat) returns (w: word)
      requires mem.Length == SDRAM_SIZE
      ensures at + 4 <= mem.Length ==> w == WordAt(mem[..], at)
    {
      var a := at % 0x1_0000_0000;
      if a + 4 <= mem.Length {
        w := WordAt(mem[..], a);
      } else {
        w := Elsewhere();
      }
    }

    /** What a load from outside the modelled memories returns. */
    method Elsewhere() returns (w: word) {
      var x: int := *;
      w := x % 0x1_0000_0000;
    }

    /** Word `k` of the header, which may be behind the end of its medium. */
    method HeaderWord(h: seq<word>, k: nat) returns (w: word)
      ensures k < |h| ==> w == h[k]
    {
      if k < |h| {
        w := h[k];
      } else {
        w := Elsewhere();
      }
    }

    method FlashLoad(at: nat) returns (w: word)
      ensures at + 4 <= |flash| ==> w == WordAt(flash, at)
    {
      if at + 4 <= |flash| {
        w := WordAt(flash, at);
      } else {
        w := Elsewhere();
      }
    }

    /** One block into memory, word by word through the FIFO. A read may fail, and then leaves
        the words that came before. */
    method ReadBlock(lba: nat, swap: bool, at: nat) returns (ok: bool)
      requires mem.Length == SDRAM_SIZE && CardOk()
      modifies mem, host
      ensures CardOk() && (ok ==> BLOCK * (lba + 1) <= |card|)
      ensures ok && swap == swapped && at + BLOCK <= mem.Length ==>
                mem[..] == Splice(old(mem[..]), at, Block(card, lba))
    {
      hide Swab, WordAt, WordBytes, Splice, FifoWord, CardOk, Block;
      ghost var before := mem[..];
      var words;
      ok, words := ReadWords(lba, swap);
      ghost var faithful := ok && swap == swapped && at + BLOCK <= mem.Length;
      if faithful {
        SpliceNothing(before, at);
      }
      for got := 0 to |words|
        invariant faithful ==> mem[..] == Splice(before, at, Block(card, lba)[..4 * got])
        invariant CardOk()
      {
        if faithful {
          NativeWord(swapped, Block(card, lba), 4 * got);
          WordBytesWritten(Block(card, lba), 4 * got);
        }
        StoreWord(at + 4 * got, words[got]);
        if faithful {
          SpliceStep(before, at, Block(card, lba), 4 * got, 4 * got + 4);
        }
      }
      assert faithful ==> Block(card, lba)[..512] == Block(card, lba);
    }

    /** The header block, in the byte order that the magic reveals. */
    method ReadHeader() returns (ok: bool, h: seq<word>, swap: bool)
      requires |card| >= BLOCK && CardOk()
      modifies host
      ensures CardOk() && (ok ==> (swap, h) == SeenHeader(card, swapped))
    {
      hide Swab, WordAt, FifoWord, CardOk;
      swap := false;
      ok, h := ReadWords(0, false);
      if !ok {
        return;
      }
      forall k: nat | k < 128 ensures h[k] == FifoWord(swapped, card, 4 * k) {
        SameFifoWord(swapped, card, 4 * k);
      }
      if h[0] == Swab(MAGIC) {
        swap := true;
        ghost var raw := h;
        for k := 0 to 128
          invariant |h| == 128
          invariant forall j: nat :: j < 128 ==> h[j] == if j < k then Swab(raw[j]) else raw[j]
        {
          h := h[k := Swab(h[k])];
        }
      }
      assert h == SeenHeader(card, swapped).1;
    }

    method SumRecord(d: nat, len: word, start: word) returns (sum: word)
      requires mem.Length == SDRAM_SIZE
      ensures d + 4 * WordsOf(len as int) <= mem.Length ==>
                sum as int == (start as int + AreaSum(mem[..], d, len as int)) % 0x1_0000_0000
    {
      hide WordAt, SumWords, WordsOf, LoopWords, LoopBlocks, BlocksOf;
      var words := LoopWords(len);
      sum := start;
      ghost var inside := d + 4 * WordsOf(len as int) <= mem.Length;
      if inside {
        SmallLength(len);
      }
      ghost var area := if inside then mem[d..d + 4 * words] else [];
      if inside {
        SumWordsZero(area);
      }
      for w := 0 to words
        invariant inside ==> sum as int == (start as int + SumWords(area, w)) % 0x1_0000_0000
      {
        var next := LoadWord(d + 4 * w);
        if inside {
          WordInArea(mem[..], d, words, w);
          SumWordsStep(area, w);
          AddMod(start as int + SumWords(area, w), next);
        }
        sum := (sum as int + next as int) % 0x1_0000_0000;
      }
    }

    /** The word sum of the copied records, read back from memory. */
    method SumRecords(h: seq<word>) returns (sum: word)
      requires mem.Length == SDRAM_SIZE && |h| >= 3
      ensures InMemory(h, h[1] as int) ==> sum as int == MemSum(mem[..], h, h[1] as int) % 0x1_0000_0000
    {
      hide AreaSum;
      sum := 0;
      ghost var inside := InMemory(h, h[1] as int);
      for i := 0 to h[1] as int
        invariant inside ==> sum as int == MemSum(mem[..], h, i) % 0x1_0000_0000
      {
        ghost var start := sum;
        var dst := HeaderWord(h, 4 + 3 * i);
        var len := HeaderWord(h, 5 + 3 * i);
        sum := SumRecord(dst as int, len, sum);
        if inside {
          AddMod(MemSum(mem[..], h, i), AreaSum(mem[..], h[4 + 3 * i] as int, h[5 + 3 * i] as int));
        }
      }
    }

    /** Booting from the card. Without a header, nothing is copied. Whatever is booted has
        the header's checksum in memory. A packed image boots when no read fails, and then
        every blob stands at its destination. */
    method TrySd(ghost img: seq<byte>, ghost blobs: seq<seq<byte>>) returns (booted: bool, readError: bool)
      requires mem.Length == SDRAM_SIZE && |card| >= BLOCK
      requires CardOk()
      modifies mem, host
      ensures var h := SeenHeader(card, swapped).1;
              && (h[0] != MAGIC || h[1] > 8 ==> !booted && mem[..] == old(mem[..]))
              && (booted && InMemory(h, h[1] as int) ==>
                    MemSum(mem[..], h, h[1] as int) % 0x1_0000_0000 == h[2] as int)
      ensures IsImage(img, blobs) && img <= card ==>
                (booted <==> !readError) && (booted ==> Loaded(mem[..], blobs, RECORDS))
    {
      hide IsImage, Describes, Loaded, SumBlobs, SrcBlock, Padded, HeaderWords, SeenHeader, MemSum, Splice, WordsOf;
      hide BlocksOf, CardOk;
      ghost var packed := IsImage(img, blobs) && img <= card;
      if packed {
        PackedHeader(img, card, swapped, blobs);
        PackedIsLoadable(img, card, swapped, blobs);
        BlocksEnough(SeenHeader(card, swapped).1, RECORDS);
        NothingLoaded(mem[..], blobs);
      }
      var ok, h, swap := ReadHeader();
      if !ok {
        return false, true;
      }
      if h[0] != MAGIC {
        return false, false;
      }
      if h[1] > 8 {
        return false, false;
      }
      for i := 0 to h[1] as int
        invariant CardOk() && (packed ==> Loaded(mem[..], blobs, i))
      {
        ok := CopyFromCard(h, swap, i, img, blobs);
        if !ok {
          return false, true;
        }
      }
      var sum := SumRecords(h);
      if packed {
        LoadedSum(mem[..], h, blobs, RECORDS);
      }
      if sum != h[2] {
        return false, false;
      }
      return true, false;
    }

    /** One record, in whole blocks. */
    method CopyFromCard(h: seq<word>, swap: bool, i: nat, ghost img: seq<byte>, ghost blobs: seq<seq<byte>>)
      returns (ok: bool)
      requires mem.Length == SDRAM_SIZE && 6 + 3 * i <= |h| && CardOk()
      modifies mem, host
      ensures CardOk()
      ensures ok && swap == swapped && Underway(old(mem[..]), img, card, h, blobs, i) ==> Loaded(mem[..], blobs, i + 1)
    {
      hide IsImage, Loaded, SumBlobs, SrcBlock, Padded, Splice, WordsOf, BlocksOf, LoopBlocks, LoopWords, CardOk;
      ghost var before := mem[..];
      ghost var packed := swap == swapped && Underway(before, img, card, h, blobs, i);
      var src, dst, len := h[3 + 3 * i] as int, h[4 + 3 * i] as int, h[5 + 3 * i] as int;
      var blocks := LoopBlocks(h[5 + 3 * i]);
      if packed {
        AreasDisjoint(blobs, i, i);
        SmallLength(h[5 + 3 * i]);
        SourceBlocks(img, card, blobs, i);
        SpliceNothing(before, dst);
      }
      for b := 0 to blocks
        invariant CardOk() && (packed ==> mem[..] == Splice(before, dst, Padded(blobs[i])[..BLOCK * b]))
      {
        ok := ReadBlock(src / BLOCK + b, swap, dst + BLOCK * b);
        if !ok {
          return;
        }
        if packed {
          BlockCopied(before, dst, Padded(blobs[i]), card, SrcBlock(blobs, i), b);
        }
      }
      if packed {
        CopyLoads(before, mem[..], blobs, i, BLOCK * blocks);
      }
      return true;
    }

    /** Booting from the flash window, word by word, with the same guarantees. */
    method TryFlash(ghost img: seq<byte>, ghost blobs: seq<seq<byte>>) returns (booted: bool)
      requires mem.Length == SDRAM_SIZE && |flash| >= 12
      modifies mem
      ensures var h := FlashWords(flash);
              && (h[0] != MAGIC ==> !booted && mem[..] == old(mem[..]))
              && (booted && InMemory(h, h[1] as int) ==>
                    MemSum(mem[..], h, h[1] as int) % 0x1_0000_0000 == h[2] as int)
      ensures IsImage(img, blobs) && img <= flash ==> booted && Loaded(mem[..], blobs, RECORDS)
    {
      hide IsImage, Loaded, SumBlobs, SrcBlock, Padded, FlashWords, MemSum, Splice, WordsOf, BlocksOf;
      ghost var packed := IsImage(img, blobs) && img <= flash;
      var h := FlashWords(flash);
      if packed {
        PackedFlash(img, flash, blobs);
        PackedIsLoadable(img, flash, swapped, blobs);
        NothingLoaded(mem[..], blobs);
      }
      if h[0] != MAGIC {
        return false;
      }
      for i := 0 to h[1] as int
        invariant packed ==> Loaded(mem[..], blobs, i)
      {
        CopyFromFlash(h, i, img, blobs);
      }
      var sum := SumRecords(h);
      if packed {
        LoadedSum(mem[..], h, blobs, RECORDS);
      }
      return sum == h[2];
    }

    method CopyFromFlash(h: seq<word>, i: nat, ghost img: seq<byte>, ghost blobs: seq<seq<byte>>)
      requires mem.Length == SDRAM_SIZE
      modifies mem
      ensures Underway(old(mem[..]), img, flash, h, blobs, i) ==> Loaded(mem[..], blobs, i + 1)
    {
      hide IsImage, Loaded, SumBlobs, SrcBlock, Padded, Splice, WordsOf, BlocksOf, LoopWords, LoopBlocks, WordAt,
        WordBytes;
      ghost var before := mem[..];
      ghost var packed := Underway(before, img, flash, h, blobs, i);
      var src := HeaderWord(h, 3 + 3 * i);
      var dst := HeaderWord(h, 4 + 3 * i);
      var len := HeaderWord(h, 5 + 3 * i);
      var words := LoopWords(len);
      if packed {
        AreasDisjoint(blobs, i, i);
        SmallLength(len);
        SourceBlocks(img, flash, blobs, i);
        SpliceNothing(before, dst);
      }
      for w := 0 to words
        invariant packed ==> mem[..] == Splice(before, dst, Padded(blobs[i])[..4 * w])
      {
        var next := FlashLoad(src as int + 4 * w);
        if packed {
          WordBytesWritten(flash, src as int + 4 * w);
        }
        StoreWord(dst as int + 4 * w, next);
        if packed {
          WordCopied(before, dst, Padded(blobs[i]), flash, src, w);
        }
      }
      if packed {
        CopyLoads(before, mem[..], blobs, i, 4 * words);
      }
    }
  }

  // ---------------------------------------------------------------- arbitrary headers

  /** The loop bounds wrap around for lengths near 2^32. */
  function LoopWords(len: word): nat { (len as int + 3) % 0x1_0000_0000 / 4 }

  function LoopBlocks(len: word): nat { (len as int + 511) % 0x1_0000_0000 / 512 }

  /** They do not for a length that fits main memory. */
  lemma SmallLength(len: word)
    ensures 4 * WordsOf(len as int) <= SDRAM_SIZE ==> LoopWords(len) == WordsOf(len as int)
    ensures BLOCK * BlocksOf(len as int) <= SDRAM_SIZE ==> LoopBlocks(len) == BlocksOf(len as int)
  {
    assert len as int <= 4 * WordsOf(len as int) && len as int <= BLOCK * BlocksOf(len as int);
  }

  /** The header block as the loader sees it, and whether it swaps the FIFO words. */
  function SeenHeader(card: seq<byte>, swapped: bool): (r: (bool, seq<word>))
    requires |card| >= BLOCK
    ensures |r.1| == 128
  {
    var raw := seq(128, k requires 0 <= k < 128 => FifoWord(swapped, card, 4 * k));
    if raw[0] == Swab(MAGIC) then (true, seq(128, k requires 0 <= k < 128 => Swab(raw[k]))) else (false, raw)
  }

  function FlashWords(flash: seq<byte>): (h: seq<word>)
    ensures |h| == |flash| / 4
  {
    seq(|flash| / 4, k requires 0 <= k < |flash| / 4 => WordAt(flash, 4 * k))
  }

  /** The destinations of the first `n` records lie in main memory, in words or in blocks. */
  predicate InMemory(h: seq<word>, n: nat) {
    3 + 3 * n <= |h| && forall i: nat :: i < n ==> h[4 + 3 * i] as int + 4 * WordsOf(h[5 + 3 * i] as int) <= SDRAM_SIZE
  }

  predicate BlocksInMemory(h: seq<word>, n: nat) {
    && 3 + 3 * n <= |h|
    && forall i: nat :: i < n ==> h[4 + 3 * i] as int + BLOCK * BlocksOf(h[5 + 3 * i] as int) <= SDRAM_SIZE
  }

  /** The sources of the first `n` records lie in the flash window. */
  predicate InFlash(h: seq<word>, n: nat, size: nat) {
    3 + 3 * n <= |h| && forall i: nat :: i < n ==> h[3 + 3 * i] as int + 4 * WordsOf(h[5 + 3 * i] as int) <= size
  }

  lemma BlocksEnough(h: seq<word>, n: nat)
    requires BlocksInMemory(h, n)
    ensures InMemory(h, n)
  {
    hide WordsOf, BlocksOf;
    forall i: nat | i < n ensures h[4 + 3 * i] as int + 4 * WordsOf(h[5 + 3 * i] as int) <= SDRAM_SIZE {
      WordsInBlocks(h[5 + 3 * i] as int);
    }
  }

  /** The word sum of a destination, and of the first `n` destinations. */
  function AreaSum(mem: seq<byte>, d: nat, len: nat): nat
    requires d + 4 * WordsOf(len) <= |mem|
  {
    SumWords(mem[d..d + 4 * WordsOf(len)], WordsOf(len))
  }

  function MemSum(mem: seq<byte>, h: seq<word>, n: nat): nat
    requires |mem| == SDRAM_SIZE && InMemory(h, n)
  {
    if n == 0 then 0
    else MemSum(mem, h, n - 1) + AreaSum(mem, h[4 + 3 * (n - 1)] as int, h[5 + 3 * (n - 1)] as int)
  }

  /** The header gives the records of these blobs, with their destinations. */
  ghost predicate Located(h: seq<word>, blobs: seq<seq<byte>>) {
    && |h| >= 3 + 3 * RECORDS && |blobs| == RECORDS
    && forall i: nat :: i < RECORDS ==>
         h[3 + 3 * i] as int == BLOCK * SrcBlock(blobs, i) && h[4 + 3 * i] == Dst(i)
           && h[5 + 3 * i] as int == |blobs[i]|
  }

  /** A packed image is being loaded, and the first `i` blobs are in place. */
  ghost predicate Underway(mem: seq<byte>, img: seq<byte>, medium: seq<byte>, h: seq<word>, blobs: seq<seq<byte>>,
                           i: nat)
    requires |mem| == SDRAM_SIZE
  {
    i < RECORDS && IsImage(img, blobs) && img <= medium && Fits(blobs) && Located(h, blobs) && Loaded(mem, blobs, i)
  }

  lemma {:induction false} LoadedSum(mem: seq<byte>, h: seq<word>, blobs: seq<seq<byte>>, n: nat)
    requires Fits(blobs) && Located(h, blobs) && n <= RECORDS && |mem| == SDRAM_SIZE && InMemory(h, n)
    requires Loaded(mem, blobs, n)
    ensures MemSum(mem, h, n) == SumBlobs(blobs, n)
  {
    hide SumWords, Padded, SrcBlock, WordsOf;
    if n > 0 {
      var i := n - 1;
      LoadedSum(mem, h, blobs, i);
      assert BlobAt(mem, blobs[i], Dst(i), |blobs[i]|);
      var words := WordsOf(|blobs[i]|);
      var area := mem[Dst(i)..Dst(i) + 4 * words];
      assert area[..4 * words] == Padded(blobs[i])[..4 * words];
      SumWordsPrefix(area, Padded(blobs[i]), words);
    }
  }

  /** A packed image is seen in its own byte order, whatever the card's FIFO does. */
  lemma PackedHeader(img: seq<byte>, card: seq<byte>, swapped: bool, blobs: seq<seq<byte>>)
    requires IsImage(img, blobs) && img <= card
    ensures |card| >= BLOCK && Fits(blobs)
    ensures var (swap, h) := SeenHeader(card, swapped);
            && swap == swapped && Located(h, blobs) && h[0] == MAGIC && h[1] == RECORDS
            && h[2] as int == SumBlobs(blobs, RECORDS) % 0x1_0000_0000
  {
    hide Swab, WordAt, FifoWord, IsImage, SumBlobs, SrcBlock;
    ImageDescribes(img, blobs);
    HeaderOfCard(img, card);
    MagicTellsOrder(card, swapped);
    forall k: nat | k < 128
      ensures (if swapped then Swab(FifoWord(swapped, card, 4 * k)) else FifoWord(swapped, card, 4 * k)) ==
                WordAt(card, 4 * k)
    {
      NativeWord(swapped, card, 4 * k);
    }
    assert SeenHeader(card, swapped).1 == HeaderWords(img);
  }

  lemma PackedFlash(img: seq<byte>, flash: seq<byte>, blobs: seq<seq<byte>>)
    requires IsImage(img, blobs) && img <= flash
    ensures |flash| >= BLOCK && Fits(blobs)
    ensures var h := FlashWords(flash);
            && Located(h, blobs) && h[0] == MAGIC && h[1] == RECORDS
            && h[2] as int == SumBlobs(blobs, RECORDS) % 0x1_0000_0000
  {
    hide WordAt, IsImage, SumBlobs, SrcBlock;
    ImageDescribes(img, blobs);
    HeaderOfCard(img, flash);
    assert forall k: nat :: k < 128 ==> FlashWords(flash)[k] == HeaderWords(flash)[k];
  }

  /** A packed image names only destinations in main memory and sources on its medium. */
  lemma PackedIsLoadable(img: seq<byte>, medium: seq<byte>, swapped: bool, blobs: seq<seq<byte>>)
    requires IsImage(img, blobs) && img <= medium
    ensures |medium| >= BLOCK
    ensures BlocksInMemory(SeenHeader(medium, swapped).1, RECORDS)
    ensures InMemory(FlashWords(medium), RECORDS) && InFlash(FlashWords(medium), RECORDS, |medium|)
  {
    hide IsImage, WordsOf, BlocksOf, SeenHeader, FlashWords, SrcBlock, SumBlobs;
    PackedHeader(img, medium, swapped, blobs);
    PackedFlash(img, medium, blobs);
    var h, f := SeenHeader(medium, swapped).1, FlashWords(medium);
    forall i: nat | i < RECORDS
      ensures h[4 + 3 * i] as int + BLOCK * BlocksOf(h[5 + 3 * i] as int) <= SDRAM_SIZE
      ensures f[4 + 3 * i] as int + 4 * WordsOf(f[5 + 3 * i] as int) <= SDRAM_SIZE
      ensures f[3 + 3 * i] as int + 4 * WordsOf(f[5 + 3 * i] as int) <= |medium|
    {
      AreasDisjoint(blobs, i, i);
      SourceBlocks(img, medium, blobs, i);
    }
  }

  lemma WordInArea(mem: seq<byte>, d: nat, words: nat, w: nat)
    requires d + 4 * words <= |mem| && w < words
    ensures WordAt(mem[d..d + 4 * words], 4 * w) == WordAt(mem, d + 4 * w)
  {
  }

  lemma HeaderOfCard(img: seq<byte>, medium: seq<byte>)
    requires |img| >= BLOCK && img <= medium
    ensures HeaderWords(medium) == HeaderWords(img) && WordAt(medium, 0) == HeaderWords(img)[0]
  {
  }

  lemma NothingLoaded(mem: seq<byte>, blobs: seq<seq<byte>>)
    requires Fits(blobs) && |mem| == SDRAM_SIZE
    ensures Loaded(mem, blobs, 0)
  {
  }

  lemma SourceBlocks(img: seq<byte>, medium: seq<byte>, blobs: seq<seq<byte>>, i: nat)
    requires IsImage(img, blobs) && img <= medium && i < RECORDS
    ensures var lo, n := BLOCK * SrcBlock(blobs, i), BLOCK * BlocksOf(|blobs[i]|);
            lo + n <= |medium| && medium[lo..lo + n] == Padded(blobs[i])
  {
    hide WordAt, SrcBlock, Padded, SumBlobs;
    ImageRecord(img, blobs, i);
    var lo, n := BLOCK * SrcBlock(blobs, i), BLOCK * BlocksOf(|blobs[i]|);
    assert medium[lo..lo + n] == img[lo..lo + n];
  }

  lemma SubSlice(s: seq<byte>, p: seq<byte>, at: nat, lo: nat, hi: nat)
    requires at + |p| <= |s| && s[at..at + |p|] == p && lo <= hi <= |p|
    ensures s[at + lo..at + hi] == p[lo..hi]
  {
    forall k | lo <= k < hi ensures s[at + k] == p[k] {
      assert s[at..at + |p|][k] == s[at + k];
    }
  }

  lemma BlockCopied(before: seq<byte>, dst: nat, p: seq<byte>, medium: seq<byte>, first: nat, b: nat)
    requires BLOCK * first + |p| <= |medium| && medium[BLOCK * first..BLOCK * first + |p|] == p
    requires BLOCK * (b + 1) <= |p| && dst + |p| <= |before|
    ensures Splice(Splice(before, dst, p[..BLOCK * b]), dst + BLOCK * b,
                   medium[BLOCK * (first + b)..BLOCK * (first + b + 1)])
            == Splice(before, dst, p[..BLOCK * (b + 1)])
  {
    hide Splice;
    SubSlice(medium, p, BLOCK * first, BLOCK * b, BLOCK * (b + 1));
    SpliceStep(before, dst, p, BLOCK * b, BLOCK * (b + 1));
  }

  lemma WordCopied(before: seq<byte>, dst: nat, p: seq<byte>, medium: seq<byte>, src: nat, w: nat)
    requires src + |p| <= |medium| && medium[src..src + |p|] == p
    requires 4 * (w + 1) <= |p| && dst + |p| <= |before|
    ensures Splice(Splice(before, dst, p[..4 * w]), dst + 4 * w, medium[src + 4 * w..src + 4 * w + 4])
            == Splice(before, dst, p[..4 * (w + 1)])
  {
    hide Splice;
    SubSlice(medium, p, src, 4 * w, 4 * w + 4);
    SpliceStep(before, dst, p, 4 * w, 4 * (w + 1));
  }

  lemma SpliceNothing(s: seq<byte>, at: nat)
    requires at <= |s|
    ensures Splice(s, at, []) == s
  {
  }

  lemma NativeWord(swapped: bool, s: seq<byte>, at: nat)
    requires at + 4 <= |s|
    ensures (if swapped then Swab(FifoWord(swapped, s, at)) else FifoWord(swapped, s, at)) == WordAt(s, at)
  {
    FifoWordSwapped(s, at);
  }

  lemma MagicTellsOrder(s: seq<byte>, swapped: bool)
    requires |s| >= BLOCK && WordAt(s, 0) == MAGIC
    ensures FifoWord(swapped, s, 0) == Swab(MAGIC) <==> swapped
  {
    hide Swab, WordAt;
    FifoWordSwapped(s, 0);
    MagicHasAnOrder();
  }

  lemma MagicHasAnOrder()
    ensures Swab(MAGIC) == 0x47525631
  {
    assert MAGIC / 256 == 0x315652 && MAGIC % 256 == 0x47;
    assert 0x315652 / 256 == 0x3156 && 0x315652 % 256 == 0x52;
    assert 0x3156 / 256 == 0x31 && 0x3156 % 256 == 0x56;
  }

  lemma SumWordsZero(s: seq<byte>)
    ensures SumWords(s, 0) == 0
  {
  }

  lemma SumWordsStep(s: seq<byte>, n: nat)
    requires 4 * (n + 1) <= |s|
    ensures SumWords(s, n + 1) == SumWords(s, n) + WordAt(s, 4 * n)
  {
  }

  lemma AddMod(a: nat, b: nat)
    ensures (a % 0x1_0000_0000 + b) % 0x1_0000_0000 == (a + b) % 0x1_0000_0000
  {
  }
}
