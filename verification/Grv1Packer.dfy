/** The image packer (boards/tang_mega_138k/system16/tools/make_gorv32_flash_image.py). */
module Grv1Packer {
  import opened Bytes
  import opened Words
  import opened Grv1Format

  datatype PackError = OpenSbiOverlap | DtbOverlap | DoesNotFit | FlashSlot

  datatype Record = Record(src: word, dst: word, len: word)

  /** Fills up to whole blocks with zeros. */
  function Pad512(s: seq<byte>): (p: seq<byte>)
    ensures |p| == BLOCK * BlocksOf(|s|)
  {
    s + Zeros(BLOCK * BlocksOf(|s|) - |s|)
  }

  /** `(-n) % 512` and `(-n) % 4`: the bytes missing to the next multiple. */
  function Align512(n: int): (k: nat)
    ensures n >= 0 ==> k == BLOCK * BlocksOf(n) - n
  {
    if n >= 0 then ModIs512(n, BlocksOf(n)); -n % 512 else -n % 512
  }

  function Align4(n: int): (k: nat)
    ensures n >= 0 ==> k == 4 * WordsOf(n) - n
  {
    if n >= 0 then ModIs4(n, WordsOf(n)); -n % 4 else -n % 4
  }

  lemma ModIs512(n: int, q: int)
    requires 0 <= 512 * q - n < 512
    ensures -n % 512 == 512 * q - n
  {
    assert -n == (512 * q - n) + 512 * -q;
  }

  lemma ModIs4(n: int, q: int)
    requires 0 <= 4 * q - n < 4
    ensures -n % 4 == 4 * q - n
  {
    assert -n == (4 * q - n) + 4 * -q;
  }

  /** Appending a word-padded blob to whole blocks and aligning again appends whole blocks. */
  lemma PadAppend(p: seq<byte>, blob: seq<byte>, b: nat)
    requires |p| == BLOCK * b
    ensures Pad512(p + blob + Zeros(4 * WordsOf(|blob|) - |blob|)) == p + Padded(blob)
  {
    hide Zeros;
    var m := 4 * WordsOf(|blob|) - |blob|;
    var s := p + blob + Zeros(m);
    SameBlocks(b, |blob|);
    var n := BLOCK * BlocksOf(|s|) - |s|;
    ZerosJoin(m, n);
    assert p + blob + Zeros(m) + Zeros(n) == p + (blob + (Zeros(m) + Zeros(n)));
  }

  lemma ZerosJoin(m: nat, n: nat)
    ensures Zeros(m) + Zeros(n) == Zeros(m + n)
  {
  }

  lemma SameBlocks(b: nat, n: nat)
    ensures BlocksOf(BLOCK * b + 4 * WordsOf(n)) == b + BlocksOf(n)
  {
    hide WordsOf, BlocksOf;
    var q, w := BlocksOf(n), WordsOf(n);
    RoundedUp(n);
    WholeWords(w, q, n);
    BlocksAre(BLOCK * b + 4 * w, b + q);
  }

  lemma RoundedUp(n: nat)
    ensures n <= 4 * WordsOf(n) < n + 4 && BLOCK * (BlocksOf(n) - 1) < n <= BLOCK * BlocksOf(n)
  {
  }

  lemma WholeWords(w: int, q: int, n: int)
    requires 4 * w < n + 4 && n <= BLOCK * q
    ensures 4 * w <= BLOCK * q
  {
    assert w < 128 * q + 1;
  }

  lemma BlocksAre(n: nat, q: nat)
    requires BLOCK * (q - 1) < n <= BLOCK * q
    ensures BlocksOf(n) == q
  {
  }

  method SumPadded(padded: seq<byte>, start: word) returns (checksum: word)
    requires |padded| % 4 == 0
    ensures checksum as int == (start as int + SumWords(padded, |padded| / 4)) % 0x1_0000_0000
  {
    hide WordAt;
    checksum := start;
    for k := 0 to |padded| / 4
      invariant checksum as int == (start as int + SumWords(padded, k)) % 0x1_0000_0000
    {
      checksum := (checksum as int + WordAt(padded, 4 * k) as int) % 0x1_0000_0000;
    }
  }

  // ------------------------------------------------------------------- header

  function FlatWords(ws: seq<word>): (s: seq<byte>)
    ensures |s| == 4 * |ws|
  {
    if ws == [] then [] else FlatWords(ws[..|ws| - 1]) + WordBytes(ws[|ws| - 1])
  }

  lemma {:induction false} FlatWordsAt(ws: seq<word>, rest: seq<byte>, k: nat)
    requires k < |ws|
    ensures WordAt(FlatWords(ws) + rest, 4 * k) == ws[k]
    decreases |ws|
  {
    hide WordBytes;
    var n := |ws| - 1;
    var last := WordBytes(ws[n]);
    assert FlatWords(ws) + rest == FlatWords(ws[..n]) + (last + rest);
    if k < n {
      FlatWordsAt(ws[..n], last + rest, k);
    } else {
      WordBytesRead(ws[n]);
      var s := FlatWords(ws[..n]) + (last + rest);
      assert s[4 * n] == last[0] && s[4 * n + 1] == last[1] && s[4 * n + 2] == last[2] && s[4 * n + 3] == last[3];
    }
  }

  function HeaderOf(checksum: word, r: seq<Record>): (ws: seq<word>)
    requires |r| == RECORDS
    ensures |ws| == 12
  {
    [MAGIC, RECORDS, checksum,
     r[0].src, r[0].dst, r[0].len, r[1].src, r[1].dst, r[1].len, r[2].src, r[2].dst, r[2].len]
  }

  /** Records 0..n-1 describe the blobs. */
  ghost predicate RecordsOf(r: seq<Record>, blobs: seq<seq<byte>>, n: nat)
    requires n <= |blobs| == RECORDS
  {
    && |r| == n
    && forall i: nat :: i < n ==>
         r[i].src as int == BLOCK * SrcBlock(blobs, i) && r[i].dst == Dst(i) && r[i].len as int == |blobs[i]|
  }

  lemma HeaderHolds(img: seq<byte>, ws: seq<word>, rest: seq<byte>, checksum: word, r: seq<Record>,
                    blobs: seq<seq<byte>>)
    requires |blobs| == RECORDS && RecordsOf(r, blobs, RECORDS)
    requires ws == HeaderOf(checksum, r) && img == FlatWords(ws) + rest
    ensures WordAt(img, 0) == MAGIC && WordAt(img, 4) == RECORDS && WordAt(img, 8) == checksum
    ensures forall i: nat :: i < RECORDS ==> RecordAt(img, blobs, i)
  {
    hide FlatWords, WordAt, SrcBlock;
    FlatWordsAt(ws, rest, 0);
    FlatWordsAt(ws, rest, 1);
    FlatWordsAt(ws, rest, 2);
    forall i: nat | i < RECORDS ensures RecordAt(img, blobs, i) {
      FlatWordsAt(ws, rest, 3 + 3 * i);
      FlatWordsAt(ws, rest, 4 + 3 * i);
      FlatWordsAt(ws, rest, 5 + 3 * i);
    }
  }

  /** Offsets behind the header block are not touched by putting in the header. */
  lemma HeaderSkipped(header: seq<byte>, body: seq<byte>, blobs: seq<seq<byte>>, i: nat)
    requires |header| == HEADER <= |body| && i < |blobs| && PayloadAt(body, blobs, i)
    ensures PayloadAt(header + body[HEADER..], blobs, i)
  {
    SrcBlockGrows(blobs, 0, i);
    var img := header + body[HEADER..];
    var lo := BLOCK * SrcBlock(blobs, i);
    var hi := lo + BLOCK * BlocksOf(|blobs[i]|);
    assert img[lo..hi] == body[lo..hi];
  }

  lemma PayloadKept(a: seq<byte>, b: seq<byte>, blobs: seq<seq<byte>>, i: nat)
    requires a <= b && i < |blobs| && PayloadAt(a, blobs, i)
    ensures PayloadAt(b, blobs, i)
  {
    hide Padded;
    var lo := BLOCK * SrcBlock(blobs, i);
    var hi := lo + BLOCK * BlocksOf(|blobs[i]|);
    assert b[lo..hi] == a[lo..hi];
  }

  /** The word sum over the 4-byte padded blob is the sum over its whole blocks. */
  lemma SumPaddedBlob(blob: seq<byte>)
    ensures var p := blob + Zeros(4 * WordsOf(|blob|) - |blob|);
            && |p| == 4 * WordsOf(|blob|) && |p| / 4 == WordsOf(|blob|)
            && SumWords(p, WordsOf(|blob|)) == SumWords(Padded(blob), WordsOf(|blob|))
  {
    var p := blob + Zeros(4 * WordsOf(|blob|) - |blob|);
    assert Padded(blob)[..4 * WordsOf(|blob|)] == p[..4 * WordsOf(|blob|)];
    SumWordsPrefix(p, Padded(blob), WordsOf(|blob|));
  }

  /** One record: aligned, summed and appended, if its blob fits into memory. */
  method PackOne(blobs: seq<seq<byte>>, i: nat, payload0: seq<byte>, records0: seq<Record>, sum: word)
    returns (err: Option<PackError>, payload: seq<byte>, records: seq<Record>, checksum: word)
    requires |blobs| == RECORDS && i < RECORDS && Packing(blobs, i, payload0, records0, sum) && |records0| == i
    ensures err == if Dst(i) as int + |blobs[i]| > SDRAM_SIZE then Some(DoesNotFit) else None
    ensures err.None? ==> Packing(blobs, i + 1, payload, records, checksum) && |records| == i + 1
  {
    hide WordAt, SumWords, SrcBlock, Padded, SumBlobs, Align512, Align4, Packing, BlocksOf, WordsOf;
    var data, dst := blobs[i], Dst(i);
    payload, records, checksum := payload0, records0, sum;
    if dst as int + |data| > SDRAM_SIZE {
      return Some(DoesNotFit), payload, records, checksum;
    }
    payload := payload + Zeros(Align512(HEADER + |payload|));
    var padded := data + Zeros(Align4(|data|));
    SumPaddedBlob(data);
    checksum := SumPadded(padded, checksum);
    SrcFits(blobs, i, payload0, records0, sum);
    assert HEADER + |payload| == BLOCK * SrcBlock(blobs, i);
    records := records + [Record(HEADER + |payload|, dst, |data|)];
    payload := payload + padded;
    Packed(blobs, i, payload0, payload, records, sum, checksum);
    return None, payload, records, checksum;
  }

  /** Exactly the blobs that fit are packed, into an image of the documented format. */
  method Pack(blobs: seq<seq<byte>>, requireFlashFit: bool) returns (r: Result<seq<byte>, PackError>)
    requires |blobs| == RECORDS
    ensures r.Ok? <==> Fits(blobs) && (requireFlashFit ==> BLOCK * SrcBlock(blobs, RECORDS) <= XIP_PAYLOAD_MAX)
    ensures r.Ok? ==> IsImage(r.value, blobs)
    ensures r.Err? ==>
              r.error == if |blobs[0]| > 0x3F0000 then OpenSbiOverlap else if |blobs[1]| > 0x10000 then DtbOverlap
                         else if |blobs[2]| > 0x3FC00000 then DoesNotFit else FlashSlot
  {
    hide SrcBlock, FlatWords, Padded, IsImage, Packing, BlocksOf, WordsOf, Align512, HeaderOf;
    if |blobs[0]| > DTB_DST {
      return Err(OpenSbiOverlap);
    }
    if |blobs[1]| > KERNEL_DST - DTB_DST {
      return Err(DtbOverlap);
    }
    var records: seq<Record> := [];
    var payload: seq<byte> := [];
    var checksum: word := 0;
    Nothing(blobs);
    for i := 0 to RECORDS
      invariant Packing(blobs, i, payload, records, checksum)
      invariant |records| == i && (i == RECORDS ==> Fits(blobs))
    {
      var r;
      r, payload, records, checksum := PackOne(blobs, i, payload, records, checksum);
      if r.Some? {
        return Err(r.value);
      }
    }
    var ws := HeaderOf(checksum, records);
    var image := FlatWords(ws) + payload;
    image := image + Zeros(Align512(|image|));
    Finished(blobs, payload, records, checksum, image);
    if requireFlashFit && |image| > XIP_PAYLOAD_MAX {
      return Err(FlashSlot);
    }
    return Ok(image);
  }

  /** The state after `i` records: aligned, the payload behind a blank header holds the
      first `i` blobs in whole blocks. */
  ghost predicate Packing(blobs: seq<seq<byte>>, i: nat, payload: seq<byte>, records: seq<Record>, checksum: word) {
    && i <= |blobs| == RECORDS
    && |blobs[0]| <= DTB_DST && |blobs[1]| <= KERNEL_DST - DTB_DST
    && |Pad512(Zeros(HEADER) + payload)| == BLOCK * SrcBlock(blobs, i)
    && Blank(Pad512(Zeros(HEADER) + payload))
    && (forall k: nat :: k < i ==> PayloadAt(Pad512(Zeros(HEADER) + payload), blobs, k))
    && RecordsOf(records, blobs, i)
    && checksum as int == SumBlobs(blobs, i) % 0x1_0000_0000
  }

  lemma Nothing(blobs: seq<seq<byte>>)
    requires |blobs| == RECORDS && |blobs[0]| <= DTB_DST && |blobs[1]| <= KERNEL_DST - DTB_DST
    ensures Packing(blobs, 0, [], [], 0)
  {
  }

  lemma SrcFits(blobs: seq<seq<byte>>, i: nat, payload: seq<byte>, records: seq<Record>, checksum: word)
    requires Packing(blobs, i, payload, records, checksum) && i < RECORDS
    ensures HEADER + |payload| + (BLOCK * BlocksOf(HEADER + |payload|) - (HEADER + |payload|)) ==
              BLOCK * SrcBlock(blobs, i) < 0x1_0000_0000
    ensures SrcBlock(blobs, i) >= 1
  {
    SrcBlockGrows(blobs, 0, i);
    if i == 2 {
      assert SrcBlock(blobs, 2) == SrcBlock(blobs, 1) + BlocksOf(|blobs[1]|);
    }
    if i >= 1 {
      assert SrcBlock(blobs, 1) == SrcBlock(blobs, 0) + BlocksOf(|blobs[0]|);
    }
  }

  lemma Packed(blobs: seq<seq<byte>>, i: nat, before: seq<byte>, payload: seq<byte>, records: seq<Record>, sum: word,
               checksum: word)
    requires i < RECORDS && records != [] && Packing(blobs, i, before, records[..|records| - 1], sum)
    requires payload == before + Zeros(BLOCK * BlocksOf(HEADER + |before|) - (HEADER + |before|))
                        + (blobs[i] + Zeros(4 * WordsOf(|blobs[i]|) - |blobs[i]|))
    requires |blobs[i]| < 0x1_0000_0000 && BLOCK * SrcBlock(blobs, i) < 0x1_0000_0000
    requires records[|records| - 1] == Record(BLOCK * SrcBlock(blobs, i), Dst(i), |blobs[i]|)
    requires checksum as int == (sum as int + SumWords(Padded(blobs[i]), WordsOf(|blobs[i]|))) % 0x1_0000_0000
    ensures Packing(blobs, i + 1, payload, records, checksum)
  {
    hide SumWords, PayloadAt, Padded, RecordsOf, SumBlobs, Pad512, WordsOf, BlocksOf;
    SumStep(blobs, i, sum, checksum);
    RecordsStep(blobs, i, records);
    var p := Pad512(Zeros(HEADER) + before);
    var q := Pad512(Zeros(HEADER) + payload);
    PadOneMore(before, payload, blobs[i], SrcBlock(blobs, i));
    forall k: nat | k < i + 1 ensures PayloadAt(q, blobs, k) {
      if k < i {
        PayloadKept(p, q, blobs, k);
      } else {
        NewPayload(p, q, blobs, i);
      }
    }
  }

  lemma PadOneMore(before: seq<byte>, payload: seq<byte>, blob: seq<byte>, b: nat)
    requires payload == before + Zeros(BLOCK * BlocksOf(HEADER + |before|) - (HEADER + |before|))
                        + (blob + Zeros(4 * WordsOf(|blob|) - |blob|))
    requires |Pad512(Zeros(HEADER) + before)| == BLOCK * b
    ensures Pad512(Zeros(HEADER) + payload) == Pad512(Zeros(HEADER) + before) + Padded(blob)
  {
    hide Padded, WordsOf, BlocksOf;
    var p := Pad512(Zeros(HEADER) + before);
    assert Zeros(HEADER) + payload == p + blob + Zeros(4 * WordsOf(|blob|) - |blob|);
    PadAppend(p, blob, b);
  }

  lemma SumStep(blobs: seq<seq<byte>>, i: nat, sum: word, checksum: word)
    requires i < |blobs|
    requires sum as int == SumBlobs(blobs, i) % 0x1_0000_0000
    requires checksum as int == (sum as int + SumWords(Padded(blobs[i]), WordsOf(|blobs[i]|))) % 0x1_0000_0000
    ensures checksum as int == SumBlobs(blobs, i + 1) % 0x1_0000_0000
  {
    hide SumWords, Padded;
  }

  lemma RecordsStep(blobs: seq<seq<byte>>, i: nat, records: seq<Record>)
    requires i < RECORDS == |blobs| && records != [] && RecordsOf(records[..|records| - 1], blobs, i)
    requires |blobs[i]| < 0x1_0000_0000 && BLOCK * SrcBlock(blobs, i) < 0x1_0000_0000
    requires records[|records| - 1] == Record(BLOCK * SrcBlock(blobs, i), Dst(i), |blobs[i]|)
    ensures RecordsOf(records, blobs, i + 1)
  {
    hide SrcBlock;
  }

  lemma NewPayload(p: seq<byte>, q: seq<byte>, blobs: seq<seq<byte>>, i: nat)
    requires i < |blobs| && |p| == BLOCK * SrcBlock(blobs, i) && q == p + Padded(blobs[i])
    ensures PayloadAt(q, blobs, i)
  {
    hide Padded;
    assert q[|p|..] == Padded(blobs[i]);
  }

  lemma Finished(blobs: seq<seq<byte>>, payload: seq<byte>, records: seq<Record>, checksum: word, image: seq<byte>)
    requires Fits(blobs) && Packing(blobs, RECORDS, payload, records, checksum) && |records| == RECORDS
    requires image == Pad512(FlatWords(HeaderOf(checksum, records)) + payload)
    ensures IsImage(image, blobs) && |image| == BLOCK * SrcBlock(blobs, RECORDS)
  {
    hide WordAt, SumWords, PayloadAt, Padded, RecordAt, SumBlobs, RecordsOf, FlatWords;
    var header := FlatWords(HeaderOf(checksum, records));
    var body := Pad512(Zeros(HEADER) + payload);
    assert image == header + body[HEADER..];
    HeaderHolds(image, HeaderOf(checksum, records), body[HEADER..], checksum, records, blobs);
    SrcBlockGrows(blobs, 0, RECORDS);
    forall i: nat | i < RECORDS ensures PayloadAt(image, blobs, i) {
      HeaderSkipped(header, body, blobs, i);
    }
  }
}
