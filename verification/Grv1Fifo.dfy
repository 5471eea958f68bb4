/** How the zero-stage bootloader reads a block through the controller's FIFO
    (boards/tang_mega_138k/system16/linux/zsbl/main.c, `sd_read_block`). */
module Grv1Fifo {
  import opened Words
  import opened SdHost

  const MAX_SPINS := 50000000

  function Ordered(swap: bool, w: word): word { if swap then Swab(w) else w }

  /** The words as the loader keeps them. */
  function AllOrdered(swap: bool, ws: seq<word>): (r: seq<word>)
    ensures |r| == |ws|
  {
    seq(|ws|, k requires 0 <= k < |ws| => Ordered(swap, ws[k]))
  }

  /** Block `lba` is being read from a card that shows `content` and programs nothing. */
  ghost predicate Reads(c: Config, content: map<word, Sector>, lba: word, s: Hw, words: seq<word>, swap: bool) {
    && Valid(c, s) && s.pending == {} && s.content == content
    && s.transfer.Reading? && s.transfer.lba == lba && words == AllOrdered(swap, s.transfer.popped)
  }

  lemma SameContent(c: Config, a: map<word, Sector>, b: map<word, Sector>)
    requires Untouched(c, {}, a, b)
    ensures a == b
  {
    forall l: word ensures a[l] == b[l] {
      assert Stable(c, {}, l);
    }
  }

  lemma TimePassed(c: Config, content: map<word, Sector>, lba: word, s: Hw, t: Hw, words: seq<word>, swap: bool)
    requires Reads(c, content, lba, s, words, swap) && (Advanced(c, s, t) || DataCleared(c, s, t))
    ensures Reads(c, content, lba, t, words, swap)
  {
    hide ValidTransfer;
    SameContent(c, s.content, t.content);
  }

  lemma WordRead(c: Config, content: map<word, Sector>, lba: word, s: Hw, t: Hw, words: seq<word>, swap: bool, w: word)
    requires Reads(c, content, lba, s, words, swap) && Popped(c, s, t, w)
    ensures Reads(c, content, lba, t, words + [Ordered(swap, w)], swap)
  {
    hide ValidTransfer, Swab;
    SameContent(c, s.content, t.content);
  }

  lemma BlockStarted(c: Config, content: map<word, Sector>, lba: word, s: Hw, t: Hw, swap: bool)
    requires s.content == content && s.pending == {} && Valid(c, t) && Started(c, s, t, lba, false)
    ensures Reads(c, content, lba, t, [], swap)
  {
    hide ValidTransfer;
  }

  /** All 128 words have come, and the data phase has ended without an error: none was lost,
      whatever the FIFO-full flag said on the way. */
  lemma BlockComplete(c: Config, content: map<word, Sector>, lba: word, s: Hw, words: seq<word>, swap: bool)
    requires Reads(c, content, lba, s, words, swap) && |words| == 128 && s.flags.dataDone && !s.flags.dataError
    requires lba in content
    ensures words == AllOrdered(swap, content[lba])
  {
    hide Swab;
    assert s.transfer.popped + s.transfer.rx == s.transfer.line[..128] == s.transfer.line;
    assert Stable(c, s.pending, lba);
  }

  /** The words that are waiting, up to 128 in all. */
  method Drain(host: Host, swap: bool, got: seq<word>, ghost content: map<word, Sector>, ghost lba: word)
    returns (words: seq<word>)
    requires Reads(host.cfg, content, lba, host.s, got, swap) && |got| <= 128
    modifies host
    ensures Reads(host.cfg, content, lba, host.s, words, swap) && |words| <= 128 && got <= words
  {
    hide Valid, Advanced, Popped, Reads, Swab;
    words := got;
    while |words| < 128
      invariant Reads(host.cfg, content, lba, host.s, words, swap) && |words| <= 128 && got <= words
      decreases 128 - |words|
    {
      ghost var s := host.s;
      ReadsValid(host.cfg, content, lba, s, words, swap);
      var rxEmpty, _, _ := host.FifoStatus();
      TimePassed(host.cfg, content, lba, s, host.s, words, swap);
      if rxEmpty {
        return;
      }
      s := host.s;
      ReadsValid(host.cfg, content, lba, s, words, swap);
      var w := host.ReadRx();
      WordRead(host.cfg, content, lba, s, host.s, words, swap, w);
      words := words + [Ordered(swap, w)];
    }
  }

  lemma ReadsValid(c: Config, content: map<word, Sector>, lba: word, s: Hw, words: seq<word>, swap: bool)
    requires Reads(c, content, lba, s, words, swap)
    ensures Valid(c, s) && s.transfer.Reading? && s.pending == {} && s.content == content
  {
  }

  /** One block read, against any schedule of the FIFO: a full FIFO is not an error here, it is
      only cleared. On success the words are those of the block, and none was lost. */
  method ReadWords(host: Host, lba: word, swap: bool) returns (ok: bool, words: seq<word>)
    requires Valid(host.cfg, host.s) && host.s.pending == {}
    requires host.cfg.sdhc || lba * 512 < 0x1_0000_0000
    modifies host
    ensures Valid(host.cfg, host.s) && host.s.pending == {} && host.s.content == old(host.s.content)
    ensures |words| <= 128 && (ok ==> lba in host.s.content && words == AllOrdered(swap, host.s.content[lba]))
  {
    hide Valid, Advanced, DataCleared, Popped, Started, Reads, Untouched, Swab, AllOrdered;
    ghost var c, content := host.cfg, host.s.content;
    host.Reset();
    SameContent(c, content, host.s.content);
    ghost var s := host.s;
    host.StartData(if host.cfg.sdhc then lba else lba * 512, false);
    BlockStarted(c, content, lba, s, host.s, swap);
    words := [];
    for spin := 0 to MAX_SPINS
      invariant Reads(c, content, lba, host.s, words, swap) && |words| <= 128
    {
      words := Drain(host, swap, words, content, lba);
      s := host.s;
      ReadsValid(c, content, lba, s, words, swap);
      var _, cmdError := host.CmdEvent();
      TimePassed(c, content, lba, s, host.s, words, swap);
      s := host.s;
      ReadsValid(c, content, lba, s, words, swap);
      if cmdError {
        return false, words;
      }
      var full, error, done := host.DataEvent();
      TimePassed(c, content, lba, s, host.s, words, swap);
      s := host.s;
      ReadsValid(c, content, lba, s, words, swap);
      if error {
        return false, words;
      }
      if done {
        if |words| == 128 {
          TotalHas(c, s, lba);
          BlockComplete(c, content, lba, s, words, swap);
        }
        return |words| == 128, words;
      }
      if full {
        host.ClearDataEvent();
        TimePassed(c, content, lba, s, host.s, words, swap);
      }
    }
    ReadsValid(c, content, lba, host.s, words, swap);
    return false, words;
  }

  lemma TotalHas(c: Config, s: Hw, lba: word)
    requires Valid(c, s)
    ensures lba in s.content
  {
  }
}
