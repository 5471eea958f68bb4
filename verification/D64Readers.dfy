/** The three independent readers of a D64 image: the directory lister
    (tools/d64/list_d64.py), the PRG extractor (tools/d64/extract_prg.py) and the
    chain reader of the virtual 1541 (tools/virtual_1541/c64_1541_uart_gui.py). */
module D64Readers {
  import opened Bytes
  import opened D64Geometry

  datatype Error =
    | InvalidSector
    | ShortSector
    | IndexOutOfRange
    | DirectoryLoop
    | ChainLoop
    | ChainTooLong
    | NoLoadAddress

  const MAX_BLOCKS := 683

  // ---------------------------------------------------------------- sectors

  /** list_d64 and the virtual 1541 insist on a whole sector. */
  function ReadWholeSector(data: seq<byte>, p: Pos): Result<seq<byte>, Error> {
    var off := ByteOffset(p);
    if off == INVALID_INDEX then Err(InvalidSector)
    else
      var sec := Slice(data, off, off + SECTOR_SIZE);
      if |sec| != SECTOR_SIZE then Err(ShortSector) else Ok(sec)
  }

  /** extract_prg takes whatever the slice yields, then indexes bytes 0 and 1. */
  function ReadAnySector(data: seq<byte>, p: Pos): (r: Result<seq<byte>, Error>)
    ensures r.Ok? ==> 2 <= |r.value| <= SECTOR_SIZE
  {
    var off := ByteOffset(p);
    if off == INVALID_INDEX then Err(InvalidSector)
    else
      var sec := Slice(data, off, off + SECTOR_SIZE);
      if |sec| < 2 then Err(IndexOutOfRange) else Ok(sec)
  }

  /** On a full image both kinds of read agree with the sector map. */
  lemma FullImageReads(data: seq<byte>, p: Pos)
    requires |data| == D64_SIZE
    ensures OnDisk(p) ==>
              && SectorIndex(p) < D64_SECTORS
              && ReadWholeSector(data, p) == Ok(SectorAt(data, SectorIndex(p)))
    ensures !OnDisk(p) ==> ReadWholeSector(data, p) == Err(InvalidSector)
    ensures ReadAnySector(data, p) == ReadWholeSector(data, p)
  {
    IndexBijection(p);
  }

  // -------------------------------------------------------------- file chain

  /** The bytes a final sector contributes: `sec[2:last+1]`, nothing below 2. */
  function Tail(sec: seq<byte>): seq<byte>
    requires 2 <= |sec|
  {
    if sec[1] < 2 then [] else Slice(sec, 2, sec[1] as int + 1)
  }

  function Prepend<T>(out: seq<T>, r: Result<seq<T>, Error>): Result<seq<T>, Error> {
    match r
    case Ok(b) => Ok(out + b)
    case Err(e) => Err(e)
  }

  lemma PrependTwice<T>(a: seq<T>, b: seq<T>, r: Result<seq<T>, Error>)
    ensures Prepend(a, Prepend(b, r)) == Prepend(a + b, r)
    ensures Prepend([], r) == r
  {
    if r.Ok? {
      assert a + (b + r.value) == a + b + r.value;
      assert [] + r.value == r.value;
    }
  }

  /** What extract_prg reads from `p` on after `count` full sectors. */
  function FollowFrom(data: seq<byte>, p: Pos, count: nat): Result<seq<byte>, Error>
    decreases MAX_BLOCKS - count
  {
    if count >= MAX_BLOCKS then Err(ChainTooLong)
    else
      match ReadAnySector(data, p)
      case Err(e) => Err(e)
      case Ok(sec) =>
        if sec[0] == 0 then Ok(Tail(sec))
        else Prepend(sec[2..], FollowFrom(data, Pos(sec[0], sec[1]), count + 1))
  }

  lemma FollowUnrolled(data: seq<byte>, p: Pos, count: nat)
    ensures var s := ReadAnySector(data, p);
            FollowFrom(data, p, count) ==
            if count >= MAX_BLOCKS then Err(ChainTooLong)
            else if s.Err? then Err(s.error)
            else if s.value[0] == 0 then Ok(Tail(s.value))
            else Prepend(s.value[2..], FollowFrom(data, Pos(s.value[0], s.value[1]), count + 1))
  {
    hide ReadAnySector, Tail, Prepend;
  }

  method FollowChain(data: seq<byte>, start: Pos) returns (r: Result<seq<byte>, Error>)
    ensures r == FollowFrom(data, start, 0)
  {
    hide FollowFrom, ReadAnySector, Tail;
    var out: seq<byte> := [];
    var count := 0;
    var p := start;
    ghost var whole := FollowFrom(data, start, 0);
    PrependTwice([], [], whole);
    while true
      invariant count <= MAX_BLOCKS
      invariant whole == Prepend(out, FollowFrom(data, p, count))
      decreases MAX_BLOCKS - count
    {
      FollowUnrolled(data, p, count);
      if count >= MAX_BLOCKS {
        return Err(ChainTooLong);
      }
      var s := ReadAnySector(data, p);
      if s.Err? {
        return Err(s.error);
      }
      var sec := s.value;
      if sec[0] == 0 {
        return Ok(out + Tail(sec));
      }
      PrependTwice(out, sec[2..], FollowFrom(data, Pos(sec[0], sec[1]), count + 1));
      out := out + sec[2..];
      p := Pos(sec[0], sec[1]);
      count := count + 1;
    }
  }

  /** What the virtual 1541 reads from `p` on, given the positions already seen, one
      for each iteration already made, and the bytes already collected. */
  function PrgFrom(data: seq<byte>, p: Pos, seen: set<Pos>, out: seq<byte>): Result<seq<byte>, Error>
    decreases MAX_BLOCKS - |seen|
  {
    if |seen| >= MAX_BLOCKS then Err(ChainTooLong)
    else if p in seen then Err(ChainLoop)
    else
      match ReadWholeSector(data, p)
      case Err(e) => Err(e)
      case Ok(sec) =>
        if sec[0] == 0 then
          if |out + Tail(sec)| < 2 then Err(NoLoadAddress) else Ok(out + Tail(sec))
        else PrgFrom(data, Pos(sec[0], sec[1]), seen + {p}, out + sec[2..])
  }

  method FollowPrgChain(data: seq<byte>, start: Pos) returns (r: Result<seq<byte>, Error>)
    ensures r == PrgFrom(data, start, {}, [])
  {
    var out: seq<byte> := [];
    var seen: set<Pos> := {};
    var p := start;
    for i := 0 to 683
      invariant PrgFrom(data, start, {}, []) == PrgFrom(data, p, seen, out) && |seen| == i
    {
      if p in seen {
        return Err(ChainLoop);
      }
      seen := seen + {p};
      var s := ReadWholeSector(data, p);
      if s.Err? {
        return Err(s.error);
      }
      var sec := s.value;
      if sec[0] == 0 {
        ghost var before := out;
        if sec[1] >= 2 {
          out := out + Slice(sec, 2, sec[1] as int + 1);
        }
        assert out == before + Tail(sec);
        if |out| < 2 {
          return Err(NoLoadAddress);
        }
        return Ok(out);
      }
      out := out + sec[2..];
      p := Pos(sec[0], sec[1]);
    }
    return Err(ChainTooLong);
  }

  /** The sector a position on a full image names, and the link it holds. */
  ghost function Here(data: seq<byte>, p: Pos): (sec: seq<byte>)
    requires |data| == D64_SIZE && OnDisk(p)
    ensures |sec| == SECTOR_SIZE
    ensures ReadWholeSector(data, p) == ReadAnySector(data, p) == Ok(sec)
  {
    FullImageReads(data, p);
    SectorAt(data, SectorIndex(p))
  }

  ghost function Next(data: seq<byte>, p: Pos): Pos
    requires |data| == D64_SIZE && OnDisk(p)
  {
    Pos(Here(data, p)[0], Here(data, p)[1])
  }

  /** The first `n` sectors of the chain that starts at `p`. */
  ghost function ChainFrom(data: seq<byte>, p: Pos, n: nat): seq<Pos>
    requires |data| == D64_SIZE
    decreases n
  {
    if n == 0 || !OnDisk(p) then []
    else [p] + if Next(data, p).track == 0 then [] else ChainFrom(data, Next(data, p), n - 1)
  }

  /** The chain from `p` is a sound chain of exactly `n + 1` sectors. */
  ghost predicate Ends(data: seq<byte>, p: Pos, n: nat)
    requires |data| == D64_SIZE
    decreases n
  {
    && OnDisk(p)
    && if n == 0 then Next(data, p).track == 0
       else Next(data, p).track != 0 && Ends(data, Next(data, p), n - 1)
  }

  ghost predicate EndsAfter(data: seq<byte>, p: Pos, n: int)
    requires |data| == D64_SIZE
  {
    exists m: nat :: m > n && Ends(data, p, m)
  }

  lemma {:induction false} EndsOnce(data: seq<byte>, p: Pos, m: nat, n: nat)
    requires |data| == D64_SIZE && Ends(data, p, m) && Ends(data, p, n)
    ensures m == n
    decreases m
  {
    if m > 0 && n > 0 {
      EndsOnce(data, Next(data, p), m - 1, n - 1);
    }
  }

  /** Positions passed earlier on a chain that ends lie further from its end, so the
      current position is not one of them. */
  lemma NotSeen(data: seq<byte>, p: Pos, n: nat, seen: set<Pos>)
    requires |data| == D64_SIZE && Ends(data, p, n)
    requires forall q <- seen :: EndsAfter(data, q, n)
    ensures p !in seen
    ensures forall q <- seen + {p} :: EndsAfter(data, q, n - 1)
  {
    if p in seen {
      var m: nat :| m > n && Ends(data, p, m);
      EndsOnce(data, p, m, n);
    }
    forall q <- seen + {p} ensures EndsAfter(data, q, n - 1) {
      if q != p {
        var m: nat :| m > n && Ends(data, q, m);
      }
    }
  }

  lemma EndsOnDisk(data: seq<byte>, q: Pos, n: int)
    requires |data| == D64_SIZE && EndsAfter(data, q, n)
    ensures OnDisk(q) && SectorIndex(q) < D64_SECTORS
  {
    var m: nat :| m > n && Ends(data, q, m);
    IndexBijection(q);
  }

  lemma OnChains(data: seq<byte>, s: set<Pos>, n: int)
    requires |data| == D64_SIZE && forall q <- s :: EndsAfter(data, q, n)
    ensures |s| <= MAX_BLOCKS
  {
    hide SectorIndex, EndsAfter;
    forall q <- s ensures OnDisk(q) && SectorIndex(q) < D64_SECTORS {
      EndsOnDisk(data, q, n);
    }
    AtMost683(s, D64_SECTORS);
  }

  /** Pigeonhole: a chain that ends visits each of the 683 sectors at most once. */
  lemma {:induction false} EndsWithin683(data: seq<byte>, p: Pos, n: nat, seen: set<Pos>)
    requires |data| == D64_SIZE && Ends(data, p, n)
    requires forall q <- seen :: EndsAfter(data, q, n)
    ensures n + |seen| < MAX_BLOCKS
    decreases n
  {
    hide EndsAfter, OnDisk, Next;
    NotSeen(data, p, n, seen);
    if n > 0 {
      EndsWithin683(data, Next(data, p), n - 1, seen + {p});
    } else {
      OnChains(data, seen + {p}, -1);
      assert |seen + {p}| == |seen| + 1;
    }
  }

  lemma {:induction false} FollowThenEnds(data: seq<byte>, p: Pos, count: nat) returns (n: nat)
    requires |data| == D64_SIZE && FollowFrom(data, p, count).Ok?
    ensures n + count < MAX_BLOCKS && Ends(data, p, n)
    decreases MAX_BLOCKS - count
  {
    FullImageReads(data, p);
    if Next(data, p).track == 0 {
      n := 0;
    } else {
      n := FollowThenEnds(data, Next(data, p), count + 1);
      n := n + 1;
    }
  }

  lemma {:induction false} EndsThenFollow(data: seq<byte>, p: Pos, count: nat, n: nat)
    requires |data| == D64_SIZE && n + count < MAX_BLOCKS && Ends(data, p, n)
    ensures FollowFrom(data, p, count).Ok?
    decreases n
  {
    if n > 0 {
      EndsThenFollow(data, Next(data, p), count + 1, n - 1);
    }
  }

  /** The 683-block limit of extract_prg is exact: it accepts precisely the chains
      that end, so it never cuts off a chain that would have ended. */
  lemma LimitIsExact(data: seq<byte>, p: Pos)
    requires |data| == D64_SIZE
    ensures FollowFrom(data, p, 0).Ok? <==> EndsAfter(data, p, -1)
  {
    if FollowFrom(data, p, 0).Ok? {
      var n := FollowThenEnds(data, p, 0);
    }
    if EndsAfter(data, p, -1) {
      var n: nat :| n > -1 && Ends(data, p, n);
      EndsWithin683(data, p, n, {});
      EndsThenFollow(data, p, 0, n);
    }
  }

  /** The virtual 1541's last check. */
  function Finish(r: Result<seq<byte>, Error>): Result<seq<byte>, Error> {
    if r.Ok? && |r.value| < 2 then Err(NoLoadAddress) else r
  }

  /** One sector of either reader. */
  lemma BothStep(data: seq<byte>, p: Pos, seen: set<Pos>, out: seq<byte>)
    requires |data| == D64_SIZE && OnDisk(p) && p !in seen && |seen| < MAX_BLOCKS
    ensures |seen + {p}| == |seen| + 1
    ensures var (sec, follow, prg) := (Here(data, p), FollowFrom(data, p, |seen|), PrgFrom(data, p, seen, out));
            if Next(data, p).track == 0 then
              Prepend(out, follow) == Ok(out + Tail(sec)) && prg == Finish(Ok(out + Tail(sec)))
            else
              && follow == Prepend(sec[2..], FollowFrom(data, Next(data, p), |seen| + 1))
              && prg == PrgFrom(data, Next(data, p), seen + {p}, out + sec[2..])
  {
    hide ReadWholeSector, ReadAnySector, Tail;
  }

  /** On a chain that ends, the seen set and the two accumulators do not matter. */
  lemma {:induction false} PrgOnEndingChain(data: seq<byte>, p: Pos, n: nat, seen: set<Pos>, out: seq<byte>)
    requires |data| == D64_SIZE && n + |seen| < MAX_BLOCKS && Ends(data, p, n)
    requires forall q <- seen :: EndsAfter(data, q, n)
    ensures PrgFrom(data, p, seen, out) == Finish(Prepend(out, FollowFrom(data, p, |seen|)))
    decreases n
  {
    hide ReadWholeSector, ReadAnySector, Tail, PrgFrom, FollowFrom, Prepend, EndsAfter, Here;
    NotSeen(data, p, n, seen);
    BothStep(data, p, seen, out);
    var sec := Here(data, p);
    if n > 0 {
      PrgOnEndingChain(data, Next(data, p), n - 1, seen + {p}, out + sec[2..]);
      PrependTwice(out, sec[2..], FollowFrom(data, Next(data, p), |seen| + 1));
    }
  }

  /** Whatever the virtual 1541 accepts, or rejects only for its length, ends. */
  lemma {:induction false} PrgThenEnds(data: seq<byte>, p: Pos, seen: set<Pos>, out: seq<byte>) returns (n: nat)
    requires |data| == D64_SIZE
    requires PrgFrom(data, p, seen, out).Ok? || PrgFrom(data, p, seen, out) == Err(NoLoadAddress)
    ensures n + |seen| < MAX_BLOCKS && Ends(data, p, n)
    decreases MAX_BLOCKS - |seen|
  {
    FullImageReads(data, p);
    if Next(data, p).track == 0 {
      n := 0;
    } else {
      n := PrgThenEnds(data, Next(data, p), seen + {p}, out + Here(data, p)[2..]);
      n := n + 1;
    }
  }

  /** On every full image and from every start the two chain readers return the same
      bytes or both fail; the only difference is the virtual 1541's check that a PRG
      has its two load-address bytes. */
  lemma ChainReadersAgree(data: seq<byte>, start: Pos)
    requires |data| == D64_SIZE
    ensures var a, b := FollowFrom(data, start, 0), PrgFrom(data, start, {}, []);
            && (b.Ok? <==> a.Ok? && |a.value| >= 2)
            && (b.Ok? ==> a == b)
            && (a.Ok? && |a.value| < 2 <==> b == Err(NoLoadAddress))
  {
    hide FollowFrom, PrgFrom;
    var a, b := FollowFrom(data, start, 0), PrgFrom(data, start, {}, []);
    PrependTwice([], [], a);
    if b.Ok? || b == Err(NoLoadAddress) {
      var n := PrgThenEnds(data, start, {}, []);
      EndsThenFollow(data, start, 0, n);
      PrgOnEndingChain(data, start, n, {}, []);
    }
    if a.Ok? {
      var n := FollowThenEnds(data, start, 0);
      PrgOnEndingChain(data, start, n, {}, []);
    }
  }

  // --------------------------------------------------------------- directory

  datatype Entry = Entry(typeByte: byte, kind: string, closed: bool, first: Pos, name: string, blocks: nat)

  function FileType(t: nat): string {
    if t == 0 then "DEL" else if t == 1 then "SEQ" else if t == 2 then "PRG"
    else if t == 3 then "USR" else if t == 4 then "REL" else "???"
  }

  function RStripA0(raw: seq<byte>): seq<byte> {
    if raw != [] && raw[|raw| - 1] == 0xA0 then RStripA0(raw[..|raw| - 1]) else raw
  }

  function Printable(b: byte): char {
    if 0x20 <= b < 0x7F then b as char else '.'
  }

  function DecodeName(raw: seq<byte>): string {
    var name := RStripA0(raw);
    seq(|name|, i requires 0 <= i < |name| => Printable(name[i]))
  }

  function DecodeEntry(e: seq<byte>): Entry
    requires 30 <= |e| <= 32
  {
    var blocks := Word(e[28], e[29]);
    Entry(e[0], FileType(e[0] % 8), e[0] >= 0x80, Pos(e[1], e[2]), DecodeName(e[3..19]),
          if blocks == 0 && |e| >= 32 then Word(e[30], e[31]) else blocks)
  }

  /** Slot `j` of a directory sector; the eighth is cut to 30 bytes. */
  function Slot(sec: seq<byte>, j: nat): seq<byte>
    requires |sec| == SECTOR_SIZE && j < 8
    ensures 30 <= |Slot(sec, j)| <= 32
  {
    Slice(sec, 2 + j * 32, 2 + j * 32 + 32)
  }

  function Slots(sec: seq<byte>): seq<seq<byte>>
    requires |sec| == SECTOR_SIZE
  {
    seq(8, j requires 0 <= j < 8 => Slot(sec, j))
  }

  /** The entries in a run of slots: those whose type byte is not zero. */
  function SlotEntries(slots: seq<seq<byte>>): seq<Entry>
    requires forall e <- slots :: 30 <= |e| <= 32
  {
    if slots == [] then []
    else (if slots[0][0] == 0 then [] else [DecodeEntry(slots[0])]) + SlotEntries(slots[1..])
  }

  function SectorEntries(sec: seq<byte>): seq<Entry>
    requires |sec| == SECTOR_SIZE
  {
    SlotEntries(Slots(sec))
  }

  function EntriesFrom(data: seq<byte>, p: Pos, seen: set<Pos>): Result<seq<Entry>, Error>
    decreases AllPositions() - seen
  {
    if p.track == 0 then Ok([])
    else if p in seen then Err(DirectoryLoop)
    else
      match ReadWholeSector(data, p)
      case Err(e) => Err(e)
      case Ok(sec) =>
        AllPositionsExact(p);
        IndexBijection(p);
        Prepend(SectorEntries(sec), EntriesFrom(data, Pos(sec[0], sec[1]), seen + {p}))
  }

  function Listing(data: seq<byte>): Result<seq<Entry>, Error> {
    EntriesFrom(data, Pos(DIR_TRACK, 1), {})
  }

  lemma SlotsAre(sec: seq<byte>)
    requires |sec| == SECTOR_SIZE
    ensures |Slots(sec)| == 8 && forall j: nat :: j < 8 ==> Slots(sec)[j] == Slot(sec, j)
    ensures Slots(sec)[0..] == Slots(sec) && SlotEntries(Slots(sec)[8..]) == []
  {
    hide Slot, DecodeEntry;
  }

  lemma SlotStep(slots: seq<seq<byte>>, j: nat)
    requires j < |slots| && forall e <- slots :: 30 <= |e| <= 32
    ensures SlotEntries(slots[j..]) ==
            (if slots[j][0] == 0 then [] else [DecodeEntry(slots[j])]) + SlotEntries(slots[j + 1..])
  {
    hide DecodeEntry;
    assert slots[j..][1..] == slots[j + 1..];
  }

  method ListSector(sec: seq<byte>) returns (found: seq<Entry>)
    requires |sec| == SECTOR_SIZE
    ensures found == SectorEntries(sec)
  {
    hide DecodeEntry, Slot, Slots, SlotEntries;
    found := [];
    ghost var slots := Slots(sec);
    SlotsAre(sec);
    for j := 0 to 8
      invariant found + SlotEntries(slots[j..]) == SlotEntries(slots)
    {
      var entry := Slot(sec, j);
      SlotStep(slots, j);
      if entry[0] != 0 {
        found := found + [DecodeEntry(entry)];
      }
    }
  }

  /** list_d64.iter_entries, run to exhaustion as D64Drive.mount does. */
  method IterEntries(data: seq<byte>) returns (r: Result<seq<Entry>, Error>)
    ensures r == Listing(data)
  {
    var p := Pos(DIR_TRACK, 1);
    var seen: set<Pos> := {};
    var found: seq<Entry> := [];
    PrependTwice([], [], Listing(data));
    while p.track != 0
      invariant Listing(data) == Prepend(found, EntriesFrom(data, p, seen))
      decreases AllPositions() - seen
    {
      if p in seen {
        return Err(DirectoryLoop);
      }
      AllPositionsExact(p);
      IndexBijection(p);
      var s := ReadWholeSector(data, p);
      if s.Err? {
        return Err(s.error);
      }
      seen := seen + {p};
      var sec := s.value;
      var here := ListSector(sec);
      PrependTwice(found, here, EntriesFrom(data, Pos(sec[0], sec[1]), seen));
      found := found + here;
      p := Pos(sec[0], sec[1]);
    }
    assert found + [] == found;
    return Ok(found);
  }
}
