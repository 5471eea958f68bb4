/** The block allocator of D64Builder is a bump counter over the data sectors in index
    order; everything it records follows from how many blocks it has handed out. */
module D64Allocator {
  import opened Bytes
  import opened D64Geometry
  import opened D64Layout

  const LAST_TRACK := 35

  /** Data sectors on the tracks before `track`. */
  function Base(track: int): nat
    requires 1 <= track <= 36
  {
    if track <= 18 then (track - 1) * 21
    else if track <= 24 then 357 + (track - 19) * 19
    else if track <= 30 then 471 + (track - 25) * 18
    else if track <= 35 then 579 + (track - 31) * 17
    else 664
  }

  function Clamp(x: int, limit: nat): nat { if x < 0 then 0 else if x > limit then limit else x }

  /** Sectors of a data track among the first `n` blocks. */
  function Handed(track: int, n: nat): nat
    requires 1 <= track <= 35
  {
    Clamp(n - Base(track), SectorsPerTrack(track))
  }

  /** Is `p` among the first `n` data blocks or the first `d` sectors of track 18? */
  predicate IsUsed(p: Pos, n: nat, d: nat) {
    && OnDisk(p)
    && if p.track == DIR_TRACK then p.sector < d else p.sector < Handed(p.track, n)
  }

  ghost predicate Allocated(next: map<int, nat>, used: set<Pos>, n: nat, d: nat) {
    && n <= DATA_SECTORS && d <= 19
    && (forall t: int | 1 <= t <= 35 :: t in next && (t != DIR_TRACK ==> next[t] == Handed(t, n)))
    && (forall p: Pos :: p in used <==> IsUsed(p, n, d))
  }

  /** The tracks `_alloc_block` searches, in order. */
  function DataTrack(i: nat): (t: byte)
    requires i < 34
  {
    if i < 17 then i + 1 else i + 2
  }

  function DataBase(i: nat): nat
    requires i <= 34
  {
    if i < 34 then Base(DataTrack(i)) else DATA_SECTORS
  }

  lemma DataBaseStep(i: nat)
    requires i < 34
    ensures DataTrack(i) != DIR_TRACK && 1 <= DataTrack(i) <= 35
    ensures DataBase(i + 1) == Base(DataTrack(i)) + SectorsPerTrack(DataTrack(i))
    ensures DataBase(i) == Base(DataTrack(i))
  {
  }

  lemma BasePlusSector(p: Pos)
    requires OnDisk(p) && p.track != DIR_TRACK
    ensures DataNumber(p) == Base(p.track) + p.sector
  {
  }

  /** The first track with room yields exactly block number `n`. */
  lemma HandOut(next: map<int, nat>, used: set<Pos>, n: nat, d: nat, i: nat)
    requires Allocated(next, used, n, d) && i < 34
    requires DataBase(i) <= n && next[DataTrack(i)] < SectorsPerTrack(DataTrack(i))
    ensures n < DATA_SECTORS
    ensures var t := DataTrack(i);
            var p := Pos(t, next[t]);
            && p == DataPos(n)
            && Allocated(next[t := next[t] + 1], used + {p}, n + 1, d)
  {
    hide DataPos, DataNumber, Base, Handed, SectorsPerTrack, DataTrack, DataBase;
    var t := DataTrack(i);
    NextFree(next, used, n, d, i);
    var p := Pos(t, next[t]);
    BasePlusSector(p);
    DataPosInverse(p);
    var next2 := next[t := next[t] + 1];
    forall u: int | 1 <= u <= 35 && u != DIR_TRACK ensures next2[u] == Handed(u, n + 1) {
      OtherTrack(i, u, n);
    }
    forall q: Pos ensures q in used + {p} <==> IsUsed(q, n + 1, d) {
      OneMoreUsed(q, p, n, d, i);
    }
  }

  lemma NextFree(next: map<int, nat>, used: set<Pos>, n: nat, d: nat, i: nat)
    requires Allocated(next, used, n, d) && i < 34
    requires DataBase(i) <= n && next[DataTrack(i)] < SectorsPerTrack(DataTrack(i))
    ensures var t := DataTrack(i);
            && 1 <= t <= 35 && t != DIR_TRACK && next[t] == n - Base(t) == Handed(t, n)
            && next[t] < 256 && n < Base(t) + SectorsPerTrack(t) <= DATA_SECTORS
  {
    hide IsUsed;
    DataBaseStep(i);
  }

  lemma OneMoreUsed(q: Pos, p: Pos, n: nat, d: nat, i: nat)
    requires i < 34 && p.track == DataTrack(i) && p.track != DIR_TRACK && 1 <= p.track <= 35
    requires p.sector == n - Base(p.track) && Base(p.track) <= n < Base(p.track) + SectorsPerTrack(p.track)
    ensures IsUsed(q, n + 1, d) <==> IsUsed(q, n, d) || q == p
  {
    hide Base, DataTrack, SectorsPerTrack;
    if q.track != DIR_TRACK && OnDisk(q) {
      OnDiskTrack(q);
      OtherTrack(i, q.track, n);
    }
    OnDiskTrack(p);
  }

  lemma OnDiskTrack(q: Pos)
    ensures q.sector < SectorsPerTrack(q.track) ==> 1 <= q.track <= 35
  {
  }

  lemma OtherTrack(i: nat, u: int, n: nat)
    requires i < 34 && 1 <= u <= 35 && u != DIR_TRACK
    requires Base(DataTrack(i)) <= n < Base(DataTrack(i)) + SectorsPerTrack(DataTrack(i))
    ensures u != DataTrack(i) ==> Handed(u, n + 1) == Handed(u, n)
    ensures u == DataTrack(i) ==> Handed(u, n + 1) == Handed(u, n) + 1 == n - Base(u) + 1
  {
  }

  // ---------------------------------------------------------- free block count

  /** Sum of the BAM's free bytes over tracks 1..t. */
  function FreeUpTo(bam: seq<byte>, t: nat): nat
    requires |bam| == SECTOR_SIZE && t <= 35
  {
    if t == 0 then 0 else FreeUpTo(bam, t - 1) + bam[BamBase(t)]
  }

  lemma {:induction false} CountSuffix(bits: seq<bool>, h: nat)
    requires h <= |bits|
    requires forall s | 0 <= s < |bits| :: bits[s] <==> s >= h
    ensures Count(bits) == |bits| - h
  {
    if bits != [] {
      CountSuffix(bits[1..], if h == 0 then 0 else h - 1);
    }
  }

  lemma {:induction false} FreeSum(bam: seq<byte>, used: set<Pos>, n: nat, d: nat, t: nat)
    requires |bam| == SECTOR_SIZE && IsBam(bam, used)
    requires forall p: Pos :: p in used <==> IsUsed(p, n, d)
    requires n <= DATA_SECTORS && d <= 19 && t <= 35
    ensures FreeUpTo(bam, t) + Clamp(n, Base(t + 1)) + (if t >= 18 then d else 0)
            == Base(t + 1) + (if t >= 18 then 19 else 0)
    decreases t
  {
    if t > 0 {
      hide IsBam, IsUsed, SectorsPerTrack, Base;
      FreeSum(bam, used, n, d, t - 1);
      TrackFree(bam, used, n, d, t);
      BaseStep(t);
    }
  }

  /** A track's free byte. */
  lemma TrackFree(bam: seq<byte>, used: set<Pos>, n: nat, d: nat, t: nat)
    requires |bam| == SECTOR_SIZE && IsBam(bam, used) && 1 <= t <= 35 && d <= 19
    requires forall p: Pos :: p in used <==> IsUsed(p, n, d)
    ensures bam[BamBase(t)] == SectorsPerTrack(t) - if t == DIR_TRACK then d else Handed(t, n)
  {
    hide Base, Count, FromBits;
    assert BamTrack(bam, used, t);
    var h := if t == DIR_TRACK then d else Handed(t, n);
    forall s: nat | s < SectorsPerTrack(t) ensures FreeBits(used, t)[s] <==> s >= h {
      assert Pos(t, s) in used <==> IsUsed(Pos(t, s), n, d);
    }
    CountSuffix(FreeBits(used, t), h);
  }

  lemma BaseStep(t: nat)
    requires 1 <= t <= 35
    ensures Base(t + 1) == Base(t) + if t == 18 then 0 else SectorsPerTrack(t)
    ensures SectorsPerTrack(18) == 19
  {
  }

  // ------------------------------------------------------------------- owners

  /** Block `j` of file `i` lives at data block `Start(prgs, i) + j`. */
  predicate OwnsBlock(prgs: seq<Prg>, i: nat, k: nat) {
    i < |prgs| && Start(prgs, i) <= k < Start(prgs, i) + Blocks(prgs[i])
  }

  lemma {:induction false} StartMonotone(prgs: seq<Prg>, i: nat, j: nat)
    requires i <= j <= |prgs|
    ensures Start(prgs, i) <= Start(prgs, j)
    decreases j
  {
    if i < j {
      StartStep(prgs, j - 1);
      StartMonotone(prgs, i, j - 1);
    }
  }

  /** Every block below the total belongs to exactly one file. */
  lemma {:induction false} OneOwner(prgs: seq<Prg>, k: nat)
    ensures k < TotalBlocks(prgs) <==> exists i: nat :: OwnsBlock(prgs, i, k)
    ensures forall i: nat, j: nat :: OwnsBlock(prgs, i, k) && OwnsBlock(prgs, j, k) ==> i == j
  {
    forall i: nat, j: nat | OwnsBlock(prgs, i, k) && OwnsBlock(prgs, j, k) && i < j ensures false {
      StartStep(prgs, i);
      StartMonotone(prgs, i + 1, j);
    }
    forall i: nat | OwnsBlock(prgs, i, k) ensures k < TotalBlocks(prgs) {
      StartStep(prgs, i);
    }
    if k < TotalBlocks(prgs) {
      var i := FindOwner(prgs, k);
    }
  }

  lemma {:induction false} FindOwner(prgs: seq<Prg>, k: nat) returns (i: nat)
    requires k < TotalBlocks(prgs)
    ensures OwnsBlock(prgs, i, k)
  {
    var n := |prgs| - 1;
    StartStep(prgs, n);
    assert prgs[..n + 1] == prgs;
    if k < Start(prgs, n) {
      i := FindOwner(prgs[..n], k);
      assert prgs[..n][..i] == prgs[..i];
    } else {
      i := n;
    }
  }
}
