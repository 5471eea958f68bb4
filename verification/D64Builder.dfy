/** The in-place image builder (tools/d64/create_test_d64.py). */
module D64Builder {
  import opened Bytes
  import opened D64Geometry
  import opened D64Layout
  import opened D64Allocator
  import opened D64Readers
  import opened D64RoundTrip

  const TRACKS := set t: int | 1 <= t <= 35

  /** Every file of `prgs` is stored at its place. */
  ghost predicate FilesStored(img: seq<byte>, prgs: seq<Prg>)
    requires |img| == D64_SIZE
  {
    forall i: nat :: i < |prgs| ==> Stored(img, Body(prgs[i]), Start(prgs, i))
  }

  lemma SpliceSector(img: seq<byte>, index: nat, payload: seq<byte>, other: nat)
    requires |img| == D64_SIZE && |payload| == SECTOR_SIZE
    requires index < D64_SECTORS && other < D64_SECTORS
    ensures SectorAt(Splice(img, index * SECTOR_SIZE, payload), other)
            == if other == index then payload else SectorAt(img, other)
  {
    if other < index {
      assert (other + 1) * SECTOR_SIZE <= index * SECTOR_SIZE;
    } else if other > index {
      assert (index + 1) * SECTOR_SIZE <= other * SECTOR_SIZE;
    }
    SpliceReads(img, index * SECTOR_SIZE, payload, other * SECTOR_SIZE, (other + 1) * SECTOR_SIZE);
  }

  /** The first `n` data sectors are the same in both images. */
  ghost predicate SameBlocks(a: seq<byte>, b: seq<byte>, n: nat)
    requires |a| == |b| == D64_SIZE && n <= DATA_SECTORS
  {
    forall k: nat :: k < n ==> SectorAt(a, DataIndex(k)) == SectorAt(b, DataIndex(k))
  }

  /** The data sectors from number `n` on, and the sectors of track 18 behind the first `d` of the
      directory, are blank. */
  ghost predicate Unused(img: seq<byte>, n: nat, d: nat)
    requires |img| == D64_SIZE
  {
    && (forall k: nat :: n <= k < DATA_SECTORS ==> SectorAt(img, DataIndex(k)) == Zeros(SECTOR_SIZE))
    && forall k: nat :: BAM_INDEX + d < k < 376 ==> SectorAt(img, k) == Zeros(SECTOR_SIZE)
  }

  /** Data sectors from number `n` on are the same, and so are the sectors of track 18 behind the
      first `d` of the directory. */
  ghost predicate SameRest(a: seq<byte>, b: seq<byte>, n: nat, d: nat)
    requires |a| == |b| == D64_SIZE
  {
    && (forall k: nat :: n <= k < DATA_SECTORS ==> SectorAt(a, DataIndex(k)) == SectorAt(b, DataIndex(k)))
    && forall k: nat :: BAM_INDEX + d < k < 376 ==> SectorAt(a, k) == SectorAt(b, k)
  }

  /** Writing data block `n`, or directory sector `d`, leaves the rest behind it alone. */
  lemma RestKept(base: seq<byte>, before: seq<byte>, after: seq<byte>, payload: seq<byte>, index: nat, n: nat, d: nat)
    requires |base| == |before| == |after| == D64_SIZE && |payload| == SECTOR_SIZE && index < D64_SECTORS
    requires SameRest(base, before, n, d) && after == Splice(before, index * SECTOR_SIZE, payload)
    ensures n < DATA_SECTORS && index == DataIndex(n) ==> SameRest(base, after, n + 1, d)
    ensures index == BAM_INDEX + d + 1 < 376 ==> SameRest(base, after, n, d + 1)
  {
    hide SectorAt;
    forall k: nat | k < D64_SECTORS && k != index ensures SectorAt(after, k) == SectorAt(before, k) {
      SpliceSector(before, index, payload, k);
    }
  }

  lemma RestBut(a: seq<byte>, b: seq<byte>, n: nat, d: nat)
    requires |a| == |b| == D64_SIZE && SameBut(a, b, BAM_INDEX)
    ensures SameRest(a, b, n, d)
  {
    hide SectorAt;
  }

  lemma AllBlank(img: seq<byte>)
    requires |img| == D64_SIZE && forall k :: 0 <= k < |img| ==> img[k] == 0
    ensures Unused(img, 0, 0)
  {
  }

  lemma StillUnused(a: seq<byte>, b: seq<byte>, n: nat, d: nat, m: nat, e: nat)
    requires |a| == |b| == D64_SIZE && Unused(a, n, d) && SameRest(a, b, m, e) && n <= m && d <= e
    ensures Unused(b, m, e)
  {
    hide SectorAt;
  }

  /** The images differ in sector `index` at most. */
  ghost predicate SameBut(a: seq<byte>, b: seq<byte>, index: nat)
    requires |a| == |b| == D64_SIZE
  {
    forall k: nat :: k < D64_SECTORS && k != index ==> SectorAt(a, k) == SectorAt(b, k)
  }

  lemma StoredKept(a: seq<byte>, b: seq<byte>, n: nat, body: seq<byte>, first: nat)
    requires |a| == |b| == D64_SIZE && n <= DATA_SECTORS && SameBlocks(a, b, n)
    requires Stored(a, body, first) && first + BlocksFor(|body|) <= n
    ensures Stored(b, body, first)
  {
    hide SectorAt, BlockBytes, DataIndex;
  }

  lemma FilesKept(a: seq<byte>, b: seq<byte>, prgs: seq<Prg>)
    requires |a| == |b| == D64_SIZE && TotalBlocks(prgs) <= DATA_SECTORS
    requires FilesStored(a, prgs) && SameBlocks(a, b, TotalBlocks(prgs))
    ensures FilesStored(b, prgs)
  {
    hide Stored, SameBlocks, TotalBlocks;
    forall i: nat | i < |prgs| ensures Stored(b, Body(prgs[i]), Start(prgs, i)) {
      StartStep(prgs, i);
      StoredKept(a, b, TotalBlocks(prgs), Body(prgs[i]), Start(prgs, i));
    }
  }

  lemma FileAdded(img: seq<byte>, prgs: seq<Prg>, f: Prg)
    requires |img| == D64_SIZE && FilesStored(img, prgs) && Stored(img, Body(f), TotalBlocks(prgs))
    requires TotalBlocks(prgs) + Blocks(f) <= DATA_SECTORS
    ensures FilesStored(img, prgs + [f])
    ensures TotalBlocks(prgs + [f]) == TotalBlocks(prgs) + Blocks(f)
    ensures DirEntries(prgs + [f]) == DirEntries(prgs) + [DirEntry(f, TotalBlocks(prgs))]
  {
    hide Stored, DirEntry, Body, TotalBlocks, Blocks;
    StartsKept(prgs, f);
    var all := prgs + [f];
    forall i: nat | i < |all| ensures Stored(img, Body(all[i]), Start(all, i)) {
      if i < |prgs| {
        assert all[i] == prgs[i];
      }
    }
  }

  lemma StartsKept(prgs: seq<Prg>, f: Prg)
    ensures forall i: nat :: i <= |prgs| ==> Start(prgs + [f], i) == Start(prgs, i)
    ensures Start(prgs, |prgs|) == TotalBlocks(prgs)
    ensures TotalBlocks(prgs + [f]) == TotalBlocks(prgs) + Blocks(f)
  {
    hide Blocks;
    var all := prgs + [f];
    assert all[..|prgs|] == prgs && prgs[..|prgs|] == prgs;
    forall i: nat | i <= |prgs| ensures Start(all, i) == Start(prgs, i) {
      assert all[..i] == prgs[..i];
    }
  }

  /** The first `i` blocks of a file are written and no earlier block has changed. */
  ghost predicate Written(base: seq<byte>, img: seq<byte>, body: seq<byte>, first: nat, i: nat)
    requires |base| == |img| == D64_SIZE
  {
    && i <= BlocksFor(|body|) && first + BlocksFor(|body|) <= DATA_SECTORS
    && SameBlocks(base, img, first) && SameRest(base, img, first + i, 0)
    && forall k: nat :: k < i ==> SectorAt(img, DataIndex(first + k)) == BlockBytes(body, first, k)
  }

  lemma BlockIs(body: seq<byte>, first: nat, i: nat)
    requires i < BlocksFor(|body|) && first + BlocksFor(|body|) <= DATA_SECTORS
    ensures LinkedSector(if i + 1 < BlocksFor(|body|) then DataPos(first + i + 1)
                         else Pos(0, |Chunk(body, i)| + 1), Chunk(body, i))
            == BlockBytes(body, first, i)
  {
    hide LinkedSector, Chunk, DataPos;
  }

  lemma BlockWritten(base: seq<byte>, before: seq<byte>, after: seq<byte>, body: seq<byte>, first: nat, i: nat)
    requires |base| == |before| == |after| == D64_SIZE && Written(base, before, body, first, i)
    requires i < BlocksFor(|body|)
    requires after == Splice(before, DataIndex(first + i) * SECTOR_SIZE, BlockBytes(body, first, i))
    ensures Written(base, after, body, first, i + 1)
  {
    hide SectorAt, BlockBytes;
    forall k: nat | k < first ensures SectorAt(base, DataIndex(k)) == SectorAt(after, DataIndex(k)) {
      SpliceSector(before, DataIndex(first + i), BlockBytes(body, first, i), DataIndex(k));
    }
    forall k: nat | k < i + 1 ensures SectorAt(after, DataIndex(first + k)) == BlockBytes(body, first, k) {
      SpliceSector(before, DataIndex(first + i), BlockBytes(body, first, i), DataIndex(first + k));
    }
    RestKept(base, before, after, BlockBytes(body, first, i), DataIndex(first + i), first + i, 0);
  }

  lemma FileStored(base: seq<byte>, img: seq<byte>, prgs: seq<Prg>, f: Prg, first: nat)
    requires |base| == |img| == D64_SIZE && FilesStored(base, prgs)
    requires first == TotalBlocks(prgs) && first + Blocks(f) <= DATA_SECTORS
    requires Written(base, img, Body(f), first, Blocks(f))
    ensures FilesStored(img, prgs + [f])
    ensures TotalBlocks(prgs + [f]) == first + Blocks(f)
    ensures DirEntries(prgs + [f]) == DirEntries(prgs) + [DirEntry(f, first)]
  {
    hide TotalBlocks, SectorAt, BlockBytes, DirEntries, FilesStored, DataIndex, Body;
    FilesKept(base, img, prgs);
    FileAdded(img, prgs, f);
  }

  lemma FreeMeansPacked(handed: nat, prgs: seq<Prg>, f: Prg)
    requires handed == TotalBlocks(prgs) || handed == DATA_SECTORS
    requires handed + Blocks(f) <= DATA_SECTORS
    ensures handed == TotalBlocks(prgs)
  {
  }

  class Builder {
    var data: array<byte>
    var nextSector: map<int, nat>
    var used: set<Pos>
    var dirEntries: seq<seq<byte>>

    /** The files added so far, and the allocator's two counters. */
    ghost var prgs: seq<Prg>
    ghost var handed: nat
    ghost var dirUsed: nat

    /** Blocks lost to an `add_prg` that ran out of space leave a full disk behind. */
    ghost predicate Valid()
      reads this, data
    {
      && data.Length == D64_SIZE
      && Allocated(nextSector, used, handed, dirUsed)
      && TotalBlocks(prgs) <= handed && (handed == TotalBlocks(prgs) || handed == DATA_SECTORS)
      && FilesStored(data[..], prgs) && Unused(data[..], TotalBlocks(prgs), DirSectors(|prgs|))
      && dirEntries == DirEntries(prgs)
      && (dirUsed <= 1 + DirSectors(|prgs|))
    }

    constructor ()
      ensures Valid() && fresh(data)
      ensures prgs == [] && handed == 0
    {
      data := new byte[D64_SIZE](_ => 0);
      nextSector := map t | t in TRACKS :: 0;
      used := {};
      dirEntries := [];
      prgs, handed, dirUsed := [], 0, 0;
      new;
      AllBlank(data[..]);
    }

    method WriteSector(p: Pos, payload: seq<byte>)
      requires data.Length == D64_SIZE && OnDisk(p) && |payload| == SECTOR_SIZE
      modifies data
      ensures SectorIndex(p) < D64_SECTORS
      ensures data[..] == Splice(old(data[..]), SectorIndex(p) * SECTOR_SIZE, payload)
    {
      IndexBijection(p);
      var off := ByteOffset(p);
      forall i | 0 <= i < SECTOR_SIZE {
        data[off + i] := payload[i];
      }
    }

    /** Next free sector on `track`, or None when the track is full. */
    method Alloc(track: byte) returns (r: Option<byte>)
      requires track in nextSector && 1 <= track <= 35
      modifies this`nextSector, this`used
      ensures r.Some? <==> old(nextSector)[track] < SectorsPerTrack(track)
      ensures r.Some? ==>
                && r.value == old(nextSector)[track]
                && nextSector == old(nextSector)[track := r.value + 1]
                && used == old(used) + {Pos(track, r.value)}
      ensures r.None? ==> nextSector == old(nextSector) && used == old(used)
    {
      var s := nextSector[track];
      if s >= SectorsPerTrack(track) {
        return None;
      }
      nextSector := nextSector[track := s + 1];
      used := used + {Pos(track, s)};
      return Some(s);
    }

    /** First free sector on any data track; the blocks come in data-number order. */
    method AllocBlock() returns (r: Option<Pos>)
      requires Allocated(nextSector, used, handed, dirUsed)
      modifies this`nextSector, this`used, this`handed
      ensures Allocated(nextSector, used, handed, dirUsed)
      ensures r.Some? <==> old(handed) < DATA_SECTORS
      ensures r.Some? ==> r.value == DataPos(old(handed)) && handed == old(handed) + 1
      ensures r.None? ==> handed == old(handed) == DATA_SECTORS
    {
      hide Allocated, DataPos;
      for i := 0 to 34
        invariant Allocated(nextSector, used, handed, dirUsed)
        invariant handed == old(handed) && DataBase(i) <= handed
      {
        var track := DataTrack(i);
        TrackKnown(nextSector, used, handed, dirUsed, i);
        if nextSector[track] < SectorsPerTrack(track) {
          HandOut(nextSector, used, handed, dirUsed, i);
          var s := Alloc(track);
          handed := handed + 1;
          return Some(Pos(track, s.value));
        }
      }
      AtMostAll(nextSector, used, handed, dirUsed);
      return None;
    }

    /** Blocks taken one by one; on failure the disk is full and they stay taken. */
    method AllocBlocks(count: nat) returns (r: Option<seq<Pos>>)
      requires Allocated(nextSector, used, handed, dirUsed)
      modifies this`nextSector, this`used, this`handed
      ensures Allocated(nextSector, used, handed, dirUsed) && old(handed) <= handed <= DATA_SECTORS
      ensures r.Some? <==> old(handed) + count <= DATA_SECTORS
      ensures r.Some? ==>
                && handed == old(handed) + count && |r.value| == count
                && forall i: nat :: i < count ==> r.value[i] == DataPos(old(handed) + i)
      ensures r.None? ==> handed == DATA_SECTORS
    {
      hide Allocated, DataPos;
      AtMostAll(nextSector, used, handed, dirUsed);
      var blocks: seq<Pos> := [];
      for i := 0 to count
        invariant Allocated(nextSector, used, handed, dirUsed)
        invariant handed == old(handed) + i <= DATA_SECTORS && |blocks| == i
        invariant forall k: nat :: k < i ==> blocks[k] == DataPos(old(handed) + k)
      {
        var b := AllocBlock();
        if b.None? {
          return None;
        }
        blocks := blocks + [b.value];
      }
      return Some(blocks);
    }

    /** Adds a file if the disk still has room for all its blocks, and otherwise leaves
        every stored file and the directory as they were. */
    method AddPrg(f: Prg) returns (ok: bool)
      requires Valid()
      modifies this`nextSector, this`used, this`handed, this`dirEntries, this`prgs, data
      ensures Valid() && data == old(data)
      ensures ok <==> old(handed) + Blocks(f) <= DATA_SECTORS
      ensures ok ==> prgs == old(prgs) + [f] && handed == old(handed) + Blocks(f)
      ensures !ok ==> prgs == old(prgs) && handed == DATA_SECTORS
    {
      hide Allocated, DataPos, BlockBytes, LinkedSector, Chunk, EntryBytes, FilesStored, DirEntries, TotalBlocks,
        SectorAt;
      var body := Body(f);
      var chunks := seq(BlocksFor(|body|), i requires 0 <= i < BlocksFor(|body|) => Chunk(body, i));
      ghost var first, img := handed, data[..];
      var blocks := AllocBlocks(|chunks|);
      if blocks.None? {
        return false;
      }
      FreeMeansPacked(old(handed), prgs, f);
      WriteChain(chunks, blocks.value, body, first);
      FileStored(img, data[..], prgs, f, first);
      dirEntries := dirEntries + [EntryBytes(f.name, blocks.value[0], |blocks.value|)];
      prgs := prgs + [f];
      return true;
    }

    /** Writes the chunks to their blocks, each linked to the next. */
    method WriteChain(chunks: seq<seq<byte>>, blocks: seq<Pos>, ghost body: seq<byte>, ghost first: nat)
      requires data.Length == D64_SIZE && |chunks| == |blocks| == BlocksFor(|body|)
      requires first + BlocksFor(|body|) <= DATA_SECTORS
      requires forall k: nat :: k < |chunks| ==> chunks[k] == Chunk(body, k) && blocks[k] == DataPos(first + k)
      modifies data
      ensures Written(old(data[..]), data[..], body, first, |chunks|)
    {
      hide DataPos, BlockBytes, LinkedSector, Chunk, SectorAt;
      ghost var img := data[..];
      for i := 0 to |chunks|
        invariant Written(img, data[..], body, first, i)
      {
        var link := if i + 1 < |chunks| then blocks[i + 1] else Pos(0, |chunks[i]| + 1);
        var sec := LinkedSector(link, chunks[i]);
        BlockIs(body, first, i);
        ghost var before := data[..];
        DataNumberInverse(first + i);
        WriteSector(blocks[i], sec);
        BlockWritten(img, before, data[..], body, first, i);
      }
    }

    /** Writes the directory chain, or fails when track 18 cannot hold it. */
    method WriteDirectory() returns (ok: bool)
      requires Valid() && dirUsed >= 1 && DIR_TRACK in nextSector && nextSector[DIR_TRACK] == 1
      modifies this`nextSector, this`used, this`dirUsed, data
      ensures Valid() && data == old(data)
      ensures ok <==> |prgs| <= MAX_FILES
      ensures ok ==> Directory(data[..], dirEntries) && dirUsed == 1 + DirSectors(|prgs|)
    {
      hide Allocated, FilesStored, DirEntries, TotalBlocks, IsDirSector, SectorAt;
      AtMostAll(nextSector, used, handed, dirUsed);
      var groups := DirSectors(|dirEntries|);
      ghost var img := data[..];
      var sectors: seq<byte> := [];
      for i := 0 to groups
        modifies this`nextSector, this`used, this`dirUsed
        invariant Allocated(nextSector, used, handed, dirUsed) && data[..] == img
        invariant DIR_TRACK in nextSector && nextSector[DIR_TRACK] == 1 + i <= dirUsed <= 1 + groups
        invariant |sectors| == i <= 18 && forall k: nat :: k < i ==> sectors[k] == k + 1
      {
        DirHandOut(nextSector, used, handed, dirUsed);
        var s := Alloc(DIR_TRACK);
        if s.None? {
          return false;
        }
        dirUsed := if i + 1 == dirUsed then i + 2 else dirUsed;
        sectors := sectors + [s.value];
      }
      WriteDirChain(sectors, groups);
      FilesKept(img, data[..], prgs);
      return true;
    }

    method WriteDirChain(sectors: seq<byte>, groups: nat)
      requires data.Length == D64_SIZE && |sectors| == groups == DirSectors(|dirEntries|) <= 18
      requires forall e <- dirEntries :: |e| == 32
      requires forall k: nat :: k < groups ==> sectors[k] == k + 1
      modifies data
      ensures DirWritten(old(data[..]), data[..], dirEntries, groups)
    {
      hide IsDirSector, SectorAt;
      ghost var img := data[..];
      for i := 0 to groups
        invariant DirWritten(img, data[..], dirEntries, i)
      {
        var link := if i + 1 < groups then Pos(DIR_TRACK, sectors[i + 1]) else Pos(0, 0xFF);
        var sec := MakeDirSector(Group(dirEntries, i), link);
        ghost var before := data[..];
        WriteSector(Pos(DIR_TRACK, sectors[i]), sec);
        DirSectorWritten(img, before, data[..], dirEntries, i, sec);
      }
    }

    /** Writes the BAM for the sectors marked used. */
    method WriteBam(firstDirSector: byte)
      requires data.Length == D64_SIZE
      modifies data
      ensures SameBut(old(data[..]), data[..], BAM_INDEX)
      ensures IsBam(SectorAt(data[..], BAM_INDEX), used)
      ensures firstDirSector == 1 ==> Labelled(SectorAt(data[..], BAM_INDEX))
    {
      hide SectorAt, IsBam, Labelled;
      var bam := MakeBam(used, firstDirSector);
      ghost var before := data[..];
      WriteSector(Pos(DIR_TRACK, 0), bam);
      forall k: nat | k < D64_SECTORS && k != BAM_INDEX
        ensures SectorAt(before, k) == SectorAt(data[..], k)
      {
        SpliceSector(before, BAM_INDEX, bam, k);
      }
      SpliceSector(before, BAM_INDEX, bam, BAM_INDEX);
    }

    /** The finished image, or None when there are more than 126 files. Every reader finds
        exactly the added files in it, and its BAM accounts for every sector. */
    method Build() returns (r: Option<seq<byte>>)
      requires Valid()
      modifies this`nextSector, this`used, this`dirUsed, data
      ensures Valid() && data == old(data)
      ensures r.Some? <==> |prgs| <= MAX_FILES
      ensures r.Some? ==>
                && |r.value| == D64_SIZE && FilesStored(r.value, prgs) && Readable(r.value, prgs)
                && Accounted(r.value, |prgs|, handed) && Labelled(SectorAt(r.value, BAM_INDEX))
                && Directory(r.value, DirEntries(prgs)) && Unused(r.value, TotalBlocks(prgs), DirSectors(|prgs|))
    {
      hide Allocated, FilesStored, DirEntries, TotalBlocks, Directory, IsBam, SectorAt, SameBut, Readable, Accounted,
        Labelled;
      ReserveBam(nextSector, used, handed, dirUsed);
      nextSector := nextSector[DIR_TRACK := 1];
      used := used + {Pos(DIR_TRACK, 0)};
      dirUsed := if dirUsed == 0 then 1 else dirUsed;
      var ok := WriteDirectory();
      if !ok {
        return None;
      }
      ghost var before := data[..];
      AtMostAll(nextSector, used, handed, dirUsed);
      WriteBam(1);
      DirectoryKept(before, data[..], dirEntries);
      FilesKeptAll(before, data[..], prgs);
      RestBut(before, data[..], TotalBlocks(prgs), DirSectors(|prgs|));
      StillUnused(before, data[..], TotalBlocks(prgs), DirSectors(|prgs|), TotalBlocks(prgs), DirSectors(|prgs|));
      BuiltReadable(data[..], prgs);
      BuiltAccounted(data[..], nextSector, used, |prgs|, handed, dirUsed);
      return Some(data[..]);
    }
  }

  const BAM_INDEX := 357

  /** What the three readers make of an image holding the files `prgs`. */
  ghost predicate Readable(img: seq<byte>, prgs: seq<Prg>)
    requires TotalBlocks(prgs) <= DATA_SECTORS
  {
    && Listing(img) == Ok(Catalog(prgs))
    && forall i: nat :: i < |prgs| ==>
         && FollowFrom(img, Catalog(prgs)[i].first, 0) == Ok(Body(prgs[i]))
         && PrgFrom(img, Catalog(prgs)[i].first, {}, []) == Ok(Body(prgs[i]))
  }

  /** The sector belongs to the BAM, the directory or one of the first `n` data blocks. */
  predicate Owned(p: Pos, files: nat, n: nat) {
    if p.track == DIR_TRACK then p.sector <= DirSectors(files) else DataNumber(p) < n
  }

  /** The virtual 1541's free block count. */
  function FreeBlocks(img: seq<byte>): nat
    requires |img| == D64_SIZE
  {
    FreeUpTo(SectorAt(img, BAM_INDEX), LAST_TRACK)
  }

  /** BAM conservation: the free count and the owned sectors add up to the disk, each
      track's free byte counts its bitmap, and a bit is set iff its sector has no owner. */
  ghost predicate Accounted(img: seq<byte>, files: nat, n: nat)
    requires |img| == D64_SIZE
  {
    var bam := SectorAt(img, BAM_INDEX);
    && FreeBlocks(img) + 1 + DirSectors(files) + n == D64_SECTORS
    && (forall p: Pos :: OnDisk(p) ==> (BamBit(bam, p.track, p.sector) <==> !Owned(p, files, n)))
    && (forall t: nat :: 1 <= t <= 35 ==>
          bam[BamBase(t)] == PopCount(bam[BamBase(t) + 1]) + PopCount(bam[BamBase(t) + 2])
                             + PopCount(bam[BamBase(t) + 3]))
  }

  lemma ReserveBam(next: map<int, nat>, used: set<Pos>, n: nat, d: nat)
    requires Allocated(next, used, n, d)
    ensures Allocated(next[DIR_TRACK := 1], used + {Pos(DIR_TRACK, 0)}, n, if d == 0 then 1 else d)
  {
  }

  lemma DirectoryKept(before: seq<byte>, after: seq<byte>, entries: seq<seq<byte>>)
    requires |before| == |after| == D64_SIZE && forall e <- entries :: |e| == 32
    requires Directory(before, entries)
    requires SameBut(before, after, BAM_INDEX)
    ensures Directory(after, entries)
  {
    hide SectorAt, IsDirSector;
  }

  lemma FilesKeptAll(a: seq<byte>, b: seq<byte>, prgs: seq<Prg>)
    requires |a| == |b| == D64_SIZE && TotalBlocks(prgs) <= DATA_SECTORS
    requires FilesStored(a, prgs) && SameBut(a, b, BAM_INDEX)
    ensures FilesStored(b, prgs)
  {
    hide FilesStored, TotalBlocks, SectorAt;
    FilesKept(a, b, prgs);
  }

  lemma BuiltReadable(img: seq<byte>, prgs: seq<Prg>)
    requires |img| == D64_SIZE && TotalBlocks(prgs) <= DATA_SECTORS
    requires FilesStored(img, prgs) && Directory(img, DirEntries(prgs))
    ensures Readable(img, prgs)
  {
    hide Directory, DirEntries, TotalBlocks, Stored, FollowFrom, PrgFrom, Listing, Body;
    DirectoryReads(img, prgs);
    forall i: nat | i < |prgs|
      ensures FollowFrom(img, Catalog(prgs)[i].first, 0) == Ok(Body(prgs[i]))
      ensures PrgFrom(img, Catalog(prgs)[i].first, {}, []) == Ok(Body(prgs[i]))
    {
      StartStep(prgs, i);
      StoredReads(img, prgs[i], Start(prgs, i));
    }
  }

  lemma BuiltAccounted(img: seq<byte>, next: map<int, nat>, used: set<Pos>, files: nat, n: nat, d: nat)
    requires |img| == D64_SIZE && Allocated(next, used, n, d) && d == 1 + DirSectors(files)
    requires IsBam(SectorAt(img, BAM_INDEX), used)
    ensures Accounted(img, files, n)
  {
    hide SectorAt, IsBam, BamBit, PopCount, FreeUpTo;
    var bam := SectorAt(img, BAM_INDEX);
    FreeSum(bam, used, n, d, LAST_TRACK);
    forall p: Pos | OnDisk(p) ensures BamBit(bam, p.track, p.sector) <==> !Owned(p, files, n) {
      BamExact(bam, used, p.track, p.sector);
      if p.track != DIR_TRACK {
        BasePlusSector(p);
      }
    }
    forall t: nat | 1 <= t <= 35
      ensures bam[BamBase(t)] == PopCount(bam[BamBase(t) + 1]) + PopCount(bam[BamBase(t) + 2])
                                 + PopCount(bam[BamBase(t) + 3])
    {
      BamExact(bam, used, t, 0);
    }
  }

  /** On a disk whose files were all added, a data sector's BAM bit is set iff none of
      the files owns it, and no two files own the same sector. */
  lemma DataSectorOwners(img: seq<byte>, prgs: seq<Prg>, p: Pos)
    requires |img| == D64_SIZE && Accounted(img, |prgs|, TotalBlocks(prgs))
    requires OnDisk(p) && p.track != DIR_TRACK
    ensures DataNumber(p) >= 0
    ensures BamBit(SectorAt(img, BAM_INDEX), p.track, p.sector)
            <==> !exists i: nat :: OwnsBlock(prgs, i, DataNumber(p))
    ensures forall i: nat, j: nat :: OwnsBlock(prgs, i, DataNumber(p)) && OwnsBlock(prgs, j, DataNumber(p)) ==> i == j
  {
    hide SectorAt, BamBit, PopCount, FreeUpTo, TotalBlocks, OwnsBlock;
    DataPosInverse(p);
    OneOwner(prgs, DataNumber(p));
  }

  /** So the BAM bit of a data sector is clear iff the chain of some file in the image visits
      it, and no two files' chains meet. */
  lemma ChainsOwnSectors(img: seq<byte>, prgs: seq<Prg>, p: Pos)
    requires |img| == D64_SIZE && TotalBlocks(prgs) <= DATA_SECTORS
    requires Accounted(img, |prgs|, TotalBlocks(prgs)) && FilesStored(img, prgs)
    requires OnDisk(p) && p.track != DIR_TRACK
    ensures BamBit(SectorAt(img, BAM_INDEX), p.track, p.sector)
            <==> !exists i: nat :: Visits(img, prgs, i, p)
    ensures forall i: nat, j: nat :: Visits(img, prgs, i, p) && Visits(img, prgs, j, p) ==> i == j
  {
    hide SectorAt, BamBit, Accounted, TotalBlocks, FilesStored, OwnsBlock, Visits;
    DataSectorOwners(img, prgs, p);
    forall i: nat ensures Visits(img, prgs, i, p) <==> OwnsBlock(prgs, i, DataNumber(p)) {
      VisitsOwned(img, prgs, i, p);
    }
  }

  /** The chain of file `i` goes through `p`. */
  ghost predicate Visits(img: seq<byte>, prgs: seq<Prg>, i: nat, p: Pos)
    requires |img| == D64_SIZE && TotalBlocks(prgs) <= DATA_SECTORS
  {
    i < |prgs| && p in ChainFrom(img, Catalog(prgs)[i].first, D64_SECTORS)
  }

  lemma VisitsOwned(img: seq<byte>, prgs: seq<Prg>, i: nat, p: Pos)
    requires |img| == D64_SIZE && TotalBlocks(prgs) <= DATA_SECTORS && FilesStored(img, prgs)
    requires OnDisk(p) && p.track != DIR_TRACK
    ensures DataNumber(p) >= 0
    ensures Visits(img, prgs, i, p) <==> OwnsBlock(prgs, i, DataNumber(p))
  {
    hide DataPos, Body, Stored, ChainFrom, Start;
    DataPosInverse(p);
    if i < |prgs| {
      StartStep(prgs, i);
      var n := D64_SECTORS;
      StoredFits(img, Body(prgs[i]), Start(prgs, i));
      ChainIsBlocks(img, Body(prgs[i]), Start(prgs, i), 0, n, p);
    }
  }

  /** The fields of the BAM sector around the bitmaps: the link to the directory, the DOS version,
      the disk name TESTDISK in 16 characters, the disk ID 00 and the DOS type 2A. */
  ghost predicate Labelled(bam: seq<byte>) {
    && |bam| == 256 && bam[..4] == [18, 1, 0x41, 0]
    && bam[144..160] == [84, 69, 83, 84, 68, 73, 83, 75, 160, 160, 160, 160, 160, 160, 160, 160]
    && bam[160..168] == [160, 160, 48, 48, 160, 50, 65, 160] && forall k | 168 <= k < 256 :: bam[k] == 0
  }

  lemma DiskName()
    ensures PetsciiName(DISK_NAME) == [84, 69, 83, 84, 68, 73, 83, 75, 160, 160, 160, 160, 160, 160, 160, 160]
  {
    var n := UpperName(DISK_NAME);
    assert n == DISK_NAME;
  }

  method MakeBam(used: set<Pos>, firstDirSector: byte) returns (bam: seq<byte>)
    ensures |bam| == SECTOR_SIZE && IsBam(bam, used) && (firstDirSector == 1 ==> Labelled(bam))
  {
    bam := Zeros(SECTOR_SIZE)[0 := DIR_TRACK][1 := firstDirSector][2 := 0x41];
    for track := 1 to LAST_TRACK + 1
      invariant |bam| == SECTOR_SIZE && bam[..4] == [DIR_TRACK, firstDirSector, 0x41, 0]
      invariant forall k | 168 <= k < 256 :: bam[k] == 0
      invariant forall t: nat :: 1 <= t < track ==> BamTrack(bam, used, t)
    {
      hide FreeBits, FromBits, Count;
      var entry := BamEntry(used, track);
      ghost var before := bam;
      bam := Splice(bam, BamBase(track), entry);
      forall t: nat | 1 <= t < track + 1 ensures BamTrack(bam, used, t) {
        if t < track {
          assert BamTrack(before, used, t);
        }
      }
    }
    ghost var before := bam;
    DiskName();
    bam := Splice(bam, 0x90, PetsciiName(DISK_NAME));
    bam := Splice(bam, 0xA0, [0xA0, 0xA0, '0' as byte, '0' as byte, 0xA0, '2' as byte, 'A' as byte, 0xA0]);
    forall t: nat | 1 <= t <= 35 ensures BamTrack(bam, used, t) {
      assert BamTrack(before, used, t);
    }
  }

  const DISK_NAME: seq<ascii> := [84, 69, 83, 84, 68, 73, 83, 75]

  /** One track's four BAM bytes. */
  method BamEntry(used: set<Pos>, track: byte) returns (e: seq<byte>)
    requires 1 <= track <= 35
    ensures |e| == 4 && e[0] == Count(FreeBits(used, track))
    ensures e[1] as int + 256 * (e[2] as int + 256 * e[3] as int) == FromBits(FreeBits(used, track))
  {
    hide FromBits, Count, FreeBits;
    var count, bits := CountFree(used, track);
    BytesOfBitmap(bits);
    var hi := bits / 256;
    e := [count, bits % 256, hi % 256, hi / 256];
  }

  /** The free sectors of a track and their bitmap. The bit added for sector `s` is still
      clear, so adding it is the same as or-ing it in. */
  method CountFree(used: set<Pos>, track: byte) returns (count: nat, bits: nat)
    requires 1 <= track <= 35
    ensures count == Count(FreeBits(used, track)) <= 21 && bits == FromBits(FreeBits(used, track)) < 0x1000000
  {
    hide FromBits, Count, Pow2;
    var total := SectorsPerTrack(track);
    ghost var free := FreeBits(used, track);
    NoBits();
    count, bits := 0, 0;
    for s := 0 to total
      invariant count == Count(free[..s]) && bits == FromBits(free[..s])
    {
      assert free[..s + 1] == free[..s] + [free[s]];
      FromBitsAppend(free[..s], free[s]);
      if Pos(track, s) !in used {
        count := count + 1;
        bits := bits + Pow2(s);
      }
    }
    assert free[..total] == free;
    FromBitsAppend(free, false);
    BitmapFits(bits, total);
  }

  lemma NoBits()
    ensures Count([]) == 0 && FromBits([]) == 0
  {
  }

  lemma BytesOfBitmap(bits: nat)
    requires bits < 0x1000000
    ensures var hi := bits / 256; hi / 256 < 256 && bits % 256 + 256 * (hi % 256 + 256 * (hi / 256)) == bits
  {
  }

  lemma BitmapFits(bits: nat, n: nat)
    requires n <= 21 && bits < Pow2(n)
    ensures bits < 0x1000000
  {
    hide Pow2;
    Pow2Monotone(n, 21);
    SevenBits(14);
    SevenBits(7);
    SevenBits(0);
  }

  lemma SevenBits(n: nat)
    ensures Pow2(n + 7) == 128 * Pow2(n) && Pow2(0) == 1
  {
    assert Pow2(n + 2) == 2 * Pow2(n + 1) == 4 * Pow2(n);
    assert Pow2(n + 4) == 2 * Pow2(n + 3) == 4 * Pow2(n + 2);
    assert Pow2(n + 6) == 2 * Pow2(n + 5) == 4 * Pow2(n + 4);
  }

  lemma {:induction false} Pow2Monotone(a: nat, b: nat)
    requires a <= b
    ensures Pow2(a) <= Pow2(b)
    decreases b
  {
    if a < b {
      Pow2Monotone(a, b - 1);
    }
  }

  lemma DirHandOut(next: map<int, nat>, used: set<Pos>, n: nat, d: nat)
    requires Allocated(next, used, n, d) && next[DIR_TRACK] <= d
    ensures next[DIR_TRACK] < SectorsPerTrack(DIR_TRACK) ==>
              var s := next[DIR_TRACK];
              Allocated(next[DIR_TRACK := s + 1], used + {Pos(DIR_TRACK, s)}, n, if s == d then d + 1 else d)
    ensures SectorsPerTrack(DIR_TRACK) == 19 && d <= 19
  {
  }

  /** `i` directory sectors are written and no data sector has changed. */
  ghost predicate DirWritten(base: seq<byte>, img: seq<byte>, entries: seq<seq<byte>>, i: nat)
    requires |base| == |img| == D64_SIZE && forall e <- entries :: |e| == 32
  {
    && i <= DirSectors(|entries|) <= 18
    && SameBlocks(base, img, DATA_SECTORS) && SameRest(base, img, 0, i)
    && forall g: nat :: g < i ==>
         IsDirSector(SectorAt(img, 358 + g), Group(entries, g), DirLink(DirSectors(|entries|), g))
  }

  lemma DirSectorWritten(base: seq<byte>, before: seq<byte>, after: seq<byte>, entries: seq<seq<byte>>, i: nat,
                         sec: seq<byte>)
    requires |base| == |before| == |after| == D64_SIZE && forall e <- entries :: |e| == 32
    requires DirWritten(base, before, entries, i) && i < DirSectors(|entries|)
    requires IsDirSector(sec, Group(entries, i), DirLink(DirSectors(|entries|), i))
    requires after == Splice(before, (358 + i) * SECTOR_SIZE, sec)
    ensures DirWritten(base, after, entries, i + 1)
  {
    hide SectorAt, IsDirSector, SameRest, Group, DirLink;
    LinkIs(sec, Group(entries, i), DirLink(DirSectors(|entries|), i));
    forall k: nat | k < DATA_SECTORS ensures SectorAt(base, DataIndex(k)) == SectorAt(after, DataIndex(k)) {
      SpliceSector(before, 358 + i, sec, DataIndex(k));
    }
    RestKept(base, before, after, sec, 358 + i, 0, i);
    forall g: nat | g < i + 1
      ensures IsDirSector(SectorAt(after, 358 + g), Group(entries, g), DirLink(DirSectors(|entries|), g))
    {
      SpliceSector(before, 358 + i, sec, 358 + g);
    }
  }

  method MakeDirSector(group: seq<seq<byte>>, link: Pos) returns (sec: seq<byte>)
    requires |group| <= ENTRIES_PER_SECTOR && forall e <- group :: |e| == 32
    ensures IsDirSector(sec, group, link) && |sec| == SECTOR_SIZE
  {
    hide Splice;
    sec := Zeros(SECTOR_SIZE)[0 := link.track][1 := link.sector];
    for j := 0 to |group|
      invariant DirFilled(sec, group, link, j)
    {
      SlotFilled(sec, group, link, j);
      sec := Splice(sec, 2 + j * 32, group[j]);
    }
  }

  /** The link and the first `j` entries are in place, and zeros from there on. */
  ghost predicate DirFilled(sec: seq<byte>, group: seq<seq<byte>>, link: Pos, j: nat) {
    && j <= |group| <= ENTRIES_PER_SECTOR && |sec| == SECTOR_SIZE && sec[0] == link.track && sec[1] == link.sector
    && (forall k | 0 <= k < j :: sec[2 + 32 * k..34 + 32 * k] == group[k])
    && (forall k | 2 + 32 * j <= k < SECTOR_SIZE :: sec[k] == 0)
  }

  lemma SlotFilled(sec: seq<byte>, group: seq<seq<byte>>, link: Pos, j: nat)
    requires DirFilled(sec, group, link, j) && j < |group| && forall e <- group :: |e| == 32
    ensures 2 + j * 32 + |group[j]| <= |sec| && DirFilled(Splice(sec, 2 + j * 32, group[j]), group, link, j + 1)
  {
    var at, e := 2 + j * 32, group[j];
    var r := Splice(sec, at, e);
    forall k | 0 <= k < SECTOR_SIZE && (k < at || k >= at + 32) ensures r[k] == sec[k] {
    }
    hide Splice;
    SpliceReads(sec, at, e, at, at + 32);
    forall k | 0 <= k < j ensures r[2 + 32 * k..34 + 32 * k] == group[k] {
      SpliceReads(sec, at, e, 2 + 32 * k, 34 + 32 * k);
    }
  }

  lemma TrackKnown(next: map<int, nat>, used: set<Pos>, n: nat, d: nat, i: nat)
    requires Allocated(next, used, n, d) && i < 34 && DataBase(i) <= n
    ensures DataTrack(i) in next
    ensures next[DataTrack(i)] >= SectorsPerTrack(DataTrack(i)) ==> DataBase(i + 1) <= n
  {
    DataBaseStep(i);
  }

  lemma AtMostAll(next: map<int, nat>, used: set<Pos>, n: nat, d: nat)
    requires Allocated(next, used, n, d)
    ensures n <= DATA_SECTORS
  {
  }
}
