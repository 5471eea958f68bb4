/** The greedy distribution of PRG files over D64 images (tools/build_sid_disks.py). */
module DiskPacker {
  import opened Bytes
  import opened D64Geometry
  import opened D64Layout
  import opened D64Allocator
  import opened D64RoundTrip
  import opened D64Builder

  const USABLE_BLOCKS := 664

  /** A PRG file on the host: its directory name and its bytes, load address first. */
  datatype HostFile = HostFile(name: seq<ascii>, data: seq<byte>)

  type PrgFile = p: HostFile | |p.data| >= 2 witness HostFile([], [0, 0])

  function PrgBlocks(p: HostFile): nat {
    var n := (|p.data| + 253) / 254;
    if n < 1 then 1 else n
  }

  function ToPrg(p: PrgFile): Prg
  {
    Prg(p.name, Word(p.data[0], p.data[1]), p.data[2..])
  }

  /** The size estimate of the packer is what `add_prg` allocates, and the body that
      `add_prg` stores is the PRG file itself. */
  lemma BlocksAgree(p: PrgFile)
    ensures PrgBlocks(p) == Blocks(ToPrg(p))
    ensures Body(ToPrg(p)) == p.data
  {
    assert Lo(Word(p.data[0], p.data[1])) == p.data[0];
    assert Hi(Word(p.data[0], p.data[1])) == p.data[1];
  }

  function ToPrgs(ps: seq<PrgFile>): (r: seq<Prg>)
    ensures |r| == |ps|
  {
    seq(|ps|, i requires 0 <= i < |ps| => ToPrg(ps[i]))
  }

  function Concat<T>(disks: seq<seq<T>>): seq<T> {
    if disks == [] then [] else Concat(disks[..|disks| - 1]) + disks[|disks| - 1]
  }

  /** A disk that obeys the file cap and fits the data tracks. */
  ghost predicate Fits(disk: seq<Prg>, maxFiles: int) {
    && disk != []
    && (|disk| <= maxFiles || |disk| == 1)
    && TotalBlocks(disk) <= USABLE_BLOCKS
  }

  /** The next file really did not go on this disk any more. */
  ghost predicate Closed(disk: seq<Prg>, next: Prg, maxFiles: int) {
    |disk| >= maxFiles || TotalBlocks(disk) + Blocks(next) > USABLE_BLOCKS
  }

  /** Disks in order: all fit, and each one before the last was closed by the first file
      of its successor. */
  ghost predicate Packed(disks: seq<seq<Prg>>, maxFiles: int) {
    && (forall i: nat :: i < |disks| ==> Fits(disks[i], maxFiles))
    && (forall i: nat :: i + 1 < |disks| ==> Closed(disks[i], disks[i + 1][0], maxFiles))
  }

  /** Image `i` holds exactly the files of disk `i`. */
  ghost predicate Burned(images: seq<seq<byte>>, disks: seq<seq<Prg>>) {
    && |images| == |disks|
    && forall i: nat :: i < |images| ==>
         && |images[i]| == D64_SIZE
         && TotalBlocks(disks[i]) <= DATA_SECTORS && Readable(images[i], disks[i])
         && Accounted(images[i], |disks[i]|, TotalBlocks(disks[i]))
  }

  lemma TotalAppend(disk: seq<Prg>, f: Prg)
    ensures TotalBlocks(disk + [f]) == TotalBlocks(disk) + Blocks(f)
    ensures TotalBlocks([]) == 0
  {
    assert (disk + [f])[..|disk|] == disk;
  }

  lemma FilesAppend(prgs: seq<PrgFile>, k: nat)
    requires k < |prgs|
    ensures ToPrgs(prgs[..k + 1]) == ToPrgs(prgs[..k]) + [ToPrg(prgs[k])]
  {
    hide ToPrg;
  }

  /** The state after a flush: disk and image are added to the finished ones. */
  lemma DiskClosed(disks: seq<seq<Prg>>, images: seq<seq<byte>>, disk: seq<Prg>, image: seq<byte>, maxFiles: int)
    requires Packed(disks, maxFiles) && Fits(disk, maxFiles) && Burned(images, disks)
    requires disks != [] ==> Closed(disks[|disks| - 1], disk[0], maxFiles)
    requires TotalBlocks(disk) <= DATA_SECTORS && |image| == D64_SIZE
    requires Readable(image, disk) && Accounted(image, |disk|, TotalBlocks(disk))
    ensures Packed(disks + [disk], maxFiles) && Burned(images + [image], disks + [disk])
    ensures Concat(disks + [disk]) == Concat(disks) + disk
  {
    hide Fits, Closed, Readable, Accounted, TotalBlocks;
    assert (disks + [disk])[..|disks|] == disks;
  }

  /** `k` files are placed: on the finished disks and on the current one. */
  ghost predicate Placed(prgs: seq<PrgFile>, k: nat, images: seq<seq<byte>>, disks: seq<seq<Prg>>, current: seq<Prg>,
                         maxFiles: int) {
    && k <= |prgs|
    && Concat(disks) + current == ToPrgs(prgs[..k])
    && Packed(disks, maxFiles) && Burned(images, disks)
    && (current == [] <==> k == 0)
    && (current != [] ==> Fits(current, maxFiles))
    && (disks != [] ==> current != [] && Closed(disks[|disks| - 1], current[0], maxFiles))
    && (forall i: nat :: i < k ==> PrgBlocks(prgs[i]) <= USABLE_BLOCKS)
  }

  lemma NothingPlaced(prgs: seq<PrgFile>, maxFiles: int)
    ensures Placed(prgs, 0, [], [], [], maxFiles) && TotalBlocks([]) == 0
  {
  }

  lemma PlacedSame(prgs: seq<PrgFile>, k: nat, images: seq<seq<byte>>, disks: seq<seq<Prg>>, current: seq<Prg>,
                   maxFiles: int)
    requires k < |prgs| && Placed(prgs, k, images, disks, current, maxFiles)
    requires current == [] || |current| < maxFiles
    requires TotalBlocks(current) + PrgBlocks(prgs[k]) <= USABLE_BLOCKS
    ensures Placed(prgs, k + 1, images, disks, current + [ToPrg(prgs[k])], maxFiles)
    ensures TotalBlocks(current + [ToPrg(prgs[k])]) == TotalBlocks(current) + PrgBlocks(prgs[k])
  {
    hide Packed, Burned, Concat, ToPrgs, Closed, TotalBlocks, PrgBlocks, Blocks, ToPrg, Fits, Placed;
    var f := ToPrg(prgs[k]);
    PlacedIs(prgs, k, images, disks, current, maxFiles);
    FilesAppend(prgs, k);
    BlocksAgree(prgs[k]);
    TotalAppend(current, f);
    FitsOneMore(current, f, maxFiles);
    OneMore(Concat(disks), current, f);
    PlacedOnDisk(prgs, k, images, disks, current, f, maxFiles);
  }

  lemma OneMore<T>(a: seq<T>, b: seq<T>, x: T)
    ensures a + (b + [x]) == a + b + [x]
  {
  }

  lemma PlacedIs(prgs: seq<PrgFile>, k: nat, images: seq<seq<byte>>, disks: seq<seq<Prg>>, current: seq<Prg>,
                 maxFiles: int)
    requires k <= |prgs| && Placed(prgs, k, images, disks, current, maxFiles)
    ensures Concat(disks) + current == ToPrgs(prgs[..k]) && (current != [] ==> Fits(current, maxFiles))
  {
    hide Packed, Burned, Concat, ToPrgs, Closed, PrgBlocks, Fits;
  }

  /** One more file on the current disk. */
  lemma PlacedOnDisk(prgs: seq<PrgFile>, k: nat, images: seq<seq<byte>>, disks: seq<seq<Prg>>, current: seq<Prg>,
                     f: Prg, maxFiles: int)
    requires k < |prgs| && Placed(prgs, k, images, disks, current, maxFiles)
    requires Concat(disks) + (current + [f]) == ToPrgs(prgs[..k + 1])
    requires Fits(current + [f], maxFiles) && PrgBlocks(prgs[k]) <= USABLE_BLOCKS
    ensures Placed(prgs, k + 1, images, disks, current + [f], maxFiles)
  {
    hide Packed, Burned, Concat, ToPrgs, Closed, PrgBlocks, Fits;
    assert current != [] ==> (current + [f])[0] == current[0];
  }

  lemma FitsOneMore(current: seq<Prg>, f: Prg, maxFiles: int)
    requires current == [] || (|current| < maxFiles && Fits(current, maxFiles))
    requires TotalBlocks(current) + Blocks(f) <= USABLE_BLOCKS
    ensures Fits(current + [f], maxFiles)
  {
    hide Blocks, TotalBlocks;
    TotalAppend(current, f);
  }

  lemma PlacedNew(prgs: seq<PrgFile>, k: nat, images: seq<seq<byte>>, disks: seq<seq<Prg>>, current: seq<Prg>,
                  maxFiles: int)
    requires k < |prgs| && Packed(disks, maxFiles) && Burned(images, disks)
    requires Concat(disks) == ToPrgs(prgs[..k])
    requires disks != [] && Closed(disks[|disks| - 1], ToPrg(prgs[k]), maxFiles)
    requires forall i: nat :: i < k ==> PrgBlocks(prgs[i]) <= USABLE_BLOCKS
    requires PrgBlocks(prgs[k]) <= USABLE_BLOCKS
    ensures Placed(prgs, k + 1, images, disks, [ToPrg(prgs[k])], maxFiles)
    ensures TotalBlocks([ToPrg(prgs[k])]) == PrgBlocks(prgs[k])
  {
    hide Packed, Burned, Concat, ToPrgs, Closed, TotalBlocks, PrgBlocks, Blocks, ToPrg;
    FilesAppend(prgs, k);
    BlocksAgree(prgs[k]);
    TotalAppend([], ToPrg(prgs[k]));
    assert [] + [ToPrg(prgs[k])] == [ToPrg(prgs[k])];
  }

  /** Every PRG lands on exactly one disk, in input order, and every image reads back as
      its files. With a file cap of at most 126 the run fails only for a PRG that is too
      large for an empty disk. */
  method PackDisks(prgs: seq<PrgFile>, maxFiles: int)
    returns (ok: bool, images: seq<seq<byte>>, ghost disks: seq<seq<Prg>>)
    ensures ok ==> Concat(disks) == ToPrgs(prgs)
    ensures ok ==> Packed(disks, maxFiles) && Burned(images, disks)
    ensures maxFiles <= MAX_FILES ==> (ok <==> forall p <- prgs :: PrgBlocks(p) <= USABLE_BLOCKS)
  {
    hide TotalBlocks, Blocks, Readable, Accounted, PrgBlocks, ToPrg, ToPrgs, Packed, Burned, Concat, Placed, Fits;
    hide Closed, Builder.Valid, SameBlocks, Unused, Labelled, Directory, FilesStored, DirEntries;
    NothingPlaced(prgs, maxFiles);
    images, disks := [], [];
    var builder := new Builder();
    var used, count := 0, 0;
    for k := 0 to |prgs|
      invariant builder.Valid() && fresh(builder) && fresh(builder.data)
      invariant builder.handed == used == TotalBlocks(builder.prgs) && count == |builder.prgs|
      invariant Placed(prgs, k, images, disks, builder.prgs, maxFiles)
    {
      var p := prgs[k];
      BlocksAgree(p);
      var blocks := PrgBlocks(p);
      ghost var current := builder.prgs;
      PlacedFacts(prgs, k, images, disks, current, maxFiles);
      var full := count >= maxFiles || used + blocks > USABLE_BLOCKS;
      if full && count != 0 {
        var image := builder.Build();
        if image.None? {
          return false, [], [];
        }
        DiskClosed(disks, images, current, image.value, maxFiles);
        images, disks := images + [image.value], disks + [current];
        builder := new Builder();
        used, count := 0, 0;
      }
      ghost var room := builder.prgs;
      var added := builder.AddPrg(ToPrg(p));
      if !added {
        assert prgs[k] in prgs && PrgBlocks(prgs[k]) > USABLE_BLOCKS;
        return false, [], [];
      }
      if full && current != [] {
        FullIsClosed(current, p, maxFiles);
        assert [] + [ToPrg(p)] == [ToPrg(p)];
        PlacedNew(prgs, k, images, disks, current, maxFiles);
      } else {
        PlacedSame(prgs, k, images, disks, current, maxFiles);
      }
      assert builder.prgs == room + [ToPrg(p)];
      used, count := used + blocks, count + 1;
    }
    ghost var current := builder.prgs;
    PlacedFacts(prgs, |prgs|, images, disks, current, maxFiles);
    if count != 0 {
      var image := builder.Build();
      if image.None? {
        return false, [], [];
      }
      DiskClosed(disks, images, current, image.value, maxFiles);
      images, disks := images + [image.value], disks + [current];
    }
    ok := true;
  }

  lemma FullIsClosed(disk: seq<Prg>, p: PrgFile, maxFiles: int)
    requires |disk| >= maxFiles || TotalBlocks(disk) + PrgBlocks(p) > USABLE_BLOCKS
    ensures Closed(disk, ToPrg(p), maxFiles)
  {
    hide PrgBlocks, ToPrg, TotalBlocks;
    BlocksAgree(p);
  }

  lemma PlacedFacts(prgs: seq<PrgFile>, k: nat, images: seq<seq<byte>>, disks: seq<seq<Prg>>, current: seq<Prg>,
                    maxFiles: int)
    requires Placed(prgs, k, images, disks, current, maxFiles)
    ensures Packed(disks, maxFiles) && Burned(images, disks)
    ensures Concat(disks) + current == ToPrgs(prgs[..k])
    ensures current == [] ==> k == 0 && disks == [] && Concat(disks) == ToPrgs(prgs[..k])
    ensures current != [] ==> Fits(current, maxFiles) && (maxFiles <= MAX_FILES ==> |current| <= MAX_FILES)
    ensures current == [] ==> TotalBlocks(current) == 0
    ensures TotalBlocks(current) <= DATA_SECTORS
    ensures disks != [] ==> Closed(disks[|disks| - 1], current[0], maxFiles)
    ensures k == |prgs| ==> prgs[..k] == prgs
    ensures forall i: nat :: i < k ==> PrgBlocks(prgs[i]) <= USABLE_BLOCKS
  {
    hide Packed, Burned, Closed, ToPrgs, PrgBlocks;
  }
}
