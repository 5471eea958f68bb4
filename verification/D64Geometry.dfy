/** Track/sector geometry of a 35-track D64 image (tools/d64/d64_common.py). */
module D64Geometry {
  import opened Bytes

  const SECTOR_SIZE := 256
  const D64_SECTORS := 683
  const D64_SIZE := 174848
  const INVALID_INDEX := 0xFFFFFFFF
  const DIR_TRACK := 18

  /** A track/sector link as it is stored on disk: two arbitrary bytes. */
  datatype Pos = Pos(track: byte, sector: byte)

  function SectorsPerTrack(track: int): nat {
    if 1 <= track <= 17 then 21
    else if 18 <= track <= 24 then 19
    else if 25 <= track <= 30 then 18
    else if 31 <= track <= 35 then 17
    else 0
  }

  function SectorIndex(p: Pos): nat {
    if 1 <= p.track <= 17 then
      if p.sector >= 21 then INVALID_INDEX else (p.track - 1) * 21 + p.sector
    else if 18 <= p.track <= 24 then
      if p.sector >= 19 then INVALID_INDEX else 357 + (p.track - 18) * 19 + p.sector
    else if 25 <= p.track <= 30 then
      if p.sector >= 18 then INVALID_INDEX else 490 + (p.track - 25) * 18 + p.sector
    else if 31 <= p.track <= 35 then
      if p.sector >= 17 then INVALID_INDEX else 598 + (p.track - 31) * 17 + p.sector
    else INVALID_INDEX
  }

  function ByteOffset(p: Pos): nat {
    var index := SectorIndex(p);
    if index == INVALID_INDEX then INVALID_INDEX else index * SECTOR_SIZE
  }

  predicate OnDisk(p: Pos) { p.sector < SectorsPerTrack(p.track) }

  /** The inverse of SectorIndex (see IndexBijection). */
  function PosAt(index: nat): (p: Pos)
    requires index < D64_SECTORS
    ensures OnDisk(p) && SectorIndex(p) == index
  {
    if index < 357 then ZonePos(1, 21, index)
    else if index < 490 then ZonePos(18, 19, index - 357)
    else if index < 598 then ZonePos(25, 18, index - 490)
    else ZonePos(31, 17, index - 598)
  }

  function ZonePos(firstTrack: nat, perTrack: nat, k: nat): (p: Pos)
    requires firstTrack <= 31 && 17 <= perTrack <= 21 && k < 17 * perTrack
    ensures p.track >= firstTrack && p.sector < perTrack
    ensures (p.track - firstTrack) * perTrack + p.sector == k
    ensures forall n: nat :: k < n * perTrack ==> p.track < firstTrack + n
  {
    var t := k / perTrack;
    assert t < 17;
    Pos(firstTrack + t, k % perTrack)
  }

  /** Positions on the disk and indices below 683 correspond one to one;
      every other position is rejected. */
  lemma IndexBijection(p: Pos)
    ensures OnDisk(p) <==> SectorIndex(p) < D64_SECTORS
    ensures OnDisk(p) ==> PosAt(SectorIndex(p)) == p
    ensures !OnDisk(p) ==> SectorIndex(p) == INVALID_INDEX && ByteOffset(p) == INVALID_INDEX
  {
    if 1 <= p.track <= 17 {
      assert p.sector < 21 ==> (p.track - 1) * 21 + p.sector < 357;
    }
  }

  /** Sector `index` of a full image. */
  function SectorAt(img: seq<byte>, index: nat): (s: seq<byte>)
    requires |img| == D64_SIZE && index < D64_SECTORS
    ensures |s| == SECTOR_SIZE
  {
    img[index * SECTOR_SIZE..(index + 1) * SECTOR_SIZE]
  }

  ghost function AllPositions(): set<Pos> {
    set i: nat | i < D64_SECTORS :: PosAt(i)
  }

  lemma AllPositionsExact(p: Pos)
    ensures p in AllPositions() <==> OnDisk(p)
  {
    IndexBijection(p);
    if OnDisk(p) {
      assert PosAt(SectorIndex(p)) == p;
    }
  }

  /** A set of positions on the disk never has more than 683 members. */
  lemma AtMost683(s: set<Pos>, bound: nat)
    requires forall p <- s :: OnDisk(p) && SectorIndex(p) < bound
    requires bound <= D64_SECTORS
    ensures |s| <= bound
    ensures |s| == bound ==> forall i: nat | i < bound :: PosAt(i) in s
    decreases bound
  {
    if bound == 0 {
      assert s == {} by { if p :| p in s { assert false; } }
    } else {
      var top := PosAt(bound - 1);
      forall p <- s - {top} ensures SectorIndex(p) < bound - 1 {
        IndexBijection(p);
      }
      AtMost683(s - {top}, bound - 1);
    }
  }
}
