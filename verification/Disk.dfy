/**
 * The volume as LemonFS sees it: a flat array of 512-byte sectors, which
 * `SectorView.PartitionDrive` provides over any native block size.
 */
module Disk {
  import opened SectorView

  datatype FsError = IoError | BadSuperblock | NoSpace | FileNotFound | FileExists | BadFileType | BadFlags | IsRoot
  datatype FsResult<T> = Success(value: T) | Failure(error: FsError)

  class Disk {
    var sectors: seq<Sector>

    constructor (sectors: seq<Sector>)
      ensures this.sectors == sectors
    {
      this.sectors := sectors;
    }

    method ReadSector(lba: nat) returns (r: FsResult<Sector>)
      ensures r == if lba < |sectors| then Success(sectors[lba]) else Failure(IoError)
    {
      if lba >= |sectors| { return Failure(IoError); }
      r := Success(sectors[lba]);
    }

    method WriteSector(lba: nat, data: Sector) returns (r: FsResult<()>)
      modifies this
      ensures lba < |old(sectors)| ==> r == Success(()) && sectors == old(sectors)[lba := data]
      ensures lba >= |old(sectors)| ==> r == Failure(IoError) && sectors == old(sectors)
    {
      if lba >= |sectors| { return Failure(IoError); }
      sectors := sectors[lba := data];
      r := Success(());
    }

    /** Consecutive sectors from `start` on. */
    method WriteSectors(start: nat, data: seq<Sector>) returns (r: FsResult<()>)
      modifies this
      ensures r.Success? <==> data == [] || start + |data| <= |old(sectors)|
      ensures r.Success? && data != [] ==> sectors == Overwrite(old(sectors), start, data)
      ensures r.Failure? || data == [] ==> sectors == old(sectors)
      ensures r.Failure? ==> r.error == IoError
    {
      if data == [] { return Success(()); }
      if start + |data| > |sectors| { return Failure(IoError); }
      sectors := Overwrite(sectors, start, data);
      r := Success(());
    }

    /** All of the sectors, or the whole pieces that exist. */
    method ZeroSectors(start: nat, count: nat) returns (r: FsResult<()>)
      modifies this
      ensures r == if count == 0 || start + count <= |old(sectors)| then Success(()) else Failure(IoError)
      ensures var done := ZeroedCount(start, count, |old(sectors)|);
        sectors == if done == 0 then old(sectors) else Overwrite(old(sectors), start, Blanks(done))
      ensures start + count <= |old(sectors)| ==> sectors == Overwrite(old(sectors), start, Blanks(count))
    {
      var done := ZeroedCount(start, count, |sectors|);
      assert count == 0 && start <= |sectors| ==> Overwrite(sectors, start, Blanks(0)) == sectors;
      r := if count == 0 || start + count <= |sectors| then Success(()) else Failure(IoError);
      if done > 0 { sectors := Overwrite(sectors, start, Blanks(done)); }
    }
  }
}
