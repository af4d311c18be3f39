/**
 * The disk of a volume on a partition with native blocks of any size: every access of LemonFS goes through
 * `PartitionDrive` (`fs/lemonfs/io.rs`), and what it sees is a flat array of sectors.
 */
module DriveDisk {
  import opened Basics
  import opened Disk
  import opened SectorView

  class DriveDisk {
    const part: PartitionDrive

    constructor (part: PartitionDrive)
      ensures this.part == part
    {
      this.part := part;
    }

    /** `read_data`: a page of one sector, and the sector at its start. */
    method ReadSector(lba: nat) returns (r: FsResult<Sector>)
      requires part.Valid()
      ensures r == if lba < |part.Flat()| then Success(part.Flat()[lba]) else Failure(IoError)
    {
      var page := part.ReadSectors(lba, 1);
      if page.Err? { return Failure(IoError); }
      var data := page.value.ReadData(0, 0);
      if data.Err? { return Failure(IoError); }
      assert page.value.sectors[..1][0] == part.Flat()[lba..lba + 1][0];
      r := Success(data.value);
    }

    /** `write_data`: a page that begins with the sector, of which one sector is written. */
    method WriteSector(lba: nat, data: Sector) returns (r: FsResult<()>)
      requires part.Valid()
      modifies part.drive
      ensures part.Valid()
      ensures lba < |old(part.Flat())| ==> r == Success(()) && part.Flat() == old(part.Flat())[lba := data]
      ensures lba >= |old(part.Flat())| ==> r == Failure(IoError) && part.Flat() == old(part.Flat())
    {
      var page := new PhysPage(1);
      var filled := page.WriteData(0, data, 0);
      if filled.Err? { return Failure(IoError); }
      var written := part.WriteSectors(lba, 1, page);
      if written.Err? { return Failure(IoError); }
      assert page.sectors[..1] == [data];
      assert Overwrite(old(part.Flat()), lba, [data]) == old(part.Flat())[lba := data];
      r := Success(());
    }

    /** Pages that begin with `data`, of which that many sectors are written. */
    method WriteSectors(start: nat, data: seq<Sector>) returns (r: FsResult<()>)
      requires part.Valid()
      modifies part.drive
      ensures part.Valid() && (r.Success? <==> data == [] || start + |data| <= |old(part.Flat())|)
      ensures r.Success? && data != [] ==> part.Flat() == Overwrite(old(part.Flat()), start, data)
      ensures r.Failure? || data == [] ==> part.Flat() == old(part.Flat())
      ensures r.Failure? ==> r.error == IoError
    {
      var page := Filled(data);
      var written := part.WriteSectors(start, |data|, page);
      if written.Err? { return Failure(IoError); }
      r := Success(());
    }

    method Filled(data: seq<Sector>) returns (page: PhysPage)
      ensures fresh(page) && page.Valid() && |data| <= |page.sectors| && page.sectors[..|data|] == data
    {
      page := new PhysPage(DivCeil(|data|, 8));
      for i := 0 to |data|
        invariant page.Valid() && |page.sectors| >= |data| && page.sectors[..i] == data[..i]
      {
        var filled := page.WriteData(512 * i, data[i], i);
        assert page.sectors[..i + 1] == page.sectors[..i] + [data[i]] && data[..i + 1] == data[..i] + [data[i]];
      }
    }

    method ZeroSectors(start: nat, count: nat) returns (r: FsResult<()>)
      requires part.Valid()
      modifies part.drive
      ensures part.Valid() && r == if count == 0 || start + count <= |old(part.Flat())| then Success(()) else Failure(IoError)
      ensures var done := ZeroedCount(start, count, |old(part.Flat())|);
        part.Flat() == if done == 0 then old(part.Flat()) else Overwrite(old(part.Flat()), start, Blanks(done))
    {
      var zeroed := part.ZeroSectors(start, count);
      r := if zeroed.Ok? then Success(()) else Failure(IoError);
    }
  }

  /** An access of LemonFS to its disk. */
  datatype Access = Read(lba: nat) | Write(lba: nat, data: Sector) | WriteMany(start: nat, run: seq<Sector>) | Zero(start: nat, count: nat)

  /** What an access returns: a sector if it reads one. */
  datatype Answer = Answer(ok: bool, sector: Option<Sector>)

  function AnswerOf(r: FsResult<()>): Answer
  {
    Answer(r.Success?, None)
  }

  /** The same access to the partition and to a flat array of what it holds: same answer, and still the same content. */
  method Lockstep(drive: DriveDisk, disk: Disk, a: Access) returns (x: Answer, y: Answer)
    requires drive.part.Valid() && disk.sectors == drive.part.Flat()
    modifies drive.part.drive, disk
    ensures drive.part.Valid() && disk.sectors == drive.part.Flat() && x == y
  {
    match a {
      case Read(lba) =>
        var r := drive.ReadSector(lba);
        var s := disk.ReadSector(lba);
        x := Answer(r.Success?, if r.Success? then Some(r.value) else None);
        y := Answer(s.Success?, if s.Success? then Some(s.value) else None);
      case Write(lba, data) =>
        var r := drive.WriteSector(lba, data);
        var s := disk.WriteSector(lba, data);
        x, y := AnswerOf(r), AnswerOf(s);
      case WriteMany(start, run) =>
        var r := drive.WriteSectors(start, run);
        var s := disk.WriteSectors(start, run);
        x, y := AnswerOf(r), AnswerOf(s);
      case Zero(start, count) =>
        var r := drive.ZeroSectors(start, count);
        var s := disk.ZeroSectors(start, count);
        x, y := AnswerOf(r), AnswerOf(s);
    }
  }

  /** Over every run of accesses LemonFS cannot tell the partition from a flat array of sectors. */
  method Refines(drive: DriveDisk, disk: Disk, run: seq<Access>) returns (xs: seq<Answer>, ys: seq<Answer>)
    requires drive.part.Valid() && disk.sectors == drive.part.Flat()
    modifies drive.part.drive, disk
    ensures drive.part.Valid() && disk.sectors == drive.part.Flat() && xs == ys && |xs| == |run|
  {
    xs, ys := [], [];
    for i := 0 to |run|
      invariant drive.part.Valid() && disk.sectors == drive.part.Flat()
      invariant xs == ys && |xs| == i
    {
      var x, y := Lockstep(drive, disk, run[i]);
      xs, ys := xs + [x], ys + [y];
    }
  }
}
