/** The disk and the bitmap of a mounted volume, as every LemonFS operation uses them. */
module Volume {
  import opened Basics
  import opened Bitmap
  import opened BitmapBlock
  import opened Disk
  import opened SectorView

  /** Volumes are limited so that every extent size in bytes is a 64-bit number. */
  const MAX_SECTORS_U64: nat := 0x80_0000_0000_0000

  class Volume {
    const disk: Disk
    const bitmap: BitmapAllocator
    const dataEnd: nat

    constructor (disk: Disk, bitmap: BitmapAllocator, dataEnd: nat)
      ensures this.disk == disk && this.bitmap == bitmap && this.dataEnd == dataEnd
    {
      this.disk, this.bitmap, this.dataEnd := disk, bitmap, dataEnd;
    }

    /** The first data sector. */
    function Lo(): nat
    {
      bitmap.dataStart
    }

    /** The content of the disk. */
    ghost function D(): seq<Sector>
      reads disk
    {
      disk.sectors
    }

    /** The sectors marked used. */
    ghost function U(): set<nat>
      reads bitmap
    {
      bitmap.Used()
    }

    ghost predicate Valid()
      reads disk, bitmap
    {
      bitmap.Valid() && Bounded(Flat(bitmap.blocks), bitmap.dataStart, dataEnd)
      && 0 < bitmap.dataStart <= dataEnd < |disk.sectors| <= MAX_SECTORS_U64
      && dataEnd - bitmap.dataStart <= |Flat(bitmap.blocks)| && |bitmap.blocks| == bitmap.dataStart - 1
      && Sized(disk.sectors)
    }

    /** A search for one free sector finds none. */
    ghost predicate Exhausted()
      reads bitmap
    {
      FirstFit(Flat(bitmap.blocks), |bitmap.blocks|, 1).None?
    }

    /** How many sectors at the end of the first bitmap block are free. */
    ghost function Room(): nat
      reads bitmap
    {
      Bitmap.Room(Flat(bitmap.blocks))
    }

    lemma RoomFrom(x: nat)
      requires Valid() && Lo() <= x <= Lo() + BITS_PER_BLOCK <= dataEnd
      requires forall y: nat {:trigger y in U()} :: x <= y < Lo() + BITS_PER_BLOCK ==> y !in U()
      ensures Room() >= Lo() + BITS_PER_BLOCK - x
    {
      var bits, k := Flat(bitmap.blocks), x - Lo();
      forall m {:trigger bits[m]} | k <= m < BITS_PER_BLOCK
        ensures !bits[m]
      {
        assert Lo() + m !in U();
      }
      Bitmap.RoomFrom(bits, k);
    }

    /** The sector that a search for one free sector finds, if any. */
    ghost function Pick(): nat
      reads bitmap
    {
      match FirstFit(Flat(bitmap.blocks), |bitmap.blocks|, 1)
      case None => 0
      case Some(bit) => Lo() + bit
    }

    /** A free sector with a used one before it, or none, and free ones after it to the end of its bitmap block is picked. */
    lemma Picks(x: nat)
      requires Valid() && Lo() <= x < dataEnd && x < Lo() + BITS_PER_BLOCK && (x == Lo() || x - 1 in U())
      requires forall y: nat {:trigger y in U()} :: x <= y < Lo() + BITS_PER_BLOCK ==> y !in U()
      ensures !Exhausted() && Pick() == x
    {
      var bits, k := Flat(bitmap.blocks), x - Lo();
      forall m {:trigger bits[m]} | k <= m < BITS_PER_BLOCK && m < |bits|
        ensures !bits[m]
      {
        assert Lo() + m !in U();
      }
      FirstFitAt(bits, |bitmap.blocks|, k);
    }

    /** The sector that would be allocated next. */
    method Peek() returns (r: Option<nat>)
      requires Valid()
      ensures r.None? <==> Exhausted()
      ensures r.Some? ==> r.value == Pick() && Lo() <= r.value < dataEnd
    {
      var found := bitmap.FindFirstFit(1);
      if found.None? { return None; }
      FirstFitOk(Flat(bitmap.blocks), |bitmap.blocks|, 1);
      AllocWithinData(Flat(bitmap.blocks), bitmap.dataStart, dataEnd, found.value, 1);
      r := Some(bitmap.dataStart + found.value);
    }

    /** Allocation hands out a data sector that was not in use, unless the volume is exhausted; as long as there is room, it is not. */
    method Alloc() returns (r: Option<nat>)
      requires Valid()
      modifies bitmap
      ensures Valid()
      ensures r.None? <==> old(Exhausted())
      ensures r.None? ==> U() == old(U()) && Exhausted()
      ensures old(Room()) > 0 ==> r.Some? && Room() == old(Room()) - 1
      ensures r.Some? ==> r.value == old(Pick()) && Lo() <= r.value < dataEnd && r.value !in old(U()) && U() == old(U()) + {r.value}
    {
      ghost var bits := Flat(bitmap.blocks);
      r := bitmap.Alloc(1);
      RoomAfter(bits, |bitmap.blocks|, Flat(bitmap.blocks));
      if r.Some? {
        AllocWithinData(bits, bitmap.dataStart, dataEnd, r.value - bitmap.dataStart, 1);
        assert r.value !in old(U());
        assert U() == old(U()) + {r.value};
      }
    }

    method Free(start: nat, count: nat)
      requires Valid() && Lo() <= start && start + count <= dataEnd
      modifies bitmap
      ensures Valid() && Room() >= old(Room())
      ensures forall x {:trigger x in U()} {:trigger x in old(U())} :: x in U() <==> x in old(U()) && !(start <= x < start + count)
    {
      ghost var bits := Flat(bitmap.blocks);
      FreeKeepsBounded(Flat(bitmap.blocks), bitmap.dataStart, dataEnd, start - bitmap.dataStart, count);
      bitmap.FreeSectors(start, count);
      if |bits| >= BITS_PER_BLOCK { RunGrows(bits, Flat(bitmap.blocks), BITS_PER_BLOCK); }
    }

    method Read(lba: nat) returns (s: Sector)
      requires lba < |D()|
      ensures s == D()[lba]
    {
      var r := disk.ReadSector(lba);
      s := r.value;
    }

    method Write(lba: nat, s: Sector)
      requires Valid() && lba < |D()| && |s.bytes| == 512
      modifies disk
      ensures Valid() && D() == old(D())[lba := s]
    {
      var r := disk.WriteSector(lba, s);
    }

    /** `write_sectors`: consecutive sectors from `start` on. */
    method WriteRun(start: nat, data: seq<Sector>)
      requires Valid() && start + |data| <= |D()| && Sized(data)
      modifies disk
      ensures Valid() && D() == Overwrite(old(D()), start, data)
    {
      var r := disk.WriteSectors(start, data);
      assert data == [] ==> Overwrite(old(D()), start, data) == old(D());
    }

    /** `zero_sectors` */
    method Zero(start: nat, count: nat)
      requires Valid() && start + count <= |D()|
      modifies disk
      ensures Valid() && D() == Overwrite(old(D()), start, Blanks(count))
    {
      var r := disk.ZeroSectors(start, count);
    }
  }
}
