/**
 * The view of a partition as 512-byte sectors over a drive with larger native blocks
 * (`fs/lba_abstractor.rs`, `Drive::read/write` and `read_smart` in `drivers/storage/mod.rs`).
 *
 * A drive holds its content as consecutive sectors, `spb` of them per native block. A page range holds
 * eight sectors per page. All offsets in the code are multiples of 512 bytes.
 */
module SectorView {
  import opened Basics
  import opened Bits

  datatype Sector = Sector(bytes: seq<Byte>)

  const MAX_SECTORS: nat := 0x1000

  datatype StorageError = CommandFailed | BlockOutOfBounds
  datatype Result<T> = Ok(value: T) | Err(error: StorageError)

  function Blank(): Sector
  {
    Sector(seq(512, i => 0))
  }

  function Blanks(n: nat): (s: seq<Sector>)
    ensures |s| == n && forall k {:trigger s[k]} :: 0 <= k < n ==> s[k] == Blank()
  {
    seq(n, i => Blank())
  }

  /** Every sector has its 512 bytes. */
  predicate Sized(s: seq<Sector>)
  {
    forall k {:trigger s[k]} :: 0 <= k < |s| ==> |s[k].bytes| == 512
  }

  // ----- Pages in memory -----

  /** `PhysPage`: zeroed pages, accessed a sector at a time. */
  class PhysPage {
    const count: nat
    var sectors: seq<Sector>

    constructor (count: nat)
      ensures this.count == count && sectors == Blanks(8 * count)
    {
      this.count := count;
      sectors := Blanks(8 * count);
    }

    ghost predicate Valid()
      reads this
    {
      |sectors| == 8 * count
    }

    /** Read the sector at a byte offset, `at` sectors into the pages. */
    method ReadData(offset: nat, ghost at: nat) returns (r: Result<Sector>)
      requires Valid() && offset == 512 * at
      ensures r == if at < |sectors| then Ok(sectors[at]) else Err(CommandFailed)
    {
      if count * PAGE_SIZE < offset + 512 { return Err(CommandFailed); }
      r := Ok(sectors[offset / 512]);
    }

    method WriteData(offset: nat, data: Sector, ghost at: nat) returns (r: Result<()>)
      requires Valid() && offset == 512 * at
      modifies this
      ensures Valid()
      ensures at < |sectors| ==> r == Ok(()) && sectors == old(sectors)[at := data]
      ensures at >= |sectors| ==> r.Err? && sectors == old(sectors)
    {
      if count * PAGE_SIZE < offset + 512 { return Err(CommandFailed); }
      sectors := sectors[offset / 512 := data];
      r := Ok(());
    }
  }

  // ----- Native blocks -----

  /** Native block sizes are the multiples of 512 that divide a page. */
  predicate PerBlock(spb: nat)
  {
    spb == 1 || spb == 2 || spb == 4 || spb == 8
  }

  /** The sequence with `t` written over position `at`. */
  function Overwrite<T>(s: seq<T>, at: nat, t: seq<T>): (r: seq<T>)
    requires at + |t| <= |s|
    ensures |r| == |s|
    ensures forall k {:trigger r[k]} :: 0 <= k < |s| ==> r[k] == if at <= k < at + |t| then t[k - at] else s[k]
  {
    seq(|s|, k requires 0 <= k < |s| => if at <= k < at + |t| then t[k - at] else s[k])
  }

  /** A slice of a slice. */
  lemma SubSlice<T>(s: seq<T>, a: nat, b: nat, c: nat, d: nat)
    requires a <= b <= |s| && c <= d <= b - a
    ensures s[a..b][c..d] == s[a + c..a + d]
  {
    var t, u := s[a..b][c..d], s[a + c..a + d];
    forall i | 0 <= i < d - c
      ensures t[i] == u[i]
    {
      assert t[i] == s[a..b][c + i];
    }
  }

  class Drive {
    const spb: nat
    var sectors: seq<Sector>

    constructor (spb: nat, sectors: seq<Sector>)
      ensures this.spb == spb && this.sectors == sectors
    {
      this.spb := spb;
      this.sectors := sectors;
    }

    function BlockSize(): nat
    {
      512 * spb
    }

    /** `read_smart`: a page range just large enough for the blocks, filled from the drive. */
    method ReadSmart(startBlock: nat, count: nat) returns (page: PhysPage)
      requires PerBlock(spb) && (startBlock + count) * spb <= |sectors|
      ensures page.Valid() && fresh(page) && count * spb <= |page.sectors|
      ensures page.sectors[..count * spb] == sectors[startBlock * spb..(startBlock + count) * spb]
    {
      var blocksPerPage := DivCeil(PAGE_SIZE, BlockSize());
      var pageCount := DivCeil(count, blocksPerPage);
      Sizing(spb, count);
      Spread(startBlock, count, spb);
      page := new PhysPage(pageCount);
      page.sectors := Overwrite(page.sectors, 0, sectors[startBlock * spb..(startBlock + count) * spb]);
    }

    method WriteBlocks(startBlock: nat, count: nat, src: PhysPage)
      requires PerBlock(spb) && (startBlock + count) * spb <= |sectors| && count * spb <= |src.sectors|
      requires startBlock * spb + count * spb == (startBlock + count) * spb
      modifies this
      ensures sectors == Overwrite(old(sectors), startBlock * spb, src.sectors[..count * spb])
    {
      sectors := Overwrite(sectors, startBlock * spb, src.sectors[..count * spb]);
    }
  }

  lemma Spread(a: nat, b: nat, spb: nat)
    ensures (a + b) * spb == a * spb + b * spb
  {
  }

  /** The pages `read_smart` allocates hold the blocks it reads. */
  lemma Sizing(spb: nat, count: nat)
    requires PerBlock(spb)
    ensures 512 * spb > 0 && DivCeil(PAGE_SIZE, 512 * spb) > 0
    ensures count * spb <= 8 * DivCeil(count, DivCeil(PAGE_SIZE, 512 * spb))
  {
    if spb == 1 {
    } else if spb == 2 {
    } else if spb == 4 {
    } else {
    }
  }

  // ----- The native blocks that hold a run of sectors -----

  /** Native blocks `[ns, ne)`, that is sectors `[lo, hi)`, are the least that hold `[start, start + count)`. */
  predicate Covers(start: nat, count: nat, spb: nat, ns: nat, ne: nat, lo: nat, hi: nat)
  {
    PerBlock(spb) && lo == ns * spb && hi == ne * spb && ns < ne
    && lo <= start < lo + spb && start + count <= hi < start + count + spb
    && (ne - ns) * spb == hi - lo
  }

  lemma NativeStart(start: nat, spb: nat, ns: nat)
    requires PerBlock(spb) && ns == (start * 512) / (512 * spb)
    ensures ns * spb <= start < ns * spb + spb && ns * (512 * spb) == 512 * (ns * spb)
  {
    if spb == 1 {
    } else if spb == 2 {
    } else if spb == 4 {
    } else {
    }
  }

  lemma NativeEnd(end: nat, spb: nat, ne: nat)
    requires PerBlock(spb) && ne == DivCeil(end * 512, 512 * spb)
    ensures end <= ne * spb < end + spb
  {
    if spb == 1 {
    } else if spb == 2 {
    } else if spb == 4 {
    } else {
    }
  }

  lemma Difference(spb: nat, ns: nat, ne: nat)
    requires PerBlock(spb) && ns * spb < ne * spb
    ensures ns < ne && (ne - ns) * spb == ne * spb - ns * spb
  {
    if spb == 1 {
    } else if spb == 2 {
    } else if spb == 4 {
    } else {
    }
  }

  lemma NativeRange(start: nat, count: nat, spb: nat, ns: nat, ne: nat)
    requires PerBlock(spb) && count > 0
    requires ns == (start * 512) / (512 * spb) && ne == DivCeil((start + count) * 512, 512 * spb)
    ensures Covers(start, count, spb, ns, ne, ns * spb, ne * spb)
    ensures ns * (512 * spb) == 512 * (ns * spb)
  {
    NativeStart(start, spb, ns);
    NativeEnd(start + count, spb, ne);
    Difference(spb, ns, ne);
  }

  /** The blocks lie in a partition of `size` blocks exactly when the sectors do. */
  lemma InBounds(start: nat, count: nat, spb: nat, ns: nat, ne: nat, lo: nat, hi: nat, size: nat)
    requires Covers(start, count, spb, ns, ne, lo, hi)
    ensures ne <= size <==> start + count <= size * spb
    ensures ne <= size ==> hi <= size * spb
  {
    if spb == 1 {
    } else if spb == 2 {
    } else if spb == 4 {
    } else {
    }
  }

  /** How many sectors `zero_sectors` blanks: all, or the whole pieces of `MAX_SECTORS` that lie on the partition. */
  function ZeroedCount(start: nat, count: nat, size: nat): (r: nat)
    ensures r <= count && (r > 0 ==> start + r <= size)
  {
    if start + count <= size then count
    else if start > size then 0
    else (size - start) / MAX_SECTORS * MAX_SECTORS
  }

  predicate AllBlank(s: seq<Sector>)
  {
    forall k :: 0 <= k < |s| ==> s[k] == Blank()
  }

  /** `[from, to)` is blank and the rest as before. */
  predicate Blanked(before: seq<Sector>, after: seq<Sector>, from: nat, to: nat)
  {
    |after| == |before| && forall k {:trigger after[k]} :: 0 <= k < |before| ==> after[k] == if from <= k < to then Blank() else before[k]
  }

  lemma BlankedMore(before: seq<Sector>, mid: seq<Sector>, after: seq<Sector>, from: nat, to: nat, chunk: nat, page: seq<Sector>)
    requires Blanked(before, mid, from, to) && from <= to && to + chunk <= |mid| && chunk <= |page| && AllBlank(page)
    requires after == Overwrite(mid, to, page[..chunk])
    ensures Blanked(before, after, from, to + chunk)
  {
    forall k {:trigger after[k]} | 0 <= k < |before|
      ensures after[k] == if from <= k < to + chunk then Blank() else before[k]
    {
      assert to <= k < to + chunk ==> after[k] == page[..chunk][k - to] == page[k - to];
      assert !(to <= k < to + chunk) ==> after[k] == mid[k];
    }
  }

  lemma ZeroedSoFar(start: nat, count: nat, size: nat, q: nat, sector: nat)
    requires start + count > size && sector == start + q * MAX_SECTORS && sector + MAX_SECTORS > size && (q > 0 ==> sector <= size)
    ensures ZeroedCount(start, count, size) == q * MAX_SECTORS
  {
  }

  class PartitionDrive {
    const drive: Drive
    const start: nat
    const size: nat

    constructor (drive: Drive, start: nat, size: nat)
      ensures this.drive == drive && this.start == start && this.size == size
    {
      this.drive, this.start, this.size := drive, start, size;
    }

    /** The partition lies on its drive. */
    ghost predicate Valid()
      reads drive
    {
      PerBlock(drive.spb) && Base() + SectorCount() <= |drive.sectors|
    }

    /** The drive's first sector of the partition. */
    function Base(): nat
    {
      start * drive.spb
    }

    function SectorCount(): nat
    {
      size * drive.spb
    }

    /** What the partition holds, as a flat array of sectors. */
    ghost function Flat(): (f: seq<Sector>)
      requires Valid()
      reads drive
      ensures |f| == SectorCount()
    {
      drive.sectors[Base()..Base() + SectorCount()]
    }

    /** `Drive::read` on this partition. */
    method NativeRead(offset: nat, count: nat, ghost lo: nat, ghost hi: nat) returns (r: Result<PhysPage>)
      requires Valid() && lo == offset * drive.spb && hi - lo == count * drive.spb && hi >= lo
      ensures r == Err(BlockOutOfBounds) || r.Ok?
      ensures r.Ok? <==> offset + count <= size
      ensures r.Ok? ==> r.value.Valid() && fresh(r.value) && hi - lo <= |r.value.sectors|
      ensures r.Ok? ==> hi <= |Flat()| && r.value.sectors[..hi - lo] == Flat()[lo..hi]
    {
      if offset + count > size { return Err(BlockOutOfBounds); }
      Scaled(start, offset, count, size, drive.spb);
      SubSlice(drive.sectors, Base(), Base() + SectorCount(), lo, hi);
      var page := drive.ReadSmart(start + offset, count);
      r := Ok(page);
    }

    /** `Drive::write` on this partition. */
    method NativeWrite(offset: nat, count: nat, src: PhysPage, ghost lo: nat, ghost hi: nat) returns (r: Result<()>)
      requires Valid() && lo == offset * drive.spb && hi - lo == count * drive.spb && hi >= lo
      requires src.Valid()
      modifies drive
      ensures r.Ok? <==> offset + count <= size && hi - lo <= |src.sectors|
      ensures r.Ok? ==> Base() + hi <= old(|drive.sectors|)
      ensures r.Ok? ==> drive.sectors == Overwrite(old(drive.sectors), Base() + lo, src.sectors[..hi - lo])
      ensures r.Err? ==> drive.sectors == old(drive.sectors)
    {
      if offset + count > size { return Err(BlockOutOfBounds); }
      Scaled(start, offset, count, size, drive.spb);
      if src.count * PAGE_SIZE < count * drive.BlockSize() { return Err(CommandFailed); }
      drive.WriteBlocks(start + offset, count, src);
      r := Ok(());
    }

    /** Reading returns exactly the sectors asked for, and fails only on none or beyond the partition. */
    method ReadSectors(start: nat, count: nat) returns (r: Result<PhysPage>)
      requires Valid()
      ensures r.Ok? <==> count > 0 && start + count <= SectorCount()
      ensures r.Ok? ==> r.value.Valid() && fresh(r.value) && count <= |r.value.sectors|
      ensures r.Ok? ==> r.value.sectors[..count] == Flat()[start..start + count]
    {
      if count == 0 { return Err(CommandFailed); }
      var blockSize := drive.BlockSize();
      var nativeStart := (start * 512) / blockSize;
      var nativeEnd := DivCeil((start + count) * 512, blockSize);
      ghost var lo, hi := nativeStart * drive.spb, nativeEnd * drive.spb;
      NativeRange(start, count, drive.spb, nativeStart, nativeEnd);
      InBounds(start, count, drive.spb, nativeStart, nativeEnd, lo, hi, size);
      var nativeCount := nativeEnd - nativeStart;

      var native := NativeRead(nativeStart, nativeCount, lo, hi);
      if native.Err? { return native; }
      var nativePages := native.value;
      var dest := new PhysPage(DivCeil(count * 512, PAGE_SIZE));
      CopyOut(start, count, nativeStart * blockSize, nativePages, dest, Flat()[lo..hi], lo);
      SubSlice(Flat(), lo, hi, start - lo, start - lo + count);
      r := Ok(dest);
    }

    /** Copy sectors `[start, start + count)` out of pages that begin with sector `lo`. */
    static method CopyOut(start: nat, count: nat, origin: nat, from: PhysPage, dest: PhysPage,
                          ghost native: seq<Sector>, ghost lo: nat)
      requires origin == 512 * lo && lo <= start && start + count <= lo + |native|
      requires from != dest && from.Valid() && native <= from.sectors && dest.Valid() && count <= |dest.sectors|
      modifies dest
      ensures dest.Valid() && dest.sectors[..count] == native[start - lo..start - lo + count]
    {
      for i := 0 to count
        invariant dest.Valid() && dest.sectors[..i] == native[start - lo..start - lo + i]
      {
        var off := (start + i) * 512 - origin;
        ghost var at := start + i - lo;
        var buf := from.ReadData(off, at);
        var written := dest.WriteData(i * 512, buf.value, i);
        assert dest.sectors[..i + 1] == native[start - lo..at] + [native[at]];
      }
    }

    /** What sector `g` is to hold: the source where it applies, the old content elsewhere. */
    static ghost function Wanted(flat: seq<Sector>, src: seq<Sector>, start: nat, count: nat, g: nat): Sector
      requires g < |flat| && count <= |src|
    {
      if start <= g < start + count then src[g - start] else flat[g]
    }

    /** `staging` holds sectors `[lo, upTo)` as they are to be. */
    static ghost predicate Staged(staging: seq<Sector>, flat: seq<Sector>, src: seq<Sector>, start: nat, count: nat, lo: nat, upTo: nat)
    {
      lo <= upTo <= |flat| && upTo - lo <= |staging| && count <= |src|
      && forall k {:trigger staging[k]} :: 0 <= k < upTo - lo ==> staging[k] == Wanted(flat, src, start, count, lo + k)
    }

    /** Fill one native block of the staging pages: read it first if the source covers only part of it. */
    method StageBlock(start: nat, count: nat, nativeBlock: nat, origin: nat, staging: PhysPage, src: PhysPage,
                      ghost lo: nat, ghost first: nat) returns (r: Result<()>)
      requires Valid() && origin == 512 * lo && first == nativeBlock * drive.spb
      requires nativeBlock * drive.BlockSize() == 512 * first
      requires nativeBlock < size ==> first + drive.spb <= SectorCount()
      requires lo <= first && start < first + drive.spb && first < start + count
      requires staging != src && staging.Valid() && src.Valid()
      requires first + drive.spb - lo <= |staging.sectors| && count <= |src.sectors|
      modifies staging
      ensures staging.Valid() && (nativeBlock < size ==> r.Ok?)
      ensures nativeBlock < size && Staged(old(staging.sectors), Flat(), src.sectors, start, count, lo, first) ==>
                Staged(staging.sectors, Flat(), src.sectors, start, count, lo, first + drive.spb)
    {
      var begin := nativeBlock * drive.spb;
      var last := begin + drive.spb - 1;
      var coveredStart := if begin > start then begin else start;
      var coveredEnd := if last < start + count - 1 then last else start + count - 1;
      if coveredStart != begin || coveredEnd != last {
        var tmp := NativeRead(nativeBlock, 1, begin, begin + drive.spb);
        if tmp.Err? { return Err(tmp.error); }
        CopyBlock(begin, last, nativeBlock * drive.BlockSize(), origin, tmp.value, staging, Flat(), lo);
      }
      CopyIn(start, coveredStart, coveredEnd, origin, src, staging, lo);
      r := Ok(());
    }

    /** Bring a whole native block into the staging pages. */
    static method CopyBlock(first: nat, last: nat, blockOrigin: nat, origin: nat, tmp: PhysPage, staging: PhysPage,
                            ghost flat: seq<Sector>, ghost lo: nat)
      requires blockOrigin == 512 * first && origin == 512 * lo && lo <= first <= last < |flat|
      requires tmp != staging && tmp.Valid() && staging.Valid() && flat[first..last + 1] <= tmp.sectors
      requires last - lo < |staging.sectors|
      modifies staging
      ensures staging.Valid()
      ensures forall k {:trigger staging.sectors[k]} :: 0 <= k < |staging.sectors| ==>
                staging.sectors[k] == if first <= lo + k <= last then flat[lo + k] else old(staging.sectors)[k]
    {
      ghost var before := staging.sectors;
      for j := first to last + 1
        invariant staging.Valid()
        invariant forall k {:trigger staging.sectors[k]} :: 0 <= k < |staging.sectors| ==>
                    staging.sectors[k] == if first <= lo + k < j then flat[lo + k] else before[k]
      {
        var data := tmp.ReadData(j * 512 - blockOrigin, j - first);
        assert flat[first..last + 1][j - first] == flat[j];
        var written := staging.WriteData(j * 512 - origin, data.value, j - lo);
      }
    }

    /** Bring the source's share of a native block into the staging pages. */
    static method CopyIn(start: nat, from: nat, last: nat, origin: nat, src: PhysPage, staging: PhysPage, ghost lo: nat)
      requires origin == 512 * lo && start <= from <= last + 1 && lo <= from && src != staging
      requires src.Valid() && staging.Valid() && last - start < |src.sectors| && last - lo < |staging.sectors|
      modifies staging
      ensures staging.Valid()
      ensures forall k {:trigger staging.sectors[k]} :: 0 <= k < |staging.sectors| ==>
                staging.sectors[k] == if from <= lo + k <= last then src.sectors[lo + k - start] else old(staging.sectors)[k]
    {
      ghost var before := staging.sectors;
      for j := from to last + 1
        invariant staging.Valid()
        invariant forall k {:trigger staging.sectors[k]} :: 0 <= k < |staging.sectors| ==>
                    staging.sectors[k] == if from <= lo + k < j then src.sectors[lo + k - start] else before[k]
      {
        var data := src.ReadData((j - start) * 512, j - start);
        var written := staging.WriteData(j * 512 - origin, data.value, j - lo);
      }
    }

    /** Writing changes exactly the sectors asked for, whatever native blocks they share with others. */
    method WriteSectors(start: nat, count: nat, src: PhysPage) returns (r: Result<()>)
      requires Valid() && src.Valid()
      modifies drive
      ensures Valid() && (r.Ok? <==> count == 0 || (count <= |src.sectors| && start + count <= SectorCount()))
      ensures r.Ok? && count > 0 ==> drive.sectors == Overwrite(old(drive.sectors), Base() + start, src.sectors[..count])
      ensures r.Ok? && count > 0 ==> Flat() == Overwrite(old(Flat()), start, src.sectors[..count])
      ensures r.Err? || count == 0 ==> drive.sectors == old(drive.sectors)
    {
      if count == 0 { return Ok(()); }
      var blockSize := drive.BlockSize();
      var nativeStart := (start * 512) / blockSize;
      var nativeEnd := DivCeil((start + count) * 512, blockSize);
      ghost var lo, hi := nativeStart * drive.spb, nativeEnd * drive.spb;
      NativeRange(start, count, drive.spb, nativeStart, nativeEnd);
      InBounds(start, count, drive.spb, nativeStart, nativeEnd, lo, hi, size);
      if src.count * PAGE_SIZE < count * 512 { return Err(CommandFailed); }
      r := WriteNative(start, count, nativeStart, nativeEnd - nativeStart, src, lo, hi);
    }

    method WriteNative(start: nat, count: nat, nativeStart: nat, nativeCount: nat, src: PhysPage, ghost lo: nat, ghost hi: nat)
        returns (r: Result<()>)
      requires Valid() && Covers(start, count, drive.spb, nativeStart, nativeStart + nativeCount, lo, hi)
      requires src.Valid() && count <= |src.sectors|
      requires nativeStart + nativeCount <= size ==> hi <= SectorCount()
      modifies drive
      ensures Valid() && (r.Ok? <==> nativeStart + nativeCount <= size)
      ensures r.Ok? ==> drive.sectors == Overwrite(old(drive.sectors), Base() + start, src.sectors[..count])
      ensures r.Ok? ==> Flat() == Overwrite(old(Flat()), start, src.sectors[..count])
      ensures r.Err? ==> drive.sectors == old(drive.sectors)
    {
      r := WriteCovering(start, count, nativeStart, nativeCount, src, lo, hi);
      if r.Ok? {
        FlatOverwrite(old(drive.sectors), Base(), SectorCount(), start, src.sectors[..count]);
      }
    }

    method WriteCovering(start: nat, count: nat, nativeStart: nat, nativeCount: nat, src: PhysPage, ghost lo: nat, ghost hi: nat)
        returns (r: Result<()>)
      requires Valid() && Covers(start, count, drive.spb, nativeStart, nativeStart + nativeCount, lo, hi)
      requires src.Valid() && count <= |src.sectors|
      requires nativeStart + nativeCount <= size ==> hi <= SectorCount()
      modifies drive
      ensures r.Ok? <==> nativeStart + nativeCount <= size
      ensures r.Ok? ==> drive.sectors == Overwrite(old(drive.sectors), Base() + start, src.sectors[..count])
      ensures r.Err? ==> drive.sectors == old(drive.sectors)
    {
      ghost var before, data := drive.sectors, src.sectors;
      var staging := Stage(start, count, nativeStart, nativeCount, src, lo, hi);
      if staging.Err? { return Err(staging.error); }
      ghost var staged := staging.value.sectors;
      r := NativeWrite(nativeStart, nativeCount, staging.value, lo, hi);
      if r.Ok? {
        StagedIsOverwrite(before, Base(), SectorCount(), staged, data, start, count, lo, hi);
      }
    }

    /** The native blocks to be written, in pages of their own. */
    method Stage(start: nat, count: nat, nativeStart: nat, nativeCount: nat, src: PhysPage, ghost lo: nat, ghost hi: nat)
        returns (r: Result<PhysPage>)
      requires Valid() && Covers(start, count, drive.spb, nativeStart, nativeStart + nativeCount, lo, hi)
      requires src.Valid() && count <= |src.sectors|
      requires nativeStart + nativeCount <= size ==> hi <= SectorCount()
      ensures r.Ok? ==> fresh(r.value) && r.value.Valid() && hi - lo <= |r.value.sectors|
      ensures nativeStart + nativeCount <= size ==>
                r.Ok? && Staged(r.value.sectors, Flat(), src.sectors, start, count, lo, hi)
    {
      var staging := new PhysPage(DivCeil(nativeCount * drive.BlockSize(), PAGE_SIZE));
      StagingSize(nativeCount, drive.spb);
      var filled := StageAll(start, count, nativeStart, nativeCount, staging, src, lo, hi);
      if filled.Err? { return Err(filled.error); }
      r := Ok(staging);
    }

    /** Fill the staging pages, one native block after the other. */
    method StageAll(start: nat, count: nat, nativeStart: nat, nativeCount: nat, staging: PhysPage, src: PhysPage,
                    ghost lo: nat, ghost hi: nat) returns (r: Result<()>)
      requires Valid() && Covers(start, count, drive.spb, nativeStart, nativeStart + nativeCount, lo, hi)
      requires staging != src && staging.Valid() && src.Valid() && hi - lo <= |staging.sectors| && count <= |src.sectors|
      requires nativeStart + nativeCount <= size ==> hi <= SectorCount()
      modifies staging
      ensures staging.Valid()
      ensures nativeStart + nativeCount <= size ==>
                r.Ok? && Staged(staging.sectors, Flat(), src.sectors, start, count, lo, hi)
    {
      ghost var nativeEnd, flat := nativeStart + nativeCount, Flat();
      ghost var at := lo;
      for i := 0 to nativeCount
        invariant staging.Valid() && at == lo + i * drive.spb
        invariant nativeEnd <= size ==> Staged(staging.sectors, flat, src.sectors, start, count, lo, at)
      {
        BlockWithin(start, count, drive.spb, nativeStart, nativeEnd, lo, hi, size, i);
        r := StageBlock(start, count, nativeStart + i, nativeStart * drive.BlockSize(), staging, src, lo, at);
        if r.Err? { return; }
        at := at + drive.spb;
      }
      r := Ok(());
    }

    /** What `zero_sectors` has blanked so far, on the drive and in the partition. */
    static lemma BlankedIsOverwrite(before: seq<Sector>, after: seq<Sector>, base: nat, size: nat, start: nat, count: nat)
      requires Blanked(before, after, base + start, base + start + count)
      requires base + size <= |before| && (count > 0 ==> start + count <= size)
      ensures if count == 0 then after == before
              else after == Overwrite(before, base + start, Blanks(count))
                   && after[base..base + size] == Overwrite(before[base..base + size], start, Blanks(count))
    {
      if count == 0 {
        assert forall k :: 0 <= k < |before| ==> after[k] == before[k];
      } else {
        var wanted := Overwrite(before, base + start, Blanks(count));
        forall k | 0 <= k < |before|
          ensures after[k] == wanted[k]
        {
          assert base + start <= k < base + start + count ==> wanted[k] == Blanks(count)[k - base - start];
        }
        assert after == wanted;
        FlatOverwrite(before, base, size, start, Blanks(count));
      }
    }

    static lemma FlatOverwrite(sectors: seq<Sector>, base: nat, size: nat, start: nat, t: seq<Sector>)
      requires base + size <= |sectors| && start + |t| <= size
      ensures Overwrite(sectors, base + start, t)[base..base + size] == Overwrite(sectors[base..base + size], start, t)
    {
    }

    /** Zeroing writes blank sectors in pieces of at most `MAX_SECTORS`. */
    method ZeroSectors(start: nat, count: nat) returns (r: Result<()>)
      requires Valid()
      modifies drive
      ensures Valid()
      ensures r.Ok? <==> count == 0 || start + count <= SectorCount()
      ensures var done := ZeroedCount(start, count, SectorCount());
        if done == 0 then drive.sectors == old(drive.sectors)
        else drive.sectors == Overwrite(old(drive.sectors), Base() + start, Blanks(done))
             && Flat() == Overwrite(old(Flat()), start, Blanks(done))
    {
      ghost var before := drive.sectors;
      ghost var q, to;
      if count == 0 { return Ok(()); }
      r, q, to := ZeroPieces(start, count);
      if r.Err? { ZeroedSoFar(start, count, SectorCount(), q, to); }
      BlankedIsOverwrite(before, drive.sectors, Base(), SectorCount(), start, ZeroedCount(start, count, SectorCount()));
    }

    /** The loop of this: `q` pieces, up to sector `to`, are blank. */
    method ZeroPieces(start: nat, count: nat) returns (r: Result<()>, ghost q: nat, ghost to: nat)
      requires Valid() && count > 0
      modifies drive
      ensures Valid() && Blanked(old(drive.sectors), drive.sectors, Base() + start, Base() + to)
      ensures r.Ok? ==> to == start + count <= SectorCount()
      ensures r.Err? ==> start + count > SectorCount() && to == start + q * MAX_SECTORS && to + MAX_SECTORS > SectorCount()
      ensures r.Err? && q > 0 ==> to <= SectorCount()
    {
      var page := new PhysPage(DivCeil(if count < MAX_SECTORS then count else MAX_SECTORS, 8));
      ghost var before := drive.sectors;
      var sector, rem := start, count;
      q := 0;
      while rem > 0
        invariant rem > 0 ==> sector == start + q * MAX_SECTORS
        invariant sector + rem == start + count && start <= sector && rem >= 0 && Valid() && page.Valid()
        invariant (if count < MAX_SECTORS then count else MAX_SECTORS) <= |page.sectors|
        invariant AllBlank(page.sectors) && (sector > start ==> sector <= SectorCount())
        invariant Blanked(before, drive.sectors, Base() + start, Base() + sector)
      {
        var chunk := if rem < MAX_SECTORS then rem else MAX_SECTORS;
        ghost var mid := drive.sectors;
        r := WriteSectors(sector, chunk, page);
        if r.Err? { return r, q, sector; }
        BlankedMore(before, mid, drive.sectors, Base() + start, Base() + sector, chunk, page.sectors);
        rem := rem - chunk;
        sector := sector + chunk;
        q := q + 1;
      }
      return Ok(()), q, sector;
    }

    static lemma StagedIsOverwrite(sectors: seq<Sector>, base: nat, size: nat, staging: seq<Sector>, src: seq<Sector>,
                                   start: nat, count: nat, lo: nat, hi: nat)
      requires base + size <= |sectors| && lo <= start && start + count <= hi <= size && count <= |src|
      requires hi - lo <= |staging| && Staged(staging, sectors[base..base + size], src, start, count, lo, hi)
      ensures Overwrite(sectors, base + lo, staging[..hi - lo]) == Overwrite(sectors, base + start, src[..count])
    {
      var after, wanted := Overwrite(sectors, base + lo, staging[..hi - lo]), Overwrite(sectors, base + start, src[..count]);
      forall k | 0 <= k < |sectors|
        ensures after[k] == wanted[k]
      {
        if base + lo <= k < base + hi {
          assert after[k] == staging[..hi - lo][k - (base + lo)] == staging[k - (base + lo)];
        }
      }
    }
  }

  lemma StagingSize(nativeCount: nat, spb: nat)
    requires PerBlock(spb)
    ensures nativeCount * spb <= 8 * DivCeil(nativeCount * (512 * spb), PAGE_SIZE)
  {
    if spb == 1 {
    } else if spb == 2 {
    } else if spb == 4 {
    } else {
    }
  }

  /** Every native block of a covering run shares a sector with the run. */
  lemma BlockWithin(start: nat, count: nat, spb: nat, ns: nat, ne: nat, lo: nat, hi: nat, size: nat, i: nat)
    requires Covers(start, count, spb, ns, ne, lo, hi) && i < ne - ns
    ensures ns * (512 * spb) == 512 * lo
    ensures (ns + i) * spb == lo + i * spb && (ns + i) * (512 * spb) == 512 * (lo + i * spb)
    ensures start < lo + i * spb + spb && lo + i * spb < start + count && lo + i * spb + spb <= hi
    ensures (i + 1) * spb == i * spb + spb
    ensures ns + i < size ==> lo + i * spb + spb <= size * spb
  {
    if spb == 1 {
    } else if spb == 2 {
    } else if spb == 4 {
    } else {
    }
  }

  lemma Scaled(start: nat, offset: nat, count: nat, size: nat, spb: nat)
    requires PerBlock(spb) && offset + count <= size
    ensures (start + offset) * spb == start * spb + offset * spb
    ensures (start + offset + count) * spb == start * spb + offset * spb + count * spb
    ensures offset * spb + count * spb <= size * spb
    ensures count * (512 * spb) == 512 * (count * spb)
  {
    if spb == 1 {
    } else if spb == 2 {
    } else if spb == 4 {
    } else {
    }
  }
}
