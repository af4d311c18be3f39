/** Formatting, mounting and syncing a volume (`init`, `format` and `sync` in `fs/lemonfs/mod.rs`). */
module FsMount {
  import opened Bitmap
  import opened BitmapBlock
  import opened Bits
  import opened Crc
  import opened Directory
  import opened Disk
  import opened FsCodec
  import opened FsTree
  import opened LemonFs
  import opened SectorView
  import opened Volume
  import Superblock

  /** `blocks` is the bitmap that `init` reads from sectors `[1, lo)`. */
  ghost predicate LoadedAs(d: seq<Sector>, lo: nat, blocks: seq<BlockState>)
  {
    1 <= lo <= |d| && |blocks| == lo - 1
    && (forall k {:trigger d[k]} :: 1 <= k < lo ==> |d[k].bytes| == 512)
    && forall i {:trigger blocks[i]} :: 0 <= i < |blocks| ==> blocks[i] == Collapsed(Mixed(d[1 + i].bytes))
  }

  /** The checksum code and table are those of the kernel. */
  ghost predicate Checker(poly: Word, table: seq<Word>)
  {
    |poly| == 64 && TableOk(poly, table)
  }

  /** The disk holds a volume with this superblock, bitmap and tree. */
  ghost predicate Holding(d: seq<Sector>, sb: Superblock.SuperBlock, blocks: seq<BlockState>, tree: Tree)
  {
    |d| <= MAX_SECTORS_U64 && Sized(d) && Superblock.Geometry(sb, |d|) && LoadedAs(d, sb.dataStart, blocks)
    && Sound(d, UsedSectors(Flat(blocks), sb.dataStart), sb.dataStart, sb.dataEnd, RootOf(sb.dataEnd), tree)
  }

  lemma ReservedBounded(after: Word, used: set<nat>, now: set<nat>, lo: nat, hi: nat)
    requires lo <= hi && now == UsedSectors(after, lo)
    requires forall x: nat {:trigger x in now} :: x in now <==> x in used || hi - 1 < x < lo + |after|
    ensures Bounded(after, lo, hi)
  {
    forall m | hi - lo <= m < |after|
      ensures after[m]
    {
      assert lo + m in now;
    }
  }

  /** The bitmap part of `init`: read it and reserve everything from the root block on. */
  method LoadBitmap(disk: Disk, bitmapStart: nat, lo: nat, hi: nat, ghost blocks: seq<BlockState>) returns (bitmap: BitmapAllocator)
    requires bitmapStart == 1 && LoadedAs(disk.sectors, lo, blocks) && 1 < lo < hi
    ensures fresh(bitmap) && bitmap.Valid() && bitmap.dataStart == lo && |bitmap.blocks| == lo - 1
    ensures Bounded(Flat(bitmap.blocks), lo, hi)
    ensures forall x: nat {:trigger x in bitmap.Used()} {:trigger x in UsedSectors(Flat(blocks), lo)} ::
      lo <= x < hi ==> (x in bitmap.Used() <==> x in UsedSectors(Flat(blocks), lo))
  {
    bitmap := new BitmapAllocator(lo);
    var loaded := bitmap.Load(disk, bitmapStart);
    assert bitmap.blocks == blocks;
    ghost var used := UsedSectors(Flat(blocks), lo);
    assert bitmap.Used() == used;
    bitmap.ReserveFrom(hi - 1);
    assert forall x: nat {:trigger x in bitmap.Used()} {:trigger x in used} ::
      x in bitmap.Used() <==> x in used || hi - 1 < x < lo + |Flat(bitmap.blocks)|;
    ReservedBounded(Flat(bitmap.blocks), used, bitmap.Used(), lo, hi);
  }

  lemma SoundLike(d: seq<Sector>, used: set<nat>, after: set<nat>, lo: nat, hi: nat, root: DirEntry, t: Tree)
    requires Sound(d, used, lo, hi, root, t)
    requires forall x: nat {:trigger x in after} {:trigger x in used} :: lo <= x < hi ==> (x in after <==> x in used)
    ensures Sound(d, after, lo, hi, root, t)
  {
  }

  /** The rest of `init`, with the superblock at hand. */
  method Assemble(disk: Disk, sb: Superblock.SuperBlock, ghost blocks: seq<BlockState>, ghost tree: Tree) returns (fs: LemonFs)
    requires Holding(disk.sectors, sb, blocks, tree)
    ensures fresh(fs) && fresh(fs.v) && fresh(fs.v.bitmap) && fs.Valid() && fs.tree == tree && fs.CacheFresh()
    ensures fs.v.disk == disk && fs.v.dataEnd == sb.dataEnd && fs.v.Lo() == sb.dataStart
    ensures forall x: nat {:trigger x in fs.v.U()} :: sb.dataStart <= x < sb.dataEnd ==>
      (x in fs.v.U() <==> x in UsedSectors(Flat(blocks), sb.dataStart))
  {
    ghost var used := UsedSectors(Flat(blocks), sb.dataStart);
    var bitmap := LoadBitmap(disk, sb.bitmapStart, sb.dataStart, sb.dataEnd, blocks);
    var volume := new Volume(disk, bitmap, sb.dataEnd);
    SoundLike(disk.sectors, used, volume.U(), sb.dataStart, sb.dataEnd, RootOf(sb.dataEnd), tree);
    fs := new LemonFs(volume, tree);
  }

  // ----- Format -----

  function Frees(n: nat): (r: seq<BlockState>)
    ensures |r| == n && forall i {:trigger r[i]} :: 0 <= i < n ==> r[i] == Free
  {
    seq(n, i => Free)
  }

  lemma NoneUsed(n: nat, lo: nat, x: nat)
    ensures x !in UsedSectors(Flat(Frees(n)), lo)
  {
    var bits := Flat(Frees(n));
    if lo <= x < lo + |bits| {
      var m := x - lo;
      SplitIndex(m, n);
      FlatAt(Frees(n), m / BITS_PER_BLOCK, m % BITS_PER_BLOCK);
    }
  }

  lemma {:induction false} NamedNone(es: seq<DirEntry>)
    requires forall i :: 0 <= i < |es| ==> IsEmptyName(es[i].name)
    ensures Named(es) == []
  {
    if es != [] {
      NamedNone(es[1..]);
    }
  }

  lemma BlankIsEmpty()
    ensures EmptyBlock(Blank())
  {
    BlankDir();
    NamedNone(DirOf(Blank()).entries);
  }

  lemma BlankIsFree()
    ensures |Blank().bytes| == 512 && Collapsed(Mixed(Blank().bytes)) == Free
  {
  }

  lemma {:induction false} FreshTree(hi: nat, x: nat)
    ensures Owns(Dir([hi], []), x) <==> x == hi
  {
  }

  lemma EmptySound(d: seq<Sector>, n: nat, lo: nat, hi: nat)
    requires 0 < lo < hi < |d| <= MAX_SECTORS_U64 && d[hi] == Blank()
    ensures Sound(d, UsedSectors(Flat(Frees(n)), lo), lo, hi, RootOf(hi), Dir([hi], []))
  {
    var t, used := Dir([hi], []), UsedSectors(Flat(Frees(n)), lo);
    BlankIsEmpty();
    EmptyIff(d, RootOf(hi).name, hi);
    assert Marked(t, used, lo, hi) by {
      forall x: nat {:trigger Owns(t, x)} {:trigger x in used} | true
        ensures x !in used && (Owns(t, x) <==> x == hi)
      {
        NoneUsed(n, lo, x);
        FreshTree(hi, x);
      }
    }
  }

  /** The disk holds a volume without files. */
  ghost predicate HoldsEmpty(d: seq<Sector>, sb: Superblock.SuperBlock)
  {
    sb.dataStart > 0 && Holding(d, sb, Frees(sb.dataStart - 1), Dir([sb.dataEnd], []))
  }

  /** Blank bitmap sectors and a blank root block are an empty volume. */
  lemma EmptyVolume(d: seq<Sector>, sb: Superblock.SuperBlock)
    requires |d| <= MAX_SECTORS_U64 && Sized(d) && Superblock.Geometry(sb, |d|) && d[sb.dataEnd] == Blank()
    requires forall k {:trigger d[k]} :: 1 <= k < sb.dataStart ==> d[k] == Blank()
    ensures HoldsEmpty(d, sb)
  {
    EmptyLoaded(d, sb.dataStart);
    EmptySound(d, sb.dataStart - 1, sb.dataStart, sb.dataEnd);
  }

  lemma EmptyLoaded(d: seq<Sector>, lo: nat)
    requires 1 <= lo <= |d| && forall k {:trigger d[k]} :: 1 <= k < lo ==> d[k] == Blank()
    ensures LoadedAs(d, lo, Frees(lo - 1))
  {
    BlankIsFree();
    var blocks := Frees(lo - 1);
    forall i {:trigger blocks[i]} | 0 <= i < |blocks|
      ensures blocks[i] == Collapsed(Mixed(d[1 + i].bytes))
    {
      assert d[1 + i] == Blank();
    }
  }

  /** The two runs that `format` zeroes are blank and the rest is as before. */
  lemma Zeroed(w: seq<Sector>, f: seq<Sector>, lo: nat, hi: nat)
    requires Sized(w) && 1 <= lo <= hi && hi + 1 < |w| && f == Overwrite(Overwrite(w, 1, Blanks(lo - 1)), hi, Blanks(1))
    ensures |f| == |w| && Sized(f) && f[0] == w[0] && f[|f| - 1] == w[|w| - 1] && f[hi] == Blank()
    ensures forall k {:trigger f[k]} :: 1 <= k < lo ==> f[k] == Blank()
  {
    var mid := Overwrite(w, 1, Blanks(lo - 1));
    forall k {:trigger f[k]} | 0 <= k < |f|
      ensures f[k] == if 1 <= k < lo || k == hi then Blank() else w[k]
    {
      assert k != hi ==> f[k] == mid[k];
    }
  }

  lemma Formatted(poly: Word, w: seq<Sector>, sb: Superblock.SuperBlock)
    requires Generator(poly) && |poly| == 64 && Superblock.Sound(w) && Sized(w) && |w| <= MAX_SECTORS_U64 && Superblock.Geometry(sb, |w|)
    ensures var f := Overwrite(Overwrite(w, 1, Blanks(sb.dataStart - 1)), sb.dataEnd, Blanks(1));
      HoldsEmpty(f, sb) && Superblock.Sound(f) && Superblock.Found(poly, f) == Superblock.Found(poly, w)
  {
    var f := Overwrite(Overwrite(w, 1, Blanks(sb.dataStart - 1)), sb.dataEnd, Blanks(1));
    Zeroed(w, f, sb.dataStart, sb.dataEnd);
    FoundFrame(poly, w, f);
    EmptyVolume(f, sb);
  }

  /** `format` leaves an empty volume, or nothing changed on a disk that is too small. */
  method Format(poly: Word, table: seq<Word>, disk: Disk) returns (r: FsResult<Superblock.SuperBlock>)
    requires Checker(poly, table) && 2 <= |disk.sectors| <= MAX_SECTORS_U64 && Sized(disk.sectors)
    modifies disk
    ensures |disk.sectors| == |old(disk.sectors)| && Sized(disk.sectors)
    ensures |old(disk.sectors)| < 0x1000 ==> r == Failure(NoSpace) && disk.sectors == old(disk.sectors)
    ensures |old(disk.sectors)| >= 0x1000 ==> r.Success? && Superblock.WellFormed(r.value) && HoldsEmpty(disk.sectors, r.value)
    ensures |old(disk.sectors)| >= 0x1000 ==>
      Superblock.Sound(disk.sectors) && Superblock.Found(poly, disk.sectors) == Success((Superblock.Stamped(poly, r.value), false))
  {
    r := Superblock.New(|disk.sectors|);
    if r.Failure? { return; }
    Superblock.NewOk(|disk.sectors|);
    WriteEmpty(poly, table, disk, r.value);
  }

  method WriteEmpty(poly: Word, table: seq<Word>, disk: Disk, sb: Superblock.SuperBlock)
    requires Checker(poly, table) && 2 <= |disk.sectors| <= MAX_SECTORS_U64 && Sized(disk.sectors)
    requires Superblock.WellFormed(sb) && Superblock.Geometry(sb, |disk.sectors|)
    modifies disk
    ensures |disk.sectors| == |old(disk.sectors)| && HoldsEmpty(disk.sectors, sb)
    ensures Superblock.Sound(disk.sectors) && Superblock.Found(poly, disk.sectors) == Success((Superblock.Stamped(poly, sb), false))
  {
    ghost var d := disk.sectors;
    var written := Superblock.WriteSb(poly, table, disk, sb);
    Superblock.WrittenFound(poly, d, sb);
    Formatted(poly, disk.sectors, sb);
    var zeroed := disk.ZeroSectors(sb.bitmapStart, sb.dataStart - sb.bitmapStart);
    zeroed := disk.ZeroSectors(sb.dataEnd, 1);
  }

  lemma FoundFrame(poly: Word, d: seq<Sector>, e: seq<Sector>)
    requires Generator(poly) && |poly| == 64 && Superblock.Sound(d) && |d| == |e| && d[0] == e[0] && d[|d| - 1] == e[|d| - 1]
    ensures Superblock.Sound(e) && Superblock.Found(poly, e) == Superblock.Found(poly, d)
  {
  }

  /**
   * `init`: a disk whose superblock is good is mounted as it is; any other is formatted and mounted empty, unless it
   * is too small.
   */
  method Init(poly: Word, table: seq<Word>, disk: Disk, ghost blocks: seq<BlockState>, ghost tree: Tree) returns (r: FsResult<LemonFs>)
    requires Checker(poly, table) && Superblock.Sound(disk.sectors) && |disk.sectors| <= MAX_SECTORS_U64 && Sized(disk.sectors)
    requires Superblock.Found(poly, disk.sectors).Success? ==> Holding(disk.sectors, Superblock.Found(poly, disk.sectors).value.0, blocks, tree)
    modifies disk
    ensures r.Success? ==> fresh(r.value) && fresh(r.value.v) && fresh(r.value.v.bitmap) && r.value.v.disk == disk
    ensures r.Success? ==> r.value.Valid() && r.value.CacheFresh()
    ensures old(Superblock.Found(poly, disk.sectors)).Success? ==> r.Success? && r.value.tree == tree && disk.sectors == old(disk.sectors)
    ensures old(Superblock.Found(poly, disk.sectors)).Failure? && |old(disk.sectors)| < 0x1000 ==> r == Failure(NoSpace)
    ensures old(Superblock.Found(poly, disk.sectors)).Failure? && |old(disk.sectors)| >= 0x1000 ==>
      r.Success? && r.value.tree == Dir([r.value.v.dataEnd], [])
  {
    var found := Superblock.GetSuperblock(poly, table, disk);
    if found.Success? {
      var mounted := Assemble(disk, found.value.0, blocks, tree);
      return Success(mounted);
    }
    var formatted := Format(poly, table, disk);
    if formatted.Failure? { return Failure(NoSpace); }
    var fs := Assemble(disk, formatted.value, Frees(formatted.value.dataStart - 1), Dir([formatted.value.dataEnd], []));
    r := Success(fs);
  }

  // ----- Sync and remount -----

  /** The sectors that `sync` writes: both superblocks and the bitmap. None of them belongs to the tree. */
  lemma SyncedSound(d: seq<Sector>, e: seq<Sector>, used: set<nat>, lo: nat, hi: nat, root: DirEntry, t: Tree)
    requires Sound(d, used, lo, hi, root, t) && |d| == |e| && forall x: nat {:trigger d[x]} {:trigger e[x]} :: lo <= x <= hi && x < |d| ==> d[x] == e[x]
    ensures Sound(e, used, lo, hi, root, t)
  {
    assert Agree(d, e, t);
    RepFrame(d, e, root, t);
  }

  lemma Reloaded(e: seq<Sector>, lo: nat, blocks: seq<BlockState>)
    requires Canonical(blocks) && 1 <= lo <= |e| && |blocks| == lo - 1
    requires forall k {:trigger e[k]} :: 1 <= k < lo ==> e[k] == Sector(BytesOf(blocks[k - 1]))
    ensures LoadedAs(e, lo, blocks)
  {
    forall i {:trigger blocks[i]} | 0 <= i < |blocks|
      ensures blocks[i] == Collapsed(Mixed(e[1 + i].bytes))
    {
      ReloadSame(blocks[i]);
      assert e[1 + i] == Sector(BytesOf(blocks[i]));
    }
  }

  /** `sync`: the superblock in both places, then the bitmap. Afterwards the disk alone holds the whole volume. */
  method SyncAll(fs: LemonFs, poly: Word, table: seq<Word>, sb: Superblock.SuperBlock) returns (r: FsResult<()>)
    requires fs.Valid() && Checker(poly, table) && Superblock.WellFormed(sb) && Superblock.Geometry(sb, |fs.v.D()|)
    requires sb.dataStart == fs.v.Lo() && sb.dataEnd == fs.v.dataEnd
    modifies fs.v.disk
    ensures r.Success? && fs.Valid() && |fs.v.D()| == |old(fs.v.D())|
    ensures Superblock.Sound(fs.v.D()) && Superblock.Found(poly, fs.v.D()) == Success((Superblock.Stamped(poly, sb), false))
    ensures Holding(fs.v.D(), Superblock.Stamped(poly, sb), fs.v.bitmap.blocks, fs.tree)
    ensures forall k {:trigger fs.v.D()[k]} :: fs.v.Lo() <= k <= fs.v.dataEnd ==> fs.v.D()[k] == old(fs.v.D())[k]
  {
    ghost var d := fs.v.D();
    r := WriteMeta(fs.v.disk, fs.v.bitmap, poly, table, sb);
    ghost var e := fs.v.D();
    SyncedSound(d, e, fs.v.U(), fs.v.Lo(), fs.v.dataEnd, fs.RootEntry(), fs.tree);
    Reloaded(e, sb.dataStart, fs.v.bitmap.blocks);
  }

  method WriteMeta(disk: Disk, bitmap: BitmapAllocator, poly: Word, table: seq<Word>, sb: Superblock.SuperBlock) returns (r: FsResult<()>)
    requires Checker(poly, table) && Superblock.WellFormed(sb) && Superblock.Geometry(sb, |disk.sectors|) && |bitmap.blocks| == sb.dataStart - 1
    modifies disk
    ensures r.Success? && |disk.sectors| == |old(disk.sectors)| && (old(Sized(disk.sectors)) ==> Sized(disk.sectors))
    ensures Superblock.Sound(disk.sectors) && Superblock.Found(poly, disk.sectors) == Success((Superblock.Stamped(poly, sb), false))
    ensures Superblock.Geometry(Superblock.Stamped(poly, sb), |disk.sectors|)
    ensures forall k {:trigger disk.sectors[k]} :: 1 <= k < sb.dataStart ==> disk.sectors[k] == Sector(BytesOf(bitmap.blocks[k - 1]))
    ensures forall k {:trigger disk.sectors[k]} {:trigger old(disk.sectors)[k]} :: sb.dataStart <= k <= sb.dataEnd ==> disk.sectors[k] == old(disk.sectors)[k]
  {
    r := WriteSuper(disk, poly, table, sb);
    ghost var w := disk.sectors;
    r := bitmap.Sync(disk, sb.bitmapStart);
    FoundFrame(poly, w, disk.sectors);
  }

  method WriteSuper(disk: Disk, poly: Word, table: seq<Word>, sb: Superblock.SuperBlock) returns (r: FsResult<()>)
    requires Checker(poly, table) && Superblock.WellFormed(sb) && Superblock.Geometry(sb, |disk.sectors|)
    modifies disk
    ensures r.Success? && |disk.sectors| == |old(disk.sectors)| && (old(Sized(disk.sectors)) ==> Sized(disk.sectors))
    ensures Superblock.Sound(disk.sectors) && Superblock.Found(poly, disk.sectors) == Success((Superblock.Stamped(poly, sb), false))
    ensures Superblock.Geometry(Superblock.Stamped(poly, sb), |disk.sectors|)
    ensures forall k {:trigger disk.sectors[k]} {:trigger old(disk.sectors)[k]} :: 1 <= k < |disk.sectors| - 1 ==> disk.sectors[k] == old(disk.sectors)[k]
  {
    ghost var d := disk.sectors;
    r := Superblock.WriteSb(poly, table, disk, sb);
    Superblock.WrittenFound(poly, d, sb);
    assert Superblock.Geometry(sb, |d|);
  }

  /** A volume that was synced is mounted again with the same tree over the same data sectors. */
  method SyncThenInit(fs: LemonFs, poly: Word, table: seq<Word>, sb: Superblock.SuperBlock) returns (r: FsResult<LemonFs>)
    requires fs.Valid() && Checker(poly, table) && Superblock.WellFormed(sb) && Superblock.Geometry(sb, |fs.v.D()|)
    requires sb.dataStart == fs.v.Lo() && sb.dataEnd == fs.v.dataEnd
    modifies fs.v.disk
    ensures r.Success? && fresh(r.value) && fresh(r.value.v) && fresh(r.value.v.bitmap) && r.value.v.disk == fs.v.disk
    ensures r.value.Valid() && r.value.tree == fs.tree && r.value.CacheFresh() && |fs.v.D()| == |old(fs.v.D())|
    ensures forall k {:trigger fs.v.D()[k]} :: fs.v.Lo() <= k <= fs.v.dataEnd ==> fs.v.D()[k] == old(fs.v.D())[k]
  {
    var synced := SyncAll(fs, poly, table, sb);
    r := Init(poly, table, fs.v.disk, fs.v.bitmap.blocks, fs.tree);
  }
}
