/**
 * The checksummed superblock and its backup (`fs/lemonfs/superblock.rs`, layout in `fs/lemonfs/disk.rs`).
 * `poly` stands for the CRC-64 polynomial: everything holds for every 64-bit generator.
 */
module Superblock {
  import opened Basics
  import opened Bits
  import opened Codec
  import opened Crc
  import opened Disk
  import opened SectorView

  const DIRTY_BIT: nat := 1
  const BACKUP_SYNC_BIT: nat := 4

  datatype SuperBlock = SuperBlock(
    magic: seq<Byte>, version: nat, reserved: seq<Byte>, flags: nat, checksum: nat,
    bitmapStart: nat, dataStart: nat, dataEnd: nat, padding: seq<Byte>)

  predicate WellFormed(sb: SuperBlock)
  {
    |sb.magic| == 8 && sb.version < 0x1_0000_0000 && |sb.reserved| == 4 && |sb.padding| == 456
    && U64(sb.flags) && U64(sb.checksum) && U64(sb.bitmapStart) && U64(sb.dataStart) && U64(sb.dataEnd)
  }

  // ----- The packed layout -----

  function Front(sb: SuperBlock): seq<Byte>
  {
    sb.magic + Le(sb.version, 4) + sb.reserved + Le(sb.flags, 8)
  }

  function Back(sb: SuperBlock): seq<Byte>
  {
    Le(sb.bitmapStart, 8) + Le(sb.dataStart, 8) + Le(sb.dataEnd, 8) + sb.padding
  }

  function Encode(sb: SuperBlock): (b: seq<Byte>)
    requires WellFormed(sb)
    ensures |b| == 512
  {
    Front(sb) + Le(sb.checksum, 8) + Back(sb)
  }

  function Decode(b: seq<Byte>): SuperBlock
    requires |b| == 512
  {
    SuperBlock(b[..8], UnLe(b[8..12]), b[12..16], UnLe(b[16..24]), UnLe(b[24..32]),
      UnLe(b[32..40]), UnLe(b[40..48]), UnLe(b[48..56]), b[56..])
  }

  lemma DecodeFits(b: seq<Byte>)
    requires |b| == 512
    ensures WellFormed(Decode(b))
  {
    Limits();
    UnLeBound(b[8..12]);
    UnLe64(b[16..24]);
    UnLe64(b[24..32]);
    UnLe64(b[32..40]);
    UnLe64(b[40..48]);
    UnLe64(b[48..56]);
  }

  lemma FrontSlices(sb: SuperBlock, b: seq<Byte>)
    requires WellFormed(sb) && b == Encode(sb)
    ensures b[..8] == sb.magic && b[8..12] == Le(sb.version, 4) && b[12..16] == sb.reserved && b[16..24] == Le(sb.flags, 8)
  {
    assert b[..24] == Front(sb);
    var f := Front(sb);
    assert f[..8] == sb.magic && f[8..12] == Le(sb.version, 4) && f[12..16] == sb.reserved && f[16..24] == Le(sb.flags, 8);
  }

  lemma BackSlices(sb: SuperBlock, b: seq<Byte>)
    requires WellFormed(sb) && b == Encode(sb)
    ensures b[24..32] == Le(sb.checksum, 8)
    ensures b[32..40] == Le(sb.bitmapStart, 8) && b[40..48] == Le(sb.dataStart, 8) && b[48..56] == Le(sb.dataEnd, 8)
    ensures b[56..] == sb.padding
  {
    assert b[32..] == Back(sb);
    var f := Back(sb);
    assert f[..8] == Le(sb.bitmapStart, 8) && f[8..16] == Le(sb.dataStart, 8) && f[16..24] == Le(sb.dataEnd, 8);
    assert f[24..] == sb.padding;
  }

  /** What is written is read back. */
  lemma DecodeEncode(sb: SuperBlock)
    requires WellFormed(sb)
    ensures Decode(Encode(sb)) == sb
  {
    var b := Encode(sb);
    FrontSlices(sb, b);
    BackSlices(sb, b);
    Limits();
    UnLeLe(sb.version, 4);
    Le64(sb.flags);
    Le64(sb.checksum);
    Le64(sb.bitmapStart);
    Le64(sb.dataStart);
    Le64(sb.dataEnd);
  }

  lemma Piece<T>(b: seq<T>, i: nat, j: nat, k: nat)
    requires i <= j <= k <= |b|
    ensures b[i..k] == b[i..j] + b[j..k]
  {
  }

  lemma FrontOf(b: seq<Byte>)
    requires |b| == 512
    ensures Front(Decode(b)) == b[..24]
  {
    assert Le(UnLe(b[8..12]), 4) == b[8..12] by { LeUnLe(b[8..12]); }
    assert Le(UnLe(b[16..24]), 8) == b[16..24] by { UnLe64(b[16..24]); }
    Piece(b, 0, 8, 12);
    Piece(b, 0, 12, 16);
    Piece(b, 0, 16, 24);
  }

  lemma Word64(b: seq<Byte>, i: nat)
    requires i + 8 <= |b|
    ensures Le(UnLe(b[i..i + 8]), 8) == b[i..i + 8]
  {
    UnLe64(b[i..i + 8]);
  }

  lemma BackOf(b: seq<Byte>)
    requires |b| == 512
    ensures Back(Decode(b)) == b[32..]
  {
    Word64(b, 32);
    Word64(b, 40);
    Word64(b, 48);
    Piece(b, 32, 40, 48);
    Piece(b, 32, 48, 56);
    Piece(b, 32, 56, 512);
  }

  // ----- The checksum -----

  /** The checksum of a sector image, as a 64-bit number. */
  ghost function Sum(poly: Word, b: seq<Byte>): (r: nat)
    requires Generator(poly) && |poly| == 64
    ensures U64(r)
  {
    var w := Reference(poly, b);
    ValueBound(w);
    Powers();
    Value(w)
  }

  ghost predicate Checked(poly: Word, sb: SuperBlock)
    requires Generator(poly) && |poly| == 64 && WellFormed(sb)
  {
    sb.checksum == Sum(poly, Encode(sb.(checksum := 0)))
  }

  /** The image with a zero checksum. */
  function Blanked(b: seq<Byte>): (r: seq<Byte>)
    requires |b| == 512
    ensures |r| == 512
  {
    b[..24] + Le(0, 8) + b[32..]
  }

  ghost predicate ImageChecked(poly: Word, b: seq<Byte>)
    requires Generator(poly) && |poly| == 64 && |b| == 512
  {
    UnLe(b[24..32]) == Sum(poly, Blanked(b))
  }

  lemma CheckedIsImage(poly: Word, b: seq<Byte>)
    requires Generator(poly) && |poly| == 64 && |b| == 512
    ensures WellFormed(Decode(b)) && (Checked(poly, Decode(b)) <==> ImageChecked(poly, b))
  {
    DecodeFits(b);
    FrontOf(b);
    BackOf(b);
    var zeroed := Decode(b).(checksum := 0);
    assert Front(zeroed) == b[..24] && Back(zeroed) == b[32..];
  }

  lemma SumInjective(poly: Word, b: seq<Byte>, c: seq<Byte>)
    requires Generator(poly) && |poly| == 64 && Sum(poly, b) == Sum(poly, c)
    ensures Reference(poly, b) == Reference(poly, c)
  {
    OfValue(Reference(poly, b));
    OfValue(Reference(poly, c));
  }

  lemma ChecksumDamage(poly: Word, b: seq<Byte>, k: nat, x: Byte)
    requires Generator(poly) && |poly| == 64 && |b| == 512 && ImageChecked(poly, b)
    requires 24 <= k < 32 && x != b[k]
    ensures !ImageChecked(poly, b[k := x])
  {
    var c := b[k := x];
    assert Blanked(c) == Blanked(b);
    UnLe64(b[24..32]);
    UnLe64(c[24..32]);
    assert c[24..32][k - 24] != b[24..32][k - 24];
  }

  lemma BlankedUpdate(b: seq<Byte>, k: nat, x: Byte)
    requires |b| == 512 && (k < 24 || 32 <= k < 512)
    ensures Blanked(b[k := x]) == Blanked(b)[k := x] && Blanked(b)[k] == b[k]
    ensures b[k := x][24..32] == b[24..32]
  {
    var c, zero := b[k := x], Le(0, 8);
    if k < 24 {
      assert c[..24] == b[..24][k := x] && c[32..] == b[32..];
    } else {
      assert c[..24] == b[..24] && c[32..] == b[32..][k - 32 := x];
    }
  }

  lemma BodyDamage(poly: Word, b: seq<Byte>, k: nat, x: Byte)
    requires Generator(poly) && |poly| == 64 && |b| == 512 && ImageChecked(poly, b)
    requires (k < 24 || 32 <= k < 512) && x != b[k]
    ensures !ImageChecked(poly, b[k := x])
  {
    var c := b[k := x];
    BlankedUpdate(b, k, x);
    ByteChangeDetected(poly, Blanked(b), k, x);
    if Sum(poly, Blanked(c)) == Sum(poly, Blanked(b)) {
      SumInjective(poly, Blanked(c), Blanked(b));
    }
  }

  /** An image that passes the check fails it after any change to one byte. */
  lemma DamageDetected(poly: Word, b: seq<Byte>, k: nat, x: Byte)
    requires Generator(poly) && |poly| == 64 && |b| == 512 && ImageChecked(poly, b) && k < 512
    ensures ImageChecked(poly, b[k := x]) <==> x == b[k]
  {
    if x == b[k] {
      assert b[k := x] == b;
    } else if 24 <= k < 32 {
      ChecksumDamage(poly, b, k, x);
    } else {
      BodyDamage(poly, b, k, x);
    }
  }

  // ----- Writing and reading -----

  /** `write_sb` clears the dirty flag, marks the backup as in step and stamps the checksum. */
  ghost function Stamped(poly: Word, sb: SuperBlock): (r: SuperBlock)
    requires Generator(poly) && |poly| == 64 && WellFormed(sb)
    ensures WellFormed(r)
  {
    var clean := Cleaned(sb);
    clean.(checksum := Sum(poly, Encode(clean)))
  }

  function Cleaned(sb: SuperBlock): (r: SuperBlock)
    requires WellFormed(sb)
    ensures WellFormed(r)
  {
    var w := Of(sb.flags, 64)[DIRTY_BIT := false][BACKUP_SYNC_BIT := true];
    ValueBound(w);
    Powers();
    sb.(flags := Value(w), checksum := 0)
  }

  lemma StampedChecked(poly: Word, sb: SuperBlock)
    requires Generator(poly) && |poly| == 64 && WellFormed(sb)
    ensures Checked(poly, Stamped(poly, sb)) && ImageChecked(poly, Encode(Stamped(poly, sb)))
  {
    var r := Stamped(poly, sb);
    assert r.(checksum := 0) == Cleaned(sb);
    DecodeEncode(r);
    CheckedIsImage(poly, Encode(r));
  }

  /** The volume has a first and a last sector of full size. */
  predicate Sound(sectors: seq<Sector>)
  {
    |sectors| >= 2 && |sectors[0].bytes| == 512 && |sectors[|sectors| - 1].bytes| == 512
  }

  /** What `get_superblock` finds: the primary if it checks, else the backup if that checks. */
  ghost function Found(poly: Word, sectors: seq<Sector>): FsResult<(SuperBlock, bool)>
    requires Generator(poly) && |poly| == 64 && Sound(sectors)
  {
    var primary, backup := sectors[0].bytes, sectors[|sectors| - 1].bytes;
    if ImageChecked(poly, primary) then Success((Decode(primary), false))
    else if ImageChecked(poly, backup) then Success((Decode(backup), true))
    else Failure(BadSuperblock)
  }

  ghost function Written(poly: Word, sectors: seq<Sector>, sb: SuperBlock): seq<Sector>
    requires Generator(poly) && |poly| == 64 && WellFormed(sb) && |sectors| >= 2
  {
    var image := Sector(Encode(Stamped(poly, sb)));
    sectors[0 := image][|sectors| - 1 := image]
  }

  /** A volume whose copies are `image` and a variant of it: the intact one is found. */
  lemma FoundIntact(poly: Word, sectors: seq<Sector>, image: seq<Byte>, copy: nat, other: nat)
    requires Generator(poly) && |poly| == 64 && Sound(sectors) && |image| == 512 && ImageChecked(poly, image)
    requires (copy == 0 && other == |sectors| - 1) || (copy == |sectors| - 1 && other == 0)
    requires sectors[other].bytes == image
    requires ImageChecked(poly, sectors[copy].bytes) ==> sectors[copy].bytes == image
    ensures Found(poly, sectors) == Success((Decode(image), copy == 0 && sectors[copy].bytes != image))
  {
  }

  /** After a write, any change to one byte of one copy leaves what was written readable. */
  lemma SurvivesDamage(poly: Word, sectors: seq<Sector>, sb: SuperBlock, backup: bool, k: nat, x: Byte)
    requires Generator(poly) && |poly| == 64 && WellFormed(sb) && Sound(sectors) && k < 512
    ensures
      var written := Written(poly, sectors, sb);
      var copy := if backup then |sectors| - 1 else 0;
      var damaged := written[copy := Sector(written[copy].bytes[k := x])];
      Sound(damaged) &&
      Found(poly, damaged) == Success((Stamped(poly, sb), !backup && x != written[copy].bytes[k]))
  {
    var image := Encode(Stamped(poly, sb));
    StampedChecked(poly, sb);
    DecodeEncode(Stamped(poly, sb));
    DamageDetected(poly, image, k, x);
    var last := |sectors| - 1;
    var copy, other := if backup then last else 0, if backup then 0 else last;
    var bad := image[k := x];
    assert bad == image <==> x == image[k];
    FoundIntact(poly, sectors[0 := Sector(image)][last := Sector(image)][copy := Sector(bad)], image, copy, other);
  }

  // ----- The operations -----

  method Compute(poly: Word, table: seq<Word>, b: seq<Byte>) returns (r: nat)
    requires |poly| == 64 && TableOk(poly, table)
    ensures r == Sum(poly, b)
  {
    var w := Checksum(poly, table, b);
    r := Value(w);
  }

  method Check(poly: Word, table: seq<Word>, sb: SuperBlock) returns (ok: bool)
    requires |poly| == 64 && TableOk(poly, table) && WellFormed(sb)
    ensures ok == Checked(poly, sb)
  {
    var sum := Compute(poly, table, Encode(sb.(checksum := 0)));
    ok := sb.checksum == sum;
  }

  method DecodeAndCheck(poly: Word, table: seq<Word>, b: seq<Byte>) returns (sb: SuperBlock, ok: bool)
    requires |poly| == 64 && TableOk(poly, table) && |b| == 512
    ensures sb == Decode(b) && ok == ImageChecked(poly, b)
  {
    CheckedIsImage(poly, b);
    sb := Decode(b);
    ok := Check(poly, table, sb);
  }

  method WriteSb(poly: Word, table: seq<Word>, disk: Disk, sb: SuperBlock) returns (r: FsResult<()>)
    requires |poly| == 64 && TableOk(poly, table) && WellFormed(sb) && |disk.sectors| >= 2
    modifies disk
    ensures r.Success? && disk.sectors == Written(poly, old(disk.sectors), sb)
  {
    var superblock := Cleaned(sb);
    var sum := Compute(poly, table, Encode(superblock));
    superblock := superblock.(checksum := sum);
    var image := Sector(Encode(superblock));
    r := disk.WriteSector(0, image);
    if r.Failure? { return; }
    r := disk.WriteSector(|disk.sectors| - 1, image);
  }

  method GetSuperblock(poly: Word, table: seq<Word>, disk: Disk) returns (r: FsResult<(SuperBlock, bool)>)
    requires |poly| == 64 && TableOk(poly, table) && Sound(disk.sectors)
    ensures r == Found(poly, disk.sectors)
  {
    var primary := disk.ReadSector(0);
    if primary.Failure? { return Failure(IoError); }
    var sb, ok := DecodeAndCheck(poly, table, primary.value.bytes);
    if !ok {
      var second := disk.ReadSector(|disk.sectors| - 1);
      if second.Failure? { return Failure(IoError); }
      var backup;
      backup, ok := DecodeAndCheck(poly, table, second.value.bytes);
      if !ok { return Failure(BadSuperblock); }
      return Success((backup, true));
    }
    r := Success((sb, false));
  }

  // ----- A new volume -----

  function Bytes(x: Byte, n: nat): (r: seq<Byte>)
    ensures |r| == n
  {
    seq(n, i => x)
  }

  /** `SuperBlock::new`: one bitmap sector for every 4096 sectors, two sectors spared at the end. */
  function New(sectors: nat): FsResult<SuperBlock>
  {
    if sectors < 0x1000 then Failure(NoSpace)
    else Success(SuperBlock([0x4C, 0x45, 0x4D, 0x4F, 0x4E, 0x46, 0x53, 0], 1, Bytes(0xBA, 4), 0, 0, 1,
      1 + DivCeil(sectors, 0x1000), sectors - 2, Bytes(0xBA, 456)))
  }

  /** The geometry that every LemonFS superblock has. */
  predicate Geometry(sb: SuperBlock, sectors: nat)
  {
    sb.bitmapStart == 1 && 1 < sb.dataStart < sb.dataEnd && sb.dataEnd + 2 <= sectors
    && sb.dataEnd - sb.dataStart < 4096 * (sb.dataStart - 1)
  }

  lemma NewOk(sectors: nat)
    requires 0x1000 <= sectors && U64(sectors)
    ensures New(sectors).Success? && WellFormed(New(sectors).value) && Geometry(New(sectors).value, sectors)
  {
  }

  /** What was written is found, with its geometry. */
  lemma WrittenFound(poly: Word, sectors: seq<Sector>, sb: SuperBlock)
    requires Generator(poly) && |poly| == 64 && WellFormed(sb) && |sectors| >= 2
    ensures var written := Written(poly, sectors, sb);
      Sound(written) && Found(poly, written) == Success((Stamped(poly, sb), false))
    ensures |Written(poly, sectors, sb)| == |sectors|
    ensures forall n {:trigger Geometry(sb, n)} :: Geometry(sb, n) ==> Geometry(Stamped(poly, sb), n)
  {
    StampedChecked(poly, sb);
    DecodeEncode(Stamped(poly, sb));
  }
}
