/** The packed on-disk structures of LemonFS and their round trips (`fs/lemonfs/disk.rs`). */
module FsCodec {
  import opened Bits
  import opened Codec
  import opened SectorView

  const LINKS_PER_BLOCK: nat := 32
  const ENTRIES_PER_BLOCK: nat := 8
  const FILENAME_LEN: nat := 36
  const IS_DIR: Byte := 1
  const IS_SYMLINK: Byte := 2

  // ----- Link pointers and link blocks -----

  datatype LinkPointer = LinkPointer(start: nat, size: nat)

  const NO_LINK := LinkPointer(0, 0)

  predicate LinkFits(p: LinkPointer)
  {
    U64(p.start) && U64(p.size)
  }

  predicate LinksFit(ps: seq<LinkPointer>)
  {
    forall i :: 0 <= i < |ps| ==> LinkFits(ps[i])
  }

  function EncodeLink(p: LinkPointer): (b: seq<Byte>)
    ensures |b| == 16
  {
    Le(p.start, 8) + Le(p.size, 8)
  }

  function DecodeLink(b: seq<Byte>): LinkPointer
    requires |b| == 16
  {
    LinkPointer(UnLe(b[..8]), UnLe(b[8..]))
  }

  lemma LinkRoundTrip(p: LinkPointer)
    requires LinkFits(p)
    ensures DecodeLink(EncodeLink(p)) == p
  {
    var b := EncodeLink(p);
    assert b[..8] == Le(p.start, 8) && b[8..] == Le(p.size, 8);
    Le64(p.start);
    Le64(p.size);
  }

  function EncodeLinks(ps: seq<LinkPointer>): (b: seq<Byte>)
    ensures |b| == 16 * |ps|
  {
    if ps == [] then [] else EncodeLink(ps[0]) + EncodeLinks(ps[1..])
  }

  function DecodeLinks(b: seq<Byte>, n: nat): (ps: seq<LinkPointer>)
    requires |b| == 16 * n
    ensures |ps| == n
    decreases n, b
  {
    if n == 0 then [] else [DecodeLink(b[..16])] + DecodeLinks(b[16..], n - 1)
  }

  lemma {:induction false} LinksRoundTrip(ps: seq<LinkPointer>, n: nat)
    requires LinksFit(ps) && n == |ps|
    ensures DecodeLinks(EncodeLinks(ps), n) == ps
    decreases n
  {
    if n > 0 {
      var b, rest := EncodeLinks(ps), ps[1..];
      assert b[..16] == EncodeLink(ps[0]) && b[16..] == EncodeLinks(rest);
      LinkRoundTrip(ps[0]);
      LinksRoundTrip(rest, n - 1);
      assert ps == [ps[0]] + rest;
    }
  }

  /** The link block a sector holds. */
  function LinksOf(s: Sector): (ps: seq<LinkPointer>)
    ensures |ps| == LINKS_PER_BLOCK
  {
    if |s.bytes| == 512 then DecodeLinks(s.bytes, LINKS_PER_BLOCK) else seq(LINKS_PER_BLOCK, i => NO_LINK)
  }

  function LinkSector(ps: seq<LinkPointer>): Sector
  {
    Sector(EncodeLinks(ps))
  }

  lemma LinkSectorOk(ps: seq<LinkPointer>)
    requires |ps| == LINKS_PER_BLOCK && LinksFit(ps)
    ensures LinksOf(LinkSector(ps)) == ps && |LinkSector(ps).bytes| == 512
  {
    LinksRoundTrip(ps, LINKS_PER_BLOCK);
  }

  // ----- Names -----

  /** `Filename`: 36 bytes, padded with zeros. */
  type Filename = f: seq<Byte> | |f| == FILENAME_LEN witness seq(FILENAME_LEN, i => 0)

  /** A path component as it can be stored: one to 36 bytes, none of them zero. */
  predicate Storable(s: seq<Byte>)
  {
    0 < |s| <= FILENAME_LEN && forall i :: 0 <= i < |s| ==> s[i] != 0
  }

  /** `Filename::from_str`: cut off at 36 bytes. */
  function FromStr(s: seq<Byte>): Filename
  {
    var n := if |s| < FILENAME_LEN then |s| else FILENAME_LEN;
    s[..n] + seq(FILENAME_LEN - n, i => 0)
  }

  /** `Filename::to_str`: the bytes that are not zero. */
  function ToStr(f: seq<Byte>): seq<Byte>
  {
    if f == [] then [] else (if f[0] == 0 then [] else [f[0]]) + ToStr(f[1..])
  }

  predicate IsEmptyName(f: seq<Byte>)
  {
    forall i :: 0 <= i < |f| ==> f[i] == 0
  }

  lemma {:induction false} ToStrPadded(s: seq<Byte>, pad: seq<Byte>)
    requires (forall i :: 0 <= i < |s| ==> s[i] != 0) && IsEmptyName(pad)
    ensures ToStr(s + pad) == s
    decreases |s| + |pad|
  {
    if s != [] {
      assert (s + pad)[1..] == s[1..] + pad;
      ToStrPadded(s[1..], pad);
      assert s == [s[0]] + s[1..];
    } else if pad != [] {
      assert s + pad == pad && pad[1..] == [] + pad[1..];
      ToStrPadded([], pad[1..]);
    }
  }

  /** A storable name survives being stored. */
  lemma NameRoundTrip(s: seq<Byte>)
    requires Storable(s)
    ensures ToStr(FromStr(s)) == s && !IsEmptyName(FromStr(s))
  {
    var pad: seq<Byte> := seq(FILENAME_LEN - |s|, i => 0);
    assert FromStr(s) == s + pad;
    ToStrPadded(s, pad);
    assert FromStr(s)[0] == s[0];
  }

  lemma {:induction false} ToStrEmpty(f: seq<Byte>)
    ensures ToStr(f) == [] <==> IsEmptyName(f)
  {
    if f != [] {
      ToStrEmpty(f[1..]);
      assert f == [f[0]] + f[1..];
    }
  }

  // ----- Directory entries and directory blocks -----

  datatype DirEntry = DirEntry(name: Filename, flags: Byte, link: LinkPointer)
  datatype DirBlock = DirBlock(parent: nat, entries: seq<DirEntry>, next: LinkPointer)

  function ZeroEntry(): DirEntry
  {
    DirEntry(seq(FILENAME_LEN, i => 0), 0, NO_LINK)
  }

  predicate EntriesFit(es: seq<DirEntry>)
  {
    forall i :: 0 <= i < |es| ==> LinkFits(es[i].link)
  }

  predicate BlockFits(d: DirBlock)
  {
    U64(d.parent) && |d.entries| == ENTRIES_PER_BLOCK && EntriesFit(d.entries) && LinkFits(d.next)
  }

  function EncodeEntry(e: DirEntry): (b: seq<Byte>)
    ensures |b| == 53
  {
    e.name + [e.flags] + EncodeLink(e.link)
  }

  function DecodeEntry(b: seq<Byte>): DirEntry
    requires |b| == 53
  {
    DirEntry(b[..36], b[36], DecodeLink(b[37..]))
  }

  lemma EntryRoundTrip(e: DirEntry)
    requires LinkFits(e.link)
    ensures DecodeEntry(EncodeEntry(e)) == e
  {
    var b := EncodeEntry(e);
    assert b[..36] == e.name && b[37..] == EncodeLink(e.link);
    LinkRoundTrip(e.link);
  }

  function EncodeEntries(es: seq<DirEntry>): (b: seq<Byte>)
    ensures |b| == 53 * |es|
  {
    if es == [] then [] else EncodeEntry(es[0]) + EncodeEntries(es[1..])
  }

  function DecodeEntries(b: seq<Byte>, n: nat): (es: seq<DirEntry>)
    requires |b| == 53 * n
    ensures |es| == n
    decreases n, b
  {
    if n == 0 then [] else [DecodeEntry(b[..53])] + DecodeEntries(b[53..], n - 1)
  }

  lemma {:induction false} EntriesRoundTrip(es: seq<DirEntry>, n: nat)
    requires EntriesFit(es) && n == |es|
    ensures DecodeEntries(EncodeEntries(es), n) == es
    decreases n
  {
    if n > 0 {
      var b, rest := EncodeEntries(es), es[1..];
      assert b[..53] == EncodeEntry(es[0]) && b[53..] == EncodeEntries(rest);
      EntryRoundTrip(es[0]);
      EntriesRoundTrip(rest, n - 1);
      assert es == [es[0]] + rest;
    }
  }

  /** The directory block a sector holds: parent, eight entries, next pointer, 64 bytes of padding. */
  function DirOf(s: Sector): (d: DirBlock)
    ensures |d.entries| == ENTRIES_PER_BLOCK
  {
    if |s.bytes| == 512 then
      DirBlock(UnLe(s.bytes[..8]), DecodeEntries(s.bytes[8..432], ENTRIES_PER_BLOCK), DecodeLink(s.bytes[432..448]))
    else
      DirBlock(0, seq(ENTRIES_PER_BLOCK, i => ZeroEntry()), NO_LINK)
  }

  function DirSector(d: DirBlock): Sector
  {
    Sector(Le(d.parent, 8) + EncodeEntries(d.entries) + EncodeLink(d.next) + seq(64, i => 0xBA))
  }

  lemma DirSectorOk(d: DirBlock)
    requires BlockFits(d)
    ensures DirOf(DirSector(d)) == d && |DirSector(d).bytes| == 512
  {
    var b := DirSector(d).bytes;
    assert b[..8] == Le(d.parent, 8);
    assert b[8..432] == EncodeEntries(d.entries);
    assert b[432..448] == EncodeLink(d.next);
    Le64(d.parent);
    EntriesRoundTrip(d.entries, ENTRIES_PER_BLOCK);
    LinkRoundTrip(d.next);
  }

  // ----- A blank sector -----

  lemma {:induction false} UnLeZero(b: seq<Byte>)
    requires forall i :: 0 <= i < |b| ==> b[i] == 0
    ensures UnLe(b) == 0
  {
    if b != [] {
      UnLeZero(b[1..]);
    }
  }

  /** A blank sector read as a link block has no links. */
  lemma BlankLinks()
    ensures forall i :: 0 <= i < LINKS_PER_BLOCK ==> LinksOf(Blank())[i] == NO_LINK
  {
    forall i | 0 <= i < LINKS_PER_BLOCK ensures LinksOf(Blank())[i] == NO_LINK
    {
      BlankLink(Blank().bytes, LINKS_PER_BLOCK, i);
    }
  }

  lemma {:induction false} BlankLink(b: seq<Byte>, n: nat, i: nat)
    requires |b| == 16 * n && i < n && forall k :: 0 <= k < |b| ==> b[k] == 0
    ensures DecodeLinks(b, n)[i] == NO_LINK
    decreases n
  {
    if i == 0 {
      UnLeZero(b[..16][..8]);
      UnLeZero(b[..16][8..]);
    } else {
      BlankLink(b[16..], n - 1, i - 1);
    }
  }

  /** A blank sector read as a directory block has no entries and no next block. */
  lemma BlankDir()
    ensures DirOf(Blank()).next == NO_LINK
    ensures forall i :: 0 <= i < ENTRIES_PER_BLOCK ==> IsEmptyName(DirOf(Blank()).entries[i].name)
  {
    var b := Blank().bytes;
    UnLeZero(b[432..448][..8]);
    UnLeZero(b[432..448][8..]);
    forall i | 0 <= i < ENTRIES_PER_BLOCK
      ensures IsEmptyName(DirOf(Blank()).entries[i].name)
    {
      BlankEntries(b[8..432], ENTRIES_PER_BLOCK, i);
    }
  }

  lemma {:induction false} BlankEntries(b: seq<Byte>, n: nat, i: nat)
    requires |b| == 53 * n && i < n && forall k :: 0 <= k < |b| ==> b[k] == 0
    ensures IsEmptyName(DecodeEntries(b, n)[i].name)
    decreases n
  {
    if i > 0 {
      BlankEntries(b[53..], n - 1, i - 1);
    }
  }
}
