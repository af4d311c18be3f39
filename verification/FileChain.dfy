/** Building a file's extent chain (`build_file_chain` in `fs/lemonfs/mod.rs`). */
module FileChain {
  import opened Basics
  import opened Disk
  import opened FsCodec
  import opened Links
  import opened SectorView
  import opened Volume

  // ----- Extents and the sectors they stand for -----

  function Span(start: nat, count: nat): (r: seq<nat>)
    ensures |r| == count && forall j {:trigger r[j]} :: 0 <= j < count ==> r[j] == start + j
  {
    seq(count, j requires 0 <= j => start + j)
  }

  /** The sectors of an extent. */
  function Expand(p: LinkPointer): seq<nat>
  {
    Span(p.start, DivCeil(p.size, 512))
  }

  function ExpandAll(ps: seq<LinkPointer>): seq<nat>
  {
    if ps == [] then [] else Expand(ps[0]) + ExpandAll(ps[1..])
  }

  lemma {:induction false} ExpandConcat(a: seq<LinkPointer>, b: seq<LinkPointer>)
    ensures ExpandAll(a + b) == ExpandAll(a) + ExpandAll(b)
    decreases |a|
  {
    if a == [] {
      assert a + b == b;
    } else {
      assert (a + b)[1..] == a[1..] + b;
      ExpandConcat(a[1..], b);
    }
  }

  lemma {:induction false} ExpandSnoc(a: seq<LinkPointer>, p: LinkPointer)
    ensures ExpandAll(a + [p]) == ExpandAll(a) + Expand(p)
  {
    ExpandConcat(a, [p]);
    assert Expand(p) + ExpandAll([]) == Expand(p);
  }

  // ----- Coalescing adjacent sectors -----

  predicate Whole(p: LinkPointer)
  {
    p.size > 0 && p.size % 512 == 0
  }

  /** Add one sector: to the last extent if it is adjacent, else as a new one. */
  function Extend(es: seq<LinkPointer>, b: nat): seq<LinkPointer>
  {
    var n := |es|;
    if n > 0 && es[n - 1].start + es[n - 1].size / 512 == b
    then es[..n - 1] + [LinkPointer(es[n - 1].start, es[n - 1].size + 512)]
    else es + [LinkPointer(b, 512)]
  }

  function Coalesced(bs: seq<nat>): seq<LinkPointer>
  {
    if bs == [] then [] else Extend(Coalesced(bs[..|bs| - 1]), bs[|bs| - 1])
  }

  /** Extents over existing sectors, each whole and small enough for the on-disk form. */
  predicate Proper(es: seq<LinkPointer>, limit: nat, count: nat)
  {
    forall i {:trigger es[i]} :: 0 <= i < |es| ==> 0 < es[i].start < limit && Whole(es[i]) && es[i].size <= 512 * count
  }

  lemma Grown(p: LinkPointer)
    requires Whole(p)
    ensures Whole(LinkPointer(p.start, p.size + 512))
    ensures Expand(LinkPointer(p.start, p.size + 512)) == Expand(p) + [p.start + p.size / 512]
  {
    assert DivCeil(p.size, 512) == p.size / 512 && DivCeil(p.size + 512, 512) == p.size / 512 + 1;
  }

  lemma {:induction false} GrowLast(es: seq<LinkPointer>, front: seq<LinkPointer>, last: LinkPointer, b: nat)
    requires Whole(last) && b == last.start + last.size / 512 && es == front + [last]
    ensures ExpandAll(front + [LinkPointer(last.start, last.size + 512)]) == ExpandAll(es) + [b]
  {
    Grown(last);
    ExpandSnoc(front, last);
    ExpandSnoc(front, LinkPointer(last.start, last.size + 512));
  }

  lemma {:induction false} AddNew(es: seq<LinkPointer>, b: nat)
    ensures ExpandAll(es + [LinkPointer(b, 512)]) == ExpandAll(es) + [b]
  {
    ExpandSnoc(es, LinkPointer(b, 512));
  }

  lemma SplitLast<T>(s: seq<T>)
    requires s != []
    ensures s == s[..|s| - 1] + [s[|s| - 1]]
  {
  }

  lemma {:induction false} ExtendExpand(es: seq<LinkPointer>, b: nat)
    requires es != [] ==> Whole(es[|es| - 1])
    ensures ExpandAll(Extend(es, b)) == ExpandAll(es) + [b]
  {
    var n := |es|;
    var grown := if n > 0 then es[..n - 1] + [LinkPointer(es[n - 1].start, es[n - 1].size + 512)] else [];
    var added := es + [LinkPointer(b, 512)];
    if n > 0 && es[n - 1].start + es[n - 1].size / 512 == b {
      SplitLast(es);
      GrowLast(es, es[..n - 1], es[n - 1], b);
      assert Extend(es, b) == grown;
    } else {
      AddNew(es, b);
      assert Extend(es, b) == added;
    }
  }

  lemma ExtendProper(es: seq<LinkPointer>, b: nat, limit: nat, count: nat)
    requires Proper(es, limit, count) && 0 < b < limit
    ensures Proper(Extend(es, b), limit, count + 1)
  {
    var n := |es|;
    if n > 0 {
      Grown(es[n - 1]);
    }
  }

  /** Coalescing loses nothing: the extents stand for the same sectors in the same order. */
  lemma {:induction false} CoalescedOk(bs: seq<nat>, limit: nat)
    requires forall i {:trigger bs[i]} :: 0 <= i < |bs| ==> 0 < bs[i] < limit
    ensures Proper(Coalesced(bs), limit, |bs|) && ExpandAll(Coalesced(bs)) == bs
    ensures bs != [] ==> Coalesced(bs) != []
    decreases |bs|
  {
    if bs != [] {
      var n := |bs| - 1;
      CoalescedOk(bs[..n], limit);
      ExtendProper(Coalesced(bs[..n]), bs[n], limit, n);
      ExtendExpand(Coalesced(bs[..n]), bs[n]);
      assert bs == bs[..n] + [bs[n]];
    }
  }

  lemma {:induction false} CoalescedSpan(start: nat, m: nat)
    requires m > 0
    ensures Coalesced(Span(start, m)) == [LinkPointer(start, 512 * m)]
    decreases m
  {
    var s := Span(start, m);
    if m > 1 {
      CoalescedSpan(start, m - 1);
      assert s[..m - 1] == Span(start, m - 1);
    } else {
      assert s[..0] == [];
    }
  }

  method Coalesce(bs: seq<nat>) returns (es: seq<LinkPointer>)
    ensures es == Coalesced(bs)
  {
    es := [];
    for k := 0 to |bs|
      invariant es == Coalesced(bs[..k])
    {
      var block := bs[k];
      assert bs[..k + 1][..k] == bs[..k];
      var n := |es|;
      if n > 0 && es[n - 1].start + es[n - 1].size / 512 == block {
        es := es[..n - 1] + [LinkPointer(es[n - 1].start, es[n - 1].size + 512)];
      } else {
        es := es + [LinkPointer(block, 512)];
      }
    }
    assert bs[..|bs|] == bs;
  }

  // ----- The link blocks -----

  function Nones(n: nat): (r: seq<LinkPointer>)
    ensures |r| == n && forall i {:trigger r[i]} :: 0 <= i < n ==> r[i] == NO_LINK
  {
    seq(n, i => NO_LINK)
  }

  /** Link block `i` holds 31 extents and the pointer to the next block. */
  function Chunk(es: seq<LinkPointer>, lbas: seq<nat>, i: nat): (r: seq<LinkPointer>)
    requires 31 * i <= |es| && i < |lbas|
    ensures |r| == 32
  {
    var part := Part(es, i);
    part + Nones(31 - |part|) + [if i + 1 < |lbas| then LinkPointer(lbas[i + 1], 0) else NO_LINK]
  }

  function Part(es: seq<LinkPointer>, i: nat): (r: seq<LinkPointer>)
    requires 31 * i <= |es|
    ensures |r| <= 31
  {
    es[31 * i..if 31 * i + 31 < |es| then 31 * i + 31 else |es|]
  }

  /** The first `n` link blocks hold what they are to hold. */
  ghost predicate ChunksUpTo(d: seq<Sector>, es: seq<LinkPointer>, lbas: seq<nat>, n: nat)
  {
    |lbas| == DivCeil(|es|, 31) && n <= |lbas|
    && (forall i {:trigger lbas[i]} :: 0 <= i < |lbas| ==> 0 < lbas[i] < |d|)
    && forall i {:trigger lbas[i]} :: 0 <= i < n ==> LinksOf(d[lbas[i]]) == Chunk(es, lbas, i)
  }

  ghost predicate ChunksAt(d: seq<Sector>, es: seq<LinkPointer>, lbas: seq<nat>)
  {
    ChunksUpTo(d, es, lbas, |lbas|)
  }

  lemma ChunkWritten(d: seq<Sector>, es: seq<LinkPointer>, lbas: seq<nat>, n: nat, s: Sector)
    requires ChunksUpTo(d, es, lbas, n) && n < |lbas| && Distinct(lbas) && 31 * n <= |es| && LinksOf(s) == Chunk(es, lbas, n)
    ensures ChunksUpTo(d[lbas[n] := s], es, lbas, n + 1)
  {
  }

  /** The two disks agree outside `lbas`. */
  ghost predicate SameOutside(d: seq<Sector>, e: seq<Sector>, lbas: seq<nat>)
  {
    |d| == |e| && forall x {:trigger d[x]} {:trigger e[x]} :: 0 <= x < |d| && x !in lbas ==> d[x] == e[x]
  }

  lemma WrittenOutside(d: seq<Sector>, e: seq<Sector>, lbas: seq<nat>, n: nat, s: Sector)
    requires SameOutside(d, e, lbas) && n < |lbas| && lbas[n] < |d|
    ensures SameOutside(d, e[lbas[n] := s], lbas)
  {
  }

  lemma {:induction false} ExtentsNone(n: nat)
    ensures Extents(Nones(n)) == []
  {
    if n > 0 {
      assert Nones(n)[1..] == Nones(n - 1);
      ExtentsNone(n - 1);
    }
  }

  lemma {:induction false} ExtentsPadded(ps: seq<LinkPointer>, n: nat)
    requires forall i {:trigger ps[i]} :: 0 <= i < |ps| ==> Valid(ps[i]) && Direct(ps[i])
    ensures Extents(ps + Nones(n)) == ps
    decreases |ps|
  {
    if ps == [] {
      assert ps + Nones(n) == Nones(n);
      ExtentsNone(n);
    } else {
      assert (ps + Nones(n))[1..] == ps[1..] + Nones(n);
      ExtentsPadded(ps[1..], n);
      assert ps == [ps[0]] + ps[1..];
    }
  }

  lemma ChunkCount(n: nat, blocks: nat, i: nat)
    requires blocks == DivCeil(n, 31) && i < blocks
    ensures 31 * i < n && (31 * (i + 1) < n <==> i + 1 < blocks)
  {
  }

  lemma ChunkSlots(es: seq<LinkPointer>, lbas: seq<nat>, i: nat)
    requires 31 * i <= |es| && i < |lbas|
    ensures Chunk(es, lbas, i)[..31] == Part(es, i) + Nones(31 - |Part(es, i)|)
    ensures Chunk(es, lbas, i)[31] == if i + 1 < |lbas| then LinkPointer(lbas[i + 1], 0) else NO_LINK
  {
  }

  lemma PartRest(es: seq<LinkPointer>, i: nat)
    requires 31 * i <= |es|
    ensures 31 * (i + 1) <= |es| ==> es[31 * i..] == Part(es, i) + es[31 * (i + 1)..]
    ensures 31 * (i + 1) >= |es| ==> es[31 * i..] == Part(es, i)
  {
  }

  lemma PartExtents(es: seq<LinkPointer>, i: nat, limit: nat, count: nat)
    requires Proper(es, limit, count) && 31 * i <= |es|
    ensures Extents(Part(es, i) + Nones(31 - |Part(es, i)|)) == Part(es, i)
  {
    ExtentsPadded(Part(es, i), 31 - |Part(es, i)|);
  }

  /** The link blocks written form a chain that holds exactly the extents. */
  lemma {:induction false} ChunksChain(d: seq<Sector>, es: seq<LinkPointer>, lbas: seq<nat>, i: nat, limit: nat, count: nat)
    requires ChunksAt(d, es, lbas) && i < |lbas| && Proper(es, limit, count)
    ensures 31 * i <= |es| && LinkChain(d, LinkPointer(lbas[i], 0), lbas[i..])
    ensures Directs(d, LinkPointer(lbas[i], 0), lbas[i..]) == es[31 * i..]
    decreases |lbas| - i
  {
    ChunkCount(|es|, |lbas|, i);
    ChunkSlots(es, lbas, i);
    PartExtents(es, i, limit, count);
    PartRest(es, i);
    assert lbas[i..][1..] == lbas[i + 1..];
    if i + 1 < |lbas| {
      ChunksChain(d, es, lbas, i + 1, limit, count);
    } else {
      assert Part(es, i) + [] == Part(es, i);
    }
  }

  // ----- Allocating and writing them -----

  predicate Distinct(s: seq<nat>)
  {
    forall i, j {:trigger s[i], s[j]} :: 0 <= i < j < |s| ==> s[i] != s[j]
  }

  /** Sectors of `[lo, hi)` that are not in use, each once. */
  ghost predicate Unused(lbas: seq<nat>, used: set<nat>, lo: nat, hi: nat)
  {
    Distinct(lbas) && forall i {:trigger lbas[i]} :: 0 <= i < |lbas| ==> lo <= lbas[i] < hi && lbas[i] !in used
  }

  ghost function AddAll(used: set<nat>, lbas: seq<nat>): (r: set<nat>)
    ensures forall x {:trigger x in r} :: x in r <==> x in used || x in lbas
  {
    used + set x | x in lbas
  }

  lemma AddOne(used: set<nat>, lbas: seq<nat>, x: nat)
    ensures AddAll(used, lbas + [x]) == AddAll(used, lbas) + {x}
  {
  }

  lemma UnusedOne(used: set<nat>, lbas: seq<nat>, x: nat, lo: nat, hi: nat)
    requires Unused(lbas, used, lo, hi) && lo <= x < hi && x !in AddAll(used, lbas)
    ensures Unused(lbas + [x], used, lo, hi)
  {
  }

  method AllocMany(v: Volume, n: nat) returns (r: FsResult<seq<nat>>)
    requires v.Valid()
    modifies v.bitmap
    ensures v.Valid() && (r.Failure? ==> v.Exhausted() && old(v.U()) <= v.U())
    ensures old(v.Room()) >= n ==> r.Success? && v.Room() >= old(v.Room()) - n
    ensures r.Success? ==> |r.value| == n && Unused(r.value, old(v.U()), v.Lo(), v.dataEnd) && v.U() == AddAll(old(v.U()), r.value)
  {
    ghost var used := v.U();
    var lbas: seq<nat> := [];
    assert AddAll(used, []) == used;
    for k := 0 to n
      invariant v.Valid() && |lbas| == k && Unused(lbas, used, v.Lo(), v.dataEnd) && v.U() == AddAll(used, lbas)
      invariant old(v.Room()) >= n ==> v.Room() >= old(v.Room()) - k
    {
      var lba := v.Alloc();
      if lba.None? { return Failure(NoSpace); }
      AddOne(used, lbas, lba.value);
      UnusedOne(used, lbas, lba.value, v.Lo(), v.dataEnd);
      lbas := lbas + [lba.value];
    }
    r := Success(lbas);
  }

  lemma ChunkFits(es: seq<LinkPointer>, lbas: seq<nat>, i: nat, limit: nat, count: nat)
    requires 31 * i <= |es| && i < |lbas| && Proper(es, limit, count)
    requires limit <= MAX_SECTORS_U64 && count < MAX_SECTORS_U64
    requires forall k {:trigger lbas[k]} :: 0 <= k < |lbas| ==> lbas[k] < limit
    ensures LinksFit(Chunk(es, lbas, i))
  {
  }

  /** Write the link blocks. */
  method WriteChunks(v: Volume, es: seq<LinkPointer>, lbas: seq<nat>, ghost count: nat)
    requires v.Valid() && Distinct(lbas) && |lbas| == DivCeil(|es|, 31)
    requires Proper(es, |v.D()|, count) && count < MAX_SECTORS_U64
    requires forall i {:trigger lbas[i]} :: 0 <= i < |lbas| ==> 0 < lbas[i] < |v.D()|
    modifies v.disk
    ensures v.Valid() && ChunksAt(v.D(), es, lbas) && SameOutside(old(v.D()), v.D(), lbas)
  {
    ghost var d := v.D();
    for i := 0 to |lbas|
      invariant v.Valid() && ChunksUpTo(v.D(), es, lbas, i) && SameOutside(d, v.D(), lbas)
    {
      ChunkCount(|es|, |lbas|, i);
      var chunk := Chunk(es, lbas, i);
      ChunkFits(es, lbas, i, |d|, count);
      LinkSectorOk(chunk);
      ChunkWritten(v.D(), es, lbas, i, LinkSector(chunk));
      WrittenOutside(d, v.D(), lbas, i, LinkSector(chunk));
      v.Write(lbas[i], LinkSector(chunk));
    }
  }

  /** The most link blocks that `n` sectors can need. */
  function LinkBlocks(n: nat): nat
  {
    DivCeil(n, 31)
  }

  lemma {:induction false} CoalescedCount(bs: seq<nat>)
    ensures |Coalesced(bs)| <= |bs|
    decreases |bs|
  {
    if bs != [] { CoalescedCount(bs[..|bs| - 1]); }
  }

  /** `blocks` can be a file's sectors: they exist, and no address is zero. */
  predicate Chainable(blocks: seq<nat>, limit: nat)
  {
    0 < |blocks| < MAX_SECTORS_U64 && forall i {:trigger blocks[i]} :: 0 <= i < |blocks| ==> 0 < blocks[i] < limit
  }

  /**
   * The head built for `blocks` leads, through the link blocks allocated for it, to extents that expand to `blocks`.
   * One extent needs no link block. Nothing but the new link blocks is written.
   */
  method BuildFileChain(v: Volume, blocks: seq<nat>) returns (r: FsResult<LinkPointer>, ghost ix: seq<nat>)
    requires v.Valid() && Chainable(blocks, |v.D()|)
    modifies v.disk, v.bitmap
    ensures v.Valid() && |v.D()| == |old(v.D())|
    ensures r.Failure? ==> v.Exhausted() && v.D() == old(v.D()) && old(v.U()) <= v.U() && |Coalesced(blocks)| > 1
    ensures old(v.Room()) >= LinkBlocks(|blocks|) ==> r.Success? && v.Room() >= old(v.Room()) - LinkBlocks(|blocks|)
    ensures r.Success? ==> SameOutside(old(v.D()), v.D(), ix)
    ensures r.Success? ==> Unused(ix, old(v.U()), v.Lo(), v.dataEnd) && v.U() == AddAll(old(v.U()), ix)
    ensures r.Success? ==> LinkChain(v.D(), r.value, ix) && Directs(v.D(), r.value, ix) == Coalesced(blocks)
    ensures ExpandAll(Coalesced(blocks)) == blocks
    ensures r.Success? ==> LinkFits(r.value) && (|Coalesced(blocks)| == 1 ==> ix == [])
  {
    var extents := Coalesce(blocks);
    ghost var limit, count := |v.D()|, |blocks|;
    CoalescedOk(blocks, limit);
    if |extents| == 1 {
      ix := [];
      assert AddAll(v.U(), ix) == v.U();
      assert [extents[0]] == extents;
      return Success(extents[0]), [];
    }
    CoalescedCount(blocks);
    var taken := AllocMany(v, DivCeil(|extents|, 31));
    if taken.Failure? { return Failure(NoSpace), []; }
    var lbas := taken.value;
    ix := lbas;
    WriteChunks(v, extents, lbas, count);
    ChunkCount(|extents|, |lbas|, 0);
    ChunksChain(v.D(), extents, lbas, 0, limit, count);
    assert lbas[0..] == lbas && extents[31 * 0..] == extents;
    r := Success(LinkPointer(lbas[0], 0));
  }
}
