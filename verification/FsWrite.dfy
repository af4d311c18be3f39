/** Rewriting a file's content (`write` in `fs/lemonfs/mod.rs`). */
module FsWrite {
  import opened Basics
  import opened Directory
  import opened Disk
  import opened FileChain
  import opened FsCodec
  import opened FsDelete
  import opened FsTree
  import opened Links
  import opened SectorView
  import opened Volume

  // ----- The sectors of the new content -----

  /** Every sector of the extents, in order. */
  method ListBlocks(direct: seq<LinkPointer>) returns (blocks: seq<nat>)
    ensures blocks == ExpandAll(direct)
  {
    blocks := [];
    for i := 0 to |direct|
      invariant blocks == ExpandAll(direct[..i])
    {
      var link := direct[i];
      ghost var before := blocks;
      for block := 0 to DivCeil(link.size, 512)
        invariant blocks == before + Span(link.start, block)
      {
        assert Span(link.start, block + 1) == Span(link.start, block) + [link.start + block];
        assert before + (Span(link.start, block) + [link.start + block]) == before + Span(link.start, block) + [link.start + block];
        blocks := blocks + [link.start + block];
      }
      SplitAt(direct, i);
      ExpandSnoc(direct[..i], link);
    }
    assert direct[..|direct|] == direct;
  }

  /** After `i` sectors: the first blocks are kept, then `added` are taken. */
  ghost predicate Taking(blocks: seq<nat>, sectors: nat, i: nat, chain: seq<nat>, added: seq<nat>, used: set<nat>, now: set<nat>, lo: nat, hi: nat)
  {
    i <= sectors && |chain| == i && Unused(added, used, lo, hi) && now == AddAll(used, added)
    && (if i <= |blocks| then chain == blocks[..i] && added == [] else chain == blocks + added)
  }

  lemma TakingKept(blocks: seq<nat>, sectors: nat, i: nat, chain: seq<nat>, added: seq<nat>, used: set<nat>, now: set<nat>, lo: nat, hi: nat)
    requires Taking(blocks, sectors, i, chain, added, used, now, lo, hi) && i < sectors && i < |blocks|
    ensures Taking(blocks, sectors, i + 1, chain + [blocks[i]], added, used, now, lo, hi)
  {
  }

  lemma TakingAdded(blocks: seq<nat>, sectors: nat, i: nat, chain: seq<nat>, added: seq<nat>, used: set<nat>, now: set<nat>, lo: nat, hi: nat, x: nat)
    requires Taking(blocks, sectors, i, chain, added, used, now, lo, hi) && i < sectors && i >= |blocks|
    requires lo <= x < hi && x !in now
    ensures Taking(blocks, sectors, i + 1, chain + [x], added + [x], used, now + {x}, lo, hi)
  {
    AddOne(used, added, x);
    UnusedOne(used, added, x, lo, hi);
    if i == |blocks| {
      assert blocks[..i] == blocks;
    }
    assert blocks + added + [x] == blocks + (added + [x]);
  }

  /** Keep the first blocks, and take new ones if there are too few. */
  method TakeBlocks(v: Volume, blocks: seq<nat>, sectors: nat) returns (r: FsResult<seq<nat>>, ghost added: seq<nat>)
    requires v.Valid()
    modifies v.bitmap
    ensures v.Valid() && (r.Failure? ==> v.Exhausted() && sectors > |blocks| && old(v.U()) <= v.U())
    ensures old(v.Room()) >= sectors ==> r.Success? && v.Room() >= old(v.Room()) - sectors
    ensures r.Success? ==> Taking(blocks, sectors, sectors, r.value, added, old(v.U()), v.U(), v.Lo(), v.dataEnd)
  {
    ghost var used := v.U();
    var chain: seq<nat> := [];
    added := [];
    assert AddAll(used, []) == used;
    for i := 0 to sectors
      invariant v.Valid() && Taking(blocks, sectors, i, chain, added, used, v.U(), v.Lo(), v.dataEnd)
      invariant old(v.Room()) >= sectors ==> v.Room() >= old(v.Room()) - i
    {
      if i < |blocks| {
        TakingKept(blocks, sectors, i, chain, added, used, v.U(), v.Lo(), v.dataEnd);
        chain := chain + [blocks[i]];
      } else {
        ghost var now := v.U();
        var lba := v.Alloc();
        if lba.None? { return Failure(NoSpace), []; }
        TakingAdded(blocks, sectors, i, chain, added, used, now, v.Lo(), v.dataEnd, lba.value);
        added := added + [lba.value];
        chain := chain + [lba.value];
      }
    }
    r := Success(chain);
  }

  /** Free and blank the blocks no longer needed. */
  method DropSurplus(v: Volume, surplus: seq<nat>)
    requires v.Valid() && AllIn(surplus, v.Lo(), v.dataEnd)
    modifies v.disk, v.bitmap
    ensures v.Valid() && v.Room() >= old(v.Room()) && Cleared(old(v.D()), old(v.U()), v.D(), v.U(), Those(surplus))
  {
    ghost var d, used := v.D(), v.U();
    ClearedNone(d, used);
    assert Those([]) == iset{};
    for i := 0 to |surplus|
      invariant v.Room() >= old(v.Room())
      invariant v.Valid() && Cleared(d, used, v.D(), v.U(), Those(surplus[..i]))
    {
      ghost var e, mid := v.D(), v.U();
      ClearRun(v, surplus[i], 1);
      SpanOne(surplus[i]);
      assert surplus[..i + 1] == surplus[..i] + [surplus[i]];
      ClearedMore(d, used, e, mid, v.D(), v.U(), Those(surplus[..i]), Those([surplus[i]]));
      ThoseConcat(surplus[..i], [surplus[i]]);
    }
    assert surplus[..|surplus|] == surplus;
  }

  // ----- Writing the content -----

  /** As far as both go, the file keeps its sectors. */
  ghost predicate FrontKept(was: seq<nat>, now: seq<nat>)
  {
    forall k {:trigger now[k]} {:trigger was[k]} :: 0 <= k < |was| && k < |now| ==> now[k] == was[k]
  }

  lemma TakingFront(blocks: seq<nat>, sectors: nat, chain: seq<nat>, added: seq<nat>, used: set<nat>, now: set<nat>, lo: nat, hi: nat)
    requires Taking(blocks, sectors, sectors, chain, added, used, now, lo, hi)
    ensures FrontKept(blocks, chain)
  {
  }

  /** The first `n` sectors of the chain hold the first `n` sectors of the source. */
  ghost predicate Holds(d: seq<Sector>, chain: seq<nat>, src: seq<Sector>, n: nat)
  {
    n <= |chain| && n <= |src| && forall k {:trigger chain[k]} :: 0 <= k < n ==> chain[k] < |d| && d[chain[k]] == src[k]
  }

  lemma RunInChain(chain: seq<nat>, off: nat, start: nat, count: nat, x: nat)
    requires off + count <= |chain| && start <= x < start + count
    requires forall k {:trigger chain[k]} :: off <= k < off + count ==> chain[k] == start + (k - off)
    ensures x in chain
  {
    assert chain[off + (x - start)] == x;
  }

  lemma ExtentWritten(d: seq<Sector>, chain: seq<nat>, src: seq<Sector>, off: nat, start: nat, count: nat)
    requires Holds(d, chain, src, off) && Distinct(chain) && off + count <= |chain| == |src| && start + count <= |d|
    requires forall k {:trigger chain[k]} :: off <= k < off + count ==> chain[k] == start + (k - off)
    ensures Holds(Overwrite(d, start, src[off..off + count]), chain, src, off + count)
    ensures SameOutside(d, Overwrite(d, start, src[off..off + count]), chain)
  {
    var e := Overwrite(d, start, src[off..off + count]);
    forall k {:trigger chain[k]} | 0 <= k < off + count
      ensures chain[k] < |e| && e[chain[k]] == src[k]
    {
      var j := off + (chain[k] - start);
      assert off <= j < off + count ==> chain[j] == chain[k];
    }
    forall x {:trigger d[x]} {:trigger e[x]} | 0 <= x < |d| && x !in chain
      ensures d[x] == e[x]
    {
      if start <= x < start + count { RunInChain(chain, off, start, count, x); }
    }
  }

  lemma SameOutsideTrans(d: seq<Sector>, e: seq<Sector>, f: seq<Sector>, lbas: seq<nat>)
    requires SameOutside(d, e, lbas) && SameOutside(e, f, lbas)
    ensures SameOutside(d, f, lbas)
  {
  }

  lemma ExtentPlace(links: seq<LinkPointer>, i: nat, chain: seq<nat>, off: nat, count: nat)
    requires i < |links| && chain == ExpandAll(links) && off == |ExpandAll(links[..i])| && count == DivCeil(links[i].size, 512)
    ensures off + count <= |chain| && off + count == |ExpandAll(links[..i + 1])|
    ensures forall k {:trigger chain[k]} :: off <= k < off + count ==> chain[k] == links[i].start + (k - off)
  {
    SplitAt(links, i);
    ExpandCut(links, links[..i], links[i], links[..i + 1], links[i + 1..]);
    var front, own, rest := ExpandAll(links[..i]), Expand(links[i]), ExpandAll(links[i + 1..]);
    assert chain == front + own + rest;
    forall k {:trigger chain[k]} | off <= k < off + count
      ensures chain[k] == links[i].start + (k - off)
    {
      assert chain[k] == own[k - off];
    }
  }

  /** Write the source over the extents, one after the other. */
  method WriteContent(v: Volume, links: seq<LinkPointer>, src: seq<Sector>, ghost chain: seq<nat>)
    requires v.Valid() && chain == ExpandAll(links) && |chain| == |src| && Distinct(chain) && Sized(src)
    requires forall k {:trigger chain[k]} :: 0 <= k < |chain| ==> chain[k] < |v.D()|
    modifies v.disk
    ensures v.Valid() && Holds(v.D(), chain, src, |src|) && SameOutside(old(v.D()), v.D(), chain)
  {
    ghost var d := v.D();
    var offset := 0;
    for i := 0 to |links|
      invariant v.Valid() && offset == |ExpandAll(links[..i])| && Holds(v.D(), chain, src, offset) && SameOutside(d, v.D(), chain)
    {
      var link, count := links[i], DivCeil(links[i].size, 512);
      ExtentPlace(links, i, chain, offset, count);
      assert count > 0 ==> chain[offset + count - 1] == link.start + count - 1;
      if count > 0 {
        ghost var e := v.D();
        ExtentWritten(e, chain, src, offset, link.start, count);
        v.WriteRun(link.start, src[offset..offset + count]);
        SameOutsideTrans(d, e, v.D(), chain);
      }
      offset := offset + count;
    }
    assert links[..|links|] == links;
  }

  // ----- The whole rewrite -----

  /** The blocks of the old content that the new one does not need. */
  function Surplus(data: seq<nat>, n: nat): seq<nat>
  {
    if n < |data| then data[n..] else []
  }

  /** The steps of a rewrite, from `d`, `used` to `f`, `after`. */
  ghost predicate Rewritten(d: seq<Sector>, used: set<nat>, f: seq<Sector>, after: set<nat>, lo: nat, hi: nat,
                            ix: seq<nat>, data: seq<nat>, iy: seq<nat>, chain: seq<nat>,
                            d1: seq<Sector>, u1: set<nat>, added: seq<nat>, u2: set<nat>, d3: seq<Sector>, u3: set<nat>, d4: seq<Sector>)
  {
    Cleared(d, used, d1, u1, Those(ix))
    && Taking(data, |chain|, |chain|, chain, added, u1, u2, lo, hi)
    && Cleared(d1, u2, d3, u3, Those(Surplus(data, |chain|)))
    && Unused(iy, u3, lo, hi) && after == AddAll(u3, iy) && SameOutside(d3, d4, iy)
    && SameOutside(d4, f, chain)
  }

  /** A file of a sound volume: its sectors are data sectors marked used. */
  ghost predicate FileOk(t: Tree, used: set<nat>, lo: nat, hi: nat)
  {
    t.File? && Separate(t) && InData(t, lo, hi) && forall x: nat {:trigger Owns(t, x)} :: Owns(t, x) ==> x in used
  }

  lemma SurplusMembers(data: seq<nat>, n: nat, x: nat)
    requires Distinct(data)
    ensures x in Surplus(data, n) ==> x in data && (n < |data| ==> x !in data[..n])
    ensures x in data && x !in Surplus(data, n) ==> n < |data| ==> x in data[..n]
  {
    if n < |data| {
      assert data == data[..n] + data[n..];
      if x in data[n..] {
        var i :| n <= i < |data| && data[i] == x;
        assert x !in data[..n];
      }
    }
  }

  /** The sectors kept or taken for the content: data sectors, each once, and marked used. */
  lemma ContentSectors(t: Tree, used: set<nat>, lo: nat, hi: nat, u1: set<nat>, chain: seq<nat>, added: seq<nat>, u2: set<nat>, d: seq<Sector>, d1: seq<Sector>)
    requires FileOk(t, used, lo, hi) && Cleared(d, used, d1, u1, Those(t.ix)) && Taking(t.data, |chain|, |chain|, chain, added, u1, u2, lo, hi)
    ensures Distinct(chain) && AllIn(chain, lo, hi)
    ensures forall x: nat {:trigger x in chain} :: x in chain ==> x in u2
  {
    FileInData(t, lo, hi);
    forall i {:trigger t.data[i]} | 0 <= i < |t.data|
      ensures t.data[i] in u1
    {
      assert t.data[i] in t.data;
      assert Owns(t, t.data[i]);
    }
    forall i {:trigger chain[i]} | 0 <= i < |chain|
      ensures lo <= chain[i] < hi && chain[i] in u2
      ensures i < |t.data| ==> chain[i] in u1
      ensures i >= |t.data| ==> chain[i] !in u1
    {
      assert i < |t.data| ==> chain[i] == t.data[i];
      assert i >= |t.data| ==> chain[i] == added[i - |t.data|];
    }
    forall i, j {:trigger chain[i], chain[j]} | 0 <= i < j < |chain|
      ensures chain[i] != chain[j]
    {
      assert j < |t.data| ==> chain[i] == t.data[i] && chain[j] == t.data[j];
      assert i >= |t.data| ==> chain[i] == added[i - |t.data|] && chain[j] == added[j - |t.data|];
    }
  }

  lemma {:induction false} ChainKept(t: Tree, used: set<nat>, lo: nat, hi: nat, u1: set<nat>, chain: seq<nat>, added: seq<nat>, u2: set<nat>,
                  d: seq<Sector>, d1: seq<Sector>, d3: seq<Sector>, u3: set<nat>, x: nat)
    requires FileOk(t, used, lo, hi) && Cleared(d, used, d1, u1, Those(t.ix)) && Taking(t.data, |chain|, |chain|, chain, added, u1, u2, lo, hi)
    requires Cleared(d1, u2, d3, u3, Those(Surplus(t.data, |chain|)))
    ensures x in chain ==> x in u3
    ensures x in chain ==> Owns(t, x) || (lo <= x < hi && x !in used)
    ensures x in u3 <==> (x in used && !Owns(t, x)) || x in chain
  {
    ContentSectors(t, used, lo, hi, u1, chain, added, u2, d, d1);
    SurplusMembers(t.data, |chain|, x);
    assert Owns(t, x) <==> x in t.ix || x in t.data;
    assert x in u1 <==> x in used && x !in t.ix;
    if |chain| >= |t.data| {
      assert chain == t.data + added;
    }
  }

  /** The rewrite exchanges the old file for the new one and touches nothing else. */
  lemma RewrittenOk(d: seq<Sector>, used: set<nat>, f: seq<Sector>, after: set<nat>, lo: nat, hi: nat, t: Tree, iy: seq<nat>, chain: seq<nat>, es: seq<LinkPointer>,
                    d1: seq<Sector>, u1: set<nat>, added: seq<nat>, u2: set<nat>, d3: seq<Sector>, u3: set<nat>, d4: seq<Sector>)
    requires FileOk(t, used, lo, hi)
    requires Rewritten(d, used, f, after, lo, hi, t.ix, t.data, iy, chain, d1, u1, added, u2, d3, u3, d4)
    ensures Separate(File(iy, chain, es)) && InData(File(iy, chain, es), lo, hi) && Local(d, used, f, after, lo, hi, t, File(iy, chain, es))
  {
    var b := File(iy, chain, es);
    ContentSectors(t, used, lo, hi, u1, chain, added, u2, d, d1);
    forall x: nat
      ensures x in chain ==> x in u3 && (Owns(t, x) || (lo <= x < hi && x !in used))
      ensures x in u3 <==> (x in used && !Owns(t, x)) || x in chain
    {
      ChainKept(t, used, lo, hi, u1, chain, added, u2, d, d1, d3, u3, x);
    }
    forall x: nat {:trigger x in iy} | x in iy
      ensures lo <= x < hi && x !in u3
    {
    }
    RewrittenTouched(d, used, f, after, lo, hi, t, iy, chain, es, d1, u1, added, u2, d3, u3, d4);
  }

  lemma RewrittenTouched(d: seq<Sector>, used: set<nat>, f: seq<Sector>, after: set<nat>, lo: nat, hi: nat, t: Tree, iy: seq<nat>, chain: seq<nat>, es: seq<LinkPointer>,
                         d1: seq<Sector>, u1: set<nat>, added: seq<nat>, u2: set<nat>, d3: seq<Sector>, u3: set<nat>, d4: seq<Sector>)
    requires FileOk(t, used, lo, hi)
    requires Rewritten(d, used, f, after, lo, hi, t.ix, t.data, iy, chain, d1, u1, added, u2, d3, u3, d4)
    ensures Touched(d, f, t, File(iy, chain, es))
  {
    forall x: nat {:trigger d[x]} {:trigger f[x]} | x < |d| && !Owns(t, x) && !Owns(File(iy, chain, es), x)
      ensures d[x] == f[x]
    {
      SurplusMembers(t.data, |chain|, x);
      assert d[x] == d1[x] && d1[x] == d3[x] && d3[x] == d4[x] && d4[x] == f[x];
    }
  }

  /** The sectors of the content can be chained, and the link blocks are apart from them. */
  lemma ChainReady(t: Tree, used: set<nat>, lo: nat, hi: nat, u1: set<nat>, chain: seq<nat>, added: seq<nat>, u2: set<nat>,
                   d: seq<Sector>, d1: seq<Sector>, d3: seq<Sector>, u3: set<nat>)
    requires FileOk(t, used, lo, hi) && Cleared(d, used, d1, u1, Those(t.ix)) && Taking(t.data, |chain|, |chain|, chain, added, u1, u2, lo, hi)
    requires Cleared(d1, u2, d3, u3, Those(Surplus(t.data, |chain|))) && 0 < lo && hi <= |d| && 0 < |chain| < MAX_SECTORS_U64
    ensures Distinct(chain) && AllIn(chain, lo, hi) && Chainable(chain, |d|)
    ensures forall x: nat {:trigger x in chain} :: x in chain ==> x in u3
  {
    ContentSectors(t, used, lo, hi, u1, chain, added, u2, d, d1);
    forall x: nat {:trigger x in chain} | x in chain
      ensures x in u3
    {
      ChainKept(t, used, lo, hi, u1, chain, added, u2, d, d1, d3, u3, x);
    }
  }

  lemma SurplusIn(data: seq<nat>, n: nat, lo: nat, hi: nat)
    requires AllIn(data, lo, hi)
    ensures AllIn(Surplus(data, n), lo, hi)
  {
  }

  /**
   * Give a file new content. The new head leads to sectors that hold the source, in order; the sectors the file
   * gained were free, those it gave up are, and nothing else is touched.
   */
  method Rewrite(v: Volume, head: LinkPointer, src: seq<Sector>, ghost e: DirEntry, ghost t: Tree)
      returns (r: FsResult<(LinkPointer, nat)>, ghost b: Tree)
    requires v.Valid() && Rep(v.D(), e, t) && head == e.link && FileOk(t, v.U(), v.Lo(), v.dataEnd)
    requires 0 < |src| < MAX_SECTORS_U64 && Sized(src)
    modifies v.disk, v.bitmap
    ensures v.Valid() && |v.D()| == |old(v.D())|
    ensures r.Failure? ==> v.Exhausted() && Spoiled(old(v.D()), old(v.U()), v.D(), v.U(), Kid(e, t))
    ensures old(v.Room()) >= NeededFor(|src|) ==> r.Success? && v.Room() >= old(v.Room()) - NeededFor(|src|)
    ensures r.Success? ==> Local(old(v.D()), old(v.U()), v.D(), v.U(), v.Lo(), v.dataEnd, t, b)
    ensures r.Success? ==> b.File? && Rep(v.D(), e.(link := r.value.0), b) && Separate(b) && InData(b, v.Lo(), v.dataEnd)
    ensures r.Success? ==> |b.data| == |src| && Holds(v.D(), b.data, src, |src|) && b.extents == Coalesced(b.data)
    ensures r.Success? ==> FrontKept(t.data, b.data) && (|b.extents| == 1 ==> b.ix == [])
  {
    ghost var d, used, lo, hi := v.D(), v.U(), v.Lo(), v.dataEnd;
    b := t;
    FileInData(t, lo, hi);
    var traced := Trace(v.disk, head, t.ix);
    var (direct, indirect) := traced.value;
    ClearLinks(v, indirect, t.ix);
    ghost var d1, u1 := v.D(), v.U();
    var blocks := ListBlocks(direct);
    var taken;
    ghost var added;
    taken, added := TakeBlocks(v, blocks, |src|);
    if taken.Failure? {
      SpoiledEarly(d, used, d1, u1, v.U(), e, t);
      return Failure(NoSpace), t;
    }
    var chain := taken.value;
    ghost var u2 := v.U();
    TakingFront(blocks, |src|, chain, added, u1, u2, lo, hi);
    SurplusIn(blocks, |src|, lo, hi);
    DropSurplus(v, if |src| < |blocks| then blocks[|src|..] else []);
    ghost var d3, u3 := v.D(), v.U();
    ChainReady(t, used, lo, hi, u1, chain, added, u2, d, d1, d3, u3);
    r, b := Rechain(v, chain, src, e);
    if r.Success? {
      ghost var d4 :| SameOutside(d3, d4, b.ix) && SameOutside(d4, v.D(), chain);
      assert Rewritten(d, used, v.D(), v.U(), lo, hi, t.ix, t.data, b.ix, chain, d1, u1, added, u2, d3, u3, d4);
      RewrittenOk(d, used, v.D(), v.U(), lo, hi, t, b.ix, chain, b.extents, d1, u1, added, u2, d3, u3, d4);
    } else {
      SpoiledLate(d, used, lo, hi, e, t, d1, u1, chain, added, u2, d3, u3, v.U());
    }
  }

  /** The most sectors that writing `n` of them can take. */
  function NeededFor(n: nat): nat
  {
    n + LinkBlocks(n)
  }

  /**
   * What a write that runs out of space leaves: only sectors of the file are touched and all others that were in use
   * still are. Without link blocks nothing is written at all; with link blocks the entry no longer leads to the data.
   */
  ghost predicate Spoiled(d: seq<Sector>, used: set<nat>, e: seq<Sector>, after: set<nat>, k: Kid)
  {
    k.tree.File? && |d| == |e|
    && (forall x: nat {:trigger d[x]} {:trigger e[x]} :: x < |d| && !Owns(k.tree, x) ==> d[x] == e[x])
    && (forall x: nat {:trigger x in after} {:trigger x in used} :: x in used && !Owns(k.tree, x) ==> x in after)
    && (k.tree.ix == [] ==> d == e)
    && (k.tree.ix != [] && k.tree.data != [] ==> !Rep(e, k.entry, k.tree))
  }

  /** A blank link block ends its chain and names no extents. */
  lemma {:induction false} LinksGone(d: seq<Sector>, e: DirEntry, t: Tree)
    requires t.File? && t.ix != [] && t.data != [] && t.ix[0] < |d| && d[t.ix[0]] == Blank()
    ensures !Rep(d, e, t)
  {
    BlankEnds();
    assert LinkChain(d, NO_LINK, t.ix[1..]) ==> Directs(d, NO_LINK, t.ix[1..]) == [];
    assert ExpandAll([]) == [];
  }

  lemma {:induction false} SpoiledEarly(d: seq<Sector>, used: set<nat>, d1: seq<Sector>, u1: set<nat>, after: set<nat>, e: DirEntry, t: Tree)
    requires Rep(d, e, t) && t.File? && Cleared(d, used, d1, u1, Those(t.ix)) && u1 <= after
    ensures Spoiled(d, used, d1, after, Kid(e, t))
  {
    if t.ix != [] && t.data != [] {
      assert Owns(t, t.ix[0]) && t.ix[0] in Those(t.ix);
      LinksGone(d1, e, t);
    }
  }

  lemma {:induction false} SpoiledLate(d: seq<Sector>, used: set<nat>, lo: nat, hi: nat, e: DirEntry, t: Tree, d1: seq<Sector>, u1: set<nat>,
                    chain: seq<nat>, added: seq<nat>, u2: set<nat>, d3: seq<Sector>, u3: set<nat>, after: set<nat>)
    requires Rep(d, e, t) && FileOk(t, used, lo, hi) && Cleared(d, used, d1, u1, Those(t.ix))
    requires Taking(t.data, |chain|, |chain|, chain, added, u1, u2, lo, hi)
    requires Cleared(d1, u2, d3, u3, Those(Surplus(t.data, |chain|))) && u3 <= after && |Coalesced(chain)| > 1
    ensures Spoiled(d, used, d3, after, Kid(e, t))
  {
    forall x: nat | x in Those(Surplus(t.data, |chain|)) ensures Owns(t, x) { SurplusMembers(t.data, |chain|, x); }
    if t.ix == [] {
      NoSurplus(d, e, t, chain, added, u1, u2, lo, hi);
    } else if t.data != [] {
      assert t.ix[0] in Those(t.ix);
      LinksGone(d3, e, t);
    }
  }

  /** A file without link blocks has one extent, so if its new sectors make several it is growing. */
  lemma {:induction false} NoSurplus(d: seq<Sector>, e: DirEntry, t: Tree, chain: seq<nat>, added: seq<nat>, u1: set<nat>, u2: set<nat>, lo: nat, hi: nat)
    requires Rep(d, e, t) && t.File? && t.ix == [] && Taking(t.data, |chain|, |chain|, chain, added, u1, u2, lo, hi) && |Coalesced(chain)| > 1
    ensures Surplus(t.data, |chain|) == []
  {
    OneExtent(d, e, t);
    if 0 < |chain| <= |t.data| {
      assert chain == Span(e.link.start, |chain|);
      CoalescedSpan(e.link.start, |chain|);
    }
  }

  lemma {:induction false} OneExtent(d: seq<Sector>, e: DirEntry, t: Tree)
    requires Rep(d, e, t) && t.File? && t.ix == []
    ensures t.data == [] || t.data == Span(e.link.start, |t.data|)
  {
    assert t.extents == [] || t.extents == [e.link];
    assert ExpandAll([e.link]) == Expand(e.link) + ExpandAll([]);
  }

  /** Build the new chain and write the content over it. */
  method Rechain(v: Volume, chain: seq<nat>, src: seq<Sector>, ghost e: DirEntry)
      returns (r: FsResult<(LinkPointer, nat)>, ghost b: Tree)
    requires v.Valid() && Chainable(chain, |v.D()|) && Distinct(chain) && |chain| == |src| && FileEntry(e) && Sized(src)
    requires forall x: nat {:trigger x in chain} :: x in chain ==> x in v.U()
    modifies v.disk, v.bitmap
    ensures v.Valid() && |v.D()| == |old(v.D())| && b.File?
    ensures r.Failure? ==> v.Exhausted() && v.D() == old(v.D()) && old(v.U()) <= v.U() && |Coalesced(chain)| > 1
    ensures old(v.Room()) >= LinkBlocks(|src|) ==> r.Success? && v.Room() >= old(v.Room()) - LinkBlocks(|src|)
    ensures r.Success? ==> b.data == chain && b.extents == Coalesced(chain) && Rep(v.D(), e.(link := r.value.0), b) && Holds(v.D(), chain, src, |src|)
    ensures r.Success? ==> Unused(b.ix, old(v.U()), v.Lo(), v.dataEnd) && v.U() == AddAll(old(v.U()), b.ix)
    ensures r.Success? && |b.extents| == 1 ==> b.ix == []
    ensures r.Success? ==> exists d4 :: SameOutside(old(v.D()), d4, b.ix) && SameOutside(d4, v.D(), chain)
  {
    b := File([], [], []);
    var built;
    ghost var iy;
    built, iy := BuildFileChain(v, chain);
    if built.Failure? { return Failure(built.error), b; }
    var newHead := built.value;
    ghost var d4 := v.D();
    var links := ResolveLinks(v.disk, newHead, iy);
    var size := TotalSize(links.value);
    WriteContent(v, links.value, src, chain);
    b := File(iy, chain, Coalesced(chain));
    ChainFrame(d4, v.D(), newHead, iy);
    r := Success((newHead, size));
  }
}
