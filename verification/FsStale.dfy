/** Free sectors keep what they held, and caches keep naming them: where that shows. */
module FsStale {
  import opened Basics
  import opened BitmapBlock
  import opened Bits
  import opened Directory
  import opened Disk
  import opened FileChain
  import opened FsChange
  import opened FsCodec
  import opened FsDelete
  import opened FsPaths
  import opened FsRead
  import opened FsReadBack
  import opened FsSession
  import opened FsTree
  import opened FsWrite
  import opened LemonFs
  import opened SectorView
  import opened Volume

  // ----- Blocks given up by `sync` -----

  /**
   * A shortened directory chain is freed but not blanked. So if a block it gave up is picked next, a directory can be
   * created there exactly if that block had no entries and no successor.
   */
  lemma SurplusBlocksLinger(v: Volume, d: seq<Sector>, used: set<nat>, ds: seq<nat>, chain: seq<nat>, k: nat, j: nat)
    requires v.Valid() && Held(ds, used, v.Lo(), v.dataEnd) && |d| == |v.D()| && 0 < k <= j < |ds|
    requires Resized(ds, used, chain, v.U(), k, v.Lo(), v.dataEnd) && SameOutside(d, v.D(), chain)
    ensures v.Lo() <= ds[j] < v.dataEnd && ds[j] !in v.U() && v.D()[ds[j]] == d[ds[j]]
    ensures !v.Exhausted() && v.Pick() == ds[j] ==> (Ready(v) <==> EmptyBlock(d[ds[j]]))
  {
    assert ds[j] == ds[k..][j - k];
    assert ds[j] !in ds[..k];
  }

  /** With nine children in two blocks, the second block has an entry. */
  lemma {:induction false} NinthChild(d: seq<Sector>, e: DirEntry, t: Tree)
    requires Rep(d, e, t) && t.Dir? && |t.ds| == 2 && |t.kids| == 9
    ensures 0 < t.ds[1] < |d| && !EmptyBlock(d[t.ds[1]])
    ensures Entries(t.kids)[8] in Named(DirOf(d[t.ds[1]]).entries)
  {
    DirChainBounds(d, e.link, t.ds, 0);
    DirChainBounds(d, e.link, t.ds, 1);
    TwoBlocks(d, t.ds);
    var first, second := Named(DirOf(d[t.ds[0]]).entries), Named(DirOf(d[t.ds[1]]).entries);
    NamedBound(DirOf(d[t.ds[0]]).entries);
    assert (first + second)[8] == second[8 - |first|];
  }

  lemma {:induction false} TwoBlocks(d: seq<Sector>, ds: seq<nat>)
    requires |ds| == 2 && ds[0] < |d| && ds[1] < |d|
    ensures EntriesAt(d, ds) == Named(DirOf(d[ds[0]]).entries) + Named(DirOf(d[ds[1]]).entries)
  {
    var rest := ds[1..];
    var none := rest[1..];
    assert EntriesAt(d, none) == [];
    assert EntriesAt(d, rest) == Named(DirOf(d[rest[0]]).entries) + EntriesAt(d, none);
    assert EntriesAt(d, ds) == Named(DirOf(d[ds[0]]).entries) + EntriesAt(d, rest);
  }

  /** `x` lies in the first bitmap block, whose sectors after it are free. */
  ghost predicate LastUsed(v: Volume, x: nat)
    reads v.bitmap
  {
    v.Lo() <= x < v.Lo() + BITS_PER_BLOCK <= v.dataEnd
    && forall y: nat {:trigger y in v.U()} :: x < y < v.Lo() + BITS_PER_BLOCK ==> y !in v.U()
  }

  /** What is in use once child `i` and the second block of the root are gone. */
  lemma {:induction false} UsedAfterDelete(t: Tree, u: Tree, i: nat, x: nat, used: set<nat>, after: set<nat>, lo: nat, hi: nat, y: nat)
    requires t.Dir? && u.Dir? && i < |t.kids| && t.ds == [hi, x] && u.ds == [hi] && u.kids == SwapRemove(t.kids, i)
    requires Separate(t) && Marked(t, used, lo, hi) && Marked(u, after, lo, hi) && lo <= y < hi
    ensures y in after <==> y in used && y != x && !Owns(t.kids[i].tree, y)
  {
    RemovedOwns(t.ds, t.kids, i, y);
    assert Owns(Dir(t.ds, u.kids), y) <==> y == x || Owns(u, y);
    assert x in t.ds;
    forall j | 0 <= j < |u.kids| && Owns(u.kids[j].tree, y)
      ensures y != x
    {
      assert Owns(t.kids[Origin(|t.kids|, i, j)].tree, y);
    }
  }

  /** The block given up keeps its content, and it is the first free sector of the run that ends its bitmap block. */
  lemma {:induction false} GivenUp(t: Tree, u: Tree, i: nat, x: nat, used: set<nat>, after: set<nat>, lo: nat, hi: nat, end: nat, d: seq<Sector>, e: seq<Sector>)
    requires t.Dir? && u.Dir? && i < |t.kids| && t.ds == [hi, x] && u.ds == [hi] && u.kids == SwapRemove(t.kids, i)
    requires Separate(t) && Marked(t, used, lo, hi) && Marked(u, after, lo, hi) && lo <= x < end <= hi < |d|
    requires forall y: nat {:trigger y in used} :: x < y < end ==> y !in used
    requires x == lo || (x - 1 in used && !Owns(t.kids[i].tree, x - 1))
    requires OnlyTouched(d, e, u.ds, t.kids[i].tree, NoTree())
    ensures d[x] == e[x] && (x == lo || x - 1 in after)
    ensures forall y: nat {:trigger y in after} :: x <= y < end ==> y !in after
  {
    assert x in t.ds && !Owns(t.kids[i].tree, x);
    forall y: nat {:trigger y in after} | x <= y < end
      ensures y !in after
    {
      UsedAfterDelete(t, u, i, x, used, after, lo, hi, y);
    }
    if x > lo { UsedAfterDelete(t, u, i, x, used, after, lo, hi, x - 1); }
  }

  /** Deleting one of nine children of the root frees its second block, which keeps its entry and is picked next. */
  method DeleteNinth(fs: LemonFs, victim: Name, ghost i: nat, ghost x: nat) returns (r: FsResult<()>)
    requires fs.Valid() && Locate(fs.tree, [victim]) == Success(([], Some(i)))
    requires |fs.tree.kids| == 9 && fs.tree.ds == [fs.v.dataEnd, x] && LastUsed(fs.v, x)
    requires x == fs.v.Lo() || (x - 1 in fs.v.U() && !Owns(fs.tree.kids[i].tree, x - 1))
    modifies fs, fs.v.disk, fs.v.bitmap
    ensures r.Success? && fs.Valid() && !fs.v.Exhausted() && fs.v.Pick() == x < |fs.v.D()| == |old(fs.v.D())|
    ensures fs.v.Room() >= fs.v.Lo() + BITS_PER_BLOCK - x
    ensures fs.v.D()[x] == old(fs.v.D())[x] && fs.tree.Dir? && fs.tree.kids == SwapRemove(old(fs.tree.kids), i)
  {
    ghost var t, used, d, end := fs.tree, fs.v.U(), fs.v.D(), fs.v.Lo() + BITS_PER_BLOCK;
    ghost var p, j, b;
    r, p, j, b := fs.Delete([victim]);
    assert b.ds == t.ds[..1] == [fs.v.dataEnd];
    GivenUp(t, fs.tree, i, x, used, fs.v.U(), fs.v.Lo(), fs.v.dataEnd, end, d, fs.v.D());
    fs.v.Picks(x);
    fs.v.RoomFrom(x);
  }

  /**
   * A directory created next takes that block. It is not empty: it lists the ninth child of the root, whose entry the
   * block still holds.
   */
  method LingeringEntry(fs: LemonFs, victim: Name, name: Name, ghost i: nat, ghost x: nat) returns (r: FsResult<()>)
    requires fs.Valid() && Locate(fs.tree, [victim]) == Success(([], Some(i)))
    requires |fs.tree.kids| == 9 && fs.tree.ds == [fs.v.dataEnd, x] && LastUsed(fs.v, x)
    requires x == fs.v.Lo() || (x - 1 in fs.v.U() && !Owns(fs.tree.kids[i].tree, x - 1))
    requires Storable(name) && Find(Entries(fs.tree.kids), name, 0).None? && x + 2 <= fs.v.Lo() + BITS_PER_BLOCK
    modifies fs, fs.v.disk, fs.v.bitmap
    ensures r.Success? && x < |fs.v.D()| && old(Entries(fs.tree.kids)[8]) in Named(DirOf(fs.v.D()[x]).entries)
    ensures !Rep(fs.v.D(), NewKid(name, true, x).entry, Dir([x], []))
  {
    NinthChild(fs.v.D(), fs.RootEntry(), fs.tree);
    ghost var kids := fs.tree.kids;
    r := DeleteNinth(fs, victim, i, x);
    StillMissing(kids, i, name);
    r := MakeDirectory(fs, name, x);
  }

  /** Create a directory in the root on the sector picked, which keeps what it holds. */
  method MakeDirectory(fs: LemonFs, name: Name, ghost x: nat) returns (r: FsResult<()>)
    requires fs.Valid() && fs.v.Pick() == x < |fs.v.D()| && Storable(name) && Find(Entries(fs.tree.kids), name, 0).None?
    modifies fs, fs.v.disk, fs.v.bitmap
    ensures r.Success? || (r == Failure(NoSpace) && fs.v.Exhausted())
    ensures old(fs.v.Room()) >= 2 ==> r.Success?
    ensures r.Success? ==> x < |fs.v.D()| && fs.v.D()[x] == old(fs.v.D())[x]
    ensures r.Success? ==> (Rep(fs.v.D(), NewKid(name, true, x).entry, Dir([x], [])) <==> EmptyBlock(old(fs.v.D())[x]))
  {
    assert [name][..0] == [];
    var flags := 1;
    FlagOf(flags);
    ghost var p, b, lba;
    r, p, b, lba := fs.Create([name], flags);
  }

  lemma {:induction false} StillMissing(kids: seq<Kid>, i: nat, name: Name)
    requires i < |kids| && Find(Entries(kids), name, 0).None?
    ensures Find(Entries(SwapRemove(kids, i)), name, 0).None?
  {
    var next := SwapRemove(kids, i);
    forall k | 0 <= k < |next|
      ensures ToStr(Entries(next)[k].name) != name
    {
      assert Entries(next)[k] == Entries(kids)[Origin(|kids|, i, k)];
    }
  }

  // ----- Sectors named by a cache and used by another file -----

  lemma {:induction false} SpanFront(start: nat, n: nat, m: nat, data: seq<nat>)
    requires 0 < m <= n && |data| == m && FrontKept(Span(start, n), data)
    ensures data == Span(start, m) && |Coalesced(data)| == 1
  {
    assert data == Span(start, m);
    CoalescedSpan(start, m);
  }

  /** What is in use once the file at index `i` of the root is down to its first `m` sectors. */
  lemma {:induction false} UsedAfterShrink(t: Tree, u: Tree, was: seq<Node>, now: seq<Node>, d: seq<Sector>, e: seq<Sector>, i: nat,
                        start: nat, n: nat, m: nat, used: set<nat>, after: set<nat>, lo: nat, hi: nat, y: nat)
    requires OthersSame(t, u, was, now, d, e, i) && i < |t.kids| && Separate(t) && t.kids[i].tree.File? && u.kids[i].tree.File?
    requires t.kids[i].tree.data == Span(start, n) && u.kids[i].tree.data == Span(start, m) && u.kids[i].tree.ix == [] && m <= n
    requires Marked(t, used, lo, hi) && Marked(u, after, lo, hi) && lo <= y < hi && start + m <= y
    ensures y in after ==> y in used && y >= start + n
  {
    SpanMember(start, m);
    SpanMember(start, n);
    assert !Owns(u.kids[i].tree, y) && (y < start + n ==> Owns(t.kids[i].tree, y));
    forall j | 0 <= j < |u.kids| && Owns(u.kids[j].tree, y)
      ensures j != i && Owns(t.kids[j].tree, y)
    {
      assert j != i ==> u.kids[j] == t.kids[j];
    }
    assert Owns(u, y) ==> Owns(t, y);
  }

  lemma {:induction false} FreeAfterShrink(t: Tree, u: Tree, was: seq<Node>, now: seq<Node>, d: seq<Sector>, e: seq<Sector>, i: nat,
                        start: nat, n: nat, m: nat, used: set<nat>, after: set<nat>, lo: nat, hi: nat, end: nat)
    requires OthersSame(t, u, was, now, d, e, i) && i < |t.kids| && Separate(t) && t.kids[i].tree.File? && u.kids[i].tree.File?
    requires t.kids[i].tree.data == Span(start, n) && u.kids[i].tree.data == Span(start, m) && u.kids[i].tree.ix == [] && m <= n
    requires Marked(t, used, lo, hi) && Marked(u, after, lo, hi) && lo <= start + m && end <= hi
    requires forall y: nat {:trigger y in used} :: start + n <= y < end ==> y !in used
    ensures forall y: nat {:trigger y in after} :: start + m <= y < end ==> y !in after
  {
    forall y: nat {:trigger y in after} | start + m <= y < end
      ensures y !in after
    {
      UsedAfterShrink(t, u, was, now, d, e, i, start, n, m, used, after, lo, hi, y);
    }
  }

  /** Writing a file shorter makes the first sector it gives up the one that is picked next. */
  method Shrink(fs: LemonFs, name: Name, src: seq<Sector>, ghost i: nat, ghost start: nat, ghost n: nat) returns (r: FsResult<()>)
    requires fs.Valid() && RootFile(fs, name, i, [LinkPointer(start, 512 * n)]) && fs.tree.kids[i].tree.data == Span(start, n)
    requires 0 < |src| < n && |src| < MAX_SECTORS_U64 && Sized(src) && LastUsed(fs.v, start + n - 1)
    modifies fs, fs.v.disk, fs.v.bitmap
    ensures r.Success? || (r == Failure(NoSpace) && fs.v.Exhausted())
    ensures r.Success? ==> fs.Valid() && RootFile(fs, name, i, [LinkPointer(start, 512 * n)])
    ensures r.Success? ==> !fs.v.Exhausted() && fs.v.Pick() == start + |src|
    ensures start + n + NeededFor(|src|) <= fs.v.Lo() + BITS_PER_BLOCK ==> r.Success?
    ensures r.Success? ==> fs.v.Room() >= fs.v.Lo() + BITS_PER_BLOCK - (start + |src|)
    ensures r.Success? ==> OthersSame(old(fs.tree), fs.tree, old(fs.root), fs.root, old(fs.v.D()), fs.v.D(), i)
  {
    ghost var t, used, was, d := fs.tree, fs.v.U(), fs.root, fs.v.D();
    fs.v.RoomFrom(start + n);
    r := RootWrite(fs, name, src, i, [LinkPointer(start, 512 * n)]);
    if r.Success? {
      AfterShrink(fs, t, used, was, d, src, i, start, n);
    }
  }

  lemma {:induction false} AfterShrink(fs: LemonFs, t: Tree, used: set<nat>, was: seq<Node>, d: seq<Sector>, src: seq<Sector>, i: nat, start: nat, n: nat)
    requires fs.Valid() && OthersSame(t, fs.tree, was, fs.root, d, fs.v.D(), i) && i < |t.kids| && HasContent(fs, i, src)
    requires Separate(t) && Marked(t, used, fs.v.Lo(), fs.v.dataEnd) && t.kids[i].tree.File? && t.kids[i].tree.data == Span(start, n)
    requires FrontKept(Span(start, n), fs.tree.kids[i].tree.data) && 0 < |src| < n
    requires fs.v.Lo() <= start + n - 1 < fs.v.Lo() + BITS_PER_BLOCK <= fs.v.dataEnd
    requires forall y: nat {:trigger y in used} :: start + n <= y < fs.v.Lo() + BITS_PER_BLOCK ==> y !in used
    ensures !fs.v.Exhausted() && fs.v.Pick() == start + |src| && fs.v.Room() >= fs.v.Lo() + BITS_PER_BLOCK - (start + |src|)
  {
    var m, lo, hi := |src|, fs.v.Lo(), fs.v.dataEnd;
    SpanFront(start, n, m, fs.tree.kids[i].tree.data);
    DataInUse(fs, i, m - 1);
    FreeAfterShrink(t, fs.tree, was, fs.root, d, fs.v.D(), i, start, n, m, used, fs.v.U(), lo, hi, lo + BITS_PER_BLOCK);
    fs.v.Picks(start + m);
    fs.v.RoomFrom(start + m);
  }

  /** A file's data sectors are in use. */
  lemma DataInUse(fs: LemonFs, i: nat, k: nat)
    requires fs.Valid() && fs.tree.Dir? && i < |fs.tree.kids| && fs.tree.kids[i].tree.File? && k < |fs.tree.kids[i].tree.data|
    ensures var x := fs.tree.kids[i].tree.data[k]; fs.v.Lo() <= x < fs.v.dataEnd && x in fs.v.U()
  {
    var f := fs.tree.kids[i].tree;
    PartOfSound(fs.v.D(), fs.v.U(), fs.v.Lo(), fs.v.dataEnd, fs.RootEntry(), fs.tree, []);
    KidOfPart(fs.v.D(), fs.v.U(), fs.v.Lo(), fs.v.dataEnd, fs.RootEntry(), fs.tree, i);
    assert Owns(f, f.data[k]);
  }

  /** A file in the root stays one when another file is created or written there. */
  lemma StillRootFile(t: Tree, u: Tree, name: Name, i: nat)
    requires t.Dir? && u.Dir? && Locate(t, [name]) == Success(([], Some(i))) && |t.kids| <= |u.kids|
    requires forall k {:trigger u.kids[k]} :: 0 <= k < |t.kids| ==> u.kids[k].entry.name == t.kids[k].entry.name
    ensures Locate(u, [name]) == Success(([], Some(i)))
  {
    assert [name][..0] == [];
    FindFrontNamed(Entries(t.kids), Entries(u.kids), name, 0);
  }

  lemma {:induction false} FindFrontNamed(a: seq<DirEntry>, b: seq<DirEntry>, name: Name, from: nat)
    requires |a| <= |b| && from <= |a| && Find(a, name, from).Some?
    requires forall k {:trigger b[k]} :: 0 <= k < |a| ==> b[k].name == a[k].name
    ensures Find(b, name, from) == Find(a, name, from)
    decreases |a| - from
  {
    if from < |a| {
      assert b[from].name == a[from].name;
      if ToStr(a[from].name) != name { FindFrontNamed(a, b, name, from + 1); }
    }
  }

  lemma StillBeside(t: Tree, u: Tree, was: seq<Node>, now: seq<Node>, d: seq<Sector>, e: seq<Sector>, i: nat, other: Name, j: nat)
    requires OthersSame(t, u, was, now, d, e, i) && Locate(t, [other]) == Success(([], Some(j))) && i != j && j < |was|
    ensures j < |t.kids| && u.kids[j] == t.kids[j] && now[j] == was[j] && Agree(d, e, t.kids[j].tree)
    ensures Locate(u, [other]) == Success(([], Some(j)))
  {
    assert [other][..0] == [];
    forall k {:trigger u.kids[k]} | 0 <= k < |t.kids|
      ensures u.kids[k].entry.name == t.kids[k].entry.name
    {
      assert k != i ==> u.kids[k] == t.kids[k];
    }
    StillRootFile(t, u, other, j);
  }

  /** Writing a file in the root leaves another one there alone. */
  method WriteBeside(fs: LemonFs, name: Name, src: seq<Sector>, ghost i: nat, ghost links: seq<LinkPointer>,
                     ghost other: Name, ghost j: nat, ghost cached: seq<LinkPointer>) returns (r: FsResult<()>)
    requires fs.Valid() && RootFile(fs, name, i, links) && RootFile(fs, other, j, cached) && i != j
    requires 0 < |src| < MAX_SECTORS_U64 && Sized(src)
    modifies fs, fs.v.disk, fs.v.bitmap
    ensures r.Success? || (r == Failure(NoSpace) && fs.v.Exhausted())
    ensures old(fs.v.Room()) >= NeededFor(|src|) ==> r.Success? && fs.v.Room() >= old(fs.v.Room()) - NeededFor(|src|)
    ensures r.Success? ==> fs.Valid() && RootFile(fs, name, i, links) && RootFile(fs, other, j, cached)
    ensures r.Success? ==> HasContent(fs, i, src) && FrontKept(old(fs.tree.kids[i].tree.data), fs.tree.kids[i].tree.data)
    ensures r.Success? ==> fs.tree.kids[j] == old(fs.tree.kids[j]) && Agree(old(fs.v.D()), fs.v.D(), fs.tree.kids[j].tree)
  {
    ghost var t, was, d := fs.tree, fs.root, fs.v.D();
    r := RootWrite(fs, name, src, i, links);
    if r.Success? {
      StillBeside(t, fs.tree, was, fs.root, d, fs.v.D(), i, other, j);
    }
  }

  /** Create a file on the sector picked and fill it: that sector holds the first sector of its content. */
  method Occupy(fs: LemonFs, name: Name, src: seq<Sector>, ghost other: Name, ghost i: nat, ghost links: seq<LinkPointer>, ghost x: nat)
      returns (r: FsResult<()>, ghost j: nat)
    requires fs.Valid() && Storable(name) && Locate(fs.tree, [name]) == Success(([], None)) && RootFile(fs, other, i, links)
    requires 0 < |src| < MAX_SECTORS_U64 && Sized(src) && fs.v.Pick() == x
    modifies fs, fs.v.disk, fs.v.bitmap
    ensures r.Success? || (r == Failure(NoSpace) && fs.v.Exhausted())
    ensures old(fs.v.Room()) >= 2 + NeededFor(|src|) ==> r.Success? && fs.v.Room() >= old(fs.v.Room()) - 2 - NeededFor(|src|)
    ensures r.Success? ==> fs.Valid() && RootFile(fs, other, i, links) && RootFile(fs, name, j, []) && j != i
    ensures r.Success? ==> HasContent(fs, j, src) && fs.tree.kids[j].tree.data[0] == x
  {
    ghost var t := fs.tree;
    r, j := CreateInRoot(fs, name);
    if r.Success? {
      StillRootFile(t, fs.tree, other, i);
      r := WriteBeside(fs, name, src, j, [], other, i, links);
    }
  }

  lemma {:induction false} JoinedAt(d: seq<Sector>, lbas: seq<nat>, k: nat)
    requires Sized(d) && Exist(lbas, |d|) && k < |lbas|
    ensures Joined(d, lbas)[512 * k..512 * (k + 1)] == d[lbas[k]].bytes
    decreases k
  {
    if k > 0 {
      JoinedAt(d, lbas[1..], k - 1);
    }
  }

  lemma CapSlice(s: seq<Byte>, n: nat, a: nat, b: nat)
    requires a <= b <= |s| && b <= n
    ensures b <= |Cap(s, n)| && Cap(s, n)[a..b] == s[a..b]
  {
  }

  /** A cached extent returns its sectors, whoever they belong to. */
  lemma {:induction false} ExtentSector(d: seq<Sector>, start: nat, n: nat, k: nat, capacity: nat)
    requires Sized(d) && Readable([LinkPointer(start, 512 * n)], |d|) && k < n && 512 * (k + 1) <= capacity
    ensures var bytes := Cap(ReadAll(d, [LinkPointer(start, 512 * n)]), capacity);
      |bytes| >= 512 * (k + 1) && start + k < |d| && bytes[512 * k..512 * (k + 1)] == d[start + k].bytes
  {
    var links, lbas := [LinkPointer(start, 512 * n)], Span(start, n);
    assert ExpandAll(links) == Expand(links[0]) + ExpandAll(links[1..]);
    assert Expand(links[0]) == lbas && ExpandAll(links[1..]) == [];
    assert ExpandAll(links) == lbas;
    WholeExtents(d, links);
    JoinedAt(d, lbas, k);
    assert lbas[k] == start + k;
    CapSlice(ReadAll(d, links), capacity, 512 * k, 512 * (k + 1));
  }

  /**
   * A file cached with `n` sectors is written shorter, another file takes the first sector it gave up, and the first
   * file is written again, as long as one likes. Reading it returns the other file's sector in that place, whatever was
   * written there, even if as many sectors were written as are cached.
   */
  method ReusedSector(fs: LemonFs, name: Name, other: Name, short: seq<Sector>, taken: seq<Sector>, long: seq<Sector>, capacity: nat,
                      ghost i: nat, ghost start: nat, ghost n: nat) returns (r: FsResult<seq<Byte>>)
    requires fs.Valid() && RootFile(fs, name, i, [LinkPointer(start, 512 * n)]) && fs.tree.kids[i].tree.data == Span(start, n)
    requires n > 0 && LastUsed(fs.v, start + n - 1) && Storable(other) && Find(Entries(fs.tree.kids), other, 0).None?
    requires 0 < |short| < n && |short| < |long| && 512 * (|short| + 1) <= capacity
    requires start + n + NeededFor(|short|) <= fs.v.Lo() + BITS_PER_BLOCK
    requires start + |short| + 2 + NeededFor(|taken|) + NeededFor(|long|) <= fs.v.Lo() + BITS_PER_BLOCK
    requires |short| < MAX_SECTORS_U64 && Sized(short) && 0 < |taken| < MAX_SECTORS_U64 && Sized(taken) && |long| < MAX_SECTORS_U64 && Sized(long)
    modifies fs, fs.v.disk, fs.v.bitmap
    ensures r.Success? && fs.Valid() && RootFile(fs, name, i, [LinkPointer(start, 512 * n)]) && WrittenAs(fs.v.D(), fs.tree.kids[i].tree, long)
    ensures |r.value| >= 512 * (|short| + 1) && r.value[512 * |short|..512 * (|short| + 1)] == taken[0].bytes
  {
    ghost var j := Displace(fs, name, other, short, taken, i, start, n);
    r := Regrow(fs, name, other, long, taken, capacity, i, j, start, n, |short|);
  }

  /** The first part of this: the first file is written shorter, and the other one takes its place. */
  method Displace(fs: LemonFs, name: Name, other: Name, short: seq<Sector>, taken: seq<Sector>, ghost i: nat, ghost start: nat, ghost n: nat)
      returns (ghost j: nat)
    requires fs.Valid() && RootFile(fs, name, i, [LinkPointer(start, 512 * n)]) && fs.tree.kids[i].tree.data == Span(start, n)
    requires 0 < |short| < n && LastUsed(fs.v, start + n - 1) && Storable(other) && Find(Entries(fs.tree.kids), other, 0).None?
    requires start + n + NeededFor(|short|) <= fs.v.Lo() + BITS_PER_BLOCK
    requires start + |short| + 2 + NeededFor(|taken|) <= fs.v.Lo() + BITS_PER_BLOCK
    requires |short| < MAX_SECTORS_U64 && Sized(short) && 0 < |taken| < MAX_SECTORS_U64 && Sized(taken)
    modifies fs, fs.v.disk, fs.v.bitmap
    ensures fs.Valid() && RootFile(fs, name, i, [LinkPointer(start, 512 * n)]) && RootFile(fs, other, j, []) && i != j
    ensures HasContent(fs, j, taken) && fs.tree.kids[j].tree.data[0] == start + |short|
    ensures fs.v.Room() >= fs.v.Lo() + BITS_PER_BLOCK - (start + |short|) - 2 - NeededFor(|taken|)
  {
    ghost var links, x, t := [LinkPointer(start, 512 * n)], start + |short|, fs.tree;
    var done := Shrink(fs, name, short, i, start, n);
    StillAbsent(t, fs.tree, other);
    done, j := Occupy(fs, other, taken, name, i, links, x);
  }

  /** The end of this: the first file is written again and read. */
  method Regrow(fs: LemonFs, name: Name, ghost other: Name, long: seq<Sector>, ghost taken: seq<Sector>, capacity: nat,
                ghost i: nat, ghost j: nat, ghost start: nat, ghost n: nat, ghost m: nat) returns (r: FsResult<seq<Byte>>)
    requires fs.Valid() && RootFile(fs, name, i, [LinkPointer(start, 512 * n)]) && RootFile(fs, other, j, []) && i != j
    requires 0 < |long| < MAX_SECTORS_U64 && Sized(long) && m < n && 512 * (m + 1) <= capacity && |taken| > 0
    requires HasContent(fs, j, taken) && fs.tree.kids[j].tree.data[0] == start + m
    modifies fs, fs.v.disk, fs.v.bitmap
    ensures r.Success? || (r == Failure(NoSpace) && fs.v.Exhausted())
    ensures old(fs.v.Room()) >= NeededFor(|long|) ==> r.Success?
    ensures r.Success? ==> fs.Valid() && RootFile(fs, name, i, [LinkPointer(start, 512 * n)]) && WrittenAs(fs.v.D(), fs.tree.kids[i].tree, long)
    ensures r.Success? ==> |r.value| >= 512 * (m + 1) && r.value[512 * m..512 * (m + 1)] == taken[0].bytes
  {
    ghost var links, g, d := [LinkPointer(start, 512 * n)], fs.tree.kids[j].tree, fs.v.D();
    assert Owns(g, g.data[0]) && d[start + m] == taken[0];
    var done := WriteBeside(fs, name, long, i, links, other, j, []);
    if done.Failure? { return Failure(done.error); }
    var data := RootRead(fs, name, capacity, i, links);
    ExtentSector(fs.v.D(), start, n, m, capacity);
    r := Success(data);
  }

  lemma {:induction false} StillAbsent(t: Tree, u: Tree, name: Name)
    requires t.Dir? && u.Dir? && |u.kids| == |t.kids| && Find(Entries(t.kids), name, 0).None?
    requires forall k {:trigger u.kids[k]} :: 0 <= k < |t.kids| ==> u.kids[k].entry.name == t.kids[k].entry.name
    ensures Locate(u, [name]) == Success(([], None))
  {
    assert [name][..0] == [];
    FindSame(Entries(t.kids), Entries(u.kids), name, 0);
  }
}
