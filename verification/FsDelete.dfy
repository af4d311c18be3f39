/** Deleting files and directories (`File::delete`, `Directory::delete`). */
module FsDelete {
  import opened Basics
  import opened Directory
  import opened FileChain
  import opened FsCodec
  import opened FsTree
  import opened Links
  import opened SectorView
  import opened Volume

  /** Exactly the sectors in `s` were blanked and freed. */
  ghost predicate Cleared(d: seq<Sector>, used: set<nat>, e: seq<Sector>, after: set<nat>, s: iset<nat>)
  {
    |d| == |e|
    && (forall x: nat {:trigger d[x]} {:trigger e[x]} :: x < |d| ==> e[x] == if x in s then Blank() else d[x])
    && (forall x: nat {:trigger x in used} {:trigger x in after} :: x in after <==> x in used && x !in s)
  }

  ghost function Those(lbas: seq<nat>): iset<nat>
  {
    iset x: nat | x in lbas
  }

  ghost function Owned(t: Tree): iset<nat>
  {
    iset x: nat | Owns(t, x)
  }

  lemma ClearedNone(d: seq<Sector>, used: set<nat>)
    ensures Cleared(d, used, d, used, iset{})
  {
  }

  lemma ClearedMore(d: seq<Sector>, used: set<nat>, e: seq<Sector>, mid: set<nat>, f: seq<Sector>, after: set<nat>, s: iset<nat>, t: iset<nat>)
    requires Cleared(d, used, e, mid, s) && Cleared(e, mid, f, after, t)
    ensures Cleared(d, used, f, after, s + t)
  {
  }

  lemma SpanMember(start: nat, count: nat)
    ensures forall x: nat {:trigger x in Span(start, count)} :: x in Span(start, count) <==> start <= x < start + count
  {
    forall x: nat {:trigger x in Span(start, count)} | start <= x < start + count
      ensures x in Span(start, count)
    {
      assert Span(start, count)[x - start] == x;
    }
  }

  lemma ThoseConcat(a: seq<nat>, b: seq<nat>)
    ensures Those(a + b) == Those(a) + Those(b)
  {
  }

  /** Free and blank one extent. */
  method ClearRun(v: Volume, start: nat, count: nat)
    requires v.Valid() && v.Lo() <= start && start + count <= v.dataEnd
    modifies v.disk, v.bitmap
    ensures v.Valid() && v.Room() >= old(v.Room()) && Cleared(old(v.D()), old(v.U()), v.D(), v.U(), Those(Span(start, count)))
  {
    SpanMember(start, count);
    v.Free(start, count);
    v.Zero(start, count);
  }

  /** All the sectors are data sectors. */
  ghost predicate AllIn(lbas: seq<nat>, lo: nat, hi: nat)
  {
    forall i {:trigger lbas[i]} :: 0 <= i < |lbas| ==> lo <= lbas[i] < hi
  }

  lemma SpanIn(p: LinkPointer, lo: nat, hi: nat)
    requires Direct(p) && AllIn(Expand(p), lo, hi)
    ensures lo <= p.start && p.start + DivCeil(p.size, 512) <= hi
  {
    var n := DivCeil(p.size, 512);
    assert n > 0;
    assert Expand(p)[0] == p.start && Expand(p)[n - 1] == p.start + n - 1;
  }

  lemma AllInParts(a: seq<nat>, b: seq<nat>, lo: nat, hi: nat)
    requires AllIn(a + b, lo, hi)
    ensures AllIn(a, lo, hi) && AllIn(b, lo, hi)
  {
    forall i {:trigger a[i]} | 0 <= i < |a|
      ensures lo <= a[i] < hi
    {
      assert (a + b)[i] == a[i];
    }
    forall i {:trigger b[i]} | 0 <= i < |b|
      ensures lo <= b[i] < hi
    {
      assert (a + b)[|a| + i] == b[i];
    }
  }

  lemma {:induction false} ExpandCut(ps: seq<LinkPointer>, front: seq<LinkPointer>, p: LinkPointer, next: seq<LinkPointer>, rest: seq<LinkPointer>)
    requires next == front + [p] && ps == next + rest
    ensures ExpandAll(next) == ExpandAll(front) + Expand(p) && ExpandAll(ps) == ExpandAll(next) + ExpandAll(rest)
  {
    ExpandSnoc(front, p);
    ExpandConcat(next, rest);
  }

  lemma {:induction false} ExtentStep(ps: seq<LinkPointer>, i: nat, lo: nat, hi: nat)
    requires i < |ps| && AllIn(ExpandAll(ps), lo, hi)
    ensures ExpandAll(ps[..i + 1]) == ExpandAll(ps[..i]) + Expand(ps[i]) && AllIn(Expand(ps[i]), lo, hi)
  {
    SplitAt(ps, i);
    ExpandCut(ps, ps[..i], ps[i], ps[..i + 1], ps[i + 1..]);
    AllInParts(ExpandAll(ps[..i + 1]), ExpandAll(ps[i + 1..]), lo, hi);
    AllInParts(ExpandAll(ps[..i]), Expand(ps[i]), lo, hi);
  }

  /** Free and blank some extents. */
  method ClearExtents(v: Volume, direct: seq<LinkPointer>)
    requires v.Valid() && AllIn(ExpandAll(direct), v.Lo(), v.dataEnd)
    requires forall i :: 0 <= i < |direct| ==> Direct(direct[i])
    modifies v.disk, v.bitmap
    ensures v.Valid() && Cleared(old(v.D()), old(v.U()), v.D(), v.U(), Those(ExpandAll(direct)))
  {
    ghost var d, used := v.D(), v.U();
    ClearedNone(d, used);
    assert Those([]) == iset{};
    for i := 0 to |direct|
      invariant v.Valid() && Cleared(d, used, v.D(), v.U(), Those(ExpandAll(direct[..i])))
    {
      var link := direct[i];
      ExtentStep(direct, i, v.Lo(), v.dataEnd);
      SpanIn(link, v.Lo(), v.dataEnd);
      ghost var e, mid := v.D(), v.U();
      ClearRun(v, link.start, DivCeil(link.size, 512));
      ClearedMore(d, used, e, mid, v.D(), v.U(), Those(ExpandAll(direct[..i])), Those(Expand(link)));
      ThoseConcat(ExpandAll(direct[..i]), Expand(link));
    }
    assert direct[..|direct|] == direct;
  }

  /** Free and blank some link blocks. */
  method ClearLinks(v: Volume, indirect: seq<LinkPointer>, ghost ix: seq<nat>)
    requires v.Valid() && indirect == Pointers(ix) && AllIn(ix, v.Lo(), v.dataEnd)
    modifies v.disk, v.bitmap
    ensures v.Valid() && v.Room() >= old(v.Room()) && Cleared(old(v.D()), old(v.U()), v.D(), v.U(), Those(ix))
  {
    ghost var d, used := v.D(), v.U();
    ClearedNone(d, used);
    assert Those([]) == iset{};
    for i := 0 to |indirect|
      invariant v.Room() >= old(v.Room())
      invariant v.Valid() && Cleared(d, used, v.D(), v.U(), Those(ix[..i]))
    {
      var link := indirect[i];
      ghost var e, mid := v.D(), v.U();
      ClearRun(v, link.start, 1);
      assert Span(ix[i], 1) == [ix[i]] && ix[..i + 1] == ix[..i] + [ix[i]];
      ClearedMore(d, used, e, mid, v.D(), v.U(), Those(ix[..i]), Those([ix[i]]));
      ThoseConcat(ix[..i], [ix[i]]);
    }
    assert ix[..|indirect|] == ix;
  }

  // ----- Files -----

  /** Every sector of the tree is a data sector. */
  ghost predicate InData(t: Tree, lo: nat, hi: nat)
  {
    forall x: nat {:trigger Owns(t, x)} :: Owns(t, x) ==> lo <= x < hi
  }

  lemma FileInData(t: Tree, lo: nat, hi: nat)
    requires t.File? && InData(t, lo, hi)
    ensures AllIn(t.ix, lo, hi) && AllIn(t.data, lo, hi) && Owned(t) == Those(t.data) + Those(t.ix)
  {
    forall i {:trigger t.ix[i]} | 0 <= i < |t.ix|
      ensures lo <= t.ix[i] < hi
    {
      assert Owns(t, t.ix[i]);
    }
    forall i {:trigger t.data[i]} | 0 <= i < |t.data|
      ensures lo <= t.data[i] < hi
    {
      assert Owns(t, t.data[i]);
    }
  }

  /** Deleting a file frees and blanks exactly its data sectors and link blocks. */
  method DeleteFile(v: Volume, head: LinkPointer, ghost e: DirEntry, ghost t: Tree)
    requires v.Valid() && Rep(v.D(), e, t) && t.File? && head == e.link && InData(t, v.Lo(), v.dataEnd)
    modifies v.disk, v.bitmap
    ensures v.Valid() && Cleared(old(v.D()), old(v.U()), v.D(), v.U(), Owned(t))
  {
    FileInData(t, v.Lo(), v.dataEnd);
    ghost var d, used := v.D(), v.U();
    var traced := Trace(v.disk, head, t.ix);
    var (direct, indirect) := traced.value;
    ClearExtents(v, direct);
    ghost var mid, between := v.D(), v.U();
    ClearLinks(v, indirect, t.ix);
    ClearedMore(d, used, mid, between, v.D(), v.U(), Those(t.data), Those(t.ix));
  }

  // ----- Directories -----

  /** The sectors of the first `n` children. */
  ghost predicate KidsOwn(kids: seq<Kid>, n: nat, x: nat)
  {
    exists i :: 0 <= i < n && i < |kids| && Owns(kids[i].tree, x)
  }

  ghost function OwnedBy(kids: seq<Kid>, n: nat): iset<nat>
  {
    iset x: nat | KidsOwn(kids, n, x)
  }

  lemma OwnedByStep(kids: seq<Kid>, n: nat)
    requires n < |kids|
    ensures OwnedBy(kids, n + 1) == OwnedBy(kids, n) + Owned(kids[n].tree)
  {
  }

  lemma OwnedDir(ds: seq<nat>, kids: seq<Kid>)
    ensures Owned(Dir(ds, kids)) == OwnedBy(kids, |kids|) + Those(ds)
  {
  }

  /** Children not yet deleted are untouched. */
  lemma {:induction false} KidIntact(d: seq<Sector>, used: set<nat>, e: seq<Sector>, after: set<nat>, ds: seq<nat>, kids: seq<Kid>, n: nat)
    requires Cleared(d, used, e, after, OwnedBy(kids, n)) && n < |kids| && Separate(Dir(ds, kids))
    requires Rep(d, kids[n].entry, kids[n].tree)
    ensures Rep(e, kids[n].entry, kids[n].tree)
  {
    var t := kids[n].tree;
    forall x: nat {:trigger Owns(t, x)} | Owns(t, x) && x < |d|
      ensures d[x] == e[x]
    {
      assert x !in OwnedBy(kids, n);
    }
    RepFrame(d, e, kids[n].entry, t);
  }

  /** The directory's own blocks are untouched while its children are deleted. */
  lemma {:induction false} BlocksIntact(d: seq<Sector>, used: set<nat>, e: seq<Sector>, after: set<nat>, p: LinkPointer, ds: seq<nat>, kids: seq<Kid>, n: nat)
    requires Cleared(d, used, e, after, OwnedBy(kids, n)) && Separate(Dir(ds, kids)) && DirChain(d, p, ds)
    ensures DirChain(e, p, ds)
  {
    forall x {:trigger d[x]} {:trigger e[x]} | x in ds && x < |d|
      ensures d[x] == e[x]
    {
      assert x !in OwnedBy(kids, n);
    }
    DirFrame(d, e, p, ds);
  }

  lemma DirInData(ds: seq<nat>, kids: seq<Kid>, lo: nat, hi: nat)
    requires InData(Dir(ds, kids), lo, hi)
    ensures AllIn(ds, lo, hi) && forall i {:trigger kids[i]} :: 0 <= i < |kids| ==> InData(kids[i].tree, lo, hi)
  {
    forall i {:trigger ds[i]} | 0 <= i < |ds|
      ensures lo <= ds[i] < hi
    {
      assert Owns(Dir(ds, kids), ds[i]);
    }
    forall i {:trigger kids[i]} | 0 <= i < |kids|
      ensures InData(kids[i].tree, lo, hi)
    {
      forall x: nat {:trigger Owns(kids[i].tree, x)} | Owns(kids[i].tree, x)
        ensures lo <= x < hi
      {
        KidOwned(ds, kids, i, x);
      }
    }
  }

  /** The first `k` blocks are cleared, and the chain went on at `ptr`. */
  ghost predicate Clearing(d: seq<Sector>, used: set<nat>, e: seq<Sector>, after: set<nat>, ds: seq<nat>, k: nat, ptr: LinkPointer)
  {
    k <= |ds| && Distinct(ds) && Cleared(d, used, e, after, Those(ds[..k])) && DirChain(d, ptr, ds[k..])
  }

  lemma {:induction false} ClearingStart(d: seq<Sector>, used: set<nat>, ds: seq<nat>, head: LinkPointer)
    requires Distinct(ds) && DirChain(d, head, ds)
    ensures Clearing(d, used, d, used, ds, 0, head)
  {
    ClearedNone(d, used);
    assert Those([]) == iset{} && ds[0..] == ds && ds[..0] == [];
  }

  lemma ClearingEnd(d: seq<Sector>, used: set<nat>, e: seq<Sector>, after: set<nat>, ds: seq<nat>, k: nat, ptr: LinkPointer)
    requires Clearing(d, used, e, after, ds, k, ptr) && !(Valid(ptr) && Direct(ptr))
    ensures Cleared(d, used, e, after, Those(ds))
  {
    assert ds[..k] == ds;
  }

  lemma SpanOne(x: nat)
    ensures Span(x, 1) == [x]
  {
  }

  lemma {:induction false} ClearingNext(d: seq<Sector>, used: set<nat>, e: seq<Sector>, after: set<nat>, ds: seq<nat>, k: nat, ptr: LinkPointer)
    requires Clearing(d, used, e, after, ds, k, ptr) && Direct(ptr)
    ensures k < |ds| && ptr.start == ds[k] < |d| && e[ptr.start] == d[ptr.start]
    ensures DirChain(d, DirOf(d[ptr.start]).next, ds[k + 1..])
  {
    assert ds[k..][1..] == ds[k + 1..] && ds[k..][0] == ds[k];
    assert ds[k] !in ds[..k];
  }

  lemma {:induction false} ClearingStep(d: seq<Sector>, used: set<nat>, e: seq<Sector>, mid: set<nat>, f: seq<Sector>, after: set<nat>, ds: seq<nat>, k: nat, ptr: LinkPointer)
    requires Clearing(d, used, e, mid, ds, k, ptr) && Direct(ptr) && k < |ds| && ptr.start < |d|
    requires DirChain(d, DirOf(d[ptr.start]).next, ds[k + 1..]) && Cleared(e, mid, f, after, Those([ds[k]]))
    ensures Clearing(d, used, f, after, ds, k + 1, DirOf(d[ptr.start]).next)
  {
    SplitAt(ds, k);
    ClearedMore(d, used, e, mid, f, after, Those(ds[..k]), Those([ds[k]]));
    ThoseConcat(ds[..k], [ds[k]]);
  }

  method ClearBlock(v: Volume, ptr: LinkPointer, ghost d: seq<Sector>, ghost used: set<nat>, ghost ds: seq<nat>, ghost k: nat)
      returns (next: LinkPointer)
    requires v.Valid() && Clearing(d, used, v.D(), v.U(), ds, k, ptr) && Direct(ptr) && AllIn(ds, v.Lo(), v.dataEnd)
    modifies v.disk, v.bitmap
    ensures v.Valid() && k < |ds| && Clearing(d, used, v.D(), v.U(), ds, k + 1, next)
  {
    ghost var e, mid := v.D(), v.U();
    ClearingNext(d, used, e, mid, ds, k, ptr);
    var block := v.Read(ptr.start);
    ClearRun(v, ptr.start, 1);
    SpanOne(ds[k]);
    ClearingStep(d, used, e, mid, v.D(), v.U(), ds, k, ptr);
    next := DirOf(block).next;
  }

  /** Free and blank the blocks of a directory. */
  method ClearChain(v: Volume, head: LinkPointer, ghost ds: seq<nat>)
    requires v.Valid() && DirChain(v.D(), head, ds) && Distinct(ds) && AllIn(ds, v.Lo(), v.dataEnd)
    modifies v.disk, v.bitmap
    ensures v.Valid() && Cleared(old(v.D()), old(v.U()), v.D(), v.U(), Those(ds))
  {
    ghost var d, used := v.D(), v.U();
    ClearingStart(d, used, ds, head);
    var ptr := head;
    ghost var k: nat := 0;
    while Valid(ptr) && Direct(ptr)
      invariant v.Valid() && Clearing(d, used, v.D(), v.U(), ds, k, ptr)
      decreases |ds| - k
    {
      ptr := ClearBlock(v, ptr, d, used, ds, k);
      k := k + 1;
    }
    ClearingEnd(d, used, v.D(), v.U(), ds, k, ptr);
  }

  /**
   * Deleting a directory ends, and frees and blanks exactly the sectors of its tree: its blocks, and the data
   * sectors, link blocks and directory blocks of everything below it.
   */
  method DeleteDir(v: Volume, children: seq<Node>, head: LinkPointer, ghost e: DirEntry, ghost t: Tree)
    requires v.Valid() && Rep(v.D(), e, t) && t.Dir? && head == e.link && ToDentries(children) == Entries(t.kids)
    requires Separate(t) && InData(t, v.Lo(), v.dataEnd)
    modifies v.disk, v.bitmap
    ensures v.Valid() && Cleared(old(v.D()), old(v.U()), v.D(), v.U(), Owned(t))
    decreases t, 0
  {
    ghost var d, used, ds, kids := v.D(), v.U(), t.ds, t.kids;
    DirInData(ds, kids, v.Lo(), v.dataEnd);
    ClearedNone(d, used);
    assert OwnedBy(kids, 0) == iset{};
    for i := 0 to |children|
      invariant v.Valid() && Cleared(d, used, v.D(), v.U(), OwnedBy(kids, i))
    {
      ghost var e1, mid, kid := v.D(), v.U(), kids[i];
      KidIntact(d, used, e1, mid, ds, kids, i);
      assert ToDentries(children)[i] == kid.entry;
      DeleteNode(v, children[i], kid);
      ClearedMore(d, used, e1, mid, v.D(), v.U(), OwnedBy(kids, i), Owned(kid.tree));
      OwnedByStep(kids, i);
    }
    ghost var mid, between := v.D(), v.U();
    BlocksIntact(d, used, mid, between, head, ds, kids, |kids|);
    ClearChain(v, head, ds);
    ClearedMore(d, used, mid, between, v.D(), v.U(), OwnedBy(kids, |kids|), Those(ds));
    OwnedDir(ds, kids);
  }

  /** One child: a file, or a directory that is loaded and deleted in turn. */
  method DeleteNode(v: Volume, node: Node, ghost kid: Kid)
    requires v.Valid() && Rep(v.D(), kid.entry, kid.tree) && ToDentry(node) == kid.entry
    requires Separate(kid.tree) && InData(kid.tree, v.Lo(), v.dataEnd)
    modifies v.disk, v.bitmap
    ensures v.Valid() && Cleared(old(v.D()), old(v.U()), v.D(), v.U(), Owned(kid.tree))
    decreases kid.tree, 1
  {
    KidLoadable(v.D(), kid);
    match node
    case FileNode(_, _, head, _) =>
      DeleteFile(v, head, kid.entry, kid.tree);
    case DirNode(_, link) =>
      var inner := LoadKid(v, link, kid);
      DeleteDir(v, inner, link, kid.entry, kid.tree);
    case SymLink(_, _) =>
  }

  /** Load the children of a directory found in another. */
  method LoadKid(v: Volume, link: LinkPointer, ghost k: Kid) returns (children: seq<Node>)
    requires Rep(v.D(), k.entry, k.tree) && k.tree.Dir? && link == k.entry.link
    ensures ToDentries(children) == Entries(k.tree.kids)
    ensures Loadable(v.D(), Entries(k.tree.kids)) && children == LoadedAll(v.D(), Entries(k.tree.kids))
  {
    RepLoadable(v.D(), k.tree.kids);
    children := LoadChildren(v, link, k.tree.ds);
  }
}
