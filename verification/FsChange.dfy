/** The changes of a directory's children: one is added, removed, or exchanged for another. */
module FsChange {
  import opened Directory
  import opened FsCodec
  import opened FsDelete
  import opened FsSync
  import opened FsTree
  import opened SectorView

  /** A directory of a sound volume. */
  ghost predicate PartOk(d: seq<Sector>, used: set<nat>, lo: nat, hi: nat, entry: DirEntry, a: Tree)
  {
    a.Dir? && Rep(d, entry, a) && Separate(a) && KidsInData(a.kids, lo, hi) && Held(a.ds, used, lo, hi)
    && forall x: nat {:trigger Owns(a, x)} :: Owns(a, x) && lo <= x < hi ==> x in used
  }

  /** Only the root's first block is `hi`. */
  lemma {:induction false} RootBlock(d: seq<Sector>, root: DirEntry, t: Tree, path: seq<nat>, hi: nat)
    requires PathOk(t, path) && Rep(d, root, t) && Separate(t) && DirectoryEntry(root) && root.link.start == hi
    ensures t.Dir? && t.ds != [] && t.ds[0] == hi
    ensures path != [] ==> !Owns(Sub(t, path), hi)
  {
    assert t.ds[0] in t.ds;
    if path != [] && Owns(Sub(t, path), hi) {
      SubOwned(t.kids[path[0]].tree, path[1..], hi);
    }
  }

  lemma {:induction false} PartOfSound(d: seq<Sector>, used: set<nat>, lo: nat, hi: nat, root: DirEntry, t: Tree, path: seq<nat>)
    requires Sound(d, used, lo, hi, root, t) && PathOk(t, path) && Sub(t, path).Dir?
    ensures PartOk(d, used, lo, hi, SubEntry(root, t, path), Sub(t, path))
  {
    var a := Sub(t, path);
    SubRep(d, root, t, path);
    RootBlock(d, root, t, path, hi);
    forall x: nat {:trigger Owns(a, x)} | Owns(a, x)
      ensures lo <= x <= hi && (x < hi ==> x in used) && (x == hi ==> path == [])
    {
      SubOwned(t, path, x);
    }
    forall i, x: nat {:trigger Owns(a.kids[i].tree, x)} | 0 <= i < |a.kids| && Owns(a.kids[i].tree, x)
      ensures lo <= x < hi
    {
      KidOwned(a.ds, a.kids, i, x);
    }
    forall i {:trigger a.ds[i]} | 0 <= i < |a.ds|
      ensures (lo <= a.ds[i] < hi && a.ds[i] in used) || (i == 0 && a.ds[i] == hi)
    {
      assert Owns(a, a.ds[i]);
    }
  }

  // ----- A child is added -----

  lemma {:induction false} AddedOwns(ds: seq<nat>, kids: seq<Kid>, k: Kid, x: nat)
    ensures Owns(Dir(ds, kids + [k]), x) <==> Owns(Dir(ds, kids), x) || Owns(k.tree, x)
  {
    var next := kids + [k];
    if Owns(Dir(ds, kids), x) && x !in ds {
      var i :| 0 <= i < |kids| && Owns(kids[i].tree, x);
      assert Owns(next[i].tree, x);
    }
    if Owns(k.tree, x) {
      assert Owns(next[|kids|].tree, x);
    }
  }

  /** The new child's sectors, and no others, were taken. */
  ghost predicate Taken(used: set<nat>, after: set<nat>, lo: nat, hi: nat, k: Tree)
  {
    (forall x: nat {:trigger Owns(k, x)} :: Owns(k, x) ==> lo <= x < hi && x !in used)
    && (forall x: nat {:trigger x in after} {:trigger x in used} :: x in after <==> x in used || Owns(k, x))
  }

  lemma AddedLocal(d: seq<Sector>, used: set<nat>, after: set<nat>, lo: nat, hi: nat, entry: DirEntry, a: Tree, k: Kid)
    requires PartOk(d, used, lo, hi, entry, a) && Taken(used, after, lo, hi, k.tree)
    ensures Local(d, used, d, after, lo, hi, a, Dir(a.ds, a.kids + [k]))
  {
    var b := Dir(a.ds, a.kids + [k]);
    forall x: nat
      ensures Owns(b, x) <==> Owns(a, x) || Owns(k.tree, x)
    {
      AddedOwns(a.ds, a.kids, k, x);
    }
  }

  lemma AddedSeparate(d: seq<Sector>, used: set<nat>, after: set<nat>, lo: nat, hi: nat, entry: DirEntry, a: Tree, k: Kid)
    requires PartOk(d, used, lo, hi, entry, a) && Taken(used, after, lo, hi, k.tree) && Separate(k.tree)
    ensures Separate(Dir(a.ds, a.kids + [k])) && KidsInData(a.kids + [k], lo, hi) && Held(a.ds, after, lo, hi)
  {
    var next := a.kids + [k];
    forall i, x: nat {:trigger Owns(next[i].tree, x)} | 0 <= i < |next| && Owns(next[i].tree, x)
      ensures x !in a.ds && lo <= x < hi
    {
      assert i < |a.kids| ==> Owns(a.kids[i].tree, x);
      assert x in a.ds ==> Owns(a, x);
    }
    forall i, j, x {:trigger Owns(next[i].tree, x), Owns(next[j].tree, x)} |
        0 <= i < |next| && 0 <= j < |next| && Owns(next[i].tree, x) && Owns(next[j].tree, x)
      ensures i == j
    {
      if i < |a.kids| { KidOwned(a.ds, a.kids, i, x); }
      if j < |a.kids| { KidOwned(a.ds, a.kids, j, x); }
    }
  }

  lemma {:induction false} Added(d: seq<Sector>, used: set<nat>, after: set<nat>, lo: nat, hi: nat, entry: DirEntry, a: Tree, k: Kid)
    requires PartOk(d, used, lo, hi, entry, a) && Taken(used, after, lo, hi, k.tree)
    requires Separate(k.tree) && LinkFits(k.entry.link) && !IsEmptyName(k.entry.name)
    ensures Local(d, used, d, after, lo, hi, a, Dir(a.ds, a.kids + [k]))
    ensures Prepared(d, after, lo, hi, entry.link, a.ds, a.kids + [k])
    ensures KidsHeld(d, a.kids + [k]) <==> Rep(d, k.entry, k.tree)
  {
    KidsFit(d, a.kids);
    assert (a.kids + [k])[|a.kids|] == k;
    AddedLocal(d, used, after, lo, hi, entry, a, k);
    AddedSeparate(d, used, after, lo, hi, entry, a, k);
    assert Entries(a.kids + [k]) == Entries(a.kids) + [k.entry];
  }

  // ----- A child is exchanged for another -----

  lemma ExchangedLocal(d: seq<Sector>, used: set<nat>, e: seq<Sector>, after: set<nat>, lo: nat, hi: nat, entry: DirEntry, a: Tree, i: nat, k: Kid)
    requires PartOk(d, used, lo, hi, entry, a) && i < |a.kids| && Local(d, used, e, after, lo, hi, a.kids[i].tree, k.tree)
    requires InData(k.tree, lo, hi)
    ensures Renewed(a.kids[i].tree, k.tree, a)
    ensures Local(d, used, e, after, lo, hi, a, Dir(a.ds, a.kids[i := k]))
  {
    var was, b := a.kids[i].tree, Dir(a.ds, a.kids[i := k]);
    KidExchanged(a.ds, a.kids, i, k);
    forall x: nat {:trigger Owns(was, x)} | Owns(was, x)
      ensures Owns(a, x)
    {
      KidOwned(a.ds, a.kids, i, x);
    }
    TouchedUp(d, e, was, k.tree, a, b);
  }

  lemma {:induction false} ExchangedKids(d: seq<Sector>, used: set<nat>, e: seq<Sector>, after: set<nat>, lo: nat, hi: nat, entry: DirEntry, a: Tree, i: nat, k: Kid)
    requires PartOk(d, used, lo, hi, entry, a) && i < |a.kids| && Local(d, used, e, after, lo, hi, a.kids[i].tree, k.tree)
    requires Renewed(a.kids[i].tree, k.tree, a) && Rep(e, k.entry, k.tree)
    ensures KidsHeld(e, a.kids[i := k]) && DirChain(e, entry.link, a.ds)
  {
    var next := a.kids[i := k];
    OwnBlocksAgree(d, e, entry.link, a.ds, a.kids, i, k.tree);
    forall j | 0 <= j < |next|
      ensures Rep(e, next[j].entry, next[j].tree)
    {
      if j != i {
        OthersAgree(d, e, a.ds, a.kids, i, k.tree, j);
        RepFrame(d, e, a.kids[j].entry, a.kids[j].tree);
      }
    }
  }

  lemma {:induction false} HeldAfter(used: set<nat>, e: seq<Sector>, after: set<nat>, lo: nat, hi: nat, d: seq<Sector>, a: Tree, b: Tree, ds: seq<nat>)
    requires Local(d, used, e, after, lo, hi, a, b) && Held(ds, used, lo, hi)
    requires forall i {:trigger ds[i]} :: 0 <= i < |ds| ==> Owns(b, ds[i])
    ensures Held(ds, after, lo, hi)
  {
  }

  lemma ExchangedInData(kids: seq<Kid>, i: nat, k: Kid, lo: nat, hi: nat)
    requires i < |kids| && KidsInData(kids, lo, hi) && InData(k.tree, lo, hi)
    ensures KidsInData(kids[i := k], lo, hi)
  {
    var next := kids[i := k];
    forall j, x: nat {:trigger Owns(next[j].tree, x)} | 0 <= j < |next| && Owns(next[j].tree, x)
      ensures lo <= x < hi
    {
      assert j != i ==> Owns(kids[j].tree, x);
    }
  }

  /** The children of `a` have changed to `kids`, which the disk holds, and the directory is to be written. */
  ghost predicate ReadyToWrite(d: seq<Sector>, used: set<nat>, e: seq<Sector>, after: set<nat>, lo: nat, hi: nat, head: LinkPointer, a: Tree, kids: seq<Kid>)
  {
    a.Dir? && Local(d, used, e, after, lo, hi, a, Dir(a.ds, kids)) && Prepared(e, after, lo, hi, head, a.ds, kids) && KidsHeld(e, kids)
  }

  lemma {:induction false} Exchange(d: seq<Sector>, used: set<nat>, e: seq<Sector>, after: set<nat>, lo: nat, hi: nat, entry: DirEntry, a: Tree, i: nat, k: Kid)
    requires PartOk(d, used, lo, hi, entry, a) && i < |a.kids| && Local(d, used, e, after, lo, hi, a.kids[i].tree, k.tree)
    requires InData(k.tree, lo, hi) && Rep(e, k.entry, k.tree) && Separate(k.tree) && !IsEmptyName(k.entry.name)
    ensures ReadyToWrite(d, used, e, after, lo, hi, entry.link, a, a.kids[i := k])
  {
    ExchangedLocal(d, used, e, after, lo, hi, entry, a, i, k);
    KidSeparate(a.ds, a.kids, i, k);
    ExchangedKids(d, used, e, after, lo, hi, entry, a, i, k);
    KidsFit(e, a.kids[i := k]);
    ExchangedInData(a.kids, i, k, lo, hi);
    HeldAfter(used, e, after, lo, hi, d, a, Dir(a.ds, a.kids[i := k]), a.ds);
    assert Entries(a.kids[i := k]) == Entries(a.kids)[i := k.entry];
  }

  // ----- A child is removed -----

  /** `swap_remove` */
  function SwapRemove<T>(s: seq<T>, i: nat): (r: seq<T>)
    requires i < |s|
    ensures |r| == |s| - 1
    ensures forall j {:trigger r[j]} :: 0 <= j < |r| ==> r[j] == if j == i then s[|s| - 1] else s[j]
  {
    if i == |s| - 1 then s[..i] else s[..|s| - 1][i := s[|s| - 1]]
  }

  lemma {:induction false} RemovedOwns(ds: seq<nat>, kids: seq<Kid>, i: nat, x: nat)
    requires i < |kids| && Separate(Dir(ds, kids))
    ensures Owns(Dir(ds, SwapRemove(kids, i)), x) <==> Owns(Dir(ds, kids), x) && !Owns(kids[i].tree, x)
  {
    var next, last := SwapRemove(kids, i), |kids| - 1;
    if Owns(Dir(ds, next), x) && x !in ds {
      var j :| 0 <= j < |next| && Owns(next[j].tree, x);
      KidOwned(ds, kids, if j == i then last else j, x);
    }
    if Owns(Dir(ds, kids), x) && !Owns(kids[i].tree, x) && x !in ds {
      var j :| 0 <= j < |kids| && Owns(kids[j].tree, x);
      assert Owns(next[if j == last then i else j].tree, x);
    }
  }

  lemma RemovedLocal(d: seq<Sector>, used: set<nat>, e: seq<Sector>, after: set<nat>, lo: nat, hi: nat, entry: DirEntry, a: Tree, i: nat)
    requires PartOk(d, used, lo, hi, entry, a) && i < |a.kids| && Cleared(d, used, e, after, Owned(a.kids[i].tree))
    ensures Local(d, used, e, after, lo, hi, a, Dir(a.ds, SwapRemove(a.kids, i)))
  {
    var b := Dir(a.ds, SwapRemove(a.kids, i));
    forall x: nat
      ensures Owns(b, x) <==> Owns(a, x) && !Owns(a.kids[i].tree, x)
    {
      RemovedOwns(a.ds, a.kids, i, x);
    }
    forall x: nat {:trigger Owns(a.kids[i].tree, x)} | Owns(a.kids[i].tree, x)
      ensures Owns(a, x)
    {
      KidOwned(a.ds, a.kids, i, x);
    }
  }

  /** Where the child at `j` after `swap_remove` came from. */
  function Origin(n: nat, i: nat, j: nat): nat
    requires i < n && j < n - 1
  {
    if j == i then n - 1 else j
  }

  lemma RemovedSeparate(ds: seq<nat>, kids: seq<Kid>, i: nat, lo: nat, hi: nat)
    requires i < |kids| && Separate(Dir(ds, kids)) && KidsInData(kids, lo, hi)
    ensures Separate(Dir(ds, SwapRemove(kids, i))) && KidsInData(SwapRemove(kids, i), lo, hi)
  {
    var next := SwapRemove(kids, i);
    forall j, x: nat {:trigger Owns(next[j].tree, x)} | 0 <= j < |next| && Owns(next[j].tree, x)
      ensures x !in ds && lo <= x < hi
    {
      assert Owns(kids[Origin(|kids|, i, j)].tree, x);
    }
    forall j, k, x {:trigger Owns(next[j].tree, x), Owns(next[k].tree, x)} |
        0 <= j < |next| && 0 <= k < |next| && Owns(next[j].tree, x) && Owns(next[k].tree, x)
      ensures j == k
    {
      assert Owns(kids[Origin(|kids|, i, j)].tree, x) && Owns(kids[Origin(|kids|, i, k)].tree, x);
    }
  }

  lemma {:induction false} RemovedKids(d: seq<Sector>, used: set<nat>, e: seq<Sector>, after: set<nat>, lo: nat, hi: nat, entry: DirEntry, a: Tree, i: nat)
    requires PartOk(d, used, lo, hi, entry, a) && i < |a.kids| && Cleared(d, used, e, after, Owned(a.kids[i].tree))
    ensures KidsHeld(e, SwapRemove(a.kids, i)) && DirChain(e, entry.link, a.ds)
  {
    var next := SwapRemove(a.kids, i);
    forall x {:trigger d[x]} {:trigger e[x]} | x in a.ds && x < |d|
      ensures d[x] == e[x]
    {
      assert !Owns(a.kids[i].tree, x);
    }
    DirFrame(d, e, entry.link, a.ds);
    forall j | 0 <= j < |next|
      ensures Rep(e, next[j].entry, next[j].tree)
    {
      var k := Origin(|a.kids|, i, j);
      RemainingAgree(d, used, e, after, a.ds, a.kids, i, k);
      RepFrame(d, e, a.kids[k].entry, a.kids[k].tree);
    }
  }

  lemma RemainingAgree(d: seq<Sector>, used: set<nat>, e: seq<Sector>, after: set<nat>, ds: seq<nat>, kids: seq<Kid>, i: nat, k: nat)
    requires i < |kids| && k < |kids| && k != i && Separate(Dir(ds, kids)) && Cleared(d, used, e, after, Owned(kids[i].tree))
    ensures Agree(d, e, kids[k].tree)
  {
  }

  lemma Removed(d: seq<Sector>, used: set<nat>, e: seq<Sector>, after: set<nat>, lo: nat, hi: nat, entry: DirEntry, a: Tree, i: nat)
    requires PartOk(d, used, lo, hi, entry, a) && i < |a.kids| && Cleared(d, used, e, after, Owned(a.kids[i].tree))
    ensures Local(d, used, e, after, lo, hi, a, Dir(a.ds, SwapRemove(a.kids, i)))
    ensures Prepared(e, after, lo, hi, entry.link, a.ds, SwapRemove(a.kids, i)) && KidsHeld(e, SwapRemove(a.kids, i))
  {
    var next := SwapRemove(a.kids, i);
    RemovedLocal(d, used, e, after, lo, hi, entry, a, i);
    RemovedSeparate(a.ds, a.kids, i, lo, hi);
    RemovedKids(d, used, e, after, lo, hi, entry, a, i);
    KidsFit(e, next);
    HeldAfter(used, e, after, lo, hi, d, a, Dir(a.ds, next), a.ds);
    assert AllNamed(Entries(next)) by {
      forall j {:trigger Entries(next)[j]} | 0 <= j < |next|
        ensures !IsEmptyName(Entries(next)[j].name)
      {
        assert Entries(next)[j] == Entries(a.kids)[Origin(|a.kids|, i, j)];
      }
    }
  }
}
