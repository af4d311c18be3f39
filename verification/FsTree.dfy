/**
 * What a volume holds, as a tree: every file with its link blocks and data sectors, every directory with its blocks
 * and children. A tree is separate when no sector belongs to two things in it.
 */
module FsTree {
  import opened Directory
  import opened FileChain
  import opened FsCodec
  import opened Links
  import opened SectorView

  datatype Tree =
    | File(ix: seq<nat>, data: seq<nat>, extents: seq<LinkPointer>)
    | Dir(ds: seq<nat>, kids: seq<Kid>)

  datatype Kid = Kid(entry: DirEntry, tree: Tree)

  /** Sector `x` belongs to `t`. */
  ghost predicate Owns(t: Tree, x: nat)
  {
    match t
    case File(ix, data, _) => x in ix || x in data
    case Dir(ds, kids) => x in ds || exists i :: 0 <= i < |kids| && Owns(kids[i].tree, x)
  }

  /** No sector belongs to two things. */
  ghost predicate Separate(t: Tree)
  {
    match t
    case File(ix, data, _) => Distinct(ix) && Distinct(data) && forall x {:trigger x in ix} :: x in ix ==> x !in data
    case Dir(ds, kids) =>
      Distinct(ds)
      && (forall i :: 0 <= i < |kids| ==> Separate(kids[i].tree))
      && (forall i, x {:trigger Owns(kids[i].tree, x)} :: 0 <= i < |kids| && Owns(kids[i].tree, x) ==> x !in ds)
      && (forall i, j, x {:trigger Owns(kids[i].tree, x), Owns(kids[j].tree, x)} ::
            0 <= i < |kids| && 0 <= j < |kids| && Owns(kids[i].tree, x) && Owns(kids[j].tree, x) ==> i == j)
  }

  function Entries(kids: seq<Kid>): (r: seq<DirEntry>)
    ensures |r| == |kids| && forall i {:trigger r[i]} {:trigger kids[i]} :: 0 <= i < |kids| ==> r[i] == kids[i].entry
  {
    seq(|kids|, i requires 0 <= i < |kids| => kids[i].entry)
  }

  predicate FileEntry(e: DirEntry)
  {
    e.flags == 0
  }

  predicate DirectoryEntry(e: DirEntry)
  {
    e.flags == IS_DIR
  }

  /** The disk holds `t` under the entry `e`. */
  ghost predicate Rep(d: seq<Sector>, e: DirEntry, t: Tree)
    decreases t
  {
    LinkFits(e.link) && match t
    case File(ix, data, extents) =>
      FileEntry(e) && LinkChain(d, e.link, ix) && Directs(d, e.link, ix) == extents && ExpandAll(extents) == data
    case Dir(ds, kids) =>
      DirectoryEntry(e) && ds != [] && DirChain(d, e.link, ds) && EntriesAt(d, ds) == Entries(kids)
      && AllNamed(Entries(kids))
      && forall i :: 0 <= i < |kids| ==> Rep(d, kids[i].entry, kids[i].tree)
  }

  // ----- A tree depends on its own sectors alone -----

  ghost predicate Agree(d: seq<Sector>, e: seq<Sector>, t: Tree)
  {
    |d| == |e| && forall x: nat {:trigger Owns(t, x)} :: Owns(t, x) && x < |d| ==> d[x] == e[x]
  }

  lemma {:induction false} KidOwned(ds: seq<nat>, kids: seq<Kid>, i: nat, x: nat)
    requires i < |kids| && Owns(kids[i].tree, x)
    ensures Owns(Dir(ds, kids), x)
  {
  }

  lemma AgreeKid(d: seq<Sector>, e: seq<Sector>, ds: seq<nat>, kids: seq<Kid>, i: nat)
    requires Agree(d, e, Dir(ds, kids)) && i < |kids|
    ensures Agree(d, e, kids[i].tree)
  {
    forall x: nat {:trigger Owns(kids[i].tree, x)} | Owns(kids[i].tree, x) && x < |d|
      ensures d[x] == e[x]
    {
      KidOwned(ds, kids, i, x);
    }
  }

  lemma {:induction false} FileFrame(d: seq<Sector>, e: seq<Sector>, entry: DirEntry, t: Tree)
    requires t.File? && Rep(d, entry, t) && Agree(d, e, t)
    ensures Rep(e, entry, t)
  {
    forall x | x in t.ix && x < |d|
      ensures d[x] == e[x]
    {
      assert Owns(t, x);
    }
    ChainFrame(d, e, entry.link, t.ix);
  }

  lemma {:induction false} BlocksFrame(d: seq<Sector>, e: seq<Sector>, p: LinkPointer, ds: seq<nat>, kids: seq<Kid>)
    requires DirChain(d, p, ds) && Agree(d, e, Dir(ds, kids))
    ensures DirChain(e, p, ds) && EntriesAt(e, ds) == EntriesAt(d, ds)
  {
    forall x {:trigger d[x]} {:trigger e[x]} | x in ds && x < |d|
      ensures d[x] == e[x]
    {
      assert Owns(Dir(ds, kids), x);
    }
    DirFrame(d, e, p, ds);
  }

  lemma {:induction false} RepFrame(d: seq<Sector>, e: seq<Sector>, entry: DirEntry, t: Tree)
    requires Rep(d, entry, t) && Agree(d, e, t)
    ensures Rep(e, entry, t)
    decreases t
  {
    match t
    case File(_, _, _) => FileFrame(d, e, entry, t);
    case Dir(ds, kids) =>
      BlocksFrame(d, e, entry.link, ds, kids);
      forall i | 0 <= i < |kids|
        ensures Rep(e, kids[i].entry, kids[i].tree)
      {
        AgreeKid(d, e, ds, kids, i);
        RepFrame(d, e, kids[i].entry, kids[i].tree);
      }
  }

  // ----- Replacing a part of the tree -----

  /** `d` and `e` differ on sectors of `a` or `b` only. */
  ghost predicate Touched(d: seq<Sector>, e: seq<Sector>, a: Tree, b: Tree)
  {
    |d| == |e| && forall x: nat {:trigger d[x]} {:trigger e[x]} :: x < |d| && !Owns(a, x) && !Owns(b, x) ==> d[x] == e[x]
  }

  /** What `b` has and `a` had not does not belong to `t`. */
  ghost predicate Renewed(a: Tree, b: Tree, t: Tree)
  {
    forall x: nat {:trigger Owns(b, x)} :: Owns(b, x) ==> Owns(a, x) || !Owns(t, x)
  }

  /** The sectors of `u` are those of `t` with those of `a` exchanged for those of `b`. */
  ghost predicate Exchanged(t: Tree, u: Tree, a: Tree, b: Tree)
  {
    forall x: nat {:trigger Owns(u, x)} {:trigger Owns(t, x)} {:trigger Owns(b, x)} ::
      Owns(u, x) <==> (Owns(t, x) && !Owns(a, x)) || Owns(b, x)
  }

  lemma KidExchanged(ds: seq<nat>, kids: seq<Kid>, i: nat, k: Kid)
    requires i < |kids| && Separate(Dir(ds, kids))
    ensures Exchanged(Dir(ds, kids), Dir(ds, kids[i := k]), kids[i].tree, k.tree)
  {
    var t, next, b := Dir(ds, kids), kids[i := k], k.tree;
    var u, a := Dir(ds, next), kids[i].tree;
    forall x: nat {:trigger Owns(u, x)} {:trigger Owns(t, x)} {:trigger Owns(b, x)} | true
      ensures Owns(u, x) <==> (Owns(t, x) && !Owns(a, x)) || Owns(b, x)
    {
      if Owns(b, x) {
        assert next[i].tree == b;
      }
      if Owns(u, x) && x !in ds {
        var j :| 0 <= j < |next| && Owns(next[j].tree, x);
        assert j != i ==> Owns(kids[j].tree, x);
      }
      if Owns(t, x) && !Owns(a, x) && x !in ds {
        var j :| 0 <= j < |kids| && Owns(kids[j].tree, x);
        assert Owns(next[j].tree, x);
      }
    }
  }

  lemma KidSeparate(ds: seq<nat>, kids: seq<Kid>, i: nat, k: Kid)
    requires i < |kids| && Separate(Dir(ds, kids)) && Separate(k.tree) && Renewed(kids[i].tree, k.tree, Dir(ds, kids))
    ensures Separate(Dir(ds, kids[i := k]))
  {
    var t, next, b := Dir(ds, kids), kids[i := k], k.tree;
    forall j, x {:trigger Owns(next[j].tree, x)} | 0 <= j < |next| && Owns(next[j].tree, x)
      ensures x !in ds
    {
      assert j != i ==> Owns(kids[j].tree, x);
      assert x in ds ==> Owns(t, x);
    }
    forall j, k, x {:trigger Owns(next[j].tree, x), Owns(next[k].tree, x)} |
        0 <= j < |next| && 0 <= k < |next| && Owns(next[j].tree, x) && Owns(next[k].tree, x)
      ensures j == k
    {
      OneOwner(ds, kids, i, b, j, k, x);
    }
  }

  lemma OneOwner(ds: seq<nat>, kids: seq<Kid>, i: nat, b: Tree, j: nat, k: nat, x: nat)
    requires i < |kids| && j < |kids| && k < |kids| && Separate(Dir(ds, kids)) && Renewed(kids[i].tree, b, Dir(ds, kids))
    requires Owns(if j == i then b else kids[j].tree, x) && Owns(if k == i then b else kids[k].tree, x)
    ensures j == k
  {
    if j != i { KidOwned(ds, kids, j, x); }
    if k != i { KidOwned(ds, kids, k, x); }
  }

  lemma OthersAgree(d: seq<Sector>, e: seq<Sector>, ds: seq<nat>, kids: seq<Kid>, i: nat, b: Tree, j: nat)
    requires i < |kids| && j < |kids| && j != i && Separate(Dir(ds, kids))
    requires Touched(d, e, kids[i].tree, b) && Renewed(kids[i].tree, b, Dir(ds, kids))
    ensures Agree(d, e, kids[j].tree)
  {
    forall x: nat {:trigger Owns(kids[j].tree, x)} | Owns(kids[j].tree, x) && x < |d|
      ensures d[x] == e[x]
    {
      KidOwned(ds, kids, j, x);
      assert !Owns(kids[i].tree, x) && !Owns(b, x);
    }
  }

  lemma {:induction false} OwnBlocksAgree(d: seq<Sector>, e: seq<Sector>, p: LinkPointer, ds: seq<nat>, kids: seq<Kid>, i: nat, b: Tree)
    requires i < |kids| && Separate(Dir(ds, kids)) && DirChain(d, p, ds)
    requires Touched(d, e, kids[i].tree, b) && Renewed(kids[i].tree, b, Dir(ds, kids))
    ensures DirChain(e, p, ds) && EntriesAt(e, ds) == EntriesAt(d, ds)
  {
    forall x {:trigger d[x]} {:trigger e[x]} | x in ds && x < |d|
      ensures d[x] == e[x]
    {
      assert Owns(Dir(ds, kids), x);
      assert !Owns(kids[i].tree, x) && !Owns(b, x);
    }
    DirFrame(d, e, p, ds);
  }

  /** One child changes, and only its sectors and unowned ones are touched: the directory is otherwise as before. */
  lemma {:induction false} KidReplaced(d: seq<Sector>, e: seq<Sector>, entry: DirEntry, ds: seq<nat>, kids: seq<Kid>, i: nat, b: Tree)
    requires i < |kids| && Rep(d, entry, Dir(ds, kids)) && Separate(Dir(ds, kids))
    requires Rep(e, kids[i].entry, b) && Touched(d, e, kids[i].tree, b) && Renewed(kids[i].tree, b, Dir(ds, kids))
    ensures Rep(e, entry, Dir(ds, kids[i := Kid(kids[i].entry, b)]))
  {
    var next := kids[i := Kid(kids[i].entry, b)];
    OwnBlocksAgree(d, e, entry.link, ds, kids, i, b);
    assert Entries(next) == Entries(kids);
    forall j | 0 <= j < |next|
      ensures Rep(e, next[j].entry, next[j].tree)
    {
      if j != i {
        OthersAgree(d, e, ds, kids, i, b, j);
        RepFrame(d, e, kids[j].entry, kids[j].tree);
      }
    }
  }

  // ----- Paths -----

  /** A path of child indices that leads to a part of the tree. */
  predicate PathOk(t: Tree, path: seq<nat>)
    decreases |path|
  {
    path == [] || (t.Dir? && path[0] < |t.kids| && PathOk(t.kids[path[0]].tree, path[1..]))
  }

  function Sub(t: Tree, path: seq<nat>): Tree
    requires PathOk(t, path)
    decreases |path|
  {
    if path == [] then t else Sub(t.kids[path[0]].tree, path[1..])
  }

  function SubEntry(e: DirEntry, t: Tree, path: seq<nat>): DirEntry
    requires PathOk(t, path)
    decreases |path|
  {
    if path == [] then e else SubEntry(t.kids[path[0]].entry, t.kids[path[0]].tree, path[1..])
  }

  function Replace(t: Tree, path: seq<nat>, b: Tree): Tree
    requires PathOk(t, path)
    decreases |path|
  {
    if path == [] then b
    else var k := t.kids[path[0]]; Dir(t.ds, t.kids[path[0] := Kid(k.entry, Replace(k.tree, path[1..], b))])
  }

  lemma {:induction false} SubOwned(t: Tree, path: seq<nat>, x: nat)
    requires PathOk(t, path) && Owns(Sub(t, path), x)
    ensures Owns(t, x)
    decreases |path|
  {
    if path != [] {
      SubOwned(t.kids[path[0]].tree, path[1..], x);
      KidOwned(t.ds, t.kids, path[0], x);
    }
  }

  lemma {:induction false} SubRep(d: seq<Sector>, e: DirEntry, t: Tree, path: seq<nat>)
    requires PathOk(t, path) && Rep(d, e, t) && Separate(t)
    ensures Rep(d, SubEntry(e, t, path), Sub(t, path)) && Separate(Sub(t, path))
    decreases |path|
  {
    if path != [] {
      SubRep(d, t.kids[path[0]].entry, t.kids[path[0]].tree, path[1..]);
    }
  }

  lemma RenewedKid(a: Tree, b: Tree, ds: seq<nat>, kids: seq<Kid>, i: nat)
    requires i < |kids| && Renewed(a, b, Dir(ds, kids))
    ensures Renewed(a, b, kids[i].tree)
  {
    forall x: nat {:trigger Owns(b, x)} | Owns(b, x) && Owns(kids[i].tree, x)
      ensures Owns(a, x)
    {
      KidOwned(ds, kids, i, x);
    }
  }

  /** The step up: what was exchanged deep down is exchanged for the child on the way. */
  lemma {:induction false} RenewedUp(a: Tree, b: Tree, k: Tree, l: Tree, t: Tree)
    requires Exchanged(k, l, a, b) && Renewed(a, b, t)
    requires forall x: nat {:trigger Owns(a, x)} :: Owns(a, x) ==> Owns(k, x)
    ensures Renewed(k, l, t)
  {
  }

  lemma {:induction false} TouchedUp(d: seq<Sector>, e: seq<Sector>, a: Tree, b: Tree, k: Tree, l: Tree)
    requires Touched(d, e, a, b) && Exchanged(k, l, a, b)
    requires forall x: nat {:trigger Owns(a, x)} :: Owns(a, x) ==> Owns(k, x)
    ensures Touched(d, e, k, l)
  {
  }

  lemma {:induction false} ExchangedUp(a: Tree, b: Tree, k: Tree, l: Tree, t: Tree, u: Tree)
    requires Exchanged(k, l, a, b) && Exchanged(t, u, k, l)
    requires forall x: nat {:trigger Owns(a, x)} :: Owns(a, x) ==> Owns(k, x)
    requires forall x: nat {:trigger Owns(k, x)} :: Owns(k, x) ==> Owns(t, x)
    ensures Exchanged(t, u, a, b)
  {
  }

  /** Replacing the part at `path`: the whole stays held by the disk and separate, and its sectors change as the part's do. */
  lemma {:induction false} ReplaceOk(d: seq<Sector>, e: seq<Sector>, entry: DirEntry, t: Tree, path: seq<nat>, b: Tree)
    requires PathOk(t, path) && Rep(d, entry, t) && Separate(t)
    requires Rep(e, SubEntry(entry, t, path), b) && Separate(b)
    requires Touched(d, e, Sub(t, path), b) && Renewed(Sub(t, path), b, t)
    ensures Rep(e, entry, Replace(t, path, b)) && Separate(Replace(t, path, b))
    ensures Exchanged(t, Replace(t, path, b), Sub(t, path), b)
    decreases |path|
  {
    if path != [] {
      var i, rest := path[0], path[1..];
      var k, a := t.kids[i], Sub(t, path);
      RenewedKid(a, b, t.ds, t.kids, i);
      ReplaceOk(d, e, k.entry, k.tree, rest, b);
      var l := Replace(k.tree, rest, b);
      forall x: nat {:trigger Owns(a, x)} | Owns(a, x)
        ensures Owns(k.tree, x)
      {
        SubOwned(k.tree, rest, x);
      }
      forall x: nat {:trigger Owns(k.tree, x)} | Owns(k.tree, x)
        ensures Owns(t, x)
      {
        KidOwned(t.ds, t.kids, i, x);
      }
      RenewedUp(a, b, k.tree, l, t);
      TouchedUp(d, e, a, b, k.tree, l);
      KidReplaced(d, e, entry, t.ds, t.kids, i, l);
      KidSeparate(t.ds, t.kids, i, Kid(k.entry, l));
      KidExchanged(t.ds, t.kids, i, Kid(k.entry, l));
      ExchangedUp(a, b, k.tree, l, t, Replace(t, path, b));
    }
  }

  // ----- The volume as a whole -----

  /** In `[lo, hi)` exactly the sectors of the tree are marked used; the root's first block is `hi` itself. */
  ghost predicate Marked(t: Tree, used: set<nat>, lo: nat, hi: nat)
  {
    forall x: nat {:trigger Owns(t, x)} {:trigger x in used} ::
      (Owns(t, x) ==> lo <= x <= hi) && (lo <= x < hi ==> (x in used <==> Owns(t, x)))
  }

  /** A volume: the disk holds the tree, nothing is shared, and the bitmap marks what belongs to it. */
  ghost predicate Sound(d: seq<Sector>, used: set<nat>, lo: nat, hi: nat, root: DirEntry, t: Tree)
  {
    Rep(d, root, t) && Separate(t) && Marked(t, used, lo, hi) && DirectoryEntry(root) && root.link.start == hi
  }

  /** An operation turned `a` into `b`: it touched only their sectors, took only free ones, and marked what `b` has. */
  ghost predicate Local(d: seq<Sector>, used: set<nat>, e: seq<Sector>, after: set<nat>, lo: nat, hi: nat, a: Tree, b: Tree)
  {
    Touched(d, e, a, b)
    && (forall x: nat {:trigger Owns(b, x)} :: Owns(b, x) ==> Owns(a, x) || (lo <= x < hi && x !in used))
    && (forall x: nat {:trigger x in after} {:trigger x in used} ::
          lo <= x < hi ==> (x in after <==> (x in used && !Owns(a, x)) || Owns(b, x)))
  }

  lemma LocalRenewed(d: seq<Sector>, used: set<nat>, e: seq<Sector>, after: set<nat>, lo: nat, hi: nat, a: Tree, b: Tree, t: Tree)
    requires Local(d, used, e, after, lo, hi, a, b) && Marked(t, used, lo, hi)
    ensures Renewed(a, b, t)
  {
  }

  lemma {:induction false} MarkedAfter(d: seq<Sector>, used: set<nat>, e: seq<Sector>, after: set<nat>, lo: nat, hi: nat, a: Tree, b: Tree, t: Tree, u: Tree)
    requires Local(d, used, e, after, lo, hi, a, b) && Marked(t, used, lo, hi) && Exchanged(t, u, a, b)
    requires forall x: nat {:trigger Owns(a, x)} :: Owns(a, x) ==> Owns(t, x)
    ensures Marked(u, after, lo, hi)
  {
  }

  /** A local change of one part leaves the volume sound. */
  lemma {:induction false} Lifted(d: seq<Sector>, used: set<nat>, e: seq<Sector>, after: set<nat>, lo: nat, hi: nat,
               root: DirEntry, t: Tree, path: seq<nat>, b: Tree)
    requires Sound(d, used, lo, hi, root, t) && PathOk(t, path)
    requires Local(d, used, e, after, lo, hi, Sub(t, path), b) && Rep(e, SubEntry(root, t, path), b) && Separate(b)
    ensures Sound(e, after, lo, hi, root, Replace(t, path, b))
  {
    var a := Sub(t, path);
    LocalRenewed(d, used, e, after, lo, hi, a, b, t);
    ReplaceOk(d, e, root, t, path, b);
    forall x: nat {:trigger Owns(a, x)} | Owns(a, x)
      ensures Owns(t, x)
    {
      SubOwned(t, path, x);
    }
    MarkedAfter(d, used, e, after, lo, hi, a, b, t, Replace(t, path, b));
  }

  // ----- What loading finds -----

  lemma {:induction false} RepLoadable(d: seq<Sector>, kids: seq<Kid>)
    requires forall i :: 0 <= i < |kids| ==> Rep(d, kids[i].entry, kids[i].tree)
    ensures Loadable(d, Entries(kids)) && ToDentries(LoadedAll(d, Entries(kids))) == Entries(kids)
  {
    var es := Entries(kids);
    forall i {:trigger es[i]} | 0 <= i < |es|
      ensures PlainFlags(es[i]) && (IsFile(es[i]) ==> Resolvable(d, es[i].link))
    {
      KidLoadable(d, kids[i]);
    }
    LoadedDentries(d, es);
  }

  lemma {:induction false} KidLoadable(d: seq<Sector>, k: Kid)
    requires Rep(d, k.entry, k.tree)
    ensures PlainFlags(k.entry) && (IsFile(k.entry) <==> k.tree.File?)
    ensures IsFile(k.entry) ==> Resolvable(d, k.entry.link)
  {
    if k.tree.File? {
      assert LinkChain(d, k.entry.link, k.tree.ix);
    }
  }
}
