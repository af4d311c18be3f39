/** From a change of a directory's children to the change of the directory: the effect of `Directory::sync` on the tree. */
module FsSync {
  import opened Basics
  import opened Codec
  import opened Directory
  import opened Disk
  import opened FileChain
  import opened FsCodec
  import opened FsTree
  import opened SectorView
  import opened Volume

  ghost predicate KidsHeld(d: seq<Sector>, kids: seq<Kid>)
  {
    forall i :: 0 <= i < |kids| ==> Rep(d, kids[i].entry, kids[i].tree)
  }

  ghost predicate KidsInData(kids: seq<Kid>, lo: nat, hi: nat)
  {
    forall i, x: nat {:trigger Owns(kids[i].tree, x)} :: 0 <= i < |kids| && Owns(kids[i].tree, x) ==> lo <= x < hi
  }

  /** Two local changes in a row make one, if what the first one took is given up only by giving up the part. */
  lemma {:induction false} LocalTrans(d: seq<Sector>, used: set<nat>, e: seq<Sector>, mid: set<nat>, f: seq<Sector>, after: set<nat>,
                   lo: nat, hi: nat, a: Tree, m: Tree, b: Tree)
    requires Local(d, used, e, mid, lo, hi, a, m) && Local(e, mid, f, after, lo, hi, m, b)
    requires forall x: nat {:trigger Owns(m, x)} :: Owns(m, x) ==> Owns(a, x) || Owns(b, x)
    ensures Local(d, used, f, after, lo, hi, a, b)
  {
  }

  /** The children's sectors are marked and apart from the chain `sync` writes. */
  lemma ChainApart(ds: seq<nat>, kids: seq<Kid>, used: set<nat>, chain: seq<nat>, after: set<nat>, k: nat, lo: nat, hi: nat)
    requires Separate(Dir(ds, kids)) && KidsInData(kids, lo, hi) && Resized(ds, used, chain, after, k, lo, hi)
    requires forall i, x: nat {:trigger Owns(kids[i].tree, x)} :: 0 <= i < |kids| && Owns(kids[i].tree, x) ==> x in used
    ensures forall i, x: nat {:trigger Owns(kids[i].tree, x)} :: 0 <= i < |kids| && Owns(kids[i].tree, x) ==> x !in chain
  {
    ResizedFrom(ds, used, chain, after, k, lo, hi);
  }

  lemma SeparateAfter(ds: seq<nat>, kids: seq<Kid>, chain: seq<nat>)
    requires Separate(Dir(ds, kids)) && Distinct(chain)
    requires forall i, x: nat {:trigger Owns(kids[i].tree, x)} :: 0 <= i < |kids| && Owns(kids[i].tree, x) ==> x !in chain
    ensures Separate(Dir(chain, kids))
  {
  }

  lemma KidsHeldAfter(d: seq<Sector>, e: seq<Sector>, kids: seq<Kid>, chain: seq<nat>)
    requires KidsHeld(d, kids) && SameOutside(d, e, chain)
    requires forall i, x: nat {:trigger Owns(kids[i].tree, x)} :: 0 <= i < |kids| && Owns(kids[i].tree, x) ==> x !in chain
    ensures KidsHeld(e, kids)
  {
    forall i | 0 <= i < |kids|
      ensures Rep(e, kids[i].entry, kids[i].tree)
    {
      assert Agree(d, e, kids[i].tree);
      RepFrame(d, e, kids[i].entry, kids[i].tree);
    }
  }

  lemma SameOutsideTouched(d: seq<Sector>, e: seq<Sector>, m: Tree, chain: seq<nat>, kids: seq<Kid>)
    requires SameOutside(d, e, chain)
    ensures Touched(d, e, m, Dir(chain, kids))
  {
    var b := Dir(chain, kids);
    forall x: nat {:trigger d[x]} {:trigger e[x]} | x < |d| && !Owns(m, x) && !Owns(b, x)
      ensures d[x] == e[x]
    {
      assert x !in chain;
    }
  }

  lemma {:induction false} ResizedLocal(ds: seq<nat>, kids: seq<Kid>, used: set<nat>, chain: seq<nat>, after: set<nat>, k: nat, lo: nat, hi: nat, x: nat)
    requires Resized(ds, used, chain, after, k, lo, hi) && Separate(Dir(ds, kids)) && Held(ds, used, lo, hi)
    ensures x in chain ==> x in ds || (lo <= x < hi && x !in used)
    ensures lo <= x < hi && !(exists i :: 0 <= i < |kids| && Owns(kids[i].tree, x)) ==>
      (x in after <==> (x in used && x !in ds) || x in chain)
    ensures (exists i :: 0 <= i < |kids| && Owns(kids[i].tree, x)) ==> (x in after <==> x in used || x in chain)
  {
    if |ds| >= k {
      assert ds == ds[..k] + ds[k..];
      if x in ds {
        var i :| 0 <= i < |ds| && ds[i] == x;
        assert i < k ==> x !in ds[k..];
      }
    } else {
      var added := chain[|ds|..];
      assert chain == ds + added;
    }
  }

  ghost predicate KidsUsed(kids: seq<Kid>, used: set<nat>)
  {
    forall i, x: nat {:trigger Owns(kids[i].tree, x)} :: 0 <= i < |kids| && Owns(kids[i].tree, x) ==> x in used
  }

  /** `sync` is itself a local change: from the old chain to the new one, with the same children. */
  lemma SyncLocal(d: seq<Sector>, used: set<nat>, e: seq<Sector>, after: set<nat>, lo: nat, hi: nat,
                  ds: seq<nat>, kids: seq<Kid>, chain: seq<nat>, k: nat)
    requires Separate(Dir(ds, kids)) && Held(ds, used, lo, hi) && KidsUsed(kids, used)
    requires Resized(ds, used, chain, after, k, lo, hi) && SameOutside(d, e, chain)
    ensures Local(d, used, e, after, lo, hi, Dir(ds, kids), Dir(chain, kids))
  {
    var m, b := Dir(ds, kids), Dir(chain, kids);
    SameOutsideTouched(d, e, m, chain, kids);
    forall x: nat {:trigger Owns(b, x)} | Owns(b, x)
      ensures Owns(m, x) || (lo <= x < hi && x !in used)
    {
      ResizedLocal(ds, kids, used, chain, after, k, lo, hi, x);
    }
    forall x: nat {:trigger x in after} {:trigger x in used} | lo <= x < hi
      ensures x in after <==> (x in used && !Owns(m, x)) || Owns(b, x)
    {
      ResizedLocal(ds, kids, used, chain, after, k, lo, hi, x);
    }
  }

  /** The directory's blocks list its children. */
  ghost predicate Listed(d: seq<Sector>, head: LinkPointer, b: Tree)
  {
    b.Dir? && DirChain(d, head, b.ds) && EntriesAt(d, b.ds) == Entries(b.kids)
  }

  /** A chain that need not grow keeps its first `k` blocks. */
  ghost predicate Shortened(ds: seq<nat>, chain: seq<nat>, k: nat)
  {
    |ds| >= k ==> chain == ds[..k]
  }

  /** What a directory's new children must satisfy before the directory is written. */
  ghost predicate Prepared(d: seq<Sector>, used: set<nat>, lo: nat, hi: nat, head: LinkPointer, ds: seq<nat>, kids: seq<Kid>)
  {
    Separate(Dir(ds, kids)) && KidsInData(kids, lo, hi) && AllNamed(Entries(kids)) && EntriesFit(Entries(kids))
    && ds != [] && DirChain(d, head, ds) && Held(ds, used, lo, hi) && LinkFits(head)
  }

  lemma KidsMarked(d: seq<Sector>, used: set<nat>, e: seq<Sector>, after: set<nat>, lo: nat, hi: nat, a: Tree, ds: seq<nat>, kids: seq<Kid>)
    requires Local(d, used, e, after, lo, hi, a, Dir(ds, kids)) && KidsInData(kids, lo, hi)
    ensures KidsUsed(kids, after)
  {
    forall i, x: nat {:trigger Owns(kids[i].tree, x)} | 0 <= i < |kids| && Owns(kids[i].tree, x)
      ensures x in after
    {
      KidOwned(ds, kids, i, x);
    }
  }

  lemma KidsFit(d: seq<Sector>, kids: seq<Kid>)
    requires KidsHeld(d, kids)
    ensures EntriesFit(Entries(kids))
  {
    forall i | 0 <= i < |kids|
      ensures LinkFits(Entries(kids)[i].link)
    {
      assert Rep(d, kids[i].entry, kids[i].tree);
    }
  }

  /** The synced directory is separate and a local change of what it was, and held by the disk if its children are. */
  lemma {:induction false} SyncedOk(d: seq<Sector>, used: set<nat>, e: seq<Sector>, mid: set<nat>, f: seq<Sector>, after: set<nat>, lo: nat, hi: nat,
                 entry: DirEntry, a: Tree, ds: seq<nat>, kids: seq<Kid>, chain: seq<nat>, k: nat)
    requires a.Dir? && a.ds == ds && Local(d, used, e, mid, lo, hi, a, Dir(ds, kids)) && DirectoryEntry(entry)
    requires Prepared(e, mid, lo, hi, entry.link, ds, kids) && 0 < lo <= hi && k > 0
    requires Resized(ds, mid, chain, after, k, lo, hi) && SameOutside(e, f, chain)
    requires DirChain(f, entry.link, chain) && EntriesAt(f, chain) == Entries(kids)
    ensures Separate(Dir(chain, kids)) && (KidsHeld(e, kids) ==> Rep(f, entry, Dir(chain, kids)))
    ensures Local(d, used, f, after, lo, hi, a, Dir(chain, kids))
  {
    KidsMarked(d, used, e, mid, lo, hi, a, ds, kids);
    ChainApart(ds, kids, mid, chain, after, k, lo, hi);
    ResizedDistinct(ds, mid, chain, after, k, lo, hi);
    SeparateAfter(ds, kids, chain);
    if KidsHeld(e, kids) { KidsHeldAfter(e, f, kids, chain); }
    SyncLocal(e, mid, f, after, lo, hi, ds, kids, chain, k);
    LocalTrans(d, used, e, mid, f, after, lo, hi, a, Dir(ds, kids), Dir(chain, kids));
  }

  /** Write a directory whose children have changed. */
  method SyncDir(v: Volume, head: LinkPointer, parent: nat, children: seq<Node>,
                 ghost d: seq<Sector>, ghost used: set<nat>, ghost entry: DirEntry, ghost a: Tree, ghost kids: seq<Kid>)
      returns (r: FsResult<()>, ghost b: Tree)
    requires v.Valid() && U64(parent) && head == entry.link && DirectoryEntry(entry) && ToDentries(children) == Entries(kids)
    requires a.Dir? && Local(d, used, v.D(), v.U(), v.Lo(), v.dataEnd, a, Dir(a.ds, kids))
    requires Prepared(v.D(), v.U(), v.Lo(), v.dataEnd, head, a.ds, kids)
    modifies v.disk, v.bitmap
    ensures v.Valid()
    ensures r.Failure? ==> v.Exhausted() && BlocksNeeded(|kids|) > |a.ds| && v.D() == old(v.D()) && old(v.U()) <= v.U()
    ensures var extra := Extra(BlocksNeeded(|kids|), |a.ds|);
      old(v.Room()) >= extra ==> r.Success? && v.Room() >= old(v.Room()) - extra
    ensures r.Success? ==> b.Dir? && b.kids == kids && Separate(b) && Listed(v.D(), head, b)
    ensures r.Success? && KidsHeld(old(v.D()), kids) ==> Rep(v.D(), entry, b)
    ensures r.Success? ==> SameOutside(old(v.D()), v.D(), b.ds) && Shortened(a.ds, b.ds, BlocksNeeded(|kids|))
    ensures r.Success? ==> Local(d, used, v.D(), v.U(), v.Lo(), v.dataEnd, a, b)
  {
    ghost var e, mid, chain := v.D(), v.U(), [];
    r, chain := Sync(v, head, parent, children, a.ds);
    b := Dir(chain, kids);
    if r.Success? {
      SyncedOk(d, used, e, mid, v.D(), v.U(), v.Lo(), v.dataEnd, entry, a, a.ds, kids, chain, BlocksNeeded(|children|));
    }
  }
}
