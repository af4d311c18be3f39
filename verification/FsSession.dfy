/** Runs of operations, and what is known of the files afterwards. */
module FsSession {
  import opened Basics
  import opened Bits
  import opened Directory
  import opened Disk
  import opened FileChain
  import opened FsChange
  import opened FsCodec
  import FsDelete
  import opened FsMount
  import opened FsPaths
  import opened FsRead
  import opened FsTree
  import opened FsWrite
  import opened LemonFs
  import opened SectorView
  import opened Volume
  import Superblock

  /** What was last written where. */
  type Known = map<seq<Name>, seq<Sector>>

  /** Each of these paths leads to a file that holds what was written. */
  ghost predicate Knows(d: seq<Sector>, t: Tree, known: Known)
  {
    forall path {:trigger path in known} :: path in known ==>
      Lookup(t, path).Some? && WrittenAs(d, Lookup(t, path).value, known[path])
  }

  lemma WrittenFrame(d: seq<Sector>, e: seq<Sector>, f: Tree, src: seq<Sector>)
    requires WrittenAs(d, f, src) && Agree(d, e, f)
    ensures WrittenAs(e, f, src)
  {
    forall k {:trigger f.data[k]} | 0 <= k < |src|
      ensures f.data[k] < |e| && e[f.data[k]] == src[k]
    {
      assert Owns(f, f.data[k]);
    }
  }

  /** After a write that ran out of space, every other file holds what it held. */
  lemma {:induction false} KnownAfterSpoil(d: seq<Sector>, used: set<nat>, e: seq<Sector>, after: set<nat>, t: Tree, path: seq<Name>, k: Kid, known: Known)
    requires Separate(t) && LeadsTo(t, path, k.tree) && Spoiled(d, used, e, after, k) && Knows(d, t, known)
    ensures Knows(e, t, known - {path}) && (k.tree.ix == [] ==> Knows(e, t, known))
  {
    forall other {:trigger other in known} | other in known && other != path
      ensures WrittenAs(e, Lookup(t, other).value, known[other])
    {
      var f := Lookup(t, other).value;
      forall x: nat {:trigger Owns(f, x)} | Owns(f, x) && x < |d|
        ensures d[x] == e[x]
      {
        PathsApart(t, other, f, path, k.tree, x);
      }
      WrittenFrame(d, e, f, known[other]);
    }
  }

  /** Deleting a path forgets it and everything below it. */
  function Forget(known: Known, path: seq<Name>): Known
  {
    map other | other in known && !(path <= other) :: known[other]
  }

  // ----- What one operation does to what is known -----

  lemma {:induction false} KnownAfterCreate(d: seq<Sector>, e: seq<Sector>, t: Tree, comps: seq<Name>, p: seq<nat>, b: Tree, kid: Kid, known: Known)
    requires t.Dir? && Walk(t, comps) == Success(p) && b.Dir? && b.kids == Sub(t, p).kids + [kid]
    requires Separate(t) && Separate(b) && Separate(Replace(t, p, b))
    requires Touched(d, e, Sub(t, p), b) && SameOutside(d, e, b.ds) && Knows(d, t, known)
    ensures Knows(e, Replace(t, p, b), known)
  {
    forall path {:trigger path in known} | path in known
      ensures Lookup(Replace(t, p, b), path).Some? && WrittenAs(e, Lookup(Replace(t, p, b), path).value, known[path])
    {
      var f := Lookup(t, path).value;
      CreateKeeps(d, e, t, comps, p, b, kid, path, f);
      WrittenFrame(d, e, f, known[path]);
    }
  }

  lemma {:induction false} KnownAfterWrite(d: seq<Sector>, e: seq<Sector>, t: Tree, comps: seq<Name>, p: seq<nat>, b: Tree, i: nat, name: Name, src: seq<Sector>, known: Known)
    requires t.Dir? && Walk(t, comps) == Success(p) && FileChanged(Sub(t, p), b, i) && Find(Entries(Sub(t, p).kids), name, 0) == Some(i)
    requires Separate(t) && Separate(Sub(t, p)) && Separate(b) && Separate(Replace(t, p, b))
    requires Touched(d, e, Sub(t, p), b) && OnlyTouched(d, e, b.ds, Sub(t, p).kids[i].tree, b.kids[i].tree)
    requires Knows(d, t, known) && WrittenAs(e, b.kids[i].tree, src)
    ensures Knows(e, Replace(t, p, b), known[ChildPath(comps, name) := src])
  {
    var now, u := known[ChildPath(comps, name) := src], Replace(t, p, b);
    forall path {:trigger path in now} | path in now
      ensures Lookup(u, path).Some? && WrittenAs(e, Lookup(u, path).value, now[path])
    {
      if path == ChildPath(comps, name) {
        WrittenThere(t, comps, p, b, i, name);
      } else {
        var f := Lookup(t, path).value;
        WriteKeeps(d, e, t, comps, p, b, i, name, path, f);
        WrittenFrame(d, e, f, known[path]);
      }
    }
  }

  /** The path of the file that was written leads to its new content. */
  lemma {:induction false} WrittenThere(t: Tree, comps: seq<Name>, p: seq<nat>, b: Tree, i: nat, name: Name)
    requires t.Dir? && Walk(t, comps) == Success(p) && FileChanged(Sub(t, p), b, i) && Find(Entries(Sub(t, p).kids), name, 0) == Some(i)
    ensures Replace(t, p, b).Dir? && Lookup(Replace(t, p, b), ChildPath(comps, name)) == Some(b.kids[i].tree)
  {
    var path := ChildPath(comps, name);
    WalkSame(t, comps, p, b);
    ReplacedSub(t, p, b);
    FindSame(Entries(Sub(t, p).kids), Entries(b.kids), name, 0);
    assert path[..|path| - 1] == comps;
    LookupLocated(Replace(t, p, b), path);
  }

  lemma {:induction false} KnownAfterDelete(d: seq<Sector>, e: seq<Sector>, t: Tree, comps: seq<Name>, p: seq<nat>, b: Tree, i: nat, name: Name, known: Known)
    requires t.Dir? && Walk(t, comps) == Success(p) && b.Dir? && Find(Entries(Sub(t, p).kids), name, 0) == Some(i)
    requires b.kids == SwapRemove(Sub(t, p).kids, i) && Unique(t)
    requires Separate(t) && Separate(Sub(t, p)) && Separate(b) && Separate(Replace(t, p, b))
    requires Touched(d, e, Sub(t, p), b) && OnlyTouched(d, e, b.ds, Sub(t, p).kids[i].tree, NoTree()) && Knows(d, t, known)
    ensures Knows(e, Replace(t, p, b), Forget(known, ChildPath(comps, name)))
  {
    var now := Forget(known, ChildPath(comps, name));
    forall path {:trigger path in now} | path in now
      ensures Lookup(Replace(t, p, b), path).Some? && WrittenAs(e, Lookup(Replace(t, p, b), path).value, now[path])
    {
      var f := Lookup(t, path).value;
      DeleteKeeps(d, e, t, comps, p, b, i, name, path, f);
      WrittenFrame(d, e, f, known[path]);
    }
  }

  // ----- Runs -----

  /** A request to the file system. */
  datatype Op =
    | CreateFile(path: seq<Name>)
    | CreateDirectory(path: seq<Name>)
    | DeletePath(path: seq<Name>)
    | WriteFile(path: seq<Name>, src: seq<Sector>)

  predicate Admissible(op: Op)
  {
    match op
    case CreateFile(path) => path != [] ==> Storable(path[|path| - 1])
    case CreateDirectory(path) => path != [] ==> Storable(path[|path| - 1])
    case DeletePath(path) => true
    case WriteFile(path, src) => 0 < |src| < MAX_SECTORS_U64 && Sized(src)
  }

  /** What a request that was granted, refused or not made at all does to what is known. */
  function Effect(known: Known, op: Op, r: Option<FsResult<()>>): Known
  {
    if r.None? || r.value.Failure? then known
    else match op
      case CreateFile(_) => known
      case CreateDirectory(_) => known
      case DeletePath(path) => Forget(known, path)
      case WriteFile(path, src) => known[path := src]
  }

  /** What is still known after a request that ran out of space. */
  function Unsure(known: Known, op: Op): Known
  {
    if op.WriteFile? then known - {op.path} else known
  }

  function Effects(known: Known, ops: seq<Op>, rs: seq<Option<FsResult<()>>>): Known
    requires |rs| <= |ops|
    decreases |rs|
  {
    if rs == [] then known
    else Effect(Effects(known, ops, rs[..|rs| - 1]), ops[|rs| - 1], rs[|rs| - 1])
  }

  /** The sector that would be taken next reads as an empty directory block, or there is none. */
  ghost predicate Ready(v: Volume)
    reads v.disk, v.bitmap
  {
    v.Exhausted() || (v.Pick() < |v.D()| && EmptyBlock(v.D()[v.Pick()]))
  }

  method IsReady(v: Volume) returns (ready: bool)
    requires v.Valid()
    ensures ready == Ready(v)
  {
    var next := v.Peek();
    if next.None? { return true; }
    var s := v.Read(next.value);
    ready := EmptyBlock(s);
  }

  /** The volume is sound, names are apart, and the files hold what is known of them. */
  ghost predicate Stands(fs: LemonFs, known: Known)
    reads fs, fs.v.disk, fs.v.bitmap
  {
    fs.Valid() && Unique(fs.tree) && Knows(fs.v.D(), fs.tree, known)
  }

  /** The facts about a changed directory that the lemmas above need. */
  lemma {:induction false} Parts(d: seq<Sector>, used: set<nat>, e: seq<Sector>, after: set<nat>, lo: nat, hi: nat, root: DirEntry, t: Tree, p: seq<nat>, b: Tree)
    requires PathOk(t, p) && Sound(d, used, lo, hi, root, t) && Sound(e, after, lo, hi, root, Replace(t, p, b))
    ensures Separate(t) && Separate(Sub(t, p)) && Separate(b) && Separate(Replace(t, p, b))
  {
    SubRep(d, root, t, p);
    ReplacedSub(t, p, b);
    SubRep(e, root, Replace(t, p, b), p);
  }

  lemma {:induction false} LocatedAs(t: Tree, path: seq<Name>, p: seq<nat>, found: Option<nat>)
    requires t.Dir? && Locate(t, path) == Success((p, found))
    ensures path != [] && Walk(t, path[..|path| - 1]) == Success(p) && ChildPath(path[..|path| - 1], path[|path| - 1]) == path
    ensures Find(Entries(Sub(t, p).kids), path[|path| - 1], 0) == found
  {
  }

  lemma FlagOf(flags: nat)
    requires flags < 2
    ensures HasDir(flags % 256) <==> flags == 1
  {
  }

  lemma {:induction false} CreateStands(d: seq<Sector>, used: set<nat>, e: seq<Sector>, after: set<nat>, lo: nat, hi: nat, root: DirEntry,
                     t: Tree, path: seq<Name>, p: seq<nat>, b: Tree, isDir: bool, lba: nat, known: Known)
    requires t.Dir? && Locate(t, path) == Success((p, None)) && b.Dir? && Storable(path[|path| - 1])
    requires b.kids == Sub(t, p).kids + [NewKid(path[|path| - 1], isDir, lba)]
    requires Sound(d, used, lo, hi, root, t) && Sound(e, after, lo, hi, root, Replace(t, p, b))
    requires Touched(d, e, Sub(t, p), b) && SameOutside(d, e, b.ds) && Unique(t) && Knows(d, t, known)
    ensures Unique(Replace(t, p, b)) && Knows(e, Replace(t, p, b), known)
  {
    Parts(d, used, e, after, lo, hi, root, t, p, b);
    LocatedAs(t, path, p, None);
    KnownAfterCreate(d, e, t, path[..|path| - 1], p, b, NewKid(path[|path| - 1], isDir, lba), known);
    UniqueSub(t, p);
    UniqueAdded(Sub(t, p), b, path[|path| - 1], isDir, lba);
    UniqueReplace(t, p, b);
  }

  method DoCreate(fs: LemonFs, path: seq<Name>, isDir: bool, ghost known: Known) returns (r: FsResult<()>)
    requires Stands(fs, known) && (path != [] ==> Storable(path[|path| - 1])) && (isDir ==> Ready(fs.v))
    modifies fs, fs.v.disk, fs.v.bitmap
    ensures if r == Failure(NoSpace) then fs.v.Exhausted() && Knows(fs.v.D(), fs.tree, known) else Stands(fs, known)
  {
    ghost var d, used, t := fs.v.D(), fs.v.U(), fs.tree;
    ghost var p, b, lba;
    var flags := if isDir then 1 else 0;
    FlagOf(flags);
    r, p, b, lba := fs.Create(path, flags);
    if r.Success? {
      assert isDir ==> EmptyBlock(d[lba]);
      CreateStands(d, used, fs.v.D(), fs.v.U(), fs.v.Lo(), fs.v.dataEnd, fs.RootEntry(), t, path, p, b, isDir, lba, known);
    }
  }

  method DoDelete(fs: LemonFs, path: seq<Name>, ghost known: Known) returns (r: FsResult<()>)
    requires Stands(fs, known)
    modifies fs, fs.v.disk, fs.v.bitmap
    ensures r != Failure(NoSpace) && Stands(fs, if r.Success? then Forget(known, path) else known)
  {
    ghost var d, used, t := fs.v.D(), fs.v.U(), fs.tree;
    ghost var p, i, b;
    r, p, i, b := fs.Delete(path);
    if r.Success? {
      Parts(d, used, fs.v.D(), fs.v.U(), fs.v.Lo(), fs.v.dataEnd, fs.RootEntry(), t, p, b);
      LocatedAs(t, path, p, Some(i));
      KnownAfterDelete(d, fs.v.D(), t, path[..|path| - 1], p, b, i, path[|path| - 1], known);
      UniqueSub(t, p);
      UniqueRemoved(Sub(t, p), b, i);
      UniqueReplace(t, p, b);
    }
  }

  method DoWrite(fs: LemonFs, path: seq<Name>, src: seq<Sector>, ghost known: Known) returns (r: FsResult<()>)
    requires Stands(fs, known) && 0 < |src| < MAX_SECTORS_U64 && Sized(src)
    modifies fs, fs.v.disk, fs.v.bitmap
    ensures if r == Failure(NoSpace) then fs.v.Exhausted() && Knows(fs.v.D(), fs.tree, known - {path})
            else Stands(fs, if r.Success? then known[path := src] else known)
  {
    ghost var d, used, t := fs.v.D(), fs.v.U(), fs.tree;
    ghost var p, i, b;
    r, p, i, b := fs.Write(path, src);
    if r.Success? {
      Parts(d, used, fs.v.D(), fs.v.U(), fs.v.Lo(), fs.v.dataEnd, fs.RootEntry(), t, p, b);
      LocatedAs(t, path, p, Some(i));
      KnownAfterWrite(d, fs.v.D(), t, path[..|path| - 1], p, b, i, path[|path| - 1], src, known);
      UniqueSub(t, p);
      UniqueChanged(Sub(t, p), b, i);
      UniqueReplace(t, p, b);
    } else if r.error == NoSpace {
      LookupLocated(t, path);
      KnownAfterSpoil(d, used, fs.v.D(), fs.v.U(), t, path, Sub(t, p).kids[i], known);
    }
  }

  /** One request. */
  method Do(fs: LemonFs, op: Op, ghost known: Known) returns (r: FsResult<()>)
    requires Stands(fs, known) && Admissible(op) && (op.CreateDirectory? ==> Ready(fs.v))
    modifies fs, fs.v.disk, fs.v.bitmap
    ensures if r == Failure(NoSpace) then fs.v.Exhausted() && Knows(fs.v.D(), fs.tree, Unsure(known, op))
            else Stands(fs, Effect(known, op, Some(r)))
  {
    match op
    case CreateFile(path) => r := DoCreate(fs, path, false, known);
    case CreateDirectory(path) => r := DoCreate(fs, path, true, known);
    case DeletePath(path) => r := DoDelete(fs, path, known);
    case WriteFile(path, src) => r := DoWrite(fs, path, src, known);
  }

  /**
   * Any run of requests keeps the volume sound and the cached root in step with the disk, and every file holds what was
   * last written to it, until space runs out; then this is still so of every file but the one that was being written.
   * Directories are created only when the sector they would take is ready.
   */
  method Session(fs: LemonFs, ops: seq<Op>, ghost known: Known) returns (full: bool, rs: seq<Option<FsResult<()>>>)
    requires Stands(fs, known) && forall k :: 0 <= k < |ops| ==> Admissible(ops[k])
    modifies fs, fs.v.disk, fs.v.bitmap
    ensures if full then |rs| < |ops| && fs.v.Exhausted() && Knows(fs.v.D(), fs.tree, Unsure(Effects(known, ops, rs), ops[|rs|]))
            else |rs| == |ops| && Stands(fs, Effects(known, ops, rs))
  {
    rs := [];
    for k := 0 to |ops|
      invariant |rs| == k && Stands(fs, Effects(known, ops, rs))
    {
      ghost var now := Effects(known, ops, rs);
      var ready := true;
      if ops[k].CreateDirectory? { ready := IsReady(fs.v); }
      var r: Option<FsResult<()>> := None;
      if ready {
        var answer := Do(fs, ops[k], now);
        if answer == Failure(NoSpace) { return true, rs; }
        r := Some(answer);
      }
      assert (rs + [r])[..k] == rs;
      rs := rs + [r];
    }
    full := false;
  }

  // ----- Reading it back -----

  lemma {:induction false} WalksTo(t: Tree, path: seq<Name>)
    requires t.Dir? && path != [] && Lookup(t, path).Some?
    ensures Walk(t, path[..|path| - 1]).Success?
    decreases |path|
  {
    var i := Find(Entries(t.kids), path[0], 0).value;
    if |path| > 1 {
      assert path[1..][..|path| - 2] == path[..|path| - 1][1..];
      WalksTo(t.kids[i].tree, path[1..]);
    }
  }

  lemma {:induction false} LocatedIf(t: Tree, path: seq<Name>, f: Tree)
    requires t.Dir? && LeadsTo(t, path, f)
    ensures path != [] && Locate(t, path).Success? && Locate(t, path).value.1.Some? && IsPlainFile(t, path)
    ensures Sub(t, Locate(t, path).value.0).kids[Locate(t, path).value.1.value].tree == f
  {
    WalksTo(t, path);
    LookupLocated(t, path);
  }

  lemma {:induction false} DataPositive(d: seq<Sector>, used: set<nat>, lo: nat, hi: nat, root: DirEntry, t: Tree, p: seq<nat>, i: nat)
    requires Sound(d, used, lo, hi, root, t) && lo > 0 && PathOk(t, p) && Sub(t, p).Dir? && i < |Sub(t, p).kids| && Sub(t, p).kids[i].tree.File?
    ensures forall k {:trigger Sub(t, p).kids[i].tree.data[k]} :: 0 <= k < |Sub(t, p).kids[i].tree.data| ==> Sub(t, p).kids[i].tree.data[k] > 0
  {
    var a := Sub(t, p);
    PartOfSound(d, used, lo, hi, root, t, p);
    KidOfPart(d, used, lo, hi, SubEntry(root, t, p), a, i);
    FsDelete.FileInData(a.kids[i].tree, lo, hi);
  }

  /** A file reads as what is known of it: below the root always, in the root if the cache is fresh. */
  method Recall(fs: LemonFs, path: seq<Name>, capacity: nat, ghost known: Known) returns (r: FsResult<seq<Byte>>)
    requires Stands(fs, known) && path in known && (|path| > 1 || fs.CacheFresh())
    ensures r == Success(Cap(SourceBytes(known[path]), capacity))
  {
    ghost var f := Lookup(fs.tree, path).value;
    ghost var p, i;
    LocatedIf(fs.tree, path, f);
    WalkEmpty(fs.tree, path[..|path| - 1]);
    r, p, i := fs.Read(path, capacity);
    DataPositive(fs.v.D(), fs.v.U(), fs.v.Lo(), fs.v.dataEnd, fs.RootEntry(), fs.tree, p, i);
    ReadBack(fs.v.D(), f.data, known[path]);
  }

  lemma KnownFrame(d: seq<Sector>, used: set<nat>, e: seq<Sector>, lo: nat, hi: nat, root: DirEntry, t: Tree, known: Known)
    requires Sound(d, used, lo, hi, root, t) && |d| == |e| && Knows(d, t, known) && hi < |d|
    requires forall k {:trigger e[k]} :: lo <= k <= hi ==> e[k] == d[k]
    ensures Knows(e, t, known)
  {
    forall path {:trigger path in known} | path in known
      ensures WrittenAs(e, Lookup(t, path).value, known[path])
    {
      var f := Lookup(t, path).value;
      forall x: nat {:trigger Owns(f, x)} | Owns(f, x) && x < |d|
        ensures d[x] == e[x]
      {
        LookupOwned(t, path, f, x);
      }
      WrittenFrame(d, e, f, known[path]);
    }
  }

  /** Syncing and mounting again keeps all that is known, and then every file of it can be read back. */
  method Remount(fs: LemonFs, poly: Word, table: seq<Word>, sb: Superblock.SuperBlock, ghost known: Known) returns (again: LemonFs)
    requires Stands(fs, known) && Checker(poly, table) && Superblock.WellFormed(sb) && Superblock.Geometry(sb, |fs.v.D()|)
    requires sb.dataStart == fs.v.Lo() && sb.dataEnd == fs.v.dataEnd
    modifies fs.v.disk
    ensures Stands(again, known) && again.CacheFresh()
  {
    ghost var d := fs.v.D();
    var r := SyncThenInit(fs, poly, table, sb);
    again := r.value;
    KnownFrame(d, fs.v.U(), fs.v.D(), fs.v.Lo(), fs.v.dataEnd, fs.RootEntry(), fs.tree, known);
  }
}
