/** The file system's operations on paths (`fs/lemonfs/mod.rs`). A path is its sequence of components. */
module LemonFs {
  import opened Basics
  import opened Bits
  import opened Codec
  import opened Directory
  import opened Disk
  import opened FileChain
  import opened FsChange
  import opened FsCodec
  import opened FsDelete
  import opened FsRead
  import opened FsSync
  import opened FsTree
  import opened FsWrite
  import opened Links
  import opened SectorView
  import opened Volume

  type Name = seq<Byte>

  // ----- Names and paths -----

  /** The first entry with this name, from index `from` on. */
  function Find(es: seq<DirEntry>, name: Name, from: nat): (r: Option<nat>)
    requires from <= |es|
    ensures r.Some? ==> from <= r.value < |es| && ToStr(es[r.value].name) == name
    ensures r.None? ==> forall j {:trigger es[j]} :: from <= j < |es| ==> ToStr(es[j].name) != name
    decreases |es| - from
  {
    if from == |es| then None
    else if ToStr(es[from].name) == name then Some(from)
    else Find(es, name, from + 1)
  }

  method FindChild(children: seq<Node>, name: Name) returns (r: Option<nat>)
    ensures r == Find(ToDentries(children), name, 0)
  {
    ghost var es := ToDentries(children);
    for i := 0 to |children|
      invariant Find(es, name, 0) == Find(es, name, i)
    {
      if ToStr(children[i].name) == name { return Some(i); }
    }
    r := None;
  }

  function Prefixed(p: seq<nat>, r: FsResult<seq<nat>>): FsResult<seq<nat>>
  {
    match r
    case Success(q) => Success(p + q)
    case Failure(e) => Failure(e)
  }

  /** Where a sequence of directory names leads, or why it does not. */
  function Walk(t: Tree, comps: seq<Name>): (r: FsResult<seq<nat>>)
    requires t.Dir?
    ensures r.Success? ==> PathOk(t, r.value) && Sub(t, r.value).Dir?
    ensures r.Failure? ==> r.error == FileNotFound || r.error == BadFileType
    decreases |comps|
  {
    if comps == [] then Success([])
    else match Find(Entries(t.kids), comps[0], 0)
      case None => Failure(FileNotFound)
      case Some(i) =>
        if t.kids[i].tree.File? then Failure(BadFileType)
        else Prefixed([i], Walk(t.kids[i].tree, comps[1..]))
  }

  lemma {:induction false} PathSnoc(e: DirEntry, t: Tree, p: seq<nat>, j: nat)
    requires PathOk(t, p) && Sub(t, p).Dir? && j < |Sub(t, p).kids|
    ensures PathOk(t, p + [j]) && Sub(t, p + [j]) == Sub(t, p).kids[j].tree && SubEntry(e, t, p + [j]) == Sub(t, p).kids[j].entry
    decreases |p|
  {
    if p != [] {
      assert (p + [j])[1..] == p[1..] + [j];
      PathSnoc(t.kids[p[0]].entry, t.kids[p[0]].tree, p[1..], j);
    } else {
      assert [j][1..] == [];
    }
  }

  lemma PrefixedNone(r: FsResult<seq<nat>>)
    ensures Prefixed([], r) == r
  {
    if r.Success? {
      assert [] + r.value == r.value;
    }
  }

  lemma {:induction false} WalkStep(t: Tree, comps: seq<Name>, i: nat, p: seq<nat>)
    requires t.Dir? && i < |comps|
    ensures Find(Entries(t.kids), comps[i], 0).None? ==> Prefixed(p, Walk(t, comps[i..])) == Failure(FileNotFound)
    ensures Find(Entries(t.kids), comps[i], 0).Some? ==>
      var j := Find(Entries(t.kids), comps[i], 0).value;
      Prefixed(p, Walk(t, comps[i..])) ==
        if t.kids[j].tree.File? then Failure(BadFileType) else Prefixed(p + [j], Walk(t.kids[j].tree, comps[i + 1..]))
  {
    assert comps[i..][0] == comps[i] && comps[i..][1..] == comps[i + 1..];
    var f := Find(Entries(t.kids), comps[i], 0);
    if f.Some? && t.kids[f.value].tree.Dir? {
      PrefixedTwice(p, f.value, Walk(t.kids[f.value].tree, comps[i + 1..]));
    }
  }

  lemma PrefixedTwice(p: seq<nat>, j: nat, r: FsResult<seq<nat>>)
    ensures Prefixed(p, Prefixed([j], r)) == Prefixed(p + [j], r)
  {
    if r.Success? {
      assert p + ([j] + r.value) == p + [j] + r.value;
    }
  }

  /** The directory a path's last component is in, and the child of that name if there is one. */
  function Locate(t: Tree, path: seq<Name>): (r: FsResult<(seq<nat>, Option<nat>)>)
    requires t.Dir?
    ensures r.Success? ==> PathOk(t, r.value.0) && Sub(t, r.value.0).Dir?
    ensures r.Success? && r.value.1.Some? ==> r.value.1.value < |Sub(t, r.value.0).kids|
    ensures r.Failure? ==> r.error == IsRoot || r.error == FileNotFound || r.error == BadFileType
  {
    if path == [] then Failure(IsRoot)
    else match Walk(t, path[..|path| - 1])
      case Failure(e) => Failure(e)
      case Success(p) => Success((p, Find(Entries(Sub(t, p).kids), path[|path| - 1], 0)))
  }

  /** `Directory`, as the operations hold it in memory. */
  datatype OpenDir = OpenDir(parent: nat, children: seq<Node>, head: LinkPointer)

  lemma ParentFits(s: Sector)
    ensures U64(DirOf(s).parent)
  {
    if |s.bytes| == 512 {
      UnLe64(s.bytes[..8]);
    }
  }

  /** The sector reads as a directory block without entries and without a next block. */
  predicate EmptyBlock(s: Sector)
  {
    !Direct(DirOf(s).next) && Named(DirOf(s).entries) == []
  }

  /** The root directory starts just beyond the data sectors. */
  function RootOf(dataEnd: nat): DirEntry
  {
    DirEntry(FromStr(['/' as int]), IS_DIR, LinkPointer(dataEnd, 512))
  }

  class LemonFs {
    const v: Volume
    var root: seq<Node>
    ghost var tree: Tree

    /** Mount a sound volume: the root directory is loaded into the cache (the end of `init`). */
    constructor (v: Volume, ghost tree: Tree)
      requires v.Valid() && Sound(v.D(), v.U(), v.Lo(), v.dataEnd, RootOf(v.dataEnd), tree)
      ensures this.v == v && this.tree == tree && Valid() && CacheFresh()
    {
      this.v := v;
      this.tree := tree;
      root := [];
      new;
      root := LoadKid(v, LinkPointer(v.dataEnd, 512), Kid(RootEntry(), tree));
      LoadedRoot(v.D(), v.U(), v.Lo(), v.dataEnd, RootEntry(), tree);
    }

    function RootEntry(): DirEntry
    {
      RootOf(v.dataEnd)
    }

    /** The volume is sound, the cached root directory projects to what is on disk, and its extents can be read. */
    ghost predicate Valid()
      reads this, v.disk, v.bitmap
    {
      v.Valid() && Sound(v.D(), v.U(), v.Lo(), v.dataEnd, RootEntry(), tree) && ToDentries(root) == Entries(tree.kids)
      && CacheReadable(root, |v.D()|)
    }

    /** The files in the root are cached with the extents they have on disk, as after mounting. */
    ghost predicate CacheFresh()
      reads this
    {
      tree.Dir? && |root| == |tree.kids| && forall k {:trigger root[k]} :: 0 <= k < |root| && tree.kids[k].tree.File? ==>
        root[k].FileNode? && root[k].links == tree.kids[k].tree.extents
    }

    /** Nothing changed, but for sectors that were marked used. */
    ghost predicate OnlyLeaked(d: seq<Sector>, used: set<nat>, t: Tree, cached: seq<Node>)
      reads this, v.disk, v.bitmap
    {
      v.Valid() && v.D() == d && used <= v.U() && tree == t && root == cached
    }

    /** The directory in memory is the one at `p`. */
    ghost predicate At(dir: OpenDir, p: seq<nat>)
      reads this
    {
      PathOk(tree, p) && Sub(tree, p).Dir? && U64(dir.parent)
      && dir.head == SubEntry(RootEntry(), tree, p).link && ToDentries(dir.children) == Entries(Sub(tree, p).kids)
    }

    /** The root's children come from the cache, those of any other directory from the disk. */
    ghost predicate From(dir: OpenDir, p: seq<nat>)
      reads this, v.disk
    {
      PathOk(tree, p) && Sub(tree, p).Dir?
      && if p == [] then dir.children == root
         else Loadable(v.D(), Entries(Sub(tree, p).kids)) && dir.children == LoadedAll(v.D(), Entries(Sub(tree, p).kids))
    }

    /** One step of `get_parent`: the child directory of this name. */
    method Descend(dir: OpenDir, name: Name, ghost p: seq<nat>) returns (r: FsResult<OpenDir>, ghost q: seq<nat>)
      requires Valid() && At(dir, p)
      ensures Find(Entries(Sub(tree, p).kids), name, 0).None? ==> r == Failure(FileNotFound)
      ensures Find(Entries(Sub(tree, p).kids), name, 0).Some? ==>
        var j := Find(Entries(Sub(tree, p).kids), name, 0).value;
        if Sub(tree, p).kids[j].tree.File? then r == Failure(BadFileType)
        else q == p + [j] && r.Success? && At(r.value, q) && From(r.value, q) && Sub(tree, q) == Sub(tree, p).kids[j].tree
    {
      q := p;
      var found := FindChild(dir.children, name);
      if found.None? { return Failure(FileNotFound), p; }
      var j := found.value;
      ghost var kid := Sub(tree, p).kids[j];
      assert ToDentries(dir.children)[j] == kid.entry;
      PathSnoc(RootEntry(), tree, p, j);
      SubRep(v.D(), RootEntry(), tree, p + [j]);
      KidLoadable(v.D(), kid);
      match dir.children[j] {
        case FileNode(_, _, _, _) =>
          return Failure(BadFileType), p;
        case DirNode(_, link) =>
          var child := LoadDirectory(link, kid);
          return Success(child), p + [j];
        case SymLink(_, _) =>
          assert false;
      }
    }

    /** `get_parent`: follow the directories of a path, the root from the cache and the others from disk. */
    method GetParent(comps: seq<Name>) returns (r: FsResult<OpenDir>, ghost p: seq<nat>)
      requires Valid()
      ensures r.Failure? ==> Walk(tree, comps) == Failure(r.error)
      ensures r.Success? ==> Walk(tree, comps) == Success(p) && At(r.value, p) && From(r.value, p)
    {
      var dir := OpenDir(0, root, LinkPointer(v.dataEnd, 512));
      p := [];
      PrefixedNone(Walk(tree, comps));
      assert comps[0..] == comps;
      for i := 0 to |comps|
        invariant At(dir, p) && From(dir, p) && Walk(tree, comps) == Prefixed(p, Walk(Sub(tree, p), comps[i..]))
      {
        WalkStep(Sub(tree, p), comps, i, p);
        var next;
        ghost var q;
        next, q := Descend(dir, comps[i], p);
        if next.Failure? { return next, p; }
        dir, p := next.value, q;
      }
      assert comps[|comps|..] == [] && p + [] == p;
      r := Success(dir);
    }

    /** `Directory::from_directory_entry` */
    method LoadDirectory(link: LinkPointer, ghost k: Kid) returns (dir: OpenDir)
      requires Rep(v.D(), k.entry, k.tree) && k.tree.Dir? && link == k.entry.link
      ensures U64(dir.parent) && dir.head == link && ToDentries(dir.children) == Entries(k.tree.kids)
      ensures Loadable(v.D(), Entries(k.tree.kids)) && dir.children == LoadedAll(v.D(), Entries(k.tree.kids))
    {
      var block := v.Read(link.start);
      ParentFits(block);
      var children := LoadKid(v, link, k);
      dir := OpenDir(DirOf(block).parent, children, link);
    }

    /** Write a directory whose children have changed, and with it the whole tree, if the disk holds the children. */
    method Commit(dir: OpenDir, children: seq<Node>, ghost p: seq<nat>, ghost kids: seq<Kid>, ghost d: seq<Sector>, ghost used: set<nat>)
        returns (r: FsResult<()>, ghost b: Tree)
      requires v.Valid() && Sound(d, used, v.Lo(), v.dataEnd, RootEntry(), tree) && At(dir, p) && ToDentries(children) == Entries(kids)
      requires Local(d, used, v.D(), v.U(), v.Lo(), v.dataEnd, Sub(tree, p), Dir(Sub(tree, p).ds, kids))
      requires Prepared(v.D(), v.U(), v.Lo(), v.dataEnd, dir.head, Sub(tree, p).ds, kids)
      modifies this`tree, v.disk, v.bitmap
      ensures v.Valid() && b.Dir?
      ensures r.Failure? ==> tree == old(tree) && v.Exhausted() && BlocksNeeded(|kids|) > |Sub(tree, p).ds|
      ensures r.Failure? ==> v.D() == old(v.D()) && old(v.U()) <= v.U()
      ensures var extra := Extra(BlocksNeeded(|kids|), |Sub(old(tree), p).ds|);
        old(v.Room()) >= extra ==> r.Success? && v.Room() >= old(v.Room()) - extra
      ensures r.Success? ==> b.kids == kids && Separate(b) && Listed(v.D(), dir.head, b)
      ensures r.Success? && KidsHeld(old(v.D()), kids) ==>
        tree == Replace(old(tree), p, b) && Sound(v.D(), v.U(), v.Lo(), v.dataEnd, RootEntry(), tree)
      ensures r.Success? ==> Local(d, used, v.D(), v.U(), v.Lo(), v.dataEnd, Sub(old(tree), p), b)
      ensures r.Success? ==> SameOutside(old(v.D()), v.D(), b.ds) && Shortened(Sub(old(tree), p).ds, b.ds, BlocksNeeded(|kids|))
    {
      ghost var entry, a, e := SubEntry(RootEntry(), tree, p), Sub(tree, p), v.D();
      SubRep(d, RootEntry(), tree, p);
      r, b := SyncDir(v, dir.head, dir.parent, children, d, used, entry, a, kids);
      if r.Failure? { return r, Dir([], []); }
      if KidsHeld(e, kids) {
        Lifted(d, used, v.D(), v.U(), v.Lo(), v.dataEnd, RootEntry(), tree, p, b);
        tree := Replace(tree, p, b);
      }
    }

    /** Find the directory and the child that a path names. */
    method Open(path: seq<Name>) returns (r: FsResult<(OpenDir, Option<nat>)>, ghost p: seq<nat>)
      requires Valid()
      ensures r.Failure? ==> Locate(tree, path) == Failure(r.error)
      ensures r.Success? ==> Locate(tree, path) == Success((p, r.value.1)) && At(r.value.0, p) && From(r.value.0, p)
    {
      if path == [] { return Failure(IsRoot), []; }
      var parent;
      parent, p := GetParent(path[..|path| - 1]);
      if parent.Failure? { return Failure(parent.error), p; }
      var found := FindChild(parent.value.children, path[|path| - 1]);
      r := Success((parent.value, found));
    }

    // ----- Create -----

    /** Append a child whose sectors were just taken, and write the directory. */
    method AddChild(dir: OpenDir, node: Node, ghost p: seq<nat>, ghost kid: Kid, ghost used: set<nat>) returns (r: FsResult<()>, ghost b: Tree)
      requires v.Valid() && Sound(v.D(), used, v.Lo(), v.dataEnd, RootEntry(), tree) && At(dir, p) && ToDentry(node) == kid.entry
      requires Separate(kid.tree) && LinkFits(kid.entry.link) && !IsEmptyName(kid.entry.name)
      requires Taken(used, v.U(), v.Lo(), v.dataEnd, kid.tree)
      modifies this`tree, v.disk, v.bitmap
      ensures v.Valid() && b.Dir? && (r.Failure? ==> v.Exhausted() && tree == old(tree) && v.D() == old(v.D()) && old(v.U()) <= v.U())
      ensures old(v.Room()) >= 1 ==> r.Success? && v.Room() >= old(v.Room()) - 1
      ensures r.Success? ==> b.kids == Sub(old(tree), p).kids + [kid] && Separate(b) && Listed(v.D(), dir.head, b)
      ensures r.Success? && Rep(old(v.D()), kid.entry, kid.tree) ==>
        tree == Replace(old(tree), p, b) && Sound(v.D(), v.U(), v.Lo(), v.dataEnd, RootEntry(), tree)
      ensures r.Success? ==> Local(old(v.D()), used, v.D(), v.U(), v.Lo(), v.dataEnd, Sub(old(tree), p), b)
      ensures r.Success? ==> SameOutside(old(v.D()), v.D(), b.ds)
    {
      ghost var d, a := v.D(), Sub(tree, p);
      PartOfSound(d, used, v.Lo(), v.dataEnd, RootEntry(), tree, p);
      Added(d, used, v.U(), v.Lo(), v.dataEnd, SubEntry(RootEntry(), tree, p), a, kid);
      AddedEntries(dir.children, a.kids, node, kid);
      PartFits(d, used, v.Lo(), v.dataEnd, RootEntry(), tree, p);
      OneMoreBlock(|a.kids|);
      r, b := Commit(dir, dir.children + [node], p, a.kids + [kid], d, used);
    }

    /** Take a sector for a new file or directory and append it to its parent. */
    method NewChild(dir: OpenDir, name: Name, isDir: bool, ghost p: seq<nat>) returns (r: FsResult<Node>, ghost b: Tree, ghost lba: nat)
      requires v.Valid() && Sound(v.D(), v.U(), v.Lo(), v.dataEnd, RootEntry(), tree) && At(dir, p)
      requires Storable(name)
      modifies this`tree, v.disk, v.bitmap
      ensures v.Valid() && b.Dir? && (r.Failure? ==> r.error == NoSpace && v.Exhausted())
      ensures r.Failure? ==> tree == old(tree) && v.D() == old(v.D()) && old(v.U()) <= v.U()
      ensures old(v.Room()) >= 2 ==> r.Success? && v.Room() >= old(v.Room()) - 2
      ensures r.Success? ==> MadeAt(old(v.D()), v.D(), old(v.Pick()), lba) && Listed(v.D(), dir.head, b)
      ensures r.Success? ==> b.kids == Sub(old(tree), p).kids + [NewKid(name, isDir, lba)]
      ensures r.Success? ==> ToDentry(r.value) == NewKid(name, isDir, lba).entry && (r.value.FileNode? ==> r.value.links == [])
      ensures r.Success? && (isDir ==> EmptyBlock(old(v.D())[lba])) ==>
        tree == Replace(old(tree), p, b) && Sound(v.D(), v.U(), v.Lo(), v.dataEnd, RootEntry(), tree)
      ensures r.Success? ==> Local(old(v.D()), old(v.U()), v.D(), v.U(), v.Lo(), v.dataEnd, Sub(old(tree), p), b)
      ensures r.Success? ==> SameOutside(old(v.D()), v.D(), b.ds)
    {
      b, lba := Dir([], []), 0;
      ghost var d, used := v.D(), v.U();
      var start := v.Alloc();
      if start.None? { return Failure(NoSpace), b, 0; }
      lba := start.value;
      NewKidOk(d, name, isDir, lba);
      var node := if isDir then DirNode(FromStr(name), LinkPointer(start.value, 512)) else FileNode(FromStr(name), 0, LinkPointer(start.value, 1), []);
      var added;
      added, b := AddChild(dir, node, p, NewKid(name, isDir, lba), used);
      if added.Failure? { return Failure(NoSpace), b, lba; }
      assert Owns(b.kids[|b.kids| - 1].tree, lba);
      r := Success(node);
    }

    /** A new file or directory is the last child of its parent; it owns one sector, which was free. */
    method CreateIn(dir: OpenDir, name: Name, isDir: bool, inRoot: bool, ghost p: seq<nat>) returns (r: FsResult<()>, ghost b: Tree, ghost lba: nat)
      requires Valid() && At(dir, p) && Storable(name) && inRoot == (p == [])
      modifies this, v.disk, v.bitmap
      ensures r.Failure? ==> r.error == NoSpace && v.Exhausted() && OnlyLeaked(old(v.D()), old(v.U()), old(tree), old(root))
      ensures old(v.Room()) >= 2 ==> r.Success? && v.Room() >= old(v.Room()) - 2
      ensures r.Success? ==> MadeAt(old(v.D()), v.D(), old(v.Pick()), lba) && b.Dir? && Listed(v.D(), dir.head, b)
      ensures r.Success? ==> b.kids == Sub(old(tree), p).kids + [NewKid(name, isDir, lba)]
      ensures r.Success? && (isDir ==> EmptyBlock(old(v.D())[lba])) ==> Valid() && tree == Replace(old(tree), p, b)
      ensures r.Success? ==> if p == [] then CacheGrew(old(root), root) else root == old(root)
      ensures r.Success? ==> Local(old(v.D()), old(v.U()), v.D(), v.U(), v.Lo(), v.dataEnd, Sub(old(tree), p), b)
      ensures r.Success? ==> SameOutside(old(v.D()), v.D(), b.ds)
    {
      var node;
      node, b, lba := NewChild(dir, name, isDir, p);
      if node.Failure? { return Failure(NoSpace), b, lba; }
      CachePushed(old(tree), p, b, root, node.value, NewKid(name, isDir, lba));
      CacheGrewOk(root, |v.D()|, node.value);
      if inRoot { root := root + [node.value]; }
      assert root == if p == [] then old(root) + [node.value] else old(root);
      r := Success(());
    }

    /**
      * `create`: the new child is the last of its directory and owns the sector picked. A new directory reads as an
      * empty one exactly if that sector did as a directory block; otherwise it lists whatever the sector holds.
      */
    method Create(path: seq<Name>, flags: nat) returns (r: FsResult<()>, ghost p: seq<nat>, ghost b: Tree, ghost lba: nat)
      requires Valid() && (path != [] ==> Storable(path[|path| - 1]))
      requires flags % 256 != IS_SYMLINK
      modifies this, v.disk, v.bitmap
      ensures Locate(old(tree), path).Failure? ==> r == Failure(Locate(old(tree), path).error)
      ensures Locate(old(tree), path).Success? && Locate(old(tree), path).value.1.Some? ==> r == Failure(FileExists)
      ensures Locate(old(tree), path).Success? && Locate(old(tree), path).value.1.None? && flags % 256 >= 4 ==> r == Failure(BadFlags)
      ensures Locate(old(tree), path).Success? && Locate(old(tree), path).value.1.None? && flags % 256 < 4 ==>
        (r.Success? || (r == Failure(NoSpace) && v.Exhausted()))
        && (old(v.Room()) >= 2 ==> r.Success? && v.Room() >= old(v.Room()) - 2)
      ensures r.Failure? && r.error != NoSpace ==> Valid() && v.D() == old(v.D()) && v.U() == old(v.U()) && tree == old(tree)
      ensures r == Failure(NoSpace) ==> OnlyLeaked(old(v.D()), old(v.U()), old(tree), old(root))
      ensures r.Success? ==> Locate(old(tree), path) == Success((p, None)) && b.Dir?
      ensures r.Success? ==> MadeAt(old(v.D()), v.D(), old(v.Pick()), lba) && Listed(v.D(), SubEntry(RootEntry(), old(tree), p).link, b)
      ensures r.Success? && (HasDir(flags % 256) ==> EmptyBlock(old(v.D())[lba])) ==> Valid() && tree == Replace(old(tree), p, b)
      ensures r.Success? && HasDir(flags % 256) ==>
        (Rep(v.D(), NewKid(path[|path| - 1], true, lba).entry, Dir([lba], [])) <==> EmptyBlock(old(v.D())[lba]))
      ensures r.Success? ==> b.kids == Sub(old(tree), p).kids + [NewKid(path[|path| - 1], HasDir(flags % 256), lba)]
      ensures r.Success? ==> if p == [] then CacheGrew(old(root), root) else root == old(root)
      ensures r.Success? ==> Local(old(v.D()), old(v.U()), v.D(), v.U(), v.Lo(), v.dataEnd, Sub(old(tree), p), b)
      ensures r.Success? ==> SameOutside(old(v.D()), v.D(), b.ds)
    {
      b, lba := Dir([], []), 0;
      var target;
      target, p := Open(path);
      if target.Failure? { return Failure(target.error), p, b, 0; }
      var (dir, found) := target.value;
      if found.Some? { return Failure(FileExists), p, b, 0; }
      if flags % 256 >= 4 { return Failure(BadFlags), p, b, 0; }
      WalkEmpty(tree, path[..|path| - 1]);
      r, b, lba := CreateIn(dir, path[|path| - 1], HasDir(flags % 256), |path| == 1, p);
      if r.Success? && HasDir(flags % 256) { EmptyIff(v.D(), FromStr(path[|path| - 1]), lba); }
    }

    // ----- Delete -----

    /** Delete a child and write the directory without it, which needs no new block. */
    method RemoveChild(dir: OpenDir, i: nat, ghost p: seq<nat>) returns (r: FsResult<()>, ghost b: Tree)
      requires v.Valid() && Sound(v.D(), v.U(), v.Lo(), v.dataEnd, RootEntry(), tree) && At(dir, p) && i < |dir.children|
      modifies this`tree, v.disk, v.bitmap
      ensures v.Valid() && b.Dir? && r.Success?
      ensures r.Success? ==> tree == Replace(old(tree), p, b) && b.kids == SwapRemove(Sub(old(tree), p).kids, i)
      ensures r.Success? ==> Sound(v.D(), v.U(), v.Lo(), v.dataEnd, RootEntry(), tree)
      ensures r.Success? ==> Local(old(v.D()), old(v.U()), v.D(), v.U(), v.Lo(), v.dataEnd, Sub(old(tree), p), b)
      ensures r.Success? ==> OnlyTouched(old(v.D()), v.D(), b.ds, Sub(old(tree), p).kids[i].tree, NoTree())
      ensures Shortened(Sub(old(tree), p).ds, b.ds, BlocksNeeded(|b.kids|))
    {
      ghost var d, used, a, entry := v.D(), v.U(), Sub(tree, p), SubEntry(RootEntry(), tree, p);
      PartOfSound(d, used, v.Lo(), v.dataEnd, RootEntry(), tree, p);
      KidOfPart(d, used, v.Lo(), v.dataEnd, entry, a, i);
      assert ToDentries(dir.children)[i] == a.kids[i].entry;
      DeleteNode(v, dir.children[i], a.kids[i]);
      ghost var e := v.D();
      Removed(d, used, e, v.U(), v.Lo(), v.dataEnd, entry, a, i);
      SwapRemovedEntries(dir.children, a.kids, i);
      BlocksSuffice(d, entry, a, |a.kids| - 1);
      r, b := Commit(dir, SwapRemove(dir.children, i), p, SwapRemove(a.kids, i), d, used);
      if r.Success? {
        ClearedOnly(d, used, e, a.kids[i].tree, v.D(), b.ds);
      }
    }

    /** The child goes with everything below it; the cache drops it in the same way. */
    method DeleteIn(dir: OpenDir, name: Name, i: nat, inRoot: bool, ghost p: seq<nat>) returns (r: FsResult<()>, ghost b: Tree)
      requires Valid() && At(dir, p) && Find(Entries(Sub(tree, p).kids), name, 0) == Some(i) && inRoot == (p == [])
      modifies this, v.disk, v.bitmap
      ensures r.Success?
      ensures r.Success? ==> Valid() && b.Dir? && tree == Replace(old(tree), p, b) && b.kids == SwapRemove(Sub(old(tree), p).kids, i)
      ensures r.Success? ==> Local(old(v.D()), old(v.U()), v.D(), v.U(), v.Lo(), v.dataEnd, Sub(old(tree), p), b)
      ensures r.Success? ==> OnlyTouched(old(v.D()), v.D(), b.ds, Sub(old(tree), p).kids[i].tree, NoTree())
      ensures Shortened(Sub(old(tree), p).ds, b.ds, BlocksNeeded(|b.kids|))
    {
      r, b := RemoveChild(dir, i, p);
      CacheRemoved(old(tree), p, b, root, i);
      if inRoot {
        var position := FindChild(root, name);
        if position.None? { return Failure(FileNotFound), b; }
        CacheShrunkOk(root, |v.D()|, i);
        root := SwapRemove(root, position.value);
      }
    }

    /** `delete` */
    method Delete(path: seq<Name>) returns (r: FsResult<()>, ghost p: seq<nat>, ghost i: nat, ghost b: Tree)
      requires Valid()
      modifies this, v.disk, v.bitmap
      ensures Locate(old(tree), path).Failure? ==> r == Failure(Locate(old(tree), path).error)
      ensures Locate(old(tree), path).Success? && Locate(old(tree), path).value.1.None? ==> r == Failure(FileNotFound)
      ensures Locate(old(tree), path).Success? && Locate(old(tree), path).value.1.Some? ==> r.Success?
      ensures r.Failure? ==> Valid() && v.D() == old(v.D()) && v.U() == old(v.U()) && tree == old(tree)
      ensures r.Success? ==> Valid() && Locate(old(tree), path) == Success((p, Some(i)))
      ensures r.Success? ==> b.Dir? && tree == Replace(old(tree), p, b) && b.kids == SwapRemove(Sub(old(tree), p).kids, i)
      ensures r.Success? ==> Local(old(v.D()), old(v.U()), v.D(), v.U(), v.Lo(), v.dataEnd, Sub(old(tree), p), b)
      ensures r.Success? ==> OnlyTouched(old(v.D()), v.D(), b.ds, Sub(old(tree), p).kids[i].tree, NoTree())
      ensures r.Success? ==> Shortened(Sub(old(tree), p).ds, b.ds, BlocksNeeded(|b.kids|))
    {
      i, b := 0, Dir([], []);
      var target;
      target, p := Open(path);
      if target.Failure? { return Failure(target.error), p, 0, b; }
      var (dir, found) := target.value;
      if found.None? { return Failure(FileNotFound), p, 0, b; }
      i := found.value;
      WalkEmpty(tree, path[..|path| - 1]);
      r, b := DeleteIn(dir, path[|path| - 1], found.value, |path| == 1, p);
    }

    // ----- Write -----

    /** Give a child file new content and write the directory with its new head. */
    method ChangeChild(dir: OpenDir, i: nat, src: seq<Sector>, ghost p: seq<nat>) returns (r: FsResult<Node>, ghost b: Tree)
      requires v.Valid() && Sound(v.D(), v.U(), v.Lo(), v.dataEnd, RootEntry(), tree) && At(dir, p)
      requires i < |dir.children| && dir.children[i].FileNode? && 0 < |src| < MAX_SECTORS_U64 && Sized(src)
      modifies this`tree, v.disk, v.bitmap
      ensures v.Valid() && b.Dir? && i < |Sub(old(tree), p).kids|
      ensures r.Failure? ==> v.Exhausted() && tree == old(tree) && Spoiled(old(v.D()), old(v.U()), v.D(), v.U(), Sub(old(tree), p).kids[i])
      ensures old(v.Room()) >= NeededFor(|src|) ==> r.Success? && v.Room() >= old(v.Room()) - NeededFor(|src|)
      ensures r.Success? ==> tree == Replace(old(tree), p, b) && Sound(v.D(), v.U(), v.Lo(), v.dataEnd, RootEntry(), tree)
      ensures r.Success? ==> |b.kids| == |Sub(old(tree), p).kids| > i && b.kids == Sub(old(tree), p).kids[i := b.kids[i]]
      ensures r.Success? ==> b.kids[i].entry == ToDentry(r.value) && b.kids[i].tree.File?
      ensures r.Success? ==> r.value.FileNode? && r.value.links == dir.children[i].links
      ensures r.Success? ==> b.kids[i].entry.name == Sub(old(tree), p).kids[i].entry.name
      ensures r.Success? ==> Sub(old(tree), p).kids[i].tree.File? && FrontKept(Sub(old(tree), p).kids[i].tree.data, b.kids[i].tree.data)
      ensures r.Success? ==> WrittenAs(v.D(), b.kids[i].tree, src) && b.ds <= Sub(old(tree), p).ds
      ensures r.Success? ==> Local(old(v.D()), old(v.U()), v.D(), v.U(), v.Lo(), v.dataEnd, Sub(old(tree), p), b)
      ensures r.Success? ==> OnlyTouched(old(v.D()), v.D(), b.ds, Sub(old(tree), p).kids[i].tree, b.kids[i].tree)
    {
      ghost var d, used, a := v.D(), v.U(), Sub(tree, p);
      PartFits(d, used, v.Lo(), v.dataEnd, RootEntry(), tree, p);
      b := Dir([], []);
      var written;
      ghost var next;
      written, next := RewriteChild(dir, i, src, p);
      if written.Failure? { return Failure(NoSpace), b; }
      var node := written.value;
      ghost var e := v.D();
      ExchangedEntries(dir.children, a.kids, i, node, next);
      var synced;
      synced, b := Commit(dir, dir.children[i := node], p, a.kids[i := next], d, used);
      if synced.Failure? { return Failure(NoSpace), b; }
      ShortenedPrefix(a.ds, b.ds, BlocksNeeded(|a.kids|));
      ContentAfterSync(d, e, v.D(), b, i, a.kids[i].tree, next.tree, src);
      r := Success(node);
    }

    /** Give a child file new content: what the directory is to hold instead of it. */
    method RewriteChild(dir: OpenDir, i: nat, src: seq<Sector>, ghost p: seq<nat>) returns (r: FsResult<Node>, ghost next: Kid)
      requires v.Valid() && Sound(v.D(), v.U(), v.Lo(), v.dataEnd, RootEntry(), tree) && At(dir, p)
      requires i < |dir.children| && dir.children[i].FileNode? && 0 < |src| < MAX_SECTORS_U64 && Sized(src)
      modifies v.disk, v.bitmap
      ensures v.Valid() && i < |Sub(tree, p).kids|
      ensures r.Failure? ==> v.Exhausted() && Spoiled(old(v.D()), old(v.U()), v.D(), v.U(), Sub(tree, p).kids[i])
      ensures old(v.Room()) >= NeededFor(|src|) ==> r.Success? && v.Room() >= old(v.Room()) - NeededFor(|src|)
      ensures r.Success? ==> r.value.FileNode? && r.value.links == dir.children[i].links
      ensures r.Success? ==> ToDentry(r.value) == next.entry && next.entry.name == Sub(tree, p).kids[i].entry.name && next.tree.File?
      ensures r.Success? ==> Touched(old(v.D()), v.D(), Sub(tree, p).kids[i].tree, next.tree)
      ensures r.Success? ==> Sub(tree, p).kids[i].tree.File? && FrontKept(Sub(tree, p).kids[i].tree.data, next.tree.data)
      ensures r.Success? ==> WrittenAs(v.D(), next.tree, src)
      ensures r.Success? ==>
        ReadyToWrite(old(v.D()), old(v.U()), v.D(), v.U(), v.Lo(), v.dataEnd, dir.head, Sub(tree, p), Sub(tree, p).kids[i := next])
    {
      ghost var d, used, a, entry := v.D(), v.U(), Sub(tree, p), SubEntry(RootEntry(), tree, p);
      FilePart(d, used, v.Lo(), v.dataEnd, RootEntry(), tree, p, dir.children, i);
      ghost var kid := a.kids[i];
      next := kid;
      var file := dir.children[i];
      var written;
      ghost var u;
      written, u := Rewrite(v, file.head, src, kid.entry, kid.tree);
      if written.Failure? { return Failure(NoSpace), next; }
      var node := FileNode(file.name, written.value.1, written.value.0, file.links);
      next := Kid(ToDentry(node), u);
      Exchange(d, used, v.D(), v.U(), v.Lo(), v.dataEnd, entry, a, i, next);
      r := Success(node);
    }

    /** The file's entry has the new head, and so does the cache. */
    method WriteIn(dir: OpenDir, name: Name, i: nat, src: seq<Sector>, inRoot: bool, ghost p: seq<nat>) returns (r: FsResult<()>, ghost b: Tree)
      requires Valid() && At(dir, p) && From(dir, p) && Find(Entries(Sub(tree, p).kids), name, 0) == Some(i) && inRoot == (p == [])
      requires 0 < |src| < MAX_SECTORS_U64 && Sized(src) && dir.children[i].FileNode?
      modifies this, v.disk, v.bitmap
      ensures r.Failure? ==> r.error == NoSpace && v.Exhausted() && v.Valid() && tree == old(tree) && root == old(root)
      ensures r.Failure? ==> Spoiled(old(v.D()), old(v.U()), v.D(), v.U(), Sub(old(tree), p).kids[i])
      ensures old(v.Room()) >= NeededFor(|src|) ==> r.Success? && v.Room() >= old(v.Room()) - NeededFor(|src|)
      ensures r.Success? ==> Valid() && b.Dir? && tree == Replace(old(tree), p, b) && FileChanged(Sub(old(tree), p), b, i)
      ensures r.Success? ==> if p == [] then LinksKept(old(root), root, i) else root == old(root)
      ensures r.Success? ==> WrittenAs(v.D(), b.kids[i].tree, src)
      ensures r.Success? ==> Local(old(v.D()), old(v.U()), v.D(), v.U(), v.Lo(), v.dataEnd, Sub(old(tree), p), b)
      ensures r.Success? ==> OnlyTouched(old(v.D()), v.D(), b.ds, Sub(old(tree), p).kids[i].tree, b.kids[i].tree)
    {
      var changed;
      changed, b := ChangeChild(dir, i, src, p);
      if changed.Failure? { return Failure(NoSpace), b; }
      CacheExchanged(old(tree), p, b, root, i, changed.value);
      if inRoot {
        LinksKeptOk(root, |v.D()|, i, changed.value);
        var position := FindChild(root, name);
        if position.Some? { root := root[position.value := changed.value]; }
      }
      r := Success(());
    }

    /** `write`: `src` is the source pages, as sectors. */
    method Write(path: seq<Name>, src: seq<Sector>) returns (r: FsResult<()>, ghost p: seq<nat>, ghost i: nat, ghost b: Tree)
      requires Valid() && 0 < |src| < MAX_SECTORS_U64 && Sized(src)
      modifies this, v.disk, v.bitmap
      ensures Locate(old(tree), path).Failure? ==> r == Failure(Locate(old(tree), path).error)
      ensures Locate(old(tree), path).Success? && Locate(old(tree), path).value.1.None? ==> r == Failure(FileNotFound)
      ensures IsDirectory(old(tree), path) ==> r == Failure(BadFileType)
      ensures IsPlainFile(old(tree), path) ==> r.Success? || (r == Failure(NoSpace) && v.Exhausted())
      ensures IsPlainFile(old(tree), path) && old(v.Room()) >= NeededFor(|src|) ==> r.Success? && v.Room() >= old(v.Room()) - NeededFor(|src|)
      ensures r == Failure(NoSpace) ==> v.Valid() && tree == old(tree) && root == old(root) && Locate(old(tree), path) == Success((p, Some(i)))
      ensures r == Failure(NoSpace) ==> Spoiled(old(v.D()), old(v.U()), v.D(), v.U(), Sub(old(tree), p).kids[i])
      ensures r.Failure? && r.error != NoSpace ==> Valid() && v.D() == old(v.D()) && v.U() == old(v.U()) && tree == old(tree)
      ensures r.Success? ==> Valid() && Locate(old(tree), path) == Success((p, Some(i)))
      ensures r.Success? ==> b.Dir? && tree == Replace(old(tree), p, b) && FileChanged(Sub(old(tree), p), b, i)
      ensures r.Success? ==> if p == [] then LinksKept(old(root), root, i) else root == old(root)
      ensures r.Success? ==> WrittenAs(v.D(), b.kids[i].tree, src)
      ensures r.Success? ==> Local(old(v.D()), old(v.U()), v.D(), v.U(), v.Lo(), v.dataEnd, Sub(old(tree), p), b)
      ensures r.Success? ==> OnlyTouched(old(v.D()), v.D(), b.ds, Sub(old(tree), p).kids[i].tree, b.kids[i].tree)
    {
      i, b := 0, Dir([], []);
      var target;
      target, p := Open(path);
      if target.Failure? { return Failure(target.error), p, 0, b; }
      var (dir, found) := target.value;
      if found.None? { return Failure(FileNotFound), p, 0, b; }
      i := found.value;
      KindOfChild(v.D(), v.U(), v.Lo(), v.dataEnd, RootEntry(), tree, p, i);
      assert ToDentries(dir.children)[found.value] == Sub(tree, p).kids[i].entry;
      if !dir.children[found.value].FileNode? { return Failure(BadFileType), p, i, b; }
      WalkEmpty(tree, path[..|path| - 1]);
      r, b := WriteIn(dir, path[|path| - 1], found.value, src, |path| == 1, p);
    }

    // ----- Read -----

    /** The extents that `read` follows: the cached ones for a file in the root, else those on disk. */
    ghost function ReadExtents(p: seq<nat>, i: nat): seq<LinkPointer>
      requires PathOk(tree, p) && Sub(tree, p).Dir? && i < |Sub(tree, p).kids| && Sub(tree, p).kids[i].tree.File?
      requires p == [] ==> i < |root| && root[i].FileNode?
      reads this
    {
      if p == [] then root[i].links else Sub(tree, p).kids[i].tree.extents
    }

    /** `read`: as much of the file's bytes as there is room for. */
    method Read(path: seq<Name>, capacity: nat) returns (r: FsResult<seq<Byte>>, ghost p: seq<nat>, ghost i: nat)
      requires Valid()
      ensures Locate(tree, path).Failure? ==> r == Failure(Locate(tree, path).error)
      ensures Locate(tree, path).Success? && Locate(tree, path).value.1.None? ==> r == Failure(FileNotFound)
      ensures IsDirectory(tree, path) ==> r == Failure(BadFileType)
      ensures IsPlainFile(tree, path) ==> r.Success?
      ensures r.Success? ==> Locate(tree, path) == Success((p, Some(i))) && i < |Sub(tree, p).kids| && Sub(tree, p).kids[i].tree.File?
      ensures r.Success? && p == [] ==> i < |root| && root[i].FileNode?
      ensures r.Success? ==> Readable(ReadExtents(p, i), |v.D()|) && r.value == Cap(ReadAll(v.D(), ReadExtents(p, i)), capacity)
    {
      i := 0;
      var target;
      target, p := Open(path);
      if target.Failure? { return Failure(target.error), p, 0; }
      var (dir, found) := target.value;
      if found.None? { return Failure(FileNotFound), p, 0; }
      i := found.value;
      KindOfChild(v.D(), v.U(), v.Lo(), v.dataEnd, RootEntry(), tree, p, i);
      assert ToDentries(dir.children)[found.value] == Sub(tree, p).kids[i].entry;
      if !dir.children[found.value].FileNode? { return Failure(BadFileType), p, i; }
      FileExtents(dir, p, i);
      var data := ReadLinks(v, dir.children[found.value].links, capacity);
      r := Success(data);
    }

    /** The extents in memory are the ones `read` is to follow, and they can be read. */
    lemma {:induction false} FileExtents(dir: OpenDir, p: seq<nat>, i: nat)
      requires Valid() && At(dir, p) && From(dir, p) && i < |dir.children| && dir.children[i].FileNode?
      requires i < |Sub(tree, p).kids| && Sub(tree, p).kids[i].tree.File?
      ensures p == [] ==> i < |root| && root[i].FileNode?
      ensures dir.children[i].links == ReadExtents(p, i) && Readable(ReadExtents(p, i), |v.D()|)
    {
      if p != [] {
        var a, entry := Sub(tree, p), SubEntry(RootEntry(), tree, p);
        PartOfSound(v.D(), v.U(), v.Lo(), v.dataEnd, RootEntry(), tree, p);
        KidOfPart(v.D(), v.U(), v.Lo(), v.dataEnd, entry, a, i);
        LoadedExtents(v.D(), a.kids[i]);
        FileReadable(v.D(), a.kids[i], v.Lo(), v.dataEnd);
      }
    }
  }

  /** The cached extents name existing sectors. */
  ghost predicate CacheReadable(root: seq<Node>, n: nat)
  {
    forall k {:trigger root[k]} :: 0 <= k < |root| && root[k].FileNode? ==> Readable(root[k].links, n)
  }

  lemma LoadedRoot(d: seq<Sector>, used: set<nat>, lo: nat, hi: nat, root: DirEntry, t: Tree)
    requires Sound(d, used, lo, hi, root, t) && hi <= |d|
    ensures t.Dir? && Loadable(d, Entries(t.kids)) && CacheReadable(LoadedAll(d, Entries(t.kids)), |d|)
    ensures forall k {:trigger t.kids[k]} :: 0 <= k < |t.kids| && t.kids[k].tree.File? ==>
      LoadedAll(d, Entries(t.kids))[k].FileNode? && LoadedAll(d, Entries(t.kids))[k].links == t.kids[k].tree.extents
  {
    PartOfSound(d, used, lo, hi, root, t, []);
    RepLoadable(d, t.kids);
    forall k {:trigger t.kids[k]} | 0 <= k < |t.kids|
      ensures t.kids[k].tree.File? ==> Loaded(d, t.kids[k].entry).FileNode? && Loaded(d, t.kids[k].entry).links == t.kids[k].tree.extents
      ensures IsFile(t.kids[k].entry) ==> Readable(Loaded(d, t.kids[k].entry).links, |d|)
    {
      KidLoadable(d, t.kids[k]);
      KidOfPart(d, used, lo, hi, root, t, k);
      if t.kids[k].tree.File? {
        LoadedExtents(d, t.kids[k]);
        FileReadable(d, t.kids[k], lo, hi);
      }
    }
  }

  lemma {:induction false} LoadedExtents(d: seq<Sector>, k: Kid)
    requires Rep(d, k.entry, k.tree) && k.tree.File?
    ensures Resolvable(d, k.entry.link) && Loaded(d, k.entry).FileNode? && Loaded(d, k.entry).links == k.tree.extents
  {
    var e := k.entry;
    assert LinkChain(d, e.link, k.tree.ix);
    var ix :| LinkChain(d, e.link, ix) && ExtentsOf(d, e.link) == Directs(d, e.link, ix);
    ChainUnique(d, e.link, ix, k.tree.ix);
  }

  lemma {:induction false} FileReadable(d: seq<Sector>, k: Kid, lo: nat, hi: nat)
    requires Rep(d, k.entry, k.tree) && k.tree.File? && InData(k.tree, lo, hi) && hi <= |d|
    ensures Readable(k.tree.extents, |d|)
  {
    FileInData(k.tree, lo, hi);
    ExtentsReadable(k.tree.extents, |d|);
  }

  /** The path names a directory. */
  predicate IsDirectory(t: Tree, path: seq<Name>)
    requires t.Dir?
  {
    var l := Locate(t, path);
    l.Success? && l.value.1.Some? && Sub(t, l.value.0).kids[l.value.1.value].tree.Dir?
  }

  /** The path names a file. */
  predicate IsPlainFile(t: Tree, path: seq<Name>)
    requires t.Dir?
  {
    Locate(t, path).Success? && Locate(t, path).value.1.Some? && !IsDirectory(t, path)
  }

  /** One more entry needs at most one more block. */
  lemma OneMoreBlock(n: nat)
    ensures BlocksNeeded(n + 1) <= BlocksNeeded(n) + 1
  {
  }

  /** As many entries as before fit the blocks that held them. */
  lemma {:induction false} BlocksSuffice(d: seq<Sector>, e: DirEntry, t: Tree, n: nat)
    requires Rep(d, e, t) && t.Dir? && t.ds != [] && n <= |t.kids|
    ensures BlocksNeeded(n) <= |t.ds|
  {
    EntriesBound(d, t.ds);
  }

  lemma ShortenedPrefix(ds: seq<nat>, chain: seq<nat>, k: nat)
    requires Shortened(ds, chain, k) && k <= |ds|
    ensures chain <= ds
  {
  }

  lemma {:induction false} PartFits(d: seq<Sector>, used: set<nat>, lo: nat, hi: nat, root: DirEntry, t: Tree, p: seq<nat>)
    requires Sound(d, used, lo, hi, root, t) && PathOk(t, p) && Sub(t, p).Dir?
    ensures BlocksNeeded(|Sub(t, p).kids|) <= |Sub(t, p).ds|
  {
    SubRep(d, root, t, p);
    BlocksSuffice(d, SubEntry(root, t, p), Sub(t, p), |Sub(t, p).kids|);
  }

  /** A child's entry tells whether it is a file. */
  lemma {:induction false} KindOfChild(d: seq<Sector>, used: set<nat>, lo: nat, hi: nat, root: DirEntry, t: Tree, p: seq<nat>, i: nat)
    requires Sound(d, used, lo, hi, root, t) && PathOk(t, p) && Sub(t, p).Dir? && i < |Sub(t, p).kids|
    ensures FileEntry(Sub(t, p).kids[i].entry) <==> Sub(t, p).kids[i].tree.File?
    ensures PlainFlags(Sub(t, p).kids[i].entry) && Sub(t, p).kids[i].entry.flags != IS_SYMLINK
  {
    SubRep(d, root, t, p);
    KidLoadable(d, Sub(t, p).kids[i]);
  }

  /** The file holds `src`, sector by sector, in extents that are as long as they can be, and one extent needs no link block. */
  ghost predicate WrittenAs(d: seq<Sector>, t: Tree, src: seq<Sector>)
  {
    t.File? && |t.data| == |src| && Holds(d, t.data, src, |src|) && t.extents == Coalesced(t.data)
    && (|t.extents| == 1 ==> t.ix == [])
  }

  /**
   * `b` is `a` with another file as child `i`, of the same name and with the same sectors as far as both go, in no more
   * blocks than before.
   */
  ghost predicate FileChanged(a: Tree, b: Tree, i: nat)
  {
    a.Dir? && b.Dir? && |b.kids| == |a.kids| > i && b.kids == a.kids[i := b.kids[i]]
    && b.kids[i].tree.File? && b.kids[i].entry.name == a.kids[i].entry.name
    && a.kids[i].tree.File? && FrontKept(a.kids[i].tree.data, b.kids[i].tree.data) && b.ds <= a.ds
  }

  /** The cache stays in step when a child is exchanged. */
  lemma {:induction false} CacheExchanged(t: Tree, p: seq<nat>, b: Tree, root: seq<Node>, i: nat, node: Node)
    requires PathOk(t, p) && t.Dir? && Sub(t, p).Dir? && b.Dir? && |b.kids| == |Sub(t, p).kids| > i
    requires b.kids == Sub(t, p).kids[i := b.kids[i]] && ToDentry(node) == b.kids[i].entry
    requires ToDentries(root) == Entries(t.kids)
    ensures Replace(t, p, b).Dir? && (p == [] ==> |root| == |t.kids| > i)
    ensures ToDentries(if p == [] then root[i := node] else root) == Entries(Replace(t, p, b).kids)
  {
    if p != [] {
      RootEntriesKept(t, p, b);
    } else {
      ExchangedEntries(root, t.kids, i, node, b.kids[i]);
    }
  }

  lemma ExchangedEntries(children: seq<Node>, kids: seq<Kid>, i: nat, node: Node, k: Kid)
    requires ToDentries(children) == Entries(kids) && i < |kids| && ToDentry(node) == k.entry
    ensures |children| == |kids| && ToDentries(children[i := node]) == Entries(kids[i := k])
  {
    forall j | 0 <= j < |kids|
      ensures ToDentry(children[j]) == kids[j].entry
    {
      assert ToDentries(children)[j] == Entries(kids)[j];
    }
  }

  /** Writing the directory afterwards does not disturb the file's content. */
  lemma {:induction false} ContentAfterSync(d: seq<Sector>, e: seq<Sector>, f: seq<Sector>, b: Tree, i: nat, was: Tree, u: Tree, src: seq<Sector>)
    requires b.Dir? && Separate(b) && i < |b.kids| && b.kids[i].tree == u && u.File?
    requires SameOutside(e, f, b.ds) && Touched(d, e, was, u) && WrittenAs(e, u, src)
    ensures WrittenAs(f, u, src) && OnlyTouched(d, f, b.ds, was, u)
  {
    forall k {:trigger u.data[k]} | 0 <= k < |src|
      ensures u.data[k] < |f| && f[u.data[k]] == src[k]
    {
      assert Owns(u, u.data[k]);
    }
  }

  /** The cache stays in step when a child is removed. */
  lemma {:induction false} CacheRemoved(t: Tree, p: seq<nat>, b: Tree, root: seq<Node>, i: nat)
    requires PathOk(t, p) && t.Dir? && Sub(t, p).Dir? && i < |Sub(t, p).kids| && b.Dir? && b.kids == SwapRemove(Sub(t, p).kids, i)
    requires ToDentries(root) == Entries(t.kids)
    ensures Replace(t, p, b).Dir? && (p == [] ==> |root| == |t.kids| > i)
    ensures ToDentries(if p == [] then SwapRemove(root, i) else root) == Entries(Replace(t, p, b).kids)
  {
    if p != [] {
      RootEntriesKept(t, p, b);
    } else {
      SwapRemovedEntries(root, t.kids, i);
    }
  }

  /** A tree without sectors. */
  function NoTree(): Tree
  {
    File([], [], [])
  }

  /** The two disks agree outside the directory blocks `ds` and the sectors of `a` and `b`. */
  ghost predicate OnlyTouched(d: seq<Sector>, e: seq<Sector>, ds: seq<nat>, a: Tree, b: Tree)
  {
    |d| == |e| && forall x: nat {:trigger d[x]} {:trigger e[x]} :: x < |d| && x !in ds && !Owns(a, x) && !Owns(b, x) ==> d[x] == e[x]
  }

  lemma ClearedOnly(d: seq<Sector>, used: set<nat>, e: seq<Sector>, a: Tree, f: seq<Sector>, ds: seq<nat>)
    requires (exists after :: Cleared(d, used, e, after, Owned(a))) && SameOutside(e, f, ds)
    ensures OnlyTouched(d, f, ds, a, NoTree())
  {
    var after :| Cleared(d, used, e, after, Owned(a));
  }

  lemma {:induction false} KidOfPart(d: seq<Sector>, used: set<nat>, lo: nat, hi: nat, entry: DirEntry, a: Tree, i: nat)
    requires PartOk(d, used, lo, hi, entry, a) && i < |a.kids|
    ensures Rep(d, a.kids[i].entry, a.kids[i].tree) && Separate(a.kids[i].tree) && InData(a.kids[i].tree, lo, hi)
    ensures forall x: nat {:trigger Owns(a.kids[i].tree, x)} :: Owns(a.kids[i].tree, x) ==> x in used
  {
    forall x: nat {:trigger Owns(a.kids[i].tree, x)} | Owns(a.kids[i].tree, x)
      ensures x in used
    {
      KidOwned(a.ds, a.kids, i, x);
    }
  }

  /** A child that is held in memory as a file is one. */
  lemma {:induction false} FilePart(d: seq<Sector>, used: set<nat>, lo: nat, hi: nat, root: DirEntry, t: Tree, p: seq<nat>, children: seq<Node>, i: nat)
    requires Sound(d, used, lo, hi, root, t) && PathOk(t, p) && Sub(t, p).Dir? && ToDentries(children) == Entries(Sub(t, p).kids)
    requires i < |children| && children[i].FileNode?
    ensures i < |Sub(t, p).kids| && PartOk(d, used, lo, hi, SubEntry(root, t, p), Sub(t, p))
    ensures var k := Sub(t, p).kids[i]; Rep(d, k.entry, k.tree) && FileOk(k.tree, used, lo, hi) && ToDentry(children[i]) == k.entry
    ensures !IsEmptyName(Sub(t, p).kids[i].entry.name)
  {
    PartOfSound(d, used, lo, hi, root, t, p);
    assert ToDentries(children)[i] == Sub(t, p).kids[i].entry;
    KidOfPart(d, used, lo, hi, SubEntry(root, t, p), Sub(t, p), i);
  }

  lemma AddedEntries(children: seq<Node>, kids: seq<Kid>, node: Node, k: Kid)
    requires ToDentries(children) == Entries(kids) && ToDentry(node) == k.entry
    ensures ToDentries(children + [node]) == Entries(kids + [k])
  {
    assert ToDentries(children + [node]) == ToDentries(children) + [k.entry];
    assert Entries(kids + [k]) == Entries(kids) + [k.entry];
  }

  lemma SwapRemovedEntries(children: seq<Node>, kids: seq<Kid>, i: nat)
    requires ToDentries(children) == Entries(kids) && i < |kids|
    ensures |children| == |kids| && ToDentries(SwapRemove(children, i)) == Entries(SwapRemove(kids, i))
  {
    forall j | 0 <= j < |kids|
      ensures ToDentry(children[j]) == kids[j].entry
    {
      assert ToDentries(children)[j] == Entries(kids)[j];
    }
  }

  lemma {:induction false} WalkEmpty(t: Tree, comps: seq<Name>)
    requires t.Dir? && Walk(t, comps).Success?
    ensures comps == [] <==> Walk(t, comps).value == []
  {
  }

  /** The cache has one more entry; a new file's has no extents. */
  predicate CacheGrew(was: seq<Node>, now: seq<Node>)
  {
    |now| == |was| + 1 && now[..|was|] == was && (now[|was|].FileNode? ==> now[|was|].links == [])
  }

  /** The cached entry of a file keeps the extents it was cached with. */
  predicate LinksKept(was: seq<Node>, now: seq<Node>, i: nat)
  {
    |now| == |was| && i < |was| && was[i].FileNode? && now == was[i := now[i]] && now[i].FileNode? && now[i].links == was[i].links
  }

  lemma CacheGrewOk(root: seq<Node>, n: nat, node: Node)
    requires (node.FileNode? ==> node.links == []) && CacheReadable(root, n)
    ensures CacheGrew(root, root + [node]) && CacheReadable(root + [node], n)
  {
  }

  lemma CacheShrunkOk(root: seq<Node>, n: nat, i: nat)
    requires i < |root| && CacheReadable(root, n)
    ensures CacheReadable(SwapRemove(root, i), n)
  {
  }

  lemma LinksKeptOk(root: seq<Node>, n: nat, i: nat, node: Node)
    requires i < |root| && root[i].FileNode? && node.FileNode? && node.links == root[i].links && CacheReadable(root, n)
    ensures LinksKept(root, root[i := node], i) && CacheReadable(root[i := node], n)
  {
  }

  /** The child `create` adds. */
  function NewKid(name: Name, isDir: bool, lba: nat): Kid
  {
    if isDir then Kid(DirEntry(FromStr(name), IS_DIR, LinkPointer(lba, 512)), Dir([lba], []))
    else Kid(DirEntry(FromStr(name), 0, LinkPointer(lba, 1)), File([], [lba], [LinkPointer(lba, 1)]))
  }

  /** The sector picked was taken, and it still holds what it held. */
  ghost predicate MadeAt(d: seq<Sector>, e: seq<Sector>, pick: nat, lba: nat)
  {
    lba == pick && 0 < lba < |d| <= MAX_SECTORS_U64 && |d| == |e| && e[lba] == d[lba]
  }

  lemma {:induction false} NewKidOk(d: seq<Sector>, name: Name, isDir: bool, lba: nat)
    requires 0 < lba < |d| <= MAX_SECTORS_U64 && Storable(name)
    ensures var k := NewKid(name, isDir, lba); Separate(k.tree) && LinkFits(k.entry.link) && !IsEmptyName(k.entry.name)
    ensures var k := NewKid(name, isDir, lba); Rep(d, k.entry, k.tree) <==> (isDir ==> EmptyBlock(d[lba]))
    ensures forall x: nat {:trigger Owns(NewKid(name, isDir, lba).tree, x)} :: Owns(NewKid(name, isDir, lba).tree, x) <==> x == lba
  {
    NameRoundTrip(name);
    if isDir { EmptyIff(d, FromStr(name), lba); } else { NewFile(d, FromStr(name), lba); }
  }

  /** A change below the root leaves the root's entries as they are. */
  lemma {:induction false} RootEntriesKept(t: Tree, p: seq<nat>, b: Tree)
    requires PathOk(t, p) && p != [] && t.Dir?
    ensures Replace(t, p, b).Dir? && Entries(Replace(t, p, b).kids) == Entries(t.kids)
  {
    var next := Replace(t, p, b);
    forall i | 0 <= i < |t.kids|
      ensures Entries(next.kids)[i] == Entries(t.kids)[i]
    {
    }
  }

  /** The cache stays in step when a child is added. */
  lemma {:induction false} CachePushed(t: Tree, p: seq<nat>, b: Tree, root: seq<Node>, node: Node, k: Kid)
    requires PathOk(t, p) && t.Dir? && Sub(t, p).Dir? && b.Dir? && b.kids == Sub(t, p).kids + [k] && ToDentry(node) == k.entry
    requires ToDentries(root) == Entries(t.kids)
    ensures Replace(t, p, b).Dir?
    ensures ToDentries(if p == [] then root + [node] else root) == Entries(Replace(t, p, b).kids)
  {
    if p != [] {
      RootEntriesKept(t, p, b);
    } else {
      AddedEntries(root, t.kids, node, k);
    }
  }

  /** A file just created owns one sector. */
  lemma {:induction false} NewFile(d: seq<Sector>, name: Filename, lba: nat)
    requires 0 < lba < |d| <= MAX_SECTORS_U64
    ensures Rep(d, DirEntry(name, 0, LinkPointer(lba, 1)), File([], [lba], [LinkPointer(lba, 1)]))
    ensures Separate(File([], [lba], [LinkPointer(lba, 1)]))
  {
    var p := LinkPointer(lba, 1);
    assert Directs(d, p, []) == [p];
    assert ExpandAll([p]) == Expand(p) + ExpandAll([]);
    SpanOne(lba);
    assert DivCeil(1, 512) == 1;
  }

  /** A directory of one sector is empty exactly if that sector reads as an empty directory block. */
  lemma {:induction false} EmptyIff(d: seq<Sector>, name: Filename, lba: nat)
    requires 0 < lba < |d| <= MAX_SECTORS_U64
    ensures Rep(d, DirEntry(name, IS_DIR, LinkPointer(lba, 512)), Dir([lba], [])) <==> EmptyBlock(d[lba])
    ensures Separate(Dir([lba], []))
  {
    OneBlock(d, DirEntry(name, IS_DIR, LinkPointer(lba, 512)), lba, [lba]);
  }

  lemma {:induction false} OneBlock(d: seq<Sector>, e: DirEntry, lba: nat, ds: seq<nat>)
    requires 0 < lba < |d| && ds == [lba] && DirectoryEntry(e) && LinkFits(e.link) && e.link.start == lba && Direct(e.link)
    ensures Rep(d, e, Dir(ds, [])) <==> EmptyBlock(d[lba])
  {
    var s, rest := d[lba], ds[1..];
    assert EntriesAt(d, ds) == Named(DirOf(s).entries) + EntriesAt(d, rest);
    assert EntriesAt(d, rest) == [];
    assert DirChain(d, e.link, ds) == DirChain(d, DirOf(s).next, rest);
    assert Entries([]) == [];
  }
}
