/** What a path of names leads to, and what an operation elsewhere leaves alone. */
module FsPaths {
  import opened Basics
  import opened Disk
  import opened FileChain
  import opened FsChange
  import opened FsCodec
  import opened FsTree
  import opened LemonFs
  import opened SectorView

  /** The file or directory a path leads to. */
  function Lookup(t: Tree, path: seq<Name>): Option<Tree>
    decreases |path|
  {
    if path == [] then Some(t)
    else if t.File? then None
    else match Find(Entries(t.kids), path[0], 0)
      case None => None
      case Some(i) => Lookup(t.kids[i].tree, path[1..])
  }

  /** The path leads to a file. */
  predicate LeadsTo(t: Tree, path: seq<Name>, f: Tree)
  {
    Lookup(t, path) == Some(f) && f.File?
  }

  /** A path leads through the directory that its front leads to. */
  lemma {:induction false} LookupThrough(t: Tree, comps: seq<Name>, p: seq<nat>, path: seq<Name>)
    requires t.Dir? && Walk(t, comps) == Success(p) && comps <= path
    ensures Lookup(t, path) == Lookup(Sub(t, p), path[|comps|..])
    decreases |comps|
  {
    if comps != [] {
      var i := Find(Entries(t.kids), comps[0], 0).value;
      var rest := Walk(t.kids[i].tree, comps[1..]).value;
      assert p == [i] + rest && p[1..] == rest && path[1..][|comps| - 1..] == path[|comps|..];
      LookupThrough(t.kids[i].tree, comps[1..], rest, path[1..]);
    }
  }

  /** Locating a child and looking its path up agree. */
  lemma {:induction false} LookupLocated(t: Tree, path: seq<Name>)
    requires t.Dir? && path != []
    ensures Locate(t, path).Success? ==> var (p, found) := Locate(t, path).value;
      Lookup(t, path) == if found.None? then None else Some(Sub(t, p).kids[found.value].tree)
  {
    var comps, name := path[..|path| - 1], path[|path| - 1];
    if Locate(t, path).Success? {
      var p := Walk(t, comps).value;
      LookupThrough(t, comps, p, path);
      assert path[|comps|..] == [name] && path[|comps|..][1..] == [];
    }
  }

  lemma {:induction false} LookupOwned(t: Tree, path: seq<Name>, f: Tree, x: nat)
    requires Lookup(t, path) == Some(f) && Owns(f, x)
    ensures Owns(t, x)
    decreases |path|
  {
    if path != [] {
      var i := Find(Entries(t.kids), path[0], 0).value;
      LookupOwned(t.kids[i].tree, path[1..], f, x);
    }
  }

  // ----- Elsewhere in the tree -----

  /** A path that does not lead through the changed directory leads to the same file. */
  lemma {:induction false} Elsewhere(t: Tree, comps: seq<Name>, p: seq<nat>, b: Tree, path: seq<Name>, f: Tree)
    requires t.Dir? && Walk(t, comps) == Success(p) && b.Dir? && LeadsTo(t, path, f) && !(comps <= path)
    ensures Replace(t, p, b).Dir? && LeadsTo(Replace(t, p, b), path, f)
    decreases |comps|
  {
    var i, j := Find(Entries(t.kids), comps[0], 0).value, Find(Entries(t.kids), path[0], 0).value;
    var rest := Walk(t.kids[i].tree, comps[1..]).value;
    assert p == [i] + rest && p[1..] == rest;
    RootEntriesKept(t, p, b);
    if comps[0] == path[0] {
      assert comps[1..] <= path[1..] ==> comps <= path;
      Elsewhere(t.kids[i].tree, comps[1..], rest, b, path[1..], f);
    }
  }

  /** Such a file shares no sector with that directory. */
  lemma {:induction false} ElsewhereApart(t: Tree, comps: seq<Name>, p: seq<nat>, path: seq<Name>, f: Tree, x: nat)
    requires t.Dir? && Separate(t) && Walk(t, comps) == Success(p) && LeadsTo(t, path, f) && !(comps <= path) && Owns(f, x)
    ensures !Owns(Sub(t, p), x)
    decreases |comps|
  {
    var i, j := Find(Entries(t.kids), comps[0], 0).value, Find(Entries(t.kids), path[0], 0).value;
    var rest := Walk(t.kids[i].tree, comps[1..]).value;
    assert p == [i] + rest && p[1..] == rest;
    if comps[0] == path[0] {
      assert comps[1..] <= path[1..] ==> comps <= path;
      ElsewhereApart(t.kids[i].tree, comps[1..], rest, path[1..], f, x);
    } else if Owns(Sub(t, p), x) {
      SubOwned(t.kids[i].tree, rest, x);
      LookupOwned(t.kids[j].tree, path[1..], f, x);
    }
  }

  /** After a local change of a directory, files that are not below it are where they were and as they were. */
  lemma {:induction false} ElsewhereKept(d: seq<Sector>, e: seq<Sector>, t: Tree, comps: seq<Name>, p: seq<nat>, b: Tree, path: seq<Name>, f: Tree)
    requires t.Dir? && Walk(t, comps) == Success(p) && b.Dir? && Separate(t) && Separate(Replace(t, p, b))
    requires Touched(d, e, Sub(t, p), b) && LeadsTo(t, path, f) && !(comps <= path)
    ensures Replace(t, p, b).Dir? && LeadsTo(Replace(t, p, b), path, f) && Agree(d, e, f)
  {
    var u := Replace(t, p, b);
    Elsewhere(t, comps, p, b, path, f);
    WalkSame(t, comps, p, b);
    ReplacedSub(t, p, b);
    forall x: nat {:trigger Owns(f, x)} | Owns(f, x) && x < |d|
      ensures d[x] == e[x]
    {
      ElsewhereApart(t, comps, p, path, f, x);
      ElsewhereApart(u, comps, p, path, f, x);
    }
  }

  lemma {:induction false} ReplacedSub(t: Tree, p: seq<nat>, b: Tree)
    requires PathOk(t, p)
    ensures PathOk(Replace(t, p, b), p) && Sub(Replace(t, p, b), p) == b
    decreases |p|
  {
    if p != [] {
      ReplacedSub(t.kids[p[0]].tree, p[1..], b);
    }
  }

  lemma {:induction false} WalkSame(t: Tree, comps: seq<Name>, p: seq<nat>, b: Tree)
    requires t.Dir? && Walk(t, comps) == Success(p) && b.Dir?
    ensures Replace(t, p, b).Dir? && Walk(Replace(t, p, b), comps) == Success(p)
    decreases |comps|
  {
    if comps != [] {
      var i := Find(Entries(t.kids), comps[0], 0).value;
      var rest := Walk(t.kids[i].tree, comps[1..]).value;
      assert p == [i] + rest && p[1..] == rest;
      WalkSame(t.kids[i].tree, comps[1..], rest, b);
      RootEntriesKept(t, p, b);
    }
  }

  /** Two paths to files lead to files that share no sector. */
  lemma {:induction false} PathsApart(t: Tree, path: seq<Name>, f: Tree, other: seq<Name>, g: Tree, x: nat)
    requires Separate(t) && LeadsTo(t, path, f) && LeadsTo(t, other, g) && path != other && Owns(f, x)
    ensures !Owns(g, x)
    decreases |path|
  {
    if path != [] && other != [] {
      var i, j := Find(Entries(t.kids), path[0], 0).value, Find(Entries(t.kids), other[0], 0).value;
      assert path == [path[0]] + path[1..] && other == [other[0]] + other[1..];
      if path[0] == other[0] {
        PathsApart(t.kids[i].tree, path[1..], f, other[1..], g, x);
      } else if Owns(g, x) {
        LookupOwned(t.kids[i].tree, path[1..], f, x);
        LookupOwned(t.kids[j].tree, other[1..], g, x);
      }
    }
  }

  // ----- In the directory itself -----

  /** Child `j` of `a` is child `k` of `b`, under the same name, and none of its sectors was touched. */
  ghost predicate SameChild(d: seq<Sector>, e: seq<Sector>, a: Tree, b: Tree, name: Name, j: nat, k: nat)
  {
    a.Dir? && b.Dir? && Find(Entries(a.kids), name, 0) == Some(j) && Find(Entries(b.kids), name, 0) == Some(k)
    && a.kids[j].tree == b.kids[k].tree && Agree(d, e, a.kids[j].tree)
  }

  /** Files below such a child are where they were and as they were. */
  lemma {:induction false} BelowKept(d: seq<Sector>, e: seq<Sector>, t: Tree, comps: seq<Name>, p: seq<nat>, b: Tree, path: seq<Name>, f: Tree, j: nat, k: nat)
    requires t.Dir? && Walk(t, comps) == Success(p) && LeadsTo(t, path, f) && comps < path
    requires SameChild(d, e, Sub(t, p), b, path[|comps|], j, k)
    ensures Replace(t, p, b).Dir? && LeadsTo(Replace(t, p, b), path, f) && Agree(d, e, f)
  {
    var rest := path[|comps|..];
    LookupThrough(t, comps, p, path);
    WalkSame(t, comps, p, b);
    ReplacedSub(t, p, b);
    LookupThrough(Replace(t, p, b), comps, p, path);
    forall x: nat {:trigger Owns(f, x)} | Owns(f, x) && x < |d|
      ensures d[x] == e[x]
    {
      LookupOwned(Sub(t, p).kids[j].tree, rest[1..], f, x);
    }
  }

  /** A path leads below the directory that its front leads to, if it leads to a file. */
  lemma {:induction false} Beyond(t: Tree, comps: seq<Name>, p: seq<nat>, path: seq<Name>, f: Tree)
    requires t.Dir? && Walk(t, comps) == Success(p) && LeadsTo(t, path, f) && comps <= path
    ensures comps < path && Find(Entries(Sub(t, p).kids), path[|comps|], 0).Some?
  {
    LookupThrough(t, comps, p, path);
    assert |path[|comps|..]| == |path| - |comps|;
  }

  /** Looking a name up depends on the names alone. */
  lemma {:induction false} FindSame(a: seq<DirEntry>, b: seq<DirEntry>, name: Name, from: nat)
    requires |a| == |b| && from <= |a| && forall k {:trigger a[k]} {:trigger b[k]} :: 0 <= k < |a| ==> a[k].name == b[k].name
    ensures Find(a, name, from) == Find(b, name, from)
    decreases |a| - from
  {
    if from < |a| {
      assert a[from].name == b[from].name;
      FindSame(a, b, name, from + 1);
    }
  }

  /** What was found before an entry was appended is found after it. */
  lemma {:induction false} FindFront(a: seq<DirEntry>, b: seq<DirEntry>, name: Name, from: nat)
    requires |a| <= |b| && b[..|a|] == a && from <= |a| && Find(a, name, from).Some?
    ensures Find(b, name, from) == Find(a, name, from)
    decreases |a| - from
  {
    if from < |a| {
      assert b[from] == b[..|a|][from];
      if ToStr(a[from].name) != name { FindFront(a, b, name, from + 1); }
    }
  }

  /** What was not found before an entry of the name was appended is found there. */
  lemma {:induction false} FindAdded(a: seq<DirEntry>, b: seq<DirEntry>, name: Name, from: nat)
    requires |b| == |a| + 1 && b[..|a|] == a && ToStr(b[|a|].name) == name && from <= |a| && Find(a, name, from).None?
    ensures Find(b, name, from) == Some(|a|)
    decreases |a| - from
  {
    if from < |a| {
      assert b[from] == b[..|a|][from];
      FindAdded(a, b, name, from + 1);
    }
  }

  // ----- Names -----

  /** No two children of a directory have the same name. */
  predicate Distinguished(kids: seq<Kid>)
  {
    forall i, j :: 0 <= i < |kids| && 0 <= j < |kids| && ToStr(kids[i].entry.name) == ToStr(kids[j].entry.name) ==> i == j
  }

  predicate Unique(t: Tree)
  {
    t.Dir? ==> Distinguished(t.kids) && forall i :: 0 <= i < |t.kids| ==> Unique(t.kids[i].tree)
  }

  lemma FindUnique(kids: seq<Kid>, i: nat)
    requires Distinguished(kids) && i < |kids|
    ensures Find(Entries(kids), ToStr(kids[i].entry.name), 0) == Some(i)
  {
    var r := Find(Entries(kids), ToStr(kids[i].entry.name), 0);
    assert Entries(kids)[i] == kids[i].entry;
    assert r.Some? ==> Entries(kids)[r.value] == kids[r.value].entry;
  }

  lemma {:induction false} UniqueSub(t: Tree, p: seq<nat>)
    requires Unique(t) && PathOk(t, p)
    ensures Unique(Sub(t, p))
    decreases |p|
  {
    if p != [] { UniqueSub(t.kids[p[0]].tree, p[1..]); }
  }

  lemma {:induction false} UniqueReplace(t: Tree, p: seq<nat>, b: Tree)
    requires Unique(t) && PathOk(t, p) && Unique(b)
    ensures Unique(Replace(t, p, b))
    decreases |p|
  {
    if p != [] {
      UniqueReplace(t.kids[p[0]].tree, p[1..], b);
      var u := Replace(t, p, b);
      assert forall i :: 0 <= i < |t.kids| ==> u.kids[i].entry == t.kids[i].entry;
    }
  }

  // ----- What the operations keep -----

  /** The path of the child of this name in the directory that `comps` leads to. */
  function ChildPath(comps: seq<Name>, name: Name): seq<Name> { comps + [name] }

  lemma {:induction false} AddedChild(d: seq<Sector>, e: seq<Sector>, a: Tree, b: Tree, kid: Kid, name: Name, j: nat)
    requires a.Dir? && b.Dir? && b.kids == a.kids + [kid] && Separate(b) && SameOutside(d, e, b.ds)
    requires Find(Entries(a.kids), name, 0) == Some(j)
    ensures SameChild(d, e, a, b, name, j, j)
  {
    assert Entries(b.kids)[..|a.kids|] == Entries(a.kids);
    FindFront(Entries(a.kids), Entries(b.kids), name, 0);
    assert b.kids[j] == a.kids[j];
  }

  lemma {:induction false} ChangedChild(d: seq<Sector>, e: seq<Sector>, a: Tree, b: Tree, i: nat, name: Name, j: nat)
    requires FileChanged(a, b, i) && Separate(a) && Separate(b) && OnlyTouched(d, e, b.ds, a.kids[i].tree, b.kids[i].tree)
    requires Find(Entries(a.kids), name, 0) == Some(j) && j != i
    ensures SameChild(d, e, a, b, name, j, j)
  {
    FindSame(Entries(a.kids), Entries(b.kids), name, 0);
    assert b.kids[j] == a.kids[j];
  }

  lemma {:induction false} RemovedChild(d: seq<Sector>, e: seq<Sector>, a: Tree, b: Tree, i: nat, name: Name, j: nat)
    requires a.Dir? && b.Dir? && i < |a.kids| && b.kids == SwapRemove(a.kids, i) && Separate(a) && Separate(b)
    requires Distinguished(a.kids) && OnlyTouched(d, e, b.ds, a.kids[i].tree, NoTree())
    requires Find(Entries(a.kids), name, 0) == Some(j) && j != i
    ensures SameChild(d, e, a, b, name, j, if j == |a.kids| - 1 then i else j)
  {
    var k := if j == |a.kids| - 1 then i else j;
    assert b.kids[k] == a.kids[j];
    RemovedDistinguished(a.kids, i);
    FindUnique(b.kids, k);
  }

  lemma RemovedDistinguished(kids: seq<Kid>, i: nat)
    requires Distinguished(kids) && i < |kids|
    ensures Distinguished(SwapRemove(kids, i))
  {
    var next := SwapRemove(kids, i);
    forall j, k | 0 <= j < |next| && 0 <= k < |next| && ToStr(next[j].entry.name) == ToStr(next[k].entry.name)
      ensures j == k
    {
      assert next[j] == kids[Origin(|kids|, i, j)] && next[k] == kids[Origin(|kids|, i, k)];
    }
  }

  /** Creating a child keeps every file where it is and as it is. */
  lemma {:induction false} CreateKeeps(d: seq<Sector>, e: seq<Sector>, t: Tree, comps: seq<Name>, p: seq<nat>, b: Tree, kid: Kid, path: seq<Name>, f: Tree)
    requires t.Dir? && Walk(t, comps) == Success(p) && b.Dir? && b.kids == Sub(t, p).kids + [kid]
    requires Separate(t) && Separate(b) && Separate(Replace(t, p, b))
    requires Touched(d, e, Sub(t, p), b) && SameOutside(d, e, b.ds) && LeadsTo(t, path, f)
    ensures Replace(t, p, b).Dir? && LeadsTo(Replace(t, p, b), path, f) && Agree(d, e, f)
  {
    if comps <= path {
      Beyond(t, comps, p, path, f);
      var name := path[|comps|];
      var j := Find(Entries(Sub(t, p).kids), name, 0).value;
      AddedChild(d, e, Sub(t, p), b, kid, name, j);
      BelowKept(d, e, t, comps, p, b, path, f, j, j);
    } else {
      ElsewhereKept(d, e, t, comps, p, b, path, f);
    }
  }

  /** Writing a file keeps every other file where it is and as it is. */
  lemma {:induction false} WriteKeeps(d: seq<Sector>, e: seq<Sector>, t: Tree, comps: seq<Name>, p: seq<nat>, b: Tree, i: nat, name: Name, path: seq<Name>, f: Tree)
    requires t.Dir? && Walk(t, comps) == Success(p) && FileChanged(Sub(t, p), b, i) && Find(Entries(Sub(t, p).kids), name, 0) == Some(i)
    requires Separate(t) && Separate(Sub(t, p)) && Separate(b) && Separate(Replace(t, p, b))
    requires Touched(d, e, Sub(t, p), b) && OnlyTouched(d, e, b.ds, Sub(t, p).kids[i].tree, b.kids[i].tree)
    requires LeadsTo(t, path, f) && path != ChildPath(comps, name)
    ensures Replace(t, p, b).Dir? && LeadsTo(Replace(t, p, b), path, f) && Agree(d, e, f)
  {
    if comps <= path {
      Beyond(t, comps, p, path, f);
      var next := path[|comps|];
      var j := Find(Entries(Sub(t, p).kids), next, 0).value;
      LookupThrough(t, comps, p, path);
      assert path == comps + path[|comps|..] && path[|comps|..] == [next] + path[|comps|..][1..];
      ChangedChild(d, e, Sub(t, p), b, i, next, j);
      BelowKept(d, e, t, comps, p, b, path, f, j, j);
    } else {
      ElsewhereKept(d, e, t, comps, p, b, path, f);
    }
  }

  lemma NotThisChild(comps: seq<Name>, name: Name, path: seq<Name>)
    requires comps < path && !(ChildPath(comps, name) <= path)
    ensures path[|comps|] != name
  {
    assert path[..|comps| + 1] == ChildPath(comps, path[|comps|]);
  }

  /** Deleting a child keeps every file that is not it or below it where it is and as it is. */
  lemma {:induction false} DeleteKeeps(d: seq<Sector>, e: seq<Sector>, t: Tree, comps: seq<Name>, p: seq<nat>, b: Tree, i: nat, name: Name, path: seq<Name>, f: Tree)
    requires t.Dir? && Walk(t, comps) == Success(p) && b.Dir? && Find(Entries(Sub(t, p).kids), name, 0) == Some(i)
    requires b.kids == SwapRemove(Sub(t, p).kids, i) && Unique(t)
    requires Separate(t) && Separate(Sub(t, p)) && Separate(b) && Separate(Replace(t, p, b))
    requires Touched(d, e, Sub(t, p), b) && OnlyTouched(d, e, b.ds, Sub(t, p).kids[i].tree, NoTree())
    requires LeadsTo(t, path, f) && !(ChildPath(comps, name) <= path)
    ensures Replace(t, p, b).Dir? && LeadsTo(Replace(t, p, b), path, f) && Agree(d, e, f)
  {
    if comps <= path {
      Beyond(t, comps, p, path, f);
      var next := path[|comps|];
      var j := Find(Entries(Sub(t, p).kids), next, 0).value;
      UniqueSub(t, p);
      NotThisChild(comps, name, path);
      RemovedChild(d, e, Sub(t, p), b, i, next, j);
      var k := if j == |Sub(t, p).kids| - 1 then i else j;
      BelowKept(d, e, t, comps, p, b, path, f, j, k);
    } else {
      ElsewhereKept(d, e, t, comps, p, b, path, f);
    }
  }

  /** The operations keep names apart. */
  lemma {:induction false} UniqueAdded(a: Tree, b: Tree, name: Name, isDir: bool, lba: nat)
    requires a.Dir? && b.Dir? && Unique(a) && b.kids == a.kids + [NewKid(name, isDir, lba)] && Storable(name)
    requires Find(Entries(a.kids), name, 0).None?
    ensures Unique(b)
  {
    NameRoundTrip(name);
    forall i | 0 <= i < |a.kids| ensures ToStr(a.kids[i].entry.name) != name { assert Entries(a.kids)[i] == a.kids[i].entry; }
  }

  lemma {:induction false} UniqueChanged(a: Tree, b: Tree, i: nat)
    requires Unique(a) && FileChanged(a, b, i)
    ensures Unique(b)
  {
    assert forall k :: 0 <= k < |a.kids| ==> b.kids[k].entry.name == a.kids[k].entry.name;
  }

  lemma {:induction false} UniqueRemoved(a: Tree, b: Tree, i: nat)
    requires a.Dir? && b.Dir? && Unique(a) && i < |a.kids| && b.kids == SwapRemove(a.kids, i)
    ensures Unique(b)
  {
    RemovedDistinguished(a.kids, i);
  }
}
