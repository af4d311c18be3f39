/** Reading a file after writing it: what the cached extents of files in the root directory return. */
module FsReadBack {
  import opened Basics
  import opened Bits
  import opened Directory
  import opened Disk
  import opened FileChain
  import opened FsCodec
  import opened FsPaths
  import opened FsRead
  import opened FsSession
  import opened FsTree
  import opened FsWrite
  import opened LemonFs
  import opened SectorView
  import opened Volume

  /** A path leads to the same place after the file there was written. */
  lemma {:induction false} LocateSame(t: Tree, path: seq<Name>, p: seq<nat>, i: nat, b: Tree)
    requires t.Dir? && Locate(t, path) == Success((p, Some(i))) && FileChanged(Sub(t, p), b, i)
    ensures Replace(t, p, b).Dir? && Locate(Replace(t, p, b), path) == Success((p, Some(i)))
    ensures PathOk(Replace(t, p, b), p) && Sub(Replace(t, p, b), p) == b
  {
    WalkSame(t, path[..|path| - 1], p, b);
    ReplacedSub(t, p, b);
    FindSame(Entries(Sub(t, p).kids), Entries(b.kids), path[|path| - 1], 0);
  }

  /** Below the root, reading a file returns what was last written to it. */
  method WriteThenRead(fs: LemonFs, path: seq<Name>, src: seq<Sector>, capacity: nat) returns (r: FsResult<seq<Byte>>)
    requires fs.Valid() && |path| > 1 && 0 < |src| < MAX_SECTORS_U64 && Sized(src)
    modifies fs, fs.v.disk, fs.v.bitmap
    ensures IsPlainFile(old(fs.tree), path) ==> r.Success? || (r == Failure(NoSpace) && fs.v.Exhausted())
    ensures r.Success? ==> r.value == Cap(SourceBytes(src), capacity)
  {
    var written;
    ghost var p, i, b, q, j;
    written, p, i, b := fs.Write(path, src);
    if written.Failure? { return Failure(written.error); }
    LocateSame(old(fs.tree), path, p, i, b);
    WalkEmpty(old(fs.tree), path[..|path| - 1]);
    r, q, j := fs.Read(path, capacity);
    if r.Success? {
      DataPositive(fs.v.D(), fs.v.U(), fs.v.Lo(), fs.v.dataEnd, fs.RootEntry(), fs.tree, p, i);
      ReadBack(fs.v.D(), b.kids[i].tree.data, src);
    }
  }

  // ----- Extents cached before a write -----

  /** Every extent but the last consists of whole sectors, as all that the file system makes do. */
  predicate Regular(links: seq<LinkPointer>)
  {
    forall k {:trigger links[k]} :: 0 <= k < |links| - 1 ==> Whole(links[k])
  }

  /** Regular extents read as the first bytes of their sectors. */
  lemma {:induction false} RegularBytes(d: seq<Sector>, es: seq<LinkPointer>)
    requires Sized(d) && Readable(es, |d|) && Regular(es)
    ensures Exist(ExpandAll(es), |d|) && TotalSize(es) <= 512 * |ExpandAll(es)| < TotalSize(es) + 512
    ensures ReadAll(d, es) == Joined(d, ExpandAll(es))[..TotalSize(es)]
    decreases |es|
  {
    if es != [] {
      var own, rest := Expand(es[0]), es[1..];
      forall i {:trigger rest[i]} | 0 <= i < |rest|
        ensures rest[i] == es[i + 1]
      {
      }
      RegularBytes(d, rest);
      JoinedConcat(d, own, ExpandAll(rest));
      if rest != [] { WholeExtent(d, es[0]); }
    }
  }

  /** The sectors named by the cached extents are those of the file, as far as both go. */
  ghost predicate InStep(links: seq<LinkPointer>, data: seq<nat>)
  {
    Regular(links) && FrontKept(ExpandAll(links), data)
  }

  function Min(a: nat, b: nat): nat { if a < b then a else b }

  lemma {:induction false} SourceCut(src: seq<Sector>, k: nat)
    requires Sized(src) && k <= |src|
    ensures |SourceBytes(src)| == 512 * |src| && SourceBytes(src) == SourceBytes(src[..k]) + SourceBytes(src[k..])
    ensures |SourceBytes(src[..k])| == 512 * k && |SourceBytes(src[k..])| == 512 * (|src| - k)
    decreases |src|
  {
    if src != [] {
      if k == 0 {
        SourceCut(src[1..], 0);
        assert src[1..][0..] == src[1..] && src[0..] == src;
      } else {
        SourceCut(src[1..], k - 1);
        assert src[1..][..k - 1] == src[..k][1..] && src[1..][k - 1..] == src[k..];
      }
    }
  }

  /** A sequence and a longer one that begins with it look alike only through a window that ends before they differ. */
  lemma PrefixCap(x: seq<Byte>, y: seq<Byte>, capacity: nat)
    requires x <= y
    ensures Cap(x, capacity) == Cap(y, capacity) <==> |x| == |y| || capacity <= |x|
  {
    if |x| < |y| && capacity > |x| {
      assert |Cap(x, capacity)| == |x| < |Cap(y, capacity)|;
    }
  }

  /** Cached extents in step with a file return the file's bytes as far as both go. */
  lemma {:induction false} CachedPrefix(d: seq<Sector>, links: seq<LinkPointer>, data: seq<nat>, src: seq<Sector>)
    requires Sized(d) && Readable(links, |d|) && InStep(links, data)
    requires |data| == |src| && Holds(d, data, src, |src|) && Sized(src)
    ensures if |ExpandAll(links)| <= |src| then ReadAll(d, links) <= SourceBytes(src) else SourceBytes(src) <= ReadAll(d, links)
    ensures |ExpandAll(links)| > |src| ==> TotalSize(links) > 512 * |src|
  {
    RegularBytes(d, links);
    var named, t := ExpandAll(links), TotalSize(links);
    if |named| <= |src| {
      FrontBytes(d, named, data, src, |named|);
      assert named + [] == named;
    } else {
      FrontBytes(d, named, data, src, |src|);
      assert src[..|src|] == src;
    }
  }

  lemma {:induction false} JoinedFront(d: seq<Sector>, named: seq<nat>, k: nat)
    requires Sized(d) && Exist(named, |d|) && k <= |named|
    ensures Exist(named[..k], |d|) && Joined(d, named[..k]) <= Joined(d, named)
  {
    var head, tail := named[..k], named[k..];
    forall j {:trigger tail[j]} | 0 <= j < |tail|
      ensures tail[j] < |d|
    {
      assert tail[j] == named[k + j];
    }
    JoinedConcat(d, head, tail);
    assert head + tail == named;
  }

  /** The first `k` sectors of two lists that agree there hold the first `k` sectors of the source. */
  lemma {:induction false} FrontBytes(d: seq<Sector>, named: seq<nat>, data: seq<nat>, src: seq<Sector>, k: nat)
    requires Sized(d) && Exist(named, |d|) && FrontKept(named, data) && |data| == |src| && Holds(d, data, src, |src|) && Sized(src)
    requires k <= |named| && k <= |src|
    ensures SourceBytes(src[..k]) <= Joined(d, named) && SourceBytes(src[..k]) <= SourceBytes(src)
    ensures |SourceBytes(src[..k])| == 512 * k
  {
    var head, part := named[..k], src[..k];
    JoinedFront(d, named, k);
    forall j {:trigger head[j]} | 0 <= j < k
      ensures head[j] < |d| && d[head[j]] == part[j]
    {
      assert head[j] == named[j] == data[j];
    }
    JoinedSource(d, head, part);
    SourceCut(src, k);
  }

  /** They return what was written exactly if they hold as many bytes, or the room ends before the two differ. */
  lemma {:induction false} CachedBytes(d: seq<Sector>, links: seq<LinkPointer>, data: seq<nat>, src: seq<Sector>, capacity: nat)
    requires Sized(d) && Readable(links, |d|) && InStep(links, data)
    requires |data| == |src| && Holds(d, data, src, |src|) && Sized(src)
    ensures Cap(ReadAll(d, links), capacity) == Cap(SourceBytes(src), capacity) <==>
      TotalSize(links) == 512 * |src| || capacity <= Min(TotalSize(links), 512 * |src|)
  {
    CachedPrefix(d, links, data, src);
    SourceCut(src, 0);
    if |ExpandAll(links)| <= |src| {
      PrefixCap(ReadAll(d, links), SourceBytes(src), capacity);
    } else {
      PrefixCap(SourceBytes(src), ReadAll(d, links), capacity);
    }
  }

  /** A write keeps cached extents in step, unless it lets a file grow that was shorter than they are. */
  lemma {:induction false} StaysInStep(links: seq<LinkPointer>, was: seq<nat>, now: seq<nat>)
    requires InStep(links, was) && FrontKept(was, now)
    ensures |was| >= |ExpandAll(links)| || |now| <= |was| ==> InStep(links, now)
  {
  }

  // ----- Files in the root -----

  /** `name` is the file at index `i` of the root, cached with the given extents. */
  ghost predicate RootFile(fs: LemonFs, name: Name, i: nat, links: seq<LinkPointer>)
    reads fs
  {
    fs.tree.Dir? && Locate(fs.tree, [name]) == Success(([], Some(i))) && fs.tree.kids[i].tree.File?
    && i < |fs.root| && fs.root[i].FileNode? && fs.root[i].links == links
  }

  /** A sound volume with a file in the root whose cached extents are in step with it. */
  ghost predicate Caught(fs: LemonFs, name: Name, i: nat, links: seq<LinkPointer>)
    reads fs, fs.v.disk, fs.v.bitmap
  {
    fs.Valid() && RootFile(fs, name, i, links) && InStep(links, fs.tree.kids[i].tree.data)
  }

  /** The file at index `i` of the root holds `src`. */
  ghost predicate HasContent(fs: LemonFs, i: nat, src: seq<Sector>)
    reads fs, fs.v.disk
  {
    fs.tree.Dir? && i < |fs.tree.kids| && WrittenAs(fs.v.D(), fs.tree.kids[i].tree, src)
  }

  /** The other children of the root, what is cached of them, and their sectors are as they were. */
  ghost predicate OthersSame(t: Tree, u: Tree, was: seq<Node>, now: seq<Node>, d: seq<Sector>, e: seq<Sector>, i: nat)
  {
    t.Dir? && u.Dir? && |u.kids| == |t.kids| && |now| == |was| && u.ds <= t.ds
    && (forall k {:trigger u.kids[k]} {:trigger t.kids[k]} :: 0 <= k < |t.kids| && k != i ==> u.kids[k] == t.kids[k] && Agree(d, e, t.kids[k].tree))
    && (forall k {:trigger now[k]} :: 0 <= k < |now| && k != i ==> now[k] == was[k])
    && (i < |t.kids| ==> u.kids[i].entry.name == t.kids[i].entry.name)
  }

  lemma {:induction false} OthersSameOk(t: Tree, u: Tree, was: seq<Node>, now: seq<Node>, d: seq<Sector>, e: seq<Sector>, i: nat)
    requires FileChanged(t, u, i) && LinksKept(was, now, i) && Separate(t) && Separate(u)
    requires OnlyTouched(d, e, u.ds, t.kids[i].tree, u.kids[i].tree)
    ensures OthersSame(t, u, was, now, d, e, i)
  {
    forall k {:trigger t.kids[k]} | 0 <= k < |t.kids| && k != i
      ensures u.kids[k] == t.kids[k] && Agree(d, e, t.kids[k].tree)
    {
      assert u.kids[k] == t.kids[k];
    }
  }

  /** Writing a file in the root leaves the extents it is cached with, and its sectors as far as the old and the new go. */
  method RootWrite(fs: LemonFs, name: Name, src: seq<Sector>, ghost i: nat, ghost links: seq<LinkPointer>) returns (r: FsResult<()>)
    requires fs.Valid() && RootFile(fs, name, i, links) && 0 < |src| < MAX_SECTORS_U64 && Sized(src)
    modifies fs, fs.v.disk, fs.v.bitmap
    ensures r.Success? || (r == Failure(NoSpace) && fs.v.Exhausted())
    ensures old(fs.v.Room()) >= NeededFor(|src|) ==> r.Success? && fs.v.Room() >= old(fs.v.Room()) - NeededFor(|src|)
    ensures r.Success? ==> fs.Valid() && RootFile(fs, name, i, links) && WrittenAs(fs.v.D(), fs.tree.kids[i].tree, src)
    ensures r.Success? ==> FrontKept(old(fs.tree.kids[i].tree.data), fs.tree.kids[i].tree.data)
    ensures r.Success? ==> OthersSame(old(fs.tree), fs.tree, old(fs.root), fs.root, old(fs.v.D()), fs.v.D(), i)
  {
    ghost var p, j, b;
    assert [name][..0] == [];
    r, p, j, b := fs.Write([name], src);
    if r.Success? {
      LocateSame(old(fs.tree), [name], [], i, b);
      OthersSameOk(old(fs.tree), fs.tree, old(fs.root), fs.root, old(fs.v.D()), fs.v.D(), i);
    }
  }

  /** Reading a file in the root returns the bytes of the extents it is cached with. */
  method RootRead(fs: LemonFs, name: Name, capacity: nat, ghost i: nat, ghost links: seq<LinkPointer>) returns (r: seq<Byte>)
    requires fs.Valid() && RootFile(fs, name, i, links)
    ensures Readable(links, |fs.v.D()|) && r == Cap(ReadAll(fs.v.D(), links), capacity)
  {
    ghost var p, j;
    var read;
    read, p, j := fs.Read([name], capacity);
    r := read.value;
  }

  /** What is read is `src` exactly if the cached extents hold as many bytes, or the room ends before the two differ. */
  predicate ReadRightIff(bytes: seq<Byte>, links: seq<LinkPointer>, src: seq<Sector>, capacity: nat)
  {
    bytes == Cap(SourceBytes(src), capacity) <==>
      TotalSize(links) == 512 * |src| || capacity <= Min(TotalSize(links), 512 * |src|)
  }

  /** As long as the cached extents are in step, exactly when they hold as many bytes, or the room ends first, is the file read. */
  method ReadInStep(fs: LemonFs, name: Name, capacity: nat, ghost i: nat, ghost links: seq<LinkPointer>, ghost src: seq<Sector>) returns (r: seq<Byte>)
    requires Caught(fs, name, i, links)
    requires HasContent(fs, i, src) && Sized(src)
    ensures |ExpandAll(links)| <= |src| ==> TotalSize(links) <= |SourceBytes(src)| && r == Cap(SourceBytes(src)[..TotalSize(links)], capacity)
    ensures ReadRightIff(r, links, src, capacity)
  {
    r := RootRead(fs, name, capacity, i, links);
    CachedPrefix(fs.v.D(), links, fs.tree.kids[i].tree.data, src);
    CachedBytes(fs.v.D(), links, fs.tree.kids[i].tree.data, src, capacity);
  }

  /** Such a write keeps cached extents in step. */
  method WriteInStep(fs: LemonFs, name: Name, src: seq<Sector>, ghost i: nat, ghost links: seq<LinkPointer>) returns (r: FsResult<()>)
    requires Caught(fs, name, i, links) && 0 < |src| < MAX_SECTORS_U64 && Sized(src)
    requires |fs.tree.kids[i].tree.data| >= |ExpandAll(links)| || |src| <= |fs.tree.kids[i].tree.data|
    modifies fs, fs.v.disk, fs.v.bitmap
    ensures r.Success? || (r == Failure(NoSpace) && fs.v.Exhausted())
    ensures r.Success? ==> Caught(fs, name, i, links) && HasContent(fs, i, src)
  {
    ghost var was := fs.tree.kids[i].tree.data;
    r := RootWrite(fs, name, src, i, links);
    if r.Success? { StaysInStep(links, was, fs.tree.kids[i].tree.data); }
  }

  /** Sources of these lengths can be followed: once the file is below what the extents name, it never grows again. */
  predicate Follows(named: nat, was: nat, srcs: seq<seq<Sector>>)
  {
    forall k {:trigger srcs[k]} :: 0 <= k < |srcs| ==> Before(was, srcs, k) >= named || |srcs[k]| <= Before(was, srcs, k)
  }

  /** The length of the file before source `k` is written. */
  function Before(was: nat, srcs: seq<seq<Sector>>, k: nat): nat
    requires k <= |srcs|
  {
    if k == 0 then was else |srcs[k - 1]|
  }

  /**
   * In the root, reading follows the extents that were cached, and `write` does not renew them. Over every run of writes
   * that never lets the file grow again once it is shorter than they are, what is read is what was last written exactly
   * if they hold as many bytes, or the room ends before the two differ.
   */
  method RootWritesThenRead(fs: LemonFs, name: Name, srcs: seq<seq<Sector>>, capacity: nat, ghost i: nat, ghost links: seq<LinkPointer>)
      returns (r: FsResult<seq<Byte>>)
    requires Caught(fs, name, i, links) && Follows(|ExpandAll(links)|, |fs.tree.kids[i].tree.data|, srcs)
    requires srcs != [] && forall k :: 0 <= k < |srcs| ==> 0 < |srcs[k]| < MAX_SECTORS_U64 && Sized(srcs[k])
    modifies fs, fs.v.disk, fs.v.bitmap
    ensures r.Success? || (r == Failure(NoSpace) && fs.v.Exhausted())
    ensures r.Success? ==> Caught(fs, name, i, links) && HasContent(fs, i, srcs[|srcs| - 1])
    ensures r.Success? ==> ReadRightIff(r.value, links, srcs[|srcs| - 1], capacity)
  {
    var written := WriteAll(fs, name, srcs, i, links);
    if written.Failure? { return Failure(written.error); }
    var data := ReadInStep(fs, name, capacity, i, links, srcs[|srcs| - 1]);
    r := Success(data);
  }

  method WriteAll(fs: LemonFs, name: Name, srcs: seq<seq<Sector>>, ghost i: nat, ghost links: seq<LinkPointer>) returns (r: FsResult<()>)
    requires Caught(fs, name, i, links) && Follows(|ExpandAll(links)|, |fs.tree.kids[i].tree.data|, srcs)
    requires forall k :: 0 <= k < |srcs| ==> 0 < |srcs[k]| < MAX_SECTORS_U64 && Sized(srcs[k])
    modifies fs, fs.v.disk, fs.v.bitmap
    ensures r.Success? || (r == Failure(NoSpace) && fs.v.Exhausted())
    ensures r.Success? ==> Caught(fs, name, i, links) && (srcs != [] ==> HasContent(fs, i, srcs[|srcs| - 1]))
  {
    ghost var was := |fs.tree.kids[i].tree.data|;
    for k := 0 to |srcs|
      invariant Caught(fs, name, i, links) && |fs.tree.kids[i].tree.data| == Before(was, srcs, k)
      invariant k > 0 ==> HasContent(fs, i, srcs[k - 1])
    {
      r := WriteInStep(fs, name, srcs[k], i, links);
      if r.Failure? { return; }
    }
    r := Success(());
  }

  /** After a write that leaves the file shorter than its cached extents, they name a sector that is no longer its own. */
  lemma {:induction false} NoLongerOwn(links: seq<LinkPointer>, was: seq<nat>, now: seq<nat>)
    requires InStep(links, was) && FrontKept(was, now) && Distinct(was) && |now| < |ExpandAll(links)| <= |was|
    ensures ExpandAll(links)[|now|] !in now
  {
    forall k | 0 <= k < |now|
      ensures now[k] != ExpandAll(links)[|now|]
    {
    }
  }

  /** The file at index `i` of the root is cached as it is on disk, as after mounting. */
  lemma FreshInStep(fs: LemonFs, i: nat)
    requires fs.Valid() && fs.CacheFresh() && i < |fs.root| && fs.tree.kids[i].tree.File? && Regular(fs.tree.kids[i].tree.extents)
    ensures InStep(fs.root[i].links, fs.tree.kids[i].tree.data) && ExpandAll(fs.root[i].links) == fs.tree.kids[i].tree.data
  {
    assert Rep(fs.v.D(), fs.tree.kids[i].entry, fs.tree.kids[i].tree);
  }

  /** A file that was created but never written is cached, after mounting, with one byte: one byte of it is read. */
  method OneByte(fs: LemonFs, name: Name, src: seq<Sector>, capacity: nat, ghost i: nat, ghost lba: nat) returns (r: FsResult<seq<Byte>>)
    requires fs.Valid() && fs.CacheFresh() && RootFile(fs, name, i, [LinkPointer(lba, 1)])
    requires 0 < |src| < MAX_SECTORS_U64 && Sized(src)
    modifies fs, fs.v.disk, fs.v.bitmap
    ensures r.Success? || (r == Failure(NoSpace) && fs.v.Exhausted())
    ensures r.Success? ==> fs.Valid() && RootFile(fs, name, i, [LinkPointer(lba, 1)]) && WrittenAs(fs.v.D(), fs.tree.kids[i].tree, src)
    ensures r.Success? ==> r.value == Cap(SourceBytes(src)[..1], capacity)
    ensures r.Success? ==> (r.value == Cap(SourceBytes(src), capacity) <==> capacity <= 1)
  {
    ghost var links := [LinkPointer(lba, 1)];
    FreshInStep(fs, i);
    var done := WriteInStep(fs, name, src, i, links);
    if done.Failure? { return Failure(done.error); }
    var data := ReadInStep(fs, name, capacity, i, links, src);
    r := Success(data);
  }

  // ----- Files created in the root -----

  /** A file created in the root is the last child, on the sector picked, and cached without extents. */
  method CreateInRoot(fs: LemonFs, name: Name) returns (r: FsResult<()>, ghost i: nat)
    requires fs.Valid() && Storable(name) && Locate(fs.tree, [name]) == Success(([], None))
    modifies fs, fs.v.disk, fs.v.bitmap
    ensures r.Success? || (r == Failure(NoSpace) && fs.v.Exhausted())
    ensures old(fs.v.Room()) >= 2 ==> r.Success? && fs.v.Room() >= old(fs.v.Room()) - 2
    ensures r.Success? ==> fs.Valid() && RootFile(fs, name, i, []) && old(fs.root) <= fs.root
    ensures r.Success? ==> i == |old(fs.tree.kids)| && fs.tree.kids == old(fs.tree.kids) + [NewKid(name, false, old(fs.v.Pick()))]
  {
    ghost var p, b, lba;
    i := |fs.root|;
    assert |ToDentries(fs.root)| == |fs.tree.kids|;
    var flags := 0;
    FlagOf(flags);
    r, p, b, lba := fs.Create([name], flags);
    if r.Success? {
      CreatedFirst(old(fs.tree), fs.tree, b, name, lba);
      CachedFile(fs, i);
    }
  }

  method CreateAndWrite(fs: LemonFs, name: Name, src: seq<Sector>) returns (r: FsResult<()>, ghost i: nat)
    requires fs.Valid() && Storable(name) && 0 < |src| < MAX_SECTORS_U64 && Sized(src)
    requires Locate(fs.tree, [name]) == Success(([], None))
    modifies fs, fs.v.disk, fs.v.bitmap
    ensures r.Success? || (r == Failure(NoSpace) && fs.v.Exhausted())
    ensures r.Success? ==> fs.Valid() && RootFile(fs, name, i, []) && HasContent(fs, i, src)
  {
    r, i := CreateInRoot(fs, name);
    if r.Success? { r := RootWrite(fs, name, src, i, []); }
  }

  /** A file created in the root, written and read: nothing is read. */
  method CreateWriteRead(fs: LemonFs, name: Name, src: seq<Sector>, capacity: nat) returns (r: FsResult<seq<Byte>>, ghost i: nat)
    requires fs.Valid() && Storable(name) && 0 < |src| < MAX_SECTORS_U64 && Sized(src)
    requires Locate(fs.tree, [name]) == Success(([], None))
    modifies fs, fs.v.disk, fs.v.bitmap
    ensures r.Success? || (r == Failure(NoSpace) && fs.v.Exhausted())
    ensures r.Success? ==> r.value == [] && RootFile(fs, name, i, []) && HasContent(fs, i, src)
  {
    var done;
    done, i := CreateAndWrite(fs, name, src);
    if done.Failure? { return Failure(done.error), i; }
    var data := RootRead(fs, name, capacity, i, []);
    r := Success(data);
  }

  /** A cached entry is a file if the child is one. */
  lemma CachedFile(fs: LemonFs, i: nat)
    requires fs.Valid() && i < |fs.root| == |fs.tree.kids| && fs.tree.kids[i].tree.File?
    ensures fs.root[i].FileNode?
  {
    assert ToDentries(fs.root)[i] == fs.tree.kids[i].entry;
    KindOfChild(fs.v.D(), fs.v.U(), fs.v.Lo(), fs.v.dataEnd, fs.RootEntry(), fs.tree, [], i);
  }

  /** The new file is the last child of the root, and the first of its name. */
  lemma {:induction false} CreatedFirst(t: Tree, u: Tree, b: Tree, name: Name, lba: nat)
    requires t.Dir? && Locate(t, [name]) == Success(([], None)) && Storable(name) && b.Dir? && u == Replace(t, [], b)
    requires b.kids == t.kids + [NewKid(name, false, lba)]
    ensures u.Dir? && Locate(u, [name]) == Success(([], Some(|t.kids|)))
  {
    NameRoundTrip(name);
    assert [name][..0] == [];
    FindAdded(Entries(t.kids), Entries(b.kids), name, 0);
  }
}
