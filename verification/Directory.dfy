/** Directories as chains of directory blocks (`fs/lemonfs/directory.rs`). */
module Directory {
  import opened Basics
  import opened Bits
  import opened Codec
  import opened Disk
  import opened FileChain
  import opened FsCodec
  import opened Links
  import opened SectorView
  import opened Volume

  // ----- Entries in memory and on disk -----

  /** `DirectoryEntry` */
  datatype Node =
    | FileNode(name: Filename, size: nat, head: LinkPointer, links: seq<LinkPointer>)
    | DirNode(name: Filename, link: LinkPointer)
    | SymLink(name: Filename, dest: LinkPointer)

  predicate HasDir(flags: Byte)
  {
    flags % 2 == 1
  }

  predicate HasSymlink(flags: Byte)
  {
    flags / 2 % 2 == 1
  }

  function ToDentry(n: Node): DirEntry
  {
    match n
    case FileNode(name, _, head, _) => DirEntry(name, 0, head)
    case DirNode(name, link) => DirEntry(name, IS_DIR, link)
    case SymLink(name, dest) => DirEntry(name, IS_SYMLINK, dest)
  }

  function ToDentries(ns: seq<Node>): (r: seq<DirEntry>)
    ensures |r| == |ns| && forall i {:trigger r[i]} :: 0 <= i < |ns| ==> r[i] == ToDentry(ns[i])
  {
    seq(|ns|, i requires 0 <= i < |ns| => ToDentry(ns[i]))
  }

  function Named(es: seq<DirEntry>): (r: seq<DirEntry>)
    ensures forall i {:trigger r[i]} :: 0 <= i < |r| ==> !IsEmptyName(r[i].name)
  {
    if es == [] then [] else (if IsEmptyName(es[0].name) then [] else [es[0]]) + Named(es[1..])
  }

  // ----- Chains of directory blocks -----

  /** From `p` the directory blocks `ds` follow one another, and then the chain ends. */
  predicate DirChain(d: seq<Sector>, p: LinkPointer, ds: seq<nat>)
    decreases |ds|
  {
    if !Direct(p) then ds == []
    else ds != [] && Valid(p) && ds[0] == p.start && p.start < |d| && DirChain(d, DirOf(d[p.start]).next, ds[1..])
  }

  /** The named entries of some directory blocks, in order. */
  function EntriesAt(d: seq<Sector>, ds: seq<nat>): seq<DirEntry>
  {
    if ds == [] then []
    else (if ds[0] < |d| then Named(DirOf(d[ds[0]]).entries) else []) + EntriesAt(d, ds[1..])
  }

  /** A block has room for eight entries. */
  lemma {:induction false} EntriesBound(d: seq<Sector>, ds: seq<nat>)
    ensures |EntriesAt(d, ds)| <= 8 * |ds|
  {
    if ds != [] {
      EntriesBound(d, ds[1..]);
      if ds[0] < |d| { NamedBound(DirOf(d[ds[0]]).entries); }
    }
  }

  lemma {:induction false} NamedBound(es: seq<DirEntry>)
    ensures |Named(es)| <= |es|
  {
    if es != [] { NamedBound(es[1..]); }
  }

  /** A directory chain depends on its own blocks alone. */
  lemma {:induction false} DirFrame(d: seq<Sector>, e: seq<Sector>, p: LinkPointer, ds: seq<nat>)
    requires DirChain(d, p, ds) && |d| == |e|
    requires forall x {:trigger d[x]} {:trigger e[x]} :: x in ds && x < |d| ==> d[x] == e[x]
    ensures DirChain(e, p, ds) && EntriesAt(e, ds) == EntriesAt(d, ds)
    decreases |ds|
  {
    if Direct(p) {
      assert ds[0] in ds;
      DirFrame(d, e, DirOf(d[p.start]).next, ds[1..]);
    }
  }

  lemma {:induction false} DirChainUnique(d: seq<Sector>, p: LinkPointer, a: seq<nat>, b: seq<nat>)
    requires DirChain(d, p, a) && DirChain(d, p, b)
    ensures a == b
    decreases |a|
  {
    if Direct(p) {
      DirChainUnique(d, DirOf(d[p.start]).next, a[1..], b[1..]);
      assert a == [a[0]] + a[1..] && b == [b[0]] + b[1..];
    }
  }

  lemma {:induction false} DirChainBounds(d: seq<Sector>, p: LinkPointer, ds: seq<nat>, i: nat)
    requires DirChain(d, p, ds) && i < |ds|
    ensures 0 < ds[i] < |d|
    decreases |ds|
  {
    if i > 0 {
      DirChainBounds(d, DirOf(d[p.start]).next, ds[1..], i - 1);
    }
  }

  /** The first part of `sync`: collect the current chain. */
  method Collect(v: Volume, head: LinkPointer, ghost ds: seq<nat>) returns (collected: seq<nat>)
    requires DirChain(v.D(), head, ds)
    ensures collected == ds
  {
    collected := [];
    var ptr := head;
    while Direct(ptr) && Valid(ptr)
      invariant |collected| <= |ds| && collected == ds[..|collected|] && DirChain(v.D(), ptr, ds[|collected|..])
      decreases |ds| - |collected|
    {
      ghost var k := |collected|;
      assert ds[k..][1..] == ds[k + 1..] && ds[..k + 1] == ds[..k] + [ds[k]];
      collected := collected + [ptr.start];
      var block := v.Read(ptr.start);
      ptr := DirOf(block).next;
    }
  }

  // ----- Writing a chain -----

  function Zeros(n: nat): (r: seq<DirEntry>)
    ensures |r| == n && forall i {:trigger r[i]} :: 0 <= i < n ==> r[i] == ZeroEntry()
  {
    seq(n, i => ZeroEntry())
  }

  function EntryPart(es: seq<DirEntry>, i: nat): (r: seq<DirEntry>)
    requires 8 * i <= |es|
    ensures |r| <= 8
  {
    es[8 * i..if 8 * i + 8 < |es| then 8 * i + 8 else |es|]
  }

  /** Directory block `i` of a chain: eight entries, padded with zero ones, and the pointer to the next block. */
  function DirChunk(es: seq<DirEntry>, parent: nat, chain: seq<nat>, i: nat): DirBlock
    requires 8 * i <= |es| && i < |chain|
  {
    var part := EntryPart(es, i);
    DirBlock(parent, part + Zeros(8 - |part|), if i + 1 < |chain| then LinkPointer(chain[i + 1], 512) else NO_LINK)
  }

  function BlocksNeeded(n: nat): nat
  {
    if n == 0 then 1 else DivCeil(n, 8)
  }

  ghost predicate DirChunksUpTo(d: seq<Sector>, es: seq<DirEntry>, parent: nat, chain: seq<nat>, n: nat)
  {
    |chain| == BlocksNeeded(|es|) && n <= |chain|
    && (forall i {:trigger chain[i]} :: 0 <= i < |chain| ==> 0 < chain[i] < |d|)
    && forall i {:trigger chain[i]} :: 0 <= i < n ==> 8 * i <= |es| && DirOf(d[chain[i]]) == DirChunk(es, parent, chain, i)
  }

  lemma DirChunkWritten(d: seq<Sector>, es: seq<DirEntry>, parent: nat, chain: seq<nat>, n: nat, s: Sector)
    requires DirChunksUpTo(d, es, parent, chain, n) && n < |chain| && Distinct(chain)
    requires 8 * n <= |es| && DirOf(s) == DirChunk(es, parent, chain, n)
    ensures DirChunksUpTo(d[chain[n] := s], es, parent, chain, n + 1)
  {
  }

  lemma DirChunkCount(n: nat, blocks: nat, i: nat)
    requires blocks == BlocksNeeded(n) && i < blocks
    ensures 8 * i <= n && (8 * (i + 1) < n <==> i + 1 < blocks)
  {
  }

  predicate AllNamed(es: seq<DirEntry>)
  {
    forall i {:trigger es[i]} :: 0 <= i < |es| ==> !IsEmptyName(es[i].name)
  }

  lemma {:induction false} NamedZeros(n: nat)
    ensures Named(Zeros(n)) == []
  {
    if n > 0 {
      assert Zeros(n)[1..] == Zeros(n - 1);
      NamedZeros(n - 1);
    }
  }

  lemma {:induction false} NamedPadded(es: seq<DirEntry>, n: nat)
    requires AllNamed(es)
    ensures Named(es + Zeros(n)) == es
    decreases |es|
  {
    if es == [] {
      assert es + Zeros(n) == Zeros(n);
      NamedZeros(n);
    } else {
      assert (es + Zeros(n))[1..] == es[1..] + Zeros(n);
      NamedPadded(es[1..], n);
      assert es == [es[0]] + es[1..];
    }
  }

  lemma EntryPartRest(es: seq<DirEntry>, i: nat)
    requires 8 * i <= |es|
    ensures 8 * (i + 1) <= |es| ==> es[8 * i..] == EntryPart(es, i) + es[8 * (i + 1)..]
    ensures 8 * (i + 1) >= |es| ==> es[8 * i..] == EntryPart(es, i)
  {
  }

  lemma DirChunkAt(d: seq<Sector>, es: seq<DirEntry>, parent: nat, chain: seq<nat>, i: nat)
    requires DirChunksUpTo(d, es, parent, chain, |chain|) && i < |chain| && AllNamed(es)
    ensures 8 * i <= |es| && 0 < chain[i] < |d| && Named(DirOf(d[chain[i]]).entries) == EntryPart(es, i)
    ensures DirOf(d[chain[i]]).next == if i + 1 < |chain| then LinkPointer(chain[i + 1], 512) else NO_LINK
  {
    DirChunkCount(|es|, |chain|, i);
    NamedPadded(EntryPart(es, i), 8 - |EntryPart(es, i)|);
  }

  /** The blocks written form a chain that holds exactly the entries. */
  lemma {:induction false} DirChunksChain(d: seq<Sector>, es: seq<DirEntry>, parent: nat, chain: seq<nat>, i: nat, p: LinkPointer)
    requires DirChunksUpTo(d, es, parent, chain, |chain|) && i < |chain| && AllNamed(es)
    requires p.start == chain[i] && Direct(p)
    ensures 8 * i <= |es| && DirChain(d, p, chain[i..]) && EntriesAt(d, chain[i..]) == es[8 * i..]
    decreases |chain| - i
  {
    DirChunkAt(d, es, parent, chain, i);
    DirChunkCount(|es|, |chain|, i);
    EntryPartRest(es, i);
    if i + 1 < |chain| {
      var q := LinkPointer(chain[i + 1], 512);
      DirChunksChain(d, es, parent, chain, i + 1, q);
      DirChainCons(d, p, chain, i, q, es[8 * (i + 1)..]);
    } else {
      DirChainLast(d, p, chain, i);
    }
  }

  lemma DirChainCons(d: seq<Sector>, p: LinkPointer, chain: seq<nat>, i: nat, q: LinkPointer, rest: seq<DirEntry>)
    requires i + 1 < |chain| && p.start == chain[i] && Direct(p) && 0 < chain[i] < |d| && DirOf(d[chain[i]]).next == q
    requires DirChain(d, q, chain[i + 1..]) && EntriesAt(d, chain[i + 1..]) == rest
    ensures DirChain(d, p, chain[i..]) && EntriesAt(d, chain[i..]) == Named(DirOf(d[chain[i]]).entries) + rest
  {
    assert chain[i..][1..] == chain[i + 1..];
  }

  lemma {:induction false} DirChainLast(d: seq<Sector>, p: LinkPointer, chain: seq<nat>, i: nat)
    requires i + 1 == |chain| && p.start == chain[i] && Direct(p) && 0 < chain[i] < |d| && !Direct(DirOf(d[chain[i]]).next)
    ensures DirChain(d, p, chain[i..]) && EntriesAt(d, chain[i..]) == Named(DirOf(d[chain[i]]).entries)
  {
    assert chain[i..][1..] == [];
    var named := Named(DirOf(d[chain[i]]).entries);
    assert named + [] == named;
  }

  // ----- Sync -----

  lemma DirChunkFits(es: seq<DirEntry>, parent: nat, chain: seq<nat>, i: nat, limit: nat)
    requires 8 * i <= |es| && i < |chain| && EntriesFit(es) && U64(parent) && limit <= MAX_SECTORS_U64
    requires forall k {:trigger chain[k]} :: 0 <= k < |chain| ==> chain[k] < limit
    ensures BlockFits(DirChunk(es, parent, chain, i))
  {
  }

  /** The last part of `sync`: write the entries into the chain, eight to a block. */
  method WriteEntries(v: Volume, children: seq<Node>, parent: nat, chain: seq<nat>)
    requires v.Valid() && Distinct(chain) && |chain| == BlocksNeeded(|children|)
    requires EntriesFit(ToDentries(children)) && U64(parent)
    requires forall i {:trigger chain[i]} :: 0 <= i < |chain| ==> 0 < chain[i] < |v.D()|
    modifies v.disk
    ensures v.Valid() && DirChunksUpTo(v.D(), ToDentries(children), parent, chain, |chain|) && SameOutside(old(v.D()), v.D(), chain)
  {
    ghost var d := v.D();
    var es := ToDentries(children);
    for i := 0 to DivCeil(|children|, 8)
      invariant v.Valid() && DirChunksUpTo(v.D(), es, parent, chain, i) && SameOutside(d, v.D(), chain)
    {
      WriteBlock(v, es, parent, chain, i, d);
    }
    if children == [] {
      WriteBlock(v, es, parent, chain, 0, d);
    }
  }

  method WriteBlock(v: Volume, es: seq<DirEntry>, parent: nat, chain: seq<nat>, i: nat, ghost d: seq<Sector>)
    requires v.Valid() && Distinct(chain) && i < |chain| && EntriesFit(es) && U64(parent)
    requires DirChunksUpTo(v.D(), es, parent, chain, i) && SameOutside(d, v.D(), chain)
    modifies v.disk
    ensures v.Valid() && DirChunksUpTo(v.D(), es, parent, chain, i + 1) && SameOutside(d, v.D(), chain)
  {
    DirChunkCount(|es|, |chain|, i);
    var part := EntryPart(es, i);
    var next := if i + 1 < |chain| then LinkPointer(chain[i + 1], 512) else NO_LINK;
    var block := DirBlock(parent, part + Zeros(8 - |part|), next);
    DirChunkFits(es, parent, chain, i, |d|);
    DirSectorOk(block);
    DirChunkWritten(v.D(), es, parent, chain, i, DirSector(block));
    WrittenOutside(d, v.D(), chain, i, DirSector(block));
    v.Write(chain[i], DirSector(block));
  }

  ghost function DropAll(used: set<nat>, lbas: seq<nat>): (r: set<nat>)
    ensures forall x {:trigger x in r} :: x in r <==> x in used && x !in lbas
  {
    used - set x | x in lbas
  }

  /** Free sectors one by one. */
  method FreeEach(v: Volume, lbas: seq<nat>)
    requires v.Valid() && forall i {:trigger lbas[i]} :: 0 <= i < |lbas| ==> v.Lo() <= lbas[i] < v.dataEnd
    modifies v.bitmap
    ensures v.Valid() && v.Room() >= old(v.Room()) && v.U() == DropAll(old(v.U()), lbas)
  {
    ghost var used := v.U();
    for i := 0 to |lbas|
      invariant v.Room() >= old(v.Room())
      invariant v.Valid() && v.U() == DropAll(used, lbas[..i])
    {
      v.Free(lbas[i], 1);
      assert lbas[..i + 1] == lbas[..i] + [lbas[i]];
      assert v.U() == DropAll(used, lbas[..i + 1]);
    }
    assert lbas[..|lbas|] == lbas;
  }

  /** What a chain of `ds` becomes when `k` blocks are needed: shortened, or extended by unused sectors. */
  ghost predicate Resized(ds: seq<nat>, used: set<nat>, chain: seq<nat>, after: set<nat>, k: nat, lo: nat, hi: nat)
  {
    if |ds| >= k then chain == ds[..k] && after == DropAll(used, ds[k..])
    else |chain| == k && ds <= chain && Unused(chain[|ds|..], used, lo, hi) && after == AddAll(used, chain[|ds|..])
  }

  /** Every block of a directory is marked used, but for the root's first one, which lies beyond the data sectors. */
  ghost predicate Held(ds: seq<nat>, used: set<nat>, lo: nat, hi: nat)
  {
    Distinct(ds) && forall i {:trigger ds[i]} :: 0 <= i < |ds| ==> (lo <= ds[i] < hi && ds[i] in used) || (i == 0 && ds[i] == hi)
  }

  lemma ResizedDistinct(ds: seq<nat>, used: set<nat>, chain: seq<nat>, after: set<nat>, k: nat, lo: nat, hi: nat)
    requires Resized(ds, used, chain, after, k, lo, hi) && Held(ds, used, lo, hi) && 0 < lo <= hi && k > 0 && ds != []
    ensures Distinct(chain) && |chain| == k && chain[0] == ds[0]
    ensures forall i {:trigger chain[i]} :: 0 <= i < |chain| ==> 0 < chain[i] <= hi
  {
    if |ds| < k {
      var added := chain[|ds|..];
      forall i, j {:trigger chain[i], chain[j]} | 0 <= i < j < |chain|
        ensures chain[i] != chain[j]
      {
        assert i < |ds| ==> chain[i] == ds[i];
        assert i >= |ds| ==> chain[i] == added[i - |ds|];
        assert j < |ds| ==> chain[j] == ds[j];
        assert j >= |ds| ==> chain[j] == added[j - |ds|];
      }
      forall i {:trigger chain[i]} | 0 <= i < |chain|
        ensures 0 < chain[i] <= hi
      {
        assert i < |ds| ==> chain[i] == ds[i];
        assert i >= |ds| ==> chain[i] == added[i - |ds|];
      }
    }
  }

  /** The middle part of `sync`: shorten or extend the chain to the blocks needed. */
  method Resize(v: Volume, collected: seq<nat>, needed: nat) returns (r: FsResult<seq<nat>>)
    requires v.Valid() && needed > 0 && collected != [] && Held(collected, v.U(), v.Lo(), v.dataEnd)
    modifies v.bitmap
    ensures v.Valid() && (r.Failure? ==> v.Exhausted() && needed > |collected| && old(v.U()) <= v.U())
    ensures old(v.Room()) >= Extra(needed, |collected|) ==> r.Success? && v.Room() >= old(v.Room()) - Extra(needed, |collected|)
    ensures r.Success? ==> Resized(collected, old(v.U()), r.value, v.U(), needed, v.Lo(), v.dataEnd)
  {
    if |collected| > needed {
      FreeEach(v, collected[needed..]);
    }
    ghost var used := v.U();
    var chain := [collected[0]];
    ghost var added: seq<nat> := [];
    assert AddAll(used, []) == used && DropAll(used, []) == used;
    for i := 1 to needed
      invariant v.Valid() && Growing(collected, used, chain, added, v.U(), i, v.Lo(), v.dataEnd)
      invariant old(v.Room()) >= Extra(needed, |collected|) ==> v.Room() >= old(v.Room()) - Extra(i, |collected|)
    {
      if i < |collected| {
        GrowingKept(collected, used, chain, added, v.U(), i, v.Lo(), v.dataEnd);
        chain := chain + [collected[i]];
      } else {
        ghost var now := v.U();
        var lba := v.Alloc();
        if lba.None? { return Failure(NoSpace); }
        GrowingAdded(collected, used, chain, added, now, i, v.Lo(), v.dataEnd, lba.value);
        added := added + [lba.value];
        chain := chain + [lba.value];
      }
    }
    r := Success(chain);
  }

  /** The first `i` blocks of a chain: those of the old one, then `added`. */
  ghost predicate Growing(ds: seq<nat>, used: set<nat>, chain: seq<nat>, added: seq<nat>, now: set<nat>, i: nat, lo: nat, hi: nat)
  {
    |chain| == i && Unused(added, used, lo, hi) && now == AddAll(used, added)
    && if i <= |ds| then chain == ds[..i] && added == [] else chain == ds + added
  }

  lemma GrowingKept(ds: seq<nat>, used: set<nat>, chain: seq<nat>, added: seq<nat>, now: set<nat>, i: nat, lo: nat, hi: nat)
    requires Growing(ds, used, chain, added, now, i, lo, hi) && i < |ds|
    ensures Growing(ds, used, chain + [ds[i]], added, now, i + 1, lo, hi)
  {
    SplitAt(ds, i);
  }

  lemma GrowingAdded(ds: seq<nat>, used: set<nat>, chain: seq<nat>, added: seq<nat>, now: set<nat>, i: nat, lo: nat, hi: nat, x: nat)
    requires Growing(ds, used, chain, added, now, i, lo, hi) && i >= |ds| && lo <= x < hi && x !in now
    ensures Growing(ds, used, chain + [x], added + [x], now + {x}, i + 1, lo, hi)
  {
    AddOne(used, added, x);
    UnusedOne(used, added, x, lo, hi);
    assert i == |ds| ==> chain == ds + added;
  }

  /**
   * `sync`: afterwards the chain holds exactly the entries of `children`, in order. It is the old chain, shortened or
   * extended to the blocks needed; the blocks given up are free, the ones added were. Nothing else is written.
   */
  method Sync(v: Volume, head: LinkPointer, parent: nat, children: seq<Node>, ghost ds: seq<nat>)
      returns (r: FsResult<()>, ghost chain: seq<nat>)
    requires v.Valid() && DirChain(v.D(), head, ds) && ds != [] && Held(ds, v.U(), v.Lo(), v.dataEnd)
    requires AllNamed(ToDentries(children)) && EntriesFit(ToDentries(children)) && U64(parent)
    modifies v.disk, v.bitmap
    ensures v.Valid() && |v.D()| == |old(v.D())|
    ensures r.Failure? ==> v.Exhausted() && BlocksNeeded(|children|) > |ds| && v.D() == old(v.D()) && old(v.U()) <= v.U()
    ensures var extra := Extra(BlocksNeeded(|children|), |ds|);
      old(v.Room()) >= extra ==> r.Success? && v.Room() >= old(v.Room()) - extra
    ensures r.Success? ==> Resized(ds, old(v.U()), chain, v.U(), BlocksNeeded(|children|), v.Lo(), v.dataEnd)
    ensures r.Success? ==> SameOutside(old(v.D()), v.D(), chain)
    ensures r.Success? ==> DirChain(v.D(), head, chain) && EntriesAt(v.D(), chain) == ToDentries(children)
  {
    var blocksNeeded := BlocksNeeded(|children|);
    var collected := Collect(v, head, ds);
    var resized := Resize(v, collected, blocksNeeded);
    if resized.Failure? { return Failure(NoSpace), []; }
    chain := resized.value;
    ResizedDistinct(ds, old(v.U()), chain, v.U(), blocksNeeded, v.Lo(), v.dataEnd);
    WriteEntries(v, children, parent, resized.value);
    DirChunksChain(v.D(), ToDentries(children), parent, chain, 0, head);
    assert chain[0..] == chain && ToDentries(children)[8 * 0..] == ToDentries(children);
    r := Success(());
  }

  // ----- Loading -----

  ghost predicate Resolvable(d: seq<Sector>, p: LinkPointer)
  {
    exists ix :: LinkChain(d, p, ix)
  }

  /** The extents a head leads to. */
  ghost function ExtentsOf(d: seq<Sector>, p: LinkPointer): seq<LinkPointer>
    requires Resolvable(d, p)
  {
    var ix :| LinkChain(d, p, ix);
    Directs(d, p, ix)
  }

  function TotalSize(ps: seq<LinkPointer>): nat
  {
    if ps == [] then 0 else ps[0].size + TotalSize(ps[1..])
  }

  predicate IsFile(e: DirEntry)
  {
    !HasSymlink(e.flags) && !HasDir(e.flags)
  }

  /** `DirectoryEntry::from_dir_entry` */
  ghost function Loaded(d: seq<Sector>, e: DirEntry): Node
    requires IsFile(e) ==> Resolvable(d, e.link)
  {
    if HasSymlink(e.flags) then SymLink(e.name, e.link)
    else if HasDir(e.flags) then DirNode(e.name, e.link)
    else var links := ExtentsOf(d, e.link); FileNode(e.name, TotalSize(links), e.link, links)
  }

  ghost predicate Loadable(d: seq<Sector>, es: seq<DirEntry>)
  {
    forall i {:trigger es[i]} :: 0 <= i < |es| ==> (IsFile(es[i]) ==> Resolvable(d, es[i].link))
  }

  ghost function LoadedAll(d: seq<Sector>, es: seq<DirEntry>): (r: seq<Node>)
    requires Loadable(d, es)
    ensures |r| == |es| && forall i {:trigger r[i]} :: 0 <= i < |es| ==> r[i] == Loaded(d, es[i])
  {
    seq(|es|, i requires 0 <= i < |es| && Loadable(d, es) => assert IsFile(es[i]) ==> Resolvable(d, es[i].link); Loaded(d, es[i]))
  }

  method LoadEntry(v: Volume, e: DirEntry) returns (n: Node)
    requires IsFile(e) ==> Resolvable(v.D(), e.link)
    ensures n == Loaded(v.D(), e)
  {
    if HasSymlink(e.flags) { return SymLink(e.name, e.link); }
    if HasDir(e.flags) { return DirNode(e.name, e.link); }
    ghost var ix :| LinkChain(v.D(), e.link, ix);
    var links := ResolveLinks(v.disk, e.link, ix);
    ghost var iy :| LinkChain(v.D(), e.link, iy) && ExtentsOf(v.D(), e.link) == Directs(v.D(), e.link, iy);
    ChainUnique(v.D(), e.link, ix, iy);
    n := FileNode(e.name, TotalSize(links.value), e.link, links.value);
  }

  lemma {:induction false} NamedConcat(a: seq<DirEntry>, b: seq<DirEntry>)
    ensures Named(a + b) == Named(a) + Named(b)
    decreases |a|
  {
    if a == [] {
      assert a + b == b;
    } else {
      assert (a + b)[1..] == a[1..] + b;
      NamedConcat(a[1..], b);
    }
  }

  lemma NamedOne(e: DirEntry)
    ensures Named([e]) == if IsEmptyName(e.name) then [] else [e]
  {
    assert [e][1..] == [];
  }

  lemma {:induction false} NamedSnoc(es: seq<DirEntry>, front: seq<DirEntry>, e: DirEntry)
    requires es == front + [e]
    ensures Named(es) == if IsEmptyName(e.name) then Named(front) else Named(front) + [e]
  {
    NamedConcat(front, [e]);
    NamedOne(e);
    assert Named(front) + [] == Named(front);
  }

  lemma LoadableParts(d: seq<Sector>, a: seq<DirEntry>, b: seq<DirEntry>)
    requires Loadable(d, a + b)
    ensures Loadable(d, a) && Loadable(d, b) && LoadedAll(d, a + b) == LoadedAll(d, a) + LoadedAll(d, b)
  {
    forall i {:trigger a[i]} | 0 <= i < |a|
      ensures IsFile(a[i]) ==> Resolvable(d, a[i].link)
    {
      assert (a + b)[i] == a[i];
    }
    forall i {:trigger b[i]} | 0 <= i < |b|
      ensures IsFile(b[i]) ==> Resolvable(d, b[i].link)
    {
      assert (a + b)[|a| + i] == b[i];
    }
  }

  /** After `k` of the entries of a block the named ones among them are loaded. */
  ghost predicate BlockLoaded(d: seq<Sector>, es: seq<DirEntry>, k: nat, children: seq<Node>)
  {
    k <= |es| && Loadable(d, Named(es)) && Loadable(d, Named(es[..k])) && children == LoadedAll(d, Named(es[..k]))
  }

  lemma BlockLoadedStep(d: seq<Sector>, es: seq<DirEntry>, k: nat, children: seq<Node>)
    requires BlockLoaded(d, es, k, children) && k < |es|
    ensures IsEmptyName(es[k].name) ==> BlockLoaded(d, es, k + 1, children)
    ensures !IsEmptyName(es[k].name) ==> (IsFile(es[k]) ==> Resolvable(d, es[k].link))
    ensures !IsEmptyName(es[k].name) ==> BlockLoaded(d, es, k + 1, children + [Loaded(d, es[k])])
  {
    var front, next, rest := es[..k], es[..k + 1], es[k + 1..];
    SplitAt(es, k);
    NamedSnoc(next, front, es[k]);
    NamedConcat(next, rest);
    LoadableParts(d, Named(next), Named(rest));
    if !IsEmptyName(es[k].name) {
      LoadableParts(d, Named(front), [es[k]]);
      assert [es[k]][0] == es[k];
      assert LoadedAll(d, [es[k]]) == [Loaded(d, es[k])];
    }
  }

  /** The entries of one block, as `add_children_from_link` loads them. */
  method LoadBlock(v: Volume, es: seq<DirEntry>) returns (children: seq<Node>)
    requires Loadable(v.D(), Named(es))
    ensures children == LoadedAll(v.D(), Named(es))
  {
    children := [];
    assert es[..0] == [];
    for k := 0 to |es|
      invariant BlockLoaded(v.D(), es, k, children)
    {
      BlockLoadedStep(v.D(), es, k, children);
      if !IsEmptyName(es[k].name) {
        var child := LoadEntry(v, es[k]);
        children := children + [child];
      }
    }
    assert es[..|es|] == es;
  }

  ghost predicate ChainLoaded(d: seq<Sector>, all: seq<DirEntry>, done: seq<DirEntry>, ptr: LinkPointer, rest: seq<nat>, children: seq<Node>)
  {
    Loadable(d, all) && DirChain(d, ptr, rest) && all == done + EntriesAt(d, rest)
    && Loadable(d, done) && children == LoadedAll(d, done)
  }

  lemma ChainLoadedStep(d: seq<Sector>, all: seq<DirEntry>, done: seq<DirEntry>, ptr: LinkPointer, rest: seq<nat>, children: seq<Node>)
    requires ChainLoaded(d, all, done, ptr, rest, children) && Direct(ptr)
    ensures rest != [] && ptr.start < |d| && Loadable(d, Named(DirOf(d[ptr.start]).entries))
    ensures
      var named := Named(DirOf(d[ptr.start]).entries);
      ChainLoaded(d, all, done + named, DirOf(d[ptr.start]).next, rest[1..], children + LoadedAll(d, named))
  {
    var named, later := Named(DirOf(d[ptr.start]).entries), EntriesAt(d, rest[1..]);
    assert EntriesAt(d, rest) == named + later;
    assert done + (named + later) == (done + named) + later;
    LoadableParts(d, done + named, later);
    LoadableParts(d, done, named);
  }

  /** `add_children_from_link` returns every named entry of the chain, in order. */
  method LoadChildren(v: Volume, start: LinkPointer, ghost ds: seq<nat>) returns (children: seq<Node>)
    requires DirChain(v.D(), start, ds) && Loadable(v.D(), EntriesAt(v.D(), ds))
    ensures children == LoadedAll(v.D(), EntriesAt(v.D(), ds))
  {
    ghost var d, all := v.D(), EntriesAt(v.D(), ds);
    children := [];
    var ptr := start;
    ghost var done: seq<DirEntry>, rest := [], ds;
    assert [] + all == all;
    while Direct(ptr)
      invariant ChainLoaded(d, all, done, ptr, rest, children)
      decreases |rest|
    {
      ChainLoadedStep(d, all, done, ptr, rest, children);
      var block := v.Read(ptr.start);
      var more := LoadBlock(v, DirOf(block).entries);
      children := children + more;
      ptr := DirOf(block).next;
      done, rest := done + Named(DirOf(block).entries), rest[1..];
    }
    assert done + [] == done;
  }

  predicate PlainFlags(e: DirEntry)
  {
    e.flags == 0 || e.flags == IS_DIR || e.flags == IS_SYMLINK
  }

  lemma LoadedDentry(d: seq<Sector>, e: DirEntry)
    requires (IsFile(e) ==> Resolvable(d, e.link)) && PlainFlags(e)
    ensures ToDentry(Loaded(d, e)) == e
  {
  }

  /** What is loaded projects to what is on disk. */
  lemma LoadedDentries(d: seq<Sector>, es: seq<DirEntry>)
    requires Loadable(d, es) && forall i {:trigger es[i]} :: 0 <= i < |es| ==> PlainFlags(es[i])
    ensures ToDentries(LoadedAll(d, es)) == es
  {
    forall i | 0 <= i < |es|
      ensures ToDentries(LoadedAll(d, es))[i] == es[i]
    {
      LoadedDentry(d, es[i]);
    }
  }

  /** A file's chain does not run through the directory's blocks or through free sectors. */
  ghost predicate Apart(d: seq<Sector>, e: DirEntry, ds: seq<nat>, used: set<nat>)
  {
    exists ix :: LinkChain(d, e.link, ix) && forall x {:trigger x in ix} :: x in ix ==> x in used && x !in ds
  }

  lemma StillLoadable(d: seq<Sector>, e: seq<Sector>, es: seq<DirEntry>, ds: seq<nat>, used: set<nat>, chain: seq<nat>)
    requires forall i {:trigger es[i]} :: 0 <= i < |es| ==> (IsFile(es[i]) ==> Apart(d, es[i], ds, used))
    requires SameOutside(d, e, chain) && forall x {:trigger x in chain} :: x in chain ==> x in ds || x !in used
    ensures Loadable(e, es)
  {
    forall i {:trigger es[i]} | 0 <= i < |es| && IsFile(es[i])
      ensures Resolvable(e, es[i].link)
    {
      var ix :| LinkChain(d, es[i].link, ix) && forall x {:trigger x in ix} :: x in ix ==> x in used && x !in ds;
      ChainFrame(d, e, es[i].link, ix);
    }
  }

  lemma ResizedFrom(ds: seq<nat>, used: set<nat>, chain: seq<nat>, after: set<nat>, k: nat, lo: nat, hi: nat)
    requires Resized(ds, used, chain, after, k, lo, hi)
    ensures forall x {:trigger x in chain} :: x in chain ==> x in ds || x !in used
  {
    if |ds| < k {
      assert chain == ds + chain[|ds|..];
    }
  }

  ghost predicate ChildrenApart(d: seq<Sector>, children: seq<Node>, ds: seq<nat>, used: set<nat>)
  {
    forall i {:trigger children[i]} :: 0 <= i < |children| ==> (children[i].FileNode? ==> Apart(d, ToDentry(children[i]), ds, used))
  }

  lemma ReloadReady(d: seq<Sector>, e: seq<Sector>, children: seq<Node>, ds: seq<nat>, used: set<nat>, chain: seq<nat>)
    requires ChildrenApart(d, children, ds, used) && SameOutside(d, e, chain)
    requires forall x {:trigger x in chain} :: x in chain ==> x in ds || x !in used
    ensures Loadable(e, ToDentries(children)) && ToDentries(LoadedAll(e, ToDentries(children))) == ToDentries(children)
  {
    var es := ToDentries(children);
    forall i {:trigger es[i]} | 0 <= i < |es|
      ensures IsFile(es[i]) ==> Apart(d, es[i], ds, used)
    {
      assert es[i] == ToDentry(children[i]);
    }
    StillLoadable(d, e, es, ds, used, chain);
    LoadedDentries(e, es);
  }

  /** A directory written by `sync` and loaded again has the same entries in the same order. */
  method SyncThenReload(v: Volume, head: LinkPointer, parent: nat, children: seq<Node>, ghost ds: seq<nat>)
      returns (r: FsResult<seq<Node>>)
    requires v.Valid() && DirChain(v.D(), head, ds) && ds != [] && Held(ds, v.U(), v.Lo(), v.dataEnd)
    requires AllNamed(ToDentries(children)) && EntriesFit(ToDentries(children)) && U64(parent)
    requires ChildrenApart(v.D(), children, ds, v.U())
    modifies v.disk, v.bitmap
    ensures r.Failure? ==> v.Exhausted() && BlocksNeeded(|children|) > |ds|
    ensures r.Success? ==> ToDentries(r.value) == ToDentries(children)
  {
    ghost var d, used := v.D(), v.U();
    var synced;
    ghost var chain;
    synced, chain := Sync(v, head, parent, children, ds);
    if synced.Failure? { return Failure(synced.error); }
    ResizedFrom(ds, used, chain, v.U(), BlocksNeeded(|children|), v.Lo(), v.dataEnd);
    ReloadReady(d, v.D(), children, ds, used, chain);
    var back := LoadChildren(v, head, chain);
    r := Success(back);
  }
}
