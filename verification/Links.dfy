/**
 * Extent chains (`fs/lemonfs/links.rs`, `build_file_chain` in `fs/lemonfs/mod.rs`): a file's head is one
 * extent, or a chain of link blocks that hold 31 extents each and a pointer to the next block.
 */
module Links {
  import opened Disk
  import opened FsCodec
  import opened SectorView

  predicate Valid(p: LinkPointer)
  {
    p.start != 0
  }

  predicate Direct(p: LinkPointer)
  {
    p.size != 0
  }

  /** The extents among some link slots. */
  function Extents(ps: seq<LinkPointer>): (r: seq<LinkPointer>)
    ensures forall i :: 0 <= i < |r| ==> Valid(r[i]) && Direct(r[i])
  {
    if ps == [] then [] else (if Valid(ps[0]) && Direct(ps[0]) then [ps[0]] else []) + Extents(ps[1..])
  }

  function Slots(s: Sector): (ps: seq<LinkPointer>)
    ensures |ps| == 31
  {
    LinksOf(s)[..31]
  }

  function Next(s: Sector): LinkPointer
  {
    LinksOf(s)[31]
  }

  // ----- Chains -----

  /** From `p` the link blocks `ix` follow one another, and then the chain ends. */
  predicate LinkChain(d: seq<Sector>, p: LinkPointer, ix: seq<nat>)
    decreases |ix|
  {
    if !Valid(p) || Direct(p) then ix == []
    else ix != [] && ix[0] == p.start && p.start < |d| && LinkChain(d, Next(d[p.start]), ix[1..])
  }

  /** The extents of a chain, in order. */
  function Directs(d: seq<Sector>, p: LinkPointer, ix: seq<nat>): (r: seq<LinkPointer>)
    requires LinkChain(d, p, ix)
    ensures forall i :: 0 <= i < |r| ==> Valid(r[i]) && Direct(r[i])
    decreases |ix|
  {
    if !Valid(p) then []
    else if Direct(p) then [p]
    else Extents(Slots(d[p.start])) + Directs(d, Next(d[p.start]), ix[1..])
  }

  /** A blank link block has no extents and ends its chain. */
  lemma BlankEnds()
    ensures Extents(Slots(Blank())) == [] && Next(Blank()) == NO_LINK
  {
    BlankLinks();
    NoExtents(Slots(Blank()));
  }

  lemma {:induction false} NoExtents(ps: seq<LinkPointer>)
    requires forall i {:trigger ps[i]} :: 0 <= i < |ps| ==> ps[i] == NO_LINK
    ensures Extents(ps) == []
  {
    if ps != [] { NoExtents(ps[1..]); }
  }

  lemma {:induction false} ChainUnique(d: seq<Sector>, p: LinkPointer, a: seq<nat>, b: seq<nat>)
    requires LinkChain(d, p, a) && LinkChain(d, p, b)
    ensures a == b
    decreases |a|
  {
    if Valid(p) && !Direct(p) {
      ChainUnique(d, Next(d[p.start]), a[1..], b[1..]);
      assert a == [a[0]] + a[1..] && b == [b[0]] + b[1..];
    }
  }

  /** A chain depends on its own link blocks alone. */
  lemma {:induction false} ChainFrame(d: seq<Sector>, e: seq<Sector>, p: LinkPointer, ix: seq<nat>)
    requires LinkChain(d, p, ix) && |d| == |e|
    requires forall x :: x in ix && x < |d| ==> d[x] == e[x]
    ensures LinkChain(e, p, ix) && Directs(e, p, ix) == Directs(d, p, ix)
    decreases |ix|
  {
    if Valid(p) && !Direct(p) {
      assert ix[0] in ix;
      ChainFrame(d, e, Next(d[p.start]), ix[1..]);
    }
  }

  // ----- Following a chain -----

  function Pointers(ix: seq<nat>): (r: seq<LinkPointer>)
    ensures |r| == |ix| && forall i {:trigger r[i]} :: 0 <= i < |ix| ==> r[i] == LinkPointer(ix[i], 0)
  {
    seq(|ix|, i requires 0 <= i < |ix| => LinkPointer(ix[i], 0))
  }

  lemma PointersStep(ix: seq<nat>, done: nat)
    requires done < |ix|
    ensures Pointers(ix[..done + 1]) == Pointers(ix[..done]) + [LinkPointer(ix[done], 0)]
  {
  }

  /** After `done` link blocks the extents `seen` are known and the chain goes on at `ptr`. */
  ghost predicate Progress(d: seq<Sector>, start: LinkPointer, ix: seq<nat>, done: nat, seen: seq<LinkPointer>, ptr: LinkPointer)
  {
    done <= |ix| && LinkChain(d, start, ix) && LinkChain(d, ptr, ix[done..])
    && Directs(d, start, ix) == seen + Directs(d, ptr, ix[done..])
  }

  lemma {:induction false} ProgressStart(d: seq<Sector>, start: LinkPointer, ix: seq<nat>)
    requires LinkChain(d, start, ix)
    ensures Progress(d, start, ix, 0, [], start)
  {
    assert ix[0..] == ix;
    assert [] + Directs(d, start, ix) == Directs(d, start, ix);
  }

  lemma ProgressStep(d: seq<Sector>, start: LinkPointer, ix: seq<nat>, done: nat, seen: seq<LinkPointer>, ptr: LinkPointer)
    requires Progress(d, start, ix, done, seen, ptr) && Valid(ptr) && !Direct(ptr)
    ensures done < |ix| && ptr == LinkPointer(ix[done], 0) && ptr.start < |d|
    ensures Progress(d, start, ix, done + 1, seen + Extents(Slots(d[ptr.start])), Next(d[ptr.start]))
  {
    assert ix[done..][1..] == ix[done + 1..];
    var e, f := Extents(Slots(d[ptr.start])), Directs(d, Next(d[ptr.start]), ix[done + 1..]);
    assert seen + (e + f) == seen + e + f;
  }

  lemma {:induction false} ProgressEnd(d: seq<Sector>, start: LinkPointer, ix: seq<nat>, done: nat, seen: seq<LinkPointer>, ptr: LinkPointer)
    requires Progress(d, start, ix, done, seen, ptr) && (!Valid(ptr) || Direct(ptr))
    ensures done == |ix| && Directs(d, start, ix) == if Valid(ptr) then seen + [ptr] else seen
  {
    assert seen + [] == seen;
  }

  /** `trace` returns the extents and the link blocks of a chain. */
  method Trace(disk: Disk, start: LinkPointer, ghost ix: seq<nat>)
      returns (r: FsResult<(seq<LinkPointer>, seq<LinkPointer>)>)
    requires LinkChain(disk.sectors, start, ix)
    ensures r == Success((Directs(disk.sectors, start, ix), Pointers(ix)))
  {
    ghost var d := disk.sectors;
    var direct: seq<LinkPointer>, indirect: seq<LinkPointer> := [], [];
    var ptr := start;
    ghost var done: nat, seen: seq<LinkPointer> := 0, [];
    ProgressStart(d, start, ix);
    while Valid(ptr)
      invariant Progress(d, start, ix, done, seen, ptr)
      invariant direct == seen && indirect == Pointers(ix[..done])
      decreases |ix| - done
    {
      if Direct(ptr) {
        direct := direct + [ptr];
        break;
      }
      ProgressStep(d, start, ix, done, seen, ptr);
      PointersStep(ix, done);
      var block := disk.ReadSector(ptr.start);
      direct := direct + Extents(Slots(block.value));
      indirect := indirect + [ptr];
      ptr := Next(block.value);
      seen, done := direct, done + 1;
    }
    ProgressEnd(d, start, ix, done, seen, ptr);
    assert ix[..done] == ix;
    r := Success((direct, indirect));
  }

  /** What `resolve_link` makes of a link block: its extents, then its next pointer if there is one. */
  function Resolved(s: Sector): seq<LinkPointer>
  {
    if Valid(Next(s)) then Extents(Slots(s)) + [Next(s)] else Extents(Slots(s))
  }

  method ResolveLink(disk: Disk, link: LinkPointer) returns (r: FsResult<seq<LinkPointer>>)
    requires Valid(link) && !Direct(link) ==> link.start < |disk.sectors|
    ensures !Valid(link) ==> r == Success([])
    ensures Valid(link) && Direct(link) ==> r == Success([link])
    ensures Valid(link) && !Direct(link) ==> r == Success(Resolved(disk.sectors[link.start]))
  {
    if !Valid(link) { return Success([]); }
    if Direct(link) { return Success([link]); }
    var block := disk.ReadSector(link.start);
    var res := Extents(Slots(block.value));
    var last := Next(block.value);
    if Valid(last) { res := res + [last]; }
    r := Success(res);
  }

  /** The stack of `resolve_links`: the extents seen, topped by the pointer to go on with unless there is none. */
  ghost predicate Stacked(stack: seq<LinkPointer>, seen: seq<LinkPointer>, ptr: LinkPointer)
  {
    (stack == seen + [ptr] || (stack == seen && !Valid(ptr)))
    && forall i :: 0 <= i < |seen| ==> Valid(seen[i]) && Direct(seen[i])
  }

  lemma Popped(stack: seq<LinkPointer>, seen: seq<LinkPointer>, ptr: LinkPointer)
    requires Stacked(stack, seen, ptr) && stack != []
    ensures
      var link, rest := stack[|stack| - 1], stack[..|stack| - 1];
      if !Valid(link) then rest == seen && !Valid(ptr)
      else if Direct(link) then rest + [link] == stack && stack == if Valid(ptr) then seen + [ptr] else seen
      else rest == seen && link == ptr
    ensures Valid(stack[|stack| - 1]) && Direct(stack[|stack| - 1]) && Valid(ptr) ==> Direct(ptr)
  {
  }

  lemma Pushed(seen: seq<LinkPointer>, s: Sector)
    requires forall i :: 0 <= i < |seen| ==> Valid(seen[i]) && Direct(seen[i])
    ensures Stacked(seen + Resolved(s), seen + Extents(Slots(s)), Next(s))
  {
    assert seen + (Extents(Slots(s)) + [Next(s)]) == seen + Extents(Slots(s)) + [Next(s)];
  }

  /** `resolve_links` agrees with `trace` on the extents. */
  method ResolveLinks(disk: Disk, start: LinkPointer, ghost ix: seq<nat>) returns (r: FsResult<seq<LinkPointer>>)
    requires LinkChain(disk.sectors, start, ix)
    ensures r == Success(Directs(disk.sectors, start, ix))
  {
    ghost var d := disk.sectors;
    var stack := [start];
    ghost var done: nat, seen: seq<LinkPointer>, ptr := 0, [], start;
    ProgressStart(d, start, ix);
    while stack != []
      invariant Progress(d, start, ix, done, seen, ptr) && Stacked(stack, seen, ptr)
      decreases |ix| - done
    {
      Popped(stack, seen, ptr);
      var link := stack[|stack| - 1];
      stack := stack[..|stack| - 1];
      if !Valid(link) { break; }
      if Direct(link) {
        stack := stack + [link];
        break;
      }
      ProgressStep(d, start, ix, done, seen, ptr);
      Pushed(seen, d[link.start]);
      var more := ResolveLink(disk, link);
      stack := stack + more.value;
      seen, ptr, done := seen + Extents(Slots(d[link.start])), Next(d[link.start]), done + 1;
    }
    ProgressEnd(d, start, ix, done, seen, ptr);
    r := Success(stack);
  }
}
