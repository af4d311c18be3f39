/** The allocator of a user address space, built from its page table (`VMemAllocator` in `memory/virt.rs`). */
module VMem {
  import opened Basics
  import opened PageWalk
  import opened RangeAllocator

  lemma UserSpan()
    ensures PageWalk.Span(256, 4) == USER_END
  {
    SpanIs(256, 4);
  }

  /** Address `x` of the user half is free: its walk ends at an unused entry. */
  ghost predicate UserFree(table: seq<Entry>, x: nat)
    requires |table| == 512 && PageWalk.TableOk(Half(table, User), 4)
  {
    UserSpan();
    x < USER_END && EndsUnused(Half(table, User), 4, x)
  }

  lemma {:induction false} CountAt(rs: seq<Region>, i: nat, a: nat)
    requires i < |rs| && rs[i].start <= a < rs[i].start + rs[i].size
    ensures Count(rs[..i], a) + 1 <= Count(rs, a)
  {
    assert rs == rs[..i] + rs[i..];
    CountConcat(rs[..i], rs[i..], a);
  }

  lemma {:induction false} CountStep(rs: seq<Region>, i: nat, a: nat)
    requires i < |rs|
    ensures Count(rs[..i + 1], a) == Count(rs[..i], a) + if rs[i].start <= a < rs[i].start + rs[i].size then 1 else 0
  {
    assert rs[..i + 1] == rs[..i] + [rs[i]];
    CountConcat(rs[..i], [rs[i]], a);
    assert [rs[i]][1..] == [];
  }

  /** The regions found are apart, not empty and below the user limit. */
  lemma RegionFits(table: seq<Entry>, rs: seq<Region>, i: nat)
    requires |table| == 512 && PageWalk.TableOk(Half(table, User), 4) && rs == Scan(Half(table, User), 4, 0) && i < |rs| && rs[i].size > 0
    ensures rs[i].start + rs[i].size <= USER_END
    ensures forall x: nat :: Inside(x, rs[i].start, rs[i].size) ==> Count(rs[..i], x) == 0
  {
    UserSpan();
    forall x: nat | Inside(x, rs[i].start, rs[i].size)
      ensures Count(rs[..i], x) == 0 && x < USER_END
    {
      CountAt(rs, i, x);
      ScanExact(Half(table, User), 4, 0, x);
    }
    assert Inside(rs[i].start + rs[i].size - 1, rs[i].start, rs[i].size);
  }

  lemma {:induction false} ScanPositive(es: seq<Entry>, level: nat, base: nat, i: nat)
    requires PageWalk.TableOk(es, level) && i < |Scan(es, level, base)|
    ensures Scan(es, level, base)[i].size > 0
    decreases level, 1 + |es|
  {
    var one := ScanOne(es[0], level, base);
    if i < |one| {
      match es[0]
      case Unused =>
      case Next(t) => ScanPositive(t, level - 1, base, i);
    } else {
      ScanPositive(es[1..], level, base + SizeOf(level), i - |one|);
    }
  }

  /** The allocator has exactly the addresses whose walk ends at an unused entry. */
  method NewUser(table: seq<Entry>) returns (a: Allocator)
    requires |table| == 512 && PageWalk.TableOk(table, 4)
    ensures fresh(a) && a.Valid() && PageWalk.TableOk(Half(table, User), 4)
    ensures forall x: nat :: Free(a.free, x) <==> UserFree(table, x)
  {
    var free := FindFreeRanges(table, User);
    a := new Allocator();
    assert free[..0] == [];
    for i := 0 to |free|
      invariant a.Valid() && forall x: nat :: Free(a.free, x) <==> Count(free[..i], x) > 0
      invariant fresh(a)
    {
      ScanPositive(Half(table, User), 4, 0, i);
      RegionFits(table, free, i);
      forall x: nat
        ensures Count(free[..i + 1], x) > 0 <==> Count(free[..i], x) > 0 || Inside(x, free[i].start, free[i].size)
      {
        CountStep(free, i, x);
      }
      a.AddRange(free[i].start, free[i].start + free[i].size);
    }
    assert free[..|free|] == free;
    UserSpan();
    forall x: nat
      ensures Count(free, x) > 0 <==> UserFree(table, x)
    {
      ScanExact(Half(table, User), 4, 0, x);
    }
  }

  /** An empty user half is free throughout. */
  lemma {:induction false} EmptyTableFree(es: seq<Entry>, level: nat, off: nat)
    requires PageWalk.TableOk(es, level) && off < PageWalk.Span(|es|, level) && forall i :: 0 <= i < |es| ==> es[i] == Unused
    ensures EndsUnused(es, level, off)
    decreases |es|
  {
    if off >= SizeOf(level) {
      EmptyTableFree(es[1..], level, off - SizeOf(level));
    }
  }

  // ----- Allocating and reserving pages -----

  /** Larger requests are aligned to larger pages. */
  function AlignFor(count: nat): nat
  {
    if count % 0x4_0000 == 0 then SIZE_L3 else if count % 0x200 == 0 then SIZE_L2 else SIZE_L1
  }

  /** `alloc`: the lowest free run of `count` pages at the alignment its size calls for. */
  method Alloc(a: Allocator, count: nat) returns (r: Option<Region>)
    requires a.Valid() && forall i :: 0 <= i < |a.free| ==> NextMultiple(a.free[i].start, AlignFor(count)) + count * SIZE_L1 < LIMIT
    modifies a
    ensures a.Valid() && (count == 0 ==> r == None)
    ensures r.None? ==> a.free == old(a.free)
    ensures r.None? && count > 0 ==> forall b: nat :: b % AlignFor(count) == 0 ==> !RunFree(old(a.free), b, count * SIZE_L1)
    ensures r.Some? ==> r.value.size == count * SIZE_L1 && r.value.start % AlignFor(count) == 0
    ensures r.Some? ==> RunFree(old(a.free), r.value.start, r.value.size) && Without(old(a.free), a.free, r.value.start, r.value.size)
    ensures r.Some? ==> forall b: nat :: b % AlignFor(count) == 0 && RunFree(old(a.free), b, count * SIZE_L1) ==> r.value.start <= b
  {
    if count == 0 { return None; }
    var start := a.Allocate(count * SIZE_L1, AlignFor(count));
    if start.None? { return None; }
    r := Some(Region(start.value, count * SIZE_L1));
  }

  /** `reserve`: whole pages only, and only if all of them are free. */
  method ReservePages(a: Allocator, start: nat, size: nat) returns (ok: bool)
    requires a.Valid()
    modifies a
    ensures a.Valid()
    ensures ok <==> size % PAGE_SIZE == 0 && start % PAGE_SIZE == 0 && start + size < LIMIT && RunFree(old(a.free), start, size)
    ensures !ok ==> a.free == old(a.free)
    ensures ok ==> Without(old(a.free), a.free, start, size)
  {
    if size % PAGE_SIZE != 0 { return false; }
    if start % PAGE_SIZE != 0 { return false; }
    ok := a.Reserve(start, size);
  }
}
