/**
 * The walk over a 4-level page table that finds the free parts of an address space
 * (`find_free_ranges`, `index_to_addr` and `VMemAllocator` in `memory/virt.rs`).
 */
module PageWalk {
  /** An entry: unused, a mapped page (of any size), or the next table. */
  datatype Entry = Unused | Mapped | Next(table: seq<Entry>)

  datatype Region = Region(start: nat, size: nat)

  const SIZE_L1: nat := 0x1000
  const SIZE_L2: nat := 0x20_0000
  const SIZE_L3: nat := 0x4000_0000
  const SIZE_L4: nat := 0x80_0000_0000
  const USER_END: nat := 0x8000_0000_0000
  const KERNEL_START: nat := 0xFFFF_8000_0000_0000

  /** The bytes that one entry of a level covers. */
  function SizeOf(level: nat): (r: nat)
    ensures r > 0
  {
    if level <= 1 then SIZE_L1 else if level == 2 then SIZE_L2 else if level == 3 then SIZE_L3 else SIZE_L4
  }

  /** The bytes that `n` entries of a level cover. */
  function Span(n: nat, level: nat): nat
  {
    if n == 0 then 0 else SizeOf(level) + Span(n - 1, level)
  }

  lemma {:induction false} SpanIs(n: nat, level: nat)
    ensures Span(n, level) == n * SizeOf(level)
  {
    if n > 0 {
      SpanIs(n - 1, level);
    }
  }

  /** A table of 512 entries covers what one entry of the level above does. */
  lemma {:induction false} TableSpan(level: nat)
    requires 1 < level <= 4
    ensures Span(512, level - 1) == SizeOf(level)
  {
    SpanIs(512, level - 1);
  }

  /** Tables hold 512 entries; level 4 maps no page itself, and level 1 has no tables below it. */
  ghost predicate EntryOk(e: Entry, level: nat)
    decreases level, 0
  {
    match e
    case Unused => true
    case Mapped => level < 4
    case Next(t) => 1 < level <= 4 && |t| == 512 && TableOk(t, level - 1)
  }

  ghost predicate TableOk(es: seq<Entry>, level: nat)
    decreases level, 1
  {
    forall i :: 0 <= i < |es| ==> EntryOk(es[i], level)
  }

  // ----- The walk of one address -----

  /** The walk of the address at `off` into this entry ends at an unused entry. */
  ghost predicate EntryUnused(e: Entry, level: nat, off: nat)
    requires EntryOk(e, level) && off < SizeOf(level)
    decreases level, 0
  {
    match e
    case Unused => true
    case Mapped => false
    case Next(t) => TableSpan(level); EndsUnused(t, level - 1, off)
  }

  /** The walk of the address at `off` into these entries ends at an unused entry. */
  ghost predicate EndsUnused(es: seq<Entry>, level: nat, off: nat)
    requires TableOk(es, level) && off < Span(|es|, level)
    decreases level, 1 + |es|
  {
    if off < SizeOf(level) then EntryUnused(es[0], level, off) else EndsUnused(es[1..], level, off - SizeOf(level))
  }

  /** It looks up the entry at the offset's index, and goes on below it with what is left of the offset. */
  lemma {:induction false} EndsUnusedAt(es: seq<Entry>, level: nat, i: nat, rest: nat)
    requires TableOk(es, level) && i < |es| && rest < SizeOf(level)
    ensures i * SizeOf(level) + rest < Span(|es|, level)
    ensures EndsUnused(es, level, i * SizeOf(level) + rest) == EntryUnused(es[i], level, rest)
    decreases i
  {
    if i > 0 {
      EndsUnusedAt(es[1..], level, i - 1, rest);
      assert i * SizeOf(level) == (i - 1) * SizeOf(level) + SizeOf(level);
    }
  }

  // ----- What the scan returns -----

  ghost function Scan(es: seq<Entry>, level: nat, base: nat): seq<Region>
    requires TableOk(es, level)
    decreases level, 1 + |es|
  {
    if es == [] then [] else ScanOne(es[0], level, base) + Scan(es[1..], level, base + SizeOf(level))
  }

  ghost function ScanOne(e: Entry, level: nat, base: nat): seq<Region>
    requires EntryOk(e, level)
    decreases level, 0
  {
    match e
    case Unused => [Region(base, SizeOf(level))]
    case Mapped => []
    case Next(t) => Scan(t, level - 1, base)
  }

  /** How many of the regions the address lies in. */
  function Count(rs: seq<Region>, a: nat): nat
  {
    if rs == [] then 0 else (if rs[0].start <= a < rs[0].start + rs[0].size then 1 else 0) + Count(rs[1..], a)
  }

  lemma {:induction false} CountConcat(rs: seq<Region>, ts: seq<Region>, a: nat)
    ensures Count(rs + ts, a) == Count(rs, a) + Count(ts, a)
  {
    if rs == [] {
      assert rs + ts == ts;
    } else {
      assert (rs + ts)[1..] == rs[1..] + ts;
      CountConcat(rs[1..], ts, a);
    }
  }

  lemma {:induction false} EntryExact(e: Entry, level: nat, base: nat, a: nat)
    requires EntryOk(e, level)
    ensures Count(ScanOne(e, level, base), a) == if base <= a < base + SizeOf(level) && EntryUnused(e, level, a - base) then 1 else 0
    decreases level, 0
  {
    match e
    case Unused =>
    case Mapped =>
    case Next(t) =>
      TableSpan(level);
      ScanExact(t, level - 1, base, a);
  }

  /** Every address lies in exactly one region if its walk ends at an unused entry, and in none otherwise. */
  lemma {:induction false} ScanExact(es: seq<Entry>, level: nat, base: nat, a: nat)
    requires TableOk(es, level)
    ensures Count(Scan(es, level, base), a) ==
      if base <= a < base + Span(|es|, level) && EndsUnused(es, level, a - base) then 1 else 0
    decreases level, 1 + |es|
  {
    if es != [] {
      var next := base + SizeOf(level);
      CountConcat(ScanOne(es[0], level, base), Scan(es[1..], level, next), a);
      EntryExact(es[0], level, base, a);
      ScanExact(es[1..], level, next, a);
    }
  }

  // ----- The nested loops -----

  /** The indices give the address; the upper half is sign-extended. The shifted fields do not overlap. */
  function IndexToAddr(l4: nat, l3: nat, l2: nat, l1: nat): nat
    requires l4 < 512 && l3 < 512 && l2 < 512 && l1 < 512
  {
    var addr := l4 * SIZE_L4 + l3 * SIZE_L3 + l2 * SIZE_L2 + l1 * SIZE_L1;
    if addr >= USER_END then addr + 0xFFFF_0000_0000_0000 else addr
  }

  lemma ScanStep(es: seq<Entry>, level: nat, base: nat, i: nat, at: nat, res: seq<Region>)
    requires TableOk(es, level) && i < |es| && Scan(es, level, base) == res + Scan(es[i..], level, at)
    ensures Scan(es, level, base) == res + ScanOne(es[i], level, at) + Scan(es[i + 1..], level, at + SizeOf(level))
  {
    assert es[i..][1..] == es[i + 1..] && es[i..][0] == es[i];
    var one, rest := ScanOne(es[i], level, at), Scan(es[i + 1..], level, at + SizeOf(level));
    assert res + (one + rest) == res + one + rest;
  }

  /** Indices count up from the address of index zero. */
  lemma IndexSteps(l4: nat, l3: nat, l2: nat, l1: nat)
    requires l4 < 512 && l3 < 512 && l2 < 512 && l1 < 512
    ensures IndexToAddr(l4, l3, l2, l1) == IndexToAddr(l4, l3, l2, 0) + l1 * SIZE_L1
    ensures IndexToAddr(l4, l3, l2, 0) == IndexToAddr(l4, l3, 0, 0) + l2 * SIZE_L2
    ensures IndexToAddr(l4, l3, 0, 0) == IndexToAddr(l4, 0, 0, 0) + l3 * SIZE_L3
    ensures IndexToAddr(l4, 0, 0, 0) == if l4 < 256 then l4 * SIZE_L4 else KERNEL_START + (l4 - 256) * SIZE_L4
  {
  }

  lemma {:induction false} ScanStart(es: seq<Entry>, level: nat, base: nat)
    requires TableOk(es, level)
    ensures Scan(es, level, base) == [] + Scan(es[0..], level, base)
  {
    assert es[0..] == es;
  }

  lemma {:induction false} ScanEnd(es: seq<Entry>, level: nat, base: nat, at: nat, res: seq<Region>)
    requires TableOk(es, level) && Scan(es, level, base) == res + Scan(es[|es|..], level, at)
    ensures Scan(es, level, base) == res
  {
    assert res + [] == res;
  }

  method ScanL1(table: seq<Entry>, l4: nat, l3: nat, l2: nat) returns (res: seq<Region>)
    requires |table| == 512 && TableOk(table, 1) && l4 < 512 && l3 < 512 && l2 < 512
    ensures res == Scan(table, 1, IndexToAddr(l4, l3, l2, 0))
  {
    res := [];
    ghost var base := IndexToAddr(l4, l3, l2, 0);
    ghost var at := base;
    ScanStart(table, 1, base);
    for l1 := 0 to 512
      invariant at == base + l1 * SIZE_L1 && Scan(table, 1, base) == res + Scan(table[l1..], 1, at)
    {
      ScanStep(table, 1, base, l1, at, res);
      IndexSteps(l4, l3, l2, l1);
      var entry := table[l1];
      assert EntryOk(entry, 1);
      if entry.Unused? {
        res := res + [Region(IndexToAddr(l4, l3, l2, l1), SIZE_L1)];
      } else {
        assert res + [] == res;
      }
      at := at + SIZE_L1;
    }
    ScanEnd(table, 1, base, at, res);
  }

  method ScanL2(table: seq<Entry>, l4: nat, l3: nat) returns (res: seq<Region>)
    requires |table| == 512 && TableOk(table, 2) && l4 < 512 && l3 < 512
    ensures res == Scan(table, 2, IndexToAddr(l4, l3, 0, 0))
  {
    res := [];
    ghost var base := IndexToAddr(l4, l3, 0, 0);
    ghost var at := base;
    ScanStart(table, 2, base);
    for l2 := 0 to 512
      invariant at == base + l2 * SIZE_L2 && Scan(table, 2, base) == res + Scan(table[l2..], 2, at)
    {
      ScanStep(table, 2, base, l2, at, res);
      IndexSteps(l4, l3, l2, 0);
      var entry := table[l2];
      assert EntryOk(entry, 2);
      match entry {
        case Unused => res := res + [Region(IndexToAddr(l4, l3, l2, 0), SIZE_L2)];
        case Mapped => assert res + [] == res;
        case Next(t) =>
          var inner := ScanL1(t, l4, l3, l2);
          res := res + inner;
      }
      at := at + SIZE_L2;
    }
    ScanEnd(table, 2, base, at, res);
  }

  method ScanL3(table: seq<Entry>, l4: nat) returns (res: seq<Region>)
    requires |table| == 512 && TableOk(table, 3) && l4 < 512
    ensures res == Scan(table, 3, IndexToAddr(l4, 0, 0, 0))
  {
    res := [];
    ghost var base := IndexToAddr(l4, 0, 0, 0);
    ghost var at := base;
    ScanStart(table, 3, base);
    for l3 := 0 to 512
      invariant at == base + l3 * SIZE_L3 && Scan(table, 3, base) == res + Scan(table[l3..], 3, at)
    {
      ScanStep(table, 3, base, l3, at, res);
      IndexSteps(l4, l3, 0, 0);
      var entry := table[l3];
      assert EntryOk(entry, 3);
      match entry {
        case Unused => res := res + [Region(IndexToAddr(l4, l3, 0, 0), SIZE_L3)];
        case Mapped => assert res + [] == res;
        case Next(t) =>
          var inner := ScanL2(t, l4, l3);
          res := res + inner;
      }
      at := at + SIZE_L3;
    }
    ScanEnd(table, 3, base, at, res);
  }

  datatype AddressSpace = Kernel | User

  function FirstIndex(space: AddressSpace): nat
  {
    if space.Kernel? then 256 else 0
  }

  function HalfStart(space: AddressSpace): nat
  {
    if space.Kernel? then KERNEL_START else 0
  }

  /** The level-4 entries of one half. */
  function Half(l4: seq<Entry>, space: AddressSpace): (r: seq<Entry>)
    requires |l4| == 512
    ensures |r| == 256
  {
    if space.Kernel? then l4[256..] else l4[..256]
  }

  /** The free regions of one half of an address space. */
  method FindFreeRanges(table: seq<Entry>, space: AddressSpace) returns (res: seq<Region>)
    requires |table| == 512 && TableOk(table, 4)
    ensures TableOk(Half(table, space), 4) && res == Scan(Half(table, space), 4, HalfStart(space))
  {
    res := [];
    var first := FirstIndex(space);
    ghost var half, base := Half(table, space), HalfStart(space);
    ghost var at := base;
    assert forall i :: 0 <= i < 256 ==> half[i] == table[first + i];
    ScanStart(half, 4, base);
    for i := 0 to 256
      invariant at == base + i * SIZE_L4 && Scan(half, 4, base) == res + Scan(half[i..], 4, at)
    {
      var l4 := first + i;
      ScanStep(half, 4, base, i, at, res);
      IndexSteps(l4, 0, 0, 0);
      var entry := table[l4];
      assert entry == half[i] && EntryOk(entry, 4);
      if entry.Unused? {
        res := res + [Region(IndexToAddr(l4, 0, 0, 0), SIZE_L4)];
      } else {
        var inner := ScanL3(entry.table, l4);
        res := res + inner;
      }
      at := at + SIZE_L4;
    }
    ScanEnd(half, 4, base, at, res);
  }
}
