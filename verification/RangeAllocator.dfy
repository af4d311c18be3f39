/** The allocator of virtual address ranges (`allocators/range.rs`): a sorted, coalesced list of free ranges. */
module RangeAllocator {
  import opened Basics

  const LIMIT: nat := 0x1_0000_0000_0000_0000

  datatype Range = Range(start: nat, length: nat)

  function End(r: Range): nat { r.start + r.length }

  predicate In(r: Range, x: nat) { r.start <= x < End(r) }

  /** Address `x` is free. */
  ghost predicate Free(rs: seq<Range>, x: nat)
  {
    exists i :: 0 <= i < |rs| && In(rs[i], x)
  }

  ghost predicate SameFree(rs: seq<Range>, ts: seq<Range>)
  {
    forall x :: Free(rs, x) <==> Free(ts, x)
  }

  ghost predicate Sorted(rs: seq<Range>)
  {
    && (forall i :: 0 <= i < |rs| ==> rs[i].length > 0)
    && (forall i, j :: 0 <= i < j < |rs| ==> End(rs[i]) <= rs[j].start)
  }

  /** Sorted, with a gap between any two ranges. */
  ghost predicate Canonical(rs: seq<Range>)
  {
    && (forall i :: 0 <= i < |rs| ==> rs[i].length > 0)
    && (forall i, j :: 0 <= i < j < |rs| ==> End(rs[i]) < rs[j].start)
  }

  predicate Apart(r: Range, q: Range) { End(r) <= q.start || End(q) <= r.start }

  ghost predicate PairwiseApart(rs: seq<Range>)
  {
    && (forall i :: 0 <= i < |rs| ==> rs[i].length > 0)
    && (forall i, j :: 0 <= i < j < |rs| ==> Apart(rs[i], rs[j]))
  }

  /** Stable insertion by start. */
  function Insert(r: Range, rs: seq<Range>): seq<Range>
  {
    if rs == [] || r.start <= rs[0].start then [r] + rs else [rs[0]] + Insert(r, rs[1..])
  }

  function SortByStart(rs: seq<Range>): seq<Range>
  {
    if rs == [] then [] else Insert(rs[0], SortByStart(rs[1..]))
  }

  lemma {:induction false} InInsert(r: Range, rs: seq<Range>, q: Range)
    ensures q in Insert(r, rs) <==> q == r || q in rs
  {
    if rs != [] && r.start > rs[0].start {
      InInsert(r, rs[1..], q);
    }
  }

  lemma {:induction false} InsertSorted(r: Range, rs: seq<Range>)
    requires Sorted(rs) && r.length > 0 && forall q :: q in rs ==> Apart(r, q)
    ensures Sorted(Insert(r, rs))
  {
    if rs != [] && r.start > rs[0].start {
      InsertSorted(r, rs[1..]);
      var ts := Insert(r, rs[1..]);
      assert Apart(r, rs[0]);
      forall k | 0 <= k < |ts| ensures End(rs[0]) <= ts[k].start
      {
        InInsert(r, rs[1..], ts[k]);
        if ts[k] != r {
          var j :| 0 <= j < |rs[1..]| && rs[1..][j] == ts[k];
          assert rs[j + 1] == ts[k];
        }
      }
      assert Insert(r, rs) == [rs[0]] + ts;
    } else {
      forall k | 0 <= k < |rs| ensures End(r) <= rs[k].start
      {
        assert rs[k] in rs && Apart(r, rs[k]);
      }
    }
  }

  lemma {:induction false} InSort(rs: seq<Range>, q: Range)
    ensures q in SortByStart(rs) <==> q in rs
  {
    if rs != [] {
      InSort(rs[1..], q);
      InInsert(rs[0], SortByStart(rs[1..]), q);
    }
  }

  /** Sorting ranges that are apart gives a sorted list of the same free addresses. */
  lemma {:induction false} SortSorts(rs: seq<Range>)
    requires PairwiseApart(rs)
    ensures Sorted(SortByStart(rs))
  {
    if rs != [] {
      SortSorts(rs[1..]);
      forall q | q in SortByStart(rs[1..]) ensures Apart(rs[0], q) { InSort(rs[1..], q); }
      InsertSorted(rs[0], SortByStart(rs[1..]));
    }
  }

  lemma {:induction false} SortSame(rs: seq<Range>)
    ensures SameFree(SortByStart(rs), rs)
  {
    var ts := SortByStart(rs);
    forall x ensures Free(ts, x) <==> Free(rs, x)
    {
      if Free(ts, x) {
        var i :| 0 <= i < |ts| && In(ts[i], x);
        InSort(rs, ts[i]);
      }
      if Free(rs, x) {
        var i :| 0 <= i < |rs| && In(rs[i], x);
        InSort(rs, rs[i]);
      }
    }
  }

  /** Range `i` merged with the one after it. */
  function MergeAt(rs: seq<Range>, i: nat): seq<Range>
    requires i + 1 < |rs|
  {
    rs[..i] + [Range(rs[i].start, rs[i].length + rs[i + 1].length)] + rs[i + 2..]
  }

  /** The first `i` ranges have a gap after them. */
  ghost predicate GapsUpTo(rs: seq<Range>, i: nat)
  {
    forall k, l :: 0 <= k < l < |rs| && k < i ==> End(rs[k]) < rs[l].start
  }

  lemma MergeKeeps(rs: seq<Range>, i: nat)
    requires Sorted(rs) && i + 1 < |rs| && End(rs[i]) == rs[i + 1].start && GapsUpTo(rs, i)
    ensures Sorted(MergeAt(rs, i)) && SameFree(MergeAt(rs, i), rs) && GapsUpTo(MergeAt(rs, i), i)
  {
    var ts := MergeAt(rs, i);
    forall k, l | 0 <= k < l < |ts| ensures End(ts[k]) <= ts[l].start && (k < i ==> End(ts[k]) < ts[l].start)
    {
      var k' := if k < i then k else k + 1;
      var l' := if l <= i then l else l + 1;
      assert End(ts[k]) == End(rs[k']) && ts[l].start == rs[l'].start && k' < l';
    }
    forall x ensures Free(ts, x) <==> Free(rs, x) { MergeFree(rs, i, x); }
  }

  lemma MergeFree(rs: seq<Range>, i: nat, x: nat)
    requires i + 1 < |rs| && End(rs[i]) == rs[i + 1].start
    ensures Free(MergeAt(rs, i), x) <==> Free(rs, x)
  {
    var ts := MergeAt(rs, i);
    if Free(ts, x) {
      var k :| 0 <= k < |ts| && In(ts[k], x);
      assert if k < i then In(rs[k], x) else In(rs[k + 1], x) || (k == i && In(rs[k], x));
    }
    if Free(rs, x) {
      var k :| 0 <= k < |rs| && In(rs[k], x);
      assert In(ts[if k <= i then k else k - 1], x);
    }
  }

  /** In a canonical list, an address after range `j - 1` and before range `j` is not free. */
  lemma NotFree(rs: seq<Range>, j: nat, x: nat)
    requires Canonical(rs) && j <= |rs|
    requires j > 0 ==> End(rs[j - 1]) <= x
    requires j < |rs| ==> x < rs[j].start
    ensures !Free(rs, x)
  {
    forall i | 0 <= i < |rs| ensures !In(rs[i], x)
    {
      assert i < j - 1 ==> End(rs[i]) < rs[j - 1].start;
      assert i > j ==> End(rs[j]) < rs[i].start;
    }
  }

  /** A free run lies inside one range. */
  lemma RunInOne(rs: seq<Range>, b: nat, size: nat) returns (i: nat)
    requires Canonical(rs) && size >= 1 && forall x :: b <= x < b + size ==> Free(rs, x)
    ensures i < |rs| && rs[i].start <= b && b + size <= End(rs[i])
  {
    assert Free(rs, b);
    i :| 0 <= i < |rs| && In(rs[i], b);
    if End(rs[i]) < b + size {
      NotFree(rs, i + 1, End(rs[i]));
    }
  }

  /** The canonical list of a set of addresses is unique. */
  lemma {:induction false} CanonicalUnique(a: seq<Range>, b: seq<Range>)
    requires Canonical(a) && Canonical(b) && SameFree(a, b)
    ensures a == b
  {
    if a == [] {
      if b != [] { FirstFree(b); }
    } else {
      FirstFree(a);
      FirstEqual(a, b);
      TailSame(a, b);
      CanonicalUnique(a[1..], b[1..]);
    }
  }

  lemma FirstFree(a: seq<Range>)
    requires Canonical(a) && a != []
    ensures Free(a, a[0].start)
  {
    assert In(a[0], a[0].start);
  }

  lemma FirstBelow(a: seq<Range>, b: seq<Range>)
    requires Canonical(a) && Canonical(b) && SameFree(a, b) && a != [] && b != []
    ensures b[0].start <= a[0].start && (a[0].start == b[0].start ==> End(b[0]) <= End(a[0]))
  {
    assert In(a[0], a[0].start) && Free(a, a[0].start);
    var k :| 0 <= k < |b| && In(b[k], a[0].start);
    assert k > 0 ==> End(b[0]) < b[k].start;
    var e := End(a[0]);
    NotFree(a, 1, e);
    assert In(b[0], e) ==> Free(b, e);
  }

  lemma FirstEqual(a: seq<Range>, b: seq<Range>)
    requires Canonical(a) && Canonical(b) && SameFree(a, b) && a != [] && b != []
    ensures a[0] == b[0]
  {
    FirstBelow(a, b);
    FirstBelow(b, a);
  }

  lemma TailSame(a: seq<Range>, b: seq<Range>)
    requires Canonical(a) && Canonical(b) && SameFree(a, b) && a != [] && b != [] && a[0] == b[0]
    ensures SameFree(a[1..], b[1..])
  {
    forall x ensures Free(a[1..], x) <==> Free(b[1..], x)
    {
      TailFree(a, x);
      TailFree(b, x);
    }
  }

  lemma TailFree(a: seq<Range>, x: nat)
    requires Canonical(a) && a != []
    ensures Free(a[1..], x) <==> Free(a, x) && !In(a[0], x)
  {
    if Free(a[1..], x) {
      var i :| 0 <= i < |a[1..]| && In(a[1..][i], x);
      assert In(a[i + 1], x);
    }
    if Free(a, x) && !In(a[0], x) {
      var i :| 0 <= i < |a| && In(a[i], x);
      assert In(a[1..][i - 1], x);
    }
  }

  predicate Inside(x: nat, start: nat, size: nat) { start <= x < start + size }

  /** Every address of the run is free. */
  ghost predicate RunFree(rs: seq<Range>, start: nat, size: nat)
  {
    forall x :: Inside(x, start, size) ==> Free(rs, x)
  }

  /** `ts` has the free addresses of `rs` without the run. */
  ghost predicate Without(rs: seq<Range>, ts: seq<Range>, start: nat, size: nat)
  {
    forall x :: Free(ts, x) <==> Free(rs, x) && !Inside(x, start, size)
  }

  /** `ts` has the free addresses of `rs` and the run. */
  ghost predicate With(rs: seq<Range>, ts: seq<Range>, start: nat, size: nat)
  {
    forall x :: Free(ts, x) <==> Free(rs, x) || Inside(x, start, size)
  }

  /** `start.next_multiple_of(align)`. */
  function NextMultiple(start: nat, align: nat): nat
    requires align >= 1
  {
    if start % align == 0 then start else start + align - start % align
  }

  /** It is the least multiple of `align` that is at least `start`. */
  lemma NextMultipleLeast(start: nat, align: nat, b: nat)
    requires align >= 1
    ensures NextMultiple(start, align) >= start && NextMultiple(start, align) % align == 0
    ensures b >= start && b % align == 0 ==> b >= NextMultiple(start, align)
  {
    var q, m := start / align, start % align;
    assert start == align * q + m;
    if m != 0 {
      assert start + align - m == align * (q + 1);
      MultipleMod(q + 1, align);
      if b >= start && b % align == 0 {
        NextQuotient(start, align, b);
      }
    }
  }

  lemma NextQuotient(start: nat, align: nat, b: nat)
    requires align >= 1 && b >= start && b % align == 0 && start % align != 0
    ensures b >= align * (start / align + 1)
  {
    var q, p := start / align, b / align;
    assert start == align * q + start % align && b == align * p;
    assert p <= q ==> align * p <= align * q;
    assert p > q ==> align * p >= align * (q + 1);
  }

  lemma MultipleMod(k: nat, align: nat)
    requires align >= 1
    ensures (align * k) % align == 0
  {
    var x := align * k;
    var d := x / align - k;
    assert x == align * (x / align) + x % align;
    assert align * (x / align) == align * k + align * d;
    assert d >= 1 ==> align * d >= align;
    assert d <= -1 ==> align * d <= 0 - align;
  }

  /** Removing range `i` of a canonical list removes its addresses. */
  lemma Removed(rs: seq<Range>, i: nat)
    requires Canonical(rs) && i < |rs|
    ensures PairwiseApart(rs[..i] + rs[i + 1..])
    ensures forall x :: Free(rs[..i] + rs[i + 1..], x) <==> Free(rs, x) && !In(rs[i], x)
  {
    var ts := rs[..i] + rs[i + 1..];
    assert forall k :: 0 <= k < |ts| ==> ts[k] == rs[if k < i then k else k + 1];
    forall x ensures Free(ts, x) <==> Free(rs, x) && !In(rs[i], x) { RemovedFree(rs, i, x); }
  }

  lemma RemovedFree(rs: seq<Range>, i: nat, x: nat)
    requires Canonical(rs) && i < |rs|
    ensures Free(rs[..i] + rs[i + 1..], x) <==> Free(rs, x) && !In(rs[i], x)
  {
    var a, b := rs[..i], rs[i + 1..];
    FreeConcat(a, b, x);
    FreeConcat(rs[..i + 1], b, x);
    FreeConcat(a, [rs[i]], x);
    assert rs == rs[..i + 1] + b && rs[..i + 1] == a + [rs[i]];
    assert Free([rs[i]], x) <==> In([rs[i]][0], x);
    assert forall k :: 0 <= k < |a| ==> End(a[k]) < rs[i].start;
    assert forall k :: 0 <= k < |b| ==> End(rs[i]) < b[k].start;
  }

  lemma FreeConcat(a: seq<Range>, b: seq<Range>, x: nat)
    ensures Free(a + b, x) <==> Free(a, x) || Free(b, x)
  {
    var ts := a + b;
    if Free(a, x) {
      var k :| 0 <= k < |a| && In(a[k], x);
      assert In(ts[k], x);
    }
    if Free(b, x) {
      var k :| 0 <= k < |b| && In(b[k], x);
      assert In(ts[|a| + k], x);
    }
  }

  /** Pushing a range of addresses that are not free adds those addresses. */
  lemma Pushed(rs: seq<Range>, r: Range)
    requires PairwiseApart(rs) && r.length > 0 && forall x :: In(r, x) ==> !Free(rs, x)
    ensures PairwiseApart(rs + [r])
    ensures forall x :: Free(rs + [r], x) <==> Free(rs, x) || In(r, x)
  {
    var ts := rs + [r];
    forall k | 0 <= k < |rs| ensures Apart(rs[k], r)
    {
      var x := if rs[k].start < r.start then r.start else rs[k].start;
      assert In(rs[k], x) ==> Free(rs, x);
    }
    forall x ensures Free(ts, x) <==> Free(rs, x) || In(r, x)
    {
      if Free(rs, x) {
        var k :| 0 <= k < |rs| && In(rs[k], x);
        assert In(ts[k], x);
      }
      if In(r, x) { assert In(ts[|rs|], x); }
    }
  }

  /** What a range has before `a`, and from `b` on. */
  ghost function Before(r: Range, a: nat): seq<Range>
    requires r.start <= a
  {
    if a > r.start then [Range(r.start, a - r.start)] else []
  }

  ghost function After(r: Range, b: nat): seq<Range>
    requires b <= End(r)
  {
    if End(r) - b != 0 then [Range(b, End(r) - b)] else []
  }

  lemma PushedParts(rs: seq<Range>, parts: seq<Range>)
    requires PairwiseApart(rs) && |parts| <= 1
    requires parts != [] ==> parts[0].length > 0 && forall x :: In(parts[0], x) ==> !Free(rs, x)
    ensures PairwiseApart(rs + parts) && forall x :: Free(rs + parts, x) <==> Free(rs, x) || (parts != [] && In(parts[0], x))
  {
    if parts != [] {
      Pushed(rs, parts[0]);
      assert rs + parts == rs + [parts[0]];
    } else {
      assert rs + parts == rs;
    }
  }

  /** Cutting a run out of a range removes exactly the run. */
  lemma CutApart(rs: seq<Range>, i: nat, a: nat, size: nat, cut: seq<Range>)
    requires Canonical(rs) && i < |rs| && rs[i].start <= a && a + size <= End(rs[i])
    requires cut == rs[..i] + rs[i + 1..] + Before(rs[i], a) + After(rs[i], a + size)
    ensures PairwiseApart(cut) && RunFree(rs, a, size) && Without(rs, cut, a, size)
  {
    var gone := rs[..i] + rs[i + 1..];
    Removed(rs, i);
    PushedParts(gone, Before(rs[i], a));
    PushedParts(gone + Before(rs[i], a), After(rs[i], a + size));
    assert forall x :: In(rs[i], x) ==> Free(rs, x);
  }

  class Allocator {
    var free: seq<Range>

    /** The list is canonical and no range reaches past the address space. */
    ghost predicate Valid()
      reads this
    {
      Canonical(free) && forall i :: 0 <= i < |free| ==> End(free[i]) < LIMIT
    }

    constructor ()
      ensures Valid() && free == []
    {
      free := [];
    }

    /** Sorts, then merges touching neighbours. */
    method Coalesce()
      requires PairwiseApart(free)
      modifies this
      ensures Canonical(free) && SameFree(free, old(free))
    {
      ghost var was := free;
      SortSorts(free);
      SortSame(free);
      free := SortByStart(free);
      var i := 0;
      while i + 1 < |free|
        invariant i == 0 || i < |free|
        invariant Sorted(free) && SameFree(free, was)
        invariant GapsUpTo(free, i)
        decreases |free| - i
      {
        if End(free[i]) == free[i + 1].start {
          ghost var merged := MergeAt(free, i);
          MergeKeeps(free, i);
          assert SameFree(merged, was);
          free := free[..i] + [Range(free[i].start, free[i].length + free[i + 1].length)] + free[i + 2..];
          assert free == merged;
        } else {
          ghost var before := i;
          i := i + 1;
          GapAfter(free, before, i);
        }
      }
    }

    /** The lowest aligned free run, taken out of the free set. */
    method Allocate(size: nat, align: nat) returns (r: Option<nat>)
      requires Valid() && align >= 1
      requires forall i :: 0 <= i < |free| ==> NextMultiple(free[i].start, align) + size < LIMIT
      modifies this
      ensures Valid()
      ensures r.None? || size == 0 ==> free == old(free)
      ensures r.None? && size >= 1 ==> forall b: nat :: b % align == 0 ==> !RunFree(old(free), b, size)
      ensures r.Some? ==> r.value % align == 0 && RunFree(old(free), r.value, size)
      ensures r.Some? && size >= 1 ==> forall b: nat :: b % align == 0 && RunFree(old(free), b, size) ==> r.value <= b
      ensures r.Some? ==> Without(old(free), free, r.value, size)
    {
      for i := 0 to |free|
        invariant free == old(free)
        invariant forall k :: 0 <= k < i ==> NextMultiple(free[k].start, align) + size > End(free[k])
      {
        var range := free[i];
        var alignedStart := NextMultiple(range.start, align);
        if alignedStart + size <= End(range) {
          NextMultipleLeast(range.start, align, 0);
          forall b: nat | size >= 1 && b % align == 0 && RunFree(free, b, size) ensures alignedStart <= b
          {
            LowestFit(free, i, align, size, b);
          }
          Take(i, alignedStart, size);
          if size == 0 { CanonicalUnique(old(free), free); }
          return Some(alignedStart);
        }
      }
      forall b: nat | size >= 1 && b % align == 0 ensures !RunFree(free, b, size)
      {
        if RunFree(free, b, size) { LowestFit(free, |free|, align, size, b); }
      }
      return None;
    }

    method Take(i: nat, a: nat, size: nat)
      requires Valid() && i < |free| && free[i].start <= a && a + size <= End(free[i])
      modifies this
      ensures Valid() && RunFree(old(free), a, size) && Without(old(free), free, a, size)
    {
      ghost var was := free;
      var range := free[i];
      free := free[..i] + free[i + 1..];
      if a > range.start {
        free := free + [Range(range.start, a - range.start)];
      }
      var tail := End(range) - (a + size);
      if tail != 0 {
        free := free + [Range(a + size, tail)];
      }
      ghost var cut := free;
      assert cut == was[..i] + was[i + 1..] + Before(range, a) + After(range, a + size);
      CutApart(was, i, a, size, cut);
      Coalesce();
      BoundedBy(was, free);
    }

    /** Adds `[start, end)` to the free set. */
    method AddRange(start: nat, end: nat)
      requires Valid() && start < end < LIMIT && forall x :: Inside(x, start, end - start) ==> !Free(free, x)
      modifies this
      ensures Valid() && With(old(free), free, start, end - start)
    {
      FreeRange(start, end - start);
    }

    /** Gives a run back. */
    method FreeRange(base: nat, size: nat)
      requires Valid() && size >= 1 && base + size < LIMIT && forall x :: Inside(x, base, size) ==> !Free(free, x)
      modifies this
      ensures Valid() && With(old(free), free, base, size)
    {
      ghost var was, r := free, Range(base, size);
      assert forall x :: In(r, x) ==> Inside(x, base, size);
      Pushed(free, r);
      free := free + [Range(base, size)];
      ghost var all := free;
      Coalesce();
      BoundedBy(all, free);
    }

    /** Takes exactly `[start, start + size)`; succeeds if and only if all of it is free. */
    method Reserve(start: nat, size: nat) returns (ok: bool)
      requires Valid()
      modifies this
      ensures Valid()
      ensures ok <==> start + size < LIMIT && RunFree(old(free), start, size)
      ensures !ok ==> free == old(free)
      ensures ok ==> Without(old(free), free, start, size)
    {
      if start + size >= LIMIT {
        return false;
      }
      if size == 0 {
        return true;
      }
      ghost var was := free;
      assert PairwiseApart(free);
      Coalesce();
      CanonicalUnique(was, free);
      var end := start + size;
      var covered := Covers(start, end);
      if !covered {
        return false;
      }
      CutOut(start, end);
      return true;
    }

    /** The walk of `Reserve`: are all of `[start, end)` free? */
    method Covers(start: nat, end: nat) returns (ok: bool)
      requires Canonical(free) && start < end
      ensures ok <==> RunFree(free, start, end - start)
    {
      var cursor := start;
      for i := 0 to |free|
        invariant start <= cursor < end && (i > 0 ==> End(free[i - 1]) <= cursor)
        invariant forall x :: start <= x < cursor ==> Free(free, x)
      {
        if End(free[i]) > cursor {
          if free[i].start > cursor {
            NotFree(free, i, cursor);
            assert Inside(cursor, start, end - start);
            return false;
          }
          assert forall x :: cursor <= x < End(free[i]) ==> In(free[i], x);
          cursor := End(free[i]);
          if cursor >= end {
            return true;
          }
        }
      }
      NotFree(free, |free|, cursor);
      assert Inside(cursor, start, end - start);
      return false;
    }

    /** The rewrite of `Reserve`: every range loses what it has of `[start, end)`. */
    method CutOut(start: nat, end: nat)
      requires Valid() && start < end
      modifies this
      ensures Valid() && Without(old(free), free, start, end - start)
    {
      var kept := [];
      ghost var was := free;
      for i := 0 to |free|
        invariant free == was && PairwiseApart(kept)
        invariant forall x: nat :: Free(kept, x) <==> Free(free[..i], x) && !(start <= x < end)
      {
        var range := free[i];
        Extended(free, i);
        ghost var before := kept;
        if End(range) <= start || range.start >= end {
          Pushed(kept, range);
          kept := kept + [range];
        } else {
          if range.start < start {
            Pushed(kept, Range(range.start, start - range.start));
            kept := kept + [Range(range.start, start - range.start)];
          }
          if End(range) > end {
            Pushed(kept, Range(end, End(range) - end));
            kept := kept + [Range(end, End(range) - end)];
          }
        }
      }
      assert free[..|free|] == free;
      free := kept;
      Coalesce();
      BoundedBy(was, free);
    }

    /** Freeing what was just allocated restores the very same list. */
    method AllocateThenFree(size: nat, align: nat) returns (r: Option<nat>)
      requires Valid() && size >= 1 && align >= 1
      requires forall i :: 0 <= i < |free| ==> NextMultiple(free[i].start, align) + size < LIMIT
      modifies this
      ensures Valid() && free == old(free)
    {
      ghost var was := free;
      r := Allocate(size, align);
      if r.Some? {
        assert Inside(r.value + size - 1, r.value, size) && Free(was, r.value + size - 1);
        FreeRange(r.value, size);
        CanonicalUnique(was, free);
      }
    }
  }

  lemma Extended(rs: seq<Range>, i: nat)
    requires Canonical(rs) && i < |rs|
    ensures forall x :: Free(rs[..i + 1], x) <==> Free(rs[..i], x) || In(rs[i], x)
    ensures forall x :: In(rs[i], x) ==> !Free(rs[..i], x)
  {
    assert rs[..i + 1] == rs[..i] + [rs[i]];
    forall x | In(rs[i], x) ensures !Free(rs[..i], x)
    {
      assert forall k :: 0 <= k < i ==> End(rs[k]) < rs[i].start;
    }
    Pushed(rs[..i], rs[i]);
  }

  lemma GapAfter(rs: seq<Range>, i: nat, j: nat)
    requires Sorted(rs) && GapsUpTo(rs, i) && j == i + 1 < |rs| && End(rs[i]) != rs[j].start
    ensures GapsUpTo(rs, j)
  {
    forall l | i < l < |rs| ensures End(rs[i]) < rs[l].start
    {
      assert l > i + 1 ==> End(rs[i + 1]) <= rs[l].start;
    }
  }

  /** Ranges of a smaller free set do not reach further. */
  lemma BoundedBy(was: seq<Range>, now: seq<Range>)
    requires Canonical(now) && forall i :: 0 <= i < |was| ==> End(was[i]) < LIMIT
    requires forall x :: Free(now, x) ==> Free(was, x)
    ensures forall i :: 0 <= i < |now| ==> End(now[i]) < LIMIT
  {
    forall i | 0 <= i < |now| ensures End(now[i]) < LIMIT
    {
      var x := End(now[i]) - 1;
      assert In(now[i], x) && Free(now, x);
    }
  }

  /** An aligned free run is not below the first range that fits. */
  lemma LowestFit(rs: seq<Range>, i: nat, align: nat, size: nat, b: nat)
    requires Canonical(rs) && i <= |rs| && align >= 1 && size >= 1 && b % align == 0 && RunFree(rs, b, size)
    requires forall k :: 0 <= k < i ==> NextMultiple(rs[k].start, align) + size > End(rs[k])
    requires i < |rs| ==> NextMultiple(rs[i].start, align) + size <= End(rs[i])
    ensures i < |rs| && NextMultiple(rs[i].start, align) <= b
  {
    assert forall x :: b <= x < b + size ==> Inside(x, b, size);
    var j := RunInOne(rs, b, size);
    NextMultipleLeast(rs[j].start, align, b);
    assert i < j ==> End(rs[i]) < rs[j].start;
  }
}
