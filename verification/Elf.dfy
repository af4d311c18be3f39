/** The ELF loader: from program headers to mapped user pages (`elf/loader.rs`). */
module Elf {
  import opened Basics
  import opened Bits
  import opened PageWalk
  import opened RangeAllocator
  import opened VMem

  const PT_LOAD: nat := 1
  const DYN_BASE: nat := 0x40_0000

  datatype LoaderError = NoSegments | BadSegments | OutOfBounds | InvalidMapping | OverlappingSegments
  datatype Result<T> = Ok(value: T) | Err(error: LoaderError)

  datatype Phdr = Phdr(ptype: nat, offset: nat, filesz: nat, vaddr: nat, memsz: nat, flags: nat)
  datatype Segment = Segment(
    virtAddr: nat, start: nat, end: nat, fileStart: nat, fileEnd: nat, memSize: nat, pageOffset: nat, writable: bool, executable: bool)

  /** The fields of a program header are 64-bit numbers. */
  predicate Fits(ph: Phdr)
  {
    ph.offset < LIMIT && ph.filesz < LIMIT && ph.vaddr < LIMIT && ph.memsz < LIMIT
  }

  function CheckedAdd(a: nat, b: nat): Option<nat>
  {
    if a + b < LIMIT then Some(a + b) else None
  }

  // ----- Segments -----

  /** The segment lies in whole pages below the user limit, and its file bytes lie in the file and fit its pages. */
  predicate SegmentOk(s: Segment, dataLen: nat)
  {
    s.start % PAGE_SIZE == 0 && s.end % PAGE_SIZE == 0 && s.start <= s.virtAddr && s.memSize > 0
    && s.virtAddr + s.memSize <= s.end <= USER_END && s.pageOffset == s.virtAddr - s.start
    && s.fileStart <= s.fileEnd <= dataLen && s.fileEnd - s.fileStart <= s.memSize
  }

  /** What a loadable header asks for can be given. */
  predicate Acceptable(ph: Phdr, dataLen: nat, base: nat)
  {
    ph.filesz <= ph.memsz
    && (ph.memsz > 0 ==> ph.offset + ph.filesz <= dataLen && NextMultiple(base + ph.vaddr + ph.memsz, PAGE_SIZE) <= USER_END)
  }

  function SegmentOf(ph: Phdr, base: nat): Segment
  {
    var virtAddr := base + ph.vaddr;
    var start := virtAddr - virtAddr % PAGE_SIZE;
    Segment(virtAddr, start, NextMultiple(virtAddr + ph.memsz, PAGE_SIZE), ph.offset, ph.offset + ph.filesz, ph.memsz,
      virtAddr - start, ph.flags / 2 % 2 == 1, ph.flags % 2 == 1)
  }

  /** The segments of the loadable headers, in order. */
  function SegmentsOf(phs: seq<Phdr>, base: nat): seq<Segment>
  {
    if phs == [] then []
    else
      var rest, ph := SegmentsOf(phs[..|phs| - 1], base), phs[|phs| - 1];
      if ph.ptype == PT_LOAD && ph.memsz > 0 then rest + [SegmentOf(ph, base)] else rest
  }

  lemma NextMultipleBounds(a: nat)
    ensures a <= NextMultiple(a, PAGE_SIZE) < a + PAGE_SIZE && NextMultiple(a, PAGE_SIZE) % PAGE_SIZE == 0
  {
  }

  lemma SegmentOfOk(ph: Phdr, dataLen: nat, base: nat)
    requires Acceptable(ph, dataLen, base) && ph.memsz > 0
    ensures SegmentOk(SegmentOf(ph, base), dataLen)
  {
    NextMultipleBounds(base + ph.vaddr + ph.memsz);
  }

  predicate AllAcceptable(phs: seq<Phdr>, dataLen: nat, base: nat)
  {
    forall i {:trigger phs[i]} :: 0 <= i < |phs| && phs[i].ptype == PT_LOAD ==> Acceptable(phs[i], dataLen, base)
  }

  /** The checks on one header, with the overflow checks of 64-bit arithmetic. */
  method ParseOne(ph: Phdr, dataLen: nat, base: nat) returns (r: Result<Option<Segment>>)
    requires Fits(ph) && ph.ptype == PT_LOAD && dataLen < LIMIT && base < LIMIT
    ensures r.Ok? <==> Acceptable(ph, dataLen, base)
    ensures r.Ok? ==> r.value == if ph.memsz > 0 then Some(SegmentOf(ph, base)) else None
  {
    if ph.filesz > ph.memsz { return Err(BadSegments); }
    if ph.memsz == 0 { return Ok(None); }
    NextMultipleBounds(base + ph.vaddr + ph.memsz);
    var fileEnd := CheckedAdd(ph.offset, ph.filesz);
    if fileEnd.None? || fileEnd.value > dataLen { return Err(OutOfBounds); }
    var virtAddr := CheckedAdd(base, ph.vaddr);
    if virtAddr.None? { return Err(OutOfBounds); }
    var memEnd := CheckedAdd(virtAddr.value, ph.memsz);
    if memEnd.None? { return Err(OutOfBounds); }
    var start := (virtAddr.value / PAGE_SIZE) * PAGE_SIZE;
    var end := NextMultiple(memEnd.value, PAGE_SIZE);
    if end >= LIMIT { return Err(OutOfBounds); }
    if end > USER_END { return Err(OutOfBounds); }
    r := Ok(Some(Segment(virtAddr.value, start, end, ph.offset, fileEnd.value, ph.memsz, virtAddr.value - start,
      ph.flags / 2 % 2 == 1, ph.flags % 2 == 1)));
  }

  /** `parse_segments` accepts exactly the files whose loadable headers all can be met, and at least one of which is not empty. */
  method ParseSegments(phs: Option<seq<Phdr>>, dataLen: nat, base: nat) returns (r: Result<seq<Segment>>)
    requires dataLen < LIMIT && base < LIMIT && (phs.Some? ==> forall i :: 0 <= i < |phs.value| ==> Fits(phs.value[i]))
    ensures r.Ok? <==> phs.Some? && AllAcceptable(phs.value, dataLen, base) && SegmentsOf(phs.value, base) != []
    ensures r.Ok? ==> r.value == SegmentsOf(phs.value, base)
    ensures r.Ok? ==> forall i {:trigger r.value[i]} :: 0 <= i < |r.value| ==> SegmentOk(r.value[i], dataLen)
  {
    if phs.None? { return Err(NoSegments); }
    var headers := phs.value;
    var res: seq<Segment> := [];
    assert headers[..0] == [];
    for k := 0 to |headers|
      invariant res == SegmentsOf(headers[..k], base) && AllAcceptable(headers[..k], dataLen, base)
      invariant forall i {:trigger res[i]} :: 0 <= i < |res| ==> SegmentOk(res[i], dataLen)
    {
      var ph := headers[k];
      assert headers[..k + 1][..k] == headers[..k] && headers[..k + 1][k] == ph;
      if ph.ptype == PT_LOAD {
        var one := ParseOne(ph, dataLen, base);
        if one.Err? { return Err(one.error); }
        if one.value.Some? {
          SegmentOfOk(ph, dataLen, base);
          res := res + [one.value.value];
        }
      }
    }
    assert headers[..|headers|] == headers;
    if res == [] { return Err(NoSegments); }
    r := Ok(res);
  }

  // ----- No overlap -----

  predicate PagesApart(s: Segment, t: Segment)
  {
    s.end <= t.start || t.end <= s.start
  }

  /** No two segments share a page. */
  predicate AllApart(ss: seq<Segment>)
  {
    forall i, j {:trigger ss[i], ss[j]} :: 0 <= i < j < |ss| ==> PagesApart(ss[i], ss[j])
  }

  predicate SortedByStart(ss: seq<Segment>)
  {
    forall i, j {:trigger ss[i], ss[j]} :: 0 <= i < j < |ss| ==> ss[i].start <= ss[j].start
  }

  function Place(s: Segment, ss: seq<Segment>): (r: seq<Segment>)
    ensures |r| == |ss| + 1
  {
    if ss == [] || s.start <= ss[0].start then [s] + ss else [ss[0]] + Place(s, ss[1..])
  }

  function Sort(ss: seq<Segment>): (r: seq<Segment>)
    ensures |r| == |ss|
  {
    if ss == [] then [] else Place(ss[0], Sort(ss[1..]))
  }

  lemma {:induction false} PlaceKeeps(s: Segment, ss: seq<Segment>)
    ensures multiset(Place(s, ss)) == multiset(ss) + multiset{s}
  {
    if ss != [] && s.start > ss[0].start {
      PlaceKeeps(s, ss[1..]);
      assert ss == [ss[0]] + ss[1..];
    }
  }

  lemma {:induction false} SortKeeps(ss: seq<Segment>)
    ensures multiset(Sort(ss)) == multiset(ss)
  {
    if ss != [] {
      SortKeeps(ss[1..]);
      PlaceKeeps(ss[0], Sort(ss[1..]));
      assert ss == [ss[0]] + ss[1..];
    }
  }

  lemma {:induction false} PlaceSorted(s: Segment, ss: seq<Segment>)
    requires SortedByStart(ss)
    ensures SortedByStart(Place(s, ss))
    ensures forall i {:trigger Place(s, ss)[i]} :: 0 <= i < |ss| + 1 ==> Place(s, ss)[i] == s || Place(s, ss)[i] in ss
  {
    if ss != [] && s.start > ss[0].start {
      PlaceSorted(s, ss[1..]);
      var rest := Place(s, ss[1..]);
      forall j {:trigger rest[j]} | 0 <= j < |rest|
        ensures ss[0].start <= rest[j].start
      {
        if rest[j] != s {
          var k :| 0 <= k < |ss[1..]| && ss[1..][k] == rest[j];
          assert ss[k + 1] == rest[j];
        }
      }
    }
  }

  lemma {:induction false} SortSortsSegments(ss: seq<Segment>)
    ensures SortedByStart(Sort(ss))
  {
    if ss != [] {
      SortSortsSegments(ss[1..]);
      PlaceSorted(ss[0], Sort(ss[1..]));
    }
  }

  /** Neighbours of a sorted list are apart. */
  predicate NeighboursApart(ss: seq<Segment>, n: nat)
  {
    forall i, j {:trigger ss[i], ss[j]} :: 0 <= i && j == i + 1 < |ss| && j < n ==> ss[i].end <= ss[j].start
  }

  lemma {:induction false} SortedChain(ss: seq<Segment>, i: nat, j: nat)
    requires SortedByStart(ss) && NeighboursApart(ss, |ss|) && i < j < |ss|
    ensures ss[i].end <= ss[j].start
  {
    assert ss[i].end <= ss[i + 1].start;
    assert i + 1 < j ==> ss[i + 1].start <= ss[j].start;
  }

  lemma {:induction false} ApartOrder(ss: seq<Segment>, ts: seq<Segment>, i: nat, j: nat)
    requires multiset(ss) == multiset(ts) && AllApart(ss) && i < j < |ts|
    requires forall k {:trigger ss[k]} :: 0 <= k < |ss| ==> ss[k].start < ss[k].end
    ensures PagesApart(ts[i], ts[j])
  {
    if ts[i] == ts[j] {
      TwiceIn(ts, i, j);
      var x := ts[i];
      assert multiset(ss)[x] >= 2;
      var k, l := TwoPlaces(ss, x);
    } else {
      assert ts[i] in multiset(ss) && ts[j] in multiset(ss);
      var k :| 0 <= k < |ss| && ss[k] == ts[i];
      var l :| 0 <= l < |ss| && ss[l] == ts[j];
      assert k != l;
    }
  }

  lemma TwiceIn(ts: seq<Segment>, i: nat, j: nat)
    requires i < j < |ts| && ts[i] == ts[j]
    ensures multiset(ts)[ts[i]] >= 2
  {
    var a, b, c := ts[..i], ts[i + 1..j], ts[j + 1..];
    assert ts == a + [ts[i]] + b + [ts[j]] + c;
  }

  lemma {:induction false} TwoPlaces(ss: seq<Segment>, x: Segment) returns (k: nat, l: nat)
    requires multiset(ss)[x] >= 2
    ensures k < l < |ss| && ss[k] == x && ss[l] == x
  {
    assert ss == [ss[0]] + ss[1..];
    if ss[0] == x {
      assert x in multiset(ss[1..]);
      var m :| 0 <= m < |ss[1..]| && ss[1..][m] == x;
      k, l := 0, m + 1;
    } else {
      k, l := TwoPlaces(ss[1..], x);
      k, l := k + 1, l + 1;
    }
  }

  predicate NotEmpty(ss: seq<Segment>)
  {
    forall k {:trigger ss[k]} :: 0 <= k < |ss| ==> ss[k].start < ss[k].end
  }

  /** `check_no_overlap` sorts the segments, and accepts them exactly when no two share a page. */
  method CheckNoOverlap(ss: seq<Segment>) returns (sorted: seq<Segment>, r: Result<()>)
    requires NotEmpty(ss)
    ensures multiset(sorted) == multiset(ss) && SortedByStart(sorted)
    ensures r.Ok? <==> AllApart(ss)
    ensures r.Ok? ==> AllApart(sorted)
  {
    sorted := Sort(ss);
    SortKeeps(ss);
    SortSortsSegments(ss);
    if sorted == [] { return sorted, Ok(()); }
    for i := 1 to |sorted|
      invariant NeighboursApart(sorted, i)
    {
      if sorted[i - 1].end > sorted[i].start {
        Overlapping(ss, sorted, i - 1, i);
        return sorted, Err(OverlappingSegments);
      }
    }
    NoneOverlap(ss, sorted);
    r := Ok(());
  }

  lemma NoneOverlap(ss: seq<Segment>, ts: seq<Segment>)
    requires multiset(ss) == multiset(ts) && NotEmpty(ss) && SortedByStart(ts) && NeighboursApart(ts, |ts|)
    ensures AllApart(ss) && AllApart(ts)
  {
    forall i, j {:trigger ts[i], ts[j]} | 0 <= i < j < |ts|
      ensures PagesApart(ts[i], ts[j])
    {
      SortedChain(ts, i, j);
    }
    Apart(ss, ts);
  }

  lemma Overlapping(ss: seq<Segment>, ts: seq<Segment>, i: nat, j: nat)
    requires multiset(ss) == multiset(ts) && NotEmpty(ss) && SortedByStart(ts) && j == i + 1 < |ts| && ts[i].end > ts[j].start
    ensures !AllApart(ss)
  {
    assert ts[j] in multiset(ss);
    assert ts[j].start < ts[j].end && ts[i].start <= ts[j].start;
    if AllApart(ss) {
      ApartOrder(ss, ts, i, j);
    }
  }

  lemma Apart(ss: seq<Segment>, ts: seq<Segment>)
    requires multiset(ss) == multiset(ts) && NotEmpty(ss) && AllApart(ts)
    ensures AllApart(ss)
  {
    forall k {:trigger ts[k]} | 0 <= k < |ts|
      ensures ts[k].start < ts[k].end
    {
      assert ts[k] in multiset(ss);
    }
    forall i, j {:trigger ss[i], ss[j]} | 0 <= i < j < |ss|
      ensures PagesApart(ss[i], ss[j])
    {
      ApartOrder(ts, ss, i, j);
    }
  }

  // ----- Entry point -----

  predicate InSegment(s: Segment, a: nat)
  {
    s.virtAddr <= a < s.virtAddr + s.memSize
  }

  predicate EntryOk(a: nat, ss: seq<Segment>)
  {
    exists i {:trigger ss[i]} :: 0 <= i < |ss| && ss[i].executable && InSegment(ss[i], a)
  }

  /** The entry point is accepted exactly when an executable segment holds it. */
  method ValidateEntry(entry: nat, base: nat, ss: seq<Segment>) returns (r: Result<nat>)
    requires forall i {:trigger ss[i]} :: 0 <= i < |ss| ==> ss[i].virtAddr + ss[i].memSize <= USER_END
    ensures r.Ok? <==> EntryOk(base + entry, ss)
    ensures r.Ok? ==> r.value == base + entry < USER_END
  {
    var a := CheckedAdd(base, entry);
    if a.None? { return Err(OutOfBounds); }
    for i := 0 to |ss|
      invariant forall k {:trigger ss[k]} :: 0 <= k < i ==> !(ss[k].executable && InSegment(ss[k], a.value))
    {
      if ss[i].executable && InSegment(ss[i], a.value) { return Ok(a.value); }
    }
    r := Err(InvalidMapping);
  }

  // ----- Mapping -----

  /** What the page range of a segment holds at address `x`: the file's bytes at their addresses, zero elsewhere. */
  function ByteAt(s: Segment, data: seq<Byte>, x: nat): Byte
    requires SegmentOk(s, |data|)
  {
    if s.virtAddr <= x < s.virtAddr + (s.fileEnd - s.fileStart) then data[s.fileStart + (x - s.virtAddr)] else 0
  }

  ghost predicate Image(page: seq<Byte>, s: Segment, data: seq<Byte>)
    requires SegmentOk(s, |data|)
  {
    |page| == s.end - s.start && forall x: nat {:trigger ByteAt(s, data, x)} :: s.start <= x < s.end ==> page[x - s.start] == ByteAt(s, data, x)
  }

  function ZeroBytes(n: nat): (r: seq<Byte>)
    ensures |r| == n && forall i {:trigger r[i]} :: 0 <= i < n ==> r[i] == 0
  {
    seq(n, i => 0)
  }

  /** Fill the pages of a segment and reserve its addresses, which succeeds exactly when they are free. */
  method MapSegment(a: Allocator, s: Segment, data: seq<Byte>) returns (r: Result<seq<Byte>>)
    requires a.Valid() && SegmentOk(s, |data|)
    modifies a
    ensures a.Valid() && (r.Ok? <==> RunFree(old(a.free), s.start, s.end - s.start))
    ensures r.Ok? ==> Image(r.value, s, data) && Without(old(a.free), a.free, s.start, s.end - s.start)
    ensures r.Err? ==> a.free == old(a.free)
  {
    var count := (s.end - s.start + PAGE_SIZE - 1) / PAGE_SIZE;
    var page := ZeroBytes(count * PAGE_SIZE);
    assert count * PAGE_SIZE == s.end - s.start;
    var src := data[s.fileStart..s.fileEnd];
    page := page[..s.pageOffset] + src + page[s.pageOffset + |src|..];
    assert Image(page, s, data);
    var ok := ReservePages(a, s.start, s.end - s.start);
    if !ok { return Err(InvalidMapping); }
    r := Ok(page);
  }

  ghost predicate InPages(ss: seq<Segment>, n: nat, x: nat)
  {
    exists i {:trigger ss[i]} :: 0 <= i < n && i < |ss| && ss[i].start <= x < ss[i].end
  }

  lemma NextRunFree(free: seq<Range>, ss: seq<Segment>, k: nat)
    requires k < |ss| && AllApart(ss) && ss[k].start <= ss[k].end <= USER_END
    requires forall x: nat {:trigger Free(free, x)} :: Free(free, x) <==> x < USER_END && !InPages(ss, k, x)
    ensures RunFree(free, ss[k].start, ss[k].end - ss[k].start)
  {
    forall x: nat | Inside(x, ss[k].start, ss[k].end - ss[k].start)
      ensures Free(free, x)
    {
      assert !InPages(ss, k, x);
    }
  }

  /** On an empty user space every segment is mapped, each byte at its address; then their pages alone are taken. */
  method MapAll(a: Allocator, ss: seq<Segment>, data: seq<Byte>) returns (r: Result<seq<seq<Byte>>>)
    requires a.Valid() && AllApart(ss) && forall i {:trigger ss[i]} :: 0 <= i < |ss| ==> SegmentOk(ss[i], |data|)
    requires forall x: nat {:trigger Free(a.free, x)} :: Free(a.free, x) <==> x < USER_END
    modifies a
    ensures r.Ok? && |r.value| == |ss| && forall i {:trigger ss[i]} :: 0 <= i < |ss| ==> Image(r.value[i], ss[i], data)
    ensures a.Valid() && forall x: nat {:trigger Free(a.free, x)} :: Free(a.free, x) <==> x < USER_END && !InPages(ss, |ss|, x)
  {
    var pages: seq<seq<Byte>> := [];
    for k := 0 to |ss|
      invariant a.Valid() && |pages| == k && forall i {:trigger ss[i]} :: 0 <= i < k ==> Image(pages[i], ss[i], data)
      invariant forall x: nat {:trigger Free(a.free, x)} :: Free(a.free, x) <==> x < USER_END && !InPages(ss, k, x)
    {
      NextRunFree(a.free, ss, k);
      ghost var before := a.free;
      var page := MapSegment(a, ss[k], data);
      forall x: nat {:trigger Free(a.free, x)} | true
        ensures Free(a.free, x) <==> x < USER_END && !InPages(ss, k + 1, x)
      {
        assert Free(a.free, x) <==> Free(before, x) && !Inside(x, ss[k].start, ss[k].end - ss[k].start);
      }
      pages := pages + [page.value];
    }
    r := Ok(pages);
  }

  // ----- The loader -----

  datatype Loaded = Loaded(entry: nat, segments: seq<Segment>, pages: seq<seq<Byte>>, space: Allocator)

  lemma EntrySame(a: nat, ss: seq<Segment>, ts: seq<Segment>)
    requires multiset(ss) == multiset(ts)
    ensures EntryOk(a, ss) ==> EntryOk(a, ts)
  {
    if EntryOk(a, ss) {
      var i :| 0 <= i < |ss| && ss[i].executable && InSegment(ss[i], a);
      assert ss[i] in multiset(ts);
      var j :| 0 <= j < |ts| && ts[j] == ss[i];
    }
  }

  lemma AllOkSame(dataLen: nat, ss: seq<Segment>, ts: seq<Segment>)
    requires multiset(ss) == multiset(ts) && forall i {:trigger ss[i]} :: 0 <= i < |ss| ==> SegmentOk(ss[i], dataLen)
    ensures forall i {:trigger ts[i]} :: 0 <= i < |ts| ==> SegmentOk(ts[i], dataLen)
  {
    forall i {:trigger ts[i]} | 0 <= i < |ts|
      ensures SegmentOk(ts[i], dataLen)
    {
      assert ts[i] in multiset(ss);
    }
  }

  /** The files the loader accepts: headers that can be met, segments apart, the entry in an executable one. */
  ghost predicate Acceptance(phs: Option<seq<Phdr>>, dataLen: nat, base: nat, entry: nat)
  {
    phs.Some? && AllAcceptable(phs.value, dataLen, base) && SegmentsOf(phs.value, base) != []
    && AllApart(SegmentsOf(phs.value, base)) && EntryOk(base + entry, SegmentsOf(phs.value, base))
  }

  /**
    * `load`, from the program headers on: accepted files are always mapped, segment by segment of their headers, into the
    * new user space, which loses exactly the pages of the segments.
    */
  method Load(phs: Option<seq<Phdr>>, entry: nat, dynamic: bool, data: seq<Byte>, table: seq<Entry>) returns (r: Result<Loaded>)
    requires |data| < LIMIT && (phs.Some? ==> forall i :: 0 <= i < |phs.value| ==> Fits(phs.value[i]))
    requires |table| == 512 && PageWalk.TableOk(table, 4) && forall i :: 0 <= i < 256 ==> table[i] == Unused
    ensures r.Ok? <==> Acceptance(phs, |data|, if dynamic then DYN_BASE else 0, entry)
    ensures r.Ok? ==> var base := if dynamic then DYN_BASE else 0;
      r.value.entry == base + entry && multiset(r.value.segments) == multiset(SegmentsOf(phs.value, base))
    ensures r.Ok? ==> AllApart(r.value.segments) && EntryOk(r.value.entry, r.value.segments) && |r.value.pages| == |r.value.segments|
    ensures r.Ok? ==> forall i {:trigger r.value.segments[i]} :: 0 <= i < |r.value.segments| ==>
      SegmentOk(r.value.segments[i], |data|) && Image(r.value.pages[i], r.value.segments[i], data)
    ensures r.Ok? ==> fresh(r.value.space) && r.value.space.Valid() && forall x: nat {:trigger Free(r.value.space.free, x)} ::
      Free(r.value.space.free, x) <==> x < USER_END && !InPages(r.value.segments, |r.value.segments|, x)
  {
    var base := if dynamic then DYN_BASE else 0;
    var parsed := ParseSegments(phs, |data|, base);
    if parsed.Err? { return Err(parsed.error); }
    ghost var ss := parsed.value;
    var segments, apart := CheckNoOverlap(parsed.value);
    if apart.Err? { return Err(apart.error); }
    AllOkSame(|data|, ss, segments);
    EntrySame(base + entry, ss, segments);
    EntrySame(base + entry, segments, ss);
    var start := ValidateEntry(entry, base, segments);
    if start.Err? { return Err(start.error); }
    var space := NewUser(table);
    FreshSpace(table, space.free);
    var pages := MapAll(space, segments, data);
    r := Ok(Loaded(start.value, segments, pages.value, space));
  }

  lemma FreshSpace(table: seq<Entry>, free: seq<Range>)
    requires |table| == 512 && PageWalk.TableOk(Half(table, User), 4) && forall i :: 0 <= i < 256 ==> table[i] == Unused
    requires forall x: nat :: Free(free, x) <==> UserFree(table, x)
    ensures forall x: nat {:trigger Free(free, x)} :: Free(free, x) <==> x < USER_END
  {
    UserSpan();
    forall x: nat {:trigger Free(free, x)} | true
      ensures Free(free, x) <==> x < USER_END
    {
      if x < USER_END {
        EmptyTableFree(Half(table, User), 4, x);
      }
    }
  }
}
