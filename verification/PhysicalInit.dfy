/** Carving usable physical memory into buddy blocks (`memory/physical.rs`). Addresses are page numbers. */
module PhysicalInit {
  import opened Basics
  import opened Dyadic
  import opened Tiling
  import opened BuddyState
  import opened Buddy

  /** An entry of the boot memory map, in bytes. */
  datatype Entry = Entry(base: nat, length: nat, usable: bool)

  /** The first whole page of an entry, and the end of its last whole page. */
  function FirstPage(e: Entry): nat { DivCeil(e.base, PAGE_SIZE) }

  function EndPage(e: Entry): nat { (e.base + e.length) / PAGE_SIZE }

  ghost function PagesOf(e: Entry): set<nat>
  {
    if e.usable && FirstPage(e) < EndPage(e) then Span(FirstPage(e), EndPage(e) - FirstPage(e)) else {}
  }

  ghost function AllPages(entries: seq<Entry>): set<nat>
  {
    if entries == [] then {} else AllPages(entries[..|entries| - 1]) + PagesOf(entries[|entries| - 1])
  }

  /** A block that could not have been twice as large: its double is misaligned or runs past the entry. */
  ghost predicate Greedy(n: nat, p: Piece, end: nat)
  {
    p.tag.Free? && (p.tag.order + 1 < n && Aligned(p.start, p.tag.order + 1) ==> p.start + Pow2(p.tag.order + 1) > end)
  }

  /** The blocks carved so far from the entry `[lo, end)`, up to page `at`. */
  ghost predicate Carved(n: nat, mine: set<Piece>, lo: nat, at: nat, end: nat)
  {
    forall p :: p in mine ==> Greedy(n, p, end) && lo <= p.start && p.start + p.len <= at
  }

  /** The largest block order that fits at `page`. */
  method FitOrder(orders: nat, page: nat, end: nat, ghost hi: nat) returns (order: nat)
    requires orders > 0 && PAGE_SIZE * page + PAGE_SIZE <= end && hi == end / PAGE_SIZE
    ensures order < orders && Aligned(page, order) && page + Pow2(order) <= hi
    ensures Greedy(orders, FreePiece(page, order), hi)
  {
    var rem := end - PAGE_SIZE * page;
    order := orders - 1;
    var block := Pow2(order);
    while order != 0 && !(rem >= PAGE_SIZE * block && page % block == 0)
      invariant order < orders && block == Pow2(order)
      invariant order + 1 < orders && Aligned(page, order + 1) ==> rem < PAGE_SIZE * Pow2(order + 1)
    {
      AlignedMod(page, order);
      order := order - 1;
      block := Pow2(order);
    }
    AlignedMod(page, order);
  }

  /** Progress through the entry `[lo, end)`: `mine` was carved from it, on top of `was` over `memory`. */
  ghost predicate Progress(n: nat, s: State, was: set<Piece>, memory: set<nat>, mine: set<Piece>, lo: nat, page: nat, end: nat)
  {
    && lo <= page && Tiles(was, memory)
    && s.pieces == was + mine && Carved(n, mine, lo, page, end)
    && s.memory == memory + Span(lo, page - lo)
  }

  ghost predicate Apart(memory: set<nat>, lo: nat, end: nat)
  {
    end !in memory && (lo > 0 ==> lo - 1 !in memory)
  }

  ghost predicate Outside(memory: set<nat>, lo: nat, end: nat)
  {
    forall x :: lo <= x < end ==> x !in memory
  }

  /** The pages of the entry that come next are not yet in memory. */
  lemma NotYet(memory: set<nat>, now: set<nat>, lo: nat, page: nat, to: nat, end: nat)
    requires Outside(memory, lo, end) && lo <= page && to <= end && now == memory + Span(lo, page - lo)
    ensures forall x :: page <= x < to ==> x !in now
  {
    forall x | page <= x < to ensures x !in now { InSpan(lo, page - lo, x); }
  }

  lemma MoreMemory(memory: set<nat>, now: set<nat>, lo: nat, page: nat, to: nat)
    requires lo <= page <= to && now == memory + Span(lo, page - lo)
    ensures now + Span(page, to - page) == memory + Span(lo, to - lo)
  {
    SpanAdd(lo, page - lo, to - page);
  }

  /** A greedily carved block has no free buddy, if no memory touches the entry. */
  lemma {:induction false} NoBuddy(n: nat, was: set<Piece>, memory: set<nat>, mine: set<Piece>, lo: nat, page: nat, order: nat, end: nat)
    requires Tiles(was, memory) && Carved(n, mine, lo, page, end)
    requires lo <= page && page + Pow2(order) <= end && order + 1 < n
    requires Outside(memory, lo, end) && Apart(memory, lo, end)
    requires Aligned(page, order) && Greedy(n, FreePiece(page, order), end)
    ensures FreePiece(Flip(page, order), order) !in was + mine
  {
    var q := FreePiece(Flip(page, order), order);
    Buddies(page, order);
    var x := if Aligned(page, order + 1) then q.start else page - 1;
    assert At(q, x);
    assert q in mine ==> Greedy(n, q, end);
    assert q in was ==> Covers(was, x);
  }

  lemma {:induction false} StaysMerged(n: nat, s: State, was: set<Piece>, memory: set<nat>, mine: set<Piece>, lo: nat, page: nat, order: nat, end: nat)
    requires Dyadical'(s.pieces) && Merged(n, s.pieces) && Progress(n, s, was, memory, mine, lo, page, end)
    requires page + Pow2(order) <= end && order < n
    requires Outside(memory, lo, end) && Apart(memory, lo, end)
    requires Aligned(page, order) && Greedy(n, FreePiece(page, order), end)
    ensures Merged(n, s.pieces + {FreePiece(page, order)})
  {
    var b, now := FreePiece(page, order), s.pieces + {FreePiece(page, order)};
    Buddies(page, order);
    if order + 1 < n {
      NoBuddy(n, was, memory, mine, lo, page, order, end);
    }
    forall p | p in now && p.tag.Free? && p.tag.order + 1 < n ensures Alone(now, p)
    {
      if p in s.pieces {
        assert Alone(s.pieces, p);
        Buddies(p.start, p.tag.order);
      }
    }
  }

  ghost predicate Dyadical'(pieces: set<Piece>)
  {
    forall p :: p in pieces && p.tag.Free? ==> Aligned(p.start, p.tag.order) && p.len == Pow2(p.tag.order)
  }

  /** Carves one usable entry. */
  method CarveEntry(a: BuddyAllocator, e: Entry)
    requires a.Valid() && e.usable && FirstPage(e) > 0
    requires Outside(a.memory, FirstPage(e), EndPage(e))
    modifies a
    ensures a.Valid() && a.out == old(a.out) && a.memory == old(a.memory) + PagesOf(e)
    ensures old(Merged(a.orders, a.pieces)) && old(FirstPage(e) >= EndPage(e) || Apart(a.memory, FirstPage(e), EndPage(e)))
      ==> Merged(a.orders, a.pieces)
  {
    var end := e.base + e.length;
    var page := FirstPage(e);
    ghost var lo, hi, was, memory := page, EndPage(e), a.pieces, a.memory;
    ghost var apart := (lo < hi ==> Apart(memory, lo, hi)) && Merged(a.orders, a.pieces);
    ghost var mine: set<Piece> := {};
    while PAGE_SIZE * page + PAGE_SIZE <= end
      invariant a.Valid() && a.out == old(a.out)
      invariant page == lo || page <= hi
      invariant Progress(a.orders, a.St(), was, memory, mine, lo, page, hi)
      invariant apart ==> Merged(a.orders, a.pieces)
      decreases end - PAGE_SIZE * page
    {
      page, mine := CarveStep(a, page, end, was, memory, mine, lo, hi, apart);
    }
    Finished(e, memory, lo, page, hi, end);
  }

  lemma Finished(e: Entry, memory: set<nat>, lo: nat, page: nat, hi: nat, end: nat)
    requires e.usable && lo == FirstPage(e) && hi == EndPage(e) && end == e.base + e.length && lo <= page
    requires page == lo || page <= hi
    requires PAGE_SIZE * page + PAGE_SIZE > end
    ensures memory + Span(lo, page - lo) == memory + PagesOf(e)
  {
    assert page >= hi;
  }

  method CarveStep(a: BuddyAllocator, page: nat, end: nat, ghost was: set<Piece>, ghost memory: set<nat>,
                   ghost mine: set<Piece>, ghost lo: nat, ghost hi: nat, ghost apart: bool)
    returns (to: nat, ghost now: set<Piece>)
    requires a.Valid() && PAGE_SIZE * page + PAGE_SIZE <= end && page > 0 && hi == end / PAGE_SIZE
    requires Progress(a.orders, a.St(), was, memory, mine, lo, page, hi) && Outside(memory, lo, hi)
    requires apart ==> Apart(memory, lo, hi) && Merged(a.orders, a.pieces)
    modifies a
    ensures a.Valid() && a.out == old(a.out) && page < to <= hi
    ensures Progress(a.orders, a.St(), was, memory, now, lo, to, hi)
    ensures apart ==> Merged(a.orders, a.pieces)
  {
    var order := FitOrder(a.orders, page, end, hi);
    ghost var s, free := a.St(), FreePiece(page, order);
    to := page + Pow2(order);
    now := mine + {free};
    AllAligned(a.orders, s);
    StepProgress(a.orders, s, was, memory, mine, lo, page, order, to, hi, apart);
    a.Adopt(page, order);
    assert a.pieces == s.pieces + {free};
  }

  lemma {:induction false} CarvedMore(n: nat, pieces: set<Piece>, was: set<Piece>, mine: set<Piece>, lo: nat, page: nat, order: nat, to: nat, hi: nat)
    requires pieces == was + mine && Carved(n, mine, lo, page, hi) && lo <= page && to == page + Pow2(order) && Greedy(n, FreePiece(page, order), hi)
    ensures Carved(n, mine + {FreePiece(page, order)}, lo, to, hi)
    ensures pieces + {FreePiece(page, order)} == was + (mine + {FreePiece(page, order)})
  {
  }

  lemma {:induction false} StepProgress(n: nat, s: State, was: set<Piece>, memory: set<nat>, mine: set<Piece>, lo: nat, page: nat, order: nat,
                     to: nat, hi: nat, apart: bool)
    requires Dyadical'(s.pieces) && Progress(n, s, was, memory, mine, lo, page, hi) && Outside(memory, lo, hi)
    requires order < n && Aligned(page, order) && to == page + Pow2(order) <= hi && Greedy(n, FreePiece(page, order), hi)
    requires apart ==> Apart(memory, lo, hi) && Merged(n, s.pieces)
    ensures NoneIn(s.memory, page, Pow2(order))
    ensures var free := FreePiece(page, order);
      && s.pieces + {free} == was + (mine + {free}) && Carved(n, mine + {free}, lo, to, hi)
      && s.memory + Span(page, Pow2(order)) == memory + Span(lo, to - lo)
      && (apart ==> Merged(n, s.pieces + {free}))
  {
    NotYet(memory, s.memory, lo, page, to, hi);
    MoreMemory(memory, s.memory, lo, page, to);
    CarvedMore(n, s.pieces, was, mine, lo, page, order, to, hi);
    if apart {
      StaysMerged(n, s, was, memory, mine, lo, page, order, hi);
    }
  }

  lemma AllAligned(n: nat, s: State)
    requires Sound(n, s) && Dyadical(n, s)
    ensures Dyadical'(s.pieces)
  {
    forall p | p in s.pieces && p.tag.Free? ensures p.len == Pow2(p.tag.order) { assert FreeOk(n, s, p); }
  }

  /** Distinct usable entries share no page, and page 0 is not usable. */
  ghost predicate MapOk(entries: seq<Entry>)
  {
    && (forall i :: 0 <= i < |entries| && entries[i].usable ==> FirstPage(entries[i]) > 0)
    && (forall i, j, x :: 0 <= i < j < |entries| && x in PagesOf(entries[i]) ==> x !in PagesOf(entries[j]))
  }

  /** No usable entry ends where another begins. */
  ghost predicate Gaps(entries: seq<Entry>)
  {
    forall i, j :: 0 <= i < j < |entries| && entries[j].usable && FirstPage(entries[j]) < EndPage(entries[j]) ==>
      Apart(PagesOf(entries[i]), FirstPage(entries[j]), EndPage(entries[j]))
  }

  lemma {:induction false} InAllPages(entries: seq<Entry>, k: nat, x: nat)
    requires k <= |entries| && x in AllPages(entries[..k])
    ensures exists i :: 0 <= i < k && x in PagesOf(entries[i])
  {
    if k > 0 {
      assert entries[..k][..k - 1] == entries[..k - 1];
      if x in PagesOf(entries[k - 1]) {
      } else {
        InAllPages(entries, k - 1, x);
      }
    }
  }

  lemma EntryIsNew(entries: seq<Entry>, k: nat)
    requires MapOk(entries) && k < |entries| && entries[k].usable
    ensures var e := entries[k]; Outside(AllPages(entries[..k]), FirstPage(e), EndPage(e))
    ensures var e := entries[k];
      Gaps(entries) && FirstPage(e) < EndPage(e) ==> Apart(AllPages(entries[..k]), FirstPage(e), EndPage(e))
  {
    var e, before := entries[k], AllPages(entries[..k]);
    forall x | FirstPage(e) <= x < EndPage(e) ensures x !in before
    {
      InSpan(FirstPage(e), EndPage(e) - FirstPage(e), x);
      if x in before { InAllPages(entries, k, x); }
    }
    if Gaps(entries) && FirstPage(e) < EndPage(e) {
      forall x | x in before ensures x != EndPage(e) && x + 1 != FirstPage(e)
      {
        InAllPages(entries, k, x);
        var i :| 0 <= i < k && x in PagesOf(entries[i]);
        assert Apart(PagesOf(entries[i]), FirstPage(e), EndPage(e));
      }
    }
  }

  /** The initial free memory is exactly the whole usable pages, and fully merged when no two entries touch. */
  method Init(a: BuddyAllocator, entries: seq<Entry>)
    requires a.Valid() && a.memory == {} && a.pieces == {} && MapOk(entries)
    modifies a
    ensures a.Valid() && a.out == old(a.out) && a.memory == AllPages(entries)
    ensures Gaps(entries) ==> Merged(a.orders, a.pieces)
  {
    ghost var gaps := Gaps(entries);
    for i := 0 to |entries|
      invariant a.Valid() && a.out == old(a.out) && a.memory == AllPages(entries[..i])
      invariant gaps ==> Merged(a.orders, a.pieces)
    {
      InitOne(a, entries, i, gaps);
    }
    assert entries[..|entries|] == entries;
  }

  method InitOne(a: BuddyAllocator, entries: seq<Entry>, i: nat, ghost gaps: bool)
    requires a.Valid() && MapOk(entries) && i < |entries| && a.memory == AllPages(entries[..i]) && gaps == Gaps(entries)
    requires gaps ==> Merged(a.orders, a.pieces)
    modifies a
    ensures a.Valid() && a.out == old(a.out) && a.memory == AllPages(entries[..i + 1])
    ensures gaps ==> Merged(a.orders, a.pieces)
  {
    AddEntry(entries, i);
    if entries[i].usable {
      EntryIsNew(entries, i);
      CarveEntry(a, entries[i]);
    }
  }

  lemma AddEntry(entries: seq<Entry>, i: nat)
    requires i < |entries|
    ensures AllPages(entries[..i + 1]) == AllPages(entries[..i]) + PagesOf(entries[i])
  {
    assert entries[..i + 1][..i] == entries[..i];
  }
}
