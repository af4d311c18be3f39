/** What holds over every run of the buddy allocator. */
module BuddyRuns {
  import opened Basics
  import opened Dyadic
  import opened Tiling
  import opened BuddyState
  import opened Buddy

  ghost function FreeBlocks(pieces: set<Piece>): set<Block>
  {
    set p | p in pieces && p.tag.Free? :: Block(p.start, p.tag.order)
  }

  /** Extents of distinct outstanding requests share no address, and lie in the memory given to the allocator. */
  lemma OutstandingDisjoint(n: nat, s: State, out: map<nat, nat>, a: nat, b: nat, x: nat)
    requires Sound(n, s) && OutOk(n, out, s.pieces) && a in out && b in out && a != b
    ensures a <= x < a + out[a] ==> x in s.memory && !(b <= x < b + out[b])
  {
    var p := Holder(n, s, out, a);
    var q := Holder(n, s, out, b);
    if a <= x < a + out[a] {
      assert At(p, x) && Covers(s.pieces, x);
      if b <= x < b + out[b] {
        OnlyOneAt(s.pieces, p, q, x);
      }
    }
  }

  lemma Holder(n: nat, s: State, out: map<nat, nat>, a: nat) returns (p: Piece)
    requires Sound(n, s) && OutOk(n, out, s.pieces) && a in out
    ensures p in s.pieces && p.start == a && IsHeld(p) && p.len >= out[a]
  {
    assert HasHolder(s.pieces, a);
    p :| p in s.pieces && p.start == a && IsHeld(p);
    assert Serves(n, out, p);
    OrderForLeast(out[a], 0);
  }

  /** With nothing outstanding every piece is free in a buddy list: the slab has given back every block. */
  lemma AllFree(n: nat, s: State)
    requires Sound(n, s) && Busy(s) && OutOk(n, map[], s.pieces)
    ensures forall p :: p in s.pieces ==> p.tag.Free?
  {
    forall p | p in s.pieces ensures !IsHeld(p)
    {
      assert IsHeld(p) ==> Serves(n, map[], p);
    }
    forall p | p in s.pieces ensures !p.tag.SlabFree?
    {
      if p.tag.SlabFree? {
        var q := SomeoneHolds(n, s, p, p.tag.idx);
      }
    }
  }

  lemma SomeoneHolds(n: nat, s: State, p: Piece, i: nat) returns (q: Piece)
    requires Sound(n, s) && Busy(s) && p in s.pieces && InSlab(p, i)
    ensures q in s.pieces && IsHeld(q)
  {
    assert RegionOk(n, s, i);
    assert HeldOf(s.pieces, i) != {};
    q :| q in HeldOf(s.pieces, i);
  }

  lemma FreeDecomposition(n: nat, s: State)
    requires Sound(n, s) && Dyadical(n, s) && Merged(n, s.pieces)
    ensures Decomposition(FreeBlocks(s.pieces), 0, n - 1) && FullyMerged(FreeBlocks(s.pieces), n - 1)
  {
    var bs := FreeBlocks(s.pieces);
    forall b | b in bs ensures FreePiece(b.addr, b.exp) in s.pieces && b.exp < n { PieceOf(n, s, b); }
    forall b, c, x | b in bs && c in bs && Has(b, x) && Has(c, x) ensures b == c
    {
      OnlyOneAt(s.pieces, FreePiece(b.addr, b.exp), FreePiece(c.addr, c.exp), x);
    }
    forall b | b in bs && b.exp < n - 1 ensures Block(Flip(b.addr, b.exp), b.exp) !in bs
    {
      assert Alone(s.pieces, FreePiece(b.addr, b.exp));
      var c := Block(Flip(b.addr, b.exp), b.exp);
      if c in bs { PieceOf(n, s, c); }
    }
  }

  lemma PieceOf(n: nat, s: State, b: Block)
    requires Sound(n, s) && b in FreeBlocks(s.pieces)
    ensures FreePiece(b.addr, b.exp) in s.pieces && b.exp < n
  {
    var p :| p in s.pieces && p.tag.Free? && b == Block(p.start, p.tag.order);
    assert FreeOk(n, s, p);
  }

  lemma CoveredIff(n: nat, s: State, x: nat)
    requires Sound(n, s) && forall p :: p in s.pieces ==> p.tag.Free?
    ensures Covered(FreeBlocks(s.pieces), x) <==> x in s.memory
  {
    if Covered(FreeBlocks(s.pieces), x) {
      var b :| b in FreeBlocks(s.pieces) && Has(b, x);
      PieceOf(n, s, b);
      assert At(FreePiece(b.addr, b.exp), x);
    }
    if x in s.memory {
      var p :| p in s.pieces && At(p, x);
      assert FreeOk(n, s, p);
      assert Block(p.start, p.tag.order) in FreeBlocks(s.pieces) && Has(Block(p.start, p.tag.order), x);
    }
  }

  /** Two merged states over the same memory with nothing outstanding have the same free blocks of every order. */
  lemma Restored(n: nat, s: State, t: State)
    requires Sound(n, s) && Dyadical(n, s) && Busy(s) && OutOk(n, map[], s.pieces) && Merged(n, s.pieces)
    requires Sound(n, t) && Dyadical(n, t) && Busy(t) && OutOk(n, map[], t.pieces) && Merged(n, t.pieces)
    requires s.memory == t.memory
    ensures FreeBlocks(s.pieces) == FreeBlocks(t.pieces)
  {
    AllFree(n, s);
    AllFree(n, t);
    FreeDecomposition(n, s);
    FreeDecomposition(n, t);
    forall x ensures Covered(FreeBlocks(s.pieces), x) <==> Covered(FreeBlocks(t.pieces), x)
    {
      CoveredIff(n, s, x);
      CoveredIff(n, t, x);
    }
    MergedUnique(FreeBlocks(s.pieces), FreeBlocks(t.pieces), 0, n - 1);
  }

  /** Every unit of `[a, a + len)` is in some free block. */
  ghost predicate AllInFreeBlocks(pieces: set<Piece>, a: nat, len: nat)
  {
    forall x: nat :: a <= x < a + len ==> Covered(FreeBlocks(pieces), x)
  }

  /** An aligned run of `2^order` units is free throughout. */
  ghost predicate HasFreeRun(pieces: set<Piece>, order: nat)
  {
    exists a: nat {:trigger Aligned(a, order)} :: Aligned(a, order) && AllInFreeBlocks(pieces, a, Pow2(order))
  }

  /**
    * In a merged state an aligned run of `2^order` units that is free throughout is never missed: some list at or above
    * `order` has a block, which is what `Alloc` needs, exactly when there is such a run.
    */
  lemma {:induction false} RoomIffFree(n: nat, s: State, order: nat)
    requires Sound(n, s) && Dyadical(n, s) && Merged(n, s.pieces) && order < n
    ensures (exists o :: order <= o < n && s.lists[o] != []) <==> HasFreeRun(s.pieces, order)
  {
    if o :| order <= o < n && s.lists[o] != [] {
      var a := s.lists[o][0];
      assert FreePiece(a, o) in s.pieces;
      AlignedDown(a, order, o);
      Pow2Mono(order, o);
      assert Block(a, o) in FreeBlocks(s.pieces);
      assert forall x: nat :: a <= x < a + Pow2(order) ==> Has(Block(a, o), x);
      assert Aligned(a, order) && AllInFreeBlocks(s.pieces, a, Pow2(order));
    }
    if a: nat {:trigger Aligned(a, order)} :| Aligned(a, order) && AllInFreeBlocks(s.pieces, a, Pow2(order)) {
      FreeDecomposition(n, s);
      var b := InsideOne(FreeBlocks(s.pieces), 0, n - 1, Block(a, order));
      PieceOf(n, s, b);
      assert FreeOk(n, s, FreePiece(b.addr, b.exp));
      assert s.lists[b.exp] != [];
    }
  }

  /** In a merged state a block is refused exactly when no aligned run of its size is free, or none is ever that large. */
  method AllocBlock(a: BuddyAllocator, order: nat) returns (r: Option<nat>)
    requires a.Ok() && Merged(a.orders, a.pieces)
    modifies a
    ensures a.Ok() && Merged(a.orders, a.pieces)
    ensures r.None? <==> order >= a.orders || !HasFreeRun(old(a.pieces), order)
    ensures r.Some? ==> Aligned(r.value, order) && Keeps(old(a.pieces), a.pieces, {}, {HeldPiece(r.value, order)})
  {
    if order < a.orders { RoomIffFree(a.orders, a.St(), order); }
    r := a.Alloc(order);
  }

  /**
    * In a merged state a request is refused exactly when no aligned run of its order is free and, if it may be served by
    * the slab, no free range there is long enough.
    */
  method Request(a: BuddyAllocator, count: nat) returns (r: Option<nat>)
    requires a.Valid() && count >= 1
    modifies a
    ensures a.Valid() && a.memory == old(a.memory) && (r.None? ==> a.out == old(a.out))
    ensures r.Some? ==> r.value !in old(a.out) && a.out == old(a.out)[r.value := count]
    ensures old(Merged(a.orders, a.pieces)) ==> Merged(a.orders, a.pieces)
    ensures old(Merged(a.orders, a.pieces)) ==> (r.None? <==>
      && (OrderFor(count) >= a.orders || !HasFreeRun(old(a.pieces), OrderFor(count)))
      && (a.hasSlab && !IsPow2(count) ==> !SlabHasRange(old(a.St()), count)))
  {
    if OrderFor(count) < a.orders && Merged(a.orders, a.pieces) { RoomIffFree(a.orders, a.St(), OrderFor(count)); }
    r := a.AllocRange(count);
  }

  /** A call of a client: a request, a free of what it was given at `addr`, or a write at an offset into that. */
  datatype Call = Alloc(count: nat) | Free(addr: nat) | Write(addr: nat, offset: nat, first: nat, second: nat)

  /** Carries out one call for a client that remembers what it holds in `ledger`. */
  method Do(a: BuddyAllocator, call: Call, ledger: map<nat, nat>) returns (now: map<nat, nat>)
    requires a.Valid() && ledger == a.out
    modifies a
    ensures a.Valid() && now == a.out && a.memory == old(a.memory)
    ensures old(Merged(a.orders, a.pieces)) ==> Merged(a.orders, a.pieces)
  {
    now := ledger;
    match call {
      case Alloc(count) =>
        if count >= 1 {
          var r := Request(a, count);
          if r.Some? {
            now := ledger[r.value := count];
          }
        }
      case Free(addr) =>
        if addr in ledger {
          a.FreeRange(addr, ledger[addr]);
          now := ledger - {addr};
        }
      case Write(addr, offset, first, second) =>
        if addr in ledger && offset < ledger[addr] {
          ghost var p := Holder(a.orders, a.St(), a.out, addr);
          a.UserWrite(addr + offset, first, second, p);
        }
    }
  }

  /**
    * Any script of calls keeps the allocator valid. If it started merged with nothing outstanding and ends with
    * nothing outstanding, every order has its original free blocks.
    */
  method Run(a: BuddyAllocator, script: seq<Call>, ledger: map<nat, nat>) returns (now: map<nat, nat>)
    requires a.Valid() && ledger == a.out
    modifies a
    ensures a.Valid() && now == a.out && a.memory == old(a.memory)
    ensures old(Merged(a.orders, a.pieces)) ==> Merged(a.orders, a.pieces)
    ensures old(Merged(a.orders, a.pieces)) && ledger == map[] && now == map[] ==>
      FreeBlocks(a.pieces) == old(FreeBlocks(a.pieces))
  {
    now := ledger;
    ghost var merged, s := Merged(a.orders, a.pieces), a.St();
    for i := 0 to |script|
      invariant a.Valid() && now == a.out && a.memory == s.memory
      invariant merged ==> Merged(a.orders, a.pieces)
    {
      now := Do(a, script[i], now);
    }
    if merged && ledger == map[] && now == map[] {
      Restored(a.orders, s, a.St());
    }
  }
}
