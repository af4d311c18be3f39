/** The memory of a buddy allocator: free lists inside free blocks, and the page slab carved from lent blocks. */
module BuddyState {
  import opened Dyadic
  import opened Tiling
  import opened FreeLists

  /** One entry of the slab's block table. */
  datatype BlockInfo = BlockInfo(base: nat, total: nat, taken: nat, freeList: nat, used: bool)

  /**
    * `next` and `cnt` are the first and second word of free memory. `lists` and `ranges` are the nodes of the
    * buddy and slab free lists, `lent` the orders of the blocks lent to the slab, and `pieces` says who owns what of `memory`.
    */
  datatype State = State(
    heads: seq<nat>, next: map<nat, nat>, cnt: map<nat, nat>, blocks: seq<BlockInfo>, blockCount: nat,
    lists: seq<seq<nat>>, ranges: seq<seq<nat>>, lent: seq<nat>, pieces: set<Piece>, memory: set<nat>)

  ghost function FreePiece(a: nat, o: nat): Piece { Piece(a, Pow2(o), Free(o)) }

  ghost function HeldPiece(a: nat, o: nat): Piece { Piece(a, Pow2(o), Held) }

  /** List `o` holds exactly the starts of the free pieces of order `o`, which are aligned blocks of that order. */
  ghost predicate ListsOk(n: nat, s: State)
  {
    && |s.heads| == |s.lists| == n
    && (forall o :: 0 <= o < n ==> Linked(s.next, s.heads[o], s.lists[o]))
    && (forall o, a :: 0 <= o < n && a in s.lists[o] ==> FreePiece(a, o) in s.pieces)
    && (forall p :: p in s.pieces && p.tag.Free? ==> FreeOk(n, s, p))
  }

  ghost predicate FreeOk(n: nat, s: State, p: Piece)
    requires |s.lists| == n && p.tag.Free?
  {
    && p.tag.order < n
    && p.start in s.lists[p.tag.order]
    && p.len == Pow2(p.tag.order)
  }

  /** No two free blocks below the top order are buddies. */
  ghost predicate Merged(n: nat, pieces: set<Piece>)
  {
    forall p {:trigger Alone(pieces, p)} ::
      p in pieces && p.tag.Free? && p.tag.order + 1 < n ==> Alone(pieces, p)
  }

  ghost predicate Alone(pieces: set<Piece>, p: Piece)
    requires p.tag.Free?
  {
    FreePiece(Flip(p.start, p.tag.order), p.tag.order) !in pieces
  }

  predicate InSlab(p: Piece, i: nat)
  {
    p.tag == SlabFree(i) || p.tag == SlabHeld(i)
  }

  ghost function HeldOf(pieces: set<Piece>, i: nat): set<Piece>
  {
    set p | p in pieces && p.tag == SlabHeld(i)
  }

  ghost predicate InRegion(b: BlockInfo, x: nat)
  {
    b.base <= x < b.base + b.total
  }

  ghost predicate SlabCovers(pieces: set<Piece>, i: nat, x: nat)
  {
    exists p :: p in pieces && InSlab(p, i) && At(p, x)
  }

  /** The free ranges of slab block `i` are linked, and each records its own length. */
  ghost predicate RangesOk(n: nat, s: State, i: nat)
    requires i < |s.blocks| == |s.ranges|
  {
    && Linked(s.next, s.blocks[i].freeList, s.ranges[i])
    && (forall a :: a in s.ranges[i] ==>
          a in s.cnt && s.cnt[a] >= 1 && Piece(a, s.cnt[a], SlabFree(i)) in s.pieces)
    && (forall p :: p in s.pieces && p.tag == SlabFree(i) ==> p.start in s.ranges[i])
  }

  /** The pieces of slab block `i` tile the buddy block lent to it. */
  ghost predicate RegionOk(n: nat, s: State, i: nat)
    requires i < |s.blocks|
  {
    var b := s.blocks[i];
    && (forall p :: p in s.pieces && InSlab(p, i) ==>
          b.base <= p.start && p.start + p.len <= b.base + b.total)
    && (forall x :: InRegion(b, x) ==> SlabCovers(s.pieces, i, x))
    && b.taken == SumLen(HeldOf(s.pieces, i))
  }

  ghost predicate SlabOk(n: nat, s: State)
  {
    && s.blockCount <= |s.blocks| == |s.ranges| == |s.lent|
    && (forall i :: 0 <= i < s.blockCount && s.blocks[i].used ==> RangesOk(n, s, i) && RegionOk(n, s, i))
    && (forall p, i: nat :: p in s.pieces && InSlab(p, i) ==> i < s.blockCount && s.blocks[i].used)
  }

  ghost predicate Sound(n: nat, s: State)
  {
    && 0 < n
    && 0 !in s.memory
    && Tiles(s.pieces, s.memory)
    && ListsOk(n, s)
    && SlabOk(n, s)
  }

  /** Free blocks and the blocks lent to the slab are powers of two, aligned to their size. */
  ghost predicate Dyadical(n: nat, s: State)
    requires s.blockCount <= |s.blocks| == |s.lent|
  {
    && (forall p :: p in s.pieces && p.tag.Free? ==> Aligned(p.start, p.tag.order))
    && (forall i :: 0 <= i < s.blockCount && s.blocks[i].used ==>
          s.lent[i] < n && s.blocks[i].total == Pow2(s.lent[i]) && Aligned(s.blocks[i].base, s.lent[i]))
  }

  lemma NotZero(n: nat, s: State, p: Piece)
    requires Sound(n, s) && p in s.pieces
    ensures p.start != 0
  {
    assert At(p, p.start);
  }

  lemma SameStart(s: State, p: Piece, q: Piece)
    requires Tiles(s.pieces, s.memory) && p in s.pieces && q in s.pieces && p.start == q.start
    ensures p == q
  {
    OnlyOneAt(s.pieces, p, q, p.start);
  }

  /** The slab is untouched by changes to other pieces and to memory outside its free ranges. */
  lemma SlabFrame(n: nat, s: State, t: State)
    requires SlabOk(n, s)
    requires t.blocks == s.blocks && t.blockCount == s.blockCount && t.ranges == s.ranges && t.lent == s.lent && t.cnt == s.cnt
    requires forall p, i: nat :: InSlab(p, i) ==> (p in s.pieces <==> p in t.pieces)
    requires forall p :: p in s.pieces && p.tag.SlabFree? && p.start in s.next ==>
      p.start in t.next && t.next[p.start] == s.next[p.start]
    ensures SlabOk(n, t)
  {
    forall i | 0 <= i < s.blockCount && s.blocks[i].used
      ensures RangesOk(n, t, i) && RegionOk(n, t, i)
    {
      SlabFrameAt(n, s, t, i);
    }
  }

  lemma SlabFrameAt(n: nat, s: State, t: State, i: nat)
    requires i < |s.blocks| == |s.ranges| && i < |t.blocks| == |t.ranges| && RangesOk(n, s, i) && RegionOk(n, s, i)
    requires t.blocks[i] == s.blocks[i] && t.ranges[i] == s.ranges[i]
    requires forall p :: InSlab(p, i) ==> (p in s.pieces <==> p in t.pieces)
    requires forall p :: p in s.pieces && p.tag == SlabFree(i) && p.start in s.next && p.start in s.cnt ==>
      && p.start in t.next && t.next[p.start] == s.next[p.start]
      && p.start in t.cnt && t.cnt[p.start] == s.cnt[p.start]
    ensures RangesOk(n, t, i) && RegionOk(n, t, i)
  {
    forall a | a in s.ranges[i]
      ensures a in t.next && t.next[a] == s.next[a] && a in t.cnt && t.cnt[a] == s.cnt[a]
      ensures Piece(a, s.cnt[a], SlabFree(i)) in t.pieces
    {
      assert InSlab(Piece(a, s.cnt[a], SlabFree(i)), i);
    }
    LinkedFrame(s.next, t.next, s.blocks[i].freeList, s.ranges[i]);
    assert forall p :: p in t.pieces && p.tag == SlabFree(i) ==> InSlab(p, i);
    forall p: Piece ensures p in HeldOf(s.pieces, i) <==> p in HeldOf(t.pieces, i)
    {
      assert p.tag == SlabHeld(i) ==> InSlab(p, i);
    }
    assert HeldOf(s.pieces, i) == HeldOf(t.pieces, i);
    forall x | InRegion(s.blocks[i], x) ensures SlabCovers(t.pieces, i, x)
    {
      var p :| p in s.pieces && InSlab(p, i) && At(p, x);
    }
  }

  /** The buddy lists are untouched by changes to other pieces and to memory outside free blocks. */
  lemma ListsFrame(n: nat, s: State, t: State)
    requires ListsOk(n, s) && t.heads == s.heads && t.lists == s.lists
    requires forall p: Piece :: p.tag.Free? ==> (p in s.pieces <==> p in t.pieces)
    requires forall p :: p in s.pieces && p.tag.Free? && p.start in s.next ==>
      p.start in t.next && t.next[p.start] == s.next[p.start]
    ensures ListsOk(n, t)
  {
    forall o | 0 <= o < n ensures Linked(t.next, t.heads[o], t.lists[o])
    {
      forall a | a in s.lists[o] ensures a in t.next && a in s.next && t.next[a] == s.next[a]
      {
        assert FreePiece(a, o) in s.pieces;
      }
      LinkedFrame(s.next, t.next, s.heads[o], s.lists[o]);
    }
    forall o, a | 0 <= o < n && a in s.lists[o] ensures FreePiece(a, o) in t.pieces
    {
      assert FreePiece(a, o) in s.pieces;
    }
    forall p | p in t.pieces && p.tag.Free? ensures FreeOk(n, t, p)
    {
      assert FreeOk(n, s, p);
    }
  }

  lemma NotInList(n: nat, s: State, o: nat, p: Piece)
    requires ListsOk(n, s) && Tiles(s.pieces, s.memory) && o < n && p in s.pieces && p.tag != Free(o)
    ensures p.start !in s.lists[o]
  {
    if p.start in s.lists[o] {
      SameStart(s, p, FreePiece(p.start, o));
    }
  }

  /** What `push` does to the state. */
  ghost function Pushed(n: nat, s: State, a: nat, o: nat): State
    requires o < |s.heads| == |s.lists|
  {
    s.(next := s.next[a := s.heads[o]], heads := s.heads[o := a], lists := s.lists[o := [a] + s.lists[o]],
       pieces := s.pieces - {HeldPiece(a, o)} + {FreePiece(a, o)})
  }

  lemma PushedSound(n: nat, s: State, a: nat, o: nat)
    requires Sound(n, s) && o < n && HeldPiece(a, o) in s.pieces
    ensures Sound(n, Pushed(n, s, a, o))
  {
    var held, t := HeldPiece(a, o), Pushed(n, s, a, o);
    NotZero(n, s, held);
    Retag(s.pieces, held, Free(o), s.memory);
    forall p | p in s.pieces && p.start == a ensures p == held
    {
      SameStart(s, p, held);
    }
    SlabFrame(n, s, t);
    PushedLists(n, s, a, o);
  }

  lemma PushedLists(n: nat, s: State, a: nat, o: nat)
    requires ListsOk(n, s) && Tiles(s.pieces, s.memory)
    requires o < n && a != 0 && HeldPiece(a, o) in s.pieces
    ensures ListsOk(n, Pushed(n, s, a, o))
  {
    var held, t := HeldPiece(a, o), Pushed(n, s, a, o);
    forall k | 0 <= k < n ensures a !in s.lists[k]
    {
      NotInList(n, s, k, held);
    }
    forall k | 0 <= k < n ensures Linked(t.next, t.heads[k], t.lists[k])
    {
      if k == o {
        FreeLists.Push(s.next, s.heads[o], s.lists[o], a);
      } else {
        LinkedFrame(s.next, t.next, s.heads[k], s.lists[k]);
      }
    }
    assert forall b :: b in t.lists[o] <==> b == a || b in s.lists[o];
    forall p | p in t.pieces && p.tag.Free? ensures FreeOk(n, t, p)
    {
      assert p != FreePiece(a, o) ==> FreeOk(n, s, p);
    }
  }

  /** Node `i` of list `o` unlinked: the list head or the node before is redirected past it. */
  ghost function Detached(n: nat, s: State, o: nat, i: nat): State
    requires o < |s.heads| == |s.lists| && i < |s.lists[o]| && s.lists[o][i] in s.next
  {
    var a := s.lists[o][i];
    s.(heads := if i == 0 then s.heads[o := s.next[a]] else s.heads,
       next := if i == 0 then s.next else s.next[s.lists[o][i - 1] := s.next[a]],
       lists := s.lists[o := Without(s.lists[o], i)],
       pieces := s.pieces - {FreePiece(a, o)} + {HeldPiece(a, o)})
  }

  lemma DetachedSound(n: nat, s: State, o: nat, i: nat)
    requires Sound(n, s) && o < n && i < |s.lists[o]| && s.lists[o][i] in s.next
    ensures FreePiece(s.lists[o][i], o) in s.pieces
    ensures Sound(n, Detached(n, s, o, i))
  {
    var a, t := s.lists[o][i], Detached(n, s, o, i);
    assert a in s.lists[o];
    Retag(s.pieces, FreePiece(a, o), Held, s.memory);
    forall p | p in s.pieces && p.tag != Free(o) ensures p.start !in s.lists[o]
    {
      NotInList(n, s, o, p);
    }
    if i > 0 {
      assert s.lists[o][i - 1] in s.lists[o];
    }
    SlabFrame(n, s, t);
    DetachedLists(n, s, o, i);
  }

  lemma DetachedLists(n: nat, s: State, o: nat, i: nat)
    requires ListsOk(n, s) && Tiles(s.pieces, s.memory)
    requires o < n && i < |s.lists[o]| && s.lists[o][i] in s.next
    ensures ListsOk(n, Detached(n, s, o, i))
  {
    var a, t := s.lists[o][i], Detached(n, s, o, i);
    DetachedLinks(n, s, o, i);
    forall b ensures b in t.lists[o] <==> b in s.lists[o] && b != a
    {
      InWithout(s.lists[o], i, b);
    }
    forall k, b | 0 <= k < n && b in t.lists[k] ensures FreePiece(b, k) in t.pieces
    {
      assert b in s.lists[k];
    }
    forall p | p in t.pieces && p.tag.Free? ensures FreeOk(n, t, p)
    {
      assert a in s.lists[o];
      assert FreeOk(n, s, p);
      if p.tag.order == o && p.start == a {
        SameStart(s, p, FreePiece(a, o));
      }
    }
  }

  lemma DetachedLinks(n: nat, s: State, o: nat, i: nat)
    requires ListsOk(n, s) && Tiles(s.pieces, s.memory)
    requires o < n && i < |s.lists[o]| && s.lists[o][i] in s.next
    ensures var t := Detached(n, s, o, i); forall k :: 0 <= k < n ==> Linked(t.next, t.heads[k], t.lists[k])
  {
    var t := Detached(n, s, o, i);
    forall k | 0 <= k < n ensures Linked(t.next, t.heads[k], t.lists[k])
    {
      if k != o {
        forall b | b in s.lists[k] ensures b !in s.lists[o]
        {
          NotInList(n, s, o, FreePiece(b, k));
        }
        if i > 0 {
          assert s.lists[o][i - 1] in s.lists[o];
        }
        LinkedFrame(s.next, t.next, s.heads[k], s.lists[k]);
      } else if i == 0 {
        FreeLists.Pop(s.next, s.heads[o], s.lists[o]);
        assert s.lists[o][1..] == Without(s.lists[o], 0);
      } else {
        Unlink(s.next, s.heads[o], s.lists[o], i);
      }
    }
  }

  /** A caller's block of order `o + 1` cut into two halves. */
  ghost function Cut(n: nat, s: State, a: nat, o: nat): State
  {
    s.(pieces := s.pieces - {HeldPiece(a, o + 1)} + {HeldPiece(a, o), HeldPiece(a + Pow2(o), o)})
  }

  lemma CutSound(n: nat, s: State, a: nat, o: nat)
    requires Sound(n, s) && HeldPiece(a, o + 1) in s.pieces
    ensures Sound(n, Cut(n, s, a, o))
  {
    Divide(s.pieces, HeldPiece(a, o + 1), HeldPiece(a, o), HeldPiece(a + Pow2(o), o), s.memory);
    SlabFrame(n, s, Cut(n, s, a, o));
    ListsFrame(n, s, Cut(n, s, a, o));
  }

  /** Two buddies in the caller's hand joined. */
  ghost function Glued(s: State, lo: nat, hi: nat, o: nat): State
  {
    s.(pieces := s.pieces - {HeldPiece(lo, o), HeldPiece(hi, o)} + {HeldPiece(lo, o + 1)})
  }

  lemma {:induction false} GluedSound(n: nat, s: State, lo: nat, hi: nat, o: nat)
    requires Sound(n, s) && HeldPiece(lo, o) in s.pieces && HeldPiece(hi, o) in s.pieces && hi == lo + Pow2(o)
    ensures Sound(n, Glued(s, lo, hi, o))
  {
    var t := Glued(s, lo, hi, o);
    Join(s.pieces, HeldPiece(lo, o + 1), HeldPiece(lo, o), HeldPiece(hi, o), s.memory);
    SlabFrame(n, s, t);
    ListsFrame(n, s, t);
  }

  /** Pushing a block whose buddy is not free keeps the lists merged. */
  lemma {:induction false} PushedMerged(n: nat, s: State, a: nat, o: nat)
    requires Sound(n, s) && Dyadical(n, s) && Merged(n, s.pieces) && o < n
    requires HeldPiece(a, o) in s.pieces && Aligned(a, o)
    requires o + 1 < n ==> FreePiece(Flip(a, o), o) !in s.pieces
    ensures Merged(n, Pushed(n, s, a, o).pieces)
  {
    var t := Pushed(n, s, a, o);
    Buddies(a, o);
    forall p | p in t.pieces && p.tag.Free? && p.tag.order + 1 < n
      ensures Alone(t.pieces, p)
    {
      if p != FreePiece(a, o) {
        assert Alone(s.pieces, p);
      }
      if p != FreePiece(a, o) && p.tag.order == o {
        assert FreeOk(n, s, p);
        Buddies(p.start, o);
      }
    }
  }
}
