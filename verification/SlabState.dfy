/** State changes of the page slab, each of which keeps the whole allocator state sound. */
module SlabState {
  import opened Dyadic
  import opened Tiling
  import opened FreeLists
  import opened BuddyState

  /** Everything but slab block `i` is unaffected by a change confined to that block. */
  lemma OthersSound(n: nat, s: State, t: State, i: nat)
    requires Sound(n, s) && Tiles(t.pieces, t.memory) && t.memory == s.memory
    requires t.heads == s.heads && t.lists == s.lists
    requires s.blockCount <= t.blockCount <= |t.blocks| == |t.ranges| == |t.lent| == |s.blocks|
    requires forall j :: 0 <= j < t.blockCount && j != i ==>
      j < s.blockCount && t.blocks[j] == s.blocks[j] && t.ranges[j] == s.ranges[j]
    requires forall p: Piece :: !InSlab(p, i) && p.tag != Held ==> (p in s.pieces <==> p in t.pieces)
    requires forall p :: p in s.pieces && p in t.pieces && !InSlab(p, i) && p.tag != Held && p.start in s.next ==>
      p.start in t.next && t.next[p.start] == s.next[p.start]
    requires forall p :: p in s.pieces && p in t.pieces && !InSlab(p, i) && p.tag != Held && p.start in s.cnt ==>
      p.start in t.cnt && t.cnt[p.start] == s.cnt[p.start]
    requires i < t.blockCount && t.blocks[i].used ==> RangesOk(n, t, i) && RegionOk(n, t, i)
    requires forall p :: p in t.pieces && InSlab(p, i) ==> i < t.blockCount && t.blocks[i].used
    ensures Sound(n, t)
  {
    ListsFrame(n, s, t);
    forall j | 0 <= j < t.blockCount && t.blocks[j].used
      ensures RangesOk(n, t, j) && RegionOk(n, t, j)
    {
      if j != i {
        forall p | InSlab(p, j) ensures p in s.pieces <==> p in t.pieces
        {
          assert !InSlab(p, i);
        }
        SlabFrameAt(n, s, t, j);
      }
    }
    forall p, j: nat | p in t.pieces && InSlab(p, j) ensures j < t.blockCount && t.blocks[j].used
    {
      if j != i {
        assert !InSlab(p, i);
      }
    }
  }

  /** A lent buddy block becomes slab block `i`, one free range. */
  ghost function Added(n: nat, s: State, i: nat, base: nat, o: nat): State
    requires i < |s.blocks| == |s.ranges| == |s.lent|
  {
    s.(blocks := s.blocks[i := BlockInfo(base, Pow2(o), 0, base, true)],
       blockCount := if i < s.blockCount then s.blockCount else i + 1,
       next := s.next[base := 0], cnt := s.cnt[base := Pow2(o)], ranges := s.ranges[i := [base]],
       lent := s.lent[i := o],
       pieces := s.pieces - {HeldPiece(base, o)} + {Piece(base, Pow2(o), SlabFree(i))})
  }

  lemma AddedSound(n: nat, s: State, i: nat, base: nat, o: nat)
    requires Sound(n, s) && HeldPiece(base, o) in s.pieces
    requires i < |s.blocks| && i <= s.blockCount && (i < s.blockCount ==> !s.blocks[i].used)
    ensures Sound(n, Added(n, s, i, base, o))
  {
    var held, t := HeldPiece(base, o), Added(n, s, i, base, o);
    var whole := Piece(base, Pow2(o), SlabFree(i));
    NotZero(n, s, held);
    Retag(s.pieces, held, SlabFree(i), s.memory);
    forall p | p in s.pieces && p.start == base ensures p == held { SameStart(s, p, held); }
    assert forall p :: p in t.pieces && InSlab(p, i) ==> p == whole;
    assert HeldOf(t.pieces, i) == {};
    forall x | InRegion(t.blocks[i], x) ensures SlabCovers(t.pieces, i, x)
    {
      assert whole in t.pieces && InSlab(whole, i) && At(whole, x);
    }
    assert RangesOk(n, t, i);
    OthersSound(n, s, t, i);
  }

  /** The held range at `a` is pushed on the free list of slab block `i`. */
  ghost function Gave(n: nat, s: State, i: nat, a: nat, count: nat): State
    requires i < |s.blocks| == |s.ranges| && count <= s.blocks[i].taken
  {
    var b := s.blocks[i];
    s.(blocks := s.blocks[i := b.(freeList := a, taken := b.taken - count)],
       next := s.next[a := b.freeList], cnt := s.cnt[a := count], ranges := s.ranges[i := [a] + s.ranges[i]],
       pieces := s.pieces - {Piece(a, count, SlabHeld(i))} + {Piece(a, count, SlabFree(i))})
  }

  /** No more can be given back than was taken. */
  lemma TakenBound(n: nat, s: State, i: nat, a: nat, count: nat)
    requires Sound(n, s) && i < s.blockCount && s.blocks[i].used && Piece(a, count, SlabHeld(i)) in s.pieces
    ensures count <= s.blocks[i].taken
    ensures SumLen(HeldOf(s.pieces, i) - {Piece(a, count, SlabHeld(i))}) == s.blocks[i].taken - count
  {
    assert RegionOk(n, s, i);
    SumRemove(HeldOf(s.pieces, i), Piece(a, count, SlabHeld(i)));
  }

  lemma GaveSound(n: nat, s: State, i: nat, a: nat, count: nat)
    requires Sound(n, s) && i < s.blockCount && s.blocks[i].used && count >= 1
    requires Piece(a, count, SlabHeld(i)) in s.pieces
    ensures count <= s.blocks[i].taken && Sound(n, Gave(n, s, i, a, count))
  {
    TakenBound(n, s, i, a, count);
    var held, free := Piece(a, count, SlabHeld(i)), Piece(a, count, SlabFree(i));
    var t := Gave(n, s, i, a, count);
    NotZero(n, s, held);
    Retag(s.pieces, held, SlabFree(i), s.memory);
    forall p | p in s.pieces && p.start == a ensures p == held { SameStart(s, p, held); }
    GaveRanges(n, s, i, a, count);
    assert HeldOf(t.pieces, i) == HeldOf(s.pieces, i) - {held};
    SlabCovered(n, s, t, i, held, {free});
    OthersSound(n, s, t, i);
  }

  lemma GaveRanges(n: nat, s: State, i: nat, a: nat, count: nat)
    requires Sound(n, s) && i < s.blockCount && s.blocks[i].used && 1 <= count <= s.blocks[i].taken && a != 0
    requires Piece(a, count, SlabHeld(i)) in s.pieces
    ensures RangesOk(n, Gave(n, s, i, a, count), i)
  {
    var held := Piece(a, count, SlabHeld(i));
    assert RangesOk(n, s, i);
    if a in s.ranges[i] {
      SameStart(s, held, Piece(a, s.cnt[a], SlabFree(i)));
    }
    FreeLists.Push(s.next, s.blocks[i].freeList, s.ranges[i], a);
    var r := [a] + s.ranges[i];
    assert forall b :: b in r <==> b == a || b in s.ranges[i];
  }

  /** Exchanging one piece of slab block `i` for others over the same addresses keeps its region covered. */
  lemma SlabCovered(n: nat, s: State, t: State, i: nat, was: Piece, now: set<Piece>)
    requires i < |s.blocks| && i < |t.blocks| && RegionOk(n, s, i) && was in s.pieces && InSlab(was, i)
    requires t.pieces == s.pieces - {was} + now && forall p :: p in now ==> InSlab(p, i)
    requires forall x :: At(was, x) ==> Covers(now, x)
    requires forall p :: p in now ==> was.start <= p.start && p.start + p.len <= was.start + was.len
    requires t.blocks[i].base == s.blocks[i].base && t.blocks[i].total == s.blocks[i].total
    requires t.blocks[i].taken == SumLen(HeldOf(t.pieces, i))
    ensures RegionOk(n, t, i)
  {
    forall x | InRegion(t.blocks[i], x) ensures SlabCovers(t.pieces, i, x)
    {
      assert InRegion(s.blocks[i], x);
      var p :| p in s.pieces && InSlab(p, i) && At(p, x);
      if p == was {
        var q :| q in now && At(q, x);
        assert q in t.pieces;
      } else {
        assert p in t.pieces;
      }
    }
  }

  /** Free range `k` of slab block `i` is long enough for `count` units. */
  ghost predicate CanTake(n: nat, s: State, i: nat, k: nat, count: nat)
  {
    && Sound(n, s) && i < s.blockCount && s.blocks[i].used && k < |s.ranges[i]|
    && var a := s.ranges[i][k]; a in s.next && a in s.cnt && 1 <= count <= s.cnt[a]
  }

  ghost function Range(n: nat, s: State, i: nat, k: nat): Piece
    requires i < |s.ranges| && k < |s.ranges[i]| && s.ranges[i][k] in s.cnt
  {
    Piece(s.ranges[i][k], s.cnt[s.ranges[i][k]], SlabFree(i))
  }

  lemma RangeIsPiece(n: nat, s: State, i: nat, k: nat)
    requires Sound(n, s) && i < s.blockCount && s.blocks[i].used && k < |s.ranges[i]|
    ensures s.ranges[i][k] in s.cnt && Range(n, s, i, k) in s.pieces
  {
    assert RangesOk(n, s, i) && s.ranges[i][k] in s.ranges[i];
  }

  lemma NotARange(n: nat, s: State, i: nat, p: Piece)
    requires Sound(n, s) && i < s.blockCount && s.blocks[i].used && p in s.pieces && p.tag != SlabFree(i)
    ensures p.start !in s.ranges[i]
  {
    assert RangesOk(n, s, i);
    if p.start in s.ranges[i] {
      SameStart(s, p, Piece(p.start, s.cnt[p.start], SlabFree(i)));
    }
  }

  /** The sum of held lengths grows by the range taken. */
  lemma TookSum(n: nat, s: State, t: State, i: nat, a: nat, count: nat)
    requires i < |s.blocks| && i < |t.blocks| && RegionOk(n, s, i) && t.blocks[i].taken == s.blocks[i].taken + count
    requires var held := Piece(a, count, SlabHeld(i));
      held !in s.pieces && HeldOf(t.pieces, i) == HeldOf(s.pieces, i) + {held}
    ensures t.blocks[i].taken == SumLen(HeldOf(t.pieces, i))
  {
    SumAdd(HeldOf(s.pieces, i), Piece(a, count, SlabHeld(i)));
  }

  /** The whole of free range `k` is taken: the range is unlinked. */
  ghost function TookAll(n: nat, s: State, i: nat, k: nat): State
    requires i < |s.blocks| == |s.ranges| && k < |s.ranges[i]| && s.ranges[i][k] in s.next && s.ranges[i][k] in s.cnt
  {
    var a, b, r := s.ranges[i][k], s.blocks[i], s.ranges[i];
    s.(blocks := s.blocks[i := b.(taken := b.taken + s.cnt[a], freeList := if k == 0 then s.next[a] else b.freeList)],
       next := if k == 0 then s.next else s.next[r[k - 1] := s.next[a]],
       ranges := s.ranges[i := Without(r, k)],
       pieces := s.pieces - {Range(n, s, i, k)} + {Piece(a, s.cnt[a], SlabHeld(i))})
  }

  lemma TookAllSound(n: nat, s: State, i: nat, k: nat)
    requires CanTake(n, s, i, k, 1)
    ensures Sound(n, TookAll(n, s, i, k))
  {
    var a, t, whole := s.ranges[i][k], TookAll(n, s, i, k), Range(n, s, i, k);
    var held := Piece(a, s.cnt[a], SlabHeld(i));
    RangeIsPiece(n, s, i, k);
    Retag(s.pieces, whole, SlabHeld(i), s.memory);
    if held in s.pieces { SameStart(s, held, whole); }
    assert HeldOf(t.pieces, i) == HeldOf(s.pieces, i) + {held};
    TookSum(n, s, t, i, a, s.cnt[a]);
    forall x | At(whole, x) ensures Covers({held}, x) { assert held in {held} && At(held, x); }
    SlabCovered(n, s, t, i, whole, {held});
    TookAllRanges(n, s, i, k);
    if k > 0 {
      assert s.ranges[i][k - 1] in s.ranges[i];
    }
    forall p | p in s.pieces && !InSlab(p, i) ensures p.start !in s.ranges[i] { NotARange(n, s, i, p); }
    OthersSound(n, s, t, i);
  }

  lemma TookAllRanges(n: nat, s: State, i: nat, k: nat)
    requires CanTake(n, s, i, k, 1)
    ensures RangesOk(n, TookAll(n, s, i, k), i)
  {
    var a, t, r := s.ranges[i][k], TookAll(n, s, i, k), s.ranges[i];
    RangeIsPiece(n, s, i, k);
    assert RangesOk(n, s, i);
    if k == 0 {
      FreeLists.Pop(s.next, s.blocks[i].freeList, r);
      assert r[1..] == Without(r, 0);
    } else {
      Unlink(s.next, s.blocks[i].freeList, r, k);
    }
    forall b ensures b in t.ranges[i] <==> b in r && b != a { InWithout(r, k, b); }
    forall p | p in s.pieces && p.start == a ensures p == Range(n, s, i, k) { SameStart(s, p, Range(n, s, i, k)); }
  }

  /** The front of free range `k` is taken: the rest takes its place in the list. */
  ghost function TookPart(n: nat, s: State, i: nat, k: nat, count: nat): State
    requires i < |s.blocks| == |s.ranges| && k < |s.ranges[i]| && s.ranges[i][k] in s.next && s.ranges[i][k] in s.cnt
    requires count < s.cnt[s.ranges[i][k]]
  {
    var a, b := s.ranges[i][k], s.blocks[i];
    var r: seq<nat> := s.ranges[i];
    var rest: nat := a + count;
    var linked := s.next[rest := s.next[a]];
    s.(blocks := s.blocks[i := b.(taken := b.taken + count, freeList := if k == 0 then rest else b.freeList)],
       next := if k == 0 then linked else linked[r[k - 1] := rest],
       cnt := s.cnt[rest := s.cnt[a] - count],
       ranges := s.ranges[i := r[k := rest]],
       pieces := s.pieces - {Range(n, s, i, k)}
         + {Piece(a, count, SlabHeld(i)), Piece(rest, s.cnt[a] - count, SlabFree(i))})
  }

  /** The rest of a partly taken range starts inside it, where no other piece starts. */
  lemma RestIsNew(n: nat, s: State, i: nat, k: nat, count: nat)
    requires CanTake(n, s, i, k, count) && count < s.cnt[s.ranges[i][k]]
    ensures var a := s.ranges[i][k]; var rest := a + count;
      && count > 0 && s.cnt[a] - count > 0
      && s.cnt[a] == count + s.cnt[a] - count
      && rest != 0 && rest !in s.ranges[i] && forall p :: p in s.pieces ==> p.start != rest
  {
    var a := s.ranges[i][k];
    var rest: nat := a + count;
    RangeIsPiece(n, s, i, k);
    forall p | p in s.pieces ensures p.start != rest
    {
      if p.start == rest {
        OnlyOneAt(s.pieces, p, Range(n, s, i, k), rest);
      }
    }
    assert RangesOk(n, s, i);
    assert forall b :: b in s.ranges[i] ==> Piece(b, s.cnt[b], SlabFree(i)) in s.pieces;
  }

  lemma TookPartSound(n: nat, s: State, i: nat, k: nat, count: nat)
    requires CanTake(n, s, i, k, count) && count < s.cnt[s.ranges[i][k]]
    ensures Sound(n, TookPart(n, s, i, k, count))
  {
    TookPartPieces(n, s, i, k, count);
    TookPartRanges(n, s, i, k, count);
    TookPartFrames(n, s, i, k, count);
    OthersSound(n, s, TookPart(n, s, i, k, count), i);
  }

  lemma TookPartFrames(n: nat, s: State, i: nat, k: nat, count: nat)
    requires CanTake(n, s, i, k, count) && count < s.cnt[s.ranges[i][k]]
    ensures var t := TookPart(n, s, i, k, count);
      && (forall p :: p in s.pieces && !InSlab(p, i) && p.start in s.next ==> p.start in t.next && t.next[p.start] == s.next[p.start])
      && (forall p :: p in s.pieces && !InSlab(p, i) && p.start in s.cnt ==> p.start in t.cnt && t.cnt[p.start] == s.cnt[p.start])
  {
    forall p | p in s.pieces && !InSlab(p, i)
      ensures var t := TookPart(n, s, i, k, count);
        && (p.start in s.next ==> p.start in t.next && t.next[p.start] == s.next[p.start])
        && (p.start in s.cnt ==> p.start in t.cnt && t.cnt[p.start] == s.cnt[p.start])
    {
      TookPartFrame(n, s, i, k, count, p);
    }
  }

  lemma TookPartFrame(n: nat, s: State, i: nat, k: nat, count: nat, p: Piece)
    requires CanTake(n, s, i, k, count) && count < s.cnt[s.ranges[i][k]] && p in s.pieces && !InSlab(p, i)
    ensures var t := TookPart(n, s, i, k, count);
      && (p.start in s.next ==> p.start in t.next && t.next[p.start] == s.next[p.start])
      && (p.start in s.cnt ==> p.start in t.cnt && t.cnt[p.start] == s.cnt[p.start])
  {
    RestIsNew(n, s, i, k, count);
    NotARange(n, s, i, p);
    if k > 0 {
      assert s.ranges[i][k - 1] in s.ranges[i];
    }
  }

  lemma TookPartPieces(n: nat, s: State, i: nat, k: nat, count: nat)
    requires CanTake(n, s, i, k, count) && count < s.cnt[s.ranges[i][k]]
    ensures var t := TookPart(n, s, i, k, count); Tiles(t.pieces, t.memory) && RegionOk(n, t, i)
  {
    var a, t, whole := s.ranges[i][k], TookPart(n, s, i, k, count), Range(n, s, i, k);
    var held := Piece(a, count, SlabHeld(i));
    var rest := Piece(a + count, s.cnt[a] - count, SlabFree(i));
    RangeIsPiece(n, s, i, k);
    RestIsNew(n, s, i, k, count);
    Divide(s.pieces, whole, held, rest, s.memory);
    if held in s.pieces { SameStart(s, held, whole); }
    assert HeldOf(t.pieces, i) == HeldOf(s.pieces, i) + {held};
    TookSum(n, s, t, i, a, count);
    forall x | At(whole, x) ensures Covers({held, rest}, x)
    {
      assert held in {held, rest} && rest in {held, rest} && (At(held, x) || At(rest, x));
    }
    SlabCovered(n, s, t, i, whole, {held, rest});
  }

  lemma TookPartRanges(n: nat, s: State, i: nat, k: nat, count: nat)
    requires CanTake(n, s, i, k, count) && count < s.cnt[s.ranges[i][k]]
    ensures RangesOk(n, TookPart(n, s, i, k, count), i)
  {
    var t := TookPart(n, s, i, k, count);
    RestIsNew(n, s, i, k, count);
    TookPartLinked(n, s, i, k, count);
    forall b | b in t.ranges[i] ensures b in t.cnt && t.cnt[b] >= 1 && Piece(b, t.cnt[b], SlabFree(i)) in t.pieces
    {
      TookPartListed(n, s, i, k, count, b);
    }
    forall p | p in t.pieces && p.tag == SlabFree(i) ensures p.start in t.ranges[i]
    {
      TookPartNode(n, s, i, k, count, p);
    }
  }

  /** A node of the list after a part was taken is a free range with its length. */
  lemma TookPartListed(n: nat, s: State, i: nat, k: nat, count: nat, b: nat)
    requires CanTake(n, s, i, k, count) && count < s.cnt[s.ranges[i][k]] && b in TookPart(n, s, i, k, count).ranges[i]
    ensures var t := TookPart(n, s, i, k, count); b in t.cnt && t.cnt[b] >= 1 && Piece(b, t.cnt[b], SlabFree(i)) in t.pieces
  {
    RestIsNew(n, s, i, k, count);
    InSubstitute(s.ranges[i], k, s.ranges[i][k] + count, b);
    assert b != s.ranges[i][k] + count ==> b in s.ranges[i];
  }

  /** The free ranges after a part was taken: the rest, and the others. */
  lemma TookPartFree(n: nat, s: State, i: nat, k: nat, count: nat, p: Piece)
    requires i < |s.blocks| == |s.ranges| && k < |s.ranges[i]| && s.ranges[i][k] in s.next && s.ranges[i][k] in s.cnt
    requires count < s.cnt[s.ranges[i][k]] && p in TookPart(n, s, i, k, count).pieces && p.tag == SlabFree(i)
    ensures p.start == s.ranges[i][k] + count || (p in s.pieces && p != Range(n, s, i, k))
    ensures TookPart(n, s, i, k, count).ranges[i] == s.ranges[i][k := s.ranges[i][k] + count]
  {
  }

  /** Such a range starts at a node of the list. */
  lemma TookPartStart(n: nat, s: State, i: nat, k: nat, rest: nat, p: Piece)
    requires Sound(n, s) && i < s.blockCount && s.blocks[i].used && k < |s.ranges[i]| && s.ranges[i][k] in s.cnt && rest !in s.ranges[i]
    requires p.tag == SlabFree(i) && (p.start == rest || (p in s.pieces && p != Range(n, s, i, k)))
    ensures p.start in s.ranges[i][k := rest]
  {
    assert RangesOk(n, s, i);
    InSubstitute(s.ranges[i], k, rest, p.start);
    if p.start != rest { KeptStart(n, s, i, k, p); }
  }

  lemma TookPartNode(n: nat, s: State, i: nat, k: nat, count: nat, p: Piece)
    requires CanTake(n, s, i, k, count) && count < s.cnt[s.ranges[i][k]]
    requires p in TookPart(n, s, i, k, count).pieces && p.tag == SlabFree(i)
    ensures p.start in TookPart(n, s, i, k, count).ranges[i]
  {
    TookPartFree(n, s, i, k, count, p);
    assert s.ranges[i][k] + count !in s.ranges[i] by { RestIsNew(n, s, i, k, count); }
    TookPartStart(n, s, i, k, s.ranges[i][k] + count, p);
  }

  /** A free range other than the one taken from starts elsewhere. */
  lemma KeptStart(n: nat, s: State, i: nat, k: nat, p: Piece)
    requires Sound(n, s) && i < s.blockCount && s.blocks[i].used && k < |s.ranges[i]| && s.ranges[i][k] in s.cnt
    requires p in s.pieces && p.tag == SlabFree(i) && p != Range(n, s, i, k)
    ensures p.start in s.ranges[i] && p.start != s.ranges[i][k]
  {
    RangeIsPiece(n, s, i, k);
    if p.start == s.ranges[i][k] { SameStart(s, p, Range(n, s, i, k)); }
  }

  lemma TookPartLinked(n: nat, s: State, i: nat, k: nat, count: nat)
    requires i < |s.blocks| == |s.ranges| && k < |s.ranges[i]|
    requires Linked(s.next, s.blocks[i].freeList, s.ranges[i])
    requires var a := s.ranges[i][k]; a in s.next && a in s.cnt && count < s.cnt[a] && a + count !in s.ranges[i] && a + count != 0
    ensures var t := TookPart(n, s, i, k, count); Linked(t.next, t.blocks[i].freeList, t.ranges[i])
  {
    Substitute(s.next, s.blocks[i].freeList, s.ranges[i], k, s.ranges[i][k] + count);
  }

  /** Slab block `i`, with nothing taken, handed back to the caller as one buddy block. */
  ghost function Released(n: nat, s: State, i: nat): State
    requires i < |s.blocks| == |s.lent|
  {
    var b := s.blocks[i];
    s.(blocks := s.blocks[i := b.(used := false)],
       pieces := s.pieces - (set p | p in s.pieces && InSlab(p, i)) + {HeldPiece(b.base, s.lent[i])})
  }

  lemma ReleasedSound(n: nat, s: State, i: nat)
    requires Sound(n, s) && i < s.blockCount && s.blocks[i].used && s.blocks[i].taken == 0
    requires s.blocks[i].total == Pow2(s.lent[i])
    ensures Sound(n, Released(n, s, i))
    ensures forall p :: p in s.pieces && InSlab(p, i) ==> p.tag == SlabFree(i)
  {
    var b, t := s.blocks[i], Released(n, s, i);
    var o, mine := s.lent[i], set p | p in s.pieces && InSlab(p, i);
    var whole := HeldPiece(b.base, o);
    assert RegionOk(n, s, i);
    forall p | p in s.pieces && InSlab(p, i) ensures p.tag == SlabFree(i)
    {
      if p.tag == SlabHeld(i) { SumRemove(HeldOf(s.pieces, i), p); }
    }
    forall x ensures Covers(mine, x) <==> Covers({whole}, x)
    {
      if Covers(mine, x) {
        var p :| p in mine && At(p, x);
        assert whole in {whole} && At(whole, x);
      }
      if Covers({whole}, x) {
        assert InRegion(b, x);
        var p :| p in s.pieces && InSlab(p, i) && At(p, x);
        assert p in mine;
      }
    }
    Replace(s.pieces, mine, {whole}, s.memory);
    OthersSound(n, s, t, i);
  }

  /** What taking `count` units at `a` from slab block `i` changes, seen from outside the slab's free ranges. */
  ghost predicate TookEffect(s: State, t: State, i: nat, a: nat, count: nat)
  {
    var held := Piece(a, count, SlabHeld(i));
    && held !in s.pieces
    && (forall p: Piece :: !p.tag.SlabFree? ==> (p in t.pieces <==> p in s.pieces || p == held))
    && t.heads == s.heads && t.lists == s.lists && t.memory == s.memory
    && t.blockCount == s.blockCount && t.lent == s.lent && |t.blocks| == |s.blocks| && |t.ranges| == |s.ranges|
    && (forall j :: 0 <= j < |s.blocks| ==> t.blocks[j].base == s.blocks[j].base && t.blocks[j].total == s.blocks[j].total)
    && (forall j :: 0 <= j < |s.blocks| ==> t.blocks[j].used == s.blocks[j].used)
    && (forall j :: 0 <= j < |s.blocks| ==> t.blocks[j].taken == s.blocks[j].taken + if j == i then count else 0)
  }

  lemma TookAllEffect(n: nat, s: State, i: nat, k: nat)
    requires CanTake(n, s, i, k, 1)
    ensures TookEffect(s, TookAll(n, s, i, k), i, s.ranges[i][k], s.cnt[s.ranges[i][k]])
  {
    var a := s.ranges[i][k];
    RangeIsPiece(n, s, i, k);
    if Piece(a, s.cnt[a], SlabHeld(i)) in s.pieces { SameStart(s, Piece(a, s.cnt[a], SlabHeld(i)), Range(n, s, i, k)); }
  }

  lemma TookPartEffect(n: nat, s: State, i: nat, k: nat, count: nat)
    requires CanTake(n, s, i, k, count) && count < s.cnt[s.ranges[i][k]]
    ensures TookEffect(s, TookPart(n, s, i, k, count), i, s.ranges[i][k], count)
  {
    var a := s.ranges[i][k];
    RangeIsPiece(n, s, i, k);
    if Piece(a, count, SlabHeld(i)) in s.pieces { SameStart(s, Piece(a, count, SlabHeld(i)), Range(n, s, i, k)); }
  }

  lemma TookDyadical(n: nat, s: State, t: State, i: nat, a: nat, count: nat)
    requires SlabOk(n, s) && Dyadical(n, s) && TookEffect(s, t, i, a, count)
    ensures t.blockCount <= |t.blocks| == |t.lent| && Dyadical(n, t)
    ensures Merged(n, s.pieces) ==> Merged(n, t.pieces)
  {
    MergedSame(n, s.pieces, t.pieces);
  }

  lemma MergedSame(n: nat, was: set<Piece>, now: set<Piece>)
    requires forall p: Piece :: p.tag.Free? ==> (p in was <==> p in now)
    ensures Merged(n, was) ==> Merged(n, now)
  {
    forall p | Merged(n, was) && p in now && p.tag.Free? && p.tag.order + 1 < n ensures Alone(now, p)
    {
      assert Alone(was, p);
    }
  }
}
