/** Pieces of memory, each with one owner, that together tile a set of addresses. */
module Tiling {

  /** Who owns a piece: a buddy free list, a caller, or block `idx` of the page slab. */
  datatype Tag = Free(order: nat) | Held | SlabFree(idx: nat) | SlabHeld(idx: nat)

  datatype Piece = Piece(start: nat, len: nat, tag: Tag)

  ghost predicate At(p: Piece, x: nat)
  {
    p.start <= x < p.start + p.len
  }

  ghost predicate Overlap(p: Piece, q: Piece)
  {
    p.start < q.start + q.len && q.start < p.start + p.len
  }

  ghost predicate Disjoint(ps: set<Piece>)
  {
    && (forall p :: p in ps ==> p.len > 0)
    && (forall p, q {:trigger Overlap(p, q)} :: p in ps && q in ps && p != q ==> !Overlap(p, q))
  }

  ghost predicate Covers(ps: set<Piece>, x: nat)
  {
    exists p :: p in ps && At(p, x)
  }

  /** Every address of `memory` is in exactly one piece, and no other address is in any. */
  ghost predicate Tiles(ps: set<Piece>, memory: set<nat>)
  {
    && Disjoint(ps)
    && (forall x :: x in memory <==> Covers(ps, x))
  }

  lemma OnlyOneAt(ps: set<Piece>, p: Piece, q: Piece, x: nat)
    requires Disjoint(ps) && p in ps && q in ps && At(p, x) && At(q, x)
    ensures p == q
  {
    assert Overlap(p, q);
  }

  /** Pieces may be exchanged for others that cover the same addresses. */
  lemma Replace(ps: set<Piece>, was: set<Piece>, now: set<Piece>, memory: set<nat>)
    requires Tiles(ps, memory) && was <= ps && Disjoint(now)
    requires forall x :: Covers(was, x) <==> Covers(now, x)
    ensures Tiles(ps - was + now, memory)
  {
    var rs := ps - was + now;
    forall n, q | n in now && q in ps - was
      ensures !Overlap(n, q)
    {
      if Overlap(n, q) {
        var x := if n.start < q.start then q.start else n.start;
        assert At(n, x) && At(q, x) && Covers(now, x);
        var o :| o in was && At(o, x);
        OnlyOneAt(ps, o, q, x);
      }
    }
    forall x
      ensures x in memory <==> Covers(rs, x)
    {
      if Covers(ps, x) {
        var p :| p in ps && At(p, x);
        if p in was {
          assert Covers(was, x);
          var n :| n in now && At(n, x);
          assert n in rs;
        } else {
          assert p in rs;
        }
      }
      if Covers(rs, x) {
        var p :| p in rs && At(p, x);
        if p in now {
          assert Covers(now, x);
          var o :| o in was && At(o, x);
          assert o in ps;
        } else {
          assert p in ps;
        }
      }
    }
  }

  lemma Retag(ps: set<Piece>, p: Piece, tag: Tag, memory: set<nat>)
    requires Tiles(ps, memory) && p in ps
    ensures Tiles(ps - {p} + {p.(tag := tag)}, memory)
  {
    var q := p.(tag := tag);
    forall x ensures Covers({p}, x) <==> Covers({q}, x)
    {
      assert At(p, x) <==> At(q, x);
      assert p in {p} && q in {q};
    }
    Replace(ps, {p}, {q}, memory);
  }

  lemma TwoHalves(whole: Piece, lo: Piece, hi: Piece)
    requires lo.len > 0 && hi.len > 0
    requires whole.start == lo.start && lo.start + lo.len == hi.start && whole.len == lo.len + hi.len
    ensures Disjoint({whole}) && Disjoint({lo, hi})
    ensures forall x :: Covers({whole}, x) <==> Covers({lo, hi}, x)
  {
    forall x ensures Covers({whole}, x) <==> Covers({lo, hi}, x)
    {
      assert At(whole, x) <==> At(lo, x) || At(hi, x);
      assert whole in {whole} && lo in {lo, hi} && hi in {lo, hi};
    }
  }

  lemma Divide(ps: set<Piece>, whole: Piece, lo: Piece, hi: Piece, memory: set<nat>)
    requires Tiles(ps, memory) && whole in ps && lo.len > 0 && hi.len > 0
    requires whole.start == lo.start && lo.start + lo.len == hi.start && whole.len == lo.len + hi.len
    ensures Tiles(ps - {whole} + {lo, hi}, memory)
  {
    TwoHalves(whole, lo, hi);
    Replace(ps, {whole}, {lo, hi}, memory);
  }

  lemma Join(ps: set<Piece>, whole: Piece, lo: Piece, hi: Piece, memory: set<nat>)
    requires Tiles(ps, memory) && lo in ps && hi in ps
    requires whole.start == lo.start && lo.start + lo.len == hi.start && whole.len == lo.len + hi.len
    ensures Tiles(ps - {lo, hi} + {whole}, memory)
  {
    TwoHalves(whole, lo, hi);
    Replace(ps, {lo, hi}, {whole}, memory);
  }

  /** Total length of a set of pieces. */
  ghost function SumLen(ps: set<Piece>): nat
  {
    if ps == {} then 0 else var p :| p in ps; p.len + SumLen(ps - {p})
  }

  lemma {:induction false} SumRemove(ps: set<Piece>, q: Piece)
    requires q in ps
    ensures SumLen(ps) == q.len + SumLen(ps - {q})
  {
    var p :| p in ps && SumLen(ps) == p.len + SumLen(ps - {p});
    if p != q {
      SumRemove(ps - {p}, q);
      SumRemove(ps - {q}, p);
      assert ps - {p} - {q} == ps - {q} - {p};
    }
  }

  lemma {:induction false} SumAdd(ps: set<Piece>, q: Piece)
    requires q !in ps
    ensures SumLen(ps + {q}) == q.len + SumLen(ps)
  {
    SumRemove(ps + {q}, q);
    assert ps + {q} - {q} == ps;
  }
}
