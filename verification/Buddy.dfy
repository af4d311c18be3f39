/**
  * The buddy allocator with its page slab (`allocators/buddy.rs`, `allocators/slab.rs`).
  * Addresses and lengths are counted in units of `1 << MIN_ORDER` bytes, so a block of order `o` has length `2^o`.
  */
module Buddy {
  import opened Basics
  import opened Dyadic
  import opened Tiling
  import opened FreeLists
  import opened BuddyState
  import opened SlabState

  /** Of the pieces outside the buddy lists, `gone` left and `come` arrived. */
  ghost predicate Keeps(was: set<Piece>, now: set<Piece>, gone: set<Piece>, come: set<Piece>)
  {
    forall p: Piece :: !p.tag.Free? ==> (p in now <==> (p in was && p !in gone) || p in come)
  }

  class BuddyAllocator {
    const orders: nat
    const hasSlab: bool

    var heads: seq<nat>
    /** The first word of free memory: the next pointer. */
    var next: map<nat, nat>
    /** The second word of a slab free range: its count of units. */
    var cnt: map<nat, nat>
    var blocks: seq<BlockInfo>
    var blockCount: nat

    ghost var lists: seq<seq<nat>>
    ghost var ranges: seq<seq<nat>>
    ghost var lent: seq<nat>
    ghost var pieces: set<Piece>
    /** The memory given to the allocator. */
    ghost var memory: set<nat>
    /** Outstanding requests: address to count of units. */
    ghost var out: map<nat, nat>

    ghost function St(): State
      reads this`heads, this`next, this`cnt, this`blocks, this`blockCount
      reads this`lists, this`ranges, this`lent, this`pieces, this`memory
    {
      State(heads, next, cnt, blocks, blockCount, lists, ranges, lent, pieces, memory)
    }

    ghost predicate Ok()
      reads this`heads, this`next, this`cnt, this`blocks, this`blockCount
      reads this`lists, this`ranges, this`lent, this`pieces, this`memory
    {
      Sound(orders, St()) && Dyadical(orders, St())
    }

    /** Writes the list head into the block, and the block into the list head. */
    method Link(addr: nat, order: nat)
      requires order < |heads| == |lists|
      modifies this`heads, this`next, this`lists, this`pieces
      ensures St() == Pushed(orders, old(St()), addr, order)
    {
      next := next[addr := heads[order]];
      heads := heads[order := addr];
      lists := lists[order := [addr] + lists[order]];
      pieces := pieces - {HeldPiece(addr, order)} + {FreePiece(addr, order)};
    }

    /** A caller's block becomes the head of its order's free list. */
    method Push(addr: nat, order: nat)
      requires Ok() && order < orders && HeldPiece(addr, order) in pieces && Aligned(addr, order)
      modifies this`heads, this`next, this`lists, this`pieces
      ensures Ok()
      ensures St() == Pushed(orders, old(St()), addr, order)
    {
      ghost var t := Pushed(orders, St(), addr, order);
      PushedSound(orders, St(), addr, order);
      Link(addr, order);
      assert St() == t;
    }

    method Pop(order: nat) returns (r: Option<nat>)
      requires Ok() && order < orders
      modifies this`heads, this`lists, this`pieces
      ensures Ok()
      ensures r.None? <==> old(lists)[order] == []
      ensures r.None? ==> unchanged(this)
      ensures r.Some? ==>
        && FreePiece(r.value, order) in old(pieces)
        && pieces == old(pieces) - {FreePiece(r.value, order)} + {HeldPiece(r.value, order)}
    {
      var head := heads[order];
      assert Linked(next, heads[order], lists[order]);
      if head == 0 {
        return None;
      }
      DetachedSound(orders, St(), order, 0);
      heads := heads[order := next[head]];
      lists := lists[order := Without(lists[order], 0)];
      pieces := pieces - {FreePiece(head, order)} + {HeldPiece(head, order)};
      return Some(head);
    }

    /** Redirects the link to node `i` of list `order` past it. */
    method Detach(addr: nat, prev: nat, order: nat, ghost i: nat)
      requires Ok() && order < orders && i < |lists[order]| && addr == lists[order][i]
      requires prev == if i == 0 then 0 else lists[order][i - 1]
      modifies this`heads, this`next, this`lists, this`pieces
      ensures Ok()
      ensures FreePiece(addr, order) in old(pieces)
      ensures pieces == old(pieces) - {FreePiece(addr, order)} + {HeldPiece(addr, order)}
    {
      assert Linked(next, heads[order], lists[order]);
      ghost var s := St();
      ghost var t := Detached(orders, s, order, i);
      DetachedSound(orders, s, order, i);
      assert Sound(orders, t) && Dyadical(orders, t);
      if prev == 0 {
        heads := heads[order := next[addr]];
      } else {
        next := next[prev := next[addr]];
      }
      lists := t.lists;
      pieces := t.pieces;
      assert St() == t;
    }

    /** Unlinks `addr` from the list of `order` if it is there. */
    method Remove(addr: nat, order: nat) returns (found: bool)
      requires Ok() && order < orders
      modifies this`heads, this`next, this`lists, this`pieces
      ensures Ok()
      ensures found <==> FreePiece(addr, order) in old(pieces)
      ensures !found ==> unchanged(this)
      ensures found ==> pieces == old(pieces) - {FreePiece(addr, order)} + {HeldPiece(addr, order)}
    {
      ghost var s := lists[order];
      var prev := 0;
      var current := heads[order];
      ghost var i := 0;
      assert Linked(next, heads[order], s);
      while current != 0
        invariant 0 <= i <= |s| && current == NextOf(s, i)
        invariant prev == if i == 0 then 0 else s[i - 1]
        invariant addr !in s[..i]
        invariant unchanged(this)
        decreases |s| - i
      {
        if current == addr {
          Detach(addr, prev, order, i);
          return true;
        }
        prev := current;
        current := next[current];
        i := i + 1;
      }
      assert addr !in s;
      return false;
    }

    method FindOrder(order: nat) returns (found: nat)
      requires Ok() && order < orders
      ensures order <= found <= orders
      ensures forall o :: order <= o < found ==> lists[o] == []
      ensures found < orders ==> lists[found] != []
    {
      found := order;
      while found < orders && heads[found] == 0
        invariant order <= found <= orders
        invariant forall o :: order <= o < found ==> lists[o] == []
      {
        assert Linked(next, heads[found], lists[found]);
        found := found + 1;
      }
      if found < orders {
        assert Linked(next, heads[found], lists[found]);
      }
    }

    /** Pushes back the upper half of `block`, and of each lower half, until `order` is reached. */
    method SplitDown(block: nat, top: nat, order: nat)
      requires Ok() && order <= top < orders && Aligned(block, top) && HeldPiece(block, top) in pieces
      modifies this`heads, this`next, this`lists, this`pieces
      ensures Ok() && Aligned(block, order) && HeldPiece(block, order) in pieces
      ensures Keeps(old(pieces), pieces, {HeldPiece(block, top)}, {HeldPiece(block, order)})
      ensures old(Merged(orders, pieces)) ==> Merged(orders, pieces)
    {
      var found := top;
      ghost var was, first, merged := pieces, HeldPiece(block, top), Merged(orders, pieces);
      while found > order
        invariant order <= found <= top && Ok()
        invariant Aligned(block, found)
        invariant HeldPiece(block, found) in pieces
        invariant Keeps(was, pieces, {first}, {HeldPiece(block, found)})
        invariant merged ==> Merged(orders, pieces)
      {
        found := SplitOnce(block, found, was, first);
      }
    }

    method SplitOnce(block: nat, order: nat, ghost was: set<Piece>, ghost first: Piece) returns (found: nat)
      requires Ok() && 0 < order < orders && Aligned(block, order) && HeldPiece(block, order) in pieces
      requires Keeps(was, pieces, {first}, {HeldPiece(block, order)}) && first in was && first.start == block
      requires Disjoint(was)
      modifies this`heads, this`next, this`lists, this`pieces
      ensures found == order - 1
      ensures Ok() && Aligned(block, found) && HeldPiece(block, found) in pieces
      ensures Keeps(was, pieces, {first}, {HeldPiece(block, found)})
      ensures old(Merged(orders, pieces)) ==> Merged(orders, pieces)
    {
      ghost var s := St();
      found := order - 1;
      var buddy := block + Pow2(found);
      ghost var t := Cut(orders, s, block, found);
      ghost var u := Pushed(orders, t, buddy, found);
      SplitReady(orders, s, block, order, found, was, first);
      assert Sound(orders, t) && Dyadical(orders, t);
      pieces := t.pieces;
      assert St() == t;
      Push(buddy, found);
      assert St() == u;
    }

    /** The first non-empty list at or above `order` gives a block, whose upper halves are pushed back. */
    method Alloc(order: nat) returns (r: Option<nat>)
      requires Ok()
      modifies this`heads, this`next, this`lists, this`pieces
      ensures Ok()
      ensures r.None? <==> forall o :: order <= o < orders ==> old(lists)[o] == []
      ensures r.None? ==> unchanged(this)
      ensures r.Some? ==> order < orders && Aligned(r.value, order) && HeldPiece(r.value, order) !in old(pieces)
      ensures r.Some? ==> Keeps(old(pieces), pieces, {}, {HeldPiece(r.value, order)})
      ensures old(Merged(orders, pieces)) ==> Merged(orders, pieces)
    {
      if order + 1 > orders {
        return None;
      }
      var found := FindOrder(order);
      if found == orders {
        return None;
      }
      var popped := Pop(found);
      var block := popped.value;
      ghost var free := FreePiece(block, found);
      RemovedMerged(orders, old(pieces), free, HeldPiece(block, found));
      forall p | p in old(pieces) && p.start == block ensures p == free { SameStart(old(St()), p, free); }
      SplitDown(block, found, order);
      return Some(block);
    }

    /** Unlinks the buddy of `a`, if it is free, and joins the two. */
    method MergeOnce(a: nat, o: nat, ghost was: set<Piece>, ghost mine: Piece, ghost x: nat) returns (r: Option<nat>, up: nat)
      requires o + 1 < orders && InHand(orders, St(), a, o, was, mine, x)
      modifies this`heads, this`next, this`lists, this`pieces
      ensures r.None? ==> unchanged(this) && FreePiece(Flip(a, o), o) !in pieces
      ensures r.Some? ==> up == o + 1 && InHand(orders, St(), r.value, up, was, mine, x)
      ensures old(Merged(orders, pieces)) ==> Merged(orders, pieces)
    {
      var buddy := Flip(a, o);
      ghost var s := St();
      var removed := Remove(buddy, o);
      up := o + 1;
      if !removed {
        return None, up;
      }
      ghost var t := St();
      var lo := if a < buddy then a else buddy;
      ghost var hi := if a < buddy then buddy else a;
      ghost var u := Glued(t, lo, hi, o);
      MergeReady(orders, s, t, a, o, up, lo, hi, was, mine, x);
      assert InHand(orders, u, lo, up, was, mine, x);
      pieces := u.pieces;
      assert St() == u;
      return Some(lo), up;
    }

    /** The merge loop of `FreeWith`. */
    method Climb(addr: nat, order: nat, canMerge: (nat, nat) -> bool) returns (a: nat, o: nat)
      requires Ok() && order < orders && HeldPiece(addr, order) in pieces && Aligned(addr, order)
      modifies this`heads, this`next, this`lists, this`pieces
      ensures o < orders && InHand(orders, St(), a, o, old(pieces), HeldPiece(addr, order), addr)
      ensures old(Merged(orders, pieces)) ==> Merged(orders, pieces)
      ensures o + 1 == orders || !canMerge(Flip(a, o), o) || FreePiece(Flip(a, o), o) !in pieces
    {
      a, o := addr, order;
      ghost var was, mine, merged := pieces, HeldPiece(addr, order), Merged(orders, pieces);
      while o + 1 < orders
        invariant o < orders && InHand(orders, St(), a, o, was, mine, addr)
        invariant merged ==> Merged(orders, pieces)
      {
        var buddy := Flip(a, o);
        if !canMerge(buddy, o) {
          return;
        }
        var lo, up := MergeOnce(a, o, was, mine, addr);
        if lo.None? {
          return;
        }
        a, o := lo.value, up;
      }
    }

    /** Frees a block, merging it with its buddy as long as that is free and `canMerge` allows. */
    method FreeWith(addr: nat, order: nat, canMerge: (nat, nat) -> bool)
      requires Ok() && (order < orders ==> HeldPiece(addr, order) in pieces && Aligned(addr, order))
      modifies this`heads, this`next, this`lists, this`pieces
      ensures Ok()
      ensures order >= orders ==> unchanged(this)
      ensures order < orders ==> Keeps(old(pieces), pieces, {HeldPiece(addr, order)}, {})
      ensures (forall b, o :: canMerge(b, o)) && old(Merged(orders, pieces)) ==> Merged(orders, pieces)
    {
      if order + 1 > orders {
        return;
      }
      ghost var was, mine := pieces, HeldPiece(addr, order);
      var a, o := Climb(addr, order, canMerge);
      ghost var s := St();
      ghost var t := Pushed(orders, s, a, o);
      FreedLast(orders, s, a, o, was, mine, addr);
      Push(a, o);
      assert St() == t;
    }

    method FindBlock(addr: nat) returns (r: Option<nat>)
      requires Ok()
      ensures r.Some? ==> r.value < blockCount && blocks[r.value].used && InRegion(blocks[r.value], addr)
      ensures r.None? ==> forall i :: 0 <= i < blockCount && blocks[i].used ==> !InRegion(blocks[i], addr)
    {
      for i := 0 to blockCount
        invariant forall j :: 0 <= j < i && blocks[j].used ==> !InRegion(blocks[j], addr)
      {
        var b := blocks[i];
        if b.used && b.base <= addr < b.base + b.total {
          return Some(i);
        }
      }
      return None;
    }

    /** Takes the whole of free range `k` of slab block `i`. */
    method TakeAll(i: nat, prev: nat, current: nat, ghost k: nat)
      requires i < |blocks| == |ranges| && k < |ranges[i]| && current == ranges[i][k] && current in next && current in cnt
      requires if k == 0 then prev == 0 else prev == ranges[i][k - 1] != 0
      modifies this`next, this`blocks, this`ranges, this`pieces
      ensures St() == TookAll(orders, old(St()), i, k)
    {
      ghost var t := TookAll(orders, St(), i, k);
      var b := blocks[i];
      blocks := blocks[i := b.(taken := b.taken + cnt[current], freeList := if prev == 0 then next[current] else b.freeList)];
      next := if prev == 0 then next else next[prev := next[current]];
      ranges, pieces := t.ranges, t.pieces;
    }

    /** Takes the front of free range `k` of slab block `i`; the rest takes its place in the list. */
    method TakePart(i: nat, count: nat, prev: nat, current: nat, ghost k: nat)
      requires i < |blocks| == |ranges| && k < |ranges[i]| && current == ranges[i][k] && current in next && current in cnt
      requires count < cnt[current] && if k == 0 then prev == 0 else prev == ranges[i][k - 1] != 0
      modifies this`next, this`cnt, this`blocks, this`ranges, this`pieces
      ensures St() == TookPart(orders, old(St()), i, k, count)
    {
      ghost var t := TookPart(orders, St(), i, k, count);
      var split, b := current + count, blocks[i];
      var linked := next[split := next[current]];
      next := if prev == 0 then linked else linked[prev := split];
      blocks := blocks[i := b.(taken := b.taken + count, freeList := if prev == 0 then split else b.freeList)];
      cnt := cnt[split := cnt[current] - count];
      ranges, pieces := t.ranges, t.pieces;
    }

    method TakeRange(i: nat, count: nat, prev: nat, current: nat, ghost k: nat)
      requires Ok() && CanTake(orders, St(), i, k, count) && current == ranges[i][k]
      requires if k == 0 then prev == 0 else prev == ranges[i][k - 1] != 0
      modifies this`next, this`cnt, this`blocks, this`ranges, this`pieces
      ensures Ok() && TookEffect(old(St()), St(), i, current, count)
    {
      ghost var s := St();
      if cnt[current] == count {
        ghost var t := TookAll(orders, s, i, k);
        TookAllSound(orders, s, i, k);
        TookAllEffect(orders, s, i, k);
        TookDyadical(orders, s, t, i, current, count);
        TakeAll(i, prev, current, k);
        assert St() == t;
      } else {
        ghost var t := TookPart(orders, s, i, k, count);
        TookPartSound(orders, s, i, k, count);
        TookPartEffect(orders, s, i, k, count);
        TookDyadical(orders, s, t, i, current, count);
        TakePart(i, count, prev, current, k);
        assert St() == t;
      }
    }

    /** First fit in the free list of slab block `i`. */
    method AllocInBlock(i: nat, count: nat) returns (r: Option<nat>)
      requires Ok() && i < blockCount && blocks[i].used && count >= 1
      modifies this`next, this`cnt, this`blocks, this`ranges, this`pieces
      ensures Ok()
      ensures r.None? <==> !HasRange(old(St()), i, count)
      ensures r.None? ==> unchanged(this)
      ensures r.Some? ==> TookEffect(old(St()), St(), i, r.value, count)
    {
      ghost var s := ranges[i];
      var prev := 0;
      var current := blocks[i].freeList;
      ghost var k := 0;
      assert RangesOk(orders, St(), i);
      while current != 0
        invariant 0 <= k <= |s| && current == NextOf(s, k)
        invariant if k == 0 then prev == 0 else prev == s[k - 1] != 0
        invariant forall j :: 0 <= j < k ==> s[j] in cnt && cnt[s[j]] < count
        invariant unchanged(this)
        decreases |s| - k
      {
        assert current in s;
        if cnt[current] >= count {
          TakeRange(i, count, prev, current, k);
          return Some(current);
        }
        prev := current;
        current := next[current];
        k := k + 1;
      }
      return None;
    }

    method SlabAllocate(count: nat) returns (r: Option<nat>, ghost at: nat)
      requires Ok() && count >= 1
      modifies this`next, this`cnt, this`blocks, this`ranges, this`pieces
      ensures Ok()
      ensures r.None? ==> unchanged(this)
      ensures r.None? ==> forall i :: 0 <= i < blockCount && blocks[i].used ==> !HasRange(St(), i, count)
      ensures r.Some? ==> at < old(blockCount) && old(blocks)[at].used && HasRange(old(St()), at, count)
      ensures r.Some? ==> TookEffect(old(St()), St(), at, r.value, count)
    {
      at := 0;
      for i := 0 to blockCount
        invariant unchanged(this)
        invariant forall j :: 0 <= j < i && blocks[j].used ==> !HasRange(St(), j, count)
      {
        if blocks[i].used {
          r := AllocInBlock(i, count);
          if r.Some? {
            at := i;
            return;
          }
        }
      }
      r := None;
    }

    /** Gives a buddy block to the slab: in the first unused entry, else in a new one, else not at all. */
    method AddBlock(base: nat, order: nat) returns (ok: bool, ghost at: nat)
      requires Ok() && order < orders && Aligned(base, order) && HeldPiece(base, order) in pieces
      modifies this`next, this`cnt, this`blocks, this`blockCount, this`ranges, this`lent, this`pieces
      ensures Ok()
      ensures !ok ==> unchanged(this)
      ensures !ok <==> old(blockCount) == |old(blocks)| && forall i :: 0 <= i < old(blockCount) ==> old(blocks)[i].used
      ensures ok ==> at < |old(blocks)| && at <= old(blockCount) && (at < old(blockCount) ==> !old(blocks)[at].used)
      ensures ok ==> St() == Added(orders, old(St()), at, base, order)
    {
      at := 0;
      var idx := 0;
      while idx < blockCount && blocks[idx].used
        invariant 0 <= idx <= blockCount
        invariant forall i :: 0 <= i < idx ==> blocks[i].used
      {
        idx := idx + 1;
      }
      if idx == |blocks| {
        return false, 0;
      }
      ghost var s := St();
      ghost var t := Added(orders, s, idx, base, order);
      AddedSound(orders, s, idx, base, order);
      Install(idx, base, order);
      assert St() == t;
      return true, idx;
    }

    method Install(idx: nat, base: nat, order: nat)
      requires idx < |blocks| == |ranges| == |lent| && idx <= blockCount
      modifies this`next, this`cnt, this`blocks, this`blockCount, this`ranges, this`lent, this`pieces
      ensures St() == Added(orders, old(St()), idx, base, order)
    {
      ghost var t := Added(orders, St(), idx, base, order);
      if idx == blockCount {
        blockCount := blockCount + 1;
      }
      blocks := blocks[idx := BlockInfo(base, Pow2(order), 0, base, true)];
      next := next[base := 0];
      cnt := cnt[base := Pow2(order)];
      ranges, lent, pieces := t.ranges, t.lent, t.pieces;
    }

    /** Between calls: every held piece is an outstanding request, and slab blocks with nothing taken are given back. */
    ghost predicate Valid()
      reads this
    {
      && Ok()
      && OutOk(orders, out, pieces)
      && Busy(St())
      && (!hasSlab ==> blockCount == 0)
    }

    /** Lends a fresh buddy block to the slab and takes `count` units from it, or keeps the block if the table is full. */
    method Carve(block: nat, order: nat, count: nat, ghost s: State) returns (r: Option<nat>)
      requires Ok() && hasSlab && order == OrderFor(count) < orders && Aligned(block, order) && count >= 1
      requires Busy(s) && OutOk(orders, out, s.pieces) && HeldPiece(block, order) !in s.pieces
      requires Keeps(s.pieces, pieces, {}, {HeldPiece(block, order)})
      requires blocks == s.blocks && blockCount == s.blockCount
      requires forall i :: 0 <= i < blockCount && blocks[i].used ==> !HasRange(St(), i, count)
      modifies this`next, this`cnt, this`blocks, this`blockCount, this`ranges, this`lent, this`pieces, this`out
      ensures Valid()
      ensures r.Some? && r.value !in old(out) && out == old(out)[r.value := count]
      ensures old(Merged(orders, pieces)) ==> Merged(orders, pieces)
    {
      ghost var t := St();
      var added, idx := AddBlock(block, order);
      if !added {
        HeldOut(orders, s, t, out, block, order, count);
        out := out[block := count];
        return Some(block);
      }
      OrderForLeast(count, order);
      r := CarveFrom(idx, block, order, count, s, t);
    }

    method CarveFrom(ghost idx: nat, ghost block: nat, ghost order: nat, count: nat, ghost s: State, ghost t: State)
      returns (r: Option<nat>)
      requires Ok() && hasSlab && Sound(orders, t) && 1 <= count <= Pow2(order)
      requires idx < |t.blocks| && idx <= t.blockCount && (idx < t.blockCount ==> !t.blocks[idx].used)
      requires St() == Added(orders, t, idx, block, order)
      requires Busy(s) && OutOk(orders, out, s.pieces) && HeldPiece(block, order) !in s.pieces
      requires Keeps(s.pieces, t.pieces, {}, {HeldPiece(block, order)})
      requires t.blocks == s.blocks && t.blockCount == s.blockCount
      requires forall i :: 0 <= i < t.blockCount && t.blocks[i].used ==> !HasRange(t, i, count)
      modifies this`next, this`cnt, this`blocks, this`ranges, this`pieces, this`out
      ensures Valid()
      ensures r.Some? && r.value !in old(out) && out == old(out)[r.value := count]
      ensures Merged(orders, t.pieces) ==> Merged(orders, pieces)
    {
      ghost var u := St();
      ghost var at;
      FromTheBlock(orders, t, u, idx, block, order, count, idx);
      r, at := SlabAllocate(count);
      FromTheBlock(orders, t, u, idx, block, order, count, at);
      ghost var v := St();
      CarvedOut(orders, s, t, u, v, out, idx, block, order, count, r.value);
      out := out[r.value := count];
      assert St() == v;
    }

    /**
      * `count` contiguous units: whole blocks for powers of two, else exact ranges of the slab if it has room.
      * A request for no units at all breaks the promise: it is given an address that is nobody's.
      */
    method AllocRange(count: nat) returns (r: Option<nat>)
      requires Valid()
      modifies this`heads, this`next, this`cnt, this`blocks, this`blockCount, this`lists, this`ranges, this`lent, this`pieces, this`out
      ensures Ok() && (count >= 1 ==> Valid())
      ensures r.None? ==> unchanged(this)
      ensures r.None? ==> forall o :: OrderFor(count) <= o < orders ==> lists[o] == []
      ensures count >= 1 ==> (r.None? <==>
        && (forall o :: OrderFor(count) <= o < orders ==> old(lists)[o] == [])
        && (hasSlab && !IsPow2(count) ==> !SlabHasRange(old(St()), count)))
      ensures count >= 1 && r.Some? ==> r.value !in old(out) && out == old(out)[r.value := count]
      ensures count == 0 ==> out == old(out) && (r.Some? ==> Nobodys(pieces, out, r.value))
      ensures r.Some? && (!hasSlab || IsPow2(count)) ==> Aligned(r.value, OrderFor(count))
      ensures old(Merged(orders, pieces)) ==> Merged(orders, pieces)
    {
      var order := OrderFor(count);
      if hasSlab && !IsPow2(count) {
        if count == 0 {
          r := AllocNothing();
        } else {
          r := AllocUneven(count, order);
        }
      } else {
        r := AllocWhole(count, order);
      }
    }

    /** A whole block of the least order that has room. */
    method AllocWhole(count: nat, order: nat) returns (r: Option<nat>)
      requires Valid() && order == OrderFor(count)
      modifies this`heads, this`next, this`lists, this`pieces, this`out
      ensures Ok() && (count >= 1 ==> Valid())
      ensures r.None? ==> unchanged(this)
      ensures r.None? <==> forall o :: order <= o < orders ==> old(lists)[o] == []
      ensures count >= 1 && r.Some? ==> r.value !in old(out) && out == old(out)[r.value := count]
      ensures count == 0 ==> out == old(out) && (r.Some? ==> Nobodys(pieces, out, r.value))
      ensures r.Some? ==> Aligned(r.value, order)
      ensures old(Merged(orders, pieces)) ==> Merged(orders, pieces)
    {
      ghost var s := St();
      r := Alloc(order);
      if r.Some? {
        HeldOut(orders, s, St(), out, r.value, order, if count == 0 then 1 else count);
        out := if count == 0 then out else out[r.value := count];
      }
    }

    /** The uneven path for no units: any free range of the slab will do, and taking nothing from it changes nothing. */
    method AllocNothing() returns (r: Option<nat>)
      requires Valid() && hasSlab
      modifies this`heads, this`next, this`cnt, this`blocks, this`blockCount, this`lists, this`ranges, this`lent, this`pieces
      ensures Ok()
      ensures r.None? ==> unchanged(this) && forall o :: 0 <= o < orders ==> lists[o] == []
      ensures r.Some? ==> Nobodys(pieces, out, r.value)
      ensures old(Merged(orders, pieces)) ==> Merged(orders, pieces)
    {
      r := FirstRange();
      if r.Some? {
        return;
      }
      ghost var s := St();
      r := Alloc(0);
      if r.Some? {
        HeldOut(orders, s, St(), out, r.value, 0, 1);
        r := LendEmpty(r.value);
      }
    }

    /** Lends a block to the slab and takes nothing from it. */
    method LendEmpty(block: nat) returns (r: Option<nat>)
      requires Ok() && HeldPiece(block, 0) in pieces && Aligned(block, 0) && block !in out
      modifies this`next, this`cnt, this`blocks, this`blockCount, this`ranges, this`lent, this`pieces
      ensures Ok() && r.Some? && Nobodys(pieces, out, r.value)
      ensures old(Merged(orders, pieces)) ==> Merged(orders, pieces)
    {
      ghost var was := pieces;
      var added, idx := AddBlock(block, 0);
      if !added {
        return Some(block);
      }
      assert blocks[idx].used && ranges[idx] == [block];
      MergedSame(orders, was, pieces);
      r := FirstRange();
    }

    /** What a search of the slab for no units finds: the first free range of all. */
    method FirstRange() returns (r: Option<nat>)
      requires Ok()
      ensures r.None? ==> forall i :: 0 <= i < blockCount && blocks[i].used ==> ranges[i] == []
      ensures r.Some? ==> Nobodys(pieces, out, r.value)
    {
      for i := 0 to blockCount
        invariant forall j :: 0 <= j < i && blocks[j].used ==> ranges[j] == []
      {
        if blocks[i].used {
          assert RangesOk(orders, St(), i);
          var first := blocks[i].freeList;
          if first != 0 {
            assert first in ranges[i];
            return Some(first);
          }
        }
      }
      r := None;
    }

    method AllocUneven(count: nat, order: nat) returns (r: Option<nat>)
      requires Valid() && hasSlab && count >= 1 && order == OrderFor(count)
      modifies this`heads, this`next, this`cnt, this`blocks, this`blockCount, this`lists, this`ranges, this`lent, this`pieces, this`out
      ensures Valid()
      ensures r.None? ==> unchanged(this)
      ensures r.None? <==> (forall o :: order <= o < orders ==> old(lists)[o] == []) && !SlabHasRange(old(St()), count)
      ensures r.Some? ==> r.value !in old(out) && out == old(out)[r.value := count]
      ensures old(Merged(orders, pieces)) ==> Merged(orders, pieces)
    {
      r := TrySlab(count);
      if r.None? {
        r := AllocFresh(count, order);
      }
    }

    method TrySlab(count: nat) returns (r: Option<nat>)
      requires Valid() && count >= 1
      modifies this`next, this`cnt, this`blocks, this`ranges, this`pieces, this`out
      ensures Valid()
      ensures r.None? ==> unchanged(this)
      ensures r.None? <==> !SlabHasRange(old(St()), count)
      ensures r.Some? ==> r.value !in old(out) && out == old(out)[r.value := count]
      ensures old(Merged(orders, pieces)) ==> Merged(orders, pieces)
    {
      ghost var s := St();
      ghost var at;
      r, at := SlabAllocate(count);
      if r.Some? {
        ghost var t := St();
        TookOut(orders, s, t, out, at, r.value, count);
        out := out[r.value := count];
        assert St() == t;
      }
    }

    method AllocFresh(count: nat, order: nat) returns (r: Option<nat>)
      requires Valid() && hasSlab && count >= 1 && order == OrderFor(count)
      requires forall i :: 0 <= i < blockCount && blocks[i].used ==> !HasRange(St(), i, count)
      modifies this`heads, this`next, this`cnt, this`blocks, this`blockCount, this`lists, this`ranges, this`lent, this`pieces, this`out
      ensures Valid()
      ensures r.None? ==> unchanged(this)
      ensures r.None? <==> forall o :: order <= o < orders ==> old(lists)[o] == []
      ensures r.Some? ==> r.value !in old(out) && out == old(out)[r.value := count]
      ensures old(Merged(orders, pieces)) ==> Merged(orders, pieces)
    {
      ghost var s := St();
      var block := Alloc(order);
      if block.None? {
        return None;
      }
      assert forall i :: 0 <= i < blockCount && blocks[i].used && HasRange(St(), i, count) ==> HasRange(s, i, count);
      r := Carve(block.value, order, count, s);
    }

    /** Pushes a range on the free list of slab block `i`. */
    method Give(i: nat, addr: nat, count: nat)
      requires i < |blocks| == |ranges| && count <= blocks[i].taken
      modifies this`next, this`cnt, this`blocks, this`ranges, this`pieces
      ensures St() == Gave(orders, old(St()), i, addr, count)
    {
      ghost var t := Gave(orders, St(), i, addr, count);
      var b := blocks[i];
      next := next[addr := b.freeList];
      cnt := cnt[addr := count];
      blocks := blocks[i := b.(freeList := addr, taken := b.taken - count)];
      ranges, pieces := t.ranges, t.pieces;
    }

    /** Gives a range back to slab block `i`, and the whole block back to the caller once nothing is taken from it. */
    method SlabFree(i: nat, addr: nat, count: nat) returns (r: Option<(nat, nat)>)
      requires Ok() && i < blockCount && blocks[i].used && count >= 1 && Piece(addr, count, SlabHeld(i)) in pieces
      requires Busy(St())
      modifies this`next, this`cnt, this`blocks, this`ranges, this`pieces
      ensures Ok() && Busy(St())
      ensures r.None? ==> Keeps2(old(pieces), pieces, Piece(addr, count, SlabHeld(i)), {})
      ensures r.Some? ==> var (base, total) := r.value;
        var o := OrderFor(total);
        && o < orders && Aligned(base, o)
        && Keeps2(old(pieces), pieces, Piece(addr, count, SlabHeld(i)), {HeldPiece(base, o)})
        && HeldPiece(base, o) !in old(pieces)
      ensures old(Merged(orders, pieces)) ==> Merged(orders, pieces)
    {
      ghost var s := St();
      GaveSound(orders, s, i, addr, count);
      ghost var t := Gave(orders, s, i, addr, count);
      GaveFacts(orders, s, t, i, addr, count);
      Give(i, addr, count);
      assert St() == t;
      if blocks[i].taken != 0 {
        return None;
      }
      ghost var u := Released(orders, t, i);
      ReleasedSound(orders, t, i);
      ReleasedFacts(orders, s, t, u, i, addr, count);
      var b := blocks[i];
      Release(i);
      assert St() == u;
      return Some((b.base, b.total));
    }

    /** Takes slab block `i` out of use. */
    method Release(i: nat)
      requires i < |blocks| == |lent|
      modifies this`blocks, this`pieces
      ensures St() == Released(orders, old(St()), i)
    {
      ghost var u := Released(orders, St(), i);
      blocks := blocks[i := blocks[i].(used := false)];
      pieces := u.pieces;
    }

    /** Frees an outstanding request: through the slab if it owns the address, else as a buddy block. */
    method FreeRange(addr: nat, count: nat)
      requires Valid() && (count != 0 ==> addr in out && out[addr] == count)
      modifies this`heads, this`next, this`cnt, this`blocks, this`lists, this`ranges, this`pieces, this`out
      ensures Valid()
      ensures count == 0 ==> unchanged(this)
      ensures count != 0 ==> out == old(out) - {addr}
      ensures old(Merged(orders, pieces)) ==> Merged(orders, pieces)
    {
      if count == 0 {
        return;
      }
      var owner := None;
      if hasSlab {
        owner := FindBlock(addr);
      }
      if owner.Some? {
        FreeSlabRange(owner.value, addr, count);
      } else {
        FreeBlock(addr, count);
      }
    }

    /** Gives a range back to the slab, and a fully returned slab block back to the buddy lists. */
    method ReturnRange(i: nat, addr: nat, count: nat)
      requires Ok() && Busy(St()) && i < blockCount && blocks[i].used && count >= 1 && Piece(addr, count, SlabHeld(i)) in pieces
      modifies this`heads, this`next, this`cnt, this`blocks, this`lists, this`ranges, this`pieces
      ensures Ok() && Busy(St())
      ensures Keeps2(old(pieces), pieces, Piece(addr, count, SlabHeld(i)), {})
      ensures old(Merged(orders, pieces)) ==> Merged(orders, pieces)
    {
      var released := SlabFree(i, addr, count);
      if released.Some? {
        var (base, total) := released.value;
        var o := OrderFor(total);
        FreeWith(base, o, (b: nat, k: nat) => true);
      }
    }

    method FreeSlabRange(i: nat, addr: nat, count: nat)
      requires Valid() && addr in out && out[addr] == count
      requires i < blockCount && blocks[i].used && InRegion(blocks[i], addr)
      modifies this`heads, this`next, this`cnt, this`blocks, this`lists, this`ranges, this`pieces, this`out
      ensures Valid() && out == old(out) - {addr}
      ensures old(Merged(orders, pieces)) ==> Merged(orders, pieces)
    {
      ghost var held, was := Piece(addr, count, SlabHeld(i)), pieces;
      InSlabHolder(orders, St(), out, addr, i);
      ReturnRange(i, addr, count);
      RevokeOut(orders, was, pieces, out, held);
      ghost var t := St();
      out := out - {addr};
      assert St() == t;
    }

    method FreeBlock(addr: nat, count: nat)
      requires Valid() && addr in out && out[addr] == count
      requires forall i :: 0 <= i < blockCount && blocks[i].used ==> !InRegion(blocks[i], addr)
      modifies this`heads, this`next, this`lists, this`pieces, this`out
      ensures Valid() && out == old(out) - {addr}
      ensures old(Merged(orders, pieces)) ==> Merged(orders, pieces)
    {
      var o := OrderFor(count);
      ghost var held, was := HeldPiece(addr, o), pieces;
      BlockHolder(orders, St(), out, addr);
      FreeWith(addr, o, (b: nat, k: nat) => true);
      RevokeOut(orders, was, pieces, out, held);
      ghost var t := St();
      out := out - {addr};
      assert St() == t;
    }

    /** A caller writes to memory it holds. */
    method UserWrite(addr: nat, first: nat, second: nat, ghost p: Piece)
      requires Valid() && p in pieces && IsHeld(p) && At(p, addr)
      modifies this`next, this`cnt
      ensures Valid()
    {
      ghost var s := St();
      ghost var t := s.(next := next[addr := first], cnt := cnt[addr := second]);
      WrittenSound(orders, s, addr, first, second, p);
      next := next[addr := first];
      cnt := cnt[addr := second];
      assert St() == t;
    }

    /** New memory is held by nobody yet. */
    method Receive(ghost addr: nat, ghost order: nat)
      modifies this`pieces, this`memory
      ensures St() == Received(old(St()), addr, order)
    {
      ghost var t := Received(St(), addr, order);
      pieces, memory := t.pieces, t.memory;
    }

    /** New memory, in one aligned block, becomes a free block. */
    method Adopt(addr: nat, order: nat)
      requires Valid() && order < orders && addr != 0 && Aligned(addr, order)
      requires NoneIn(memory, addr, Pow2(order))
      modifies this`heads, this`next, this`lists, this`pieces, this`memory
      ensures Valid() && out == old(out)
      ensures memory == old(memory) + Span(addr, Pow2(order))
      ensures pieces == old(pieces) + {FreePiece(addr, order)}
    {
      ghost var s := St();
      ghost var t := Received(s, addr, order);
      ghost var u := Pushed(orders, t, addr, order);
      AdoptReady(orders, s, t, u, addr, order, out);
      Receive(addr, order);
      Link(addr, order);
      assert St() == u;
    }

    constructor (orders: nat, slabBlocks: nat, hasSlab: bool)
      requires orders > 0
      ensures Valid() && this.orders == orders && this.hasSlab == hasSlab && |blocks| == slabBlocks
      ensures memory == {} && pieces == {} && out == map[]
    {
      this.orders, this.hasSlab := orders, hasSlab;
      heads := seq(orders, i => 0);
      next, cnt := map[], map[];
      blocks := seq(slabBlocks, i => BlockInfo(0, 0, 0, 0, false));
      blockCount := 0;
      lists := seq(orders, i => []);
      ranges := seq(slabBlocks, i => []);
      lent := seq(slabBlocks, i => 0);
      pieces, memory, out := {}, {}, map[];
    }
  }

  /** The addresses from `a` to `a + len`. */
  ghost function Span(a: nat, len: nat): set<nat>
  {
    if len == 0 then {} else Span(a, len - 1) + {a + len - 1}
  }

  lemma {:induction false} InSpan(a: nat, len: nat, x: nat)
    ensures x in Span(a, len) <==> a <= x < a + len
  {
    if len > 0 {
      InSpan(a, len - 1, x);
    }
  }

  lemma {:induction false} SpanAdd(a: nat, k: nat, l: nat)
    ensures Span(a, k + l) == Span(a, k) + Span(a + k, l)
  {
    if l > 0 {
      SpanAdd(a, k, l - 1);
    }
  }

  lemma WrittenSound(n: nat, s: State, a: nat, u: nat, v: nat, p: Piece)
    requires Sound(n, s) && p in s.pieces && IsHeld(p) && At(p, a)
    ensures Sound(n, s.(next := s.next[a := u], cnt := s.cnt[a := v]))
  {
    var t := s.(next := s.next[a := u], cnt := s.cnt[a := v]);
    forall q | q in s.pieces && !IsHeld(q) ensures q.start != a
    {
      if q.start == a { OnlyOneAt(s.pieces, p, q, a); }
    }
    ListsFrame(n, s, t);
    forall i | 0 <= i < s.blockCount && s.blocks[i].used ensures RangesOk(n, t, i) && RegionOk(n, t, i)
    {
      SlabFrameAt(n, s, t, i);
    }
  }

  lemma {:induction false} DonatedSound(n: nat, s: State, t: State, a: nat, o: nat)
    requires Sound(n, s) && a != 0 && o < n
    requires NoneIn(s.memory, a, Pow2(o))
    requires t == Received(s, a, o)
    ensures Sound(n, t) && HeldPiece(a, o) !in s.pieces
  {
    var held := HeldPiece(a, o);
    forall p | p in s.pieces ensures !Overlap(p, held) && p != held
    {
      var x := if p.start < a then a else p.start;
      assert At(p, x) ==> Covers(s.pieces, x);
    }
    forall x ensures x in t.memory <==> Covers(t.pieces, x)
    {
      InSpan(a, Pow2(o), x);
      if Covers(t.pieces, x) {
        var p :| p in t.pieces && At(p, x);
        if p != held { assert Covers(s.pieces, x); }
      }
      if Covers(s.pieces, x) {
        var p :| p in s.pieces && At(p, x);
        assert p in t.pieces;
      }
      assert held in t.pieces;
    }
    InSpan(a, Pow2(o), 0);
    SlabFrame(n, s, t);
    ListsFrame(n, s, t);
  }

  lemma {:induction false} AdoptReady(n: nat, s: State, t: State, u: State, a: nat, o: nat, out: map<nat, nat>)
    requires Sound(n, s) && Dyadical(n, s) && Busy(s) && OutOk(n, out, s.pieces) && a != 0 && o < n && Aligned(a, o)
    requires NoneIn(s.memory, a, Pow2(o))
    requires t == Received(s, a, o)
    requires u == Pushed(n, t, a, o)
    ensures Sound(n, u) && Dyadical(n, u) && Busy(u) && OutOk(n, out, u.pieces)
    ensures u.pieces == s.pieces + {FreePiece(a, o)} && u.memory == t.memory
  {
    DonatedSound(n, s, t, a, o);
    PushedSound(n, t, a, o);
    AdoptedOut(n, s.pieces, u.pieces, out);
  }

  lemma AdoptedOut(n: nat, was: set<Piece>, now: set<Piece>, out: map<nat, nat>)
    requires OutOk(n, out, was) && forall p :: IsHeld(p) ==> (p in was <==> p in now)
    ensures OutOk(n, out, now)
  {
    forall a | a in out ensures HasHolder(now, a)
    {
      assert HasHolder(was, a);
      var p :| p in was && p.start == a && IsHeld(p);
      assert p in now;
    }
  }

  /** Of the pieces that are not free, `gone` left and `come` arrived. */
  ghost predicate Keeps2(was: set<Piece>, now: set<Piece>, gone: Piece, come: set<Piece>)
  {
    forall p: Piece :: IsHeld(p) ==> (p in now <==> (p in was && p != gone) || p in come)
  }

  lemma GaveFacts(n: nat, s: State, t: State, i: nat, a: nat, count: nat)
    requires Sound(n, s) && Dyadical(n, s) && Busy(s)
    requires i < s.blockCount && count <= s.blocks[i].taken && t == Gave(n, s, i, a, count)
    ensures Dyadical(n, t) && Keeps2(s.pieces, t.pieces, Piece(a, count, SlabHeld(i)), {})
    ensures t.blocks[i].taken != 0 ==> Busy(t)
    ensures Merged(n, s.pieces) ==> Merged(n, t.pieces)
  {
    MergedSame(n, s.pieces, t.pieces);
  }

  lemma ReleasedFacts(n: nat, s: State, t: State, u: State, i: nat, a: nat, count: nat)
    requires Sound(n, t) && Dyadical(n, t) && i < t.blockCount && t.blocks[i].used && t.blocks[i].taken == 0
    requires Sound(n, s) && Busy(s) && i < s.blockCount && count <= s.blocks[i].taken
    requires t == Gave(n, s, i, a, count) && Piece(a, count, SlabHeld(i)) in s.pieces
    requires u == Released(n, t, i) && forall p :: p in t.pieces && InSlab(p, i) ==> p.tag == SlabFree(i)
    ensures var o := OrderFor(t.blocks[i].total);
      && o < n && Aligned(t.blocks[i].base, o) && Dyadical(n, u) && Busy(u)
      && Keeps2(s.pieces, u.pieces, Piece(a, count, SlabHeld(i)), {HeldPiece(t.blocks[i].base, o)})
      && HeldPiece(t.blocks[i].base, o) !in s.pieces
    ensures Merged(n, t.pieces) ==> Merged(n, u.pieces)
  {
    OrderOfPow2(t.lent[i]);
    var whole, held := HeldPiece(t.blocks[i].base, t.lent[i]), Piece(a, count, SlabHeld(i));
    HeldInRegion(n, s, held);
    if whole in s.pieces { OnlyOneAt(s.pieces, whole, held, a); }
    MergedSame(n, t.pieces, u.pieces);
  }

  /** An outstanding address inside a slab block is held from that slab block. */
  lemma InSlabHolder(n: nat, s: State, out: map<nat, nat>, a: nat, i: nat)
    requires Sound(n, s) && OutOk(n, out, s.pieces) && a in out
    requires i < s.blockCount && s.blocks[i].used && InRegion(s.blocks[i], a)
    ensures Piece(a, out[a], SlabHeld(i)) in s.pieces && out[a] >= 1
  {
    assert HasHolder(s.pieces, a) && RegionOk(n, s, i) && SlabCovers(s.pieces, i, a);
    var p :| p in s.pieces && p.start == a && IsHeld(p);
    var q :| q in s.pieces && InSlab(q, i) && At(q, a);
    assert Serves(n, out, p);
    assert At(p, a);
    OnlyOneAt(s.pieces, p, q, a);
  }

  /** An outstanding address outside every slab block is a buddy block. */
  lemma BlockHolder(n: nat, s: State, out: map<nat, nat>, a: nat)
    requires Sound(n, s) && OutOk(n, out, s.pieces) && a in out
    requires forall i :: 0 <= i < s.blockCount && s.blocks[i].used ==> !InRegion(s.blocks[i], a)
    ensures OrderFor(out[a]) < n && HeldPiece(a, OrderFor(out[a])) in s.pieces && Aligned(a, OrderFor(out[a]))
  {
    assert HasHolder(s.pieces, a);
    var p :| p in s.pieces && p.start == a && IsHeld(p);
    assert Serves(n, out, p);
    if p.tag.SlabHeld? {
      HeldInRegion(n, s, p);
    }
  }

  lemma HeldInRegion(n: nat, s: State, p: Piece)
    requires Sound(n, s) && p in s.pieces && p.tag.SlabHeld?
    ensures p.tag.idx < s.blockCount && s.blocks[p.tag.idx].used && InRegion(s.blocks[p.tag.idx], p.start)
  {
    assert InSlab(p, p.tag.idx) && RegionOk(n, s, p.tag.idx);
  }

  lemma RevokeOut(n: nat, was: set<Piece>, now: set<Piece>, out: map<nat, nat>, gone: Piece)
    requires OutOk(n, out, was) && Disjoint(was) && gone in was && IsHeld(gone)
    requires forall p: Piece :: IsHeld(p) ==> (p in now <==> p in was && p != gone)
    ensures OutOk(n, out - {gone.start}, now)
  {
    var out' := out - {gone.start};
    forall p | p in now && IsHeld(p) ensures Serves(n, out', p)
    {
      assert Serves(n, out, p);
      if p.start == gone.start { OnlyOneAt(was, p, gone, p.start); }
    }
    forall a | a in out' ensures HasHolder(now, a)
    {
      assert HasHolder(was, a);
      var p :| p in was && p.start == a && IsHeld(p);
      assert p in now;
    }
  }

  /** Every slab block in use has something taken from it. */
  ghost predicate Busy(s: State)
  {
    forall i :: 0 <= i < s.blockCount && i < |s.blocks| && s.blocks[i].used ==> s.blocks[i].taken > 0
  }

  /** A piece in a caller's hand is the block or the exact range of one outstanding request. */
  ghost predicate Serves(n: nat, out: map<nat, nat>, p: Piece)
  {
    && p.start in out && out[p.start] >= 1
    && (p.tag == Held ==>
          OrderFor(out[p.start]) < n && p.len == Pow2(OrderFor(out[p.start])) && Aligned(p.start, OrderFor(out[p.start])))
    && (p.tag.SlabHeld? ==> p.len == out[p.start])
  }

  ghost predicate IsHeld(p: Piece)
  {
    p.tag == Held || p.tag.SlabHeld?
  }

  ghost predicate HasHolder(pieces: set<Piece>, a: nat)
  {
    exists p :: p in pieces && p.start == a && IsHeld(p)
  }

  ghost function Received(s: State, a: nat, o: nat): State
  {
    s.(pieces := s.pieces + {HeldPiece(a, o)}, memory := s.memory + Span(a, Pow2(o)))
  }

  /** No unit of `[a, a + len)` is in memory. */
  ghost predicate NoneIn(memory: set<nat>, a: nat, len: nat)
  {
    forall x :: a <= x < a + len ==> x !in memory
  }

  /** Some block lent to the slab has a free range of at least `count` units. */
  ghost predicate SlabHasRange(s: State, count: nat)
    requires s.blockCount <= |s.blocks| == |s.ranges|
  {
    exists i :: 0 <= i < s.blockCount && s.blocks[i].used && HasRange(s, i, count)
  }

  /** Nobody may use what starts at `a`: it is a free range of the slab, or a block that no request stands for. */
  ghost predicate Nobodys(pieces: set<Piece>, out: map<nat, nat>, a: nat)
  {
    exists p :: p in pieces && p.start == a && (p.tag.SlabFree? || (IsHeld(p) && a !in out))
  }

  /** Outstanding requests and held pieces correspond one to one. */
  ghost predicate OutOk(n: nat, out: map<nat, nat>, pieces: set<Piece>)
  {
    && (forall p :: p in pieces && IsHeld(p) ==> Serves(n, out, p))
    && (forall a :: a in out ==> HasHolder(pieces, a))
  }

  /** A new held piece, at an address nobody holds, is a new request. */
  lemma GrantOut(n: nat, s: State, t: State, out: map<nat, nat>, p: Piece, count: nat)
    requires Tiles(t.pieces, t.memory) && OutOk(n, out, s.pieces)
    requires IsHeld(p) && p !in s.pieces
    requires forall q :: IsHeld(q) ==> (q in t.pieces <==> q in s.pieces || q == p)
    requires Serves(n, out[p.start := count], p)
    ensures p.start !in out && OutOk(n, out[p.start := count], t.pieces)
  {
    var out' := out[p.start := count];
    forall q | q in t.pieces && IsHeld(q) && q != p ensures q.start != p.start
    {
      if q.start == p.start { SameStart(t, q, p); }
    }
    assert !HasHolder(s.pieces, p.start);
    forall q | q in t.pieces && IsHeld(q) ensures Serves(n, out', q)
    {
      if q != p { assert Serves(n, out, q); }
    }
    forall a | a in out' ensures HasHolder(t.pieces, a)
    {
      if a == p.start {
        assert p in t.pieces;
      } else {
        var q :| q in s.pieces && q.start == a && IsHeld(q);
        assert q in t.pieces;
      }
    }
  }

  lemma TookOut(n: nat, s: State, t: State, out: map<nat, nat>, i: nat, a: nat, count: nat)
    requires Sound(n, s) && Sound(n, t) && OutOk(n, out, s.pieces) && Busy(s) && count >= 1
    requires TookEffect(s, t, i, a, count)
    ensures a !in out && OutOk(n, out[a := count], t.pieces) && Busy(t)
    ensures Merged(n, s.pieces) ==> Merged(n, t.pieces)
  {
    GrantOut(n, s, t, out, Piece(a, count, SlabHeld(i)), count);
    MergedSame(n, s.pieces, t.pieces);
  }

  lemma HeldOut(n: nat, s: State, t: State, out: map<nat, nat>, a: nat, o: nat, count: nat)
    requires Sound(n, t) && OutOk(n, out, s.pieces) && Busy(s) && count >= 1 && o == OrderFor(count) < n
    requires Aligned(a, o) && HeldPiece(a, o) !in s.pieces && Keeps(s.pieces, t.pieces, {}, {HeldPiece(a, o)})
    requires t.blocks == s.blocks && t.blockCount == s.blockCount
    ensures a !in out && OutOk(n, out[a := count], t.pieces) && Busy(t)
  {
    GrantOut(n, s, t, out, HeldPiece(a, o), count);
  }

  /** After a block is lent, the allocation comes from it, since no other slab block has room. */
  lemma {:induction false} FromTheBlock(n: nat, t: State, u: State, idx: nat, block: nat, order: nat, count: nat, at: nat)
    requires Sound(n, t) && HeldPiece(block, order) in t.pieces && count <= Pow2(order)
    requires forall i :: 0 <= i < t.blockCount && t.blocks[i].used ==> !HasRange(t, i, count)
    requires idx < |t.blocks| && idx <= t.blockCount && (idx < t.blockCount ==> !t.blocks[idx].used)
    requires u == Added(n, t, idx, block, order)
    ensures HasRange(u, idx, count) && idx < u.blockCount && u.blocks[idx].used
    ensures at < u.blockCount && u.blocks[at].used && HasRange(u, at, count) ==> at == idx
  {
    assert block in u.ranges[idx] && u.cnt[block] == Pow2(order);
    if at < u.blockCount && u.blocks[at].used && HasRange(u, at, count) && at != idx {
      var a :| a in u.ranges[at] && a in u.cnt && u.cnt[a] >= count;
      NotTheBlock(n, t, at, a, block, order);
    }
  }

  lemma CarvedOut(n: nat, s: State, t: State, u: State, v: State, out: map<nat, nat>, idx: nat, block: nat, order: nat,
                  count: nat, a: nat)
    requires Tiles(v.pieces, v.memory) && Busy(s) && OutOk(n, out, s.pieces) && count >= 1
    requires HeldPiece(block, order) !in s.pieces && Keeps(s.pieces, t.pieces, {}, {HeldPiece(block, order)})
    requires t.blocks == s.blocks && t.blockCount == s.blockCount <= |s.blocks| == |t.ranges| == |t.lent|
    requires idx < |t.blocks| && idx <= t.blockCount
    requires u == Added(n, t, idx, block, order) && TookEffect(u, v, idx, a, count)
    ensures a !in out && OutOk(n, out[a := count], v.pieces) && Busy(v)
    ensures Merged(n, t.pieces) ==> Merged(n, v.pieces)
  {
    var held := Piece(a, count, SlabHeld(idx));
    assert held in s.pieces ==> held in u.pieces;
    GrantOut(n, s, v, out, held, count);
    MergedSame(n, t.pieces, u.pieces);
    MergedSame(n, u.pieces, v.pieces);
  }

  lemma NotTheBlock(n: nat, t: State, i: nat, a: nat, block: nat, order: nat)
    requires Sound(n, t) && i < t.blockCount && t.blocks[i].used && a in t.ranges[i] && HeldPiece(block, order) in t.pieces
    ensures a != block && a in t.cnt
  {
    NotARange(n, t, i, HeldPiece(block, order));
    assert RangesOk(n, t, i);
  }

  /** Slab block `i` has a free range of at least `count` units. */
  ghost predicate HasRange(s: State, i: nat, count: nat)
  {
    i < |s.ranges| && exists a :: a in s.ranges[i] && a in s.cnt && s.cnt[a] >= count
  }

  /** A sound state where the caller's piece `mine` of `was` has grown into the block of order `o` at `a`. */
  ghost predicate InHand(n: nat, s: State, a: nat, o: nat, was: set<Piece>, mine: Piece, x: nat)
  {
    && Sound(n, s) && Dyadical(n, s)
    && Aligned(a, o) && HeldPiece(a, o) in s.pieces && a <= x < a + Pow2(o)
    && Disjoint(was) && mine in was && At(mine, x) && Keeps(was, s.pieces, {mine}, {HeldPiece(a, o)})
  }

  /** A removed buddy is glued to the block in hand. */
  lemma {:induction false} MergeReady(n: nat, s: State, t: State, a: nat, o: nat, up: nat, lo: nat, hi: nat,
                   was: set<Piece>, mine: Piece, x: nat)
    requires InHand(n, s, a, o, was, mine, x) && Sound(n, t) && Dyadical(n, t) && o < n && up == o + 1
    requires var b := Flip(a, o);
      && (if a < b then lo == a && hi == b else lo == b && hi == a) && FreePiece(b, o) in s.pieces
      && t.pieces == s.pieces - {FreePiece(b, o)} + {HeldPiece(b, o)}
    ensures var u := Glued(t, lo, hi, o);
      && InHand(n, u, lo, up, was, mine, x)
      && (Merged(n, s.pieces) ==> Merged(n, u.pieces))
  {
    var b, u := Flip(a, o), Glued(t, lo, hi, o);
    Buddies(a, o);
    assert hi == lo + Pow2(o) && Aligned(lo, up);
    GluedSound(n, t, lo, hi, o);
    MergeMerged(n, s, t, u, b, o);
    MergeKeeps(n, s, t, a, b, o, lo, hi, was, mine, x);
  }

  lemma MergeMerged(n: nat, s: State, t: State, u: State, b: nat, o: nat)
    requires t.pieces == s.pieces - {FreePiece(b, o)} + {HeldPiece(b, o)}
    requires forall p: Piece :: p.tag.Free? ==> (p in u.pieces <==> p in t.pieces)
    ensures Merged(n, s.pieces) ==> Merged(n, u.pieces)
  {
    RemovedMerged(n, s.pieces, FreePiece(b, o), HeldPiece(b, o));
    MergedSame(n, t.pieces, u.pieces);
  }

  lemma MergeKeeps(n: nat, s: State, t: State, a: nat, b: nat, o: nat, lo: nat, hi: nat,
                   was: set<Piece>, mine: Piece, x: nat)
    requires InHand(n, s, a, o, was, mine, x) && FreePiece(b, o) in s.pieces
    requires (lo == a && hi == b) || (lo == b && hi == a)
    requires t.pieces == s.pieces - {FreePiece(b, o)} + {HeldPiece(b, o)}
    ensures Keeps(was, Glued(t, lo, hi, o).pieces, {mine}, {HeldPiece(lo, o + 1)})
  {
    if HeldPiece(a, o) in was {
      OnlyOneAt(was, HeldPiece(a, o), mine, x);
    }
    if HeldPiece(b, o) in was && HeldPiece(b, o) != mine {
      SameStart(s, HeldPiece(b, o), FreePiece(b, o));
    }
  }

  /** What pushing the merged block does, given that no further merge was possible. */
  lemma {:induction false} FreedLast(n: nat, s: State, a: nat, o: nat, was: set<Piece>, mine: Piece, x: nat)
    requires InHand(n, s, a, o, was, mine, x) && o < n
    ensures Keeps(was, Pushed(n, s, a, o).pieces, {mine}, {})
    ensures Merged(n, s.pieces) && (o + 1 == n || FreePiece(Flip(a, o), o) !in s.pieces) ==>
      Merged(n, Pushed(n, s, a, o).pieces)
  {
    if HeldPiece(a, o) in was {
      OnlyOneAt(was, HeldPiece(a, o), mine, x);
    }
    if Merged(n, s.pieces) && (o + 1 == n || FreePiece(Flip(a, o), o) !in s.pieces) {
      PushedMerged(n, s, a, o);
    }
  }

  lemma {:induction false} SplitReady(n: nat, s: State, a: nat, k: nat, o: nat, was: set<Piece>, first: Piece)
    requires Sound(n, s) && Dyadical(n, s) && k == o + 1 < n && Aligned(a, k) && HeldPiece(a, k) in s.pieces
    requires Keeps(was, s.pieces, {first}, {HeldPiece(a, k)}) && first in was && first.start == a && Disjoint(was)
    ensures var t := Cut(n, s, a, o);
      && Sound(n, t) && Dyadical(n, t) && Aligned(a, o) && Aligned(a + Pow2(o), o)
      && HeldPiece(a, o) in t.pieces && HeldPiece(a + Pow2(o), o) in t.pieces
      && Keeps(was, Pushed(n, t, a + Pow2(o), o).pieces, {first}, {HeldPiece(a, o)})
      && (Merged(n, s.pieces) ==> Merged(n, Pushed(n, t, a + Pow2(o), o).pieces))
  {
    CutSound(n, s, a, o);
    SplitFacts(n, s, a, o);
    SplitKeeps(n, s, a, o, was, first);
  }

  lemma SplitKeeps(n: nat, s: State, a: nat, o: nat, was: set<Piece>, first: Piece)
    requires Sound(n, s) && HeldPiece(a, o + 1) in s.pieces && o < n
    requires Keeps(was, s.pieces, {first}, {HeldPiece(a, o + 1)}) && first in was && first.start == a && Disjoint(was)
    ensures Keeps(was, Pushed(n, Cut(n, s, a, o), a + Pow2(o), o).pieces, {first}, {HeldPiece(a, o)})
  {
    var whole, hi := HeldPiece(a, o + 1), HeldPiece(a + Pow2(o), o);
    forall p | p in was && p.start == a ensures p == first
    {
      OnlyOneAt(was, p, first, a);
    }
    if hi in was && hi != first {
      assert hi in s.pieces;
      OnlyOneAt(s.pieces, hi, whole, hi.start);
    }
  }

  /** Taking a block out of the free lists leaves no new buddies. */
  lemma RemovedMerged(n: nat, pieces: set<Piece>, free: Piece, held: Piece)
    requires free.tag.Free? && held.tag == Held
    ensures Merged(n, pieces) ==> Merged(n, pieces - {free} + {held})
  {
    var t := pieces - {free} + {held};
    forall p | Merged(n, pieces) && p in t && p.tag.Free? && p.tag.order + 1 < n ensures Alone(t, p)
    {
      assert Alone(pieces, p);
    }
  }

  /** After a split the upper half can be freed: it is aligned and its buddy is in the caller's hand. */
  lemma SplitFacts(n: nat, s: State, a: nat, o: nat)
    requires Sound(n, s) && Dyadical(n, s) && HeldPiece(a, o + 1) in s.pieces && Aligned(a, o + 1) && o < n
    ensures Aligned(a, o) && Aligned(a + Pow2(o), o)
    ensures Merged(n, s.pieces) ==> Merged(n, Pushed(n, Cut(n, s, a, o), a + Pow2(o), o).pieces)
  {
    Halves(a, o);
    CutSound(n, s, a, o);
    var t := Cut(n, s, a, o);
    if Merged(n, s.pieces) {
      forall p | p in t.pieces && p.tag.Free? && p.tag.order + 1 < n ensures Alone(t.pieces, p)
      {
        assert Alone(s.pieces, p);
      }
      if FreePiece(a, o) in t.pieces {
        SameStart(t, FreePiece(a, o), HeldPiece(a, o));
      }
      PushedMerged(n, t, a + Pow2(o), o);
    }
  }
}
