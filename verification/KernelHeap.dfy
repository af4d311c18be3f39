/** The kernel heap on the buddy allocator (`memory/heap.rs`), whose unit is 16 bytes. */
module KernelHeap {
  import opened Basics
  import opened Dyadic
  import opened BuddyState
  import opened Buddy
  import opened BuddyRuns

  const UNIT: nat := 16

  function Max(a: nat, b: nat): nat { if a < b then b else a }

  /** The number of units for a layout of `size` bytes aligned to `align`. */
  function LayoutToSize(size: nat, align: nat): nat
  {
    var alignUnits := DivCeil(align, UNIT);
    var units := DivCeil(Max(size, UNIT), UNIT);
    if alignUnits == 1 then units else Pow2(OrderFor(Max(units, alignUnits)))
  }

  /** Scaling by a unit of 16 bytes adds four to the alignment. */
  lemma {:induction false} ScaledAligned(a: nat, j: nat, k: nat)
    requires Aligned(a, j) && k <= j + 4
    ensures (UNIT * a) % Pow2(k) == 0
  {
    var q: nat :| Shl(q, j) == a;
    assert Shl(q, j + 1) == 2 * a && Shl(q, j + 2) == 4 * a && Shl(q, j + 3) == 8 * a && Shl(q, j + 4) == 16 * a;
    AlignedDown(UNIT * a, k, j + 4);
    AlignedMod(UNIT * a, k);
  }

  lemma AlignUnits(k: nat)
    ensures k <= 4 ==> DivCeil(Pow2(k), UNIT) == 1
    ensures k > 4 ==> DivCeil(Pow2(k), UNIT) == Pow2(k - 4) >= 2
  {
    if k <= 4 {
      Pow2Mono(k, 4);
      assert Pow2(4) == 16;
    } else {
      Pow2Add(k - 4, 4);
      assert Pow2(4) == 16;
      Pow2Mono(1, k - 4);
    }
  }

  lemma SizeUnits(size: nat)
    ensures var units := DivCeil(Max(size, UNIT), UNIT); units >= 1 && UNIT * units >= size
  {
  }

  /** A layout's units hold its size, and are a whole block at least as large as an alignment above the unit. */
  lemma {:induction false} LayoutFits(size: nat, k: nat)
    ensures var n := LayoutToSize(size, Pow2(k)); n >= 1 && UNIT * n >= size
    ensures k > 4 ==> var n := LayoutToSize(size, Pow2(k)); IsPow2(n) && k <= OrderFor(n) + 4
  {
    AlignUnits(k);
    SizeUnits(size);
    if k > 4 {
      var m := Max(DivCeil(Max(size, UNIT), UNIT), Pow2(k - 4));
      var o := OrderFor(m);
      OrderForLeast(m, 0);
      OrderOfPow2(o);
      assert LayoutToSize(size, Pow2(k)) == Pow2(o);
      if o < k - 4 { Pow2Mono(o, k - 4); }
    }
  }

  /** Every block handed out is aligned to its layout, and its bytes are the caller's alone. */
  method HeapAlloc(a: BuddyAllocator, size: nat, k: nat) returns (ptr: nat, ghost unit: nat)
    requires a.Valid()
    modifies a
    ensures a.Valid() && ptr == UNIT * unit
    ensures ptr == 0 ==> a.out == old(a.out) && forall o :: OrderFor(LayoutToSize(size, Pow2(k))) <= o < a.orders ==> a.lists[o] == []
    ensures ptr != 0 ==>
      && ptr % Pow2(k) == 0
      && unit !in old(a.out) && a.out == old(a.out)[unit := LayoutToSize(size, Pow2(k))]
      && UNIT * a.out[unit] >= size
    ensures old(Merged(a.orders, a.pieces)) ==> Merged(a.orders, a.pieces)
  {
    LayoutFits(size, k);
    var count := LayoutToSize(size, Pow2(k));
    var r := a.AllocRange(count);
    if r.None? {
      return 0, 0;
    }
    unit := r.value;
    PointerFacts(a.orders, a.St(), a.out, r.value, count, k);
    ptr := UNIT * r.value;
  }

  lemma {:induction false} PointerFacts(n: nat, s: State, out: map<nat, nat>, a: nat, count: nat, k: nat)
    requires Sound(n, s) && OutOk(n, out, s.pieces) && a in out
    requires k > 4 ==> Aligned(a, OrderFor(count)) && k <= OrderFor(count) + 4
    ensures a != 0 && (UNIT * a) % Pow2(k) == 0
  {
    var p := Holder(n, s, out, a);
    NotZero(n, s, p);
    if k > 4 {
      ScaledAligned(a, OrderFor(count), k);
    } else {
      assert Shl(a, 0) == a;
      ScaledAligned(a, 0, k);
    }
  }

  method HeapDealloc(a: BuddyAllocator, ptr: nat, size: nat, k: nat)
    requires a.Valid() && ptr / UNIT in a.out && a.out[ptr / UNIT] == LayoutToSize(size, Pow2(k))
    modifies a
    ensures a.Valid() && a.out == old(a.out) - {ptr / UNIT}
    ensures old(Merged(a.orders, a.pieces)) ==> Merged(a.orders, a.pieces)
  {
    LayoutFits(size, k);
    a.FreeRange(ptr / UNIT, LayoutToSize(size, Pow2(k)));
  }
}
