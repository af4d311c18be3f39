/** Powers of two, dyadic blocks and the uniqueness of fully merged decompositions. */
module Dyadic {

  function Pow2(e: nat): (r: nat)
    ensures r >= 1
  {
    if e == 0 then 1 else 2 * Pow2(e - 1)
  }

  /** `x >> e`. */
  function Shr(x: nat, e: nat): nat
  {
    if e == 0 then x else Shr(x / 2, e - 1)
  }

  /** The low `e` bits of `x`. */
  function Low(x: nat, e: nat): nat
  {
    if e == 0 then 0 else 2 * Low(x / 2, e - 1) + x % 2
  }

  /** `k << e`. */
  function Shl(k: nat, e: nat): nat
  {
    if e == 0 then k else 2 * Shl(k, e - 1)
  }

  ghost predicate Aligned(a: nat, e: nat)
  {
    exists k: nat :: Shl(k, e) == a
  }

  /** The low `e` bits of `a` are zero. */
  predicate LowZero(a: nat, e: nat)
  {
    e == 0 || (a % 2 == 0 && LowZero(a / 2, e - 1))
  }

  lemma Halve(y: nat)
    ensures (2 * y) % 2 == 0 && (2 * y) / 2 == y
  {
  }

  lemma {:induction false} ShlLowZero(k: nat, e: nat)
    ensures LowZero(Shl(k, e), e)
  {
    if e > 0 {
      ShlLowZero(k, e - 1);
      Halve(Shl(k, e - 1));
    }
  }

  lemma {:induction false} LowZeroShl(a: nat, e: nat) returns (k: nat)
    requires LowZero(a, e)
    ensures Shl(k, e) == a
  {
    if e > 0 {
      k := LowZeroShl(a / 2, e - 1);
    } else {
      k := a;
    }
  }

  lemma {:induction false} AlignedIff(a: nat, e: nat)
    ensures Aligned(a, e) <==> LowZero(a, e)
  {
    if Aligned(a, e) {
      var k: nat :| Shl(k, e) == a;
      ShlLowZero(k, e);
    }
    if LowZero(a, e) {
      var k := LowZeroShl(a, e);
    }
  }

  /** `a ^ (1 << e)`. */
  function Flip(a: nat, e: nat): nat
  {
    if e > 0 then 2 * Flip(a / 2, e - 1) + a % 2 else if a % 2 == 0 then a + 1 else a - 1
  }

  /** `x` is its high part times `2^e` plus its low part. */
  lemma {:induction false} Split(x: nat, e: nat)
    ensures x == Shr(x, e) * Pow2(e) + Low(x, e) && Low(x, e) < Pow2(e)
    ensures Low(x, e) == x % Pow2(e)
  {
    SplitSum(x, e);
    ModUnique(x, Shr(x, e), Pow2(e), Low(x, e));
  }

  lemma {:induction false} SplitSum(x: nat, e: nat)
    ensures x == Shr(x, e) * Pow2(e) + Low(x, e) && Low(x, e) < Pow2(e)
  {
    if e > 0 {
      SplitSum(x / 2, e - 1);
      Doubled(x / 2, Shr(x, e), Pow2(e - 1), Low(x / 2, e - 1));
    }
  }

  lemma Doubled(h: nat, s: nat, p: nat, low: nat)
    requires h == s * p + low
    ensures 2 * h == s * (2 * p) + 2 * low
  {
    assert s * (2 * p) == 2 * (s * p);
  }

  lemma {:induction false} AlignedMod(a: nat, e: nat)
    ensures Aligned(a, e) <==> a % Pow2(e) == 0
  {
    Split(a, e);
    AlignedIff(a, e);
    if e > 0 {
      AlignedMod(a / 2, e - 1);
      AlignedIff(a / 2, e - 1);
      Split(a / 2, e - 1);
    }
  }

  lemma ModUnique(x: nat, q: nat, p: nat, r: nat)
    requires r < p && x == q * p + r
    ensures x % p == r
  {
    var d := x / p - q;
    assert x == p * (x / p) + x % p;
    assert p * (x / p) == p * q + p * d;
    assert p * d == r - x % p;
    assert d >= 1 ==> p * d >= p;
    assert d <= -1 ==> p * d <= 0 - p;
  }

  /** Membership in an aligned block is equality of block indices. */
  lemma {:induction false} InBlock(a: nat, e: nat, x: nat)
    requires Aligned(a, e)
    ensures a <= x < a + Pow2(e) <==> Shr(x, e) == Shr(a, e)
  {
    AlignedIff(a, e);
    InLowZero(a, e, x);
  }

  lemma {:induction false} InLowZero(a: nat, e: nat, x: nat)
    requires LowZero(a, e)
    ensures a <= x < a + Pow2(e) <==> Shr(x, e) == Shr(a, e)
  {
    if e > 0 {
      InLowZero(a / 2, e - 1, x / 2);
    }
  }

  lemma {:induction false} ShrStep(x: nat, e: nat)
    ensures Shr(x, e + 1) == Shr(x, e) / 2
  {
    if e > 0 {
      ShrStep(x / 2, e - 1);
    }
  }

  lemma {:induction false} ShrMono(x: nat, y: nat, e: nat, f: nat)
    requires e <= f && Shr(x, e) == Shr(y, e)
    ensures Shr(x, f) == Shr(y, f)
  {
    if e < f {
      ShrMono(x, y, e, f - 1);
      ShrStep(x, f - 1);
      ShrStep(y, f - 1);
    }
  }

  /** An address aligned to a larger size is aligned to a smaller one. */
  lemma {:induction false} AlignedDown(a: nat, e: nat, f: nat)
    requires e <= f && Aligned(a, f)
    ensures Aligned(a, e)
  {
    AlignedIff(a, e);
    AlignedIff(a, f);
    if e > 0 {
      AlignedIff(a / 2, f - 1);
      AlignedDown(a / 2, e - 1, f - 1);
      AlignedIff(a / 2, e - 1);
    }
  }

  /** Two aligned blocks that share an address are nested. */
  lemma {:induction false} Nested(a: nat, e: nat, b: nat, f: nat, x: nat)
    requires e <= f && Aligned(a, e) && Aligned(b, f)
    requires a <= x < a + Pow2(e) && b <= x < b + Pow2(f)
    ensures b <= a && a + Pow2(e) <= b + Pow2(f)
  {
    InBlock(a, e, x);
    InBlock(b, f, x);
    NestedAt(a, e, b, f, x, a);
    NestedAt(a, e, b, f, x, a + Pow2(e) - 1);
  }

  lemma {:induction false} NestedAt(a: nat, e: nat, b: nat, f: nat, x: nat, y: nat)
    requires e <= f && Aligned(a, e) && Aligned(b, f)
    requires Shr(x, e) == Shr(a, e) && Shr(x, f) == Shr(b, f) && a <= y < a + Pow2(e)
    ensures b <= y < b + Pow2(f)
  {
    InBlock(a, e, y);
    ShrMono(x, y, e, f);
    InBlock(b, f, y);
  }

  /** A block and its buddy are the two halves of an aligned block of twice the size. */
  lemma Buddies(a: nat, e: nat)
    requires Aligned(a, e)
    ensures Aligned(Flip(a, e), e) && Flip(Flip(a, e), e) == a
    ensures Aligned(a, e + 1) ==> Flip(a, e) == a + Pow2(e)
    ensures !Aligned(a, e + 1) ==> a == Flip(a, e) + Pow2(e) && Aligned(Flip(a, e), e + 1)
  {
    AlignedIff(a, e);
    AlignedIff(a, e + 1);
    AlignedIff(Flip(a, e), e);
    AlignedIff(Flip(a, e), e + 1);
    FlipLowZero(a, e);
  }

  lemma {:induction false} FlipLowZero(a: nat, e: nat)
    requires LowZero(a, e)
    ensures LowZero(Flip(a, e), e) && Flip(Flip(a, e), e) == a
    ensures LowZero(a, e + 1) ==> Flip(a, e) == a + Pow2(e)
    ensures !LowZero(a, e + 1) ==> a == Flip(a, e) + Pow2(e) && LowZero(Flip(a, e), e + 1)
  {
    if e > 0 {
      FlipLowZero(a / 2, e - 1);
    } else {
      assert LowZero(a, 1) <==> a % 2 == 0;
      assert LowZero(Flip(a, 0), 1) <==> Flip(a, 0) % 2 == 0;
    }
  }

  /** The two halves of an aligned block are buddies. */
  lemma Halves(a: nat, e: nat)
    requires Aligned(a, e + 1)
    ensures Aligned(a, e) && Aligned(a + Pow2(e), e)
    ensures Flip(a, e) == a + Pow2(e) && Flip(a + Pow2(e), e) == a
  {
    AlignedDown(a, e, e + 1);
    Buddies(a, e);
  }

  lemma {:induction false} Pow2Mono(e: nat, f: nat)
    requires e <= f
    ensures Pow2(e) <= Pow2(f)
    ensures e < f ==> 2 * Pow2(e) <= Pow2(f)
  {
    if e < f {
      Pow2Mono(e, f - 1);
    }
  }

  lemma {:induction false} Pow2Add(e: nat, f: nat)
    ensures Pow2(e + f) == Pow2(e) * Pow2(f)
  {
    if f > 0 {
      Pow2Add(e, f - 1);
      assert Pow2(e) * (2 * Pow2(f - 1)) == 2 * (Pow2(e) * Pow2(f - 1));
    }
  }

  /** `n.next_power_of_two().trailing_zeros()`. */
  function OrderFor(n: nat): nat
  {
    OrderFrom(n, 0)
  }

  function OrderFrom(n: nat, k: nat): nat
    decreases n - Pow2(k)
  {
    if n <= Pow2(k) then k else OrderFrom(n, k + 1)
  }

  lemma {:induction false} OrderFromLeast(n: nat, k: nat, j: nat)
    ensures k <= OrderFrom(n, k) && n <= Pow2(OrderFrom(n, k))
    ensures k <= j < OrderFrom(n, k) ==> Pow2(j) < n
    decreases n - Pow2(k)
  {
    if n > Pow2(k) {
      OrderFromLeast(n, k + 1, j);
    }
  }

  /** `2^OrderFor(n)` is the least power of two that is at least `n`. */
  lemma {:induction false} OrderForLeast(n: nat, j: nat)
    ensures n <= Pow2(OrderFor(n))
    ensures n <= Pow2(j) ==> OrderFor(n) <= j
  {
    OrderFromLeast(n, 0, j);
  }

  predicate IsPow2(n: nat)
  {
    Pow2(OrderFor(n)) == n
  }

  lemma {:induction false} OrderOfPow2(k: nat)
    ensures OrderFor(Pow2(k)) == k && IsPow2(Pow2(k))
  {
    var r := OrderFor(Pow2(k));
    OrderForLeast(Pow2(k), k);
    if r < k {
      Pow2Mono(r, k);
    }
  }

  /** Blocks are aligned powers of two, with exponents from `lo` to `hi`. */
  datatype Block = Block(addr: nat, exp: nat)

  ghost predicate Has(b: Block, x: nat)
  {
    b.addr <= x < b.addr + Pow2(b.exp)
  }

  ghost predicate Covered(s: set<Block>, x: nat)
  {
    exists b :: b in s && Has(b, x)
  }

  /** A decomposition: aligned, disjoint, and no two buddies below the top size. */
  ghost predicate Decomposition(s: set<Block>, lo: nat, hi: nat)
  {
    && (forall b :: b in s ==> lo <= b.exp <= hi && Aligned(b.addr, b.exp))
    && (forall b, c, x :: b in s && c in s && Has(b, x) && Has(c, x) ==> b == c)
  }

  ghost predicate FullyMerged(s: set<Block>, hi: nat)
  {
    forall b :: b in s && b.exp < hi ==> Block(Flip(b.addr, b.exp), b.exp) !in s
  }

  lemma SameBlock(b: Block, c: Block)
    requires b.exp == c.exp && b.addr <= c.addr && c.addr + Pow2(c.exp) <= b.addr + Pow2(b.exp)
    ensures b == c
  {
  }

  /** A block whose addresses are all covered lies inside one block of a merged decomposition. */
  lemma {:induction false} InsideOne(s: set<Block>, lo: nat, hi: nat, c: Block) returns (b: Block)
    requires Decomposition(s, lo, hi) && FullyMerged(s, hi)
    requires lo <= c.exp <= hi && Aligned(c.addr, c.exp)
    requires forall x :: Has(c, x) ==> Covered(s, x)
    ensures b in s && b.exp >= c.exp && b.addr <= c.addr && c.addr + Pow2(c.exp) <= b.addr + Pow2(b.exp)
    decreases c.exp
  {
    if c.exp == lo {
      assert Has(c, c.addr);
      b :| b in s && Has(b, c.addr);
      Nested(c.addr, c.exp, b.addr, b.exp, c.addr);
    } else {
      var e := c.exp - 1;
      Halves(c.addr, e);
      var l, r := Block(c.addr, e), Block(c.addr + Pow2(e), e);
      assert forall x :: Has(l, x) || Has(r, x) ==> Has(c, x);
      var bl := InsideOne(s, lo, hi, l);
      var br := InsideOne(s, lo, hi, r);
      if bl.exp > e {
        Nested(c.addr, c.exp, bl.addr, bl.exp, c.addr);
        b := bl;
      } else if br.exp > e {
        Nested(c.addr, c.exp, br.addr, br.exp, r.addr);
        b := br;
      } else {
        assert false by { SameBlock(bl, l); SameBlock(br, r); }
      }
    }
  }

  lemma Subset(s: set<Block>, t: set<Block>, lo: nat, hi: nat, b: Block)
    requires Decomposition(s, lo, hi) && FullyMerged(s, hi)
    requires Decomposition(t, lo, hi) && FullyMerged(t, hi)
    requires forall x :: Covered(s, x) <==> Covered(t, x)
    requires b in s
    ensures b in t
  {
    assert forall x :: Has(b, x) ==> Covered(s, x);
    var c := InsideOne(t, lo, hi, b);
    assert forall x :: Has(c, x) ==> Covered(t, x);
    var d := InsideOne(s, lo, hi, c);
    assert Has(b, b.addr) && Has(d, b.addr);
    assert d == b;
    assert Pow2(c.exp) == Pow2(b.exp);
    if c.exp > b.exp {
      Pow2Mono(b.exp, c.exp);
    }
  }

  /** The free set of a fully merged state is determined by the free addresses. */
  lemma MergedUnique(s: set<Block>, t: set<Block>, lo: nat, hi: nat)
    requires Decomposition(s, lo, hi) && FullyMerged(s, hi)
    requires Decomposition(t, lo, hi) && FullyMerged(t, hi)
    requires forall x :: Covered(s, x) <==> Covered(t, x)
    ensures s == t
  {
    forall b | b in s ensures b in t { Subset(s, t, lo, hi, b); }
    forall b | b in t ensures b in s { Subset(t, s, lo, hi, b); }
  }
}
