/** Machine words as bit sequences, low bit first, and their values. */
module Bits {
  import opened Dyadic

  type Byte = x: int | 0 <= x < 256
  type Word = seq<bool>

  /** The low `n` bits of `v`. */
  function Of(v: nat, n: nat): (w: Word)
    ensures |w| == n
    decreases n, v
  {
    if n == 0 then [] else [v % 2 == 1] + Of(v / 2, n - 1)
  }

  function Value(w: Word): nat
  {
    if w == [] then 0 else (if w[0] then 1 else 0) + 2 * Value(w[1..])
  }

  function Zero(n: nat): (w: Word)
    ensures |w| == n && forall i {:trigger w[i]} :: 0 <= i < n ==> !w[i]
  {
    seq(n, i => false)
  }

  function Xor(a: Word, b: Word): (c: Word)
    requires |a| == |b|
    ensures |c| == |a| && forall i {:trigger c[i]} :: 0 <= i < |a| ==> c[i] == (a[i] != b[i])
  {
    seq(|a|, i requires 0 <= i < |a| && |a| == |b| => a[i] != b[i])
  }

  lemma {:induction false} OfValue(w: Word)
    ensures Of(Value(w), |w|) == w
    decreases |w|
  {
    if w != [] {
      OfValue(w[1..]);
      assert Value(w) / 2 == Value(w[1..]);
      assert w == [w[0]] + w[1..];
    }
  }

  lemma {:induction false} ValueOf(v: nat, n: nat)
    requires v < Pow2(n)
    ensures Value(Of(v, n)) == v
    decreases n
  {
    if n > 0 {
      ValueOf(v / 2, n - 1);
      assert Of(v, n)[1..] == Of(v / 2, n - 1);
    }
  }

  lemma {:induction false} ValueBound(w: Word)
    ensures Value(w) < Pow2(|w|)
    decreases |w|
  {
    if w != [] {
      ValueBound(w[1..]);
    }
  }

  /** A value with `n` significant bits sets bit `n - 1`. */
  lemma {:induction false} TopBit(v: nat, n: nat)
    requires n > 0 && Pow2(n - 1) <= v < Pow2(n)
    ensures Of(v, n)[n - 1]
    decreases n
  {
    if n > 1 {
      TopBit(v / 2, n - 1);
    }
  }

  /** Widening a word adds zero bits. */
  lemma {:induction false} Widen(v: nat, n: nat, m: nat)
    requires v < Pow2(n) && n <= m
    ensures Of(v, m) == Of(v, n) + Zero(m - n)
    decreases m
  {
    if n > 0 {
      Widen(v / 2, n - 1, m - 1);
    } else if m > 0 {
      Widen(0, 0, m - 1);
      assert Of(v, m)[1..] == Zero(m - 1);
    }
  }

  lemma XorComm(a: Word, b: Word)
    requires |a| == |b|
    ensures Xor(a, b) == Xor(b, a)
  {
  }

  lemma XorAssoc(a: Word, b: Word, c: Word)
    requires |a| == |b| == |c|
    ensures Xor(Xor(a, b), c) == Xor(a, Xor(b, c))
  {
  }

  lemma XorCancel(a: Word, b: Word, c: Word)
    requires |a| == |b| == |c| && Xor(a, c) == Xor(b, c)
    ensures a == b
  {
    forall i | 0 <= i < |a|
      ensures a[i] == b[i]
    {
      assert Xor(a, c)[i] == Xor(b, c)[i];
    }
  }
}
