/** Fixed-width little-endian numbers, as the packed on-disk structures hold them. */
module Codec {
  import opened Bits

  /** The low `n` bytes of `v`, low byte first. */
  function Le(v: nat, n: nat): (b: seq<Byte>)
    ensures |b| == n
    decreases n, v
  {
    if n == 0 then [] else [v % 256] + Le(v / 256, n - 1)
  }

  function UnLe(b: seq<Byte>): nat
    decreases |b|, b
  {
    if b == [] then 0 else b[0] + 256 * UnLe(b[1..])
  }

  function Limit(n: nat): (r: nat)
    ensures r > 0
    decreases n
  {
    if n == 0 then 1 else 256 * Limit(n - 1)
  }

  predicate U64(v: nat)
  {
    v < 0x1_0000_0000_0000_0000
  }

  lemma Limits()
    ensures Limit(8) == 0x1_0000_0000_0000_0000 && Limit(4) == 0x1_0000_0000
  {
  }

  lemma {:induction false} UnLeLe(v: nat, n: nat)
    requires v < Limit(n)
    ensures UnLe(Le(v, n)) == v
    decreases n
  {
    if n > 0 {
      UnLeLe(v / 256, n - 1);
      assert Le(v, n)[1..] == Le(v / 256, n - 1);
    }
  }

  lemma {:induction false} LeUnLe(b: seq<Byte>)
    ensures Le(UnLe(b), |b|) == b
    decreases |b|
  {
    if b != [] {
      LeUnLe(b[1..]);
      assert UnLe(b) / 256 == UnLe(b[1..]);
      assert b == [b[0]] + b[1..];
    }
  }

  lemma {:induction false} UnLeBound(b: seq<Byte>)
    ensures UnLe(b) < Limit(|b|)
    decreases |b|
  {
    if b != [] {
      UnLeBound(b[1..]);
    }
  }

  /** Eight bytes are a 64-bit number. */
  lemma {:induction false} Le64(v: nat)
    requires U64(v)
    ensures UnLe(Le(v, 8)) == v
  {
    Limits();
    UnLeLe(v, 8);
  }

  lemma {:induction false} UnLe64(b: seq<Byte>)
    requires |b| == 8
    ensures U64(UnLe(b)) && Le(UnLe(b), 8) == b
  {
    Limits();
    UnLeBound(b);
    LeUnLe(b);
  }
}
