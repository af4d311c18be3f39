/** One bitmap block: 4096 bits packed into 512 bytes (`BitmapBlock` in `fs/lemonfs/bitmap.rs`). */
module BitmapBlock {
  import opened Bits
  import opened Dyadic

  const BITS_PER_BLOCK: nat := 4096

  type Bytes = b: seq<Byte> | |b| == 512 witness seq(512, i => 0)

  function Get(b: Bytes, bit: nat): bool
    requires bit < BITS_PER_BLOCK
  {
    Of(b[bit / 8], 8)[bit % 8]
  }

  /** Set or clear one bit of a byte. */
  function Put(x: Byte, k: nat, v: bool): (r: Byte)
    requires k < 8
    ensures Of(r, 8) == Of(x, 8)[k := v]
  {
    var w := Of(x, 8)[k := v];
    ValueBound(w);
    assert Pow2(8) == 256;
    OfValue(w);
    Value(w)
  }

  function Assign(b: Bytes, bit: nat, v: bool): Bytes
    requires bit < BITS_PER_BLOCK
  {
    b[bit / 8 := Put(b[bit / 8], bit % 8, v)]
  }

  /** Assigning a bit changes that bit and no other. */
  lemma GetAssign(b: Bytes, bit: nat, v: bool, other: nat)
    requires bit < BITS_PER_BLOCK && other < BITS_PER_BLOCK
    ensures Get(Assign(b, bit, v), other) == if other == bit then v else Get(b, other)
  {
    if other / 8 == bit / 8 {
      assert other == 8 * (other / 8) + other % 8 && bit == 8 * (bit / 8) + bit % 8;
    }
  }

  function Filled(x: Byte): Bytes
  {
    seq(512, i => x)
  }

  lemma {:induction false} AllFalse(v: nat, n: nat)
    requires v < Pow2(n) && forall k :: 0 <= k < n ==> !Of(v, n)[k]
    ensures v == 0
    decreases n
  {
    if n > 0 {
      assert !Of(v, n)[0];
      var half := Of(v / 2, n - 1);
      assert Of(v, n)[1..] == half;
      forall k | 0 <= k < n - 1
        ensures !half[k]
      {
        assert !Of(v, n)[k + 1];
      }
      AllFalse(v / 2, n - 1);
    }
  }

  lemma {:induction false} AllTrue(v: nat, n: nat)
    requires v < Pow2(n) && forall k :: 0 <= k < n ==> Of(v, n)[k]
    ensures v == Pow2(n) - 1
    decreases n
  {
    if n > 0 {
      assert Of(v, n)[0];
      var half := Of(v / 2, n - 1);
      assert Of(v, n)[1..] == half;
      forall k | 0 <= k < n - 1
        ensures half[k]
      {
        assert Of(v, n)[k + 1];
      }
      AllTrue(v / 2, n - 1);
    }
  }

  lemma {:induction false} ConstantBits(v: nat, n: nat, k: nat)
    requires k < n && (v == 0 || v == Pow2(n) - 1)
    ensures Of(v, n)[k] == (v != 0)
    decreases n
  {
    if k > 0 {
      assert v / 2 == 0 || v / 2 == Pow2(n - 1) - 1;
      ConstantBits(v / 2, n - 1, k - 1);
    }
  }

  /** A block whose bits all have one value has one byte value throughout. */
  lemma Uniform(b: Bytes, v: bool)
    ensures (forall i :: 0 <= i < 512 ==> b[i] == if v then 255 else 0)
       <==> (forall k {:trigger Get(b, k)} :: 0 <= k < BITS_PER_BLOCK ==> Get(b, k) == v)
  {
    assert Pow2(8) == 256;
    if forall i :: 0 <= i < 512 ==> b[i] == if v then 255 else 0 {
      forall k {:trigger Get(b, k)} | 0 <= k < BITS_PER_BLOCK
        ensures Get(b, k) == v
      {
        ConstantBits(b[k / 8], 8, k % 8);
      }
    }
    if forall k {:trigger Get(b, k)} :: 0 <= k < BITS_PER_BLOCK ==> Get(b, k) == v {
      forall i | 0 <= i < 512
        ensures b[i] == if v then 255 else 0
      {
        UniformByte(b, v, i);
      }
    }
  }

  lemma UniformByte(b: Bytes, v: bool, i: nat)
    requires i < 512 && forall k {:trigger Get(b, k)} :: 0 <= k < BITS_PER_BLOCK ==> Get(b, k) == v
    ensures b[i] == if v then 255 else 0
  {
    assert Pow2(8) == 256;
    forall k | 0 <= k < 8
      ensures Of(b[i], 8)[k] == v
    {
      assert Get(b, 8 * i + k) == v;
      assert (8 * i + k) / 8 == i && (8 * i + k) % 8 == k;
    }
    if v { AllTrue(b[i], 8); } else { AllFalse(b[i], 8); }
  }

  /** The bits determine the bytes. */
  lemma SameBits(b: Bytes, c: Bytes)
    requires forall k {:trigger Get(b, k)} :: 0 <= k < BITS_PER_BLOCK ==> Get(b, k) == Get(c, k)
    ensures b == c
  {
    forall i | 0 <= i < 512
      ensures b[i] == c[i]
    {
      SameByte(b, c, i);
    }
  }

  lemma SameByte(b: Bytes, c: Bytes, i: nat)
    requires i < 512 && forall k {:trigger Get(b, k)} :: 0 <= k < BITS_PER_BLOCK ==> Get(b, k) == Get(c, k)
    ensures b[i] == c[i]
  {
    forall k | 0 <= k < 8
      ensures Of(b[i], 8)[k] == Of(c[i], 8)[k]
    {
      assert Get(b, 8 * i + k) == Get(c, 8 * i + k);
      assert (8 * i + k) / 8 == i && (8 * i + k) % 8 == k;
    }
    assert Of(b[i], 8) == Of(c[i], 8);
    assert Pow2(8) == 256;
    ValueOf(b[i], 8);
    ValueOf(c[i], 8);
  }
}
