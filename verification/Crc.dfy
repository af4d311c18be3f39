/**
 * CRC-32 (IEEE 802.3) and CRC-64/XZ computed a byte at a time from a table (`helpers/crc.rs`),
 * against the division fed with one message bit at a time. The register is a word of
 * 32 or 64 bits, low bit first, so shifting right drops its first bit.
 */
module Crc {
  import opened Basics
  import opened Bits
  import opened Dyadic

  const POLY32: nat := 0xEDB8_8320
  const POLY64: nat := 0xC96C_5795_D787_0F42

  /** A generator polynomial in reversed form: its highest power is the register's top bit. */
  predicate Generator(poly: Word)
  {
    |poly| >= 8 && poly[|poly| - 1]
  }

  lemma Powers()
    ensures Pow2(31) == 0x8000_0000 && Pow2(32) == 0x1_0000_0000
    ensures Pow2(63) == 0x8000_0000_0000_0000 && Pow2(64) == 0x1_0000_0000_0000_0000
  {
    assert Pow2(8) == 256;
    Pow2Add(8, 8);
    Pow2Add(16, 16);
    Pow2Add(32, 32);
    assert 2 * Pow2(31) == Pow2(32) && 2 * Pow2(63) == Pow2(64);
  }

  lemma {:induction false} GeneratorOf(v: nat, n: nat)
    requires n >= 8 && Pow2(n - 1) <= v < Pow2(n)
    ensures Generator(Of(v, n))
  {
    TopBit(v, n);
  }

  /** Both polynomials have their width as number of significant bits. */
  lemma Generators()
    ensures Generator(Of(POLY32, 32)) && Generator(Of(POLY64, 64))
  {
    Powers();
    GeneratorOf(POLY32, 32);
    GeneratorOf(POLY64, 64);
  }

  function Ones(n: nat): (w: Word)
    ensures |w| == n
  {
    seq(n, i => true)
  }

  function Shr(w: Word, n: nat): (r: Word)
    requires n <= |w|
    ensures |r| == |w|
  {
    w[n..] + Zero(n)
  }

  /** One step of the division: shift out the low bit and subtract the polynomial if it was set. */
  function Shift(poly: Word, crc: Word): (r: Word)
    requires Generator(poly) && |crc| == |poly|
    ensures |r| == |poly|
  {
    if crc[0] then Xor(Shr(crc, 1), poly) else Shr(crc, 1)
  }

  function Shifts(poly: Word, crc: Word, n: nat): (r: Word)
    requires Generator(poly) && |crc| == |poly|
    ensures |r| == |poly|
    decreases n, crc
  {
    if n == 0 then crc else Shifts(poly, Shift(poly, crc), n - 1)
  }

  // ----- The reference: one message bit per step -----

  /** The message as bits: the bytes in order, each low bit first. */
  function MessageBits(data: seq<Byte>): Word
  {
    if data == [] then [] else Of(data[0], 8) + MessageBits(data[1..])
  }

  /** A register with `bit` as its low bit and zeros above. */
  function Unit(bit: bool, n: nat): (w: Word)
    requires n > 0
    ensures |w| == n
  {
    [bit] + Zero(n - 1)
  }

  /** Divide the message by the polynomial, one bit at a time. */
  function Divide(poly: Word, crc: Word, bits: Word): (r: Word)
    requires Generator(poly) && |crc| == |poly|
    ensures |r| == |poly|
    decreases |bits|
  {
    if bits == [] then crc
    else Divide(poly, Shift(poly, Xor(crc, Unit(bits[0], |poly|))), bits[1..])
  }

  function Reference(poly: Word, data: seq<Byte>): (r: Word)
    requires Generator(poly)
    ensures |r| == |poly|
  {
    Xor(Divide(poly, Ones(|poly|), MessageBits(data)), Ones(|poly|))
  }

  // ----- The division is linear and loses nothing -----

  lemma ShiftXor(poly: Word, a: Word, b: Word)
    requires Generator(poly) && |a| == |b| == |poly|
    ensures Shift(poly, Xor(a, b)) == Xor(Shift(poly, a), Shift(poly, b))
  {
    assert Shr(Xor(a, b), 1) == Xor(Shr(a, 1), Shr(b, 1));
  }

  lemma {:induction false} ShiftsXor(poly: Word, a: Word, b: Word, n: nat)
    requires Generator(poly) && |a| == |b| == |poly|
    ensures Shifts(poly, Xor(a, b), n) == Xor(Shifts(poly, a, n), Shifts(poly, b, n))
    decreases n
  {
    if n > 0 {
      ShiftXor(poly, a, b);
      ShiftsXor(poly, Shift(poly, a), Shift(poly, b), n - 1);
    }
  }

  lemma ShiftTop(poly: Word, a: Word)
    requires Generator(poly) && |a| == |poly|
    ensures Shift(poly, a)[|poly| - 1] == a[0]
  {
  }

  lemma ShiftInjective(poly: Word, a: Word, b: Word)
    requires Generator(poly) && |a| == |b| == |poly|
    requires Shift(poly, a) == Shift(poly, b)
    ensures a == b
  {
    ShiftTop(poly, a);
    ShiftTop(poly, b);
    if a[0] {
      XorCancel(Shr(a, 1), Shr(b, 1), poly);
    }
    assert Shr(a, 1) == Shr(b, 1);
    forall i | 0 < i < |a|
      ensures a[i] == b[i]
    {
      assert Shr(a, 1)[i - 1] == a[i] && Shr(b, 1)[i - 1] == b[i];
    }
  }

  lemma {:induction false} ShiftsInjective(poly: Word, a: Word, b: Word, n: nat)
    requires Generator(poly) && |a| == |b| == |poly|
    requires Shifts(poly, a, n) == Shifts(poly, b, n)
    ensures a == b
    decreases n
  {
    if n > 0 {
      ShiftsInjective(poly, Shift(poly, a), Shift(poly, b), n - 1);
      ShiftInjective(poly, a, b);
    }
  }

  // ----- A byte at a time -----

  /** The register after one byte: xor it in and shift eight times. */
  function ByteStep(poly: Word, crc: Word, b: Byte): (r: Word)
    requires Generator(poly) && |crc| == |poly|
    ensures |r| == |poly|
  {
    Shifts(poly, Xor(crc, Of(b, |poly|)), 8)
  }

  function Feed(poly: Word, crc: Word, data: seq<Byte>): (r: Word)
    requires Generator(poly) && |crc| == |poly|
    ensures |r| == |poly|
    decreases |data|
  {
    if data == [] then crc else Feed(poly, ByteStep(poly, crc, data[0]), data[1..])
  }

  /** A word is its low bit and its other bits. */
  lemma LowHigh(b: nat, n: nat)
    requires n > 0
    ensures Of(b, n) == Xor(Unit(b % 2 == 1, n), [false] + Of(b / 2, n - 1))
  {
    var low, high := Unit(b % 2 == 1, n), [false] + Of(b / 2, n - 1);
    forall i | 0 <= i < n
      ensures Of(b, n)[i] == Xor(low, high)[i]
    {
    }
  }

  lemma {:induction false} ShiftHigh(poly: Word, b: nat)
    requires Generator(poly) && b < Pow2(|poly| - 1)
    ensures Shift(poly, [false] + Of(b, |poly| - 1)) == Of(b, |poly|)
  {
    Widen(b, |poly| - 1, |poly|);
  }

  lemma HalfBound(b: nat, n: nat)
    requires n > 0 && b < Pow2(n)
    ensures b / 2 < Pow2(n - 1)
  {
  }

  /** The low bit of `b` takes part in this step, the rest of it in the next ones. */
  lemma {:induction false} ShiftLow(poly: Word, crc: Word, b: nat, half: nat, n: nat)
    requires Generator(poly) && |crc| == |poly| == n && half == b / 2 && half < Pow2(n - 1)
    ensures Shift(poly, Xor(crc, Of(b, n))) == Xor(Shift(poly, Xor(crc, Unit(b % 2 == 1, n))), Of(half, n))
  {
    var low, high := Unit(b % 2 == 1, n), [false] + Of(half, n - 1);
    LowHigh(b, n);
    ShiftHigh(poly, half);
    ShiftParts(poly, crc, Of(b, n), low, high);
  }

  lemma ShiftParts(poly: Word, crc: Word, whole: Word, low: Word, high: Word)
    requires Generator(poly) && |crc| == |low| == |high| == |poly| && whole == Xor(low, high)
    ensures Shift(poly, Xor(crc, whole)) == Xor(Shift(poly, Xor(crc, low)), Shift(poly, high))
  {
    XorAssoc(crc, low, high);
    ShiftXor(poly, Xor(crc, low), high);
  }

  /** Feeding the bits of `b` one by one is xoring it in whole and shifting. */
  lemma {:induction false} BitsByte(poly: Word, crc: Word, b: nat, n: nat, rest: Word)
    requires Generator(poly) && |crc| == |poly| && n <= |poly| && b < Pow2(n)
    ensures Divide(poly, crc, Of(b, n) + rest) == Divide(poly, Shifts(poly, Xor(crc, Of(b, |poly|)), n), rest)
    decreases n
  {
    var bits := Of(b, n) + rest;
    if n == 0 {
      Widen(0, 0, |poly|);
      assert Xor(crc, Of(b, |poly|)) == crc;
      assert bits == rest;
    } else {
      assert bits[0] == (b % 2 == 1) && bits[1..] == Of(b / 2, n - 1) + rest;
      var next := Shift(poly, Xor(crc, Unit(b % 2 == 1, |poly|)));
      BitsByte(poly, next, b / 2, n - 1, rest);
      Pow2Mono(n, |poly|);
      HalfBound(b, |poly|);
      ShiftLow(poly, crc, b, b / 2, |poly|);
    }
  }

  lemma {:induction false} FeedIsDivide(poly: Word, crc: Word, data: seq<Byte>)
    requires Generator(poly) && |crc| == |poly|
    ensures Feed(poly, crc, data) == Divide(poly, crc, MessageBits(data))
    decreases |data|
  {
    if data != [] {
      assert Pow2(8) == 256;
      BitsByte(poly, crc, data[0], 8, MessageBits(data[1..]));
      FeedIsDivide(poly, ByteStep(poly, crc, data[0]), data[1..]);
    }
  }

  // ----- Errors are detected -----

  lemma ByteStepInjective(poly: Word, a: Word, b: Word, x: Byte)
    requires Generator(poly) && |a| == |b| == |poly|
    requires ByteStep(poly, a, x) == ByteStep(poly, b, x)
    ensures a == b
  {
    var v := Of(x, |poly|);
    ShiftsInjective(poly, Xor(a, v), Xor(b, v), 8);
    XorCancel(a, b, v);
  }

  lemma ByteMatters(poly: Word, crc: Word, x: Byte, y: Byte)
    requires Generator(poly) && |crc| == |poly|
    requires ByteStep(poly, crc, x) == ByteStep(poly, crc, y)
    ensures x == y
  {
    var n := |poly|;
    var v, w := Of(x, n), Of(y, n);
    ShiftsInjective(poly, Xor(crc, v), Xor(crc, w), 8);
    XorComm(crc, v);
    XorComm(crc, w);
    XorCancel(v, w, crc);
    assert Pow2(8) == 256;
    Pow2Mono(8, n);
    ValueOf(x, n);
    ValueOf(y, n);
  }

  lemma {:induction false} FeedInjective(poly: Word, a: Word, b: Word, data: seq<Byte>)
    requires Generator(poly) && |a| == |b| == |poly|
    requires Feed(poly, a, data) == Feed(poly, b, data)
    ensures a == b
    decreases |data|
  {
    if data != [] {
      FeedInjective(poly, ByteStep(poly, a, data[0]), ByteStep(poly, b, data[0]), data[1..]);
      ByteStepInjective(poly, a, b, data[0]);
    }
  }

  lemma {:induction false} FeedDetects(poly: Word, crc: Word, data: seq<Byte>, k: nat, x: Byte)
    requires Generator(poly) && |crc| == |poly| && k < |data|
    requires Feed(poly, crc, data) == Feed(poly, crc, data[k := x])
    ensures x == data[k]
    decreases |data|
  {
    var changed := data[k := x];
    if k == 0 {
      assert changed[1..] == data[1..];
      FeedInjective(poly, ByteStep(poly, crc, data[0]), ByteStep(poly, crc, x), data[1..]);
      ByteMatters(poly, crc, data[0], x);
    } else {
      assert changed[1..] == data[1..][k - 1 := x];
      FeedDetects(poly, ByteStep(poly, crc, data[0]), data[1..], k - 1, x);
    }
  }

  /** Changing any one byte of the message changes the checksum. */
  lemma ByteChangeDetected(poly: Word, data: seq<Byte>, k: nat, x: Byte)
    requires Generator(poly) && k < |data| && x != data[k]
    ensures Reference(poly, data[k := x]) != Reference(poly, data)
  {
    var ones := Ones(|poly|);
    if Reference(poly, data[k := x]) == Reference(poly, data) {
      FeedIsDivide(poly, ones, data);
      FeedIsDivide(poly, ones, data[k := x]);
      XorCancel(Feed(poly, ones, data), Feed(poly, ones, data[k := x]), ones);
      FeedDetects(poly, ones, data, k, x);
    }
  }

  // ----- The table -----

  /** Eight shifts of a register are its upper part shifted down, plus eight shifts of its low byte. */
  lemma {:induction false} HighPart(poly: Word, a: Word, n: nat)
    requires Generator(poly) && |a| == |poly| && n <= |poly|
    requires forall i :: 0 <= i < n ==> !a[i]
    ensures Shifts(poly, a, n) == Shr(a, n)
    decreases n
  {
    if n == 0 {
      assert Shr(a, 0) == a;
    } else {
      var b := Shift(poly, a);
      assert b == Shr(a, 1);
      HighPart(poly, b, n - 1);
      assert Shr(b, n - 1) == Shr(a, n);
    }
  }

  lemma Halves(x: Word)
    requires |x| >= 8
    ensures x == Xor(Zero(8) + x[8..], x[..8] + Zero(|x| - 8))
  {
    var upper, lower := Zero(8) + x[8..], x[..8] + Zero(|x| - 8);
    forall i | 0 <= i < |x|
      ensures x[i] == Xor(upper, lower)[i]
    {
    }
  }

  lemma {:induction false} UpperUntouched(crc: Word, b: Byte)
    requires |crc| >= 8
    ensures Xor(crc, Of(b, |crc|))[8..] == crc[8..]
  {
    assert Pow2(8) == 256;
    Widen(b, 8, |crc|);
  }

  lemma {:induction false} LookupStep(poly: Word, crc: Word, b: Byte, low: Word, entry: Word)
    requires Generator(poly) && |crc| == |poly|
    requires low == Xor(crc, Of(b, |poly|))[..8]
    requires entry == Shifts(poly, Of(Value(low), |poly|), 8)
    ensures Xor(Shr(crc, 8), entry) == ByteStep(poly, crc, b)
  {
    var x := Xor(crc, Of(b, |poly|));
    var lower, upper := low + Zero(|poly| - 8), Zero(8) + x[8..];
    Halves(x);
    ShiftsXor(poly, upper, lower, 8);
    HighPart(poly, upper, 8);
    UpperUntouched(crc, b);
    assert Shr(upper, 8) == Shr(crc, 8);
    LowByte(low, |poly|);
  }

  lemma {:induction false} LowByte(low: Word, n: nat)
    requires |low| <= n
    ensures Of(Value(low), n) == low + Zero(n - |low|)
  {
    OfValue(low);
    ValueBound(low);
    Widen(Value(low), |low|, n);
  }

  /** The table of eight-step remainders, filled by the two nested loops. */
  predicate TableOk(poly: Word, table: seq<Word>)
  {
    Generator(poly) && |table| == 256
    && forall i :: 0 <= i < 256 ==> table[i] == Shifts(poly, Of(i, |poly|), 8)
  }

  lemma {:induction false} ShiftsLast(poly: Word, a: Word, n: nat)
    requires Generator(poly) && |a| == |poly|
    ensures Shifts(poly, a, n + 1) == Shift(poly, Shifts(poly, a, n))
    decreases n
  {
    if n > 0 {
      ShiftsLast(poly, Shift(poly, a), n - 1);
    }
  }

  method FillTable(poly: Word) returns (table: array<Word>)
    requires Generator(poly)
    ensures fresh(table) && TableOk(poly, table[..])
  {
    table := new Word[256](i => []);
    var i := 0;
    while i < 256
      invariant 0 <= i <= 256
      invariant forall k :: 0 <= k < i ==> table[k] == Shifts(poly, Of(k, |poly|), 8)
    {
      var crc := Of(i, |poly|);
      var j := 0;
      while j < 8
        invariant 0 <= j <= 8 && |crc| == |poly|
        invariant crc == Shifts(poly, Of(i, |poly|), j)
        modifies {}
      {
        ShiftsLast(poly, Of(i, |poly|), j);
        if crc[0] {
          crc := Xor(Shr(crc, 1), poly);
        } else {
          crc := Shr(crc, 1);
        }
        j := j + 1;
      }
      table[i] := crc;
      i := i + 1;
    }
  }

  lemma {:induction false} FeedLast(poly: Word, crc: Word, data: seq<Byte>, b: Byte)
    requires Generator(poly) && |crc| == |poly|
    ensures Feed(poly, crc, data + [b]) == ByteStep(poly, Feed(poly, crc, data), b)
    decreases |data|
  {
    if data != [] {
      assert (data + [b])[1..] == data[1..] + [b];
      FeedLast(poly, ByteStep(poly, crc, data[0]), data[1..], b);
    }
  }

  lemma {:induction false} FeedNext(poly: Word, crc: Word, data: seq<Byte>, k: nat)
    requires Generator(poly) && |crc| == |poly| && k < |data|
    ensures Feed(poly, crc, data[..k + 1]) == ByteStep(poly, Feed(poly, crc, data[..k]), data[k])
  {
    SplitAt(data, k);
    FeedLast(poly, crc, data[..k], data[k]);
  }

  lemma {:induction false} LowIndex(low: Word)
    requires |low| == 8
    ensures Value(low) < 256
  {
    ValueBound(low);
    assert Pow2(8) == 256;
  }

  lemma {:induction false} TableStep(poly: Word, table: seq<Word>, data: seq<Byte>, k: nat, crc: Word, low: Word)
    requires TableOk(poly, table) && k < |data| && |crc| == |poly|
    requires crc == Feed(poly, Ones(|poly|), data[..k])
    requires low == Xor(crc, Of(data[k], |poly|))[..8]
    ensures Value(low) < 256 && |table[Value(low)]| == |poly|
    ensures Xor(Shr(crc, 8), table[Value(low)]) == Feed(poly, Ones(|poly|), data[..k + 1])
  {
    LowIndex(low);
    FeedNext(poly, Ones(|poly|), data, k);
    LookupStep(poly, crc, data[k], low, table[Value(low)]);
  }

  /** The byte loop over the table computes the bit-at-a-time division. */
  method Checksum(poly: Word, table: seq<Word>, data: seq<Byte>) returns (r: Word)
    requires TableOk(poly, table)
    ensures r == Reference(poly, data)
  {
    var crc := Ones(|poly|);
    var k := 0;
    while k < |data|
      invariant 0 <= k <= |data| && |crc| == |poly|
      invariant crc == Feed(poly, Ones(|poly|), data[..k])
    {
      var low := Xor(crc, Of(data[k], |poly|))[..8];
      TableStep(poly, table, data, k, crc, low);
      crc := Xor(Shr(crc, 8), table[Value(low)]);
      k := k + 1;
    }
    assert data[..k] == data;
    FeedIsDivide(poly, Ones(|poly|), data);
    r := Xor(crc, Ones(|poly|));
  }
}
