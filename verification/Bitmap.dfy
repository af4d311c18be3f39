/**
 * The block bitmap (`fs/lemonfs/bitmap.rs`): whole blocks of 4096 bits are kept as `Free` or `Full`,
 * others as bytes. Its meaning is a flat array of bits, and through `dataStart` a set of used sectors.
 */
module Bitmap {
  import opened Basics
  import opened Bits
  import opened BitmapBlock
  import opened Disk
  import opened SectorView

  datatype BlockState = Free | Full | Mixed(bytes: Bytes)
  // ----- The meaning of a bitmap -----

  function Bit(s: BlockState, k: nat): bool
    requires k < BITS_PER_BLOCK
  {
    match s
    case Free => false
    case Full => true
    case Mixed(b) => Get(b, k)
  }

  function BlockBits(s: BlockState): (r: Word)
    ensures |r| == BITS_PER_BLOCK && forall k {:trigger r[k]} :: 0 <= k < BITS_PER_BLOCK ==> r[k] == Bit(s, k)
  {
    seq(BITS_PER_BLOCK, k requires 0 <= k < BITS_PER_BLOCK => Bit(s, k))
  }

  /** The flat view: all bits of the bitmap in order. */
  function Flat(blocks: seq<BlockState>): (r: Word)
    ensures |r| == BITS_PER_BLOCK * |blocks|
  {
    if blocks == [] then [] else Flat(blocks[..|blocks| - 1]) + BlockBits(blocks[|blocks| - 1])
  }

  lemma {:induction false} FlatAt(blocks: seq<BlockState>, b: nat, k: nat)
    requires b < |blocks| && k < BITS_PER_BLOCK
    ensures BITS_PER_BLOCK * b + k < |Flat(blocks)| && Flat(blocks)[BITS_PER_BLOCK * b + k] == Bit(blocks[b], k)
    decreases |blocks|
  {
    var last := |blocks| - 1;
    if b < last {
      FlatAt(blocks[..last], b, k);
    }
  }

  lemma SplitIndex(n: nat, count: nat)
    requires n < BITS_PER_BLOCK * count
    ensures n == BITS_PER_BLOCK * (n / BITS_PER_BLOCK) + n % BITS_PER_BLOCK
    ensures n / BITS_PER_BLOCK < count && n % BITS_PER_BLOCK < BITS_PER_BLOCK
  {
  }

  // ----- Canonical form -----

  /** A block of equal bits is never held as bytes. */
  predicate Tidy(s: BlockState)
  {
    s.Mixed? ==> !(forall i :: 0 <= i < 512 ==> s.bytes[i] == 0) && !(forall i :: 0 <= i < 512 ==> s.bytes[i] == 255)
  }

  predicate Canonical(blocks: seq<BlockState>)
  {
    forall i :: 0 <= i < |blocks| ==> Tidy(blocks[i])
  }

  /** Tidy blocks are determined by their bits. */
  lemma TidyUnique(s: BlockState, t: BlockState)
    requires Tidy(s) && Tidy(t)
    requires forall k {:trigger Bit(s, k)} {:trigger Bit(t, k)} :: 0 <= k < BITS_PER_BLOCK ==> Bit(s, k) == Bit(t, k)
    ensures s == t
  {
    assert Bit(s, 0) == Bit(t, 0);
    if s.Mixed? && t.Mixed? {
      forall k {:trigger Get(s.bytes, k)} | 0 <= k < BITS_PER_BLOCK
        ensures Get(s.bytes, k) == Get(t.bytes, k)
      {
        assert Bit(s, k) == Bit(t, k);
      }
      SameBits(s.bytes, t.bytes);
    } else if s.Mixed? {
      MixedVaries(s, t.Full?);
    } else if t.Mixed? {
      MixedVaries(t, s.Full?);
    }
  }

  /** A tidy block held as bytes has a bit of either value. */
  lemma MixedVaries(s: BlockState, v: bool)
    requires Tidy(s) && s.Mixed?
    ensures exists k {:trigger Bit(s, k)} :: 0 <= k < BITS_PER_BLOCK && Bit(s, k) != v
  {
    Uniform(s.bytes, v);
    var k :| 0 <= k < BITS_PER_BLOCK && Get(s.bytes, k) != v;
    assert Bit(s, k) != v;
  }

  /** Two canonical bitmaps with the same bits are the same bitmap. */
  lemma {:induction false} CanonicalUnique(a: seq<BlockState>, b: seq<BlockState>)
    requires Canonical(a) && Canonical(b) && Flat(a) == Flat(b)
    ensures a == b
  {
    forall i | 0 <= i < |a|
      ensures a[i] == b[i]
    {
      forall k {:trigger Bit(a[i], k)} {:trigger Bit(b[i], k)} | 0 <= k < BITS_PER_BLOCK
        ensures Bit(a[i], k) == Bit(b[i], k)
      {
        FlatAt(a, i, k);
        FlatAt(b, i, k);
      }
      TidyUnique(a[i], b[i]);
    }
  }

  // ----- Assigning one bit -----

  /** `collapse`: bytes of one value become `Free` or `Full`. */
  function Collapsed(s: BlockState): BlockState
  {
    if !s.Mixed? then s
    else if forall i :: 0 <= i < 512 ==> s.bytes[i] == 0 then Free
    else if forall i :: 0 <= i < 512 ==> s.bytes[i] == 255 then Full
    else s
  }

  lemma CollapsedOk(s: BlockState)
    ensures Tidy(Collapsed(s))
    ensures forall k {:trigger Bit(Collapsed(s), k)} :: 0 <= k < BITS_PER_BLOCK ==> Bit(Collapsed(s), k) == Bit(s, k)
  {
    if s.Mixed? {
      Uniform(s.bytes, false);
      Uniform(s.bytes, true);
    }
  }

  /** `materialize`: the bytes of a block that is not yet held as bytes. */
  function BytesOf(s: BlockState): Bytes
  {
    match s
    case Free => Filled(0)
    case Full => Filled(255)
    case Mixed(b) => b
  }

  lemma BytesOfOk(s: BlockState)
    ensures forall k {:trigger Bit(s, k)} :: 0 <= k < BITS_PER_BLOCK ==> Get(BytesOf(s), k) == Bit(s, k)
  {
    if !s.Mixed? {
      Uniform(BytesOf(s), s.Full?);
    }
  }

  /** `set_bit` and `clear_bit` on the block concerned. */
  function Assigned(s: BlockState, k: nat, v: bool): BlockState
    requires k < BITS_PER_BLOCK
  {
    if (v && s.Full?) || (!v && s.Free?) then s else Collapsed(Mixed(Assign(BytesOf(s), k, v)))
  }

  lemma AssignedOk(s: BlockState, k: nat, v: bool, j: nat)
    requires k < BITS_PER_BLOCK && j < BITS_PER_BLOCK && Tidy(s)
    ensures Tidy(Assigned(s, k, v)) && Bit(Assigned(s, k, v), j) == if j == k then v else Bit(s, j)
  {
    BytesOfOk(s);
    GetAssign(BytesOf(s), k, v, j);
    CollapsedOk(Mixed(Assign(BytesOf(s), k, v)));
  }

  function AssignBit(blocks: seq<BlockState>, n: nat, v: bool): (r: seq<BlockState>)
    requires n < |Flat(blocks)|
    ensures |r| == |blocks|
  {
    var b := n / BITS_PER_BLOCK;
    blocks[b := Assigned(blocks[b], n % BITS_PER_BLOCK, v)]
  }

  /** Assigning a bit changes that bit of the flat view alone and keeps the bitmap canonical. */
  lemma {:induction false} AssignBitOk(blocks: seq<BlockState>, n: nat, v: bool)
    requires n < |Flat(blocks)| && Canonical(blocks)
    ensures Canonical(AssignBit(blocks, n, v)) && Flat(AssignBit(blocks, n, v)) == Flat(blocks)[n := v]
  {
    var after := AssignBit(blocks, n, v);
    AssignedOk(blocks[n / BITS_PER_BLOCK], n % BITS_PER_BLOCK, v, 0);
    forall m | 0 <= m < |Flat(blocks)|
      ensures Flat(after)[m] == Flat(blocks)[n := v][m]
    {
      AssignBitAt(blocks, n, v, m, n / BITS_PER_BLOCK, n % BITS_PER_BLOCK, m / BITS_PER_BLOCK, m % BITS_PER_BLOCK);
    }
  }

  lemma AssignBitAt(blocks: seq<BlockState>, n: nat, v: bool, m: nat, b: nat, k: nat, c: nat, j: nat)
    requires n < |Flat(blocks)| && m < |Flat(blocks)| && Canonical(blocks)
    requires b == n / BITS_PER_BLOCK && k == n % BITS_PER_BLOCK && c == m / BITS_PER_BLOCK && j == m % BITS_PER_BLOCK
    ensures Flat(blocks[b := Assigned(blocks[b], k, v)])[m] == if m == n then v else Flat(blocks)[m]
  {
    SplitIndex(n, |blocks|);
    SplitIndex(m, |blocks|);
    FlatAt(blocks, c, j);
    FlatAt(blocks[b := Assigned(blocks[b], k, v)], c, j);
    AssignedOk(blocks[b], k, v, j);
  }

  // ----- The search -----

  /** The length of the free run that ends just before bit `e`. */
  function RunBefore(bits: Word, e: nat): (r: nat)
    requires e <= |bits|
    ensures r <= e
  {
    if e == 0 || bits[e - 1] then 0 else 1 + RunBefore(bits, e - 1)
  }

  /** The length of the free run that ends with block `b`. */
  function RunAt(bits: Word, b: nat): nat
    requires BITS_PER_BLOCK * (b + 1) <= |bits|
  {
    RunBefore(bits, BITS_PER_BLOCK * (b + 1))
  }

  /** The first of the blocks `[b, n)` that ends a free run of at least `count`. */
  function FirstBoundary(bits: Word, n: nat, count: nat, b: nat): (r: Option<nat>)
    requires |bits| == BITS_PER_BLOCK * n && b <= n
    ensures r.Some? ==> b <= r.value < n
    decreases n - b
  {
    if b == n then None
    else if RunAt(bits, b) >= count then Some(b)
    else FirstBoundary(bits, n, count, b + 1)
  }

  /** Where `find_first_fit` places `count` bits: at the start of the run that ends at the first fitting boundary. */
  function FirstFit(bits: Word, n: nat, count: nat): Option<nat>
    requires |bits| == BITS_PER_BLOCK * n
  {
    if count == 0 then None
    else match FirstBoundary(bits, n, count, 0)
      case None => None
      case Some(b) => Some(BITS_PER_BLOCK * (b + 1) - RunAt(bits, b))
  }

  lemma {:induction false} FirstBoundaryOk(bits: Word, n: nat, count: nat, b: nat)
    requires |bits| == BITS_PER_BLOCK * n && b <= n
    ensures FirstBoundary(bits, n, count, b).None? <==> forall c {:trigger RunAt(bits, c)} :: b <= c < n ==> RunAt(bits, c) < count
    ensures var r := FirstBoundary(bits, n, count, b); r.Some? ==> RunAt(bits, r.value) >= count
    decreases n - b
  {
    if b < n {
      FirstBoundaryOk(bits, n, count, b + 1);
    }
  }

  lemma {:induction false} RunBits(bits: Word, e: nat, m: nat)
    requires e <= |bits| && e - RunBefore(bits, e) <= m < e
    ensures !bits[m]
    decreases e
  {
    if m < e - 1 {
      RunBits(bits, e - 1, m);
    }
  }

  /** The bits found are free; none are found exactly when no free run of that length ends a block. */
  lemma FirstFitOk(bits: Word, n: nat, count: nat)
    requires count > 0 && |bits| == BITS_PER_BLOCK * n
    ensures FirstFit(bits, n, count).None? <==> forall c {:trigger RunAt(bits, c)} :: 0 <= c < n ==> RunAt(bits, c) < count
    ensures FirstFit(bits, n, count).Some? ==> FitsAt(bits, FirstFit(bits, n, count).value, count)
  {
    FirstBoundaryOk(bits, n, count, 0);
    var f := FirstBoundary(bits, n, count, 0);
    if f.Some? {
      var e := BITS_PER_BLOCK * (f.value + 1);
      forall m | e - RunBefore(bits, e) <= m < e
        ensures !bits[m]
      {
        RunBits(bits, e, m);
      }
    }
  }

  predicate FitsAt(bits: Word, s: nat, count: nat)
  {
    s + count <= |bits| && forall m :: s <= m < s + count ==> !bits[m]
  }

  /**
   * The search is not a complete first fit. Where the last bit is used, as on every mounted volume, nothing in the
   * last block is ever found, whatever is free there; a bitmap of one block yields nothing at all.
   */
  lemma LastBlockNeverFound(bits: Word, n: nat, count: nat)
    requires |bits| == BITS_PER_BLOCK * n && n > 0 && bits[|bits| - 1] && count > 0
    ensures FirstFit(bits, n, count).Some? ==> FirstFit(bits, n, count).value + count <= BITS_PER_BLOCK * (n - 1)
  {
    FirstBoundaryOk(bits, n, count, 0);
    RunStopped(bits, BITS_PER_BLOCK * n, BITS_PER_BLOCK * n - 1);
  }

  /** A block of free bits extends the run by its size. */
  lemma {:induction false} RunThroughFree(bits: Word, e: nat, n: nat)
    requires e + n <= |bits| && forall m :: e <= m < e + n ==> !bits[m]
    ensures RunBefore(bits, e + n) == RunBefore(bits, e) + n
    decreases n
  {
    if n > 0 {
      RunThroughFree(bits, e, n - 1);
    }
  }

  lemma {:induction false} FreeBlockRun(blocks: seq<BlockState>, b: nat)
    requires b < |blocks| && blocks[b] == Free
    ensures RunAt(Flat(blocks), b) == RunBefore(Flat(blocks), BITS_PER_BLOCK * b) + BITS_PER_BLOCK
  {
    var e, bits := BITS_PER_BLOCK * b, Flat(blocks);
    forall m | e <= m < e + BITS_PER_BLOCK
      ensures !bits[m]
    {
      FlatAt(blocks, b, m - e);
    }
    RunThroughFree(bits, e, BITS_PER_BLOCK);
  }

  lemma {:induction false} RunStopped(bits: Word, e: nat, last: nat)
    requires e <= |bits| && last + 1 == e && bits[last]
    ensures RunBefore(bits, e) == 0
  {
  }

  lemma {:induction false} FullBlockRun(blocks: seq<BlockState>, b: nat)
    requires b < |blocks| && blocks[b] == Full
    ensures RunAt(Flat(blocks), b) == 0
  {
    FlatAt(blocks, b, BITS_PER_BLOCK - 1);
    RunStopped(Flat(blocks), BITS_PER_BLOCK * (b + 1), BITS_PER_BLOCK * b + (BITS_PER_BLOCK - 1));
  }

  /** One bit further, a run ends at a used bit and grows by a free one. */
  lemma MixedBitRun(blocks: seq<BlockState>, block: nat, b: Bytes, bit: nat, e: nat)
    requires block < |blocks| && blocks[block] == Mixed(b) && bit < BITS_PER_BLOCK && e == BITS_PER_BLOCK * block + bit
    ensures e < |Flat(blocks)|
    ensures RunBefore(Flat(blocks), e + 1) == if Get(b, bit) then 0 else RunBefore(Flat(blocks), e) + 1
  {
    FlatAt(blocks, block, bit);
  }

  /** The length of the free run that ends the first block. */
  function Room(bits: Word): nat
  {
    if |bits| < BITS_PER_BLOCK then 0 else RunBefore(bits, BITS_PER_BLOCK)
  }

  /** As long as there is room, a search for one bit finds the start of that run, and taking it leaves room for one less. */
  lemma RoomTaken(bits: Word, n: nat)
    requires |bits| == BITS_PER_BLOCK * n && Room(bits) > 0
    ensures FirstFit(bits, n, 1) == Some(BITS_PER_BLOCK - Room(bits))
    ensures Room(Fill(bits, BITS_PER_BLOCK - Room(bits), 1, true)) == Room(bits) - 1
  {
    var run := Room(bits);
    var k: nat := BITS_PER_BLOCK - run;
    var after := Fill(bits, k, 1, true);
    assert RunAt(bits, 0) == run;
    forall m | k <= m < BITS_PER_BLOCK ensures !bits[m] { RunBits(bits, BITS_PER_BLOCK, m); }
    RunStopped(after, k + 1, k);
    RunThroughFree(after, k + 1, run - 1);
  }

  lemma RoomAfter(bits: Word, n: nat, after: Word)
    requires |bits| == BITS_PER_BLOCK * n
    requires var found := FirstFit(bits, n, 1); found.Some? ==> found.value < |bits| && after == Fill(bits, found.value, 1, true)
    ensures Room(bits) > 0 ==> FirstFit(bits, n, 1).Some? && Room(after) == Room(bits) - 1
  {
    if Room(bits) > 0 { RoomTaken(bits, n); }
  }

  /** Freeing bits leaves at least as much room. */
  lemma {:induction false} RunGrows(bits: Word, after: Word, e: nat)
    requires |after| == |bits| && e <= |bits| && forall m {:trigger after[m]} :: 0 <= m < |bits| && !bits[m] ==> !after[m]
    ensures RunBefore(after, e) >= RunBefore(bits, e)
    decreases e
  {
    if e > 0 && !bits[e - 1] { RunGrows(bits, after, e - 1); }
  }

  /** Bits that are free to the end of the first block are room. */
  lemma RoomFrom(bits: Word, k: nat)
    requires |bits| >= BITS_PER_BLOCK && k <= BITS_PER_BLOCK && forall m {:trigger bits[m]} :: k <= m < BITS_PER_BLOCK ==> !bits[m]
    ensures Room(bits) >= BITS_PER_BLOCK - k
  {
    RunThroughFree(bits, k, BITS_PER_BLOCK - k);
  }

  /** Where the first block is free from bit `k` on, and not before it, that bit is found. */
  lemma FirstFitAt(bits: Word, n: nat, k: nat)
    requires |bits| == BITS_PER_BLOCK * n && n > 0 && k < BITS_PER_BLOCK && (k == 0 || bits[k - 1])
    requires forall m {:trigger bits[m]} :: k <= m < BITS_PER_BLOCK ==> !bits[m]
    ensures FirstFit(bits, n, 1) == Some(k)
  {
    var run := BITS_PER_BLOCK - k;
    if k > 0 { RunStopped(bits, k, k - 1); }
    RunThroughFree(bits, k, run);
    assert RunAt(bits, 0) == run;
  }

  // ----- Runs of bits and used sectors -----

  /** The bits with `count` of them from `lo` on set to `v`. */
  function Fill(bits: Word, lo: nat, count: nat, v: bool): (r: Word)
    requires lo + count <= |bits|
    ensures |r| == |bits| && forall m {:trigger r[m]} :: 0 <= m < |bits| ==> r[m] == if lo <= m < lo + count then v else bits[m]
  {
    seq(|bits|, m requires 0 <= m < |bits| => if lo <= m < lo + count then v else bits[m])
  }

  lemma FillStep(bits: Word, lo: nat, count: nat, v: bool)
    requires lo + count < |bits|
    ensures Fill(bits, lo, count, v)[lo + count := v] == Fill(bits, lo, count + 1, v)
  {
  }

  lemma FillNone(bits: Word, lo: nat, v: bool)
    requires lo <= |bits|
    ensures Fill(bits, lo, 0, v) == bits
  {
  }

  /** Taking free bits and giving them back leaves the very same bitmap. */
  lemma {:induction false} TakeAndGiveBack(before: seq<BlockState>, mid: seq<BlockState>, after: seq<BlockState>, lo: nat, count: nat)
    requires Canonical(before) && Canonical(after) && FitsAt(Flat(before), lo, count)
    requires Flat(mid) == Fill(Flat(before), lo, count, true) && Flat(after) == Fill(Flat(mid), lo, count, false)
    ensures after == before
  {
    assert Flat(after) == Flat(before);
    CanonicalUnique(after, before);
  }

  predicate SectorUsed(bits: Word, dataStart: nat, lba: nat)
  {
    dataStart <= lba < dataStart + |bits| && bits[lba - dataStart]
  }

  ghost function UsedSectors(bits: Word, dataStart: nat): set<nat>
  {
    set lba: nat | dataStart <= lba < dataStart + |bits| && SectorUsed(bits, dataStart, lba)
  }

  lemma UsedAfterFill(bits: Word, dataStart: nat, lo: nat, count: nat, v: bool)
    requires lo + count <= |bits|
    ensures forall x {:trigger x in UsedSectors(bits, dataStart)} {:trigger x in UsedSectors(Fill(bits, lo, count, v), dataStart)} ::
      x in UsedSectors(Fill(bits, lo, count, v), dataStart) <==>
      if dataStart + lo <= x < dataStart + lo + count then v else x in UsedSectors(bits, dataStart)
  {
  }

  class BitmapAllocator {
    var blocks: seq<BlockState>
    const dataStart: nat

    constructor (dataStart: nat)
      ensures blocks == [] && this.dataStart == dataStart && Canonical(blocks)
    {
      blocks := [];
      this.dataStart := dataStart;
    }

    ghost predicate Valid()
      reads this
    {
      Canonical(blocks)
    }

    /** The sectors marked used. */
    ghost function Used(): set<nat>
      reads this
    {
      UsedSectors(Flat(blocks), dataStart)
    }

    // ----- One bit -----

    method Collapse(i: nat)
      requires i < |blocks|
      modifies this
      ensures blocks == old(blocks)[i := Collapsed(old(blocks)[i])]
    {
      match blocks[i]
      case Mixed(b) =>
        if forall k :: 0 <= k < 512 ==> b[k] == 0 {
          blocks := blocks[i := Free];
        } else if forall k :: 0 <= k < 512 ==> b[k] == 255 {
          blocks := blocks[i := Full];
        }
      case _ =>
    }

    method Materialize(i: nat)
      requires i < |blocks| && !blocks[i].Mixed?
      modifies this
      ensures blocks == old(blocks)[i := Mixed(BytesOf(old(blocks)[i]))]
    {
      var fill := if blocks[i].Free? then 0 else 255;
      blocks := blocks[i := Mixed(Filled(fill))];
    }

    method SetBit(bit: nat)
      requires Valid() && bit < |Flat(blocks)|
      modifies this
      ensures Valid() && Flat(blocks) == old(Flat(blocks))[bit := true]
    {
      AssignBitOk(blocks, bit, true);
      var b, index := bit / BITS_PER_BLOCK, bit % BITS_PER_BLOCK;
      if blocks[b].Full? { assert blocks == AssignBit(blocks, bit, true); return; }
      if !blocks[b].Mixed? { Materialize(b); }
      blocks := blocks[b := Mixed(Assign(blocks[b].bytes, index, true))];
      Collapse(b);
      assert blocks == AssignBit(old(blocks), bit, true);
    }

    method ClearBit(bit: nat)
      requires Valid() && bit < |Flat(blocks)|
      modifies this
      ensures Valid() && Flat(blocks) == old(Flat(blocks))[bit := false]
    {
      AssignBitOk(blocks, bit, false);
      var b, index := bit / BITS_PER_BLOCK, bit % BITS_PER_BLOCK;
      if blocks[b].Free? { assert blocks == AssignBit(blocks, bit, false); return; }
      if !blocks[b].Mixed? { Materialize(b); }
      blocks := blocks[b := Mixed(Assign(blocks[b].bytes, index, false))];
      Collapse(b);
      assert blocks == AssignBit(old(blocks), bit, false);
    }

    // ----- Runs of bits -----

    method FindFirstFit(count: nat) returns (r: Option<nat>)
      ensures r == FirstFit(Flat(blocks), |blocks|, count)
    {
      if count == 0 { return None; }
      ghost var bits, n := Flat(blocks), |blocks|;
      var start: Option<nat>, run := None, 0;
      for block := 0 to |blocks|
        invariant run == RunBefore(bits, BITS_PER_BLOCK * block)
        invariant start == if run == 0 then None else Some(BITS_PER_BLOCK * block - run)
        invariant FirstBoundary(bits, n, count, 0) == FirstBoundary(bits, n, count, block)
      {
        match blocks[block] {
          case Free =>
            if start.None? { start := Some(block * BITS_PER_BLOCK); }
            FreeBlockRun(blocks, block);
            run := run + BITS_PER_BLOCK;
          case Full =>
            start, run := None, 0;
            FullBlockRun(blocks, block);
          case Mixed(b) =>
            start, run := ScanMixed(blocks, block, b, start, run);
        }
        if run >= count { return start; }
      }
      r := None;
    }

    static method ScanMixed(blocks: seq<BlockState>, block: nat, b: Bytes, start0: Option<nat>, run0: nat)
        returns (start: Option<nat>, run: nat)
      requires block < |blocks| && blocks[block] == Mixed(b) && run0 == RunBefore(Flat(blocks), BITS_PER_BLOCK * block)
      requires start0 == if run0 == 0 then None else Some(BITS_PER_BLOCK * block - run0)
      ensures run == RunAt(Flat(blocks), block) && start == if run == 0 then None else Some(BITS_PER_BLOCK * (block + 1) - run)
    {
      start, run := start0, run0;
      ghost var bits := Flat(blocks);
      var base := BITS_PER_BLOCK * block;
      for bit := 0 to BITS_PER_BLOCK
        invariant run == RunBefore(bits, base + bit)
        invariant start == if run == 0 then None else Some(base + bit - run)
      {
        MixedBitRun(blocks, block, b, bit, base + bit);
        if Get(b, bit) {
          run, start := 0, None;
        } else {
          if start.None? { start := Some(base + bit); }
          run := run + 1;
        }
      }
    }

    /** Take `count` sectors: they were free, they are now used, and nothing else changes. */
    method Alloc(count: nat) returns (r: Option<nat>)
      requires Valid()
      modifies this
      ensures Valid() && |blocks| == |old(blocks)|
      ensures r.None? ==> FirstFit(Flat(old(blocks)), |blocks|, count).None? && blocks == old(blocks)
      ensures r.Some? ==> dataStart <= r.value && FirstFit(Flat(old(blocks)), |blocks|, count) == Some(r.value - dataStart)
      ensures r.Some? ==> FitsAt(Flat(old(blocks)), r.value - dataStart, count)
      ensures r.Some? ==> Flat(blocks) == Fill(Flat(old(blocks)), r.value - dataStart, count, true)
      ensures r.Some? ==> forall x {:trigger x in old(Used())} :: r.value <= x < r.value + count ==> x !in old(Used())
      ensures r.Some? ==> forall x {:trigger x in Used()} {:trigger x in old(Used())} ::
        x in Used() <==> x in old(Used()) || r.value <= x < r.value + count
    {
      var found := FindFirstFit(count);
      if found.None? { return None; }
      var start := found.value;
      ghost var before := Flat(blocks);
      FirstFitOk(before, |blocks|, count);
      FillNone(before, start, true);
      for x := 0 to count
        invariant Valid() && |blocks| == |old(blocks)| && Flat(blocks) == Fill(before, start, x, true)
      {
        FillStep(before, start, x, true);
        SetBit(x + start);
      }
      UsedAfterFill(before, dataStart, start, count, true);
      r := Some(start + dataStart);
    }

    /** Give back `count` sectors. */
    method FreeSectors(start: nat, count: nat)
      requires Valid() && dataStart <= start && start + count <= dataStart + |Flat(blocks)|
      modifies this
      ensures Valid() && |blocks| == |old(blocks)|
      ensures Flat(blocks) == Fill(Flat(old(blocks)), start - dataStart, count, false)
      ensures forall x {:trigger x in Used()} {:trigger x in old(Used())} ::
        x in Used() <==> x in old(Used()) && !(start <= x < start + count)
    {
      var base := start - dataStart;
      ghost var before := Flat(blocks);
      FillNone(before, base, false);
      for x := 0 to count
        invariant Valid() && |blocks| == |old(blocks)| && Flat(blocks) == Fill(before, base, x, false)
      {
        FillStep(before, base, x, false);
        ClearBit(x + base);
      }
      UsedAfterFill(before, dataStart, base, count, false);
    }

    /** Mark every sector after `lba` as used. */
    method ReserveFrom(lba: nat)
      requires Valid()
      modifies this
      ensures Valid() && |blocks| == |old(blocks)|
      ensures lba < dataStart ==> blocks == old(blocks)
      ensures lba >= dataStart ==> forall x {:trigger x in Used()} {:trigger x in old(Used())} ::
        x in Used() <==> x in old(Used()) || lba < x < dataStart + |Flat(blocks)|
    {
      if lba < dataStart { return; }
      var from, end := lba - dataStart + 1, |blocks| * BITS_PER_BLOCK;
      ghost var before := Flat(blocks);
      if from < end {
        FillNone(before, from, true);
        for bit := from to end
          invariant Valid() && |blocks| == |old(blocks)| && Flat(blocks) == Fill(before, from, bit - from, true)
        {
          FillStep(before, from, bit - from, true);
          SetBit(bit);
        }
        UsedAfterFill(before, dataStart, from, end - from, true);
      }
    }

    /** Taking sectors and giving them back leaves the same bitmap. */
    method AllocThenFree(count: nat) returns (r: Option<nat>)
      requires Valid()
      modifies this
      ensures blocks == old(blocks)
    {
      ghost var before := blocks;
      r := Alloc(count);
      if r.Some? {
        ghost var mid := blocks;
        FreeSectors(r.value, count);
        TakeAndGiveBack(before, mid, blocks, r.value - dataStart, count);
      }
    }

    // ----- On disk -----

    /** A block read from the disk joins the bitmap. */
    method AddBlock(b: Bytes)
      requires Valid()
      modifies this
      ensures Valid() && blocks == old(blocks) + [Collapsed(Mixed(b))]
    {
      blocks := blocks + [Mixed(b)];
      CollapsedOk(Mixed(b));
      Collapse(|blocks| - 1);
    }

    /** Write every block of the bitmap to its sector. */
    method Sync(disk: Disk, bitmapStart: nat) returns (r: FsResult<()>)
      requires bitmapStart + |blocks| <= |disk.sectors|
      modifies disk
      ensures r.Success? && |disk.sectors| == |old(disk.sectors)|
      ensures forall k {:trigger disk.sectors[k]} :: 0 <= k < |disk.sectors| ==>
        disk.sectors[k] == if bitmapStart <= k < bitmapStart + |blocks| then Sector(BytesOf(blocks[k - bitmapStart])) else old(disk.sectors)[k]
    {
      ghost var before := disk.sectors;
      for i := 0 to |blocks|
        invariant |disk.sectors| == |before|
        invariant forall k {:trigger disk.sectors[k]} :: 0 <= k < |before| ==>
          disk.sectors[k] == if bitmapStart <= k < bitmapStart + i then Sector(BytesOf(blocks[k - bitmapStart])) else before[k]
      {
        r := disk.WriteSector(i + bitmapStart, Sector(BytesOf(blocks[i])));
      }
      r := Success(());
    }

    /** The bitmap part of `init`: read `[bitmapStart, dataStart)` into an empty bitmap. */
    method Load(disk: Disk, bitmapStart: nat) returns (r: FsResult<()>)
      requires blocks == [] && bitmapStart <= dataStart <= |disk.sectors|
      requires forall k {:trigger disk.sectors[k]} :: bitmapStart <= k < dataStart ==> |disk.sectors[k].bytes| == 512
      modifies this
      ensures r.Success? && Valid() && |blocks| == dataStart - bitmapStart
      ensures forall i {:trigger blocks[i]} :: 0 <= i < |blocks| ==> blocks[i] == Collapsed(Mixed(disk.sectors[bitmapStart + i].bytes))
    {
      for block := bitmapStart to dataStart
        invariant Valid() && |blocks| == block - bitmapStart
        invariant forall i {:trigger blocks[i]} :: 0 <= i < |blocks| ==> blocks[i] == Collapsed(Mixed(disk.sectors[bitmapStart + i].bytes))
      {
        var b := disk.ReadSector(block);
        AddBlock(b.value.bytes);
      }
      r := Success(());
    }
  }

  /** A block written out and read back is the same block. */
  lemma ReloadSame(s: BlockState)
    requires Tidy(s)
    ensures Collapsed(Mixed(BytesOf(s))) == s
  {
    var t := Collapsed(Mixed(BytesOf(s)));
    CollapsedOk(Mixed(BytesOf(s)));
    BytesOfOk(s);
    forall k {:trigger Bit(t, k)} {:trigger Bit(s, k)} | 0 <= k < BITS_PER_BLOCK
      ensures Bit(t, k) == Bit(s, k)
    {
    }
    TidyUnique(t, s);
  }

  /** A volume's bitmap written by `Sync` and read by `Load` is the same bitmap. */
  method SyncThenLoad(a: BitmapAllocator, disk: Disk, bitmapStart: nat) returns (b: BitmapAllocator)
    requires a.Valid() && bitmapStart + |a.blocks| == a.dataStart <= |disk.sectors|
    modifies disk
    ensures fresh(b) && b.blocks == a.blocks
  {
    var written := a.Sync(disk, bitmapStart);
    b := new BitmapAllocator(a.dataStart);
    assert forall k {:trigger disk.sectors[k]} :: bitmapStart <= k < a.dataStart ==> |disk.sectors[k].bytes| == 512;
    var loaded := b.Load(disk, bitmapStart);
    forall i | 0 <= i < |a.blocks|
      ensures b.blocks[i] == a.blocks[i]
    {
      assert disk.sectors[bitmapStart + i] == Sector(BytesOf(a.blocks[i]));
      ReloadSame(a.blocks[i]);
    }
  }

  // ----- A mounted volume hands out data sectors only -----

  /** Everything from `dataEnd` on is marked used, as `init` leaves it by `reserve_from(data_end - 1)`. */
  predicate Bounded(bits: Word, dataStart: nat, dataEnd: nat)
  {
    dataStart <= dataEnd && forall m :: dataEnd - dataStart <= m < |bits| ==> bits[m]
  }

  lemma AllocWithinData(bits: Word, dataStart: nat, dataEnd: nat, start: nat, count: nat)
    requires Bounded(bits, dataStart, dataEnd) && count > 0 && FitsAt(bits, start, count)
    ensures dataStart <= dataStart + start && dataStart + start + count <= dataEnd
    ensures Bounded(Fill(bits, start, count, true), dataStart, dataEnd)
  {
    assert !bits[start + count - 1];
  }

  lemma FreeKeepsBounded(bits: Word, dataStart: nat, dataEnd: nat, start: nat, count: nat)
    requires Bounded(bits, dataStart, dataEnd) && start + count <= |bits| && dataStart + start + count <= dataEnd
    ensures Bounded(Fill(bits, start, count, false), dataStart, dataEnd)
  {
  }
}
