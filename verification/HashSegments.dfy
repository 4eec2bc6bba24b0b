/** Where the buckets of concurrent_hash_map.h are in memory: the table of segment pointers,
    the segments that share the first block, and the address of the bucket of an index.

    The claim is that get_bucket is a bijection between the indices up to the mask and the
    allocated slots, and that a bucket never changes its address. */
module HashSegments {
  import opened HashIndex

  const EMBEDDED_BLOCK: nat := 1
  const EMBEDDED_BUCKETS: nat := 2
  const POINTERS_PER_TABLE: nat := 64

  /** A bucket address: an allocated block and an offset, which may lie outside the block while
      the pointers of the merged first segments are computed. */
  datatype Pointer = Null | At(block: nat, offset: int)

  /** index | 1 */
  function OrOne(i: nat): nat {
    i + 1 - i % 2
  }

  function SegmentIndexOf(i: nat): nat {
    Level(OrOne(i)) - 1
  }

  /** 1 << k, with its lowest bit cleared */
  function SegmentBase(k: nat): nat {
    Pow2(k) - Pow2(k) % 2
  }

  function SegmentSize(k: nat): nat {
    Pow2(k)
  }

  function Plus(p: Pointer, d: int): Pointer
    requires p.At?
  {
    At(p.block, p.offset + d)
  }

  lemma BaseIs(k: nat)
    ensures SegmentBase(k) == if k == 0 then 0 else Pow2(k)
  {
    if k > 0 { ModIs(Pow2(k), 2, Pow2(k - 1), 0); }
  }

  /** The segment of an index is the one whose range holds it. */
  lemma SegmentHolds(i: nat)
    ensures var s := SegmentIndexOf(i); SegmentBase(s) <= i < Pow2(s + 1)
  {
    var s := SegmentIndexOf(i);
    BaseIs(s);
    if 0 < s { ModIs(Pow2(s), 2, Pow2(s - 1), 0); }
  }

  lemma SegmentUnique(i: nat, s: nat)
    requires SegmentBase(s) <= i < Pow2(s + 1)
    ensures SegmentIndexOf(i) == s
  {
    var r := SegmentIndexOf(i);
    SegmentHolds(i);
    BaseIs(s);
    BaseIs(r);
    if r < s { Pow2Monotone(r + 1, s); }
    if s < r { Pow2Monotone(s + 1, r); }
  }

  // ----- The layout ------------------------------------------------------------------

  /** A table of k segments: the embedded block of two buckets, the block that segments 1 to 7
      share, and a block for every further segment. */
  ghost predicate Layout(tab: seq<Pointer>, blocks: seq<nat>, k: nat) {
    && |tab| == POINTERS_PER_TABLE && (k == EMBEDDED_BLOCK || FIRST_BLOCK <= k <= |tab|)
    && |blocks| == (if k == EMBEDDED_BLOCK then 1 else k - 6)
    && blocks[0] == EMBEDDED_BUCKETS && tab[0] == At(0, 0)
    && (1 < k ==> blocks[1] == Pow2(FIRST_BLOCK) - EMBEDDED_BUCKETS)
    && (forall i: nat :: 1 <= i < k && i < FIRST_BLOCK ==> tab[i] == At(1, Pow2(i) - 2))
    && (forall i: nat :: FIRST_BLOCK <= i < k ==> tab[i] == At(i - 6, 0) && blocks[i - 6] == Pow2(i))
    && (forall i: nat :: k <= i < |tab| ==> tab[i] == Null)
  }

  ghost predicate IsSlot(blocks: seq<nat>, p: Pointer) {
    p.At? && p.block < |blocks| && 0 <= p.offset < blocks[p.block]
  }

  /** get_bucket */
  function BucketAt(tab: seq<Pointer>, h: nat): Pointer
    requires SegmentIndexOf(h) < |tab| && tab[SegmentIndexOf(h)].At?
  {
    var s := SegmentIndexOf(h);
    Plus(tab[s], h - SegmentBase(s))
  }

  /** The index of the bucket at an address. */
  function IndexAt(p: Pointer): int
    requires p.At?
  {
    if p.block == 0 then p.offset
    else if p.block == 1 then p.offset + EMBEDDED_BUCKETS
    else p.offset + Pow2(p.block + 6)
  }

  lemma InUse(tab: seq<Pointer>, blocks: seq<nat>, k: nat, h: nat)
    requires Layout(tab, blocks, k) && h < Pow2(k)
    ensures SegmentIndexOf(h) < k && tab[SegmentIndexOf(h)].At?
  {
    var s := SegmentIndexOf(h);
    SegmentHolds(h);
    BaseIs(s);
    if k <= s { Pow2Monotone(k, s); }
  }

  /** Every index below the mask has a slot of an allocated block, and the index can be read
      off the slot: no two indices share one. */
  lemma BucketHasSlot(tab: seq<Pointer>, blocks: seq<nat>, k: nat, h: nat)
    requires Layout(tab, blocks, k) && h < Pow2(k)
    ensures SegmentIndexOf(h) < k && tab[SegmentIndexOf(h)].At?
    ensures IsSlot(blocks, BucketAt(tab, h)) && IndexAt(BucketAt(tab, h)) == h
  {
    var s := SegmentIndexOf(h);
    InUse(tab, blocks, k, h);
    SegmentHolds(h);
    BaseIs(s);
    if 1 <= s < FIRST_BLOCK { Pow2Monotone(s + 1, FIRST_BLOCK); }
  }

  lemma SlotIsBelow(tab: seq<Pointer>, blocks: seq<nat>, k: nat, p: Pointer)
    requires Layout(tab, blocks, k) && IsSlot(blocks, p)
    ensures 0 <= IndexAt(p) < Pow2(k)
  {
    if p.block == 0 {
      Pow2Monotone(1, k);
    } else if p.block == 1 {
      Pow2Monotone(FIRST_BLOCK, k);
    } else {
      Pow2Monotone(p.block + 7, k);
    }
  }

  lemma SlotSegment(tab: seq<Pointer>, blocks: seq<nat>, k: nat, p: Pointer)
    requires Layout(tab, blocks, k) && IsSlot(blocks, p) && 0 <= IndexAt(p)
    ensures var s := SegmentIndexOf(IndexAt(p));
      if p.block == 0 then s == 0 else if p.block == 1 then 1 <= s < FIRST_BLOCK else s == p.block + 6
  {
    if p.block == 0 {
      SegmentUnique(IndexAt(p), 0);
    } else if p.block == 1 {
      SegmentOfFirstBlock(IndexAt(p));
    } else {
      BaseIs(p.block + 6);
      SegmentUnique(IndexAt(p), p.block + 6);
    }
  }

  /** ... and every slot of every block is the bucket of an index below the mask. */
  lemma SlotHasBucket(tab: seq<Pointer>, blocks: seq<nat>, k: nat, p: Pointer)
    requires Layout(tab, blocks, k) && IsSlot(blocks, p)
    ensures 0 <= IndexAt(p) < Pow2(k)
    ensures SegmentIndexOf(IndexAt(p)) < k && tab[SegmentIndexOf(IndexAt(p))].At? && BucketAt(tab, IndexAt(p)) == p
  {
    hide SegmentIndexOf, Pow2, SegmentBase;
    SlotIsBelow(tab, blocks, k, p);
    InUse(tab, blocks, k, IndexAt(p));
    SlotSegment(tab, blocks, k, p);
    BaseIs(SegmentIndexOf(IndexAt(p)));
  }

  lemma SegmentOfFirstBlock(h: nat)
    requires 2 <= h < Pow2(FIRST_BLOCK)
    ensures 1 <= SegmentIndexOf(h) < FIRST_BLOCK
  {
    var s := SegmentIndexOf(h);
    SegmentHolds(h);
    BaseIs(s);
    if FIRST_BLOCK <= s { Pow2Monotone(FIRST_BLOCK, s); }
  }

  // ----- Stepping from bucket to bucket ----------------------------------------------

  /** a & b */
  function BitAnd(a: nat, b: nat): nat
    decreases a
  {
    if a == 0 then 0 else 2 * BitAnd(a / 2, b / 2) + (if a % 2 == 1 && b % 2 == 1 then 1 else 0)
  }

  /** k & (k-2) in words of w bits */
  function SegmentTest(k: nat, w: nat): nat
    requires 1 <= w
  {
    BitAnd(k, (k + Pow2(w) - 2) % Pow2(w))
  }

  lemma {:induction false} SharedTopBit(a: nat, b: nat, l: nat)
    requires Pow2(l) <= b <= a < Pow2(l + 1)
    ensures 0 < BitAnd(a, b)
  {
    if l > 0 { SharedTopBit(a / 2, b / 2, l - 1); }
  }

  lemma {:induction false} PowerAndBelow(l: nat, b: nat)
    requires b < Pow2(l)
    ensures BitAnd(Pow2(l), b) == 0
  {
    if l > 0 {
      assert Pow2(l) / 2 == Pow2(l - 1);
      PowerAndBelow(l - 1, b / 2);
    }
  }

  lemma OddBits(a: nat, b: nat)
    requires a % 2 == 1 && b % 2 == 1
    ensures 0 < BitAnd(a, b)
  {
  }

  lemma PowerIsEven(l: nat)
    requires 1 <= l
    ensures Pow2(l) % 2 == 0 && 2 <= Pow2(l)
  {
    ModIs(Pow2(l), 2, Pow2(l - 1), 0);
  }

  /** k & (k-2) vanishes exactly for the powers of two, from 2 on. */
  lemma PowerTest(k: nat, s: nat)
    requires 1 <= s && Pow2(s) <= k < Pow2(s + 1)
    ensures 2 <= k && (BitAnd(k, k - 2) == 0 <==> k == Pow2(s))
  {
    hide BitAnd;
    PowerIsEven(s);
    if k == Pow2(s) {
      PowerAndBelow(s, k - 2);
    } else if k == Pow2(s) + 1 {
      OddBits(k, k - 2);
    } else {
      SharedTopBit(k, k - 2, s);
    }
  }

  /** The test of advance_to_next_bucket is zero exactly at the first bucket of a segment. */
  lemma SegmentStart(k: nat, w: nat)
    requires 1 <= k < Pow2(w) && 1 <= w
    ensures SegmentTest(k, w) == 0 <==> 2 <= k && k == SegmentBase(SegmentIndexOf(k))
  {
    hide BitAnd, SegmentIndexOf, Pow2;
    PowerIsEven(w);
    var s := SegmentIndexOf(k);
    SegmentHolds(k);
    BaseIs(s);
    if k == 1 {
      MaskIdle(Pow2(w) - 1, w);
      OddBits(1, Pow2(w) - 1);
    } else {
      if s == 0 { assert Pow2(1) == 2 by { PowerOne(); } }
      MaskWraps(k - 2, w);
      PowerTest(k, s);
    }
  }

  lemma PowerOne()
    ensures Pow2(1) == 2
  {
  }

  lemma MaskWraps(x: nat, w: nat)
    requires x < Pow2(w)
    ensures (x + Pow2(w)) % Pow2(w) == x
  {
    ModIs(x + Pow2(w), Pow2(w), 1, x);
  }

  /** Within a segment the next bucket is at the next address. */
  lemma NextAddress(tab: seq<Pointer>, blocks: seq<nat>, k: nat, h: nat)
    requires Layout(tab, blocks, k) && 1 <= h < Pow2(k) && h != SegmentBase(SegmentIndexOf(h))
    ensures SegmentIndexOf(h - 1) == SegmentIndexOf(h) < k && tab[SegmentIndexOf(h)].At?
    ensures BucketAt(tab, h) == Plus(BucketAt(tab, h - 1), 1)
  {
    hide Layout, SegmentIndexOf, SegmentBase, Pow2;
    InUse(tab, blocks, k, h);
    SegmentHolds(h);
    SegmentUnique(h - 1, SegmentIndexOf(h));
  }

  lemma LayoutBits(tab: seq<Pointer>, blocks: seq<nat>, k: nat)
    requires Layout(tab, blocks, k)
    ensures 1 <= k <= POINTERS_PER_TABLE == |tab|
  {
  }

  // ----- Growing ---------------------------------------------------------------------

  lemma LayoutWithFirstBlock(tab: seq<Pointer>, tab': seq<Pointer>, blocks: seq<nat>)
    requires Layout(tab, blocks, EMBEDDED_BLOCK) && |tab'| == |tab| && tab'[0] == tab[0]
    requires forall j: nat :: 1 <= j < FIRST_BLOCK ==> tab'[j] == At(1, Pow2(j) - 2)
    requires forall j: nat :: FIRST_BLOCK <= j < |tab| ==> tab'[j] == tab[j]
    ensures Layout(tab', blocks + [Pow2(FIRST_BLOCK) - EMBEDDED_BUCKETS], FIRST_BLOCK)
  {
  }

  lemma LayoutWithSegment(tab: seq<Pointer>, blocks: seq<nat>, k: nat)
    requires Layout(tab, blocks, k) && FIRST_BLOCK <= k < |tab|
    ensures Layout(tab[k := At(|blocks|, 0)], blocks + [Pow2(k)], k + 1)
  {
  }

  class SegmentTable {
    const my_table: array<Pointer>
    var my_mask: nat
    var blocks: seq<nat>          // the sizes of the blocks allocated so far
    ghost var bits: nat

    ghost predicate Valid()
      reads this, my_table
    {
      Layout(my_table[..], blocks, bits) && my_mask == Pow2(bits) - 1
    }

    constructor ()
      ensures Valid() && my_mask == EMBEDDED_BUCKETS - 1 && fresh(my_table)
    {
      my_table := new Pointer[POINTERS_PER_TABLE](i => if i == 0 then At(0, 0) else Null);
      my_mask, blocks, bits := EMBEDDED_BUCKETS - 1, [EMBEDDED_BUCKETS], EMBEDDED_BLOCK;
    }

    method Allocate(sz: nat) returns (p: Pointer)
      modifies `blocks
      ensures p == At(|old(blocks)|, 0) && blocks == old(blocks) + [sz]
    {
      p := At(|blocks|, 0);
      blocks := blocks + [sz];
    }

    /** get_bucket(h) */
    method GetBucket(h: nat) returns (p: Pointer)
      requires Valid() && h <= my_mask
      ensures IsSlot(blocks, p) && IndexAt(p) == h
    {
      BucketHasSlot(my_table[..], blocks, bits, h);
      var s := SegmentIndexOf(h);
      p := Plus(my_table[s], h - SegmentBase(s));
    }

    /** enable_segment: allocate the segment, or the block of the first seven segments, and
        publish the larger mask.  No bucket that was there changes its address. */
    method EnableSegment(k: nat)
      requires Valid() && k == bits < POINTERS_PER_TABLE
      modifies this, my_table
      ensures Valid() && bits == (if k < FIRST_BLOCK then FIRST_BLOCK else k + 1) && old(my_mask) < my_mask
      ensures old(blocks) < blocks && my_table[..k] == old(my_table[..k])
    {
      hide Layout;
      LayoutBits(my_table[..], blocks, bits);
      var sz;
      if k >= FIRST_BLOCK {
        LayoutWithSegment(my_table[..], blocks, k);
        sz := SegmentSize(k);
        var p := Allocate(sz);
        my_table[k] := p;
        assert my_table[..] == old(my_table[..])[k := p];
        sz := 2 * sz;
        bits := k + 1;
      } else {
        assert k == EMBEDDED_BLOCK by { LayoutStarts(my_table[..], blocks, bits); }
        sz := SegmentSize(FIRST_BLOCK);
        FillFirstBlock(sz - EMBEDDED_BUCKETS);
        bits := FIRST_BLOCK;
      }
      my_mask := sz - 1;
    }

    /** The block of segments 1 to 7, and their pointers into it. */
    method FillFirstBlock(sz: nat)
      requires Layout(my_table[..], blocks, EMBEDDED_BLOCK) && sz == Pow2(FIRST_BLOCK) - EMBEDDED_BUCKETS
      modifies `blocks, my_table
      ensures Layout(my_table[..], blocks, FIRST_BLOCK) && blocks == old(blocks) + [sz]
        && my_table[0] == old(my_table[0])
    {
      hide Layout, SegmentBase, Pow2;
      LayoutBits(my_table[..], blocks, EMBEDDED_BLOCK);
      assert |blocks| == 1 by { LayoutStarts(my_table[..], blocks, EMBEDDED_BLOCK); }
      var p := Allocate(sz);
      BaseIs(EMBEDDED_BLOCK);
      PowerOne();
      p := Plus(p, -(SegmentBase(EMBEDDED_BLOCK) as int));
      for i := EMBEDDED_BLOCK to FIRST_BLOCK
        invariant blocks == old(blocks) + [sz]
        invariant forall j: nat :: EMBEDDED_BLOCK <= j < i ==> my_table[j] == At(1, Pow2(j) - 2)
        invariant my_table[0] == old(my_table[0]) && forall j :: i <= j < my_table.Length ==>
          my_table[j] == old(my_table[j])
      {
        BaseIs(i);
        my_table[i] := Plus(p, SegmentBase(i));
      }
      LayoutWithFirstBlock(old(my_table[..]), my_table[..], old(blocks));
    }
  }

  lemma LayoutStarts(tab: seq<Pointer>, blocks: seq<nat>, k: nat)
    requires Layout(tab, blocks, k)
    ensures k < FIRST_BLOCK ==> k == EMBEDDED_BLOCK && |blocks| == 1
  {
  }

  /** Enabling a segment leaves the buckets where they are. */
  lemma AddressesStay(tab: seq<Pointer>, tab': seq<Pointer>, blocks: seq<nat>, k: nat, h: nat)
    requires Layout(tab, blocks, k) && h < Pow2(k) && |tab'| == |tab| && tab'[..k] == tab[..k]
    ensures SegmentIndexOf(h) < k && tab[SegmentIndexOf(h)].At? && tab'[SegmentIndexOf(h)].At?
    ensures BucketAt(tab', h) == BucketAt(tab, h)
  {
    InUse(tab, blocks, k, h);
    assert tab'[SegmentIndexOf(h)] == tab'[..k][SegmentIndexOf(h)];
  }
}
