/** Iteration over concurrent_hash_map.h and the splitting of its ranges, with no concurrent
    change of the table. */
module HashRange {
  import opened HashIndex
  import opened HashPlacement
  import opened HashSegments
  import opened Options

  /** What an iterator can see: the segment table, its blocks, and the bucket of every index. */
  datatype View<K, V> = View(tab: seq<Pointer>, blocks: seq<nat>, k: nat, buckets: seq<Bucket<K, V>>)

  ghost predicate WellFormed<K, V>(v: View<K, V>) {
    Layout(v.tab, v.blocks, v.k) && |v.buckets| == Pow2(v.k)
  }

  /** The nodes of bucket `i`; an unfilled bucket has none. */
  function Here<K, V>(v: View<K, V>, i: nat): seq<Node<K, V>>
    requires i < |v.buckets|
  {
    if v.buckets[i].Chain? then v.buckets[i].nodes else []
  }

  /** The nodes of the buckets i .. j-1, in order. */
  function Between<K, V>(v: View<K, V>, i: nat, j: nat): seq<Node<K, V>>
    requires i <= j <= |v.buckets|
    decreases j - i
  {
    if i == j then [] else Here(v, i) + Between(v, i + 1, j)
  }

  /** The chain of the bucket at an address. */
  function ChainAt<K, V>(v: View<K, V>, p: Pointer): (list: seq<Node<K, V>>)
    requires WellFormed(v) && IsSlot(v.blocks, p)
    ensures forall i: nat :: i < |v.buckets| && Addresses(v, p, i) ==> list == Here(v, i)
  {
    SlotHasBucket(v.tab, v.blocks, v.k, p);
    Here(v, IndexAt(p))
  }

  // ----- Iterators -------------------------------------------------------------------

  /** my_index, my_bucket, my_node, and the place of that node in its chain. */
  datatype Iter<K, V> = Iter(index: nat, bucket: Pointer, node: Option<Node<K, V>>, at: nat)

  /** Is `p` the address of bucket `i`? */
  ghost predicate Addresses<K, V>(v: View<K, V>, p: Pointer, i: nat) {
    IsSlot(v.blocks, p) && IndexAt(p) == i
  }

  ghost predicate ValidIter<K, V>(v: View<K, V>, it: Iter<K, V>) {
    if it.index < |v.buckets| then
      && Addresses(v, it.bucket, it.index)
      && it.at < |Here(v, it.index)| && it.node == Some(Here(v, it.index)[it.at])
    else
      it.index == |v.buckets| && it.bucket == Null && it.node == None && it.at == 0
  }

  ghost predicate EmptyBetween<K, V>(v: View<K, V>, i: nat, j: nat) {
    forall b: nat :: i <= b < j && b < |v.buckets| ==> Here(v, b) == []
  }

  lemma {:induction false} SkipEmpty<K, V>(v: View<K, V>, i: nat, j: nat, e: nat)
    requires i <= j <= e <= |v.buckets| && EmptyBetween(v, i, j)
    ensures Between(v, i, e) == Between(v, j, e)
    decreases j - i
  {
    if i < j { SkipEmpty(v, i + 1, j, e); }
  }

  lemma StopsAt<K, V>(v: View<K, V>, i: nat, j: nat, e: nat)
    requires EmptyBetween(v, i, j) && i <= e && j <= |v.buckets|
    requires e < |v.buckets| ==> Here(v, e) != []
    ensures j <= e
  {
  }

  /** The address arithmetic of advance_to_next_bucket leads to bucket `k`. */
  lemma StepAddress<K, V>(v: View<K, V>, p: Pointer, k: nat, w: nat)
    requires WellFormed(v) && 1 <= k < |v.buckets| && v.k <= w && Addresses(v, p, k - 1)
    ensures SegmentTest(k, w) != 0 ==> Addresses(v, Plus(p, 1), k)
  {
    hide Layout, SegmentTest, Pow2, SegmentIndexOf, SegmentBase, IsSlot, IndexAt;
    LayoutBits(v.tab, v.blocks, v.k);
    Pow2Monotone(v.k, w);
    SegmentStart(k, w);
    if SegmentTest(k, w) != 0 {
      if k == 1 {
        NextInEmbedded(v.tab, v.blocks, v.k, p);
      } else {
        NextInSegment(v.tab, v.blocks, v.k, k, p);
      }
    }
  }

  lemma NextInSegment(tab: seq<Pointer>, blocks: seq<nat>, k: nat, i: nat, p: Pointer)
    requires Layout(tab, blocks, k) && IsSlot(blocks, p) && 1 <= i < Pow2(k) && IndexAt(p) == i - 1
    requires i != SegmentBase(SegmentIndexOf(i))
    ensures IsSlot(blocks, Plus(p, 1)) && IndexAt(Plus(p, 1)) == i
  {
    hide Layout, Pow2, SegmentIndexOf, SegmentBase, IsSlot, IndexAt, BucketAt;
    NextAddress(tab, blocks, k, i);
    SlotHasBucket(tab, blocks, k, p);
    BucketHasSlot(tab, blocks, k, i);
  }

  lemma NextInEmbedded(tab: seq<Pointer>, blocks: seq<nat>, k: nat, p: Pointer)
    requires Layout(tab, blocks, k) && IsSlot(blocks, p) && IndexAt(p) == 0
    ensures IsSlot(blocks, Plus(p, 1)) && IndexAt(Plus(p, 1)) == 1
  {
    Pow2Monotone(0, p.block + 6);
  }

  /** get_bucket */
  function GetBucket<K, V>(v: View<K, V>, i: nat): (p: Pointer)
    requires WellFormed(v) && i < |v.buckets|
    ensures Addresses(v, p, i)
  {
    BucketHasSlot(v.tab, v.blocks, v.k, i);
    BucketAt(v.tab, i)
  }

  const WORD: nat := 64

  /** advance_to_next_bucket, from the bucket `index` at address `bucket`. */
  method AdvanceToNextBucket<K, V>(v: View<K, V>, index: nat, bucket: Pointer) returns (it: Iter<K, V>)
    requires WellFormed(v) && v.k <= WORD && index < |v.buckets| && Addresses(v, bucket, index)
    ensures ValidIter(v, it) && it.at == 0 && index < it.index && EmptyBetween(v, index + 1, it.index)
  {
    hide Layout, SegmentTest;
    var k, b := index + 1, bucket;
    while k < |v.buckets|
      invariant index < k <= |v.buckets| && EmptyBetween(v, index + 1, k) && Addresses(v, b, k - 1)
    {
      StepAddress(v, b, k, WORD);
      b := if SegmentTest(k, WORD) != 0 then Plus(b, 1) else GetBucket(v, k);
      var list := ChainAt(v, b);
      if list != [] {
        return Iter(k, b, Some(list[0]), 0);
      }
      k := k + 1;
    }
    return Iter(k, Null, None, 0);
  }

  /** The iterator at the head of bucket `i`, or at the first node after it. */
  method IteratorFrom<K, V>(v: View<K, V>, i: nat) returns (it: Iter<K, V>)
    requires WellFormed(v) && v.k <= WORD && i < |v.buckets|
    ensures ValidIter(v, it) && it.at == 0 && i <= it.index && EmptyBetween(v, i, it.index)
  {
    var b := GetBucket(v, i);
    var list := ChainAt(v, b);
    if list != [] {
      it := Iter(i, b, Some(list[0]), 0);
    } else {
      it := AdvanceToNextBucket(v, i, b);
    }
  }

  /** The nodes from the iterator to the head of bucket `e`. */
  ghost function Remaining<K, V>(v: View<K, V>, it: Iter<K, V>, e: nat): seq<Node<K, V>>
    requires ValidIter(v, it) && it.index <= e <= |v.buckets|
  {
    if it.index == e then [] else Here(v, it.index)[it.at..] + Between(v, it.index + 1, e)
  }

  /** operator++ */
  method Increment<K, V>(v: View<K, V>, it: Iter<K, V>, ghost e: nat) returns (it': Iter<K, V>)
    requires WellFormed(v) && v.k <= WORD && ValidIter(v, it) && it.index < e <= |v.buckets|
    requires e == |v.buckets| || Here(v, e) != []
    ensures ValidIter(v, it') && it.index <= it'.index <= e && (it'.index == e ==> it'.at == 0)
    ensures Remaining(v, it, e) == [it.node.value] + Remaining(v, it', e)
  {
    hide Layout, IsSlot, IndexAt, Remaining, Between, EmptyBetween;
    var list := ChainAt(v, it.bucket);
    RemainingStep(v, it, e);
    if it.at + 1 < |list| {
      it' := it.(node := Some(list[it.at + 1]), at := it.at + 1);
    } else {
      it' := AdvanceToNextBucket(v, it.index, it.bucket);
      StopsAt(v, it.index + 1, it'.index, e);
      SkipEmpty(v, it.index + 1, it'.index, e);
      RemainingAtHead(v, it', e);
    }
  }

  lemma RemainingStep<K, V>(v: View<K, V>, it: Iter<K, V>, e: nat)
    requires ValidIter(v, it) && it.index < e <= |v.buckets|
    ensures var list := Here(v, it.index);
      if it.at + 1 < |list| then
        Remaining(v, it, e) == [it.node.value] + Remaining(v, it.(node := Some(list[it.at + 1]), at := it.at + 1), e)
      else
        Remaining(v, it, e) == [it.node.value] + Between(v, it.index + 1, e)
  {
    var list := Here(v, it.index);
    assert list[it.at..] == [list[it.at]] + list[it.at + 1..];
    if it.at + 1 < |list| {
      assert Remaining(v, it, e) == [list[it.at]] + (list[it.at + 1..] + Between(v, it.index + 1, e));
    } else {
      assert list[it.at..] == [list[it.at]];
    }
  }

  lemma RemainingAtHead<K, V>(v: View<K, V>, it: Iter<K, V>, e: nat)
    requires ValidIter(v, it) && it.at == 0 && it.index <= e <= |v.buckets|
    ensures Remaining(v, it, e) == Between(v, it.index, e)
  {
    if it.index < e { assert Here(v, it.index)[0..] == Here(v, it.index); }
  }

  // ----- Ranges ----------------------------------------------------------------------

  datatype Range<K, V> = Range(begin: Iter<K, V>, end: Iter<K, V>, midpoint: Iter<K, V>, grainsize: nat)

  ghost predicate HeadAt<K, V>(v: View<K, V>, it: Iter<K, V>) {
    ValidIter(v, it) && it.at == 0
  }

  ghost predicate ValidRange<K, V>(v: View<K, V>, r: Range<K, V>) {
    && HeadAt(v, r.begin) && HeadAt(v, r.end) && HeadAt(v, r.midpoint) && 0 < r.grainsize
    && r.begin.index <= r.midpoint.index <= r.end.index
    && (r.begin.index == r.end.index || r.begin.index < r.midpoint.index)
  }

  /** A range that cannot be divided is short, or has nothing in its second half. */
  ghost predicate DividedFairly<K, V>(v: View<K, V>, r: Range<K, V>) {
    r.midpoint == r.end && r.begin.index <= r.end.index ==>
      || r.end.index - r.begin.index <= r.grainsize
      || EmptyBetween(v, r.begin.index + (r.end.index - r.begin.index) / 2, r.end.index)
  }

  ghost function NodesOf<K, V>(v: View<K, V>, r: Range<K, V>): seq<Node<K, V>>
    requires ValidRange(v, r)
  {
    Between(v, r.begin.index, r.end.index)
  }

  /** set_midpoint */
  method SetMidpoint<K, V>(v: View<K, V>, r: Range<K, V>) returns (r': Range<K, V>)
    requires WellFormed(v) && v.k <= WORD && 0 < r.grainsize
    requires HeadAt(v, r.begin) && HeadAt(v, r.end) && r.begin.index <= r.end.index
    ensures r' == r.(midpoint := r'.midpoint) && ValidRange(v, r') && DividedFairly(v, r')
  {
    var m := r.end.index - r.begin.index;
    if m > r.grainsize {
      m := r.begin.index + m / 2;
      var mid := IteratorFrom(v, m);
      StopsAt(v, m, mid.index, r.end.index);
      r' := r.(midpoint := mid);
    } else {
      r' := r.(midpoint := r.end);
    }
  }

  /** range(): the whole table. */
  method WholeRange<K, V>(v: View<K, V>, grainsize: nat) returns (r: Range<K, V>)
    requires WellFormed(v) && v.k <= WORD && 0 < grainsize
    ensures ValidRange(v, r) && DividedFairly(v, r) && NodesOf(v, r) == Between(v, 0, |v.buckets|)
  {
    var begin := IteratorFrom(v, 0);
    var end := Iter(|v.buckets|, Null, None, 0);
    r := SetMidpoint(v, Range(begin, end, end, grainsize));
    SkipEmpty(v, 0, begin.index, |v.buckets|);
  }

  predicate IsDivisible<K(==), V(==)>(r: Range<K, V>) {
    r.midpoint.node != r.end.node
  }

  predicate IsEmpty<K(==), V(==)>(r: Range<K, V>) {
    r.begin.node == r.end.node
  }

  /** Different places hold different nodes. */
  ghost predicate AllDifferent<K, V>(v: View<K, V>) {
    forall i: nat, a: nat, j: nat, b: nat ::
      i < |v.buckets| && j < |v.buckets| && a < |Here(v, i)| && b < |Here(v, j)| && Here(v, i)[a] == Here(v, j)[b] ==>
        i == j && a == b
  }

  lemma SamePlace<K, V>(v: View<K, V>, x: Iter<K, V>, y: Iter<K, V>)
    requires AllDifferent(v) && ValidIter(v, x) && ValidIter(v, y)
    ensures x.node == y.node <==> x.index == y.index && x.at == y.at
  {
  }

  /** The splitting constructor: `r` keeps the first part, the new range gets the rest. */
  method Split<K(==), V(==)>(v: View<K, V>, r: Range<K, V>) returns (left: Range<K, V>, right: Range<K, V>)
    requires WellFormed(v) && v.k <= WORD && AllDifferent(v) && ValidRange(v, r) && IsDivisible(r)
    ensures ValidRange(v, left) && ValidRange(v, right) && DividedFairly(v, left) && DividedFairly(v, right)
    ensures !IsEmpty(left) && !IsEmpty(right)
    ensures NodesOf(v, r) == NodesOf(v, left) + NodesOf(v, right)
    ensures left.begin == r.begin && left.end == right.begin && right.end == r.end
    ensures left.begin.index < left.end.index < right.end.index
  {
    SamePlace(v, r.midpoint, r.end);
    right := SetMidpoint(v, Range(r.midpoint, r.end, r.midpoint, r.grainsize));
    left := SetMidpoint(v, r.(end := r.midpoint));
    BetweenParts(v, r.begin.index, r.midpoint.index, r.end.index);
    SamePlace(v, left.begin, left.end);
    SamePlace(v, right.begin, right.end);
  }

  lemma {:induction false} BetweenParts<K, V>(v: View<K, V>, i: nat, m: nat, j: nat)
    requires i <= m <= j <= |v.buckets|
    ensures Between(v, i, j) == Between(v, i, m) + Between(v, m, j)
    decreases m - i
  {
    if i < m { BetweenParts(v, i + 1, m, j); }
  }

  /** Which of the pieces that come up are split further. */
  datatype Plan = Keep | Halve(left: Plan, right: Plan)

  ghost function Concat<K, V>(v: View<K, V>, ps: seq<Range<K, V>>): seq<Node<K, V>>
    requires forall i :: 0 <= i < |ps| ==> ValidRange(v, ps[i])
  {
    if ps == [] then [] else NodesOf(v, ps[0]) + Concat(v, ps[1..])
  }

  lemma {:induction false} ConcatParts<K, V>(v: View<K, V>, a: seq<Range<K, V>>, b: seq<Range<K, V>>)
    requires forall i :: 0 <= i < |a| ==> ValidRange(v, a[i])
    requires forall i :: 0 <= i < |b| ==> ValidRange(v, b[i])
    ensures Concat(v, a + b) == Concat(v, a) + Concat(v, b)
  {
    if a == [] {
      assert a + b == b;
    } else {
      assert (a + b)[1..] == a[1..] + b;
      ConcatParts(v, a[1..], b);
    }
  }

  /** Any recursive splitting: the pieces are valid, none is empty unless the range was, and
      together they are the range, in order. */
  method Pieces<K(==), V(==)>(v: View<K, V>, r: Range<K, V>, plan: Plan) returns (ps: seq<Range<K, V>>)
    requires WellFormed(v) && v.k <= WORD && AllDifferent(v) && ValidRange(v, r)
    ensures forall i :: 0 <= i < |ps| ==> ValidRange(v, ps[i]) && (IsEmpty(ps[i]) ==> IsEmpty(r))
    ensures Concat(v, ps) == NodesOf(v, r)
    decreases plan
  {
    hide Layout, AllDifferent, NodesOf;
    if plan.Keep? || !IsDivisible(r) {
      ps := [r];
      assert ps[1..] == [];
    } else {
      var left, right := Split(v, r);
      var a := Pieces(v, left, plan.left);
      var b := Pieces(v, right, plan.right);
      ConcatParts(v, a, b);
      ps := a + b;
    }
  }

  /** The loop over a range: begin() to end(). */
  method Visit<K(==), V(==)>(v: View<K, V>, r: Range<K, V>) returns (visited: seq<Node<K, V>>)
    requires WellFormed(v) && v.k <= WORD && AllDifferent(v) && ValidRange(v, r)
    ensures visited == NodesOf(v, r)
  {
    hide Layout, AllDifferent;
    visited := [];
    var it := r.begin;
    ghost var e := r.end.index;
    RemainingAtHead(v, it, e);
    while it.node != r.end.node
      invariant ValidIter(v, it) && it.index <= e && (it.index == e ==> it.at == 0)
      invariant visited + Remaining(v, it, e) == NodesOf(v, r)
      decreases |Remaining(v, it, e)|
    {
      SamePlace(v, it, r.end);
      visited := visited + [it.node.value];
      it := Increment(v, it, e);
    }
    SamePlace(v, it, r.end);
  }

  // ----- Every node exactly once -----------------------------------------------------

  lemma {:induction false} BetweenMembers<K, V>(v: View<K, V>, i: nat, j: nat, n: Node<K, V>)
    requires i <= j <= |v.buckets|
    ensures n in Between(v, i, j) <==> exists b: nat :: i <= b < j && n in Here(v, b)
    decreases j - i
  {
    if i < j { BetweenMembers(v, i + 1, j, n); }
  }

  ghost predicate NoDuplicates<T>(s: seq<T>) {
    forall a, b :: 0 <= a < b < |s| ==> s[a] != s[b]
  }

  lemma JoinNoDuplicates<T>(x: seq<T>, y: seq<T>)
    requires NoDuplicates(x) && NoDuplicates(y) && forall n :: n in x ==> n !in y
    ensures NoDuplicates(x + y)
  {
    forall a, b | 0 <= a < b < |x + y| ensures (x + y)[a] != (x + y)[b] {
      if a < |x| <= b { assert x[a] in x && y[b - |x|] in y; }
    }
  }

  lemma {:induction false} BetweenNoDuplicates<K, V>(v: View<K, V>, i: nat, j: nat)
    requires i <= j <= |v.buckets| && AllDifferent(v)
    ensures NoDuplicates(Between(v, i, j))
    decreases j - i
  {
    if i < j {
      BetweenNoDuplicates(v, i + 1, j);
      forall n | n in Here(v, i) ensures n !in Between(v, i + 1, j) {
        BetweenMembers(v, i + 1, j, n);
      }
      JoinNoDuplicates(Here(v, i), Between(v, i + 1, j));
    }
  }

  /** The iteration over the whole table meets every stored node once and nothing else,
      whichever buckets are still unfilled. */
  lemma IterationIsComplete<K(!new), V(!new)>(hash: K -> nat, t: Table<K, V>, all: set<Node<K, V>>, v: View<K, V>)
    requires Placed(hash, t, all) && t.pending == {} && v.buckets == t.buckets
    ensures NoDuplicates(Between(v, 0, |v.buckets|))
    ensures forall n :: n in Between(v, 0, |v.buckets|) <==> n in all
  {
    BetweenNoDuplicates(v, 0, |v.buckets|);
    forall n ensures n in Between(v, 0, |v.buckets|) <==> n in all {
      BetweenMembers(v, 0, |v.buckets|, n);
      if b: nat :| b < |v.buckets| && n in Here(v, b) { assert b in Ready(t); }
      if n in all { assert n in Here(v, HomeOf(hash, t, n.key)); }
    }
  }

  /** Two pieces of a splitting share no node. */
  lemma PiecesShareNothing<K, V>(v: View<K, V>, ps: seq<Range<K, V>>, a: nat, b: nat)
    requires forall i :: 0 <= i < |ps| ==> ValidRange(v, ps[i])
    requires NoDuplicates(Concat(v, ps)) && a < b < |ps|
    ensures forall n :: n in NodesOf(v, ps[a]) ==> n !in NodesOf(v, ps[b])
  {
    if a == 0 {
      forall n | n in NodesOf(v, ps[0]) ensures n !in NodesOf(v, ps[b]) {
        if n in NodesOf(v, ps[b]) {
          PieceInConcat(v, ps[1..], b - 1, n);
          TwiceInBoth(NodesOf(v, ps[0]), Concat(v, ps[1..]), n);
        }
      }
    } else {
      TailNoDuplicates(NodesOf(v, ps[0]), Concat(v, ps[1..]));
      PiecesShareNothing(v, ps[1..], a - 1, b - 1);
    }
  }

  lemma TailNoDuplicates<T>(x: seq<T>, y: seq<T>)
    requires NoDuplicates(x + y)
    ensures NoDuplicates(y)
  {
    forall a, b | 0 <= a < b < |y| ensures y[a] != y[b] {
      assert (x + y)[|x| + a] == y[a] && (x + y)[|x| + b] == y[b];
    }
  }

  lemma TwiceInBoth<T>(x: seq<T>, y: seq<T>, n: T)
    requires n in x && n in y
    ensures !NoDuplicates(x + y)
  {
    var a :| 0 <= a < |x| && x[a] == n;
    var b :| 0 <= b < |y| && y[b] == n;
    assert (x + y)[a] == (x + y)[|x| + b];
  }

  lemma {:induction false} PieceInConcat<K, V>(v: View<K, V>, ps: seq<Range<K, V>>, b: nat, n: Node<K, V>)
    requires forall i :: 0 <= i < |ps| ==> ValidRange(v, ps[i])
    requires b < |ps| && n in NodesOf(v, ps[b])
    ensures n in Concat(v, ps)
  {
    if b > 0 { PieceInConcat(v, ps[1..], b - 1, n); }
  }
}
