/** rehash() of concurrent_hash_map.h: reserve buckets and fill every bucket that is not
    filled yet, scanning only the last segment.  Not concurrent with other operations.

    One call of it does not do what it is for: on an emptied table that still has unfilled
    buckets, reserve() adds segments that count as filled, the scan of the last segment finds
    nothing to do, and the old markers stay.  Rehash states exactly when that happens. */
module HashRehash {
  import opened HashIndex
  import opened HashPlacement
  import opened HashTable
  import opened Options

  // ----- Scattering the nodes of one chain -------------------------------------------

  /** The nodes whose bucket under the full mask is `h`, in order. */
  function Staying<K, V>(hash: K -> nat, s: seq<Node<K, V>>, h: nat, mask: nat): seq<Node<K, V>> {
    if s == [] then []
    else if And(hash(s[|s|-1].key), mask) == h then Staying(hash, s[..|s|-1], h, mask) + [s[|s|-1]]
    else Staying(hash, s[..|s|-1], h, mask)
  }

  /** The nodes whose bucket under the full mask is `i`, each put at the front. */
  function Going<K, V>(hash: K -> nat, s: seq<Node<K, V>>, i: nat, mask: nat): seq<Node<K, V>> {
    if s == [] then []
    else if And(hash(s[|s|-1].key), mask) == i then [s[|s|-1]] + Going(hash, s[..|s|-1], i, mask)
    else Going(hash, s[..|s|-1], i, mask)
  }

  lemma {:induction false} ScatterMembers<K, V>(hash: K -> nat, s: seq<Node<K, V>>, i: nat, mask: nat, n: Node<K, V>)
    ensures n in Staying(hash, s, i, mask) <==> n in s && And(hash(n.key), mask) == i
    ensures n in Going(hash, s, i, mask) <==> n in s && And(hash(n.key), mask) == i
  {
    if s != [] {
      ScatterMembers(hash, s[..|s|-1], i, mask, n);
      assert s == s[..|s|-1] + [s[|s|-1]];
    }
  }

  lemma OtherKeysScattered<K, V>(hash: K -> nat, s: seq<Node<K, V>>, i: nat, mask: nat, x: Node<K, V>)
    requires forall j :: 0 <= j < |s| ==> s[j].key != x.key
    ensures forall j :: 0 <= j < |Staying(hash, s, i, mask)| ==> Staying(hash, s, i, mask)[j].key != x.key
    ensures forall j :: 0 <= j < |Going(hash, s, i, mask)| ==> Going(hash, s, i, mask)[j].key != x.key
  {
    forall j | 0 <= j < |Staying(hash, s, i, mask)| ensures Staying(hash, s, i, mask)[j].key != x.key {
      ScatterMembers(hash, s, i, mask, Staying(hash, s, i, mask)[j]);
    }
    forall j | 0 <= j < |Going(hash, s, i, mask)| ensures Going(hash, s, i, mask)[j].key != x.key {
      ScatterMembers(hash, s, i, mask, Going(hash, s, i, mask)[j]);
    }
  }

  lemma {:induction false} ScatterDistinct<K, V>(hash: K -> nat, s: seq<Node<K, V>>, i: nat, mask: nat)
    requires DistinctKeys(s)
    ensures DistinctKeys(Staying(hash, s, i, mask)) && DistinctKeys(Going(hash, s, i, mask))
  {
    if s != [] {
      var r, x := s[..|s|-1], s[|s|-1];
      ScatterDistinct(hash, r, i, mask);
      OtherKeysScattered(hash, r, i, mask, x);
      DistinctWith(Staying(hash, r, i, mask), x);
      DistinctWith(Going(hash, r, i, mask), x);
    }
  }

  // ----- Filling a whole subtree -----------------------------------------------------

  /** `t'` is `t` with the subtree `c` of `h` filled from the chain of `h`. */
  ghost predicate SubtreeFilled<K, V>(hash: K -> nat, t: Table<K, V>, h: nat, c: set<nat>, bs: seq<Bucket<K, V>>) {
    && |bs| == |t.buckets| && h < |bs| && t.buckets[h].Chain? && h !in c
    && bs[h] == Chain(Staying(hash, t.buckets[h].nodes, h, Pow2(t.k) - 1))
    && (forall i :: i in c ==> i < |bs| && bs[i] == Chain(Going(hash, t.buckets[h].nodes, i, Pow2(t.k) - 1)))
    && (forall i :: 0 <= i < |bs| && i != h && i !in c ==> bs[i] == t.buckets[i])
  }

  lemma SubtreeFilledShape<K, V>(hash: K -> nat, t: Table<K, V>, h: nat, bs: seq<Bucket<K, V>>)
    requires Shape(t) && h in Ready(t) && t.pending == Subtree(Ready(t), t.k, h)
    requires SubtreeFilled(hash, t, h, t.pending, bs)
    ensures var t' := t.(buckets := bs, pending := {}); Shape(t') && Ready(t') == Ready(t) + t.pending
  {
    var t' := t.(buckets := bs, pending := {});
    SubtreeClosed(Ready(t), t.floor, t.k, h);
    assert Ready(t') == Ready(t) + t.pending;
    forall i | 0 <= i < |bs| && bs[i].Chain? ensures DistinctKeys(bs[i].nodes) {
      ScatterDistinct(hash, t.buckets[h].nodes, i, Pow2(t.k) - 1);
    }
  }

  /** Every node of the subtree goes to the bucket of the full mask, and that is its home. */
  lemma SubtreeFilledPlaced<K(!new), V(!new)>(hash: K -> nat, t: Table<K, V>, all: set<Node<K, V>>, h: nat,
                                              bs: seq<Bucket<K, V>>)
    requires Placed(hash, t, all) && h in Ready(t) && t.pending == Subtree(Ready(t), t.k, h)
    requires SubtreeFilled(hash, t, h, t.pending, bs)
    ensures Placed(hash, t.(buckets := bs, pending := {}), all)
  {
    hide Subtree, Closed, Home;
    var t' := t.(buckets := bs, pending := {});
    SubtreeFilledShape(hash, t, h, bs);
    forall n: Node<K, V>
      ensures HomeOf(hash, t', n.key)
        == if HomeOf(hash, t, n.key) == h then hash(n.key) % Pow2(t.k) else HomeOf(hash, t, n.key)
    {
      HomeAfterSubtree(Ready(t), t.k, h, hash(n.key));
    }
    forall i, n | i in Ready(t') && n in bs[i].nodes ensures n in all && HomeOf(hash, t', n.key) == i {
      ScatterMembers(hash, t.buckets[h].nodes, i, Pow2(t.k) - 1, n);
      if i !in t.pending && i != h { assert i in Ready(t); }
    }
    forall n | n in all ensures HomeOf(hash, t', n.key) in Ready(t') && n in bs[HomeOf(hash, t', n.key)].nodes {
      StoredGoesHome(hash, t, all, h, bs, n);
    }
  }

  lemma StoredGoesHome<K(!new), V(!new)>(hash: K -> nat, t: Table<K, V>, all: set<Node<K, V>>, h: nat,
                                         bs: seq<Bucket<K, V>>, n: Node<K, V>)
    requires Placed(hash, t, all) && h in Ready(t) && t.pending == Subtree(Ready(t), t.k, h)
    requires SubtreeFilled(hash, t, h, t.pending, bs) && n in all
    ensures var t' := t.(buckets := bs, pending := {});
      HomeOf(hash, t', n.key) in Ready(t') && n in bs[HomeOf(hash, t', n.key)].nodes
  {
    var t' := t.(buckets := bs, pending := {});
    SubtreeFilledShape(hash, t, h, bs);
    HomeAfterSubtree(Ready(t), t.k, h, hash(n.key));
    HomeIsReady(Ready(t'), t.k, hash(n.key));
    ScatterMembers(hash, t.buckets[h].nodes, HomeOf(hash, t', n.key), Pow2(t.k) - 1, n);
  }

  // ----- Marking ---------------------------------------------------------------------

  ghost function Cleared<K, V>(bs: seq<Bucket<K, V>>): set<nat> {
    set i | 0 <= i < |bs| && bs[i].Chain?
  }

  lemma ClearedIs<K, V>(bs: seq<Bucket<K, V>>, c: nat)
    requires c < |bs|
    ensures c in Cleared(bs) <==> bs[c].Chain?
  {
  }

  lemma BelowLevel(h: nat, s: nat, k: nat)
    requires Level(h) <= s < k
    ensures h < Pow2(s) && h < h + Pow2(s) < Pow2(k) && 1 < h + Pow2(s)
  {
    Pow2Monotone(Level(h), s);
    Pow2Monotone(s + 1, k);
  }

  /** A child is not among the buckets of the lower branches. */
  lemma NotAmong(m0: set<nat>, k: nat, h: nat, s: nat)
    requires 1 <= s < k && h < Pow2(s) && h in m0
    ensures h + Pow2(s) in m0 + SubtreeBelow(m0, k, h, s) ==> h + Pow2(s) in m0
  {
    if h + Pow2(s) !in m0 { BranchIsNew(m0, k, h, s); }
  }

  /** The buckets that were filled already have not changed. */
  ghost predicate SameOn<K, V>(old': seq<Bucket<K, V>>, now: seq<Bucket<K, V>>, filled: set<nat>) {
    && |now| == |old'|
    && forall i :: 0 <= i < |now| && i in filled ==> now[i] == old'[i]
  }

  lemma SameOnSteps<K, V>(a: seq<Bucket<K, V>>, b: seq<Bucket<K, V>>, c: seq<Bucket<K, V>>, f: set<nat>, g: set<nat>)
    requires SameOn(a, b, f) && SameOn(b, c, g) && f <= g
    ensures SameOn(a, c, f)
  {
  }

  lemma SameOnStart<K, V>(a: seq<Bucket<K, V>>, f: set<nat>)
    ensures SameOn(a, a, f)
  {
  }

  /** The branches of `h` below level `s` are marked: `p` of them pending, `f` cleared. */
  ghost predicate LevelsMarked(m0: set<nat>, p0: set<nat>, k: nat, h: nat, s: nat, f: set<nat>, p: set<nat>) {
    1 <= k && m0 <= f && f == m0 + SubtreeBelow(m0, k, h, s) && p == p0 + SubtreeBelow(m0, k, h, s)
  }

  lemma MarkingStart(m0: set<nat>, p0: set<nat>, k: nat, h: nat)
    requires 1 <= k
    ensures LevelsMarked(m0, p0, k, h, Level(h), m0, p0)
  {
    NothingBelowYet(m0, k, h);
  }

  lemma MarkingSkips(m0: set<nat>, p0: set<nat>, k: nat, h: nat, s: nat, f: set<nat>, p: set<nat>)
    requires LevelsMarked(m0, p0, k, h, s, f, p) && 1 <= s < k && h < Pow2(s) && h in m0 && h + Pow2(s) in f
    ensures h + Pow2(s) in m0 && LevelsMarked(m0, p0, k, h, s + 1, f, p)
  {
    NotAmong(m0, k, h, s);
    FilledBranch(m0, k, h, s);
  }

  /** The bucket `c` and its subtree are marked as well. */
  ghost predicate ChildMarked(k: nat, c: nat, f: set<nat>, p: set<nat>, f': set<nat>, p': set<nat>) {
    1 <= k && f' == f + {c} + Subtree(f + {c}, k, c) && p' == p + {c} + Subtree(f + {c}, k, c)
  }

  lemma MarkingDescends(m0: set<nat>, p0: set<nat>, k: nat, h: nat, s: nat, f: set<nat>, p: set<nat>, f': set<nat>,
                        p': set<nat>)
    requires LevelsMarked(m0, p0, k, h, s, f, p) && 1 <= s < k && h < Pow2(s) && h in m0 && h + Pow2(s) !in f
    requires ChildMarked(k, h + Pow2(s), f, p, f', p')
    ensures m0 <= f && LevelsMarked(m0, p0, k, h, s + 1, f', p')
  {
    hide Subtree, SubtreeBelow;
    var c := h + Pow2(s);
    UnfilledBranchSets(m0, k, h, s);
  }

  /** mark_rehashed_levels: clear the markers of the whole subtree of `h`. */
  method MarkRehashedLevels<K(==,!new), V(!new)>(m: ConcurrentHashMap<K, V>, h: nat, ghost pending: set<nat>)
    returns (ghost pending': set<nat>)
    requires m.Inv(pending) && h < |m.buckets| && h in Cleared(m.buckets)
    modifies m`buckets
    ensures m.Inv(pending') && Ready(m.State(pending')) == old(Ready(m.State(pending)))
    ensures pending' == pending + Subtree(old(Cleared(m.buckets)), m.bits, h)
    ensures Cleared(m.buckets) == old(Cleared(m.buckets)) + Subtree(old(Cleared(m.buckets)), m.bits, h)
    ensures SameOn(old(m.buckets), m.buckets, old(Cleared(m.buckets)))
    decreases |m.buckets| - h, 0
  {
    hide Closed, Placed, Home, Subtree, SubtreeBelow, Ready, Cleared, Shape, SameOn, LevelsMarked, ChildMarked;
    ghost var m0 := Cleared(m.buckets);
    pending' := pending;
    var s := Log2(if h == 0 then 1 else h) + 1;
    m.InvGivesShape(pending);
    LevelLeast(h, m.bits);
    MarkingStart(m0, pending, m.bits, h);
    SameOnStart(m.buckets, m0);
    while s < m.SegmentCount()
      invariant Level(h) <= s <= m.bits
      invariant m.Inv(pending') && Ready(m.State(pending')) == old(Ready(m.State(pending)))
      invariant SameOn(old(m.buckets), m.buckets, m0) && |m.buckets| == |old(m.buckets)|
      invariant LevelsMarked(m0, pending, m.bits, h, s, Cleared(m.buckets), pending')
    {
      var c := h + Pow2(s);
      BelowLevel(h, s, m.bits);
      ClearedIs(m.buckets, c);
      if m.buckets[c].RehashReq? {
        ghost var b1, p1 := m.buckets, pending';
        pending' := MarkChild(m, c, pending');
        MarkingDescends(m0, pending, m.bits, h, s, Cleared(b1), p1, Cleared(m.buckets), pending');
        SameOnSteps(old(m.buckets), b1, m.buckets, m0, Cleared(b1));
      } else {
        MarkingSkips(m0, pending, m.bits, h, s, Cleared(m.buckets), pending');
      }
      s := s + 1;
    }
    MarkingEnd(m0, pending, m.bits, h, Cleared(m.buckets), pending');
  }

  lemma MarkingEnd(m0: set<nat>, p0: set<nat>, k: nat, h: nat, f: set<nat>, p: set<nat>)
    requires LevelsMarked(m0, p0, k, h, k, f, p) && h in m0
    ensures f == m0 + Subtree(m0, k, h) && p == p0 + Subtree(m0, k, h)
  {
    AllBelow(m0, k, h);
  }

  /** Clear the marker of one child and of everything below it. */
  method MarkChild<K(==,!new), V(!new)>(m: ConcurrentHashMap<K, V>, c: nat, ghost pending: set<nat>)
    returns (ghost pending': set<nat>)
    requires m.Inv(pending) && 1 < c < |m.buckets| && m.buckets[c].RehashReq?
    modifies m`buckets
    ensures m.Inv(pending') && Ready(m.State(pending')) == old(Ready(m.State(pending)))
    ensures ChildMarked(m.bits, c, old(Cleared(m.buckets)), pending, Cleared(m.buckets), pending')
    ensures SameOn(old(m.buckets), m.buckets, old(Cleared(m.buckets)))
    decreases |m.buckets| - c, 1
  {
    hide Closed, Placed, Home, Subtree, Ready;
    MarkKeeps(m.hash, m.State(pending), m.all, c);
    m.buckets := m.buckets[c := Chain([])];
    pending' := pending + {c};
    assert Cleared(m.buckets) == old(Cleared(m.buckets)) + {c};
    pending' := MarkRehashedLevels(m, c, pending');
  }

  // ----- rehash ----------------------------------------------------------------------

  /** The buckets after `t` nodes of `s`, the chain of `h`, were looked at. */
  ghost function Scattering<K, V>(hash: K -> nat, bs: seq<Bucket<K, V>>, c: set<nat>, s: seq<Node<K, V>>, h: nat,
                                  mask: nat,
                                  t: nat): (r: seq<Bucket<K, V>>)
    requires t <= |s|
    ensures |r| == |bs|
  {
    seq(|bs|, i requires 0 <= i < |bs| =>
      if i == h then Chain(Staying(hash, s[..t], h, mask) + s[t..])
      else if i in c then Chain(Going(hash, s[..t], i, mask))
      else bs[i])
  }

  lemma ScatteringStart<K, V>(hash: K -> nat, bs: seq<Bucket<K, V>>, c: set<nat>, h: nat, mask: nat)
    requires h < |bs| && bs[h].Chain? && forall i :: i in c ==> i < |bs| && bs[i] == Chain([])
    ensures Scattering(hash, bs, c, bs[h].nodes, h, mask, 0) == bs
    ensures Staying(hash, bs[h].nodes[..0], h, mask) == []
  {
    var s := bs[h].nodes;
    assert [] + s[0..] == s;
  }

  lemma ScatteringEnd<K, V>(hash: K -> nat, t0: Table<K, V>, c: set<nat>, h: nat, t: nat)
    requires h < |t0.buckets| && t0.buckets[h].Chain? && h !in c && (forall i :: i in c ==> i < |t0.buckets|)
    requires t <= |t0.buckets[h].nodes|
    requires var s := t0.buckets[h].nodes; var a := Staying(hash, s[..t], h, Pow2(t0.k) - 1); |a + s[t..]| <= |a|
    ensures SubtreeFilled(hash, t0, h, c, Scattering(hash, t0.buckets, c, t0.buckets[h].nodes, h, Pow2(t0.k) - 1, t))
  {
    var s := t0.buckets[h].nodes;
    assert t == |s| && s[..|s|] == s;
    assert Staying(hash, s, h, Pow2(t0.k) - 1) + s[|s|..] == Staying(hash, s, h, Pow2(t0.k) - 1);
  }

  /** What one turn does to the buckets. */
  ghost function ScatterOne<K, V>(hash: K -> nat, bs: seq<Bucket<K, V>>, h: nat, mask: nat, p: nat): seq<Bucket<K, V>>
    requires h < |bs| && bs[h].Chain? && p < |bs[h].nodes|
    requires var i := And(hash(bs[h].nodes[p].key), mask); i < |bs| && bs[i].Chain?
  {
    var q := bs[h].nodes[p];
    var i := And(hash(q.key), mask);
    if i == h then bs
    else bs[h := Chain(bs[h].nodes[..p] + bs[h].nodes[p+1..])][i := Chain([q] + bs[i].nodes)]
  }

  lemma ScatterLists<K, V>(hash: K -> nat, s: seq<Node<K, V>>, h: nat, mask: nat, t: nat, x: nat)
    requires t < |s|
    ensures Staying(hash, s[..t+1], h, mask) ==
      if And(hash(s[t].key), mask) == h then Staying(hash, s[..t], h, mask) + [s[t]] else Staying(hash, s[..t], h, mask)
    ensures Going(hash, s[..t+1], x, mask) ==
      if And(hash(s[t].key), mask) == x then [s[t]] + Going(hash, s[..t], x, mask) else Going(hash, s[..t], x, mask)
  {
    assert s[..t+1][..t] == s[..t];
  }

  lemma ScatterTurn<K, V>(hash: K -> nat, bs: seq<Bucket<K, V>>, c: set<nat>, s: seq<Node<K, V>>, h: nat, mask: nat,
                          t: nat)
    requires t < |s| && h < |bs| && h !in c && forall i :: i in c ==> i < |bs|
    requires And(hash(s[t].key), mask) in c + {h}
    ensures var a := Staying(hash, s[..t], h, mask);
      var r := Scattering(hash, bs, c, s, h, mask, t);
      var i := And(hash(s[t].key), mask);
      && r[h].Chain? && |a| < |r[h].nodes| && r[h].nodes[|a|] == s[t] && i < |r| && r[i].Chain?
      && Scattering(hash, bs, c, s, h, mask, t + 1) == ScatterOne(hash, r, h, mask, |a|)
      && |Staying(hash, s[..t+1], h, mask)| == if i == h then |a| + 1 else |a|
  {
    hide Staying, Going, And;
    ScatterLists(hash, s, h, mask, t, h);
    var r := Scattering(hash, bs, c, s, h, mask, t);
    forall x | 0 <= x < |bs|
      ensures Scattering(hash, bs, c, s, h, mask, t + 1)[x] ==
        ScatterOne(hash, r, h, mask, |Staying(hash, s[..t], h, mask)|)[x]
    {
      ScatterLists(hash, s, h, mask, t, x);
    }
  }

  /** Look at the node at position `p` of `h` and move it if its bucket is another one. */
  method ScatterNode<K(==,!new), V(!new)>(m: ConcurrentHashMap<K, V>, h: nat, p: nat) returns (moved: bool)
    requires h < |m.buckets| && m.buckets[h].Chain? && p < |m.buckets[h].nodes|
    requires var i := And(m.hash(m.buckets[h].nodes[p].key), m.mask); i < |m.buckets| && m.buckets[i].Chain?
    modifies m`buckets
    ensures moved <==> And(m.hash(old(m.buckets[h].nodes)[p].key), m.mask) != h
    ensures m.buckets == ScatterOne(m.hash, old(m.buckets), h, m.mask, p)
  {
    var q := m.buckets[h].nodes[p];
    var target := And(m.hash(q.key), m.mask);
    moved := target != h;
    if moved {
      m.buckets := m.buckets[h := Chain(m.buckets[h].nodes[..p] + m.buckets[h].nodes[p+1..])];
      m.buckets := m.buckets[target := Chain([q] + m.buckets[target].nodes)];
    }
  }

  /** The loop of rehash over the chain of `h`: every node whose bucket under the full mask is
      another one is unlinked and put at the front of that bucket. */
  method ScatterChain<K(==,!new), V(!new)>(m: ConcurrentHashMap<K, V>, h: nat, ghost c: set<nat>)
    requires m.mask == Pow2(m.bits) - 1 && h < |m.buckets| && m.buckets[h].Chain?
    requires h !in c && forall i :: i in c ==> i < |m.buckets| && m.buckets[i] == Chain([])
    requires forall j :: 0 <= j < |m.buckets[h].nodes| ==>
      And(m.hash(m.buckets[h].nodes[j].key), m.mask) in c + {h}
    modifies m`buckets
    ensures SubtreeFilled(m.hash, old(m.State(c)), h, c, m.buckets)
  {
    hide Scattering, Staying, SubtreeFilled, ScatterOne, And;
    ghost var s := m.buckets[h].nodes;
    ghost var t := 0;
    var p := 0;
    ScatteringStart(m.hash, m.buckets, c, h, m.mask);
    while p < |m.buckets[h].nodes|
      invariant t <= |s| && p == |Staying(m.hash, s[..t], h, m.mask)|
      invariant m.buckets == Scattering(m.hash, old(m.buckets), c, s, h, m.mask, t)
      invariant m.buckets[h] == Chain(Staying(m.hash, s[..t], h, m.mask) + s[t..])
      decreases |s| - t
    {
      ScatterTurn(m.hash, old(m.buckets), c, s, h, m.mask, t);
      ScatterHead(m.hash, old(m.buckets), c, s, h, m.mask, t + 1);
      var moved := ScatterNode(m, h, p);
      if !moved { p := p + 1; }
      t := t + 1;
    }
    ScatteringEnd(m.hash, old(m.State(c)), c, h, t);
  }

  lemma ScatterHead<K, V>(hash: K -> nat, bs: seq<Bucket<K, V>>, c: set<nat>, s: seq<Node<K, V>>, h: nat, mask: nat,
                          t: nat)
    requires t <= |s| && h < |bs|
    ensures Scattering(hash, bs, c, s, h, mask, t)[h] == Chain(Staying(hash, s[..t], h, mask) + s[t..])
  {
  }

  // ----- The scan of the last segment ------------------------------------------------

  lemma HomeOfReady(ready: set<nat>, k: nat, i: nat)
    requires 1 <= k && i < Pow2(k) && i in ready
    ensures Home(ready, k, i) == i
  {
    MaskIdle(i, k);
  }

  /** Every node of the chain of `h` goes to `h` or to a bucket of its subtree. */
  lemma ScatterTargets<K(!new), V(!new)>(hash: K -> nat, t: Table<K, V>, all: set<Node<K, V>>, h: nat, j: nat)
    requires Placed(hash, t, all) && h in Ready(t) && j < |t.buckets[h].nodes|
    ensures hash(t.buckets[h].nodes[j].key) % Pow2(t.k) in Subtree(Ready(t), t.k, h) + {h}
  {
    var n := t.buckets[h].nodes[j];
    assert n in t.buckets[h].nodes;
    HomeOfMasked(Ready(t), t.k, hash(n.key));
    if hash(n.key) % Pow2(t.k) in Ready(t) { HomeOfReady(Ready(t), t.k, hash(n.key) % Pow2(t.k)); }
  }

  /** The bucket that holds the nodes of the marked bucket `b`: its nearest filled ancestor. */
  method FilledAncestor<K(==,!new), V(!new)>(m: ConcurrentHashMap<K, V>, b: nat) returns (h: nat)
    requires m.Inv({}) && b < |m.buckets| && m.buckets[b].RehashReq?
    ensures h in Ready(m.State({})) && h < |m.buckets|
    ensures h == Home(Ready(m.State({})), m.bits, b)
  {
    hide Placed, Home;
    m.InvGivesShape({});
    assert Shape(m.State({})) by { m.InvGivesBits(); ShapeOf(m.hash, m.State({}), m.all); }
    h := b;
    while true
      invariant h < |m.buckets| && h !in Ready(m.State({}))
      invariant Home(Ready(m.State({})), m.bits, h) == Home(Ready(m.State({})), m.bits, b)
      decreases h
    {
      HomeOfParent(Ready(m.State({})), m.bits, h);
      h := And(h, Pow2(Log2(h)) - 1);
      if m.buckets[h].Chain? {
        HomeOfReady(Ready(m.State({})), m.bits, h);
        return;
      }
    }
  }

  lemma ShapeOf<K(!new), V(!new)>(hash: K -> nat, t: Table<K, V>, all: set<Node<K, V>>)
    requires Placed(hash, t, all)
    ensures Shape(t)
  {
  }

  lemma ClearedIsReady<K, V>(t: Table<K, V>)
    ensures t.pending == {} ==> Ready(t) == Cleared(t.buckets)
  {
  }

  lemma ClearedTogether<K, V>(t: Table<K, V>)
    requires Shape(t)
    ensures forall i :: i in t.pending ==> i < |t.buckets| && t.buckets[i] == Chain([]) && i !in Ready(t)
  {
  }

  /** Fill the marked bucket `b` together with everything that is still in its ancestor. */
  method FillSubtree<K(==,!new), V(!new)>(m: ConcurrentHashMap<K, V>, b: nat)
    requires m.Valid() && b < |m.buckets| && m.buckets[b].RehashReq?
    modifies m`buckets
    ensures m.Valid() && |m.buckets| == |old(m.buckets)| && m.buckets[b].Chain?
    ensures old(Ready(m.State({}))) <= Ready(m.State({})) && Cleared(old(m.buckets)) <= Cleared(m.buckets)
  {
    hide Placed, Home, Closed, Shape, Cleared, Subtree;
    m.InvGivesShape({});
    var h := FilledAncestor(m, b);
    ghost var t0 := m.State({});
    ClearedIsReady(t0);
    InSubtree(t0, h, b);
    ghost var pending := MarkRehashedLevels(m, h, {});
    assert pending == Subtree(Ready(t0), m.bits, h);
    ScatterSubtree(m, h, pending);
    ClearedIsReady(m.State({}));
  }

  /** Once the subtree of `h` is marked, scattering the chain of `h` fills all of it. */
  method ScatterSubtree<K(==,!new), V(!new)>(m: ConcurrentHashMap<K, V>, h: nat, ghost pending: set<nat>)
    requires m.Inv(pending) && h in Ready(m.State(pending)) && pending == Subtree(Ready(m.State(pending)), m.bits, h)
    modifies m`buckets
    ensures m.Inv({}) && |m.buckets| == |old(m.buckets)|
    ensures Ready(m.State({})) == old(Ready(m.State(pending))) + pending
  {
    hide Placed, Home, Closed, Shape, SubtreeFilled, Subtree;
    ghost var t1 := m.State(pending);
    assert Shape(t1) by { ShapeOf(m.hash, t1, m.all); }
    ClearedTogether(t1);
    forall j | 0 <= j < |m.buckets[h].nodes|
      ensures And(m.hash(m.buckets[h].nodes[j].key), m.mask) in pending + {h}
    {
      ScatterTargets(m.hash, t1, m.all, h, j);
    }
    ScatterChain(m, h, pending);
    SubtreeFilledPlaced(m.hash, t1, m.all, h, m.buckets);
    SubtreeFilledShape(m.hash, t1, h, m.buckets);
    SubtreeFilledSize(m.hash, t1, h, pending, m.buckets);
    assert m.State({}) == t1.(buckets := m.buckets, pending := {});
  }

  lemma SubtreeFilledSize<K, V>(hash: K -> nat, t: Table<K, V>, h: nat, c: set<nat>, bs: seq<Bucket<K, V>>)
    requires SubtreeFilled(hash, t, h, c, bs)
    ensures |bs| == |t.buckets|
  {
  }

  lemma InSubtree<K, V>(t: Table<K, V>, h: nat, b: nat)
    requires 1 <= t.k && b < |t.buckets| == Pow2(t.k) && t.buckets[b].RehashReq? && h == Home(Ready(t), t.k, b)
    ensures b in Subtree(Ready(t), t.k, h)
  {
  }

  /** reserve(): enable segments until the table has `sz` buckets. */
  method Reserve<K(==,!new), V(!new)>(m: ConcurrentHashMap<K, V>, sz: nat)
    requires m.Valid()
    modifies m`buckets, m`mask, m`bits, m`floor
    ensures m.Valid() && sz <= m.mask + 1
    ensures sz <= old(m.mask) + 1 ==> m.State({}) == old(m.State({})) && m.mask == old(m.mask)
    ensures sz > old(m.mask) + 1 ==> old(m.bits) < m.bits
    ensures sz > old(m.mask) + 1 && m.my_size > 0 ==>
      m.floor == old(m.floor) && Ready(m.State({})) == old(Ready(m.State({})))
    ensures m.my_size == 0 ==> (NoMarks(m.State({})) <==> old(NoMarks(m.State({}))))
    ensures sz > old(m.mask) + 1 && m.my_size == 0 && !NoMarks(m.State({})) ==> m.floor == m.bits
  {
    hide Closed, Placed, Home, NoMarks;
    if sz == 0 { return; }
    var isInitial := m.my_size == 0;
    while sz - 1 > m.mask
      invariant m.Valid() && old(m.bits) <= m.bits && old(m.mask) <= m.mask
      invariant m.bits == old(m.bits) ==> m.State({}) == old(m.State({})) && m.mask == old(m.mask)
      invariant m.bits != old(m.bits) ==> old(m.mask) + 1 < sz
      invariant !isInitial ==> m.floor == old(m.floor) && Ready(m.State({})) == old(Ready(m.State({})))
      invariant isInitial ==> (NoMarks(m.State({})) <==> old(NoMarks(m.State({}))))
      invariant isInitial && m.bits != old(m.bits) && !NoMarks(m.State({})) ==> m.floor == m.bits
      decreases sz - m.mask
    {
      m.InvGivesShape({});
      m.InvGivesBits();
      ghost var k := m.bits;
      m.EnableSegment(m.SegmentCount(), isInitial);
      m.InvGivesShape({});
      Pow2Monotone(k + 1, m.bits);
      Pow2Monotone(k, m.bits - 1);
    }
  }

  /** Above the floor, a marker anywhere shows in the last segment. */
  lemma MarkerInLastSegment<K, V>(t: Table<K, V>, i: nat)
    requires Shape(t) && t.pending == {} && t.floor < t.k && i < |t.buckets| && t.buckets[i].RehashReq?
    ensures exists b: nat :: Pow2(t.k - 1) <= b < |t.buckets| && t.buckets[b].RehashReq?
  {
    var p := Pow2(t.k - 1);
    if i < p {
      var b := i + p;
      if t.buckets[b].Chain? {
        AncestorReady(Ready(t), t.floor, b, t.k - 1);
        ModIs(b, p, 1, i);
        assert false;
      }
      assert t.buckets[b].RehashReq?;
    }
  }

  ghost predicate LastSegmentMarked<K, V>(t: Table<K, V>) {
    1 <= t.k && exists b: nat :: Pow2(t.k - 1) <= b < |t.buckets| && t.buckets[b].RehashReq?
  }

  lemma MarkedAtAll<K, V>(t: Table<K, V>)
    requires Shape(t) && t.pending == {} && TopFilled(Ready(t), t.floor, t.k)
    ensures t.floor < t.k ==> (NoMarks(t) <==> !LastSegmentMarked(t))
    ensures t.floor == t.k ==> !LastSegmentMarked(t)
  {
    if t.floor == t.k {
      forall b: nat | Pow2(t.k - 1) <= b < |t.buckets| ensures t.buckets[b].Chain? {
        if t.k == 1 { assert b == 1; }
        assert b in Ready(t);
      }
    }
    if t.floor < t.k && !NoMarks(t) {
      var i: nat :| i < |t.buckets| && t.buckets[i].RehashReq?;
      MarkerInLastSegment(t, i);
    }
  }

  lemma MarkShows<K, V>(t: Table<K, V>, b: nat)
    requires 1 <= t.k && Pow2(t.k - 1) <= b < |t.buckets| && t.buckets[b].RehashReq?
    ensures LastSegmentMarked(t)
  {
  }

  lemma LastIsFilled<K, V>(t: Table<K, V>)
    requires 1 <= t.k && forall i: nat :: Pow2(t.k - 1) <= i < |t.buckets| ==> t.buckets[i].Chain?
    ensures !LastSegmentMarked(t)
  {
  }

  lemma StillFilled<K, V>(bs: seq<Bucket<K, V>>, bs': seq<Bucket<K, V>>, k: nat, b: nat)
    requires 1 <= k && b < |bs| == |bs'| && bs'[b].Chain? && Cleared(bs) <= Cleared(bs')
    requires forall i: nat :: Pow2(k - 1) <= i < b ==> bs[i].Chain?
    ensures forall i: nat :: Pow2(k - 1) <= i <= b ==> bs'[i].Chain?
  {
    forall i: nat | Pow2(k - 1) <= i <= b ensures bs'[i].Chain? {
      if i < b { assert i in Cleared(bs); }
    }
  }

  lemma NoMarksStay<K, V>(t: Table<K, V>, t': Table<K, V>)
    requires Ready(t) <= Ready(t') && |t.buckets| == |t'.buckets| && t.pending == t'.pending == {}
    ensures NoMarks(t) ==> NoMarks(t')
  {
    if NoMarks(t) {
      forall i | 0 <= i < |t'.buckets| ensures t'.buckets[i].Chain? { assert i in Ready(t); }
    }
  }

  lemma AfterScan<K(!new), V(!new)>(hash: K -> nat, t: Table<K, V>, t': Table<K, V>, all: set<Node<K, V>>)
    requires Placed(hash, t', all) && t.pending == t'.pending == {} && t.k == t'.k && t.floor == t'.floor
    requires TopFilled(Ready(t'), t'.floor, t'.k) && Ready(t) <= Ready(t') && |t.buckets| == |t'.buckets|
    requires t.floor == t.k ==> t'.buckets == t.buckets
    requires forall i: nat :: Pow2(t.k - 1) <= i < |t'.buckets| ==> t'.buckets[i].Chain?
    ensures NoMarks(t') <==> NoMarks(t) || t.floor < t.k
  {
    hide NoMarks, LastSegmentMarked;
    LastIsFilled(t');
    MarkedAtAll(t');
    NoMarksStay(t, t');
    if t.floor == t.k { assert t' == t; }
  }

  /** The scan: fill every bucket of the last segment that still carries the marker. */
  method ScanLastSegment<K(==,!new), V(!new)>(m: ConcurrentHashMap<K, V>)
    requires m.Valid()
    modifies m`buckets
    ensures m.Valid() && (NoMarks(m.State({})) <==> old(NoMarks(m.State({}))) || m.floor < m.bits)
  {
    hide Closed, Home, Placed, NoMarks, LastSegmentMarked, Shape;
    m.InvGivesShape({});
    ghost var t0 := m.State({});
    assert Shape(t0) by { ShapeOf(m.hash, t0, m.all); }
    MarkedAtAll(t0);
    var mask := m.mask;
    var b := (mask + 1) / 2;
    while b <= mask
      invariant m.Valid() && m.mask == mask && m.bits == t0.k && m.floor == t0.floor
      invariant Pow2(m.bits - 1) <= b <= |m.buckets| == |t0.buckets| == mask + 1
      invariant Ready(t0) <= Ready(m.State({}))
      invariant m.floor == m.bits ==> m.buckets == t0.buckets
      invariant forall i: nat :: Pow2(m.bits - 1) <= i < b ==> m.buckets[i].Chain?
    {
      if m.buckets[b].RehashReq? {
        if m.floor == m.bits { MarkShows(t0, b); }
        ghost var bs := m.buckets;
        FillSubtree(m, b);
        StillFilled(bs, m.buckets, m.bits, b);
      }
      b := b + 1;
    }
    AfterScan(m.hash, t0, m.State({}), m.all);
  }

  /** rehash(): grow to `sz` buckets and fill all of them.  The stored nodes stay the same.  No
      marker is left exactly if there was none, or the table grew while it was not empty, or
      it did not grow and the last segment still showed a marker. */
  method Rehash<K(==,!new), V(!new)>(m: ConcurrentHashMap<K, V>, sz: nat)
    requires m.Valid()
    modifies m`buckets, m`mask, m`bits, m`floor
    ensures m.Valid() && sz <= m.mask + 1 && (sz <= old(m.mask) + 1 ==> m.mask == old(m.mask))
    ensures NoMarks(m.State({})) <==>
      || old(NoMarks(m.State({})))
      || if sz > old(m.mask) + 1 then m.my_size > 0 else old(LastSegmentMarked(m.State({})))
  {
    hide Closed, Home, Placed, NoMarks, LastSegmentMarked, Shape;
    m.InvGivesBits();
    assert Shape(m.State({})) by { ShapeOf(m.hash, m.State({}), m.all); }
    MarkedAtAll(m.State({}));
    Reserve(m, sz);
    ScanLastSegment(m);
  }

  /** Without markers every node is where the current mask says. */
  lemma FullyRehashed<K(!new), V(!new)>(hash: K -> nat, t: Table<K, V>, all: set<Node<K, V>>, i: nat, n: Node<K, V>)
    requires Placed(hash, t, all) && t.pending == {} && NoMarks(t) && i < |t.buckets|
    ensures n in t.buckets[i].nodes <==> n in all && hash(n.key) % Pow2(t.k) == i
  {
    assert hash(n.key) % Pow2(t.k) in Ready(t);
    HomeOfReady(Ready(t), t.k, hash(n.key) % Pow2(t.k));
    HomeOfMasked(Ready(t), t.k, hash(n.key));
  }

  /** Two buckets of the second level are never on one path. */
  lemma StillMarked<K, V>(t: Table<K, V>, h: nat)
    requires t.pending == {} && t.k == FIRST_BLOCK && |t.buckets| == Pow2(t.k)
    requires OnlyPathFilled({0, 1}, Ready(t), h)
    ensures !NoMarks(t)
  {
    Pow2Monotone(2, FIRST_BLOCK);
    assert Pow2(2) == 4;
    LevelIs(2, 2);
    LevelIs(3, 2);
    assert 2 !in Ready(t) || 3 !in Ready(t);
    assert t.buckets[2].RehashReq? || t.buckets[3].RehashReq?;
  }

  /** rehash() does not always leave every bucket filled.  Whatever the hash function, and
      whichever key is inserted into a new map and erased again: the map has grown to 256
      buckets, and rehash(257) adds a last segment that counts as filled and leaves the markers
      below it. */
  method EmptiedThenRehashed<K(==,!new), V(!new)>(hash: K -> nat, key: K, value: V) returns (m: ConcurrentHashMap<K, V>)
    ensures fresh(m) && m.Valid() && m.hash == hash && m.all == {} && 257 <= m.mask + 1
    ensures !NoMarks(m.State({}))
  {
    hide Placed, Closed, Home, NoMarks, LastSegmentMarked, OnlyPathFilled;
    m := new ConcurrentHashMap(hash);
    assert m.mask == 1 && Pow2(1) == 2 && Ready(m.State({})) == {0, 1};
    var inserted, _ := m.Lookup(true, key, Some(value), m.mask, 1);
    assert m.bits == FIRST_BLOCK;
    ghost var ready := Ready(m.State({}));
    var erased := m.Erase(key, m.mask, m.bits);
    PathFurther({0, 1}, ready, Ready(m.State({})), hash(key));
    m.InvGivesBits();
    StillMarked(m.State({}), hash(key));
    assert m.all == {};
    Rehash(m, 257);
  }
}
