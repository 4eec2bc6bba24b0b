/** Bucket indices of concurrent_hash_map.h: masks one less than a power of two, the tree of
    parent buckets, and the bucket a hash code belongs to when only some buckets are filled.

    A mask of k bits is Pow2(k) - 1, so `h & mask` is h % Pow2(k). */
module HashIndex {

  /** The first segments share one block; this is the first segment with its own. */
  const FIRST_BLOCK: nat := 8

  function Pow2(k: nat): (p: nat)
    ensures 0 < p
  {
    if k == 0 then 1 else 2 * Pow2(k - 1)
  }

  lemma {:induction false} Pow2Grows(j: nat, k: nat)
    requires j < k
    ensures 2 * Pow2(j) <= Pow2(k)
    decreases k
  {
    if j < k - 1 { Pow2Grows(j, k - 1); }
  }

  lemma MulMonotone(p: nat, x: nat, y: nat)
    requires x < y
    ensures p * x + p <= p * y
  {
    assert p * y == p * (y - x - 1) + p * (x + 1);
  }

  lemma ModIs(h: nat, p: nat, a: nat, b: nat)
    requires 0 < p && b < p && h == p * a + b
    ensures h % p == b
  {
    var q, r := h / p, h % p;
    assert h == p * q + r;
    if q < a { MulMonotone(p, q, a); }
    if a < q { MulMonotone(p, a, q); }
  }

  lemma MulTwice(p: nat, q: nat)
    ensures (2 * p) * q == p * (2 * q)
    ensures p * (2 * q + 1) == p * (2 * q) + p
  {
  }

  lemma HalfMod(h: nat, p: nat)
    requires 0 < p
    ensures h % (2 * p) == h % p || h % (2 * p) == h % p + p
    ensures (h % (2 * p)) % p == h % p
  {
    var d := 2 * p;
    var r, q := h % d, h / d;
    assert h == d * q + r;
    MulTwice(p, q);
    if r < p {
      ModIs(h, p, 2 * q, r);
      ModIs(r, p, 0, r);
    } else {
      ModIs(h, p, 2 * q + 1, r - p);
      ModIs(r, p, 1, r - p);
    }
  }

  lemma MaskHalf(h: nat, k: nat)
    requires 0 < k
    ensures (h % Pow2(k)) % Pow2(k - 1) == h % Pow2(k - 1)
    ensures h % Pow2(k) == h % Pow2(k - 1) || h % Pow2(k) == h % Pow2(k - 1) + Pow2(k - 1)
  {
    HalfMod(h, Pow2(k - 1));
  }

  /** Masking twice is masking with the shorter mask. */
  lemma {:induction false} MaskTwice(h: nat, k: nat, j: nat)
    requires j <= k
    ensures (h % Pow2(k)) % Pow2(j) == h % Pow2(j)
    decreases k
  {
    if j < k {
      var r := h % Pow2(k);
      MaskHalf(h, k);
      MaskTwice(h, k - 1, j);
      MaskTwice(r, k - 1, j);
    } else {
      ModIs(h % Pow2(k), Pow2(k), 0, h % Pow2(k));
    }
  }

  lemma MaskIdle(i: nat, k: nat)
    requires i < Pow2(k)
    ensures i % Pow2(k) == i
  {
    ModIs(i, Pow2(k), 0, i);
  }

  // ----- The tree of buckets ---------------------------------------------------------

  /** Number of bits of a bucket index; the two lowest buckets are roots. */
  function Level(i: nat): (l: nat)
    ensures 1 <= l && i < Pow2(l)
    ensures 1 < i ==> 1 < l && Pow2(l - 1) <= i
    ensures i <= 1 ==> l == 1
  {
    LevelFrom(i, 1)
  }

  function LevelFrom(i: nat, l: nat): (r: nat)
    requires 1 <= l && (1 < l ==> Pow2(l - 1) <= i)
    ensures 1 <= r && i < Pow2(r) && (1 < r ==> Pow2(r - 1) <= i) && (l == 1 && i <= 1 ==> r == 1)
    decreases i + 1 - l
  {
    Pow2Above(l);
    if i < Pow2(l) then l else LevelFrom(i, l + 1)
  }

  lemma {:induction false} Pow2Above(l: nat)
    ensures l < Pow2(l)
  {
    if l > 0 { Pow2Above(l - 1); }
  }

  /** The index without its top bit. */
  function Parent(i: nat): (p: nat)
    requires 1 < i
    ensures p < i && p < Pow2(Level(i) - 1)
  {
    i % Pow2(Level(i) - 1)
  }

  /** The two roots are filled, and above level `c` a filled bucket has a filled parent. */
  ghost predicate Closed(ready: set<nat>, c: nat) {
    && 0 in ready && 1 in ready
    && forall i :: i in ready && 1 < i && c < Level(i) ==> Parent(i) in ready
  }

  /** Down to that level, a filled bucket has all its ancestors filled. */
  lemma {:induction false} AncestorReady(ready: set<nat>, c: nat, i: nat, l: nat)
    requires Closed(ready, c) && i in ready && 1 <= l && c <= l
    ensures i % Pow2(l) in ready
    decreases i
  {
    if i < Pow2(l) {
      MaskIdle(i, l);
    } else {
      var j := Level(i) - 1;
      if j < l { Pow2Monotone(j + 1, l); }
      AncestorReady(ready, c, Parent(i), l);
      MaskTwice(i, j, l);
    }
  }

  lemma Pow2Monotone(j: nat, k: nat)
    requires j <= k
    ensures Pow2(j) <= Pow2(k)
  {
    if j < k { Pow2Grows(j, k); }
  }

  /** The bucket that holds the nodes of hash `h` in a table of k-bit mask: the deepest
      filled bucket on the parent path of h & mask. */
  ghost function Home(ready: set<nat>, k: nat, h: nat): (b: nat)
    requires 1 <= k
    ensures b < Pow2(k)
  {
    if k == 1 || h % Pow2(k) in ready then h % Pow2(k) else Pow2Monotone(k - 1, k); Home(ready, k - 1, h)
  }

  lemma {:induction false} HomeIsReady(ready: set<nat>, k: nat, h: nat)
    requires 1 <= k && 0 in ready && 1 in ready
    ensures Home(ready, k, h) in ready
  {
    if k != 1 && h % Pow2(k) !in ready { HomeIsReady(ready, k - 1, h); }
  }

  lemma {:induction false} HomeIsFilled(ready: set<nat>, k: nat, h: nat)
    requires 1 <= k
    ensures Home(ready, k, h) <= 1 || Home(ready, k, h) in ready
  {
    if k != 1 && h % Pow2(k) !in ready { HomeIsFilled(ready, k - 1, h); }
  }

  /** A larger mask alone moves nothing. */
  lemma {:induction false} HomeUnderGrowth(ready: set<nat>, j: nat, k: nat, h: nat)
    requires 1 <= j <= k && forall i :: i in ready ==> i < Pow2(j)
    ensures Home(ready, k, h) == Home(ready, j, h)
    decreases k
  {
    if j < k {
      if h % Pow2(k) in ready {
        MaskTwice(h, k, j);
        MaskIdle(h % Pow2(k), j);
      } else {
        HomeUnderGrowth(ready, j, k - 1, h);
      }
    }
  }

  /** Filling bucket `i` takes over exactly those hashes of its parent that match `i` under
      the mask of `i`; no other hash moves. */
  lemma {:induction false} HomeUnderFill(ready: set<nat>, k: nat, i: nat, h: nat)
    requires 1 <= k && 1 < i < Pow2(k) && i !in ready && Parent(i) in ready
    ensures h % Pow2(Level(i)) == i && Home(ready, k, h) == Parent(i) ==> Home(ready + {i}, k, h) == i
    ensures !(h % Pow2(Level(i)) == i && Home(ready, k, h) == Parent(i)) ==>
      Home(ready + {i}, k, h) == Home(ready, k, h)
  {
    var l := Level(i);
    if k < l { Pow2Monotone(k, l - 1); }
    if h % Pow2(l) == i {
      HomeOfMatching(ready, k, i, h);
    } else {
      HomeElsewhere(ready, k, i, h);
    }
  }

  lemma NotParent(h: nat, k: nat, i: nat)
    requires 1 < i && Level(i) <= k && h % Pow2(Level(i)) == i
    ensures h % Pow2(k) != Parent(i)
  {
    var l := Level(i);
    MaskTwice(h, k, l);
    Pow2Monotone(l - 1, l);
    MaskIdle(Parent(i), l);
  }

  lemma {:induction false} HomeOfMatching(ready: set<nat>, k: nat, i: nat, h: nat)
    requires 1 < i && Level(i) <= k && i !in ready && Parent(i) in ready
    requires h % Pow2(Level(i)) == i
    ensures Home(ready, k, h) == Parent(i) ==> Home(ready + {i}, k, h) == i
    ensures Home(ready, k, h) != Parent(i) ==> Home(ready + {i}, k, h) == Home(ready, k, h)
    decreases k
  {
    var l := Level(i);
    if k == l {
      MaskTwice(h, l, l - 1);
      assert h % Pow2(l - 1) == Parent(i);
    } else if h % Pow2(k) in ready {
      NotParent(h, k, i);
    } else {
      HomeOfMatching(ready, k - 1, i, h);
      if h % Pow2(k) == i {
        MaskTwice(h, k, k - 1);
        Pow2Monotone(l, k - 1);
        MaskIdle(i, k - 1);
        HomeIsFilled(ready, k - 1, h);
      }
    }
  }

  lemma {:induction false} HomeElsewhere(ready: set<nat>, k: nat, i: nat, h: nat)
    requires 1 <= k && 1 < i && h % Pow2(Level(i)) != i
    ensures Home(ready + {i}, k, h) == Home(ready, k, h)
    decreases k
  {
    var l := Level(i);
    if h % Pow2(k) == i {
      if k < l {
        Pow2Monotone(k, l - 1);
      } else {
        MaskTwice(h, k, l);
        MaskIdle(i, l);
      }
      assert false;
    }
    if k != 1 { HomeElsewhere(ready, k - 1, i, h); }
  }

  // ----- Stale masks -----------------------------------------------------------------

  /** The first bit of `h` at position `j` or above, as the level of the bucket it leads to:
      the masks of j .. l-1 bits select the same bucket of `h`, the mask of l bits another. */
  ghost predicate NextLevel(h: nat, j: nat, l: nat) {
    && 1 <= j < l
    && h % Pow2(l) != h % Pow2(j)
    && forall t :: j <= t < l ==> h % Pow2(t) == h % Pow2(j)
  }

  /** Two masks that select the same bucket of `h` agree with every mask in between. */
  lemma {:induction false} SameBetween(h: nat, j: nat, t: nat, k: nat)
    requires j <= t <= k && h % Pow2(k) == h % Pow2(j)
    ensures h % Pow2(t) == h % Pow2(j)
  {
    MaskTwice(h, k, t);
    Pow2Monotone(j, t);
    MaskIdle(h % Pow2(j), t);
  }

  /** With a stale mask of j bits, the bucket h & mask is still the right one if the current
      mask selects the same bucket. */
  lemma {:induction false} HomeIfSame(ready: set<nat>, j: nat, k: nat, h: nat)
    requires 1 <= j <= k && h % Pow2(j) in ready && h % Pow2(k) == h % Pow2(j)
    ensures Home(ready, k, h) == h % Pow2(j)
  {
  }

  /** ... or if the next bucket on the path of `h` has not been filled: then none deeper
      has been filled either. */
  lemma {:induction false} HomeIfNextEmpty(ready: set<nat>, c: nat, j: nat, l: nat, k: nat, h: nat)
    requires Closed(ready, c) && c <= j && NextLevel(h, j, l) && l <= k
    requires h % Pow2(j) in ready && h % Pow2(l) !in ready
    ensures Home(ready, k, h) == h % Pow2(j)
    decreases k
  {
    if h % Pow2(k) in ready {
      AncestorReady(ready, c, h % Pow2(k), l);
      MaskTwice(h, k, l);
      assert false;
    } else if l < k {
      HomeIfNextEmpty(ready, c, j, l, k - 1, h);
    } else {
      assert h % Pow2(l - 1) == h % Pow2(j);
    }
  }

  /** If the next bucket has been filled, h & mask is not the right bucket any more. */
  lemma {:induction false} HomeIfNextFilled(ready: set<nat>, j: nat, l: nat, k: nat, h: nat)
    requires NextLevel(h, j, l) && l <= k && h % Pow2(l) in ready
    ensures Home(ready, k, h) != h % Pow2(j)
    decreases k
  {
    if l < k && h % Pow2(k) !in ready {
      HomeIfNextFilled(ready, j, l, k - 1, h);
    } else if h % Pow2(k) == h % Pow2(j) {
      SameBetween(h, j, l, k);
    }
  }

  lemma ChildBounds(h: nat, l: nat)
    requires 1 <= l && h % Pow2(l) != h % Pow2(l - 1)
    ensures Pow2(l - 1) <= h % Pow2(l) < Pow2(l)
  {
    MaskHalf(h, l);
  }

  lemma ChildOfLevel(h: nat, l: nat)
    requires 2 <= l && h % Pow2(l) != h % Pow2(l - 1)
    ensures 1 < h % Pow2(l) && Level(h % Pow2(l)) == l && Parent(h % Pow2(l)) == h % Pow2(l - 1)
  {
    ChildBounds(h, l);
    LevelIs(h % Pow2(l), l);
    MaskTwice(h, l, l - 1);
  }

  /** The bucket found through the next bit is a child of the bucket h & mask. */
  lemma NextIsChild(h: nat, j: nat, l: nat)
    requires NextLevel(h, j, l)
    ensures 1 < h % Pow2(l) && Level(h % Pow2(l)) == l && Parent(h % Pow2(l)) == h % Pow2(j)
  {
    assert h % Pow2(l - 1) == h % Pow2(j);
    ChildOfLevel(h, l);
  }

  lemma LevelIs(i: nat, l: nat)
    requires 2 <= l && Pow2(l - 1) <= i < Pow2(l)
    ensures 1 < i && Level(i) == l
  {
    Pow2Monotone(1, l - 1);
    if Level(i) < l { Pow2Monotone(Level(i), l - 1); }
    if l < Level(i) { Pow2Monotone(l, Level(i) - 1); }
  }

  // ----- Whole subtrees of unfilled buckets ------------------------------------------

  /** Home by its defining property: the deepest filled prefix. */
  ghost predicate DeepestAt(ready: set<nat>, k: nat, h: nat, l: nat) {
    && 1 <= l <= k && (h % Pow2(l) in ready || l == 1)
    && forall t :: l < t <= k ==> h % Pow2(t) !in ready || h % Pow2(t) == h % Pow2(l)
  }

  lemma {:induction false} HomeIsDeepest(ready: set<nat>, k: nat, h: nat, l: nat)
    requires DeepestAt(ready, k, h, l)
    ensures Home(ready, k, h) == h % Pow2(l)
    decreases k
  {
    if l < k && h % Pow2(k) !in ready { HomeIsDeepest(ready, k - 1, h, l); }
  }

  lemma {:induction false} HomeHasLevel(ready: set<nat>, k: nat, h: nat) returns (l: nat)
    requires 1 <= k
    ensures 1 <= l <= k && Home(ready, k, h) == h % Pow2(l) && (h % Pow2(l) in ready || l == 1)
    ensures forall t :: l < t <= k ==> h % Pow2(t) !in ready
    decreases k
  {
    if k == 1 || h % Pow2(k) in ready { l := k; } else { l := HomeHasLevel(ready, k - 1, h); }
  }

  /** The unfilled buckets of a k-bit table whose nodes are all still in bucket `h`. */
  ghost function Subtree(ready: set<nat>, k: nat, h: nat): set<nat>
    requires 1 <= k
  {
    set i | 0 <= i < Pow2(k) && i !in ready && Home(ready, k, i) == h
  }

  /** ... those of them that branch off the path to `h` below level `s`. */
  ghost function SubtreeBelow(ready: set<nat>, k: nat, h: nat, s: nat): set<nat>
    requires 1 <= k
  {
    set i | 0 <= i < Pow2(k) && i !in ready && Home(ready, k, i) == h && i % Pow2(s) != h
  }

  lemma LevelLeast(h: nat, l: nat)
    requires 1 <= l && h < Pow2(l)
    ensures Level(h) <= l
  {
    if l < Level(h) { Pow2Monotone(l, Level(h) - 1); }
  }

  lemma NothingBelowYet(ready: set<nat>, k: nat, h: nat)
    requires 1 <= k
    ensures SubtreeBelow(ready, k, h, Level(h)) == {}
  {
    forall i: nat | i < Pow2(k) && Home(ready, k, i) == h ensures i % Pow2(Level(h)) == h {
      var l := HomeHasLevel(ready, k, i);
      LevelLeast(h, l);
      MaskTwice(i, l, Level(h));
      MaskIdle(h, Level(h));
    }
  }

  lemma AllBelow(ready: set<nat>, k: nat, h: nat)
    requires 1 <= k && h in ready
    ensures SubtreeBelow(ready, k, h, k) == Subtree(ready, k, h)
  {
    forall i: nat | i < Pow2(k) ensures i % Pow2(k) == i { MaskIdle(i, k); }
  }

  lemma NextBranch(i: nat, h: nat, s: nat)
    requires i % Pow2(s) == h && i % Pow2(s + 1) != h
    ensures i % Pow2(s + 1) == h + Pow2(s)
  {
    MaskHalf(i, s + 1);
  }

  /** A child at level `s` that is already filled adds nothing. */
  lemma FilledBranch(ready: set<nat>, k: nat, h: nat, s: nat)
    requires 1 <= s < k && h < Pow2(s) && h in ready && h + Pow2(s) in ready
    ensures SubtreeBelow(ready, k, h, s + 1) == SubtreeBelow(ready, k, h, s)
  {
    forall i: nat | i < Pow2(k) && i !in ready && Home(ready, k, i) == h
      ensures i % Pow2(s + 1) != h <==> i % Pow2(s) != h
    {
      MaskTwice(i, s + 1, s);
      MaskIdle(h, s);
      if i % Pow2(s) == h && i % Pow2(s + 1) != h {
        NextBranch(i, h, s);
        var l := HomeHasLevel(ready, k, i);
        if s + 1 <= l { MaskTwice(i, l, s + 1); Pow2Monotone(s, s + 1); MaskIdle(h, s + 1); }
        assert false;
      }
    }
  }

  /** An unfilled child: marking it and its own subtree completes level `s`. */
  lemma UnfilledBranch(m0: set<nat>, k: nat, h: nat, s: nat, i: nat)
    requires 1 <= s < k && h < Pow2(s) && h in m0 && i < Pow2(k)
    requires h + Pow2(s) !in m0
    ensures var c := h + Pow2(s);
      var m1 := m0 + SubtreeBelow(m0, k, h, s) + {c};
      (i in m1 || (i !in m1 && Home(m1, k, i) == c)) <==> i in m0 || i in SubtreeBelow(m0, k, h, s + 1)
  {
    var c := h + Pow2(s);
    var m1 := m0 + SubtreeBelow(m0, k, h, s) + {c};
    BranchIsNew(m0, k, h, s);
    if i in SubtreeBelow(m0, k, h, s + 1) && i !in m1 {
      BranchForward(m0, k, h, s, i);
    }
    if i !in m1 && Home(m1, k, i) == c {
      BranchBackward(m0, k, h, s, i);
    }
    if i in SubtreeBelow(m0, k, h, s) {
      MaskTwice(i, s + 1, s);
      MaskIdle(h, s);
    }
  }

  lemma UnfilledBranchSets(m0: set<nat>, k: nat, h: nat, s: nat)
    requires 1 <= s < k && h < Pow2(s) && h in m0 && h + Pow2(s) !in m0
    ensures var c := h + Pow2(s);
      var m1 := m0 + SubtreeBelow(m0, k, h, s) + {c};
      && m1 + Subtree(m1, k, c) == m0 + SubtreeBelow(m0, k, h, s + 1)
      && SubtreeBelow(m0, k, h, s) + ({c} + Subtree(m1, k, c)) == SubtreeBelow(m0, k, h, s + 1)
  {
    var c := h + Pow2(s);
    var m1 := m0 + SubtreeBelow(m0, k, h, s) + {c};
    BranchIsNew(m0, k, h, s);
    forall i: nat | i < Pow2(k)
      ensures (i in m1 || (i !in m1 && Home(m1, k, i) == c)) <==> i in m0 || i in SubtreeBelow(m0, k, h, s + 1)
    {
      UnfilledBranch(m0, k, h, s, i);
    }
  }

  lemma BranchIsNew(m0: set<nat>, k: nat, h: nat, s: nat)
    requires 1 <= s < k && h < Pow2(s) && h in m0 && h + Pow2(s) !in m0
    ensures var c := h + Pow2(s); c < Pow2(k) && c % Pow2(s) == h && c in SubtreeBelow(m0, k, h, s + 1)
    ensures h + Pow2(s) !in SubtreeBelow(m0, k, h, s)
  {
    var c := h + Pow2(s);
    Pow2Monotone(s + 1, k);
    MaskIdle(c, s + 1);
    ModIs(c, Pow2(s), 1, h);
    forall t | s < t <= k ensures c % Pow2(t) == c {
      Pow2Monotone(s + 1, t);
      MaskIdle(c, t);
    }
    HomeIsDeepest(m0, k, c, s);
  }

  lemma BranchForward(m0: set<nat>, k: nat, h: nat, s: nat, i: nat)
    requires 1 <= s < k && h < Pow2(s) && h in m0 && h + Pow2(s) !in m0 && i < Pow2(k)
    requires i in SubtreeBelow(m0, k, h, s + 1) && i !in SubtreeBelow(m0, k, h, s)
    ensures Home(m0 + SubtreeBelow(m0, k, h, s) + {h + Pow2(s)}, k, i) == h + Pow2(s)
  {
    var c := h + Pow2(s);
    var m1 := m0 + SubtreeBelow(m0, k, h, s) + {c};
    NextBranch(i, h, s);
    var l := HomeHasLevel(m0, k, i);
    if s < l { MaskTwice(i, l, s + 1); Pow2Monotone(s, s + 1); MaskIdle(h, s + 1); assert false; }
    forall t | s + 1 < t <= k ensures i % Pow2(t) !in m1 || i % Pow2(t) == c {
      MaskTwice(i, t, s);
    }
    assert DeepestAt(m1, k, i, s + 1);
    HomeIsDeepest(m1, k, i, s + 1);
  }

  lemma BranchBackward(m0: set<nat>, k: nat, h: nat, s: nat, i: nat)
    requires 1 <= s < k && h < Pow2(s) && h in m0 && h + Pow2(s) !in m0 && i < Pow2(k)
    requires var c := h + Pow2(s);
      var m1 := m0 + SubtreeBelow(m0, k, h, s) + {c};
      i !in m1 && Home(m1, k, i) == c
    ensures i in SubtreeBelow(m0, k, h, s + 1)
  {
    var c := h + Pow2(s);
    var m1 := m0 + SubtreeBelow(m0, k, h, s) + {c};
    var l := HomeHasLevel(m1, k, i);
    if l <= s { Pow2Monotone(l, s); assert false; }
    MaskTwice(i, l, s + 1);
    MaskIdle(c, s + 1);
    MaskTwice(i, s + 1, s);
    ModIs(c, Pow2(s), 1, h);
    forall t | s < t <= k ensures i % Pow2(t) !in m0 {
      if t <= l {
        MaskTwice(i, l, t);
        Pow2Monotone(s + 1, t);
        MaskIdle(c, t);
      }
    }
    HomeIsDeepest(m0, k, i, s);
  }

  /** When the whole subtree of `h` is filled at once, every hash of `h` goes straight to the
      bucket that the full mask selects, and no other hash moves. */
  lemma HomeAfterSubtree(ready: set<nat>, k: nat, h: nat, c: nat)
    requires 1 <= k && h in ready
    ensures Home(ready, k, c) == h ==> Home(ready + Subtree(ready, k, h), k, c) == c % Pow2(k)
    ensures Home(ready, k, c) != h ==> Home(ready + Subtree(ready, k, h), k, c) == Home(ready, k, c)
  {
    var r := ready + Subtree(ready, k, h);
    var l := HomeHasLevel(ready, k, c);
    if Home(ready, k, c) == h {
      HomeOfMasked(ready, k, c);
      HomeIsDeepest(r, k, c, k);
    } else {
      forall t | l < t <= k ensures c % Pow2(t) !in r {
        HomeOfPrefix(ready, k, c, l, t);
      }
      HomeIsDeepest(r, k, c, l);
    }
  }

  lemma HomeOfMasked(ready: set<nat>, k: nat, c: nat)
    requires 1 <= k
    ensures Home(ready, k, c % Pow2(k)) == Home(ready, k, c)
  {
    var l := HomeHasLevel(ready, k, c);
    forall t | l <= t <= k ensures (c % Pow2(k)) % Pow2(t) == c % Pow2(t) { MaskTwice(c, k, t); }
    HomeIsDeepest(ready, k, c % Pow2(k), l);
  }

  /** A prefix below the home has the same home. */
  lemma HomeOfPrefix(ready: set<nat>, k: nat, c: nat, l: nat, t: nat)
    requires 1 <= l < t <= k && Home(ready, k, c) == c % Pow2(l) && (c % Pow2(l) in ready || l == 1)
    requires forall u :: l < u <= k ==> c % Pow2(u) !in ready
    ensures Home(ready, k, c % Pow2(t)) == Home(ready, k, c)
  {
    var x := c % Pow2(t);
    MaskTwice(c, t, l);
    forall u | l < u <= k ensures x % Pow2(u) !in ready {
      if u <= t { MaskTwice(c, t, u); } else { Pow2Monotone(t, u); MaskIdle(x, u); }
    }
    HomeIsDeepest(ready, k, x, l);
  }

  /** The parent, seen through any mask, is a shorter prefix or the parent itself. */
  lemma ParentPrefix(i: nat, u: nat)
    requires 1 < i && 1 <= u
    ensures Parent(i) % Pow2(u) == if u < Level(i) then i % Pow2(u) else Parent(i)
  {
    var s := Level(i);
    if u < s {
      MaskTwice(i, s - 1, u);
    } else {
      Pow2Monotone(s - 1, u);
      MaskIdle(Parent(i), u);
    }
  }

  /** An unfilled bucket has the home of its parent. */
  lemma HomeOfParent(ready: set<nat>, k: nat, i: nat)
    requires 1 < i < Pow2(k) && i !in ready && 1 <= k
    ensures Home(ready, k, Parent(i)) == Home(ready, k, i)
  {
    var s := Level(i);
    LevelLeast(i, k);
    var l := HomeHasLevel(ready, k, i);
    HomeAbove(ready, i, l);
    ParentPrefix(i, l);
    forall u | l < u <= k ensures Parent(i) % Pow2(u) !in ready || Parent(i) % Pow2(u) == Parent(i) % Pow2(l) {
      ParentPrefix(i, u);
      assert l < s - 1 ==> i % Pow2(s - 1) !in ready;
    }
    HomeIsDeepest(ready, k, Parent(i), l);
  }

  lemma HomeAbove(ready: set<nat>, i: nat, l: nat)
    requires 1 < i && i !in ready && 1 <= l && (i % Pow2(l) in ready || l == 1)
    ensures l < Level(i)
  {
    if Level(i) <= l {
      Pow2Monotone(Level(i), l);
      MaskIdle(i, l);
    }
  }

  lemma SubtreeClosed(ready: set<nat>, c: nat, k: nat, h: nat)
    requires Closed(ready, c) && 1 <= k && h in ready
    ensures Closed(ready + Subtree(ready, k, h), c)
  {
    var r := ready + Subtree(ready, k, h);
    forall i | i in r && 1 < i && c < Level(i) ensures Parent(i) in r {
      if i !in ready {
        HomeOfParent(ready, k, i);
      }
    }
  }
}
