/** The lazily rehashed table of concurrent_hash_map.h. */
module HashTable {
  // It is run by one thread at a time, but every operation takes the mask the calling thread
  // read earlier: other threads may have enlarged the table since.  The operations refine those
  // of a map.

  import opened HashIndex
  import opened HashPlacement
  import opened Options

  /** `h & mask` for a mask that is one less than a power of two. */
  function And(h: nat, mask: nat): (r: nat)
    ensures r <= mask
  {
    h % (mask + 1)
  }

  /** The highest bit of an index. */
  function Log2(i: nat): (l: nat)
    requires 0 < i
    ensures Pow2(l) <= i < Pow2(l + 1)
  {
    Level(i) - 1
  }

  predicate BitSet(h: nat, bit: nat)
    requires 0 < bit
  {
    (h / bit) % 2 == 1
  }

  lemma BitDecides(h: nat, t: nat)
    ensures BitSet(h, Pow2(t)) <==> h % Pow2(t + 1) != h % Pow2(t)
  {
    HalfDiv(h, Pow2(t));
  }

  lemma HalfDiv(h: nat, p: nat)
    requires 0 < p
    ensures (h / p) % 2 == 1 <==> h % (2 * p) != h % p
  {
    var q, r := h / p, h % p;
    assert h == p * q + r;
    if q % 2 == 0 {
      MulTwice(p, q / 2);
      ModIs(h, 2 * p, q / 2, r);
    } else {
      MulTwice(p, q / 2);
      ModIs(h, 2 * p, q / 2, r + p);
    }
  }

  // ----- The abstract map ------------------------------------------------------------

  ghost function KeySet<K(!new), V(!new)>(all: set<Node<K, V>>): set<K> {
    set n | n in all :: n.key
  }

  ghost function Contents<K(!new), V(!new)>(all: set<Node<K, V>>): map<K, V> {
    map key | key in KeySet(all) :: ValueIn(all, key)
  }

  ghost function ValueIn<K(!new), V(!new)>(all: set<Node<K, V>>, key: K): V
    requires key in KeySet(all)
  {
    var n :| n in all && n.key == key; n.value
  }

  lemma ContentsAt<K(!new), V(!new)>(all: set<Node<K, V>>, n: Node<K, V>)
    requires UniqueKeys(all) && n in all
    ensures n.key in Contents(all) && Contents(all)[n.key] == n.value
  {
  }

  lemma ContentsAdd<K(!new), V(!new)>(all: set<Node<K, V>>, n: Node<K, V>)
    requires UniqueKeys(all) && !HasKey(all, n.key)
    ensures Contents(all + {n}) == Contents(all)[n.key := n.value]
  {
    assert UniqueKeys(all + {n});
    ContentsAt(all + {n}, n);
    forall key | key in Contents(all)
      ensures key in Contents(all + {n}) && Contents(all + {n})[key] == Contents(all)[key] {
      var m :| m in all && m.key == key;
      ContentsAt(all, m);
      ContentsAt(all + {n}, m);
    }
  }

  lemma ContentsRemove<K(!new), V(!new)>(all: set<Node<K, V>>, n: Node<K, V>)
    requires UniqueKeys(all) && n in all
    ensures Contents(all - {n}) == Contents(all) - {n.key}
  {
    forall key | key in Contents(all) && key != n.key
      ensures key in Contents(all - {n}) && Contents(all - {n})[key] == Contents(all)[key]
    {
      var m :| m in all && m.key == key;
      ContentsAt(all, m);
      ContentsAt(all - {n}, m);
    }
  }

  /** No key has two nodes, so the nodes are as many as the keys. */
  lemma {:induction false} CountOfKeys<K(!new), V(!new)>(all: set<Node<K, V>>)
    requires UniqueKeys(all)
    ensures |Contents(all)| == |all|
  {
    if all != {} {
      var n :| n in all;
      CountOfKeys(all - {n});
      ContentsRemove(all, n);
      ContentsAt(all, n);
      assert Contents(all).Keys == Contents(all - {n}).Keys + {n.key};
      assert |Contents(all).Keys| == |Contents(all - {n}).Keys| + 1;
    } else {
      assert Contents(all).Keys == {};
    }
  }

  /** Every node was allocated once, at its own address. */
  ghost predicate AllBorn<K(!new), V(!new)>(all: set<Node<K, V>>, born: seq<Node<K, V>>) {
    forall n :: n in all ==> n.id < |born| && born[n.id] == n
  }

  lemma OneMoreBorn<K(!new), V(!new)>(all: set<Node<K, V>>, born: seq<Node<K, V>>, n: Node<K, V>)
    requires AllBorn(all, born) && n.id == |born|
    ensures AllBorn(all + {n}, born + [n]) && n !in all
  {
  }

  /** If the floor was raised to the current mask, the buckets of the last segment are filled. */
  ghost predicate TopFilled(ready: set<nat>, floor: nat, k: nat) {
    1 < floor == k ==> forall i: nat :: Pow2(k - 1) <= i < Pow2(k) ==> i in ready
  }

  // ----- Moving the matching nodes ---------------------------------------------------

  /** The state of the moving loop in rehash_bucket after `t` nodes of `s` were looked at. */
  ghost function Moving<K, V>(hash: K -> nat, bs: seq<Bucket<K, V>>, s: seq<Node<K, V>>, h: nat,
                              t: nat): seq<Bucket<K, V>>
    requires 1 < h < |bs| && t <= |s|
  {
    bs[Parent(h) := Chain(Kept(hash, s[..t], h) + s[t..])][h := Chain(Moved(hash, s[..t], h))]
  }

  lemma MovingStart<K, V>(hash: K -> nat, bs: seq<Bucket<K, V>>, h: nat)
    requires 1 < h < |bs| && bs[Parent(h)].Chain? && bs[h] == Chain([])
    ensures var s := bs[Parent(h)].nodes; Kept(hash, s[..0], h) == [] && Moving(hash, bs, s, h, 0) == bs
  {
    var s := bs[Parent(h)].nodes;
    assert [] + s[0..] == s;
  }

  lemma MovingEnd<K, V>(hash: K -> nat, bs: seq<Bucket<K, V>>, s: seq<Node<K, V>>, h: nat, t: nat)
    requires 1 < h < |bs| && t <= |s| && |Kept(hash, s[..t], h) + s[t..]| <= |Kept(hash, s[..t], h)|
    ensures t == |s|
    ensures Moving(hash, bs, s, h, t) == bs[Parent(h) := Chain(Kept(hash, s, h))][h := Chain(Moved(hash, s, h))]
  {
    assert s[..|s|] == s;
    assert Kept(hash, s, h) + s[|s|..] == Kept(hash, s, h);
  }

  lemma MovingTurn<K, V>(hash: K -> nat, s: seq<Node<K, V>>, h: nat, t: nat)
    requires t < |s|
    ensures var p := |Kept(hash, s[..t], h)|;
      var rest := Kept(hash, s[..t], h) + s[t..];
      && p < |rest| && rest[p] == s[t]
      && (Matches(hash, s[t], h) ==>
            && Kept(hash, s[..t+1], h) + s[t+1..] == rest[..p] + rest[p+1..]
            && |Kept(hash, s[..t+1], h)| == p
            && Moved(hash, s[..t+1], h) == [s[t]] + Moved(hash, s[..t], h))
      && (!Matches(hash, s[t], h) ==>
            && Kept(hash, s[..t+1], h) + s[t+1..] == rest
            && |Kept(hash, s[..t+1], h)| == p + 1
            && Moved(hash, s[..t+1], h) == Moved(hash, s[..t], h))
  {
    assert s[..t+1][..t] == s[..t];
    assert s[t..] == [s[t]] + s[t+1..];
  }

  // ----- What one call fills and how it grows ----------------------------------------

  /** Whatever was filled since is on the parent path of `h`. */
  ghost predicate OnlyPathFilled(before: set<nat>, after: set<nat>, h: nat) {
    before <= after && forall i :: i in after && i !in before ==> h % Pow2(Level(i)) == i
  }

  lemma PathOfParent(before: set<nat>, after: set<nat>, h: nat)
    requires 1 < h && OnlyPathFilled(before, after, Parent(h))
    ensures OnlyPathFilled(before, after + {h}, h)
  {
    MaskIdle(h, Level(h));
    forall i | i in after && i !in before ensures h % Pow2(Level(i)) == i {
      ParentPrefix(h, Level(i));
      if Level(h) <= Level(i) { Pow2Monotone(Level(h) - 1, Level(i) - 1); }
    }
  }

  lemma OnMaskedPath(h: nat, j: nat, i: nat)
    requires 1 <= j && (h % Pow2(j)) % Pow2(Level(i)) == i
    ensures h % Pow2(Level(i)) == i
  {
    var x, l := h % Pow2(j), Level(i);
    if l <= j {
      MaskTwice(h, j, l);
    } else {
      Pow2Monotone(j, l - 1);
      Pow2Monotone(j, l);
      MaskIdle(x, l);
    }
  }

  lemma PathOfMasked(before: set<nat>, after: set<nat>, h: nat, j: nat)
    requires 1 <= j && OnlyPathFilled(before, after, h % Pow2(j))
    ensures OnlyPathFilled(before, after, h)
  {
    hide Pow2, Level;
    forall i | i in after && i !in before ensures h % Pow2(Level(i)) == i {
      OnMaskedPath(h, j, i);
    }
  }

  lemma NothingFilled(before: set<nat>, h: nat)
    ensures OnlyPathFilled(before, before, h)
  {
  }

  lemma PathFurther(r0: set<nat>, r1: set<nat>, r2: set<nat>, h: nat)
    requires OnlyPathFilled(r0, r1, h) && OnlyPathFilled(r1, r2, h)
    ensures OnlyPathFilled(r0, r2, h)
  {
  }

  /** The number of mask bits after an insertion that made `size` nodes. */
  function BitsAfter(k: nat, size: nat): nat {
    if size < Pow2(k) - 1 then k else if k < FIRST_BLOCK then FIRST_BLOCK else k + 1
  }

  // ----- The table -------------------------------------------------------------------

  class ConcurrentHashMap<K(==,!new), V(!new)> {
    const hash: K -> nat
    var mask: nat
    var buckets: seq<Bucket<K, V>>
    var my_size: nat
    var nextId: nat                 // address of the next node to allocate
    ghost var bits: nat             // mask == Pow2(bits) - 1
    ghost var floor: nat            // masks of fewer bits are not in use any more
    ghost var all: set<Node<K, V>>  // the stored nodes
    ghost var born: seq<Node<K, V>> // every node ever allocated, by address

    ghost function State(pending: set<nat>): Table<K, V>
      reads this`bits, this`floor, this`buckets
    {
      Table(bits, floor, buckets, pending)
    }

    ghost predicate Inv(pending: set<nat>)
      reads this`bits, this`floor, this`buckets, this`mask, this`all
    {
      && mask == Pow2(bits) - 1 && (bits == 1 || FIRST_BLOCK <= bits)
      && Placed(hash, State(pending), all)
    }

    ghost predicate Valid()
      reads this
    {
      && Inv({})
      && my_size == |all| && nextId == |born|
      && AllBorn(all, born) && TopFilled(Ready(State({})), floor, bits)
    }

    constructor (hash: K -> nat)
      ensures Valid() && this.hash == hash && all == {} && born == []
      ensures bits == floor == 1 && Ready(State({})) == {0, 1}
    {
      this.hash := hash;
      mask, buckets, my_size, nextId := 1, [Chain([]), Chain([])], 0, 0;
      bits, floor, all, born := 1, 1, {}, [];
      new;
      assert Ready(State({})) == {0, 1};
    }

    /** Position of `key` in bucket `b`, or the length of its chain. */
    method SearchBucket(key: K, b: nat) returns (p: nat)
      requires b < |buckets| && buckets[b].Chain?
      ensures p <= |buckets[b].nodes|
      ensures p < |buckets[b].nodes| ==> buckets[b].nodes[p].key == key
      ensures forall j :: 0 <= j < p ==> buckets[b].nodes[j].key != key
    {
      p := 0;
      while p < |buckets[b].nodes| && buckets[b].nodes[p].key != key
        invariant p <= |buckets[b].nodes|
        invariant forall j :: 0 <= j < p ==> buckets[b].nodes[j].key != key
      {
        p := p + 1;
      }
    }

    /** Get the bucket of a masked hash, filling it first if it carries the marker. */
    method Acquire(h: nat, ghost pending: set<nat>)
      requires Inv(pending) && h < |buckets| && forall i :: i in pending ==> h < i
      modifies `buckets
      ensures Inv(pending) && h < |buckets| && buckets[h].Chain? && h in Ready(State(pending))
        && |buckets| == |old(buckets)|
      ensures OnlyPathFilled(old(Ready(State(pending))), Ready(State(pending)), h)
      decreases h, 1
    {
      if buckets[h].RehashReq? {
        RehashBucket(h, pending);
      }
    }

    /** Fill bucket `h` from its parent, which is filled first if need be. */
    method RehashBucket(h: nat, ghost pending: set<nat>)
      requires Inv(pending) && 1 < h < |buckets| && buckets[h].RehashReq? && forall i :: i in pending ==> h < i
      modifies `buckets
      ensures Inv(pending) && h < |buckets| && buckets[h].Chain? && h in Ready(State(pending))
        && |buckets| == |old(buckets)|
      ensures OnlyPathFilled(old(Ready(State(pending))), Ready(State(pending)), h)
      decreases h, 0
    {
      hide Kept, Moved, Closed, OnlyPathFilled;
      ghost var before := Ready(State(pending));
      MarkKeeps(hash, State(pending), all, h);
      buckets := buckets[h := Chain([])];
      ghost var pending' := pending + {h};
      var m := Pow2(Log2(h)) - 1;
      Acquire(And(h, m), pending');
      m := 2 * m + 1;
      ghost var t0 := State(pending');
      FillKeeps(hash, t0, all, h);
      PathOfParent(before, Ready(t0), h);
      MoveNodes(Parent(h), h, m);
      assert pending' - {h} == pending;
      assert State(pending) == Filled(hash, t0, h);
    }

    /** The loop of rehash_bucket: every node of `bOld` that matches `h` under the mask `m`
        is unlinked and put at the front of `h`. */
    method MoveNodes(bOld: nat, h: nat, m: nat)
      requires 1 < h < |buckets| && bOld == Parent(h) && m == Pow2(Level(h)) - 1
      requires buckets[bOld].Chain? && buckets[h] == Chain([])
      modifies `buckets
      ensures var s := old(buckets)[bOld].nodes;
        buckets == old(buckets)[bOld := Chain(Kept(hash, s, h))][h := Chain(Moved(hash, s, h))]
    {
      hide Kept, Moved;
      ghost var s := buckets[bOld].nodes;
      ghost var t := 0;
      MovingStart(hash, buckets, h);
      var p := 0;
      while p < |buckets[bOld].nodes|
        invariant t <= |s| && p == |Kept(hash, s[..t], h)|
        invariant buckets == Moving(hash, old(buckets), s, h, t)
        decreases |s| - t
      {
        MovingTurn(hash, s, h, t);
        var n := buckets[bOld].nodes[p];
        if And(hash(n.key), m) == h {
          buckets := buckets[bOld := Chain(buckets[bOld].nodes[..p] + buckets[bOld].nodes[p+1..])];
          buckets := buckets[h := Chain([n] + buckets[h].nodes)];
        } else {
          p := p + 1;
        }
        t := t + 1;
      }
      MovingEnd(hash, old(buckets), s, h, t);
    }

    /** Did the table grow since the mask `mOld` was read in a way that matters for `h`?
        The caller holds the filled bucket h & mOld.  Answers whether `h` belongs elsewhere. */
    method CheckMaskRace(h: nat, mOld: nat, ghost j: nat) returns (race: bool, m: nat)
      requires Inv({}) && floor <= j <= bits && mOld == Pow2(j) - 1 && And(h, mOld) in Ready(State({}))
      ensures m == mask
      ensures race <==> Home(Ready(State({})), bits, h) != And(h, mOld)
      ensures race ==> mOld != mask
    {
      m := mask;
      if mOld != m {
        race := CheckRehashingCollision(h, mOld, m, j);
      } else {
        race := false;
        HomeIfSame(Ready(State({})), j, bits, h);
      }
    }

    method CheckRehashingCollision(h: nat, mOld: nat, m: nat, ghost j: nat) returns (race: bool)
      requires Inv({}) && floor <= j <= bits && mOld == Pow2(j) - 1 && And(h, mOld) in Ready(State({}))
      requires m == mask
      ensures race <==> Home(Ready(State({})), bits, h) != And(h, mOld)
    {
      if And(h, mOld) != And(h, m) {
        if j == bits { assert false; }
        var full, l := NextMask(h, mOld, j, bits);
        Pow2Monotone(l, bits);
        race := !buckets[And(h, full)].RehashReq?;
        NextDecides(State({}), j, l, h);
      } else {
        race := false;
        HomeIfSame(Ready(State({})), j, bits, h);
      }
    }

    /** Add a segment of unfilled buckets and publish the larger mask.  The buckets of an
        initial segment, added to an empty table, count as filled. */
    method EnableSegment(k: nat, isInitial: bool)
      requires Inv({}) && k == bits && (isInitial ==> all == {})
      modifies `buckets, `mask, `bits, `floor
      ensures Inv({}) && old(bits) < bits
      ensures bits == if k < FIRST_BLOCK then FIRST_BLOCK else k + 1
      ensures !isInitial ==> floor == old(floor) && Ready(State({})) == old(Ready(State({})))
      ensures isInitial ==> floor == if old(NoMarks(State({}))) then old(floor) else bits
      ensures isInitial ==> (NoMarks(State({})) <==> old(NoMarks(State({}))))
      ensures isInitial ==> forall i :: |old(buckets)| <= i < |buckets| ==> buckets[i].Chain?
      ensures |old(buckets)| <= |buckets| && buckets[..|old(buckets)|] == old(buckets)
    {
      hide Closed, Home;
      ghost var k' := if k < FIRST_BLOCK then FIRST_BLOCK else k + 1;
      var sz := if k < FIRST_BLOCK then Pow2(FIRST_BLOCK) else 2 * Pow2(k);
      assert sz == Pow2(k');
      Pow2Monotone(k, k');
      if isInitial {
        ghost var f := if NoMarks(State({})) then floor else k';
        GrowFilledKeeps(hash, State({}), k', f);
        assert GrownFilled(State({}), k', f).buckets == buckets + seq(sz - |buckets|, _ => Chain([]));
        buckets := buckets + seq(sz - |buckets|, _ => Chain([]));
        floor := f;
      } else {
        GrowKeeps(hash, State({}), all, k');
        assert Grown(State({}), k').buckets == buckets + seq(sz - |buckets|, _ => RehashReq);
        buckets := buckets + seq(sz - |buckets|, _ => RehashReq);
      }
      mask := sz - 1;
      bits := k';
    }

    /** insert_new_node: count and link a new node; answers the segment to enable, or 0. */
    method InsertNewNode(b: nat, n: Node<K, V>, m: nat) returns (growSegment: nat)
      requires Valid() && b in Ready(State({})) && HomeOf(hash, State({}), n.key) == b
      requires !HasKey(all, n.key) && n.id == nextId && m == mask
      modifies `buckets, `my_size, `all, `nextId, `born
      ensures Valid() && all == old(all) + {n} && born == old(born) + [n]
      ensures Ready(State({})) == old(Ready(State({})))
      ensures growSegment == if my_size >= m then Log2(m + 1) else 0
    {
      hide Closed, Placed, Home, AllBorn, HasKey, TopFilled, UniqueKeys, Level;
      OneMoreBorn(all, born, n);
      InsertKeeps(hash, State({}), all, b, n);
      my_size := my_size + 1;
      buckets := buckets[b := Chain([n] + buckets[b].nodes)];
      assert State({}) == WithFront(old(State({})), b, n);
      all := all + {n};
      nextId, born := nextId + 1, born + [n];
      growSegment := if my_size >= m then Log2(m + 1) else 0;
    }

    /** The inserting half of lookup(), with the growth that follows it. */
    method InsertAbsent(b: nat, key: K, value: V, m: nat) returns (n: Node<K, V>)
      requires Valid() && m == mask && b in Ready(State({})) && HomeOf(hash, State({}), key) == b
      requires !HasKey(all, key)
      modifies `buckets, `my_size, `all, `nextId, `born, `mask, `bits, `floor
      ensures Valid() && floor == old(floor) && old(mask) <= mask
      ensures n == Node(|old(born)|, key, value) && all == old(all) + {n} && born == old(born) + [n]
      ensures Contents(all) == old(Contents(all))[key := value]
      ensures Ready(State({})) == old(Ready(State({}))) && bits == BitsAfter(old(bits), |all|)
    {
      hide Closed, Placed, Contents, HasKey, Home, Ready, AllBorn;
      InvGivesBits();
      n := Node(nextId, key, value);
      ContentsAdd(all, n);
      LevelIs(m + 1, bits + 1);
      var growSegment := InsertNewNode(b, n, m);
      if growSegment != 0 { EnableSegment(growSegment, false); }
    }

    /** The number of enabled segments. */
    function SegmentCount(): (n: nat)
      reads this`mask
    {
      Log2(mask + 1)
    }

    lemma InvGivesShape(pending: set<nat>)
      requires Inv(pending)
      ensures 1 <= bits && |buckets| == Pow2(bits) && SegmentCount() == bits
    {
      LevelIs(mask + 1, bits + 1);
    }

    lemma InvGivesBits()
      requires Inv({})
      ensures 1 <= floor <= bits && |buckets| == Pow2(bits) && UniqueKeys(all)
    {
    }

    /** lookup(): insert (opInsert) or find.  Answers whether a node was inserted or found;
        `node` is the node a result accessor would then hold. */
    method Lookup(opInsert: bool, key: K, t: Option<V>, staleMask: nat, ghost j: nat)
      returns (ret: bool, node: Option<Node<K, V>>)
      requires opInsert ==> t.Some?
      requires Valid() && floor <= j <= bits && staleMask == Pow2(j) - 1
      modifies this
      ensures Valid() && old(mask) <= mask && floor == old(floor)
      ensures !opInsert ==> all == old(all) && ret == (key in Contents(all))
      ensures opInsert ==> ret == (key !in old(Contents(all)))
      ensures opInsert ==> Contents(all) == if ret then old(Contents(all))[key := t.value] else old(Contents(all))
      ensures node.Some? <==> opInsert || ret
      ensures node.Some? ==>
        node.value in all && node.value.key == key && key in Contents(all) && node.value.value == Contents(all)[key]
      ensures opInsert && ret ==>
        && node.value == Node(|old(born)|, key, t.value) && all == old(all) + {node.value}
        && born == old(born) + [node.value]
      ensures !(opInsert && ret) ==> all == old(all) && born == old(born)
      ensures bits == if opInsert && ret then BitsAfter(old(bits), |all|) else old(bits)
      ensures OnlyPathFilled(old(Ready(State({}))), Ready(State({})), hash(key))
    {
      hide Placed, Closed, Home, Contents, HasKey, Ready, OnlyPathFilled;
      ghost var before := Ready(State({}));
      NothingFilled(before, hash(key));
      var h := hash(key);
      var m := staleMask;
      ghost var jm := j;
      Pow2Monotone(j, bits);
      while true
        invariant Valid() && floor == old(floor) && floor <= jm <= bits && m == Pow2(jm) - 1
        invariant all == old(all) && mask == old(mask) && bits == old(bits) && born == old(born) && m <= mask
        invariant OnlyPathFilled(before, Ready(State({})), h)
        decreases mask - m
      {
        var b := And(h, m);
        AndInTable(h, jm);
        ghost var ready := Ready(State({}));
        Acquire(b, {});
        InvGivesBits();
        PathOfMasked(ready, Ready(State({})), h, jm);
        PathFurther(before, ready, Ready(State({})), h);
        var p := SearchBucket(key, b);
        if p < |buckets[b].nodes| {
          var n := buckets[b].nodes[p];
          KeyFound(b, p);
          ret, node := !opInsert, Some(n);
          return;
        }
        var race, mNow := CheckMaskRace(h, m, jm);
        m := mNow;
        jm := bits;
        if !race {
          KeyAbsent(b, key);
          if !opInsert {
            ret, node := false, None;
            return;
          }
          var n := InsertAbsent(b, key, t.value, m);
          InvGivesBits();
          ContentsAt(all, n);
          ret, node := true, Some(n);
          return;
        }
      }
    }

    lemma AndInTable(h: nat, j: nat)
      requires Inv({}) && j <= bits
      ensures 1 <= bits && h % Pow2(j) < |buckets|
    {
      Pow2Monotone(j, bits);
    }

    lemma KeyFound(b: nat, p: nat)
      requires Inv({}) && b in Ready(State({})) && p < |buckets[b].nodes|
      ensures UniqueKeys(all)
      ensures var n := buckets[b].nodes[p]; n in all && n.key in Contents(all) && Contents(all)[n.key] == n.value
    {
      var n := buckets[b].nodes[p];
      assert n in buckets[b].nodes;
      ContentsAt(all, n);
    }

    lemma KeyAbsent(b: nat, key: K)
      requires Inv({}) && b in Ready(State({})) && HomeOf(hash, State({}), key) == b
      requires forall j :: 0 <= j < |buckets[b].nodes| ==> buckets[b].nodes[j].key != key
      ensures UniqueKeys(all) && !HasKey(all, key) && key !in Contents(all)
    {
      HomeDecides(hash, State({}), all, key);
    }

    /** Unlink the node at position `p` of bucket `b`. */
    method Unlink(b: nat, p: nat)
      requires Valid() && b in Ready(State({})) && p < |buckets[b].nodes|
      modifies `buckets, `my_size, `all
      ensures Valid() && all == old(all) - {old(buckets[b].nodes[p])} && Ready(State({})) == old(Ready(State({})))
    {
      hide Closed, Placed;
      RemoveKeeps(hash, State({}), all, b, p);
      StoredIsCounted(b, p);
      all := all - {buckets[b].nodes[p]};
      buckets := buckets[b := Chain(buckets[b].nodes[..p] + buckets[b].nodes[p+1..])];
      my_size := my_size - 1;
      assert State({}) == Without(old(State({})), b, p);
    }

    lemma StoredIsCounted(b: nat, p: nat)
      requires Inv({}) && b in Ready(State({})) && p < |buckets[b].nodes|
      ensures buckets[b].nodes[p] in all && |all - {buckets[b].nodes[p]}| == |all| - 1
    {
      assert buckets[b].nodes[p] in buckets[b].nodes;
    }

    lemma NoneHasKey(all: set<Node<K, V>>, key: K)
      requires !HasKey(all, key)
      ensures forall n :: n in all ==> n.key != key
    {
    }

    /** erase(key): answers whether the key was there. */
    method Erase(key: K, staleMask: nat, ghost j: nat) returns (ret: bool)
      requires Valid() && floor <= j <= bits && staleMask == Pow2(j) - 1
      modifies this
      ensures Valid() && mask == old(mask) && bits == old(bits) && floor == old(floor) && born == old(born)
      ensures ret == (key in old(Contents(all))) && Contents(all) == old(Contents(all)) - {key}
      ensures forall n :: n in all <==> n in old(all) && n.key != key
      ensures OnlyPathFilled(old(Ready(State({}))), Ready(State({})), hash(key))
    {
      hide Placed, Closed, Home, Contents, HasKey, Ready, OnlyPathFilled;
      ghost var before := Ready(State({}));
      NothingFilled(before, hash(key));
      var h := hash(key);
      var m := staleMask;
      ghost var jm := j;
      Pow2Monotone(j, bits);
      while true
        invariant Valid() && floor == old(floor) && floor <= jm <= bits && m == Pow2(jm) - 1
        invariant all == old(all) && mask == old(mask) && bits == old(bits) && born == old(born) && m <= mask
        invariant OnlyPathFilled(before, Ready(State({})), h)
        decreases mask - m
      {
        var b := And(h, m);
        AndInTable(h, jm);
        ghost var ready := Ready(State({}));
        Acquire(b, {});
        InvGivesBits();
        PathOfMasked(ready, Ready(State({})), h, jm);
        PathFurther(before, ready, Ready(State({})), h);
        var p := SearchBucket(key, b);
        if p < |buckets[b].nodes| {
          KeyFound(b, p);
          ContentsRemove(all, buckets[b].nodes[p]);
          Unlink(b, p);
          return true;
        }
        var race, mNow := CheckMaskRace(h, m, jm);
        m := mNow;
        jm := bits;
        if !race {
          KeyAbsent(b, key);
          NoneHasKey(all, key);
          return false;
        }
      }
    }

    /** exclude(): erase the very node an accessor holds.  Answers whether it was still
        linked; a node with the same key that was inserted later is left alone. */
    method Exclude(n: Node<K, V>, staleMask: nat, ghost j: nat) returns (ret: bool)
      requires Valid() && floor <= j <= bits && staleMask == Pow2(j) - 1 && n.id < |born| && born[n.id] == n
      modifies this
      ensures Valid() && mask == old(mask) && bits == old(bits) && floor == old(floor) && born == old(born)
      ensures ret == (n in old(all)) && all == old(all) - {n}
      ensures Contents(all) == if ret then old(Contents(all)) - {n.key} else old(Contents(all))
    {
      hide Placed, Closed, Home, Contents, HasKey, Ready;
      var h := hash(n.key);
      var m := staleMask;
      ghost var jm := j;
      Pow2Monotone(j, bits);
      while true
        invariant Valid() && floor == old(floor) && floor <= jm <= bits && m == Pow2(jm) - 1
        invariant all == old(all) && mask == old(mask) && bits == old(bits) && born == old(born) && m <= mask
        decreases mask - m
      {
        var b := And(h, m);
        AndInTable(h, jm);
        Acquire(b, {});
        var p := 0;
        while p < |buckets[b].nodes| && buckets[b].nodes[p].id != n.id
          invariant p <= |buckets[b].nodes|
          invariant forall j :: 0 <= j < p ==> buckets[b].nodes[j] != n
        {
          p := p + 1;
        }
        if p < |buckets[b].nodes| {
          KeyFound(b, p);
          ContentsRemove(all, n);
          Unlink(b, p);
          return true;
        }
        var race, mNow := CheckMaskRace(h, m, jm);
        m := mNow;
        jm := bits;
        if !race {
          NodeAbsent(b, n);
          assert all - {n} == all;
          return false;
        }
      }
    }

    lemma NodeAbsent(b: nat, n: Node<K, V>)
      requires Inv({}) && b in Ready(State({})) && HomeOf(hash, State({}), n.key) == b
      requires forall j :: 0 <= j < |buckets[b].nodes| ==> buckets[b].nodes[j] != n
      ensures n !in all
    {
    }
  }

  /** Looking at the next bucket of the path is enough to know whether h & mask is the home. */
  lemma NextDecides<K, V>(t: Table<K, V>, j: nat, l: nat, h: nat)
    requires Shape(t) && t.floor <= j && NextLevel(h, j, l) && l <= t.k && h % Pow2(j) in Ready(t)
    ensures h % Pow2(l) < |t.buckets|
    ensures h % Pow2(l) !in t.pending ==> (t.buckets[h % Pow2(l)].RehashReq? <==> Home(Ready(t), t.k, h) == h % Pow2(j))
  {
    hide Closed, NextLevel;
    Pow2Monotone(l, t.k);
    if h % Pow2(l) in Ready(t) {
      HomeIfNextFilled(Ready(t), j, l, t.k, h);
    } else {
      HomeIfNextEmpty(Ready(t), t.floor, j, l, t.k, h);
    }
  }

  /** The first mask above `mOld` that selects another bucket for `h`. */
  method NextMask(h: nat, mOld: nat, ghost j: nat, ghost k: nat) returns (full: nat, ghost l: nat)
    requires 1 <= j < k && mOld == Pow2(j) - 1 && h % Pow2(k) != h % Pow2(j)
    ensures NextLevel(h, j, l) && l <= k && full == Pow2(l) - 1
  {
    var bit := mOld + 1;
    l := j;
    while !BitSet(h, bit)
      invariant j <= l < k && bit == Pow2(l)
      invariant forall u :: j <= u <= l ==> h % Pow2(u) == h % Pow2(j)
      decreases k - l
    {
      BitDecides(h, l);
      bit := 2 * bit;
      l := l + 1;
    }
    BitDecides(h, l);
    l := l + 1;
    full := 2 * bit - 1;
  }
}
