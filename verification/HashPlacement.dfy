/** Where the nodes of concurrent_hash_map.h are. */
module HashPlacement {
  // Some buckets are filled, others still carry the "rehash required" marker.  Here is what each
  // change of the table does to the placement of the nodes.

  import opened HashIndex

  /** `id` stands for the address of the node. */
  datatype Node<K, V> = Node(id: nat, key: K, value: V)

  datatype Bucket<K, V> = RehashReq | Chain(nodes: seq<Node<K, V>>)

  /** A table of k-bit mask.  Above level `floor` a filled bucket has a filled parent (see
      HashRehash for the one call that raises the floor).  The pending buckets carry no marker any more but their nodes
      have not been moved yet: they belong to rehash_bucket calls in progress. */
  datatype Table<K, V> = Table(k: nat, floor: nat, buckets: seq<Bucket<K, V>>, pending: set<nat>)

  ghost function Ready<K, V>(t: Table<K, V>): (r: set<nat>) {
    set i | 0 <= i < |t.buckets| && t.buckets[i].Chain? && i !in t.pending
  }

  ghost predicate DistinctKeys<K, V>(s: seq<Node<K, V>>) {
    forall i, j :: 0 <= i < j < |s| ==> s[i].key != s[j].key
  }

  ghost predicate Shape<K, V>(t: Table<K, V>) {
    && 1 <= t.floor <= t.k && |t.buckets| == Pow2(t.k)
    && Closed(Ready(t), t.floor)
    && (forall i :: i in t.pending ==> i < |t.buckets| && 1 < i && t.buckets[i] == Chain([]))
    && (forall i :: 0 <= i < |t.buckets| && t.buckets[i].Chain? ==> DistinctKeys(t.buckets[i].nodes))
  }

  ghost predicate UniqueKeys<K(!new), V(!new)>(all: set<Node<K, V>>) {
    forall m, n :: m in all && n in all && m.key == n.key ==> m == n
  }

  ghost function HomeOf<K, V>(hash: K -> nat, t: Table<K, V>, key: K): (b: nat)
    requires 1 <= t.k
    ensures b < Pow2(t.k)
  {
    Home(Ready(t), t.k, hash(key))
  }

  /** Exactly the nodes of `all` are stored, each in the deepest filled bucket on the parent
      path of its hash. */
  ghost predicate Placed<K(!new), V(!new)>(hash: K -> nat, t: Table<K, V>, all: set<Node<K, V>>) {
    && Shape(t)
    && UniqueKeys(all)
    && (forall i, n :: i in Ready(t) && n in t.buckets[i].nodes ==> n in all && HomeOf(hash, t, n.key) == i)
    && (forall n :: n in all ==> HomeOf(hash, t, n.key) in Ready(t) && n in t.buckets[HomeOf(hash, t, n.key)].nodes)
  }

  // ----- Splitting a chain -----------------------------------------------------------

  predicate Matches<K, V>(hash: K -> nat, n: Node<K, V>, i: nat) {
    hash(n.key) % Pow2(Level(i)) == i
  }

  /** The nodes of a parent chain that stay when bucket `i` is filled, in order. */
  function Kept<K, V>(hash: K -> nat, s: seq<Node<K, V>>, i: nat): seq<Node<K, V>> {
    if s == [] then []
    else if Matches(hash, s[|s|-1], i) then Kept(hash, s[..|s|-1], i)
    else Kept(hash, s[..|s|-1], i) + [s[|s|-1]]
  }

  /** The nodes that move to bucket `i`; each is put at the front of its new chain. */
  function Moved<K, V>(hash: K -> nat, s: seq<Node<K, V>>, i: nat): seq<Node<K, V>> {
    if s == [] then []
    else if Matches(hash, s[|s|-1], i) then [s[|s|-1]] + Moved(hash, s[..|s|-1], i)
    else Moved(hash, s[..|s|-1], i)
  }

  lemma {:induction false} SplitMembers<K, V>(hash: K -> nat, s: seq<Node<K, V>>, i: nat, n: Node<K, V>)
    ensures n in Kept(hash, s, i) <==> n in s && !Matches(hash, n, i)
    ensures n in Moved(hash, s, i) <==> n in s && Matches(hash, n, i)
  {
    if s != [] {
      SplitMembers(hash, s[..|s|-1], i, n);
      assert s == s[..|s|-1] + [s[|s|-1]];
    }
  }

  /** Nothing is lost and nothing is duplicated. */
  lemma {:induction false} SplitKeepsAll<K, V>(hash: K -> nat, s: seq<Node<K, V>>, i: nat)
    ensures multiset(Kept(hash, s, i)) + multiset(Moved(hash, s, i)) == multiset(s)
  {
    if s != [] {
      var r, x := s[..|s|-1], s[|s|-1];
      SplitKeepsAll(hash, r, i);
      assert s == r + [x];
    }
  }

  lemma DistinctWith<K, V>(s: seq<Node<K, V>>, x: Node<K, V>)
    requires DistinctKeys(s) && forall j :: 0 <= j < |s| ==> s[j].key != x.key
    ensures DistinctKeys(s + [x]) && DistinctKeys([x] + s)
  {
  }

  lemma OtherKeys<K, V>(hash: K -> nat, s: seq<Node<K, V>>, i: nat, x: Node<K, V>)
    requires forall j :: 0 <= j < |s| ==> s[j].key != x.key
    ensures forall j :: 0 <= j < |Kept(hash, s, i)| ==> Kept(hash, s, i)[j].key != x.key
    ensures forall j :: 0 <= j < |Moved(hash, s, i)| ==> Moved(hash, s, i)[j].key != x.key
  {
    forall j | 0 <= j < |Kept(hash, s, i)| ensures Kept(hash, s, i)[j].key != x.key {
      SplitMembers(hash, s, i, Kept(hash, s, i)[j]);
    }
    forall j | 0 <= j < |Moved(hash, s, i)| ensures Moved(hash, s, i)[j].key != x.key {
      SplitMembers(hash, s, i, Moved(hash, s, i)[j]);
    }
  }

  lemma {:induction false} SplitDistinct<K, V>(hash: K -> nat, s: seq<Node<K, V>>, i: nat)
    requires DistinctKeys(s)
    ensures DistinctKeys(Kept(hash, s, i)) && DistinctKeys(Moved(hash, s, i))
  {
    if s != [] {
      var r, x := s[..|s|-1], s[|s|-1];
      SplitDistinct(hash, r, i);
      OtherKeys(hash, r, i, x);
      DistinctWith(Kept(hash, r, i), x);
      DistinctWith(Moved(hash, r, i), x);
    }
  }

  // ----- What the changes of the table keep ------------------------------------------

  /** Clearing the marker of a bucket before its nodes are moved changes nothing yet. */
  lemma MarkKeeps<K(!new), V(!new)>(hash: K -> nat, t: Table<K, V>, all: set<Node<K, V>>, i: nat)
    requires Placed(hash, t, all) && 1 < i < |t.buckets| && t.buckets[i].RehashReq?
    ensures var t' := t.(buckets := t.buckets[i := Chain([])], pending := t.pending + {i});
      Placed(hash, t', all) && Ready(t') == Ready(t)
  {
    var t' := t.(buckets := t.buckets[i := Chain([])], pending := t.pending + {i});
    assert Ready(t') == Ready(t);
  }

  ghost function Filled<K, V>(hash: K -> nat, t: Table<K, V>, i: nat): (t': Table<K, V>)
    requires 1 < i < |t.buckets| && t.buckets[Parent(i)].Chain?
    ensures |t'.buckets| == |t.buckets|
  {
    var s := t.buckets[Parent(i)].nodes;
    t.(buckets := t.buckets[Parent(i) := Chain(Kept(hash, s, i))][i := Chain(Moved(hash, s, i))],
       pending := t.pending - {i})
  }

  lemma FilledReady<K, V>(hash: K -> nat, t: Table<K, V>, i: nat)
    requires Shape(t) && i in t.pending && Parent(i) in Ready(t)
    ensures Ready(Filled(hash, t, i)) == Ready(t) + {i}
  {
  }

  lemma FilledShape<K, V>(hash: K -> nat, t: Table<K, V>, i: nat)
    requires Shape(t) && i in t.pending && Parent(i) in Ready(t)
    ensures Shape(Filled(hash, t, i))
  {
    FilledReady(hash, t, i);
    SplitDistinct(hash, t.buckets[Parent(i)].nodes, i);
  }

  /** Moving the matching nodes from the parent puts every node where it now belongs. */
  lemma FillKeeps<K(!new), V(!new)>(hash: K -> nat, t: Table<K, V>, all: set<Node<K, V>>, i: nat)
    requires Placed(hash, t, all) && i in t.pending && Parent(i) in Ready(t)
    ensures Placed(hash, Filled(hash, t, i), all)
    ensures Ready(Filled(hash, t, i)) == Ready(t) + {i}
  {
    FilledReady(hash, t, i);
    FilledShape(hash, t, i);
    var t' := Filled(hash, t, i);
    forall n: Node<K, V>
      ensures HomeOf(hash, t', n.key)
        == if Matches(hash, n, i) && HomeOf(hash, t, n.key) == Parent(i) then i else HomeOf(hash, t, n.key)
    {
      HomeUnderFill(Ready(t), t.k, i, hash(n.key));
    }
    forall n: Node<K, V> ensures n in t'.buckets[i].nodes <==> n in t.buckets[Parent(i)].nodes && Matches(hash, n, i)
    {
      SplitMembers(hash, t.buckets[Parent(i)].nodes, i, n);
    }
    forall n: Node<K, V>
      ensures n in t'.buckets[Parent(i)].nodes <==> n in t.buckets[Parent(i)].nodes && !Matches(hash, n, i)
    {
      SplitMembers(hash, t.buckets[Parent(i)].nodes, i, n);
    }
  }

  ghost function Grown<K, V>(t: Table<K, V>, k: nat): Table<K, V>
    requires |t.buckets| <= Pow2(k)
  {
    t.(k := k, buckets := t.buckets + seq(Pow2(k) - |t.buckets|, _ => RehashReq))
  }

  lemma GrownReady<K, V>(t: Table<K, V>, k: nat)
    requires |t.buckets| <= Pow2(k)
    ensures Ready(Grown(t, k)) == Ready(t)
  {
  }

  /** A new segment of unfilled buckets moves nothing. */
  lemma GrowKeeps<K(!new), V(!new)>(hash: K -> nat, t: Table<K, V>, all: set<Node<K, V>>, k: nat)
    requires Placed(hash, t, all) && t.k <= k && |t.buckets| <= Pow2(k)
    ensures Placed(hash, Grown(t, k), all) && Ready(Grown(t, k)) == Ready(t)
  {
    GrownReady(t, k);
    forall n: Node<K, V> ensures HomeOf(hash, Grown(t, k), n.key) == HomeOf(hash, t, n.key) {
      HomeUnderGrowth(Ready(t), t.k, k, hash(n.key));
    }
  }

  /** The same for a table without nodes whose new buckets count as filled: that may leave a
      filled bucket below an unfilled one, up to the new level. */
  ghost function GrownFilled<K, V>(t: Table<K, V>, k: nat, floor: nat): Table<K, V>
    requires |t.buckets| <= Pow2(k)
  {
    t.(k := k, floor := floor, buckets := t.buckets + seq(Pow2(k) - |t.buckets|, _ => Chain([])))
  }

  ghost predicate NoMarks<K, V>(t: Table<K, V>) {
    forall i :: 0 <= i < |t.buckets| ==> t.buckets[i].Chain?
  }

  lemma GrowFilledKeeps<K(!new), V(!new)>(hash: K -> nat, t: Table<K, V>, k: nat, floor: nat)
    requires Placed(hash, t, {}) && t.pending == {} && t.k <= k && |t.buckets| <= Pow2(k)
    requires if NoMarks(t) then floor == t.floor else floor == k
    ensures Placed(hash, GrownFilled(t, k, floor), {})
    ensures NoMarks(GrownFilled(t, k, floor)) <==> NoMarks(t)
  {
    var t' := GrownFilled(t, k, floor);
    GrownFilledClosed(t, k, floor);
    forall i | i in Ready(t') ensures t'.buckets[i].nodes == [] {
      if i < |t.buckets| {
        assert i in Ready(t) && t'.buckets[i] == t.buckets[i];
        ChainIsStored(hash, t, {}, i);
      } else {
        assert t'.buckets[i] == Chain([]);
      }
    }
  }

  lemma ChainIsStored<K(!new), V(!new)>(hash: K -> nat, t: Table<K, V>, all: set<Node<K, V>>, i: nat)
    requires Placed(hash, t, all) && i in Ready(t)
    ensures forall j :: 0 <= j < |t.buckets[i].nodes| ==> t.buckets[i].nodes[j] in all
    ensures all == {} ==> t.buckets[i].nodes == []
  {
    forall j | 0 <= j < |t.buckets[i].nodes| ensures t.buckets[i].nodes[j] in all {
      assert t.buckets[i].nodes[j] in t.buckets[i].nodes;
    }
    assert 0 < |t.buckets[i].nodes| ==> t.buckets[i].nodes[0] in all;
  }

  lemma GrownFilledClosed<K, V>(t: Table<K, V>, k: nat, floor: nat)
    requires Shape(t) && t.pending == {} && t.k <= k && |t.buckets| <= Pow2(k)
    requires if NoMarks(t) then floor == t.floor else floor == k
    ensures Closed(Ready(GrownFilled(t, k, floor)), floor)
    ensures NoMarks(GrownFilled(t, k, floor)) <==> NoMarks(t)
  {
    var t' := GrownFilled(t, k, floor);
    assert forall i :: 0 <= i < |t.buckets| ==> t'.buckets[i] == t.buckets[i];
    forall i | i in Ready(t') && 1 < i && floor < Level(i) ensures Parent(i) in Ready(t') {
      if NoMarks(t) {
        assert Parent(i) < |t'.buckets|;
      } else {
        LevelLeast(i, k);
      }
    }
  }

  ghost predicate HasKey<K, V>(all: set<Node<K, V>>, key: K) {
    exists n :: n in all && n.key == key
  }

  /** A search of the home bucket is a search of the table. */
  lemma HomeDecides<K(!new), V(!new)>(hash: K -> nat, t: Table<K, V>, all: set<Node<K, V>>, key: K)
    requires Placed(hash, t, all)
    ensures HomeOf(hash, t, key) in Ready(t)
    ensures HasKey(all, key) <==> exists n :: n in t.buckets[HomeOf(hash, t, key)].nodes && n.key == key
  {
    HomeIsReady(Ready(t), t.k, hash(key));
  }

  /** Whatever is found in a filled bucket is in the table, wherever the search started. */
  lemma FoundIsStored<K(!new), V(!new)>(hash: K -> nat, t: Table<K, V>, all: set<Node<K, V>>, b: nat, n: Node<K, V>)
    requires Placed(hash, t, all) && b in Ready(t) && n in t.buckets[b].nodes
    ensures n in all && HomeOf(hash, t, n.key) == b
  {
  }

  ghost function WithFront<K, V>(t: Table<K, V>, b: nat, n: Node<K, V>): Table<K, V>
    requires b < |t.buckets| && t.buckets[b].Chain?
  {
    t.(buckets := t.buckets[b := Chain([n] + t.buckets[b].nodes)])
  }

  lemma FrontReady<K, V>(t: Table<K, V>, b: nat, n: Node<K, V>)
    requires b < |t.buckets| && t.buckets[b].Chain?
    ensures Ready(WithFront(t, b, n)) == Ready(t)
  {
  }

  lemma CutReady<K, V>(t: Table<K, V>, b: nat, p: nat)
    requires b < |t.buckets| && t.buckets[b].Chain? && p < |t.buckets[b].nodes|
    ensures Ready(Without(t, b, p)) == Ready(t)
  {
  }

  /** Inserting a new key at the front of its home bucket. */
  lemma InsertKeeps<K(!new), V(!new)>(hash: K -> nat, t: Table<K, V>, all: set<Node<K, V>>, b: nat, n: Node<K, V>)
    requires Placed(hash, t, all) && !HasKey(all, n.key) && b in Ready(t) && HomeOf(hash, t, n.key) == b
    ensures Placed(hash, WithFront(t, b, n), all + {n}) && Ready(WithFront(t, b, n)) == Ready(t)
  {
    var t' := WithFront(t, b, n);
    FrontReady(t, b, n);
    assert forall m :: m in t.buckets[b].nodes ==> m in all;
    DistinctWith(t.buckets[b].nodes, n);
  }

  ghost function Without<K, V>(t: Table<K, V>, b: nat, p: nat): Table<K, V>
    requires b < |t.buckets| && t.buckets[b].Chain? && p < |t.buckets[b].nodes|
  {
    t.(buckets := t.buckets[b := Chain(t.buckets[b].nodes[..p] + t.buckets[b].nodes[p+1..])])
  }

  lemma RemoveAt<K, V>(s: seq<Node<K, V>>, p: nat)
    requires DistinctKeys(s) && p < |s|
    ensures DistinctKeys(s[..p] + s[p+1..])
    ensures forall n :: n in s[..p] + s[p+1..] <==> n in s && n != s[p]
  {
    var r := s[..p] + s[p+1..];
    forall n | n in s && n != s[p] ensures n in r {
      var j :| 0 <= j < |s| && s[j] == n;
      assert j != p;
      assert r[if j < p then j else j - 1] == n;
    }
    forall j | 0 <= j < |r| ensures r[j] in s && r[j] != s[p] {
      assert r[j] == s[if j < p then j else j + 1];
    }
  }

  /** Unlinking the node at position `p` of a filled bucket. */
  lemma RemoveKeeps<K(!new), V(!new)>(hash: K -> nat, t: Table<K, V>, all: set<Node<K, V>>, b: nat, p: nat)
    requires Placed(hash, t, all) && b in Ready(t) && p < |t.buckets[b].nodes|
    ensures Placed(hash, Without(t, b, p), all - {t.buckets[b].nodes[p]}) && Ready(Without(t, b, p)) == Ready(t)
  {
    var t' := Without(t, b, p);
    CutReady(t, b, p);
    RemoveAt(t.buckets[b].nodes, p);
  }

  ghost predicate Marked<K, V>(t: Table<K, V>, i: nat) {
    i < |t.buckets| && t.buckets[i].RehashReq?
  }

  /** Does check_mask_race answer false for hash `h` and a mask of `j` bits?  Either the
      current mask selects the same bucket, or the next bucket of the path carries the marker. */
  ghost predicate NoMaskRace<K, V>(t: Table<K, V>, h: nat, j: nat) {
    h % Pow2(t.k) == h % Pow2(j) || exists l: nat :: NextLevel(h, j, l) && l <= t.k && Marked(t, h % Pow2(l))
  }

  lemma HomeIfNoRace<K, V>(t: Table<K, V>, h: nat, j: nat)
    requires Shape(t) && t.floor <= j <= t.k && h % Pow2(j) in Ready(t) && NoMaskRace(t, h, j)
    ensures Home(Ready(t), t.k, h) == h % Pow2(j)
  {
    hide NextLevel, Closed;
    if h % Pow2(t.k) == h % Pow2(j) {
      HomeIfSame(Ready(t), j, t.k, h);
    } else {
      var l: nat :| NextLevel(h, j, l) && l <= t.k && Marked(t, h % Pow2(l));
      HomeIfNextEmpty(Ready(t), t.floor, j, l, t.k, h);
    }
  }

  /** Stale-mask safety.  A thread holds a filled bucket that it chose with an older mask.  If
      check_mask_race answers false, that bucket is the home of the key: the key is in the
      table exactly when it is in this chain. */
  lemma StaleMaskSafe<K(!new), V(!new)>(hash: K -> nat, t: Table<K, V>, all: set<Node<K, V>>, key: K, j: nat)
    requires Placed(hash, t, all) && t.floor <= j <= t.k
    requires hash(key) % Pow2(j) in Ready(t) && NoMaskRace(t, hash(key), j)
    ensures HomeOf(hash, t, key) == hash(key) % Pow2(j)
    ensures HasKey(all, key) <==> exists n :: n in t.buckets[HomeOf(hash, t, key)].nodes && n.key == key
  {
    hide Closed, NoMaskRace, Home;
    HomeIfNoRace(t, hash(key), j);
    HomeDecides(hash, t, all, key);
  }
}
