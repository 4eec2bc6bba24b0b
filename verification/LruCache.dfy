/** concurrent_lru_cache.h */
module LruCache {
  // Reference counts, the history of unused items, and eviction: first the two operations that
  // the aggregator runs one at a time, then operator[] and the handles as a state machine.

  /** An item: `listed` says that its iterator points into the list of unused items. */
  datatype Entry<V> = Entry(value: V, refs: nat, listed: bool, ready: bool)

  /** The front of `lru` is the item that was released last. */
  datatype Cache<K(==), V> = Cache(entries: map<K, Entry<V>>, lru: seq<K>)

  // ----- The serial operations -------------------------------------------------------

  function Without<K(==)>(s: seq<K>, k: K): seq<K> {
    if s == [] then [] else if s[0] == k then s[1..] else [s[0]] + Without(s[1..], k)
  }

  ghost function Retrieved<K, V>(c: Cache<K, V>, k: K, blank: V): Cache<K, V> {
    if k !in c.entries then c.(entries := c.entries[k := Entry(blank, 1, false, false)])
    else
      var e := c.entries[k];
      Cache(c.entries[k := e.(refs := e.refs + 1, listed := false)], if e.listed then Without(c.lru, k) else c.lru)
  }

  /** How many items signal_end_of_usage_serial takes from the back of the list. */
  function Evictions(size: nat, limit: nat): nat {
    if size >= limit then 1 + size - limit else 0
  }

  /** Whether the counter stays above zero or there are as many items to evict as the code
      takes: otherwise it calls back() on an empty list. */
  predicate CanSignal<K, V>(c: Cache<K, V>, k: K, limit: nat)
    requires k in c.entries
  {
    c.entries[k].refs != 1 || Evictions(|c.lru|, limit) <= |c.lru|
  }

  ghost function LastOnes<K>(s: seq<K>, n: nat): set<K>
    requires n <= |s|
  {
    set i | |s| - n <= i < |s| :: s[i]
  }

  ghost function Signalled<K, V>(c: Cache<K, V>, k: K, limit: nat): Cache<K, V>
    requires k in c.entries && 0 < c.entries[k].refs && CanSignal(c, k, limit)
  {
    var e := c.entries[k];
    if e.refs > 1 then c.(entries := c.entries[k := e.(refs := e.refs - 1)])
    else
      var n := Evictions(|c.lru|, limit);
      Cache((c.entries - LastOnes(c.lru, n))[k := e.(refs := 0, listed := true)], [k] + c.lru[..|c.lru| - n])
  }

  class ConcurrentLruCache<K(==), V(==)> {
    const limit: nat              // my_number_of_lru_history_items
    const blank: V                // value_type()
    var my_map_storage: map<K, Entry<V>>
    var my_lru_list: seq<K>

    ghost function State(): Cache<K, V>
      reads this
    {
      Cache(my_map_storage, my_lru_list)
    }

    constructor (limit: nat, blank: V)
      ensures this.limit == limit && this.blank == blank && State() == Cache(map[], [])
    {
      this.limit, this.blank := limit, blank;
      my_map_storage, my_lru_list := map[], [];
    }

    method RetrieveSerial(k: K) returns (isNewValueNeeded: bool)
      modifies this
      ensures isNewValueNeeded <==> k !in old(my_map_storage)
      ensures State() == Retrieved(old(State()), k, blank)
    {
      isNewValueNeeded := false;
      if k !in my_map_storage {
        my_map_storage := my_map_storage[k := Entry(blank, 0, false, false)];
        isNewValueNeeded := true;
      } else if my_map_storage[k].listed {
        my_lru_list := Without(my_lru_list, k);
        my_map_storage := my_map_storage[k := my_map_storage[k].(listed := false)];
      }
      my_map_storage := my_map_storage[k := my_map_storage[k].(refs := my_map_storage[k].refs + 1)];
    }

    /** Requires that the code is defined here: see CanSignal. */
    method SignalEndOfUsageSerial(k: K)
      requires k in my_map_storage && 0 < my_map_storage[k].refs && k !in my_lru_list
      requires CanSignal(State(), k, limit)
      modifies this
      ensures State() == Signalled(old(State()), k, limit)
    {
      my_map_storage := my_map_storage[k := my_map_storage[k].(refs := my_map_storage[k].refs - 1)];
      if my_map_storage[k].refs == 0 {
        if |my_lru_list| >= limit {
          EvictItems(1 + |my_lru_list| - limit, k);
        } else {
        }
        my_lru_list := [k] + my_lru_list;
        my_map_storage := my_map_storage[k := my_map_storage[k].(listed := true)];
      }
    }

    /** Take `n` items from the back of the list and out of the map. */
    method EvictItems(n: nat, ghost k: K)
      requires n <= |my_lru_list| && k !in my_lru_list && k in my_map_storage
      modifies this
      ensures my_lru_list == old(my_lru_list)[..|old(my_lru_list)| - n]
      ensures my_map_storage == old(my_map_storage) - LastOnes(old(my_lru_list), n)
      ensures k in my_map_storage
    {
      for i := 0 to n
        invariant my_lru_list == old(my_lru_list)[..|old(my_lru_list)| - i]
        invariant my_map_storage == old(my_map_storage) - LastOnes(old(my_lru_list), i)
      {
        var itToEvict := my_lru_list[|my_lru_list|-1];
        my_lru_list := my_lru_list[..|my_lru_list|-1];
        my_map_storage := my_map_storage - {itToEvict};
      }
    }
  }

  // ----- operator[] and the handles --------------------------------------------------

  /** One handle from the call of operator[] that makes it to its destruction.  A thread with
      several handles is several agents; moving a handle does not change the agent. */
  datatype Pc<K, V> =
    | Idle
    | Compute(key: K) | Store(key: K, v: V) | Publish(key: K)
    | Spin(key: K)
    | Hold(key: K)

  /** `calls` counts the runs of the value function for the present stay of a key, `released`
      gives the time of the last signal for it. */
  datatype State<K(==), V> = State(cache: Cache<K, V>, agents: seq<Pc<K, V>>, calls: map<K, nat>, released: map<K, nat>,
    clock: nat)

  ghost predicate Init<K, V>(s: State<K, V>) {
    s.cache == Cache(map[], []) && (forall a :: 0 <= a < |s.agents| ==> s.agents[a] == Idle) && s.calls == map[]
      && s.released == map[]
  }

  ghost function Go<K, V>(s: State<K, V>, a: nat, p: Pc<K, V>): State<K, V>
    requires a < |s.agents|
  {
    s.(agents := s.agents[a := p])
  }

  ghost predicate RetrieveStep<K, V>(blank: V, s: State<K, V>, a: nat, s': State<K, V>, k: K) {
    && a < |s.agents| && s.agents[a].Idle?
    && s' == if k in s.cache.entries then Go(s, a, Spin(k)).(cache := Retrieved(s.cache, k, blank))
             else Go(s, a, Compute(k)).(cache := Retrieved(s.cache, k, blank), calls := s.calls[k := 0])
  }

  /** The value function runs. */
  ghost predicate ComputeStep<K, V>(f: K -> V, s: State<K, V>, a: nat, s': State<K, V>) {
    && a < |s.agents| && s.agents[a].Compute? && s.agents[a].key in s.calls
    && var k := s.agents[a].key;
       s' == Go(s, a, Store(k, f(k))).(calls := s.calls[k := s.calls[k] + 1])
  }

  ghost predicate StoreStep<K, V>(s: State<K, V>, a: nat, s': State<K, V>) {
    && a < |s.agents| && s.agents[a].Store? && s.agents[a].key in s.cache.entries
    && var k := s.agents[a].key;
       var e := s.cache.entries[k].(value := s.agents[a].v);
       s' == Go(s, a, Publish(k)).(cache := s.cache.(entries := s.cache.entries[k := e]))
  }

  ghost predicate PublishStep<K, V>(s: State<K, V>, a: nat, s': State<K, V>) {
    && a < |s.agents| && s.agents[a].Publish? && s.agents[a].key in s.cache.entries
    && var k := s.agents[a].key;
       s' == Go(s, a, Hold(k)).(cache := s.cache.(entries := s.cache.entries[k := s.cache.entries[k].(ready := true)]))
  }

  ghost predicate SpinStep<K, V>(s: State<K, V>, a: nat, s': State<K, V>) {
    && a < |s.agents| && s.agents[a].Spin? && s.agents[a].key in s.cache.entries
    && s.cache.entries[s.agents[a].key].ready
    && s' == Go(s, a, Hold(s.agents[a].key))
  }

  ghost predicate SignalStep<K, V>(limit: nat, s: State<K, V>, a: nat, s': State<K, V>) {
    && a < |s.agents| && s.agents[a].Hold?
    && var k := s.agents[a].key;
       && k in s.cache.entries && 0 < s.cache.entries[k].refs && CanSignal(s.cache, k, limit)
       && s' == Go(s, a, Idle).(cache := Signalled(s.cache, k, limit), released := s.released[k := s.clock],
            clock := s.clock + 1)
  }

  ghost predicate Next<K(!new), V>(f: K -> V, blank: V, limit: nat, s: State<K, V>, a: nat, s': State<K, V>) {
    || (exists k :: RetrieveStep(blank, s, a, s', k))
    || ComputeStep(f, s, a, s') || StoreStep(s, a, s') || PublishStep(s, a, s') || SpinStep(s, a, s')
    || SignalStep(limit, s, a, s')
  }

  // ----- The invariant ---------------------------------------------------------------

  ghost predicate Uses<K, V>(p: Pc<K, V>, k: K) {
    !p.Idle? && p.key == k
  }

  /** The retrievals of `k` that have not been signalled. */
  ghost function Users<K, V>(agents: seq<Pc<K, V>>, k: K): set<nat> {
    set a: nat | a < |agents| && Uses(agents[a], k)
  }

  ghost predicate Filling<K, V>(p: Pc<K, V>) {
    p.Compute? || p.Store? || p.Publish?
  }

  /** The list holds the items without users, each once, at most `limit` of them. */
  ghost predicate ListOk<K(!new), V>(c: Cache<K, V>, limit: nat) {
    && (forall i, j :: 0 <= i < j < |c.lru| ==> c.lru[i] != c.lru[j])
    && (forall k :: k in c.lru ==> k in c.entries)
    && (forall k :: k in c.entries ==>
         (c.entries[k].listed <==> k in c.lru) && (c.entries[k].refs == 0 <==> k in c.lru))
    && |c.lru| <= limit
  }

  ghost predicate CountsOk<K(!new), V>(s: State<K, V>) {
    && (forall k :: k in s.cache.entries ==> s.cache.entries[k].refs == |Users(s.agents, k)|)
    && (forall a: nat :: a < |s.agents| && !s.agents[a].Idle? ==> s.agents[a].key in s.cache.entries)
  }

  /** Last released first. */
  ghost predicate OrderOk<K, V>(s: State<K, V>) {
    && (forall i :: 0 <= i < |s.cache.lru| ==> s.cache.lru[i] in s.released)
    && (forall k :: k in s.released ==> s.released[k] < s.clock)
    && (forall i, j :: 0 <= i < j < |s.cache.lru| && s.cache.lru[i] in s.released && s.cache.lru[j] in s.released ==>
          s.released[s.cache.lru[j]] < s.released[s.cache.lru[i]])
  }

  /** An item that is not ready is being filled by one agent. */
  ghost predicate FillingOk<K(!new), V(!new)>(f: K -> V, s: State<K, V>) {
    && (forall k :: k in s.cache.entries ==> k in s.calls)
    && (forall k :: k in s.cache.entries && s.cache.entries[k].ready ==>
         s.cache.entries[k].value == f(k) && s.calls[k] == 1)
    && (forall k :: k in s.cache.entries && !s.cache.entries[k].ready ==>
          exists a: nat :: a < |s.agents| && Filling(s.agents[a]) && s.agents[a].key == k)
    && (forall a: nat, b: nat ::
          (a < |s.agents| && b < |s.agents| && Filling(s.agents[a]) && Filling(s.agents[b])
            && s.agents[a].key == s.agents[b].key) ==>
          a == b)
    && (forall a: nat ::
          (a < |s.agents| && !s.agents[a].Idle? && s.agents[a].key in s.cache.entries && s.agents[a].key in s.calls) ==>
          match s.agents[a]
          case Compute(k) => !s.cache.entries[k].ready && s.calls[k] == 0
          case Store(k, v) => !s.cache.entries[k].ready && s.calls[k] == 1 && v == f(k)
          case Publish(k) => !s.cache.entries[k].ready && s.calls[k] == 1 && s.cache.entries[k].value == f(k)
          case Hold(k) => s.cache.entries[k].ready
          case _ => true)
  }

  ghost predicate Inv<K(!new), V(!new)>(f: K -> V, limit: nat, s: State<K, V>) {
    ListOk(s.cache, limit) && CountsOk(s) && OrderOk(s) && FillingOk(f, s)
  }

  // ----- The serial operations keep the list and the counters --------------------------

  lemma {:induction false} WithoutIs<K>(s: seq<K>, k: K)
    requires forall i, j :: 0 <= i < j < |s| ==> s[i] != s[j]
    ensures forall i, j :: 0 <= i < j < |Without(s, k)| ==> Without(s, k)[i] != Without(s, k)[j]
    ensures forall x :: x in Without(s, k) <==> x in s && x != k
    ensures |Without(s, k)| <= |s|
  {
    if s != [] && s[0] != k {
      assert forall i, j :: 0 <= i < j < |s[1..]| ==> s[1..][i] != s[1..][j];
      WithoutIs(s[1..], k);
      assert s == [s[0]] + s[1..];
      forall i | 0 <= i < |Without(s[1..], k)| ensures Without(s[1..], k)[i] != s[0] {
        assert Without(s[1..], k)[i] in Without(s[1..], k);
      }
    } else if s != [] {
      assert s == [s[0]] + s[1..];
    }
  }

  /** The order of the others does not change. */
  lemma {:induction false} WithoutOrder<K>(s: seq<K>, k: K, released: map<K, nat>)
    requires forall i :: 0 <= i < |s| ==> s[i] in released
    requires forall i, j :: 0 <= i < j < |s| ==> released[s[j]] < released[s[i]]
    ensures forall i :: 0 <= i < |Without(s, k)| ==> Without(s, k)[i] in released && Without(s, k)[i] in s
    ensures forall i, j :: 0 <= i < j < |Without(s, k)| ==> released[Without(s, k)[j]] < released[Without(s, k)[i]]
  {
    if s != [] {
      assert forall i :: 0 <= i < |s[1..]| ==> s[1..][i] == s[i + 1];
      if s[0] != k {
        WithoutOrder(s[1..], k, released);
        var r := Without(s[1..], k);
        forall i | 0 <= i < |r| ensures r[i] in s && released[r[i]] < released[s[0]] {
          assert r[i] in s[1..];
          var j :| 0 <= j < |s[1..]| && s[1..][j] == r[i];
        }
      }
    }
  }

  /** What one retrieval does: the item gets one more user and leaves the list of unused items, or
      is made; its value and its readiness stay, and so do all other items and their order. */
  lemma RetrievedIs<K(!new), V>(c: Cache<K, V>, k: K, blank: V, limit: nat)
    requires ListOk(c, limit)
    ensures var c' := Retrieved(c, k, blank);
      && c'.entries.Keys == c.entries.Keys + {k}
      && (forall x :: x in c.entries && x != k ==> c'.entries[x] == c.entries[x])
      && (k !in c.entries ==> c'.entries[k] == Entry(blank, 1, false, false) && c'.lru == c.lru)
      && (k in c.entries ==> c'.entries[k] == c.entries[k].(refs := c.entries[k].refs + 1, listed := false))
      && (forall x :: x in c'.lru <==> x in c.lru && x != k)
      && (k !in c.lru ==> c'.lru == c.lru)
      && (forall i :: 0 <= i < |c.lru| && c.lru[i] == k ==> c'.lru == c.lru[..i] + c.lru[i + 1..])
  {
    hide Retrieved;
    RetrievedEntries(c, k, blank);
    RetrievedOrder(c, k, blank, limit);
  }

  lemma RetrievedEntries<K(!new), V>(c: Cache<K, V>, k: K, blank: V)
    ensures var c' := Retrieved(c, k, blank);
      && c'.entries.Keys == c.entries.Keys + {k}
      && (forall x :: x in c.entries && x != k ==> c'.entries[x] == c.entries[x])
      && (k !in c.entries ==> c'.entries[k] == Entry(blank, 1, false, false))
      && (k in c.entries ==> c'.entries[k] == c.entries[k].(refs := c.entries[k].refs + 1, listed := false))
  {
  }

  lemma RetrievedOrder<K(!new), V>(c: Cache<K, V>, k: K, blank: V, limit: nat)
    requires ListOk(c, limit)
    ensures var l, l' := c.lru, Retrieved(c, k, blank).lru;
      && (forall x :: x in l' <==> x in l && x != k) && (k !in l ==> l' == l)
      && (forall i :: 0 <= i < |l| && l[i] == k ==> l' == l[..i] + l[i + 1..])
  {
    if k in c.lru {
      var i :| 0 <= i < |c.lru| && c.lru[i] == k;
      WithoutAt(c.lru, k, i);
      WithoutIs(c.lru, k);
    }
  }

  lemma {:induction false} WithoutAt<K>(s: seq<K>, k: K, i: nat)
    requires i < |s| && s[i] == k && forall j :: 0 <= j < i ==> s[j] != k
    ensures Without(s, k) == s[..i] + s[i + 1..]
  {
    if i == 0 {
      assert s[..0] + s[1..] == s[1..];
    } else {
      WithoutAt(s[1..], k, i - 1);
      assert s[1..][..i - 1] == s[1..i] && s[1..][i..] == s[i + 1..];
      assert [s[0]] + s[1..i] == s[..i];
    }
  }

  lemma RetrievedList<K(!new), V>(c: Cache<K, V>, k: K, blank: V, limit: nat)
    requires ListOk(c, limit)
    ensures ListOk(Retrieved(c, k, blank), limit)
  {
    WithoutIs(c.lru, k);
  }

  /** With a history of at least one item there is always enough to evict; with none, never. */
  lemma EvictionsFit<K(!new), V>(c: Cache<K, V>, k: K, limit: nat)
    requires ListOk(c, limit) && k in c.entries
    ensures CanSignal(c, k, limit) <==> 1 <= limit || c.entries[k].refs != 1
    ensures 1 <= limit ==> Evictions(|c.lru|, limit) <= 1
  {
  }

  /** What one signal does: nothing more than counting, unless it is the last one.  Then the
      item becomes the newest unused one, and when the list is full its oldest is evicted. */
  lemma SignalledIs<K(!new), V>(c: Cache<K, V>, k: K, limit: nat)
    requires ListOk(c, limit) && k in c.entries && 0 < c.entries[k].refs && CanSignal(c, k, limit)
    ensures var c' := Signalled(c, k, limit);
      && (c.entries[k].refs > 1 ==> c'.lru == c.lru && c'.entries.Keys == c.entries.Keys)
      && (c.entries[k].refs == 1 && |c.lru| < limit ==> c'.lru == [k] + c.lru && c'.entries.Keys == c.entries.Keys)
      && (c.entries[k].refs == 1 && |c.lru| == limit ==>
            c'.lru == [k] + c.lru[..limit - 1] && c'.entries.Keys == c.entries.Keys - {c.lru[limit - 1]}
              && c.entries[c.lru[limit - 1]].refs == 0)
      && (forall x :: x in c'.entries && x != k ==> x in c.entries && c'.entries[x] == c.entries[x])
      && k in c'.entries && c'.entries[k].refs == c.entries[k].refs - 1 && c'.entries[k].value == c.entries[k].value
      && c'.entries[k].ready == c.entries[k].ready
      && c'.entries[k].listed == (if c.entries[k].refs == 1 then true else c.entries[k].listed)
  {
    if c.entries[k].refs == 1 && |c.lru| == limit {
      assert c.lru[limit - 1] in c.lru;
    }
    assert c.lru[..|c.lru|] == c.lru;
  }

  lemma SignalledList<K(!new), V>(c: Cache<K, V>, k: K, limit: nat)
    requires ListOk(c, limit) && k in c.entries && 0 < c.entries[k].refs && CanSignal(c, k, limit)
    ensures ListOk(Signalled(c, k, limit), limit)
  {
    hide Signalled, CanSignal;
    SignalledIs(c, k, limit);
    EvictionsFit(c, k, limit);
  }

  // ----- Every step keeps the invariant ----------------------------------------------

  lemma UsersChange<K, V>(agents: seq<Pc<K, V>>, a: nat, p: Pc<K, V>, k: K)
    requires a < |agents|
    ensures Users(agents[a := p], k) - {a} == Users(agents, k) - {a}
    ensures a in Users(agents, k) <==> Uses(agents[a], k)
    ensures a in Users(agents[a := p], k) <==> Uses(p, k)
  {
  }

  lemma WithAndWithout(u: set<nat>, a: nat)
    ensures |u| == |u - {a}| + if a in u then 1 else 0
  {
    if a in u { assert u == (u - {a}) + {a}; } else { assert u == u - {a}; }
  }

  lemma UsersAfter<K, V>(agents: seq<Pc<K, V>>, a: nat, p: Pc<K, V>, k: K)
    requires a < |agents|
    ensures |Users(agents[a := p], k)| ==
      |Users(agents, k)| - (if Uses(agents[a], k) then 1 else 0) + (if Uses(p, k) then 1 else 0)
  {
    hide Users, Uses;
    UsersChange(agents, a, p, k);
    WithAndWithout(Users(agents, k), a);
    WithAndWithout(Users(agents[a := p], k), a);
  }

  /** An agent that goes on with its key changes no count. */
  lemma CountsStay<K(!new), V>(s: State<K, V>, a: nat, p: Pc<K, V>, s': State<K, V>)
    requires CountsOk(s) && a < |s.agents| && !s.agents[a].Idle? && !p.Idle? && p.key == s.agents[a].key
    requires s'.agents == s.agents[a := p] && s'.cache.entries.Keys == s.cache.entries.Keys
    requires forall k :: k in s.cache.entries ==> s'.cache.entries[k].refs == s.cache.entries[k].refs
    ensures CountsOk(s')
  {
    hide Users;
    forall k | k in s'.cache.entries ensures s'.cache.entries[k].refs == |Users(s'.agents, k)| {
      UsersAfter(s.agents, a, p, k);
    }
  }

  lemma InitInv<K(!new), V(!new)>(f: K -> V, limit: nat, s: State<K, V>)
    requires Init(s)
    ensures Inv(f, limit, s)
  {
  }

  lemma RetrieveCounts<K(!new), V>(blank: V, s: State<K, V>, a: nat, s': State<K, V>, k: K)
    requires CountsOk(s) && RetrieveStep(blank, s, a, s', k)
    ensures CountsOk(s')
  {
    forall x | x in s'.cache.entries ensures s'.cache.entries[x].refs == |Users(s'.agents, x)| {
      UsersAfter(s.agents, a, s'.agents[a], x);
      if x !in s.cache.entries { assert Users(s.agents, x) == {}; }
    }
  }

  lemma RetrieveOrder<K(!new), V>(blank: V, limit: nat, s: State<K, V>, a: nat, s': State<K, V>, k: K)
    requires ListOk(s.cache, limit) && OrderOk(s) && RetrieveStep(blank, s, a, s', k)
    ensures OrderOk(s')
  {
    WithoutOrder(s.cache.lru, k, s.released);
  }

  lemma RetrieveFillers<K(!new), V(!new)>(f: K -> V, blank: V, s: State<K, V>, a: nat, s': State<K, V>, k: K, x: K)
    requires FillingOk(f, s) && RetrieveStep(blank, s, a, s', k)
    requires x in s'.cache.entries && !s'.cache.entries[x].ready
    ensures exists b: nat :: b < |s'.agents| && Filling(s'.agents[b]) && s'.agents[b].key == x
  {
    if x in s.cache.entries {
      var b: nat :| b < |s.agents| && Filling(s.agents[b]) && s.agents[b].key == x;
      assert s'.agents[b] == s.agents[b];
    } else {
      assert Filling(s'.agents[a]);
    }
  }

  lemma RetrieveFilling<K(!new), V(!new)>(f: K -> V, blank: V, s: State<K, V>, a: nat, s': State<K, V>, k: K)
    requires CountsOk(s) && FillingOk(f, s) && RetrieveStep(blank, s, a, s', k)
    ensures FillingOk(f, s')
  {
    hide Users, Without;
    forall x | x in s'.cache.entries && !s'.cache.entries[x].ready
      ensures exists b: nat :: b < |s'.agents| && Filling(s'.agents[b]) && s'.agents[b].key == x
    {
      RetrieveFillers(f, blank, s, a, s', k, x);
    }
  }

  lemma RetrieveKeeps<K(!new), V(!new)>(f: K -> V, blank: V, limit: nat, s: State<K, V>, a: nat, s': State<K, V>, k: K)
    requires Inv(f, limit, s) && RetrieveStep(blank, s, a, s', k)
    ensures Inv(f, limit, s')
  {
    hide ListOk, CountsOk, OrderOk, FillingOk;
    RetrievedList(s.cache, k, blank, limit);
    RetrieveCounts(blank, s, a, s', k);
    RetrieveOrder(blank, limit, s, a, s', k);
    RetrieveFilling(f, blank, s, a, s', k);
  }

  lemma OrderStays<K, V>(s: State<K, V>, s': State<K, V>)
    requires OrderOk(s) && s'.cache.lru == s.cache.lru && s'.released == s.released && s'.clock == s.clock
    ensures OrderOk(s')
  {
  }

  lemma ComputeKeeps<K(!new), V(!new)>(f: K -> V, limit: nat, s: State<K, V>, a: nat, s': State<K, V>)
    requires Inv(f, limit, s) && ComputeStep(f, s, a, s')
    ensures Inv(f, limit, s')
  {
    hide Users, OrderOk, CountsOk;
    assert OrderOk(s') by { OrderStays(s, s'); }
    UserIsCounted(s, a);
    CountsStay(s, a, s'.agents[a], s');
    FillerStays(s, a, s');
  }

  /** The filling agent of an item is still there, or the item is ready. */
  lemma FillerStays<K(!new), V(!new)>(s: State<K, V>, a: nat, s': State<K, V>)
    requires a < |s.agents| == |s'.agents| && s'.agents == s.agents[a := s'.agents[a]]
    requires forall k :: k in s.cache.entries && !s.cache.entries[k].ready ==>
      exists b: nat :: b < |s.agents| && Filling(s.agents[b]) && s.agents[b].key == k
    requires Filling(s.agents[a]) && Filling(s'.agents[a]) ==> s'.agents[a].key == s.agents[a].key
    requires Filling(s.agents[a]) && !Filling(s'.agents[a]) ==>
      s.agents[a].key in s'.cache.entries ==> s'.cache.entries[s.agents[a].key].ready
    requires forall k :: k in s'.cache.entries && !s'.cache.entries[k].ready ==>
      k in s.cache.entries && !s.cache.entries[k].ready
    ensures forall k :: k in s'.cache.entries && !s'.cache.entries[k].ready ==>
      exists b: nat :: b < |s'.agents| && Filling(s'.agents[b]) && s'.agents[b].key == k
  {
    forall k | k in s'.cache.entries && !s'.cache.entries[k].ready
      ensures exists b: nat :: b < |s'.agents| && Filling(s'.agents[b]) && s'.agents[b].key == k
    {
      var b: nat :| b < |s.agents| && Filling(s.agents[b]) && s.agents[b].key == k;
      assert Filling(s'.agents[b]) && s'.agents[b].key == k;
    }
  }

  lemma StoreKeeps<K(!new), V(!new)>(f: K -> V, limit: nat, s: State<K, V>, a: nat, s': State<K, V>)
    requires Inv(f, limit, s) && StoreStep(s, a, s')
    ensures Inv(f, limit, s')
  {
    hide Users, OrderOk, CountsOk;
    assert OrderOk(s') by { OrderStays(s, s'); }
    UserIsCounted(s, a);
    CountsStay(s, a, s'.agents[a], s');
    FillerStays(s, a, s');
  }

  lemma PublishKeeps<K(!new), V(!new)>(f: K -> V, limit: nat, s: State<K, V>, a: nat, s': State<K, V>)
    requires Inv(f, limit, s) && PublishStep(s, a, s')
    ensures Inv(f, limit, s')
  {
    hide Users, OrderOk, CountsOk;
    assert OrderOk(s') by { OrderStays(s, s'); }
    UserIsCounted(s, a);
    CountsStay(s, a, s'.agents[a], s');
    FillerStays(s, a, s');
  }

  lemma SpinKeeps<K(!new), V(!new)>(f: K -> V, limit: nat, s: State<K, V>, a: nat, s': State<K, V>)
    requires Inv(f, limit, s) && SpinStep(s, a, s')
    ensures Inv(f, limit, s')
  {
    hide Users, OrderOk, CountsOk;
    assert OrderOk(s') by { OrderStays(s, s'); }
    UserIsCounted(s, a);
    CountsStay(s, a, s'.agents[a], s');
    FillerStays(s, a, s');
  }

  lemma UserIsCounted<K(!new), V>(s: State<K, V>, a: nat)
    requires CountsOk(s) && a < |s.agents| && !s.agents[a].Idle?
    ensures s.agents[a].key in s.cache.entries && 0 < s.cache.entries[s.agents[a].key].refs
  {
    assert a in Users(s.agents, s.agents[a].key);
  }

  lemma SignalCounts<K(!new), V>(limit: nat, s: State<K, V>, a: nat, s': State<K, V>)
    requires ListOk(s.cache, limit) && CountsOk(s) && SignalStep(limit, s, a, s')
    ensures CountsOk(s')
  {
    hide Users, Signalled;
    SignalledIs(s.cache, s.agents[a].key, limit);
    forall x | x in s'.cache.entries ensures s'.cache.entries[x].refs == |Users(s'.agents, x)| {
      UsersAfter(s.agents, a, Idle, x);
    }
    forall b: nat | b < |s'.agents| && !s'.agents[b].Idle? ensures s'.agents[b].key in s'.cache.entries {
      UserIsCounted(s, b);
    }
  }

  lemma SignalOrder<K(!new), V>(limit: nat, s: State<K, V>, a: nat, s': State<K, V>)
    requires ListOk(s.cache, limit) && OrderOk(s) && SignalStep(limit, s, a, s')
    ensures OrderOk(s')
  {
    hide Signalled;
    SignalledIs(s.cache, s.agents[a].key, limit);
    if s.cache.entries[s.agents[a].key].refs > 1 {
      assert s.agents[a].key !in s.cache.lru;
      assert forall i :: 0 <= i < |s.cache.lru| ==> s.cache.lru[i] in s.cache.lru;
    }
    assert s.agents[a].key !in s.cache.lru;
  }

  lemma SignalFilling<K(!new), V(!new)>(f: K -> V, limit: nat, s: State<K, V>, a: nat, s': State<K, V>)
    requires ListOk(s.cache, limit) && CountsOk(s) && FillingOk(f, s) && SignalStep(limit, s, a, s')
    ensures FillingOk(f, s')
  {
    hide Signalled, Users, ListOk, CountsOk;
    SignalledIs(s.cache, s.agents[a].key, limit);
    FillerStays(s, a, s');
  }

  lemma SignalKeeps<K(!new), V(!new)>(f: K -> V, limit: nat, s: State<K, V>, a: nat, s': State<K, V>)
    requires Inv(f, limit, s) && SignalStep(limit, s, a, s')
    ensures Inv(f, limit, s')
  {
    hide ListOk, CountsOk, OrderOk, FillingOk;
    SignalledList(s.cache, s.agents[a].key, limit);
    SignalCounts(limit, s, a, s');
    SignalOrder(limit, s, a, s');
    SignalFilling(f, limit, s, a, s');
  }

  lemma NextKeeps<K(!new), V(!new)>(f: K -> V, blank: V, limit: nat, s: State<K, V>, a: nat, s': State<K, V>)
    requires Inv(f, limit, s) && Next(f, blank, limit, s, a, s')
    ensures Inv(f, limit, s')
  {
    hide Inv, RetrieveStep, ComputeStep, StoreStep, PublishStep, SpinStep, SignalStep;
    if k :| RetrieveStep(blank, s, a, s', k) { RetrieveKeeps(f, blank, limit, s, a, s', k); }
    else if ComputeStep(f, s, a, s') { ComputeKeeps(f, limit, s, a, s'); }
    else if StoreStep(s, a, s') { StoreKeeps(f, limit, s, a, s'); }
    else if PublishStep(s, a, s') { PublishKeeps(f, limit, s, a, s'); }
    else if SpinStep(s, a, s') { SpinKeeps(f, limit, s, a, s'); }
    else { SignalKeeps(f, limit, s, a, s'); }
  }

  // ----- Whole runs ------------------------------------------------------------------

  ghost predicate StepBetween<K(!new), V>(f: K -> V, blank: V, limit: nat, s: State<K, V>, s': State<K, V>) {
    exists a: nat :: Next(f, blank, limit, s, a, s')
  }

  ghost predicate Run<K(!new), V>(f: K -> V, blank: V, limit: nat, run: seq<State<K, V>>) {
    && run != [] && Init(run[0])
    && forall i: nat :: i + 1 < |run| ==> StepBetween(f, blank, limit, run[i], run[i + 1])
  }

  /** In every reachable state the counter of an item is the number of its handles, the list
      holds exactly the items without handles, newest release first, and is never longer than
      the limit; whoever has a handle sees the value, which was computed once for this stay. */
  lemma {:induction false} RunInv<K(!new), V(!new)>(f: K -> V, blank: V, limit: nat, run: seq<State<K, V>>, i: nat)
    requires Run(f, blank, limit, run) && i < |run|
    ensures ListOk(run[i].cache, limit) && CountsOk(run[i]) && OrderOk(run[i]) && FillingOk(f, run[i])
  {
    hide Init, ListOk, CountsOk, OrderOk, FillingOk, Next;
    if i == 0 {
      InitInv(f, limit, run[0]);
    } else {
      RunInv(f, blank, limit, run, i - 1);
      assert StepBetween(f, blank, limit, run[i - 1], run[i - 1 + 1]);
      var a: nat :| Next(f, blank, limit, run[i - 1], a, run[i]);
      NextKeeps(f, blank, limit, run[i - 1], a, run[i]);
    }
  }

  /** A handle shows the value of its key, computed once since the item came into the cache. */
  lemma HandleShowsValue<K(!new), V(!new)>(f: K -> V, blank: V, limit: nat, run: seq<State<K, V>>, i: nat, a: nat)
    requires Run(f, blank, limit, run) && i < |run| && a < |run[i].agents| && run[i].agents[a].Hold?
    ensures var k := run[i].agents[a].key;
      k in run[i].cache.entries && k in run[i].calls && run[i].cache.entries[k].value == f(k) && run[i].calls[k] == 1
  {
    hide ListOk, OrderOk;
    RunInv(f, blank, limit, run, i);
  }

  /** A signal takes an item out of the cache only if the list is full and this was the last
      handle of the signalled item; then it is the one item that has been unused longest. */
  lemma EvictsLongestUnused<K(!new), V(!new)>(f: K -> V, blank: V, limit: nat, run: seq<State<K, V>>, i: nat, a: nat,
                                              s': State<K, V>, x: K)
    requires Run(f, blank, limit, run) && i < |run| && SignalStep(limit, run[i], a, s')
    requires x in run[i].cache.entries && x !in s'.cache.entries
    ensures run[i].cache.entries[run[i].agents[a].key].refs == 1 && |run[i].cache.lru| == limit
      && run[i].cache.entries[x].refs == 0
    ensures forall b: nat :: b < |run[i].agents| ==> !Uses(run[i].agents[b], x)
    ensures forall y :: y in run[i].cache.lru && y != x ==>
      x in run[i].released && y in run[i].released && run[i].released[x] < run[i].released[y] && y in s'.cache.entries
  {
    hide FillingOk, Run;
    RunInv(f, blank, limit, run, i);
    var s := run[i];
    SignalledIs(s.cache, s.agents[a].key, limit);
    assert x == s.cache.lru[limit - 1];
    forall b: nat | b < |s.agents| ensures !Uses(s.agents[b], x) {
      if Uses(s.agents[b], x) { UserIsCounted(s, b); }
    }
  }

  /** In every run, an item leaves the cache only when the last handle of another item is released
      and the list of unused items is full; every other step keeps all items. */
  lemma LeavesOnlyWhenFull<K(!new), V(!new)>(f: K -> V, blank: V, limit: nat, run: seq<State<K, V>>, i: nat, a: nat,
                                             s': State<K, V>, x: K)
    requires Run(f, blank, limit, run) && i < |run| && Next(f, blank, limit, run[i], a, s')
    requires x in run[i].cache.entries && x !in s'.cache.entries
    ensures SignalStep(limit, run[i], a, s') && |run[i].cache.lru| == limit
    ensures run[i].agents[a].key != x && run[i].cache.entries[run[i].agents[a].key].refs == 1
    ensures limit != 0 && run[i].cache.lru[limit - 1] == x
  {
    hide Init, OrderOk, CountsOk, FillingOk, SignalStep, Run;
    RunInv(f, blank, limit, run, i);
    var s := run[i];
    if k :| RetrieveStep(blank, s, a, s', k) {
      RetrievedIs(s.cache, k, blank, limit);
      assert false;
    } else if SignalStep(limit, s, a, s') {
      SignalLeaves(limit, s, a, s', x);
    }
  }

  lemma SignalLeaves<K(!new), V>(limit: nat, s: State<K, V>, a: nat, s': State<K, V>, x: K)
    requires ListOk(s.cache, limit) && SignalStep(limit, s, a, s') && x in s.cache.entries && x !in s'.cache.entries
    ensures |s.cache.lru| == limit && s.agents[a].key != x && s.cache.entries[s.agents[a].key].refs == 1
    ensures limit != 0 && s.cache.lru[limit - 1] == x
  {
    SignalledIs(s.cache, s.agents[a].key, limit);
  }

  /** The list of unused items changes, in every step of every run, only by taking one item out or
      by putting a new one in front, which pushes the last one out of a full list. */
  lemma OrderOfUnused<K(!new), V(!new)>(f: K -> V, blank: V, limit: nat, run: seq<State<K, V>>, i: nat, a: nat,
                                        s': State<K, V>)
    requires Run(f, blank, limit, run) && i < |run| && Next(f, blank, limit, run[i], a, s')
    ensures var l, l' := run[i].cache.lru, s'.cache.lru;
      || l' == l
      || (exists p :: 0 <= p < |l| && l' == l[..p] + l[p + 1..])
      || (1 <= limit && l' != [] && l'[0] !in l && l' == [l'[0]] + (if |l| < limit then l else l[..limit - 1]))
  {
    hide Init, OrderOk, CountsOk, FillingOk, Run, Signalled, Retrieved;
    RunInv(f, blank, limit, run, i);
    var s := run[i];
    if k :| RetrieveStep(blank, s, a, s', k) {
      RetrievedIs(s.cache, k, blank, limit);
      if k in s.cache.lru {
        var p :| 0 <= p < |s.cache.lru| && s.cache.lru[p] == k;
      }
    } else if SignalStep(limit, s, a, s') {
      var k := s.agents[a].key;
      SignalledIs(s.cache, k, limit);
      EvictionsFit(s.cache, k, limit);
      if s.cache.entries[k].refs == 1 && |s.cache.lru| < limit { assert s'.cache.lru[1..] == s.cache.lru; }
    }
  }

  // ----- A history of zero items ------------------------------------------------------

  /** In every reachable state a handle can be released exactly if the history has room for at
      least one item or there is another user of the item.  Otherwise the code asks an empty list
      for its last element. */
  lemma ReleaseIsDefined<K(!new), V(!new)>(f: K -> V, blank: V, limit: nat, run: seq<State<K, V>>, i: nat, a: nat)
    requires Run(f, blank, limit, run) && i < |run| && a < |run[i].agents| && run[i].agents[a].Hold?
    ensures (exists s' :: SignalStep(limit, run[i], a, s')) <==>
      1 <= limit || |Users(run[i].agents, run[i].agents[a].key)| != 1
  {
    hide ListOk, OrderOk, FillingOk, Run, Users, Signalled;
    RunInv(f, blank, limit, run, i);
    var s := run[i];
    var k := s.agents[a].key;
    UserIsCounted(s, a);
    EvictionsFit(s.cache, k, limit);
    if CanSignal(s.cache, k, limit) {
      var s' := Go(s, a, Idle).(cache := Signalled(s.cache, k, limit), released := s.released[k := s.clock],
        clock := s.clock + 1);
      assert SignalStep(limit, s, a, s');
    }
  }

  /** The first agent has made item `k`, filled it and holds its handle. */
  ghost function FirstRun<K(!new), V(!new)>(f: K -> V, blank: V, k: K): seq<State<K, V>> {
    var made, filled := Entry(blank, 1, false, false), Entry(f(k), 1, false, false);
    [State(Cache(map[], []), [Idle], map[], map[], 0),
     State(Cache(map[k := made], []), [Compute(k)], map[k := 0], map[], 0),
     State(Cache(map[k := made], []), [Pc.Store(k, f(k))], map[k := 1], map[], 0),
     State(Cache(map[k := filled], []), [Publish(k)], map[k := 1], map[], 0),
     State(Cache(map[k := filled.(ready := true)], []), [Hold(k)], map[k := 1], map[], 0)]
  }

  lemma FirstRunIsRun<K(!new), V(!new)>(f: K -> V, blank: V, limit: nat, k: K)
    ensures Run(f, blank, limit, FirstRun(f, blank, k))
  {
    hide Next;
    var run := FirstRun(f, blank, k);
    assert Next(f, blank, limit, run[0], 0, run[1])
      by { assert RetrieveStep(blank, run[0], 0, run[1], k); IsNext(f, blank, limit, run[0], 0, run[1]); }
    assert Next(f, blank, limit, run[1], 0, run[2])
      by { assert ComputeStep(f, run[1], 0, run[2]); IsNext(f, blank, limit, run[1], 0, run[2]); }
    assert Next(f, blank, limit, run[2], 0, run[3])
      by { assert StoreStep(run[2], 0, run[3]); IsNext(f, blank, limit, run[2], 0, run[3]); }
    assert Next(f, blank, limit, run[3], 0, run[4])
      by { assert PublishStep(run[3], 0, run[4]); IsNext(f, blank, limit, run[3], 0, run[4]); }
    forall i: nat | i + 1 < |run| ensures StepBetween(f, blank, limit, run[i], run[i + 1]) {
      assert i == 0 || i == 1 || i == 2 || i == 3;
    }
  }

  lemma IsNext<K(!new), V>(f: K -> V, blank: V, limit: nat, s: State<K, V>, a: nat, s': State<K, V>)
    requires (exists k :: RetrieveStep(blank, s, a, s', k)) || ComputeStep(f, s, a, s') || StoreStep(s, a, s')
      || PublishStep(s, a, s')
    ensures Next(f, blank, limit, s, a, s')
  {
  }

  /** With a history of zero items not even the first handle ever made can be released. */
  lemma NoHistoryIsStuck<K(!new), V(!new)>(f: K -> V, blank: V, k: K, s': State<K, V>)
    ensures var run := FirstRun(f, blank, k);
      Run(f, blank, 0, run) && run[4].agents[0] == Hold(k) && !SignalStep(0, run[4], 0, s')
  {
    FirstRunIsRun(f, blank, 0, k);
  }
}
