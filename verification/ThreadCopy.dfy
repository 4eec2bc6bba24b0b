/** table_elementwise_copy of enumerable_thread_specific.h: all arrays of a table are copied
    into one, with each thread once.  Not concurrent with other operations. */
module ThreadCopy {
  import opened HashIndex
  import opened ThreadTable
  import opened Options

  ghost predicate GoodList(list: seq<Array>) {
    forall i :: 0 <= i < |list| ==> GoodArray(list[i])
  }

  /** The keys of the first `n` slots of an array. */
  ghost function KeysOf(a: Array, n: nat): (r: set<nat>)
    requires n <= |a.slots|
  {
    set j: nat | j < n && a.slots[j].key.Some? :: a.slots[j].key.value
  }

  /** The keys of the arrays from number `i` on. */
  ghost function KeysFrom(list: seq<Array>, i: nat): set<nat>
    requires i <= |list|
    decreases |list| - i
  {
    if i == |list| then {} else KeysOf(list[i], |list[i].slots|) + KeysFrom(list, i + 1)
  }

  /** Wherever a key is, its slot points to the object of that thread. */
  ghost predicate PointsTo(list: seq<Array>, local: nat -> nat) {
    forall i: nat, j: nat :: i < |list| && j < |list[i].slots| && list[i].slots[j].key.Some? ==>
      list[i].slots[j].ptr == local(list[i].slots[j].key.value)
  }

  /** The copy holds exactly the keys `seen`, each once, on its probe path, with a copy of the
      object of its thread. */
  ghost predicate CopyOk(hash: nat -> nat, copy: Array, seen: set<nat>, local: nat -> nat, add: nat -> nat) {
    && GoodArray(copy) && OneSlotEach(copy)
    && KeysOf(copy, |copy.slots|) == seen
    && (forall j: nat :: j < |copy.slots| && copy.slots[j].key.Some? ==>
          copy.slots[j].ptr == add(local(copy.slots[j].key.value)) && OnPath(hash, copy, copy.slots[j].key.value, j))
  }

  ghost predicate OnPath(hash: nat -> nat, a: Array, k: nat, j: nat)
    requires GoodArray(a)
  {
    exists d: nat :: FullPath(a, hash(k), d) && ProbeAt(a, hash(k), d) == j
  }

  ghost predicate Occupied(a: Array, js: set<nat>) {
    forall j :: j in js ==> j < |a.slots| && a.slots[j].key.Some?
  }

  ghost function KeysAt(a: Array, js: set<nat>): set<nat>
    requires Occupied(a, js)
  {
    set j | j in js :: a.slots[j].key.value
  }

  lemma {:induction false} AsManyKeys(a: Array, js: set<nat>)
    requires OneSlotEach(a) && Occupied(a, js)
    ensures |KeysAt(a, js)| == |js|
  {
    if js == {} {
      assert KeysAt(a, js) == {};
    } else {
      var j :| j in js;
      AsManyKeys(a, js - {j});
      assert KeysAt(a, js) == KeysAt(a, js - {j}) + {a.slots[j].key.value};
      forall i | i in js - {j} ensures a.slots[i].key.value != a.slots[j].key.value {
        if i < j { assert a.slots[i].key != a.slots[j].key; } else { assert a.slots[j].key != a.slots[i].key; }
      }
    }
  }

  /** Fewer keys than slots: no path of claimed slots goes all the way around. */
  lemma PathLeavesRoom(hash: nat -> nat, copy: Array, seen: set<nat>, local: nat -> nat, add: nat -> nat, h: nat,
                       n: nat)
    requires CopyOk(hash, copy, seen, local, add) && FullPath(copy, h, n) && n <= |copy.slots|
    ensures n <= |seen|
  {
    hide ProbeAt, OnPath;
    ProbedSize(copy, h, n);
    forall i | i in Probed(copy, h, n) ensures i < |copy.slots| && copy.slots[i].key.Some? {
      var d: nat :| d in Below(n) && ProbeAt(copy, h, d) == i;
      assert Taken(copy, h, d);
    }
    AsManyKeys(copy, Probed(copy, h, n));
    SubsetSize(KeysAt(copy, Probed(copy, h, n)), seen);
  }

  lemma SeenIsThere(hash: nat -> nat, copy: Array, seen: set<nat>, local: nat -> nat, add: nat -> nat, k: nat, n: nat)
    requires CopyOk(hash, copy, seen, local, add) && FullPath(copy, hash(k), n) && !Taken(copy, hash(k), n)
    requires forall d: nat :: d < n ==> copy.slots[ProbeAt(copy, hash(k), d)].key != Some(k)
    ensures k !in seen
  {
    forall j: nat | j < |copy.slots| ensures copy.slots[j].key != Some(k) {
      if copy.slots[j].key == Some(k) {
        PathBefore(hash, copy, seen, local, add, j, n);
      }
    }
  }

  lemma PathBefore(hash: nat -> nat, copy: Array, seen: set<nat>, local: nat -> nat, add: nat -> nat, j: nat, n: nat)
    requires CopyOk(hash, copy, seen, local, add) && j < |copy.slots| && copy.slots[j].key.Some?
    requires !Taken(copy, hash(copy.slots[j].key.value), n)
    ensures exists d: nat :: d < n && ProbeAt(copy, hash(copy.slots[j].key.value), d) == j
  {
    var h := hash(copy.slots[j].key.value);
    var d: nat :| FullPath(copy, h, d) && ProbeAt(copy, h, d) == j;
  }

  /** The first empty slot of its path takes the key. */
  lemma InsertedOk(hash: nat -> nat, copy: Array, seen: set<nat>, local: nat -> nat, add: nat -> nat, k: nat, n: nat)
    requires CopyOk(hash, copy, seen, local, add) && FullPath(copy, hash(k), n) && !Taken(copy, hash(k), n)
      && k !in seen
    ensures CopyOk(hash, copy.(slots := copy.slots[ProbeAt(copy, hash(k), n) := Slot(Some(k), add(local(k)))]),
      seen + {k}, local, add)
  {
    hide ProbeAt;
    var e := ProbeAt(copy, hash(k), n);
    var copy' := copy.(slots := copy.slots[e := Slot(Some(k), add(local(k)))]);
    SamePaths(copy, copy', e);
    forall j: nat | j < |copy'.slots| && copy'.slots[j].key.Some?
      ensures OnPath(hash, copy', copy'.slots[j].key.value, j) {
      if j == e {
        assert FullPath(copy', hash(k), n) && ProbeAt(copy', hash(k), n) == j;
      } else {
        var x := copy.slots[j].key.value;
        assert OnPath(hash, copy, x, j);
        var d: nat :| FullPath(copy, hash(x), d) && ProbeAt(copy, hash(x), d) == j;
        assert FullPath(copy', hash(x), d) && ProbeAt(copy', hash(x), d) == j;
      }
    }
  }

  lemma SamePaths(a: Array, a': Array, e: nat)
    requires GoodArray(a) && e < |a.slots| && a' == a.(slots := a'.slots) && |a'.slots| == |a.slots|
    requires a'.slots[e].key.Some? && forall j :: 0 <= j < |a.slots| && j != e ==> a'.slots[j] == a.slots[j]
    ensures GoodArray(a') && forall h: nat, d: nat :: ProbeAt(a', h, d) == ProbeAt(a, h, d)
    ensures forall h: nat, d: nat :: FullPath(a, h, d) ==> FullPath(a', h, d)
  {
    forall h: nat, d: nat ensures ProbeAt(a', h, d) == ProbeAt(a, h, d) {}
    forall h: nat, d: nat | FullPath(a, h, d) ensures FullPath(a', h, d) {
      forall c: nat | c < d ensures Taken(a', h, c) {
        assert Taken(a, h, c);
      }
    }
  }

  lemma KnownKey(copy: Array, k: nat, e: nat, seen: set<nat>)
    requires KeysOf(copy, |copy.slots|) == seen && e < |copy.slots| && copy.slots[e].key == Some(k)
    ensures k in seen && seen + {k} == seen
  {
  }

  lemma CopyParts(hash: nat -> nat, copy: Array, seen: set<nat>, local: nat -> nat, add: nat -> nat)
    requires CopyOk(hash, copy, seen, local, add)
    ensures GoodArray(copy) && KeysOf(copy, |copy.slots|) == seen
  {
  }

  /** The inner loop: find the key or an empty slot on its path, which takes it. */
  method CopyOne(hash: nat -> nat, copy: Array, k: nat, ptr: nat, add: nat -> nat, ghost seen: set<nat>,
                 ghost local: nat -> nat)
    returns (copy': Array)
    requires CopyOk(hash, copy, seen, local, add) && |seen| < |copy.slots| && ptr == local(k)
    ensures CopyOk(hash, copy', seen + {k}, local, add) && copy'.lg == copy.lg && |copy'.slots| == |copy.slots|
  {
    hide CopyOk, ProbeAt, OneSlotEach;
    assert GoodArray(copy) && KeysOf(copy, |copy.slots|) == seen by { CopyParts(hash, copy, seen, local, add); }
    var n := 0;
    while true
      invariant n <= |seen| && FullPath(copy, hash(k), n)
      invariant forall d: nat :: d < n ==> copy.slots[ProbeAt(copy, hash(k), d)].key != Some(k)
      decreases |seen| - n
    {
      var e := ProbeAt(copy, hash(k), n);
      if copy.slots[e].key == None {
        SeenIsThere(hash, copy, seen, local, add, k, n);
        InsertedOk(hash, copy, seen, local, add, k, n);
        return copy.(slots := copy.slots[e := Slot(Some(k), add(ptr))]);
      }
      if copy.slots[e].key == Some(k) {
        KnownKey(copy, k, e, seen);
        return copy;
      }
      assert Taken(copy, hash(k), n);
      PathLeavesRoom(hash, copy, seen, local, add, hash(k), n + 1);
      n := n + 1;
    }
  }

  lemma OneMoreSlot(a: Array, i: nat)
    requires i < |a.slots|
    ensures KeysOf(a, i + 1) == if a.slots[i].key.Some? then KeysOf(a, i) + {a.slots[i].key.value} else KeysOf(a, i)
  {
    forall x: nat ensures x in KeysOf(a, i + 1) <==> x in KeysOf(a, i) || a.slots[i].key == Some(x) {
      if x in KeysOf(a, i) {
        var j: nat :| j < i && a.slots[j].key == Some(x);
        assert j < i + 1;
      }
    }
  }

  lemma {:induction false} LaterKeys(list: seq<Array>, i: nat, j: nat)
    requires i <= j <= |list|
    ensures KeysFrom(list, j) <= KeysFrom(list, i)
    decreases j - i
  {
    if i < j { LaterKeys(list, i + 1, j); }
  }

  lemma SomeKeys(a: Array, i: nat)
    requires i <= |a.slots|
    ensures KeysOf(a, i) <= KeysOf(a, |a.slots|)
  {
    forall x | x in KeysOf(a, i) ensures x in KeysOf(a, |a.slots|) {
      var j: nat :| j < i && a.slots[j].key == Some(x);
      assert a.slots[j].key == Some(x);
    }
  }

  lemma FewSeen(list: seq<Array>, r: nat, i: nat)
    requires r < |list| && i <= |list[r].slots|
    ensures |KeysFrom(list, r + 1) + KeysOf(list[r], i)| <= |KeysFrom(list, 0)|
  {
    hide KeysOf;
    LaterKeys(list, 0, r);
    SomeKeys(list[r], i);
    SubsetSize(KeysFrom(list, r + 1) + KeysOf(list[r], i), KeysFrom(list, 0));
  }

  lemma EmptyCopy(hash: nat -> nat, lg: nat, local: nat -> nat, add: nat -> nat)
    requires 2 <= lg <= WORD
    ensures CopyOk(hash, NewArray(lg, None), {}, local, add)
  {
  }

  /** The slots of one array. */
  method CopyArray(hash: nat -> nat, copy: Array, list: seq<Array>, r: nat, add: nat -> nat, ghost local: nat -> nat)
    returns (copy': Array)
    requires GoodList(list) && PointsTo(list, local) && r < |list|
    requires CopyOk(hash, copy, KeysFrom(list, r + 1), local, add) && |KeysFrom(list, 0)| < |copy.slots|
    ensures CopyOk(hash, copy', KeysFrom(list, r), local, add) && copy'.lg == copy.lg && |copy'.slots| == |copy.slots|
  {
    hide CopyOk, KeysFrom, KeysOf;
    copy' := copy;
    assert KeysFrom(list, r + 1) + KeysOf(list[r], 0) == KeysFrom(list, r + 1) by { NoKeys(list[r]); }
    for i := 0 to |list[r].slots|
      invariant CopyOk(hash, copy', KeysFrom(list, r + 1) + KeysOf(list[r], i), local, add)
      invariant copy'.lg == copy.lg && |copy'.slots| == |copy.slots|
    {
      OneMoreSlot(list[r], i);
      var slot := list[r].slots[i];
      if slot.key.Some? {
        FewSeen(list, r, i);
        ghost var seen := KeysFrom(list, r + 1) + KeysOf(list[r], i);
        assert seen + {slot.key.value} == KeysFrom(list, r + 1) + KeysOf(list[r], i + 1);
        copy' := CopyOne(hash, copy', slot.key.value, slot.ptr, add, seen, local);
      }
    }
    assert KeysFrom(list, r + 1) + KeysOf(list[r], |list[r].slots|) == KeysFrom(list, r) by { ThisAndLater(list, r); }
  }

  lemma NoKeys(a: Array)
    ensures KeysOf(a, 0) == {}
  {
  }

  lemma ThisAndLater(list: seq<Array>, r: nat)
    requires r < |list|
    ensures KeysFrom(list, r + 1) + KeysOf(list[r], |list[r].slots|) == KeysFrom(list, r)
  {
  }

  /** From the root to the oldest array. */
  method ElementwiseCopy(hash: nat -> nat, list: seq<Array>, add: nat -> nat, ghost local: nat -> nat)
    returns (copy: Option<Array>)
    requires GoodList(list) && PointsTo(list, local)
    requires list != [] ==> |KeysFrom(list, 0)| < Pow2(list[|list|-1].lg)
    ensures copy.Some? <==> list != []
    ensures copy.Some? ==> CopyOk(hash, copy.value, KeysFrom(list, 0), local, add) && copy.value.lg == list[|list|-1].lg
  {
    hide CopyOk, KeysFrom;
    if list == [] { return None; }
    var root := NewArray(list[|list|-1].lg, None);
    EmptyCopy(hash, root.lg, local, add);
    assert KeysFrom(list, |list|) == {} by { NothingLater(list); }
    for r := |list| downto 0
      invariant CopyOk(hash, root, KeysFrom(list, r), local, add)
      invariant root.lg == list[|list|-1].lg && |root.slots| == Pow2(root.lg)
    {
      root := CopyArray(hash, root, list, r, add, local);
    }
    copy := Some(root);
  }

  lemma NothingLater(list: seq<Array>)
    ensures KeysFrom(list, |list|) == {}
  {
  }

  // ----- The table at rest -----------------------------------------------------------

  lemma {:induction false} KeysAreHad(list: seq<Array>, i: nat, k: nat)
    requires i <= |list|
    ensures k in KeysFrom(list, i) <==> exists q: nat :: i <= q < |list| && Has(list[q], k)
    decreases |list| - i
  {
    hide Has, KeysOf;
    if i < |list| {
      KeysAreHad(list, i + 1, k);
      HadIsKey(list[i], k);
    }
  }

  lemma HadIsKey(a: Array, k: nat)
    ensures k in KeysOf(a, |a.slots|) <==> Has(a, k)
  {
  }

  ghost function ObjectOf(s: State): nat -> nat {
    (t: nat) => if t < |s.local| && s.local[t].Some? then s.local[t].value else 0
  }

  /** In any reachable state in which no call is running, the table can be copied: it holds the
      threads that have an object, as many as my_count says, and the root has room for all. */
  lemma RestCanBeCopied(hash: nat -> nat, run: seq<State>, i: nat)
    requires Run(hash, run) && i < |run| && forall t: nat :: t < |run[i].pc| ==> run[i].pc[t].Idle?
    ensures var s := run[i];
      && GoodList(s.list) && PointsTo(s.list, ObjectOf(s)) && |KeysFrom(s.list, 0)| == s.count
      && (s.list != [] ==> s.count < Pow2(s.list[|s.list|-1].lg))
  {
    hide Run, Inv, ThreadOk, NumbersOk, ClaimsOk, KeysFrom, Pow2;
    RunInv(hash, run, i);
    var s := run[i];
    InvParts(hash, s, 0);
    RestKeys(hash, s);
    assert s.count == |Numbered(s)|;
    forall r: nat, j: nat | r < |s.list| && j < |s.list[r].slots| && s.list[r].slots[j].key.Some?
      ensures s.list[r].slots[j].ptr == ObjectOf(s)(s.list[r].slots[j].key.value)
    {
      FoundClaim(hash, s, r, j);
    }
    if s.list != [] { RestFits(hash, s); }
  }

  lemma RestKeys(hash: nat -> nat, s: State)
    requires Inv(hash, s) && forall t: nat :: t < |s.pc| ==> s.pc[t].Idle?
    ensures Sizes(s) && KeysFrom(s.list, 0) == Numbered(s)
  {
    hide Inv, KeysFrom, Has, ClaimsOk, ListOk;
    InvParts(hash, s, 0);
    forall k: nat ensures k in KeysFrom(s.list, 0) <==> k in Numbered(s) {
      KeysAreHad(s.list, 0, k);
      InvParts(hash, s, k);
      if q: nat :| q < |s.list| && Has(s.list[q], k) { HadIsNumbered(hash, s, q, k); }
    }
  }

  lemma HadIsNumbered(hash: nat -> nat, s: State, q: nat, k: nat)
    requires Sizes(s) && ListOk(s) && ClaimsOk(hash, s) && q < |s.list| && Has(s.list[q], k)
    ensures k < |s.pc| && 0 < s.number[k] && s.number[k] <= Pow2(s.list[|s.list|-1].lg - 1)
    ensures 1 <= s.list[|s.list|-1].lg
  {
    var j: nat :| j < |s.list[q].slots| && s.list[q].slots[j].key == Some(k);
    FoundClaim(hash, s, q, j);
    Pow2Monotone(s.list[q].lg - 1, s.list[|s.list|-1].lg - 1);
  }

  /** All numbers are at most half the size of the root, and they are different. */
  lemma RestFits(hash: nat -> nat, s: State)
    requires Inv(hash, s) && s.list != [] && forall t: nat :: t < |s.pc| ==> s.pc[t].Idle?
    ensures s.count < Pow2(s.list[|s.list|-1].lg)
  {
    hide Inv, KeysFrom, ClaimsOk, ListOk, Has, ThreadOk;
    InvParts(hash, s, 0);
    hide Numbered, Pow2, NumbersOk;
    RestKeys(hash, s);
    GoodAt(s, |s.list| - 1);
    var half := Pow2(s.list[|s.list|-1].lg - 1);
    forall k | k in Numbered(s) ensures k < |s.number| && s.number[k] <= half {
      KeysAreHad(s.list, 0, k);
      var q: nat :| q < |s.list| && Has(s.list[q], k);
      HadIsNumbered(hash, s, q, k);
    }
    NumbersFit(s, half);
    Pow2Grows(s.list[|s.list|-1].lg - 1, s.list[|s.list|-1].lg);
  }

  lemma NumbersFit(s: State, half: nat)
    requires Sizes(s) && NumbersOk(s) && forall k :: k in Numbered(s) ==> k < |s.number| && s.number[k] <= half
    ensures s.count <= half
  {
    BelowSize(half + 1);
    ManyNumbers(s, Numbered(s));
    assert NumberSet(s, Numbered(s)) <= Below(half + 1) - {0};
    SubsetSize(NumberSet(s, Numbered(s)), Below(half + 1) - {0});
  }

  ghost function NumberSet(s: State, ts: set<nat>): set<nat>
    requires forall t :: t in ts ==> t < |s.number|
  {
    set t | t in ts :: s.number[t]
  }

  lemma {:induction false} ManyNumbers(s: State, ts: set<nat>)
    requires Sizes(s) && NumbersOk(s) && forall t :: t in ts ==> t < |s.number| && 0 < s.number[t]
    ensures |NumberSet(s, ts)| == |ts|
  {
    if ts == {} {
      assert NumberSet(s, ts) == {};
    } else {
      var t :| t in ts;
      ManyNumbers(s, ts - {t});
      assert NumberSet(s, ts) == NumberSet(s, ts - {t}) + {s.number[t]};
      forall u | u in ts - {t} ensures s.number[u] != s.number[t] {
        if u < t { assert s.number[u] != s.number[t]; }
      }
    }
  }
}
