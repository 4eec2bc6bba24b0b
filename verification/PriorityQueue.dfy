/** The batched priority queue of concurrent_priority_queue.h. */
module PriorityQueue {
  // A handler thread receives a whole batch of pushes and pops.  It works on one vector
  // whose first `mark` positions are a binary heap and whose remaining positions hold
  // pushed elements that no heap insertion has touched yet.  Some pops take the last
  // element of the vector instead of the root.  The specification is that of a
  // linearizable queue: some order of the batch explains every answer.

  // ----- The order and the sequential queue -----------------------------------------

  /** What a comparator must satisfy: it is asymmetric, and incomparability is transitive,
      so that "not less" is a total preorder.  Chain is always true; it is there so that
      transitivity is used only where a proof names the three elements. */
  ghost predicate StrictWeakOrder<T(!new)>(less: (T, T) -> bool) {
    && (forall x, y :: less(x, y) ==> !less(y, x))
    && (forall x, y, z :: Chain(x, y, z) && !less(x, y) && !less(y, z) ==> !less(x, z))
  }

  ghost predicate Chain<T>(x: T, y: T, z: T) { true }

  /** `alloc` says whether the vector could grow for this push. */
  datatype Op<T> = Push(elem: T, alloc: bool) | Pop

  datatype Outcome<T> = Wait | Done | Taken(elem: T) | Failed

  datatype Event<T> = Event(op: Op<T>, out: Outcome<T>)

  ghost predicate IsTop<T(!new)>(less: (T, T) -> bool, m: multiset<T>, x: T) {
    x in m && forall y :: y in m ==> !less(x, y)
  }

  /** One operation on a sequential max-priority queue holding `m`. */
  ghost predicate Allowed<T(!new)>(less: (T, T) -> bool, m: multiset<T>, e: Event<T>) {
    match e.op
    case Push(_, alloc) => e.out == if alloc then Done else Failed
    case Pop => if m == multiset{} then e.out == Failed else e.out.Taken? && IsTop(less, m, e.out.elem)
  }

  ghost function After<T>(m: multiset<T>, e: Event<T>): multiset<T> {
    if e.op.Push? && e.out.Done? then m + multiset{e.op.elem}
    else if e.op.Pop? && e.out.Taken? then m - multiset{e.out.elem}
    else m
  }

  ghost function Final<T>(m: multiset<T>, es: seq<Event<T>>): multiset<T> {
    if es == [] then m else After(Final(m, es[..|es|-1]), es[|es|-1])
  }

  /** The sequential queue, starting with content `m`, can give exactly these answers. */
  ghost predicate Legal<T(!new)>(less: (T, T) -> bool, m: multiset<T>, es: seq<Event<T>>) {
    es == [] || (Legal(less, m, es[..|es|-1]) && Allowed(less, Final(m, es[..|es|-1]), es[|es|-1]))
  }

  // ----- Heaps -----------------------------------------------------------------------

  function Parent(i: nat): (p: nat)
    requires 0 < i
    ensures p < i
  {
    (i - 1) / 2
  }

  ghost predicate Heap<T>(less: (T, T) -> bool, s: seq<T>, n: nat)
    requires n <= |s|
  {
    forall i {:trigger Parent(i)} :: 1 <= i < n ==> !less(s[Parent(i)], s[i])
  }

  lemma {:induction false} RootIsTop<T(!new)>(less: (T, T) -> bool, s: seq<T>, n: nat, i: nat)
    requires StrictWeakOrder(less)
    requires i < n <= |s| && Heap(less, s, n)
    ensures !less(s[0], s[i])
  {
    if i != 0 {
      RootIsTop(less, s, n, Parent(i));
      assert Chain(s[0], s[Parent(i)], s[i]);
    }
  }

  lemma RootIsTopOfAll<T(!new)>(less: (T, T) -> bool, s: seq<T>, n: nat)
    requires StrictWeakOrder(less)
    requires 0 < n <= |s| && Heap(less, s, n)
    ensures IsTop(less, multiset(s[..n]), s[0])
  {
    assert s[..n][0] == s[0];
    forall y | y in multiset(s[..n]) ensures !less(s[0], y) {
      var i :| 0 <= i < n && s[..n][i] == y;
      RootIsTop(less, s, n, i);
    }
  }

  /** An element above the root of a heap is a top of the heap with it added. */
  lemma AboveRootIsTop<T(!new)>(less: (T, T) -> bool, s: seq<T>, n: nat, x: T)
    requires StrictWeakOrder(less)
    requires n <= |s| && Heap(less, s, n)
    requires 0 < n ==> less(s[0], x)
    ensures IsTop(less, multiset(s[..n]) + multiset{x}, x)
  {
    if 0 < n { RootIsTopOfAll(less, s, n); }
    forall y | y in multiset(s[..n]) + multiset{x} ensures !less(x, y) {
      if 0 < n && y in multiset(s[..n]) {
        assert Chain(x, s[0], y);
      }
    }
  }

  lemma SplitAt<T>(s: seq<T>, n: nat)
    requires n <= |s|
    ensures multiset(s[..n]) + multiset(s[n..]) == multiset(s)
  {
    assert s == s[..n] + s[n..];
  }

  lemma DropLast<T>(s: seq<T>, n: nat)
    requires n < |s|
    ensures |s[n..]| == |s| - n
    ensures s[..|s|-1][n..] == s[n..][..|s[n..]|-1] && s[..|s|-1][..n] == s[..n]
    ensures s[n..][|s[n..]|-1] == s[|s|-1]
    ensures multiset(s) == multiset(s[..|s|-1]) + multiset{s[|s|-1]}
  {
    assert s == s[..|s|-1] + [s[|s|-1]];
  }

  // ----- Sifting ---------------------------------------------------------------------

  /** s[..n] is a heap once `v` is put at `cur`, except that v may belong higher up. */
  ghost predicate RisingAt<T>(less: (T, T) -> bool, s: seq<T>, n: nat, cur: nat, v: T) {
    && cur < n <= |s|
    && (forall i {:trigger Parent(i)} :: 1 <= i < n && i != cur && Parent(i) != cur ==> !less(s[Parent(i)], s[i]))
    && (forall i {:trigger Parent(i)} :: 1 <= i < n && Parent(i) == cur ==> !less(v, s[i]))
    && (forall i {:trigger Parent(i)} :: 1 <= i < n && Parent(i) == cur && 0 < cur ==> !less(s[Parent(cur)], s[i]))
  }

  lemma RiseStep<T(!new)>(less: (T, T) -> bool, s: seq<T>, n: nat, cur: nat, v: T)
    requires StrictWeakOrder(less) && RisingAt(less, s, n, cur, v)
    requires 0 < cur && less(s[Parent(cur)], v)
    ensures RisingAt(less, s[cur := s[Parent(cur)]], n, Parent(cur), v)
    ensures multiset(s[cur := s[Parent(cur)]][Parent(cur) := v]) == multiset(s[cur := v])
  {
    var p := Parent(cur);
    var t := s[cur := s[p]];
    assert t[p := v] == s[cur := v][cur := s[p]][p := v];
    forall i | 1 <= i < n && i != p && Parent(i) != p ensures !less(t[Parent(i)], t[i]) {
    }
    forall i | 1 <= i < n && Parent(i) == p ensures !less(v, t[i]) {
      assert Chain(v, s[p], s[i]);
    }
    forall i | 1 <= i < n && Parent(i) == p && 0 < p ensures !less(t[Parent(p)], t[i]) {
      assert Parent(p) < p && Chain(s[Parent(p)], s[p], s[i]);
    }
  }

  /** s[..n] is a heap once `v` is put at `cur`, except that v may belong further down. */
  ghost predicate SinkingAt<T>(less: (T, T) -> bool, s: seq<T>, n: nat, cur: nat, v: T) {
    && cur < n <= |s|
    && (forall i {:trigger Parent(i)} :: 1 <= i < n && i != cur && Parent(i) != cur ==> !less(s[Parent(i)], s[i]))
    && (0 < cur ==> !less(s[Parent(cur)], v))
    && (forall i {:trigger Parent(i)} :: 1 <= i < n && Parent(i) == cur && 0 < cur ==> !less(s[Parent(cur)], s[i]))
  }

  /** `target` is the child of `cur` that no other child exceeds. */
  ghost predicate IsHighChild<T>(less: (T, T) -> bool, s: seq<T>, n: nat, cur: nat, target: nat)
    requires n <= |s|
  {
    && 1 <= target < n && Parent(target) == cur
    && forall i {:trigger Parent(i)} :: 1 <= i < n && Parent(i) == cur ==> !less(s[target], s[i])
  }

  lemma SinkStep<T(!new)>(less: (T, T) -> bool, s: seq<T>, n: nat, cur: nat, target: nat, v: T)
    requires StrictWeakOrder(less) && SinkingAt(less, s, n, cur, v)
    requires IsHighChild(less, s, n, cur, target) && !less(s[target], v)
    ensures SinkingAt(less, s[cur := s[target]], n, target, v)
  {
    var t := s[cur := s[target]];
    forall i | 1 <= i < n && i != target && Parent(i) != target ensures !less(t[Parent(i)], t[i]) {
      if i == cur { assert !less(s[Parent(cur)], s[target]); }
    }
    forall i | 1 <= i < n && Parent(i) == target && 0 < target ensures !less(t[Parent(target)], t[i]) {
      assert !less(s[Parent(i)], s[i]);
    }
  }

  function HighChild<T>(less: (T, T) -> bool, s: seq<T>, n: nat, cur: nat): (target: nat)
    requires n <= |s| && 2 * cur + 1 < n
    ensures cur < target < n && Parent(target) == cur
  {
    if 2 * cur + 2 < n && less(s[2 * cur + 1], s[2 * cur + 2]) then 2 * cur + 2 else 2 * cur + 1
  }

  lemma CancelOne<T>(a: multiset<T>, b: multiset<T>, v: T)
    requires a + multiset{v} == b + multiset{v}
    ensures a == b
  {
    forall y ensures a[y] == b[y] {
      assert (a + multiset{v})[y] == (b + multiset{v})[y];
    }
  }

  /** Where the hole left by the root ends up: the last element is pushed down a path of
      high children. */
  function Sunk<T>(less: (T, T) -> bool, d: seq<T>, m: nat, cur: nat): (r: seq<T>)
    requires cur < |d| && m <= |d|
    ensures |r| == |d|
    decreases m - cur
  {
    var v := d[|d|-1];
    if m <= 2 * cur + 1 then d[cur := v]
    else
      var target := HighChild(less, d, m, cur);
      if less(d[target], v) then d[cur := v] else Sunk(less, d[cur := d[target]], m, target)
  }

  /** Pushing down leaves the unsorted tail alone. */
  lemma {:induction false} SunkKeepsTail<T>(less: (T, T) -> bool, d: seq<T>, m: nat, cur: nat)
    requires cur < m <= |d|
    ensures Sunk(less, d, m, cur)[|d|-1] == d[|d|-1]
    ensures Sunk(less, d, m, cur)[m..] == d[m..]
    decreases m - cur
  {
    if 2 * cur + 1 < m {
      var target := HighChild(less, d, m, cur);
      if !less(d[target], d[|d|-1]) {
        SunkKeepsTail(less, d[cur := d[target]], m, target);
      }
    }
  }

  /** Pushing down replaces the element at the hole by the last element. */
  lemma {:induction false} SunkKeepsElements<T>(less: (T, T) -> bool, d: seq<T>, m: nat, cur: nat)
    requires cur < m <= |d|
    ensures multiset(Sunk(less, d, m, cur)[..m]) == multiset(d[..m][cur := d[|d|-1]])
    decreases m - cur
  {
    var v := d[|d|-1];
    assert d[cur := v][..m] == d[..m][cur := v];
    if 2 * cur + 1 < m {
      var target := HighChild(less, d, m, cur);
      if !less(d[target], v) {
        SunkKeepsElements(less, d[cur := d[target]], m, target);
      }
    }
  }

  /** Pushing down restores the heap. */
  lemma {:induction false} SunkIsHeap<T(!new)>(less: (T, T) -> bool, d: seq<T>, m: nat, cur: nat)
    requires StrictWeakOrder(less) && 0 < |d| && SinkingAt(less, d, m, cur, d[|d|-1])
    ensures Heap(less, Sunk(less, d, m, cur), m)
    decreases m - cur
  {
    var v := d[|d|-1];
    if m <= 2 * cur + 1 {
    } else {
      var target := HighChild(less, d, m, cur);
      if less(d[target], v) {
      } else {
        SinkStep(less, d, m, cur, target, v);
        SunkIsHeap(less, d[cur := d[target]], m, target);
      }
    }
  }

  /** Taking the root out of a heap with an unsorted tail behind it: the last element of
      the tail joins the heap. */
  lemma RootTakenWithTail<T(!new)>(less: (T, T) -> bool, d: seq<T>, m: nat)
    requires StrictWeakOrder(less) && 0 < m < |d| && Heap(less, d, m)
    ensures var r := Sunk(less, d, m, 0)[..|d|-1];
      && Heap(less, r, m) && r[m..] == d[..|d|-1][m..]
      && multiset(r[..m]) == multiset(d[..m]) - multiset{d[0]} + multiset{d[|d|-1]}
  {
    SunkKeepsTail(less, d, m, 0);
    SunkIsHeap(less, d, m, 0);
    SunkKeepsElements(less, d, m, 0);
    var r := Sunk(less, d, m, 0);
    assert r[..|d|-1][..m] == r[..m];
    assert d[..m][0] == d[0];
    DropLast(d, m);
    DropLast(r, m);
  }

  /** Taking the root out of a vector that is all heap. */
  lemma RootTakenFromHeap<T(!new)>(less: (T, T) -> bool, d: seq<T>)
    requires StrictWeakOrder(less) && 0 < |d| && Heap(less, d, |d|)
    ensures var r := Sunk(less, d, |d|, 0)[..|d|-1];
      Heap(less, r, |d|-1) && multiset(r) == multiset(d) - multiset{d[0]}
  {
    SunkKeepsTail(less, d, |d|, 0);
    SunkIsHeap(less, d, |d|, 0);
    SunkKeepsElements(less, d, |d|, 0);
    RootGone(d, Sunk(less, d, |d|, 0));
  }

  lemma RootGone<T>(d: seq<T>, r: seq<T>)
    requires 0 < |d| == |r| && r[|d|-1] == d[|d|-1]
    requires multiset(r[..|d|]) == multiset(d[..|d|][0 := d[|d|-1]])
    ensures multiset(r[..|d|-1]) == multiset(d) - multiset{d[0]}
  {
    var v := d[|d|-1];
    assert d[..|d|] == d && r[..|d|] == r;
    DropLast(r, 0);
    assert d[0] in multiset(d);
    CancelOne(multiset(r[..|d|-1]), multiset(d) - multiset{d[0]}, v);
  }

  // ----- Explaining a batch ----------------------------------------------------------

  function Iota(n: nat): (r: seq<nat>)
    ensures |r| == n && forall i :: 0 <= i < n ==> r[i] == i
  {
    seq(n, i => i)
  }

  lemma IotaOnce(n: nat, i: nat)
    ensures multiset(Iota(n))[i] == if i < n then 1 else 0
  {
    if 0 < n {
      IotaOnce(n - 1, i);
      assert Iota(n) == Iota(n - 1) + [n - 1];
    }
  }

  ghost predicate Within(order: seq<nat>, n: nat) {
    forall j :: 0 <= j < |order| ==> order[j] < n
  }

  /** The operations named by `order` with their results, in that order. */
  ghost function Events<T>(ops: seq<Op<T>>, results: seq<Outcome<T>>, order: seq<nat>): (r: seq<Event<T>>)
    requires |results| == |ops| && Within(order, |ops|)
  {
    if order == [] then []
    else
      var i := order[|order|-1];
      Events(ops, results, order[..|order|-1]) + [Event(ops[i], results[i])]
  }

  lemma {:induction false} EventsUnchanged<T>(ops: seq<Op<T>>, results: seq<Outcome<T>>, order: seq<nat>, i: nat,
                                              out: Outcome<T>)
    requires |results| == |ops| && Within(order, |ops|) && i < |ops| && i !in order
    ensures Events(ops, results[i := out], order) == Events(ops, results, order)
  {
    if order != [] {
      assert order[|order|-1] in order;
      EventsUnchanged(ops, results, order[..|order|-1], i, out);
    }
  }

  /** Some order of the whole batch, performed by a sequential max-priority queue that
      starts with content `m`, gives exactly these results and ends with content `m'`. */
  ghost predicate Explained<T(!new)>(less: (T, T) -> bool, m: multiset<T>, ops: seq<Op<T>>, results: seq<Outcome<T>>,
                                     m': multiset<T>)
    requires |results| == |ops|
  {
    exists order: seq<nat> ::
      && multiset(order) == multiset(Iota(|ops|))
      && Within(order, |ops|)
      && Legal(less, m, Events(ops, results, order))
      && Final(m, Events(ops, results, order)) == m'
  }

  /** The order built so far: `order` is settled, `tail` names the pushes whose elements
      are still unsorted, `open` the operations without an answer. */
  datatype Log = Log(order: seq<nat>, tail: seq<nat>, open: multiset<nat>) {
    ghost function Named(): multiset<nat> {
      multiset(order) + multiset(tail) + open
    }
  }

  /** The settled part of the log is a legal run that leaves the content `q`. */
  ghost predicate Settled<T(!new)>(less: (T, T) -> bool, m: multiset<T>, ops: seq<Op<T>>, results: seq<Outcome<T>>,
                                   order: seq<nat>, q: multiset<T>)
  {
    && |results| == |ops| && Within(order, |ops|)
    && Legal(less, m, Events(ops, results, order)) && Final(m, Events(ops, results, order)) == q
  }

  ghost predicate TailIs<T>(ops: seq<Op<T>>, results: seq<Outcome<T>>, tail: seq<nat>, elems: seq<T>) {
    && |results| == |ops| && |tail| == |elems| && Within(tail, |ops|)
    && forall j :: 0 <= j < |tail| ==> ops[tail[j]] == Push(elems[j], true) && results[tail[j]] == Done
  }

  ghost predicate Explaining<T(!new)>(less: (T, T) -> bool, m: multiset<T>, ops: seq<Op<T>>, results: seq<Outcome<T>>,
                                      log: Log, data: seq<T>, mark: nat)
  {
    && |results| == |ops| && mark <= |data| && |log.tail| == |data| - mark
    && log.Named() == multiset(Iota(|ops|))
    && Settled(less, m, ops, results, log.order, multiset(data[..mark]))
    && TailIs(ops, results, log.tail, data[mark..])
    && Heap(less, data, mark)
  }

  /** An open operation is nowhere in the log, so answering it disturbs nothing. */
  lemma OpenIsFresh<T(!new)>(less: (T, T) -> bool, m: multiset<T>, ops: seq<Op<T>>, results: seq<Outcome<T>>,
                             log: Log, data: seq<T>, mark: nat, i: nat, out: Outcome<T>)
    requires Explaining(less, m, ops, results, log, data, mark) && i in log.open
    ensures i < |ops|
    ensures Explaining(less, m, ops, results[i := out], log, data, mark)
  {
    IotaOnce(|ops|, i);
    assert log.Named()[i] <= 1;
    assert i !in multiset(log.order) && i !in multiset(log.tail);
    EventsUnchanged(ops, results, log.order, i, out);
  }

  lemma TailGrows<T>(ops: seq<Op<T>>, results: seq<Outcome<T>>, tail: seq<nat>, elems: seq<T>, i: nat, x: T)
    requires TailIs(ops, results, tail, elems)
    requires i < |ops| && ops[i] == Push(x, true) && results[i] == Done
    ensures TailIs(ops, results, tail + [i], elems + [x])
  {
  }

  lemma TailShrinks<T>(ops: seq<Op<T>>, results: seq<Outcome<T>>, tail: seq<nat>, elems: seq<T>)
    requires TailIs(ops, results, tail, elems) && 0 < |tail|
    ensures TailIs(ops, results, tail[..|tail|-1], elems[..|elems|-1])
    ensures var t := tail[|tail|-1]; t < |ops| && ops[t] == Push(elems[|elems|-1], true) && results[t] == Done
  {
  }

  lemma TailFirst<T>(ops: seq<Op<T>>, results: seq<Outcome<T>>, tail: seq<nat>, elems: seq<T>)
    requires TailIs(ops, results, tail, elems) && 0 < |tail|
    ensures var n := |tail| - 1;
      TailIs(ops, results, tail[0 := tail[n]][n := tail[0]], elems[0 := elems[n]][n := elems[0]])
  {
  }

  lemma {:induction false} SettleOne<T(!new)>(less: (T, T) -> bool, m: multiset<T>, ops: seq<Op<T>>,
                                              results: seq<Outcome<T>>,
                                              order: seq<nat>, q: multiset<T>, i: nat)
    requires Settled(less, m, ops, results, order, q)
    requires i < |ops| && Allowed(less, q, Event(ops[i], results[i]))
    ensures Settled(less, m, ops, results, order + [i], After(q, Event(ops[i], results[i])))
  {
    assert (order + [i])[..|order|] == order;
  }

  /** Settle an open operation. */
  function SettleOpen(log: Log, i: nat): (log': Log)
    ensures i in log.open ==> log'.Named() == log.Named()
  {
    log.(order := log.order + [i], open := log.open - multiset{i})
  }

  /** Settle the push of the last tail element. */
  function SettlePush(log: Log): (log': Log)
    requires 0 < |log.tail|
    ensures log'.Named() == log.Named()
  {
    DropLast(log.tail, 0);
    log.(order := log.order + [log.tail[|log.tail|-1]], tail := log.tail[..|log.tail|-1])
  }

  function KeepOpen(log: Log, i: nat): (log': Log)
    ensures i in log.open ==> log'.Named() == log.Named()
  {
    log.(tail := log.tail + [i], open := log.open - multiset{i})
  }

  function SwapEnds(log: Log): (log': Log)
    requires 0 < |log.tail|
    ensures log'.Named() == log.Named()
  {
    log.(tail := log.tail[0 := log.tail[|log.tail|-1]][|log.tail|-1 := log.tail[0]])
  }

  /** A push whose element lands in the unsorted tail. */
  lemma PushAnswered<T(!new)>(less: (T, T) -> bool, m: multiset<T>, ops: seq<Op<T>>, results: seq<Outcome<T>>,
                              log: Log, data: seq<T>, mark: nat, i: nat, x: T)
    requires Explaining(less, m, ops, results, log, data, mark) && i in log.open
    requires i < |ops| && ops[i] == Push(x, true)
    ensures Explaining(less, m, ops, results[i := Done], KeepOpen(log, i), data + [x], mark)
  {
    hide Settled, TailIs;
    OpenIsFresh(less, m, ops, results, log, data, mark, i, Done);
    DropLast(data + [x], mark);
    TailGrows(ops, results[i := Done], log.tail, data[mark..], i, x);
    assert (data + [x])[mark..] == data[mark..] + [x];
  }

  /** An operation that the settled queue can answer at once and that leaves it unchanged. */
  lemma NothingDone<T(!new)>(less: (T, T) -> bool, m: multiset<T>, ops: seq<Op<T>>, results: seq<Outcome<T>>,
                             log: Log, data: seq<T>, mark: nat, i: nat)
    requires Explaining(less, m, ops, results, log, data, mark) && i in log.open
    requires i < |ops| && (if ops[i].Push? then !ops[i].alloc else data == [])
    ensures Explaining(less, m, ops, results[i := Failed], SettleOpen(log, i), data, mark)
  {
    hide Settled, TailIs;
    OpenIsFresh(less, m, ops, results, log, data, mark, i, Failed);
    SettleOne(less, m, ops, results[i := Failed], log.order, multiset(data[..mark]), i);
  }

  /** Settle a push of `x` and at once a pop that takes it. */
  lemma SettlePair<T(!new)>(less: (T, T) -> bool, m: multiset<T>, ops: seq<Op<T>>, rs: seq<Outcome<T>>,
                            order: seq<nat>, q: multiset<T>, t: nat, i: nat, x: T)
    requires Settled(less, m, ops, rs, order, q) && IsTop(less, q + multiset{x}, x)
    requires t < |ops| && ops[t] == Push(x, true) && rs[t] == Done
    requires i < |ops| && ops[i] == Pop && rs[i] == Taken(x)
    ensures Settled(less, m, ops, rs, order + [t] + [i], q)
  {
    SettleOne(less, m, ops, rs, order, q, t);
    SettleOne(less, m, ops, rs, order + [t], q + multiset{x}, i);
    assert q + multiset{x} - multiset{x} == q;
  }

  /** A pop that takes the last element of the tail because it is above the root: settle
      the push of that element first, then the pop. */
  lemma TailTaken<T(!new)>(less: (T, T) -> bool, m: multiset<T>, ops: seq<Op<T>>, results: seq<Outcome<T>>,
                           log: Log, data: seq<T>, mark: nat, i: nat)
    requires StrictWeakOrder(less)
    requires Explaining(less, m, ops, results, log, data, mark) && i in log.open
    requires mark < |data| && less(data[0], data[|data|-1])
    requires i < |ops| && ops[i].Pop?
    ensures Explaining(less, m, ops, results[i := Taken(data[|data|-1])], SettleOpen(SettlePush(log), i),
                       data[..|data|-1], mark)
  {
    hide Settled, TailIs, StrictWeakOrder, IsTop;
    var x := data[|data|-1];
    var rs := results[i := Taken(x)];
    OpenIsFresh(less, m, ops, results, log, data, mark, i, Taken(x));
    AboveRootIsTop(less, data, mark, x);
    DropLast(data, mark);
    TailShrinks(ops, rs, log.tail, data[mark..]);
    SettlePair(less, m, ops, rs, log.order, multiset(data[..mark]), log.tail[|log.tail|-1], i, x);
  }

  /** A pop that takes the root while a tail is there: the last tail element joins the heap. */
  lemma RootTakenTailJoins<T(!new)>(less: (T, T) -> bool, m: multiset<T>, ops: seq<Op<T>>, results: seq<Outcome<T>>,
                                    log: Log, data: seq<T>, mark: nat, i: nat)
    requires StrictWeakOrder(less)
    requires Explaining(less, m, ops, results, log, data, mark) && i in log.open
    requires 0 < mark < |data|
    requires i < |ops| && ops[i].Pop?
    ensures Explaining(less, m, ops, results[i := Taken(data[0])], SettlePush(SettleOpen(log, i)),
                       Sunk(less, data, mark, 0)[..|data|-1], mark)
  {
    hide Settled, TailIs, StrictWeakOrder, Sunk, IsTop;
    var rs := results[i := Taken(data[0])];
    OpenIsFresh(less, m, ops, results, log, data, mark, i, Taken(data[0]));
    RootTakenWithTail(less, data, mark);
    RootIsTopOfAll(less, data, mark);
    DropLast(data, mark);
    TailShrinks(ops, rs, log.tail, data[mark..]);
    var q := multiset(data[..mark]);
    SettleOne(less, m, ops, rs, log.order, q, i);
    SettleOne(less, m, ops, rs, log.order + [i], q - multiset{data[0]}, log.tail[|log.tail|-1]);
  }

  /** A pop that takes the root of a vector that is all heap. */
  lemma RootTakenNoTail<T(!new)>(less: (T, T) -> bool, m: multiset<T>, ops: seq<Op<T>>, results: seq<Outcome<T>>,
                                 log: Log, data: seq<T>, i: nat)
    requires StrictWeakOrder(less)
    requires Explaining(less, m, ops, results, log, data, |data|) && i in log.open
    requires 0 < |data|
    requires i < |ops| && ops[i].Pop?
    ensures Explaining(less, m, ops, results[i := Taken(data[0])], SettleOpen(log, i),
                       Sunk(less, data, |data|, 0)[..|data|-1], |data|-1)
  {
    hide Settled, TailIs, StrictWeakOrder, Sunk, IsTop;
    var rs := results[i := Taken(data[0])];
    OpenIsFresh(less, m, ops, results, log, data, |data|, i, Taken(data[0]));
    RootTakenFromHeap(less, data);
    RootIsTopOfAll(less, data, |data|);
    assert data[..|data|] == data;
    SettleOne(less, m, ops, rs, log.order, multiset(data), i);
    var d := Sunk(less, data, |data|, 0)[..|data|-1];
    assert d[..|data|-1] == d && d[|data|-1..] == data[|data|..];
  }

  /** A pop that takes the first element although nothing is sorted yet: the settled queue
      is empty, so the push of that element and the pop are settled together, and the last
      tail element takes its place. */
  lemma FirstTaken<T(!new)>(less: (T, T) -> bool, m: multiset<T>, ops: seq<Op<T>>, results: seq<Outcome<T>>,
                            log: Log, data: seq<T>, i: nat)
    requires StrictWeakOrder(less)
    requires Explaining(less, m, ops, results, log, data, 0) && i in log.open
    requires 0 < |data| && i < |ops| && ops[i].Pop?
    ensures 0 < |log.tail|
    ensures Explaining(less, m, ops, results[i := Taken(data[0])], SettleOpen(SettlePush(SwapEnds(log)), i),
                       data[0 := data[|data|-1]][..|data|-1], 0)
  {
    hide Settled, TailIs, StrictWeakOrder, Sunk;
    var n := |data| - 1;
    var rs := results[i := Taken(data[0])];
    OpenIsFresh(less, m, ops, results, log, data, 0, i, Taken(data[0]));
    AboveRootIsTop(less, data, 0, data[0]);
    TailFirst(ops, rs, log.tail, data);
    TailShrinks(ops, rs, SwapEnds(log).tail, data[0 := data[n]][n := data[0]]);
    SettlePair(less, m, ops, rs, log.order, multiset{}, SwapEnds(log).tail[n], i, data[0]);
    assert data[0 := data[n]][n := data[0]][..n] == data[0 := data[n]][..n];
  }

  ghost predicate PopsOf<T>(ops: seq<Op<T>>, pops: seq<nat>) {
    Within(pops, |ops|) && forall j :: 0 <= j < |pops| ==> ops[pops[j]].Pop?
  }

  lemma Remaining(n: nat, k: nat)
    requires k < n
    ensures multiset(Iota(n)[k..]) == multiset{k} + multiset(Iota(n)[k+1..])
  {
    assert Iota(n)[k..] == [k] + Iota(n)[k+1..];
  }

  /** The pop that Reheap serves, whatever the shape of the vector. */
  lemma RootAnswered<T(!new)>(less: (T, T) -> bool, m: multiset<T>, ops: seq<Op<T>>, results: seq<Outcome<T>>,
                              log: Log, data: seq<T>, mark: nat, i: nat) returns (log': Log)
    requires StrictWeakOrder(less)
    requires Explaining(less, m, ops, results, log, data, mark) && i in log.open
    requires mark <= |data| && 0 < |data| && i < |ops| && ops[i].Pop?
    ensures log'.open == log.open - multiset{i}
    ensures Explaining(less, m, ops, results[i := Taken(data[0])], log', Sunk(less, data, mark, 0)[..|data|-1],
                       if mark < |data| then mark else |data|-1)
  {
    hide Explaining, StrictWeakOrder;
    if mark == 0 {
      FirstTaken(less, m, ops, results, log, data, i);
      log' := SettleOpen(SettlePush(SwapEnds(log)), i);
    } else if mark < |data| {
      RootTakenTailJoins(less, m, ops, results, log, data, mark, i);
      log' := SettlePush(SettleOpen(log, i));
    } else {
      RootTakenNoTail(less, m, ops, results, log, data, i);
      log' := SettleOpen(log, i);
    }
  }

  /** At the end of a batch the remaining pushes are settled. */
  lemma {:induction false} AllSettled<T(!new)>(less: (T, T) -> bool, m: multiset<T>, ops: seq<Op<T>>,
                                               results: seq<Outcome<T>>,
                                               log: Log, q: multiset<T>, elems: seq<T>)
    requires Settled(less, m, ops, results, log.order, q) && TailIs(ops, results, log.tail, elems)
    requires log.open == multiset{} && log.Named() == multiset(Iota(|ops|))
    ensures Explained(less, m, ops, results, q + multiset(elems))
    decreases |elems|
  {
    if elems == [] {
      assert log.tail == [] && q + multiset(elems) == q;
      assert multiset(log.order) == log.Named();
    } else {
      var n := |elems| - 1;
      TailShrinks(ops, results, log.tail, elems);
      SettleOne(less, m, ops, results, log.order, q, log.tail[n]);
      AllSettled(less, m, ops, results, SettlePush(log), q + multiset{elems[n]}, elems[..n]);
      DropLast(elems, 0);
      assert q + multiset{elems[n]} + multiset(elems[..n]) == q + multiset(elems);
    }
  }

  lemma BatchExplained<T(!new)>(less: (T, T) -> bool, m: multiset<T>, ops: seq<Op<T>>, results: seq<Outcome<T>>,
                                log: Log, data: seq<T>, mark: nat)
    requires Explaining(less, m, ops, results, log, data, mark) && log.open == multiset{}
    ensures Explained(less, m, ops, results, multiset(data))
  {
    AllSettled(less, m, ops, results, log, multiset(data[..mark]), data[mark..]);
    SplitAt(data, mark);
  }

  // ----- The two passes as functions -------------------------------------------------

  /** What the handler works on: the vector, the results and the postponed pops. */
  datatype Work<T> = Work(data: seq<T>, mark: nat, results: seq<Outcome<T>>, pops: seq<nat>)

  ghost predicate WorkOk<T>(ops: seq<Op<T>>, w: Work<T>) {
    |w.results| == |ops| && w.mark <= |w.data| && PopsOf(ops, w.pops)
  }

  ghost function TakeLast<T>(w: Work<T>, i: nat): Work<T>
    requires i < |w.results| && w.data != []
  {
    w.(results := w.results[i := Taken(w.data[|w.data|-1])], data := w.data[..|w.data|-1])
  }

  ghost function FirstStep<T>(less: (T, T) -> bool, ops: seq<Op<T>>, w: Work<T>, i: nat): (w': Work<T>)
    requires WorkOk(ops, w) && i < |ops|
    ensures WorkOk(ops, w')
  {
    match ops[i]
    case Pop =>
      if w.mark < |w.data| && less(w.data[0], w.data[|w.data|-1]) then TakeLast(w, i)
      else w.(pops := [i] + w.pops)
    case Push(x, alloc) =>
      if alloc then w.(data := w.data + [x], results := w.results[i := Done])
      else w.(results := w.results[i := Failed])
  }

  ghost function FirstPass<T>(less: (T, T) -> bool, ops: seq<Op<T>>, w: Work<T>, n: nat): (w': Work<T>)
    requires WorkOk(ops, w) && n <= |ops|
    ensures WorkOk(ops, w')
    decreases |ops| - n
  {
    if n == |ops| then w else FirstPass(less, ops, FirstStep(less, ops, w, n), n + 1)
  }

  ghost function SecondStep<T>(less: (T, T) -> bool, ops: seq<Op<T>>, w: Work<T>, i: nat): (w': Work<T>)
    requires WorkOk(ops, w) && i < |ops|
    ensures WorkOk(ops, w') && w'.pops == w.pops
  {
    if w.data == [] then w.(results := w.results[i := Failed])
    else if w.mark < |w.data| && less(w.data[0], w.data[|w.data|-1]) then TakeLast(w, i)
    else
      var last := |w.data| - 1;
      w.(results := w.results[i := Taken(w.data[0])],
         data := Sunk(less, w.data, w.mark, 0)[..last],
         mark := if w.mark <= last then w.mark else last)
  }

  ghost function SecondPass<T>(less: (T, T) -> bool, ops: seq<Op<T>>, w: Work<T>): (w': Work<T>)
    requires WorkOk(ops, w)
    ensures WorkOk(ops, w')
    decreases |w.pops|
  {
    if w.pops == [] then w
    else SecondPass(less, ops, SecondStep(less, ops, w.(pops := w.pops[1..]), w.pops[0]))
  }

  lemma FirstStepExplained<T(!new)>(less: (T, T) -> bool, m: multiset<T>, ops: seq<Op<T>>, w: Work<T>, log: Log, i: nat)
    returns (log': Log)
    requires StrictWeakOrder(less) && WorkOk(ops, w) && i < |ops| && i in log.open
    requires Explaining(less, m, ops, w.results, log, w.data, w.mark)
    ensures var w' := FirstStep(less, ops, w, i);
      && Explaining(less, m, ops, w'.results, log', w'.data, w'.mark)
      && log'.open + multiset(w.pops) + multiset{i} == log.open + multiset(w'.pops)
  {
    hide Explaining, StrictWeakOrder, Sunk;
    if ops[i].Pop? {
      if w.mark < |w.data| && less(w.data[0], w.data[|w.data|-1]) {
        TailTaken(less, m, ops, w.results, log, w.data, w.mark, i);
        log' := SettleOpen(SettlePush(log), i);
      } else {
        log' := log;
      }
    } else if ops[i].alloc {
      PushAnswered(less, m, ops, w.results, log, w.data, w.mark, i, ops[i].elem);
      log' := KeepOpen(log, i);
    } else {
      NothingDone(less, m, ops, w.results, log, w.data, w.mark, i);
      log' := SettleOpen(log, i);
    }
  }

  lemma {:induction false} FirstPassExplained<T(!new)>(less: (T, T) -> bool, m: multiset<T>, ops: seq<Op<T>>,
                                                       w: Work<T>,
                                                       log: Log, n: nat) returns (log': Log)
    requires StrictWeakOrder(less) && WorkOk(ops, w) && n <= |ops|
    requires Explaining(less, m, ops, w.results, log, w.data, w.mark)
    requires log.open == multiset(w.pops) + multiset(Iota(|ops|)[n..])
    ensures var w' := FirstPass(less, ops, w, n);
      && Explaining(less, m, ops, w'.results, log', w'.data, w'.mark)
      && log'.open == multiset(w'.pops)
    decreases |ops| - n
  {
    if n == |ops| {
      log' := log;
    } else {
      Remaining(|ops|, n);
      var mid := FirstStepExplained(less, m, ops, w, log, n);
      var w1 := FirstStep(less, ops, w, n);
      Bags(mid.open, multiset(w.pops), n, multiset(Iota(|ops|)[n+1..]), multiset(w1.pops));
      log' := FirstPassExplained(less, m, ops, w1, mid, n + 1);
    }
  }

  lemma Bags(open: multiset<nat>, pops: multiset<nat>, n: nat, rest: multiset<nat>, pops': multiset<nat>)
    requires open + pops + multiset{n} == pops + (multiset{n} + rest) + pops'
    ensures open == pops' + rest
  {
    forall k ensures open[k] == (pops' + rest)[k] {
      assert (open + pops + multiset{n})[k] == (pops + (multiset{n} + rest) + pops')[k];
    }
  }

  lemma SecondStepExplained<T(!new)>(less: (T, T) -> bool, m: multiset<T>, ops: seq<Op<T>>, w: Work<T>, log: Log,
                                     i: nat)
    returns (log': Log)
    requires StrictWeakOrder(less) && WorkOk(ops, w) && i < |ops| && ops[i].Pop? && i in log.open
    requires Explaining(less, m, ops, w.results, log, w.data, w.mark)
    ensures var w' := SecondStep(less, ops, w, i);
      && Explaining(less, m, ops, w'.results, log', w'.data, w'.mark)
      && log'.open == log.open - multiset{i}
  {
    hide Explaining, StrictWeakOrder, Sunk;
    if w.data == [] {
      NothingDone(less, m, ops, w.results, log, w.data, w.mark, i);
      log' := SettleOpen(log, i);
    } else if w.mark < |w.data| && less(w.data[0], w.data[|w.data|-1]) {
      TailTaken(less, m, ops, w.results, log, w.data, w.mark, i);
      log' := SettleOpen(SettlePush(log), i);
    } else {
      log' := RootAnswered(less, m, ops, w.results, log, w.data, w.mark, i);
    }
  }

  lemma SecondStepKeepsHeap<T(!new)>(less: (T, T) -> bool, ops: seq<Op<T>>, w: Work<T>, i: nat)
    requires StrictWeakOrder(less) && WorkOk(ops, w) && i < |ops| && Heap(less, w.data, w.mark)
    ensures var w' := SecondStep(less, ops, w, i); Heap(less, w'.data, w'.mark)
  {
    if w.data != [] && w.mark == |w.data| {
      RootTakenFromHeap(less, w.data);
    } else if w.data != [] && 0 < w.mark {
      RootTakenWithTail(less, w.data, w.mark);
    }
  }

  lemma {:induction false} SecondPassExplained<T(!new)>(less: (T, T) -> bool, m: multiset<T>, ops: seq<Op<T>>,
                                                        w: Work<T>,
                                                        log: Log)
    requires StrictWeakOrder(less) && WorkOk(ops, w)
    requires Explaining(less, m, ops, w.results, log, w.data, w.mark) && log.open == multiset(w.pops)
    ensures var w' := SecondPass(less, ops, w);
      Heap(less, w'.data, w'.mark) && Explained(less, m, ops, w'.results, multiset(w'.data))
    decreases |w.pops|
  {
    if w.pops == [] {
      BatchExplained(less, m, ops, w.results, log, w.data, w.mark);
    } else {
      var i := w.pops[0];
      assert w.pops == [i] + w.pops[1..];
      var w0 := w.(pops := w.pops[1..]);
      var mid := SecondStepExplained(less, m, ops, w0, log, i);
      SecondPassExplained(less, m, ops, SecondStep(less, ops, w0, i), mid);
    }
  }

  /** Whatever the batch, the answers of the two passes are those of a sequential queue. */
  lemma BatchIsExplained<T(!new)>(less: (T, T) -> bool, ops: seq<Op<T>>, w: Work<T>)
    requires StrictWeakOrder(less) && WorkOk(ops, w) && w.mark == |w.data| && w.pops == []
    requires Heap(less, w.data, w.mark)
    ensures var w' := SecondPass(less, ops, FirstPass(less, ops, w, 0));
      Heap(less, w'.data, w'.mark) && Explained(less, multiset(w.data), ops, w'.results, multiset(w'.data))
    ensures var w1 := FirstPass(less, ops, w, 0); Heap(less, w1.data, w1.mark)
  {
    var log := Log([], [], multiset(Iota(|ops|)));
    assert w.data[..w.mark] == w.data && w.data[w.mark..] == [];
    assert Iota(|ops|)[0..] == Iota(|ops|);
    var log' := FirstPassExplained(less, multiset(w.data), ops, w, log, 0);
    SecondPassExplained(less, multiset(w.data), ops, FirstPass(less, ops, w, 0), log');
  }

  class ConcurrentPriorityQueue<T(!new)> {
    const less: (T, T) -> bool
    // data[..mark] is a heap, data[mark..] has not been inserted into it yet
    var data: seq<T>
    var mark: nat
    var my_size: nat

    ghost predicate Valid()
      reads this
    {
      && StrictWeakOrder(less)
      && mark == my_size == |data|
      && Heap(less, data, mark)
    }

    constructor (less: (T, T) -> bool)
      requires StrictWeakOrder(less)
      ensures Valid() && data == [] && this.less == less
    {
      this.less := less;
      data, mark, my_size := [], 0, 0;
    }

    /** Sift the element at `mark` up: the heap grows by one. */
    method SiftUp()
      requires StrictWeakOrder(less)
      requires 0 < mark < |data| && Heap(less, data, mark)
      modifies `data
      ensures |data| == |old(data)| && multiset(data) == multiset(old(data))
      ensures Heap(less, data, mark + 1)
    {
      var cur := mark;
      var toPlace := data[mark];
      assert data[cur := toPlace] == data;
      while true
        invariant |data| == |old(data)| && 0 < cur
        invariant RisingAt(less, data, mark + 1, cur, toPlace)
        invariant multiset(data[cur := toPlace]) == multiset(old(data))
        decreases cur
      {
        var parent := Parent(cur);
        if !less(data[parent], toPlace) { break; }
        RiseStep(less, data, mark + 1, cur, toPlace);
        data := data[cur := data[parent]];
        cur := parent;
        if cur == 0 { break; }
      }
      data := data[cur := toPlace];
    }

    /** Merge the unsorted elements into the heap. */
    method Heapify()
      requires StrictWeakOrder(less)
      requires mark <= |data| && Heap(less, data, mark)
      modifies `data, `mark
      ensures mark == |data| && Heap(less, data, mark)
      ensures multiset(data) == multiset(old(data))
    {
      if mark == 0 && |data| > 0 { mark := 1; }
      while mark < |data|
        invariant mark <= |data| == |old(data)| && (0 < |data| ==> 0 < mark)
        invariant Heap(less, data, mark)
        invariant multiset(data) == multiset(old(data))
      {
        SiftUp();
        mark := mark + 1;
      }
    }

    /** Take the root out and push the last element of the vector down from the root. */
    method Reheap()
      requires StrictWeakOrder(less)
      requires 0 < |data| && mark <= |data| && Heap(less, data, mark)
      modifies `data, `mark
      ensures data == Sunk(less, old(data), old(mark), 0)[..|old(data)|-1]
      ensures mark == if old(mark) < |old(data)| then old(mark) else |old(data)| - 1
    {
      hide Heap, StrictWeakOrder;
      if mark > 0 { SunkKeepsTail(less, data, mark, 0); }
      var cur, child := 0, 1;
      while child < mark
        invariant mark == old(mark) && |data| == |old(data)| && child == 2 * cur + 1 && cur < |data|
        invariant data[|data|-1] == old(data[|data|-1])
        invariant Sunk(less, data, mark, cur) == Sunk(less, old(data), mark, 0)
        decreases mark - cur
      {
        var target := child;
        if child + 1 < mark && less(data[child], data[child + 1]) {
          target := target + 1;
        }
        assert target == HighChild(less, data, mark, cur);
        if less(data[target], data[|data|-1]) { break; }
        data := data[cur := data[target]];
        cur := target;
        child := 2 * cur + 1;
      }
      if cur != |data| - 1 {
        data := data[cur := data[|data|-1]];
      }
      assert data == Sunk(less, old(data), mark, 0);
      data := data[..|data|-1];
      if mark > |data| { mark := |data|; }
    }

    /** Perform a batch: first every push and every pop that the unsorted tail can serve,
        in list order, then the postponed pops, newest first, then the heap is rebuilt. */
    method HandleOperations(ops: seq<Op<T>>) returns (results: seq<Outcome<T>>)
      requires Valid()
      modifies `data, `mark, `my_size
      ensures Valid() && |results| == |ops|
      ensures Explained(less, multiset(old(data)), ops, results, multiset(data))
    {
      hide Heap, Explained, Sunk, StrictWeakOrder;
      results := seq(|ops|, _ => Wait);
      var popList: seq<nat> := [];
      ghost var start := Work(data, mark, results, []);
      var n := 0;
      while n < |ops|
        invariant 0 <= n <= |ops| && my_size == |data|
        invariant WorkOk(ops, Work(data, mark, results, popList))
        invariant FirstPass(less, ops, Work(data, mark, results, popList), n) == FirstPass(less, ops, start, 0)
      {
        var tmp := n;
        n := n + 1;
        if ops[tmp].Pop? {
          if mark < |data| && less(data[0], data[|data|-1]) {
            results := results[tmp := Taken(data[|data|-1])];
            my_size := my_size - 1;
            data := data[..|data|-1];
          } else {
            popList := [tmp] + popList;
          }
        } else if ops[tmp].alloc {
          data := data + [ops[tmp].elem];
          my_size := my_size + 1;
          results := results[tmp := Done];
        } else {
          results := results[tmp := Failed];
        }
      }
      ghost var middle := Work(data, mark, results, popList);
      BatchIsExplained(less, ops, start);
      hide FirstPass, FirstStep;
      while popList != []
        invariant WorkOk(ops, Work(data, mark, results, popList))
        invariant my_size == |data| && Heap(less, data, mark)
        invariant SecondPass(less, ops, Work(data, mark, results, popList)) == SecondPass(less, ops, middle)
      {
        ghost var w := Work(data, mark, results, popList[1..]);
        SecondStepKeepsHeap(less, ops, w, popList[0]);
        var tmp := popList[0];
        popList := popList[1..];
        if data == [] {
          results := results[tmp := Failed];
        } else if mark < |data| && less(data[0], data[|data|-1]) {
          results := results[tmp := Taken(data[|data|-1])];
          my_size := my_size - 1;
          data := data[..|data|-1];
        } else {
          results := results[tmp := Taken(data[0])];
          my_size := my_size - 1;
          Reheap();
        }
        assert Work(data, mark, results, popList) == SecondStep(less, ops, w, tmp);
      }
      if mark < |data| { Heapify(); }
    }
  }
}
