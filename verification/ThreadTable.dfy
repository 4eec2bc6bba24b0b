/** The per-thread table of enumerable_thread_specific.h. */
module ThreadTable {
  // A state machine: a list of arrays of growing size, searched and filled by lock-free linear
  // probing.
  //
  // Any number of threads call table_lookup again and again, without table_clear.  Every access
  // to my_root, my_count and to the key and the pointer of a slot is a step of its own.  The
  // arrays of the list are numbered from the oldest; the newest is the root.

  import opened HashIndex
  import opened Options

  /** `key` is the thread that claimed the slot, `ptr` its local object. */
  datatype Slot = Slot(key: Option<nat>, ptr: nat)

  datatype Array = Array(lg: nat, next: Option<nat>, slots: seq<Slot>)

  /** Where a thread is.  `Scan` probes slot number `n` after the starting one in array `r`;
      `Match` has found its key and will compare `r` with the root; `Swap` tries to install its
      own array of 2^lg slots before `r`; `Place` looks for an empty slot in array `r`, `Take`
      tries to claim the one it saw, `Store` writes the pointer. */
  datatype Pc =
    | Idle | Begin | Scan(r: nat, n: nat) | Match(r: nat, found: nat)
    | Create | Count(found: nat) | Compare(c: nat, found: nat) | Swap(c: nat, found: nat, lg: nat, next: Option<nat>)
    | Insert(found: nat, exists': bool) | Place(r: nat, n: nat, found: nat, exists': bool)
    | Take(r: nat, n: nat, found: nat, exists': bool) | Store(r: nat, n: nat, found: nat, exists': bool)
    | Return(found: nat, exists': bool)

  /** `count` is my_count; `made` the number of create_local calls, which name the objects.
      By thread: the number its increment of my_count gave, its object, the number of its
      create_local calls, and of its finished calls. */
  datatype State = State(
    list: seq<Array>,
    count: nat,
    made: nat,
    pc: seq<Pc>,
    number: seq<nat>,
    local: seq<Option<nat>>,
    created: seq<nat>,
    calls: seq<nat>)

  const WORD: nat := 64

  // ----- Probing ---------------------------------------------------------------------

  function Quotient(h: nat, p: nat): nat
    requires 0 < p
  {
    h / p
  }

  /** h >> (WORD - lg) */
  function Start(h: nat, lg: nat): nat
    requires lg <= WORD
  {
    Quotient(h, Pow2(WORD - lg))
  }

  predicate GoodArray(a: Array) {
    2 <= a.lg <= WORD && |a.slots| == Pow2(a.lg)
  }

  /** The slot looked at after `n` steps, (start + n) & mask. */
  function ProbeAt(a: Array, h: nat, n: nat): (i: nat)
    requires GoodArray(a)
    ensures i < |a.slots|
  {
    (Start(h, a.lg) + n) % |a.slots|
  }

  ghost predicate Taken(a: Array, h: nat, n: nat)
    requires GoodArray(a)
  {
    a.slots[ProbeAt(a, h, n)].key.Some?
  }

  /** The first `n` probes meet claimed slots. */
  ghost predicate FullPath(a: Array, h: nat, n: nat)
    requires GoodArray(a)
  {
    forall d: nat :: d < n ==> Taken(a, h, d)
  }

  ghost predicate Has(a: Array, k: nat) {
    exists j: nat :: j < |a.slots| && a.slots[j].key == Some(k)
  }

  /** The least exponent from `lg` on with 2^(lg-1) >= c. */
  ghost function Enough(c: nat, lg: nat): (s: nat)
    requires 1 <= lg
    ensures lg <= s && c <= Pow2(s - 1) && (s == lg || Pow2(s - 2) < c)
    decreases c - lg
  {
    Pow2Above(lg - 1);
    if c > Pow2(lg - 1) then Enough(c, lg + 1) else lg
  }

  ghost function Root(s: State): Option<nat> {
    if s.list == [] then None else Some(|s.list| - 1)
  }

  // ----- Steps -----------------------------------------------------------------------

  ghost predicate Sizes(s: State) {
    |s.pc| == |s.number| == |s.local| == |s.created| == |s.calls|
  }

  ghost function Go(s: State, t: nat, p: Pc): State
    requires t < |s.pc|
  {
    s.(pc := s.pc[t := p])
  }

  ghost predicate CallStep(s: State, t: nat, s': State) {
    t < |s.pc| && s.pc[t].Idle? && s' == Go(s, t, Begin)
  }

  /** r = my_root, for the search */
  ghost predicate BeginStep(s: State, t: nat, s': State) {
    && t < |s.pc| && s.pc[t].Begin?
    && s' == Go(s, t, if Root(s).Some? then Scan(Root(s).value, 0) else Create)
  }

  /** Look at one slot: an empty one ends the search of this array. */
  ghost predicate ScanStep(hash: nat -> nat, s: State, t: nat, s': State) {
    && t < |s.pc| && s.pc[t].Scan? && s.pc[t].r < |s.list| && GoodArray(s.list[s.pc[t].r])
    && var r, n := s.pc[t].r, s.pc[t].n;
       var a := s.list[r];
       var slot := a.slots[ProbeAt(a, hash(t), n)];
       s' == Go(s, t,
         if slot.key == None then (if a.next.Some? then Scan(a.next.value, 0) else Create)
         else if slot.key == Some(t) then Match(r, slot.ptr)
         else Scan(r, n + 1))
  }

  ghost predicate MatchStep(s: State, t: nat, s': State) {
    && t < |s.pc| && s.pc[t].Match?
    && s' == Go(s, t, if Root(s) == Some(s.pc[t].r) then Return(s.pc[t].found, true) else Insert(s.pc[t].found, true))
  }

  ghost predicate CreateStep(s: State, t: nat, s': State) {
    && t < |s.pc| && s.pc[t].Create? && Sizes(s)
    && s' == Go(s, t, Count(s.made)).(made := s.made + 1, local := s.local[t := Some(s.made)],
         created := s.created[t := s.created[t] + 1])
  }

  ghost predicate CountStep(s: State, t: nat, s': State) {
    && t < |s.pc| && s.pc[t].Count? && Sizes(s)
    && s' == Go(s, t, Compare(s.count + 1, s.pc[t].found)).(count := s.count + 1, number := s.number[t := s.count + 1])
  }

  /** r = my_root, after counting: is there room? */
  ghost predicate CompareStep(s: State, t: nat, s': State) {
    && t < |s.pc| && s.pc[t].Compare?
    && var c, found := s.pc[t].c, s.pc[t].found;
       if s.list == [] then s' == Go(s, t, Swap(c, found, Enough(c, 2), None))
       else
         var a := s.list[|s.list|-1];
         && 1 <= a.lg
         && s' == if c > Pow2(a.lg) / 2 then Go(s, t, Swap(c, found, Enough(c, a.lg), Root(s)))
              else Go(s, t, Insert(found, false))
  }

  function NewArray(lg: nat, next: Option<nat>): Array {
    Array(lg, next, seq(Pow2(lg), _ => Slot(None, 0)))
  }

  /** compare_and_swap(a, r), and what follows when another root is there. */
  ghost predicate SwapStep(s: State, t: nat, s': State) {
    && t < |s.pc| && s.pc[t].Swap?
    && var c, found, lg, next := s.pc[t].c, s.pc[t].found, s.pc[t].lg, s.pc[t].next;
       if Root(s) == next then s' == Go(s, t, Insert(found, false)).(list := s.list + [NewArray(lg, next)])
       else if Root(s) == None then false
       else s' == Go(s, t, if s.list[Root(s).value].lg >= lg then Insert(found, false) else Swap(c, found, lg, Root(s)))
  }

  /** ir = my_root */
  ghost predicate InsertStep(s: State, t: nat, s': State) {
    && t < |s.pc| && s.pc[t].Insert? && Root(s).Some?
    && s' == Go(s, t, Place(Root(s).value, 0, s.pc[t].found, s.pc[t].exists'))
  }

  ghost predicate PlaceStep(hash: nat -> nat, s: State, t: nat, s': State) {
    && t < |s.pc| && s.pc[t].Place? && s.pc[t].r < |s.list| && GoodArray(s.list[s.pc[t].r])
    && var r, n, found, e := s.pc[t].r, s.pc[t].n, s.pc[t].found, s.pc[t].exists';
       s' == Go(s, t, if Taken(s.list[r], hash(t), n) then Place(r, n + 1, found, e) else Take(r, n, found, e))
  }

  /** claim(k): the swap of the key succeeds if the slot is still empty. */
  ghost predicate TakeStep(hash: nat -> nat, s: State, t: nat, s': State) {
    && t < |s.pc| && s.pc[t].Take? && s.pc[t].r < |s.list| && GoodArray(s.list[s.pc[t].r])
    && var r, n, found, e := s.pc[t].r, s.pc[t].n, s.pc[t].found, s.pc[t].exists';
       var a := s.list[r];
       var i := ProbeAt(a, hash(t), n);
       s' == if Taken(a, hash(t), n) then Go(s, t, Place(r, n + 1, found, e))
             else
               Go(s, t, Store(r, n, found, e))
               .(list := s.list[r := a.(slots := a.slots[i := a.slots[i].(key := Some(t))])])
  }

  ghost predicate StoreStep(hash: nat -> nat, s: State, t: nat, s': State) {
    && t < |s.pc| && s.pc[t].Store? && s.pc[t].r < |s.list| && GoodArray(s.list[s.pc[t].r])
    && var r, n, found, e := s.pc[t].r, s.pc[t].n, s.pc[t].found, s.pc[t].exists';
       var a := s.list[r];
       var i := ProbeAt(a, hash(t), n);
       s' == Go(s, t, Return(found, e)).(list := s.list[r := a.(slots := a.slots[i := a.slots[i].(ptr := found)])])
  }

  ghost predicate ReturnStep(s: State, t: nat, s': State) {
    && t < |s.pc| && s.pc[t].Return? && Sizes(s)
    && s' == Go(s, t, Idle).(calls := s.calls[t := s.calls[t] + 1])
  }

  ghost predicate Next(hash: nat -> nat, s: State, t: nat, s': State) {
    || CallStep(s, t, s') || BeginStep(s, t, s') || ScanStep(hash, s, t, s') || MatchStep(s, t, s')
    || CreateStep(s, t, s')
    || CountStep(s, t, s') || CompareStep(s, t, s') || SwapStep(s, t, s') || InsertStep(s, t, s')
    || PlaceStep(hash, s, t, s')
    || TakeStep(hash, s, t, s') || StoreStep(hash, s, t, s') || ReturnStep(s, t, s')
  }

  /** No more threads than could ever have an identity. */
  ghost predicate Init(s: State) {
    && s.list == [] && s.count == 0 && s.made == 0 && Sizes(s) && |s.pc| <= Pow2(WORD - 2)
    && forall t: nat :: t < |s.pc| ==>
         s.pc[t] == Idle && s.number[t] == 0 && s.local[t] == None && s.created[t] == 0 && s.calls[t] == 0
  }

  // ----- The invariant ---------------------------------------------------------------

  /** The list: every array is larger than the one it was put before. */
  ghost predicate ListOk(s: State) {
    && (forall i: nat :: i < |s.list| ==> GoodArray(s.list[i]))
    && (forall i: nat :: i < |s.list| ==> s.list[i].next == if i == 0 then None else Some(i - 1))
    && (forall i: nat, j: nat :: i < j < |s.list| ==> s.list[i].lg < s.list[j].lg)
  }

  ghost function Numbered(s: State): set<nat>
    requires Sizes(s)
  {
    set t: nat | t < |s.pc| && 0 < s.number[t]
  }

  /** my_count counts the threads that got a number, and the numbers are different. */
  ghost predicate NumbersOk(s: State)
    requires Sizes(s)
  {
    && s.count == |Numbered(s)|
    && (forall t: nat :: t < |s.pc| ==> s.number[t] <= s.count)
    && (forall t: nat, u: nat :: t < u < |s.pc| && 0 < s.number[t] ==> s.number[t] != s.number[u])
  }

  /** No two threads have the same object. */
  ghost predicate LocalsOk(s: State)
    requires Sizes(s)
  {
    && (forall t: nat :: t < |s.pc| && s.local[t].Some? ==> s.local[t].value < s.made)
    && (forall t: nat, u: nat :: t < u < |s.pc| && s.local[t].Some? ==> s.local[t] != s.local[u])
  }

  /** Who claimed a slot has a number of at most half the size, and claimed it after the
      probes from its starting slot met claimed slots only. */
  ghost predicate ClaimOk(hash: nat -> nat, s: State, i: nat, j: nat)
    requires Sizes(s) && i < |s.list| && GoodArray(s.list[i]) && j < |s.list[i].slots| && s.list[i].slots[j].key.Some?
  {
    var a := s.list[i];
    var k := a.slots[j].key.value;
    && k < |s.pc| && 0 < s.number[k] <= Pow2(a.lg - 1)
    && (exists d: nat :: FullPath(a, hash(k), d) && ProbeAt(a, hash(k), d) == j)
    && (s.local[k] == Some(a.slots[j].ptr) || (s.pc[k].Store? && s.pc[k].r == i && ProbeAt(a, hash(k), s.pc[k].n) == j))
  }

  ghost predicate OneSlotEach(a: Array) {
    forall i: nat, j: nat :: i < j < |a.slots| && a.slots[i].key.Some? ==> a.slots[i].key != a.slots[j].key
  }

  ghost predicate ClaimsOk(hash: nat -> nat, s: State)
    requires Sizes(s) && ListOk(s)
  {
    && (forall i: nat :: i < |s.list| ==> OneSlotEach(s.list[i]))
    && (forall i: nat, j: nat :: i < |s.list| && j < |s.list[i].slots| && s.list[i].slots[j].key.Some? ==>
         ClaimOk(hash, s, i, j))
  }

  /** The key is in no array from number `i` on. */
  ghost predicate AbsentFrom(s: State, k: nat, i: int) {
    forall q: nat :: i <= q < |s.list| ==> !Has(s.list[q], k)
  }

  ghost predicate Present(s: State, k: nat) {
    exists q: nat :: q < |s.list| && Has(s.list[q], k)
  }

  /** Before the first create_local there is nothing; afterwards there is a claimed slot. */
  ghost predicate Settled(s: State, t: nat)
    requires Sizes(s) && t < |s.pc|
  {
    if s.local[t] == None then s.number[t] == 0 && s.created[t] == 0 && s.calls[t] == 0 && AbsentFrom(s, t, 0)
    else 0 < s.number[t] && s.created[t] == 1 && 0 < s.calls[t] && Present(s, t)
  }

  /** The object exists; is it the first call? */
  ghost predicate Holds(s: State, t: nat, found: nat, exists': bool)
    requires Sizes(s) && t < |s.pc|
  {
    s.local[t] == Some(found) && s.created[t] == 1 && (exists' <==> 0 < s.calls[t])
  }

  /** There is room for the thread in array `r` and in all newer ones. */
  ghost predicate RoomFrom(s: State, t: nat, r: nat)
    requires Sizes(s) && t < |s.pc|
  {
    r < |s.list| && 0 < s.number[t] && 1 <= s.list[r].lg && s.number[t] <= Pow2(s.list[r].lg - 1)
  }

  ghost predicate ThreadOk(hash: nat -> nat, s: State, t: nat)
    requires Sizes(s) && ListOk(s) && t < |s.pc|
  {
    match s.pc[t]
    case Idle => Settled(s, t)
    case Begin => Settled(s, t)
    case Scan(r, n) =>
      && r < |s.list| && AbsentFrom(s, t, r + 1) && Settled(s, t) && FullPath(s.list[r], hash(t), n)
      && forall d: nat :: d < n ==> s.list[r].slots[ProbeAt(s.list[r], hash(t), d)].key != Some(t)
    case Match(r, found) => r < |s.list| && AbsentFrom(s, t, r + 1) && Settled(s, t) && s.local[t] == Some(found)
      && RoomFrom(s, t, r)
    case Create => s.local[t] == None && Settled(s, t)
    case Count(found) => Holds(s, t, found, false) && s.number[t] == 0 && AbsentFrom(s, t, 0)
    case Compare(c, found) => Holds(s, t, found, false) && 0 < c == s.number[t] && AbsentFrom(s, t, 0)
    case Swap(c, found, lg, next) =>
      && Holds(s, t, found, false) && 0 < c == s.number[t] && AbsentFrom(s, t, 0)
      && 2 <= lg <= WORD && c <= Pow2(lg - 1) && (lg == 2 || Pow2(lg - 2) < c)
      && (next.Some? ==> next.value < |s.list| && s.list[next.value].lg < lg)
    case Insert(found, e) => Holds(s, t, found, e) && s.list != [] && RoomFrom(s, t, |s.list| - 1)
      && AbsentFrom(s, t, |s.list| - 1)
    case Place(r, n, found, e) =>
      Holds(s, t, found, e) && RoomFrom(s, t, r) && AbsentFrom(s, t, r) && FullPath(s.list[r], hash(t), n)
    case Take(r, n, found, e) =>
      Holds(s, t, found, e) && RoomFrom(s, t, r) && AbsentFrom(s, t, r) && FullPath(s.list[r], hash(t), n)
    case Store(r, n, found, e) =>
      && Holds(s, t, found, e) && r < |s.list| && 0 < s.number[t]
      && s.list[r].slots[ProbeAt(s.list[r], hash(t), n)].key == Some(t)
    case Return(found, e) => Holds(s, t, found, e) && 0 < s.number[t] && Present(s, t)
  }

  ghost predicate ThreadsOk(hash: nat -> nat, s: State)
    requires Sizes(s) && ListOk(s)
  {
    forall t: nat :: t < |s.pc| ==> ThreadOk(hash, s, t)
  }

  ghost predicate Inv(hash: nat -> nat, s: State) {
    && Sizes(s) && |s.pc| <= Pow2(WORD - 2)
    && ListOk(s) && NumbersOk(s) && LocalsOk(s) && ClaimsOk(hash, s) && ThreadsOk(hash, s)
  }

  // ----- What a step of one thread leaves to the others -------------------------------

  /** Keys are only added, and only by thread `t`; new arrays are empty. */
  ghost predicate ListGrows(l: seq<Array>, l': seq<Array>, t: nat) {
    && |l| <= |l'|
    && (forall i: nat :: i < |l| ==> l'[i].lg == l[i].lg && |l'[i].slots| == |l[i].slots|)
    && (forall i: nat, j: nat :: i < |l| && j < |l[i].slots| && |l'[i].slots| == |l[i].slots| ==>
          l'[i].slots[j].key == l[i].slots[j].key || (l[i].slots[j].key == None && l'[i].slots[j].key == Some(t)))
    && (forall i: nat, j: nat :: |l| <= i < |l'| && j < |l'[i].slots| ==> l'[i].slots[j].key == None)
  }

  lemma HasKept(l: seq<Array>, l': seq<Array>, t: nat, u: nat, i: nat)
    requires ListGrows(l, l', t) && u != t && i < |l'|
    ensures i < |l| ==> (Has(l'[i], u) <==> Has(l[i], u))
    ensures |l| <= i ==> !Has(l'[i], u)
  {
  }

  lemma AbsentKept(s: State, s': State, t: nat, u: nat, i: int)
    requires ListGrows(s.list, s'.list, t) && u != t
    ensures AbsentFrom(s, u, i) ==> AbsentFrom(s', u, i)
    ensures Present(s, u) ==> Present(s', u)
  {
    hide ListGrows, Has;
    forall q: nat | q < |s'.list| ensures q < |s.list| ==> (Has(s'.list[q], u) <==> Has(s.list[q], u))
      ensures |s.list| <= q ==> !Has(s'.list[q], u)
    {
      HasKept(s.list, s'.list, t, u, q);
    }
    if Present(s, u) {
      var q: nat :| q < |s.list| && Has(s.list[q], u);
      assert q < |s'.list| by { GrownSize(s.list, s'.list, t); }
      assert Has(s'.list[q], u);
    }
  }

  lemma GrownSize(l: seq<Array>, l': seq<Array>, t: nat)
    requires ListGrows(l, l', t)
    ensures |l| <= |l'|
  {
  }

  lemma PathKept(l: seq<Array>, l': seq<Array>, t: nat, i: nat, h: nat, n: nat)
    requires ListGrows(l, l', t) && i < |l| && GoodArray(l[i])
    ensures GoodArray(l'[i]) && l'[i].lg == l[i].lg && ProbeAt(l'[i], h, n) == ProbeAt(l[i], h, n)
    ensures FullPath(l[i], h, n) ==> FullPath(l'[i], h, n)
  {
    forall d: nat | d < n && Taken(l[i], h, d) ensures Taken(l'[i], h, d) {
      assert ProbeAt(l'[i], h, d) == ProbeAt(l[i], h, d);
    }
  }

  /** Nothing of thread `u` itself has changed. */
  ghost predicate SameThread(s: State, s': State, u: nat)
    requires Sizes(s) && Sizes(s') && |s.pc| == |s'.pc| && u < |s.pc|
  {
    s'.pc[u] == s.pc[u] && s'.number[u] == s.number[u] && s'.local[u] == s.local[u] && s'.created[u] == s.created[u]
      && s'.calls[u] == s.calls[u]
  }

  lemma RoomKept(s: State, s': State, t: nat, u: nat)
    requires Sizes(s) && Sizes(s') && ListOk(s) && ListOk(s') && |s.pc| == |s'.pc| && u < |s.pc| && SameThread(s, s', u)
    requires ListGrows(s.list, s'.list, t)
    ensures forall r: nat :: RoomFrom(s, u, r) ==> RoomFrom(s', u, r)
    ensures s.list != [] && RoomFrom(s, u, |s.list| - 1) ==> RoomFrom(s', u, |s'.list| - 1)
  {
    if s.list != [] && |s.list| < |s'.list| {
      Pow2Monotone(s.list[|s.list|-1].lg - 1, s'.list[|s'.list|-1].lg - 1);
    }
  }

  lemma ScanKept(l: seq<Array>, l': seq<Array>, t: nat, u: nat, i: nat, h: nat, n: nat)
    requires ListGrows(l, l', t) && i < |l| && GoodArray(l[i]) && GoodArray(l'[i]) && u != t
    requires forall d: nat :: d < n ==> l[i].slots[ProbeAt(l[i], h, d)].key != Some(u)
    ensures forall d: nat :: d < n ==> l'[i].slots[ProbeAt(l'[i], h, d)].key != Some(u)
  {
    forall d: nat | d < n ensures l'[i].slots[ProbeAt(l'[i], h, d)].key != Some(u) {
      assert ProbeAt(l'[i], h, d) == ProbeAt(l[i], h, d);
    }
  }

  lemma AtSlot(l: seq<Array>, l': seq<Array>, t: nat, i: nat, j: nat)
    requires ListGrows(l, l', t) && i < |l| && j < |l[i].slots| && l[i].slots[j].key.Some?
    ensures i < |l'| && j < |l'[i].slots| && l'[i].slots[j].key == l[i].slots[j].key && l'[i].lg == l[i].lg
  {
  }

  lemma LastAbsent(s: State, s': State, t: nat, u: nat)
    requires ListGrows(s.list, s'.list, t) && u != t && s.list != [] && AbsentFrom(s, u, |s.list| - 1)
    ensures s'.list != [] && AbsentFrom(s', u, |s'.list| - 1)
  {
    AbsentKept(s, s', t, u, |s.list| - 1);
  }

  /** The other threads are as well off as before. */
  lemma OthersKept(hash: nat -> nat, s: State, s': State, t: nat, u: nat)
    requires Sizes(s) && Sizes(s') && ListOk(s) && ListOk(s') && |s.pc| == |s'.pc| && u < |s.pc| && u != t
    requires SameThread(s, s', u) && ListGrows(s.list, s'.list, t) && ThreadOk(hash, s, u)
    ensures ThreadOk(hash, s', u)
  {
    hide ListGrows, ListOk, AbsentFrom, Present, FullPath, RoomFrom, ProbeAt;
    GrownSize(s.list, s'.list, t);
    forall i: int ensures AbsentFrom(s, u, i) ==> AbsentFrom(s', u, i) { AbsentKept(s, s', t, u, i); }
    AbsentKept(s, s', t, u, 0);
    RoomKept(s, s', t, u);
    match s.pc[u] {
      case Scan(r, n) =>
        assert GoodArray(s.list[r]) by { GoodAt(s, r); }
        PathKept(s.list, s'.list, t, r, hash(u), n);
        ScanKept(s.list, s'.list, t, u, r, hash(u), n);
      case Insert(_, _) => LastAbsent(s, s', t, u);
      case Swap(_, _, _, next) =>
        if next.Some? { GoodAt(s, next.value); PathKept(s.list, s'.list, t, next.value, 0, 0); }
      case Place(r, n, _, _) => RoomIsIn(s, u, r); GoodAt(s, r); PathKept(s.list, s'.list, t, r, hash(u), n);
      case Take(r, n, _, _) => RoomIsIn(s, u, r); GoodAt(s, r); PathKept(s.list, s'.list, t, r, hash(u), n);
      case Store(r, n, _, _) =>
        GoodAt(s, r);
        PathKept(s.list, s'.list, t, r, hash(u), n);
        AtSlot(s.list, s'.list, t, r, ProbeAt(s.list[r], hash(u), n));
      case _ =>
    }
  }

  lemma GoodAt(s: State, i: nat)
    requires ListOk(s) && i < |s.list|
    ensures GoodArray(s.list[i])
  {
  }

  lemma RoomIsIn(s: State, t: nat, r: nat)
    requires Sizes(s) && t < |s.pc| && RoomFrom(s, t, r)
    ensures r < |s.list|
  {
  }

  ghost predicate OthersSame(s: State, s': State, t: nat)
    requires Sizes(s) && Sizes(s')
  {
    |s'.pc| == |s.pc| && forall u: nat :: u < |s.pc| && u != t ==> SameThread(s, s', u)
  }

  lemma Together(hash: nat -> nat, s: State, s': State, t: nat)
    requires Inv(hash, s) && Sizes(s') && ListOk(s') && OthersSame(s, s', t) && ListGrows(s.list, s'.list, t)
    requires NumbersOk(s') && LocalsOk(s') && ClaimsOk(hash, s') && (t < |s.pc| ==> ThreadOk(hash, s', t))
    ensures Inv(hash, s')
  {
    hide ListGrows, ListOk, NumbersOk, LocalsOk, ClaimsOk, ThreadOk, SameThread;
    forall u: nat | u < |s.pc| ensures ThreadOk(hash, s', u) {
      if u != t {
        assert SameThread(s, s', u);
        assert ThreadOk(hash, s, u);
        OthersKept(hash, s, s', t, u);
      }
    }
  }

  /** A step that does not touch the list keeps the claims, if the own data it changes belong
      to no claim yet. */
  lemma ClaimsSame(hash: nat -> nat, s: State, s': State, t: nat)
    requires Inv(hash, s) && Sizes(s') && OthersSame(s, s', t) && s'.list == s.list && t < |s.pc|
    requires !s.pc[t].Store? && !s'.pc[t].Store?
    requires (s'.number[t] == s.number[t] && s'.local[t] == s.local[t]) || AbsentFrom(s, t, 0)
    ensures ListOk(s') && ClaimsOk(hash, s') && ListGrows(s.list, s'.list, t)
  {
    hide FullPath, ProbeAt, ThreadOk;
    forall i: nat, j: nat | i < |s.list| && j < |s.list[i].slots| && s.list[i].slots[j].key.Some?
      ensures ClaimOk(hash, s', i, j) {
      assert ClaimOk(hash, s, i, j);
      var k := s.list[i].slots[j].key.value;
      assert Has(s.list[i], k);
      if k != t { assert SameThread(s, s', k); }
    }
  }

  /** A step that only moves the thread. */
  lemma MoveKeeps(hash: nat -> nat, s: State, t: nat, p: Pc)
    requires Inv(hash, s) && t < |s.pc| && !s.pc[t].Store? && !p.Store? && ThreadOk(hash, Go(s, t, p), t)
    ensures Inv(hash, Go(s, t, p))
  {
    hide ListGrows, ListOk, ClaimsOk, ThreadOk, Inv;
    assert Sizes(s) by { InvParts(hash, s, t); }
    ClaimsSame(hash, s, Go(s, t, p), t);
    assert NumbersOk(s) && LocalsOk(s) by { InvParts(hash, s, t); }
    assert Numbered(Go(s, t, p)) == Numbered(s);
    Together(hash, s, Go(s, t, p), t);
  }

  lemma InvParts(hash: nat -> nat, s: State, t: nat)
    requires Inv(hash, s)
    ensures Sizes(s) && ListOk(s) && NumbersOk(s) && LocalsOk(s) && ClaimsOk(hash, s) && |s.pc| <= Pow2(WORD - 2)
    ensures t < |s.pc| ==> ThreadOk(hash, s, t)
  {
  }

  // ----- Every step keeps the invariant ----------------------------------------------

  lemma InitInv(hash: nat -> nat, s: State)
    requires Init(s)
    ensures Inv(hash, s)
  {
    assert Numbered(s) == {};
  }

  lemma CallKeeps(hash: nat -> nat, s: State, t: nat, s': State)
    requires Inv(hash, s) && CallStep(s, t, s')
    ensures Inv(hash, s')
  {
    MoveKeeps(hash, s, t, Begin) by { InvParts(hash, s, t); }
  }

  lemma BeginKeeps(hash: nat -> nat, s: State, t: nat, s': State)
    requires Inv(hash, s) && BeginStep(s, t, s')
    ensures Inv(hash, s')
  {
    InvParts(hash, s, t);
    MoveKeeps(hash, s, t, if Root(s).Some? then Scan(Root(s).value, 0) else Create);
  }

  /** An empty slot after a path of other threads' slots: the key is not in the array. */
  lemma NotHere(hash: nat -> nat, s: State, t: nat, r: nat, n: nat)
    requires Sizes(s) && ListOk(s) && ClaimsOk(hash, s)
    requires r < |s.list| && FullPath(s.list[r], hash(t), n) && !Taken(s.list[r], hash(t), n)
    requires forall d: nat :: d < n ==> s.list[r].slots[ProbeAt(s.list[r], hash(t), d)].key != Some(t)
    ensures !Has(s.list[r], t)
  {
    hide ClaimsOk, FullPath;
    forall j: nat | j < |s.list[r].slots| ensures s.list[r].slots[j].key != Some(t) {
      if s.list[r].slots[j].key == Some(t) {
        ClaimPath(hash, s, r, j, n);
      }
    }
  }

  /** A claimed slot lies on the probe path of its thread, before any empty slot of it. */
  lemma ClaimPath(hash: nat -> nat, s: State, r: nat, j: nat, n: nat)
    requires Sizes(s) && ListOk(s) && ClaimsOk(hash, s)
    requires r < |s.list| && j < |s.list[r].slots| && s.list[r].slots[j].key.Some?
    requires !Taken(s.list[r], hash(s.list[r].slots[j].key.value), n)
    ensures exists d: nat :: d < n && ProbeAt(s.list[r], hash(s.list[r].slots[j].key.value), d) == j
  {
    var a := s.list[r];
    var h := hash(a.slots[j].key.value);
    assert ClaimOk(hash, s, r, j);
    var d: nat :| FullPath(a, h, d) && ProbeAt(a, h, d) == j;
  }

  lemma AbsentBelow(s: State, t: nat, r: nat)
    requires r < |s.list| && AbsentFrom(s, t, r + 1) && !Has(s.list[r], t)
    ensures AbsentFrom(s, t, r)
  {
    hide Has;
  }

  lemma NeverPresent(s: State, t: nat)
    requires AbsentFrom(s, t, 0)
    ensures !Present(s, t)
  {
    hide Has;
  }

  /** The search of array `r` ended without the key: on to the array below, or to create. */
  lemma SearchOn(hash: nat -> nat, s: State, t: nat, r: nat)
    requires Sizes(s) && ListOk(s) && t < |s.pc| && r < |s.list| && AbsentFrom(s, t, r) && Settled(s, t)
    ensures var p := if s.list[r].next.Some? then Scan(s.list[r].next.value, 0) else Create;
      ListOk(Go(s, t, p)) && ThreadOk(hash, Go(s, t, p), t)
  {
    hide ListOk, AbsentFrom, Present;
    var p := if s.list[r].next.Some? then Scan(s.list[r].next.value, 0) else Create;
    ListSame(s, Go(s, t, p));
    AbsentSame(s, Go(s, t, p), t);
    if r == 0 { NeverPresent(s, t); }
  }

  lemma AbsentSame(s: State, s': State, t: nat)
    requires s'.list == s.list
    ensures forall i: int :: AbsentFrom(s', t, i) <==> AbsentFrom(s, t, i)
    ensures Present(s', t) <==> Present(s, t)
  {
  }

  lemma ListSame(s: State, s': State)
    requires ListOk(s) && s'.list == s.list
    ensures ListOk(s')
  {
  }

  lemma ScanFinds(hash: nat -> nat, s: State, t: nat, r: nat, n: nat)
    requires Sizes(s) && ListOk(s) && ClaimsOk(hash, s) && t < |s.pc| && s.pc[t] == Scan(r, n) && ThreadOk(hash, s, t)
    requires s.list[r].slots[ProbeAt(s.list[r], hash(t), n)].key == Some(t)
    ensures var s' := Go(s, t, Match(r, s.list[r].slots[ProbeAt(s.list[r], hash(t), n)].ptr));
      ListOk(s') && ThreadOk(hash, s', t)
  {
    hide ListOk, ClaimsOk, AbsentFrom, Present, FullPath, ProbeAt;
    GoodAt(s, r);
    var j := ProbeAt(s.list[r], hash(t), n);
    FoundClaim(hash, s, r, j);
    var s' := Go(s, t, Match(r, s.list[r].slots[j].ptr));
    ListSame(s, s');
    AbsentSame(s, s', t);
  }

  lemma ScanGoesOn(hash: nat -> nat, s: State, t: nat, r: nat, n: nat)
    requires Sizes(s) && ListOk(s) && t < |s.pc| && s.pc[t] == Scan(r, n) && ThreadOk(hash, s, t)
    requires var key := s.list[r].slots[ProbeAt(s.list[r], hash(t), n)].key; key.Some? && key != Some(t)
    ensures var s' := Go(s, t, Scan(r, n + 1)); ListOk(s') && ThreadOk(hash, s', t)
  {
    hide ListOk, AbsentFrom, Present, ProbeAt;
    var s' := Go(s, t, Scan(r, n + 1));
    ListSame(s, s');
    AbsentSame(s, s', t);
  }

  lemma ScanKeeps(hash: nat -> nat, s: State, t: nat, s': State)
    requires Inv(hash, s) && ScanStep(hash, s, t, s')
    ensures Inv(hash, s')
  {
    hide Inv, ClaimsOk, ListOk, AbsentFrom, FullPath, ProbeAt;
    InvParts(hash, s, t);
    var r, n := s.pc[t].r, s.pc[t].n;
    var slot := s.list[r].slots[ProbeAt(s.list[r], hash(t), n)];
    if slot.key == None {
      NotHere(hash, s, t, r, n);
      AbsentBelow(s, t, r);
      SearchOn(hash, s, t, r);
    } else if slot.key == Some(t) {
      ScanFinds(hash, s, t, r, n);
    } else {
      ScanGoesOn(hash, s, t, r, n);
    }
    MoveKeeps(hash, s, t, s'.pc[t]);
  }

  lemma FoundClaim(hash: nat -> nat, s: State, r: nat, j: nat)
    requires Sizes(s) && ListOk(s) && ClaimsOk(hash, s) && r < |s.list| && j < |s.list[r].slots|
      && s.list[r].slots[j].key.Some?
    ensures ClaimOk(hash, s, r, j)
  {
  }

  lemma RoomAbove(s: State, t: nat, r: nat, q: nat)
    requires Sizes(s) && ListOk(s) && t < |s.pc| && RoomFrom(s, t, r) && r <= q < |s.list|
    ensures RoomFrom(s, t, q)
  {
    if r < q { Pow2Monotone(s.list[r].lg - 1, s.list[q].lg - 1); }
  }

  lemma MatchKeeps(hash: nat -> nat, s: State, t: nat, s': State)
    requires Inv(hash, s) && MatchStep(s, t, s')
    ensures Inv(hash, s')
  {
    hide Inv, ClaimsOk, ListOk;
    InvParts(hash, s, t);
    RoomAbove(s, t, s.pc[t].r, |s.list| - 1);
    MoveKeeps(hash, s, t, s'.pc[t]);
  }

  lemma CreateKeeps(hash: nat -> nat, s: State, t: nat, s': State)
    requires Inv(hash, s) && CreateStep(s, t, s')
    ensures Inv(hash, s')
  {
    hide Inv, ListGrows, ListOk, ClaimsOk;
    InvParts(hash, s, t);
    ClaimsSame(hash, s, s', t);
    assert Numbered(s') == Numbered(s);
    Together(hash, s, s', t);
  }

  lemma CountNumbers(s: State, t: nat, s': State)
    requires Sizes(s) && NumbersOk(s) && CountStep(s, t, s') && s.number[t] == 0
    ensures NumbersOk(s')
  {
    hide Numbered;
    OneMoreNumbered(s, t, s');
  }

  lemma OneMoreNumbered(s: State, t: nat, s': State)
    requires Sizes(s) && CountStep(s, t, s') && s.number[t] == 0
    ensures |Numbered(s')| == |Numbered(s)| + 1
  {
    assert t !in Numbered(s) && Numbered(s') == Numbered(s) + {t};
  }

  lemma CountKeeps(hash: nat -> nat, s: State, t: nat, s': State)
    requires Inv(hash, s) && CountStep(s, t, s')
    ensures Inv(hash, s')
  {
    hide Inv, ListGrows, ListOk, ClaimsOk, NumbersOk;
    InvParts(hash, s, t);
    ClaimsSame(hash, s, s', t);
    CountNumbers(s, t, s');
    Together(hash, s, s', t);
  }

  lemma HalfSize(lg: nat)
    requires 1 <= lg
    ensures Pow2(lg) / 2 == Pow2(lg - 1)
  {
  }

  lemma CountBound(s: State)
    requires Sizes(s) && NumbersOk(s)
    ensures s.count <= |s.pc|
  {
    BelowSize(|s.pc|);
    SubsetSize(Numbered(s), Below(|s.pc|));
  }

  ghost function Below(n: nat): (r: set<nat>)
    ensures forall i: nat :: i in r <==> i < n
  {
    if n == 0 then {} else Below(n - 1) + {n - 1}
  }

  lemma {:induction false} BelowSize(n: nat)
    ensures |Below(n)| == n
  {
    if n > 0 { BelowSize(n - 1); }
  }

  lemma {:induction false} SubsetSize<T>(a: set<T>, b: set<T>)
    requires a <= b
    ensures |a| <= |b|
  {
    if a != {} {
      var x :| x in a;
      SubsetSize(a - {x}, b - {x});
    }
  }

  lemma EnoughFits(c: nat, lg: nat)
    requires 2 <= lg <= WORD && c <= Pow2(WORD - 2)
    ensures 2 <= Enough(c, lg) <= WORD && c <= Pow2(Enough(c, lg) - 1)
    ensures c > Pow2(lg - 1) ==> lg < Enough(c, lg)
    ensures Enough(c, lg) == lg || Pow2(Enough(c, lg) - 2) < c
  {
    var r := Enough(c, lg);
    if WORD < r { Pow2Monotone(WORD - 2, r - 2); }
  }

  lemma CompareKeeps(hash: nat -> nat, s: State, t: nat, s': State)
    requires Inv(hash, s) && CompareStep(s, t, s')
    ensures Inv(hash, s')
  {
    hide Inv, ClaimsOk, Enough, Pow2, ListOk, GoodArray;
    InvParts(hash, s, t);
    ListSame(s, s');
    CountBound(s);
    var c := s.pc[t].c;
    if s.list == [] {
      EnoughFits(c, 2);
    } else {
      RootFits(s);
      EnoughFits(c, s.list[|s.list|-1].lg);
      HalfSize(s.list[|s.list|-1].lg);
    }
    MoveKeeps(hash, s, t, s'.pc[t]);
  }

  lemma RootFits(s: State)
    requires ListOk(s) && s.list != []
    ensures 2 <= s.list[|s.list|-1].lg <= WORD
  {
    GoodAt(s, |s.list| - 1);
  }

  lemma GrownListOk(s: State, lg: nat)
    requires ListOk(s) && 2 <= lg <= WORD && (s.list != [] ==> s.list[|s.list|-1].lg < lg)
    ensures ListOk(s.(list := s.list + [NewArray(lg, Root(s))]))
    ensures ListGrows(s.list, s.list + [NewArray(lg, Root(s))], 0)
      && forall t: nat :: ListGrows(s.list, s.list + [NewArray(lg, Root(s))], t)
  {
  }

  lemma GrownClaimsOk(hash: nat -> nat, s: State, t: nat, p: Pc, lg: nat)
    requires Sizes(s) && ListOk(s) && ClaimsOk(hash, s) && t < |s.pc| && !s.pc[t].Store? && !p.Store?
    requires ListOk(s.(list := s.list + [NewArray(lg, Root(s))]))
    ensures var s' := Go(s, t, p).(list := s.list + [NewArray(lg, Root(s))]); ListOk(s') && ClaimsOk(hash, s')
  {
    hide FullPath, ProbeAt;
    var s' := Go(s, t, p).(list := s.list + [NewArray(lg, Root(s))]);
    forall i: nat, j: nat | i < |s'.list| && j < |s'.list[i].slots| && s'.list[i].slots[j].key.Some?
      ensures ClaimOk(hash, s', i, j) {
      if i < |s.list| {
        assert s'.list[i] == s.list[i];
        assert ClaimOk(hash, s, i, j);
      }
    }
  }

  lemma NewIsEmpty(s: State, lg: nat, t: nat)
    ensures var l := s.list + [NewArray(lg, Root(s))]; AbsentFrom(s.(list := l), t, |l| - 1)
  {
  }

  lemma InstallKeeps(hash: nat -> nat, s: State, t: nat, s': State)
    requires Inv(hash, s) && SwapStep(s, t, s') && Root(s) == s.pc[t].next
    ensures Inv(hash, s')
  {
    hide Inv, ClaimsOk, ListOk, ListGrows, AbsentFrom, FullPath, ProbeAt, Present, Pow2;
    InvParts(hash, s, t);
    var lg := s.pc[t].lg;
    GrownListOk(s, lg);
    GrownClaimsOk(hash, s, t, s'.pc[t], lg);
    NewIsEmpty(s, lg, t);
    AbsentSame(s', s.(list := s'.list), t);
    assert Numbered(s') == Numbered(s);
    Together(hash, s, s', t);
  }

  lemma AbsentMore(s: State, t: nat, i: int, j: int)
    requires AbsentFrom(s, t, i) && i <= j
    ensures AbsentFrom(s, t, j)
  {
    hide Has;
  }

  lemma SwapKeeps(hash: nat -> nat, s: State, t: nat, s': State)
    requires Inv(hash, s) && SwapStep(s, t, s')
    ensures Inv(hash, s')
  {
    if Root(s) == s.pc[t].next {
      InstallKeeps(hash, s, t, s');
    } else {
      RetryKeeps(hash, s, t, s');
    }
  }

  /** Another root was installed first: use it if it is large enough, or try again. */
  lemma RetryKeeps(hash: nat -> nat, s: State, t: nat, s': State)
    requires Inv(hash, s) && SwapStep(s, t, s') && Root(s) != s.pc[t].next
    ensures Inv(hash, s')
  {
    hide Inv, ClaimsOk, ListOk, AbsentFrom, Pow2, GoodArray;
    InvParts(hash, s, t);
    ListSame(s, s');
    AbsentSame(s, s', t);
    AbsentMore(s, t, 0, |s.list| - 1);
    if s.list[|s.list|-1].lg >= s.pc[t].lg { Pow2Monotone(s.pc[t].lg - 1, s.list[|s.list|-1].lg - 1); }
    MoveKeeps(hash, s, t, s'.pc[t]);
  }

  lemma InsertKeeps(hash: nat -> nat, s: State, t: nat, s': State)
    requires Inv(hash, s) && InsertStep(s, t, s')
    ensures Inv(hash, s')
  {
    hide Inv, ClaimsOk, ListOk, AbsentFrom;
    InvParts(hash, s, t);
    ListSame(s, s');
    AbsentSame(s, s', t);
    MoveKeeps(hash, s, t, s'.pc[t]);
  }

  lemma PlaceKeeps(hash: nat -> nat, s: State, t: nat, s': State)
    requires Inv(hash, s) && PlaceStep(hash, s, t, s')
    ensures Inv(hash, s')
  {
    hide Inv, ClaimsOk, ListOk, AbsentFrom, ProbeAt;
    InvParts(hash, s, t);
    ListSame(s, s');
    AbsentSame(s, s', t);
    MoveKeeps(hash, s, t, s'.pc[t]);
  }

  ghost function WithKey(a: Array, i: nat, t: nat): Array
    requires i < |a.slots|
  {
    a.(slots := a.slots[i := a.slots[i].(key := Some(t))])
  }

  ghost function WithPtr(a: Array, i: nat, p: nat): Array
    requires i < |a.slots|
  {
    a.(slots := a.slots[i := a.slots[i].(ptr := p)])
  }

  lemma ReplacedListOk(s: State, r: nat, a: Array, t: nat, i: nat)
    requires ListOk(s) && r < |s.list| && i < |s.list[r].slots| && s.list[r].slots[i].key == None
    requires a == WithKey(s.list[r], i, t)
    ensures ListOk(s.(list := s.list[r := a])) && ListGrows(s.list, s.list[r := a], t)
  {
  }

  /** A claim on a slot that does not change stays good. */
  lemma ClaimStays(hash: nat -> nat, s: State, t: nat, s': State, i: nat, j: nat)
    requires Sizes(s) && ListOk(s) && ClaimsOk(hash, s) && t < |s.pc| && Sizes(s') && OthersSame(s, s', t) && ListOk(s')
    requires ListGrows(s.list, s'.list, t) && s'.number[t] == s.number[t] && s'.local[t] == s.local[t]
    requires i < |s.list| && j < |s.list[i].slots| && s.list[i].slots[j].key.Some? && i < |s'.list|
      && j < |s'.list[i].slots|
    requires s'.list[i].slots[j] == s.list[i].slots[j]
    requires s.list[i].slots[j].key == Some(t) ==> s.local[t] == Some(s.list[i].slots[j].ptr)
    ensures ClaimOk(hash, s', i, j)
  {
    hide ListGrows, ListOk, FullPath, ProbeAt, ClaimsOk;
    FoundClaim(hash, s, i, j);
    GoodAt(s, i);
    GoodAt(s', i);
    var k := s.list[i].slots[j].key.value;
    if k != t { assert SameThread(s, s', k); }
    var d: nat :| FullPath(s.list[i], hash(k), d) && ProbeAt(s.list[i], hash(k), d) == j;
    PathKept(s.list, s'.list, t, i, hash(k), d);
    if k != t && s.pc[k].Store? { PathKept(s.list, s'.list, t, i, hash(k), s.pc[k].n); }
  }

  ghost function AfterTake(hash: nat -> nat, s: State, t: nat, r: nat, n: nat, p: Pc): State
    requires t < |s.pc| && r < |s.list| && GoodArray(s.list[r])
  {
    Go(s, t, p).(list := s.list[r := WithKey(s.list[r], ProbeAt(s.list[r], hash(t), n), t)])
  }

  lemma TakenClaims(hash: nat -> nat, s: State, t: nat, r: nat, n: nat, p: Pc)
    requires Sizes(s) && ListOk(s) && ClaimsOk(hash, s) && t < |s.pc| && !s.pc[t].Store? && RoomFrom(s, t, r)
    requires r < |s.list| && FullPath(s.list[r], hash(t), n) && !Taken(s.list[r], hash(t), n) && !Has(s.list[r], t)
    requires p.Store? && p.r == r && p.n == n
    ensures var s' := AfterTake(hash, s, t, r, n, p); ListOk(s') && ClaimsOk(hash, s') && ListGrows(s.list, s'.list, t)
  {
    hide ListGrows, ListOk, FullPath, RoomFrom, ProbeAt, ClaimOk;
    GoodAt(s, r);
    var e := ProbeAt(s.list[r], hash(t), n);
    var s' := AfterTake(hash, s, t, r, n, p);
    ReplacedListOk(s, r, WithKey(s.list[r], e, t), t, e);
    ListSame(s.(list := s'.list), s');
    forall i: nat, j: nat | i < |s'.list| && j < |s'.list[i].slots| && s'.list[i].slots[j].key.Some?
      ensures ClaimOk(hash, s', i, j) {
      if i == r && j == e {
        NewClaim(hash, s, t, r, n, p);
      } else {
        assert s'.list[i].slots[j] == s.list[i].slots[j];
        LocalOfClaim(hash, s, t, i, j);
        ClaimStays(hash, s, t, s', i, j);
      }
    }
  }

  lemma LocalOfClaim(hash: nat -> nat, s: State, t: nat, i: nat, j: nat)
    requires Sizes(s) && ListOk(s) && ClaimsOk(hash, s) && t < |s.pc| && i < |s.list| && j < |s.list[i].slots|
    requires s.list[i].slots[j].key.Some?
    requires s.pc[t].Store? ==> s.pc[t].r != i || !GoodArray(s.list[i]) || ProbeAt(s.list[i], hash(t), s.pc[t].n) != j
    ensures s.list[i].slots[j].key == Some(t) ==> s.local[t] == Some(s.list[i].slots[j].ptr)
  {
    hide ListOk, FullPath;
    GoodAt(s, i);
    FoundClaim(hash, s, i, j);
  }

  lemma NewClaim(hash: nat -> nat, s: State, t: nat, r: nat, n: nat, p: Pc)
    requires Sizes(s) && ListOk(s) && t < |s.pc| && RoomFrom(s, t, r)
    requires r < |s.list| && FullPath(s.list[r], hash(t), n) && !Taken(s.list[r], hash(t), n)
    requires p.Store? && p.r == r && p.n == n
    requires var s' := AfterTake(hash, s, t, r, n, p); ListOk(s') && ListGrows(s.list, s'.list, t)
    ensures var s' := AfterTake(hash, s, t, r, n, p); ClaimOk(hash, s', r, ProbeAt(s.list[r], hash(t), n))
  {
    hide ListGrows, ListOk, FullPath, ProbeAt;
    GoodAt(s, r);
    GoodAt(AfterTake(hash, s, t, r, n, p), r);
    PathKept(s.list, AfterTake(hash, s, t, r, n, p).list, t, r, hash(t), n);
  }

  lemma TakeKeeps(hash: nat -> nat, s: State, t: nat, s': State)
    requires Inv(hash, s) && TakeStep(hash, s, t, s')
    ensures Inv(hash, s')
  {
    hide Inv, ClaimsOk, ListOk, ListGrows, ProbeAt, Has;
    InvParts(hash, s, t);
    var r, n, found, e := s.pc[t].r, s.pc[t].n, s.pc[t].found, s.pc[t].exists';
    if Taken(s.list[r], hash(t), n) {
      ListSame(s, s');
      AbsentSame(s, s', t);
      MoveKeeps(hash, s, t, s'.pc[t]);
    } else {
      TakenClaims(hash, s, t, r, n, Store(r, n, found, e));
      assert s' == AfterTake(hash, s, t, r, n, Store(r, n, found, e));
      assert Numbered(s') == Numbered(s);
      PathKept(s.list, s'.list, t, r, hash(t), n);
      Together(hash, s, s', t);
    }
  }

  ghost function AfterStore(hash: nat -> nat, s: State, t: nat, r: nat, n: nat, p: Pc, found: nat): State
    requires t < |s.pc| && r < |s.list| && GoodArray(s.list[r])
  {
    Go(s, t, p).(list := s.list[r := WithPtr(s.list[r], ProbeAt(s.list[r], hash(t), n), found)])
  }

  lemma StoredListOk(s: State, r: nat, a: Array, t: nat, i: nat, found: nat)
    requires ListOk(s) && r < |s.list| && i < |s.list[r].slots| && a == WithPtr(s.list[r], i, found)
    ensures ListOk(s.(list := s.list[r := a])) && ListGrows(s.list, s.list[r := a], t)
    ensures forall j: nat :: j < |a.slots| ==> a.slots[j].key == s.list[r].slots[j].key
  {
  }

  lemma StoredClaims(hash: nat -> nat, s: State, t: nat, r: nat, n: nat, p: Pc, found: nat)
    requires Sizes(s) && ListOk(s) && ClaimsOk(hash, s) && t < |s.pc| && s.pc[t].Store? && s.pc[t].r == r
      && s.pc[t].n == n
    requires r < |s.list| && s.list[r].slots[ProbeAt(s.list[r], hash(t), n)].key == Some(t) && s.local[t] == Some(found)
      && !p.Store?
    ensures var s' := AfterStore(hash, s, t, r, n, p, found);
      ListOk(s') && ClaimsOk(hash, s') && ListGrows(s.list, s'.list, t)
  {
    hide ListGrows, ListOk, FullPath, ProbeAt, ClaimOk;
    GoodAt(s, r);
    var e := ProbeAt(s.list[r], hash(t), n);
    var s' := AfterStore(hash, s, t, r, n, p, found);
    StoredListOk(s, r, WithPtr(s.list[r], e, found), t, e, found);
    ListSame(s.(list := s'.list), s');
    forall i: nat, j: nat | i < |s'.list| && j < |s'.list[i].slots| && s'.list[i].slots[j].key.Some?
      ensures ClaimOk(hash, s', i, j) {
      if i == r && j == e {
        StoredClaim(hash, s, t, r, n, p, found);
      } else {
        assert s'.list[i].slots[j] == s.list[i].slots[j];
        LocalOfClaim(hash, s, t, i, j);
        ClaimStays(hash, s, t, s', i, j);
      }
    }
  }

  lemma StoredClaim(hash: nat -> nat, s: State, t: nat, r: nat, n: nat, p: Pc, found: nat)
    requires Sizes(s) && ListOk(s) && ClaimsOk(hash, s) && t < |s.pc|
    requires r < |s.list| && s.list[r].slots[ProbeAt(s.list[r], hash(t), n)].key == Some(t) && s.local[t] == Some(found)
    requires var s' := AfterStore(hash, s, t, r, n, p, found); ListOk(s') && ListGrows(s.list, s'.list, t)
    ensures var s' := AfterStore(hash, s, t, r, n, p, found); ClaimOk(hash, s', r, ProbeAt(s.list[r], hash(t), n))
  {
    hide ListGrows, ListOk, FullPath, ProbeAt, ClaimsOk;
    GoodAt(s, r);
    var j := ProbeAt(s.list[r], hash(t), n);
    var s' := AfterStore(hash, s, t, r, n, p, found);
    GoodAt(s', r);
    FoundClaim(hash, s, r, j);
    var d: nat :| FullPath(s.list[r], hash(t), d) && ProbeAt(s.list[r], hash(t), d) == j;
    PathKept(s.list, s'.list, t, r, hash(t), d);
  }

  lemma PresentAt(s: State, t: nat, r: nat, j: nat)
    requires r < |s.list| && j < |s.list[r].slots| && s.list[r].slots[j].key == Some(t)
    ensures Present(s, t)
  {
  }

  lemma StoreKeeps(hash: nat -> nat, s: State, t: nat, s': State)
    requires Inv(hash, s) && StoreStep(hash, s, t, s')
    ensures Inv(hash, s')
  {
    hide Inv, ClaimsOk, ListOk, ListGrows, ProbeAt, Has, Present;
    InvParts(hash, s, t);
    var r, n, found, e := s.pc[t].r, s.pc[t].n, s.pc[t].found, s.pc[t].exists';
    StoredClaims(hash, s, t, r, n, Return(found, e), found);
    assert s' == AfterStore(hash, s, t, r, n, Return(found, e), found);
    assert Numbered(s') == Numbered(s);
    PresentAt(s', t, r, ProbeAt(s.list[r], hash(t), n));
    Together(hash, s, s', t);
  }

  lemma ReturnKeeps(hash: nat -> nat, s: State, t: nat, s': State)
    requires Inv(hash, s) && ReturnStep(s, t, s')
    ensures Inv(hash, s')
  {
    hide Inv, ClaimsOk, ListOk, ListGrows, Present;
    InvParts(hash, s, t);
    ClaimsSame(hash, s, s', t);
    AbsentSame(s, s', t);
    assert Numbered(s') == Numbered(s);
    Together(hash, s, s', t);
  }

  lemma NextKeeps(hash: nat -> nat, s: State, t: nat, s': State)
    requires Inv(hash, s) && Next(hash, s, t, s')
    ensures Inv(hash, s')
  {
    hide Inv, CallStep, BeginStep, ScanStep, MatchStep, CreateStep, CountStep, CompareStep, SwapStep, InsertStep,
      PlaceStep, TakeStep,
      StoreStep, ReturnStep;
    if CallStep(s, t, s') { CallKeeps(hash, s, t, s'); }
    else if BeginStep(s, t, s') { BeginKeeps(hash, s, t, s'); }
    else if ScanStep(hash, s, t, s') { ScanKeeps(hash, s, t, s'); }
    else if MatchStep(s, t, s') { MatchKeeps(hash, s, t, s'); }
    else if CreateStep(s, t, s') { CreateKeeps(hash, s, t, s'); }
    else if CountStep(s, t, s') { CountKeeps(hash, s, t, s'); }
    else if CompareStep(s, t, s') { CompareKeeps(hash, s, t, s'); }
    else if SwapStep(s, t, s') { SwapKeeps(hash, s, t, s'); }
    else if InsertStep(s, t, s') { InsertKeeps(hash, s, t, s'); }
    else if PlaceStep(hash, s, t, s') { PlaceKeeps(hash, s, t, s'); }
    else if TakeStep(hash, s, t, s') { TakeKeeps(hash, s, t, s'); }
    else if StoreStep(hash, s, t, s') { StoreKeeps(hash, s, t, s'); }
    else { ReturnKeeps(hash, s, t, s'); }
  }

  // ----- Whole runs ------------------------------------------------------------------

  ghost predicate StepBetween(hash: nat -> nat, s: State, s': State) {
    exists t: nat :: Next(hash, s, t, s')
  }

  /** Any interleaving of any number of threads. */
  ghost predicate Run(hash: nat -> nat, run: seq<State>) {
    && run != [] && Init(run[0])
    && forall i: nat :: i + 1 < |run| ==> StepBetween(hash, run[i], run[i + 1])
  }

  lemma {:induction false} RunInv(hash: nat -> nat, run: seq<State>, i: nat)
    requires Run(hash, run) && i < |run|
    ensures Inv(hash, run[i])
  {
    hide Init, Inv, Next;
    if i == 0 {
      InitInv(hash, run[0]);
    } else {
      RunInv(hash, run, i - 1);
      assert StepBetween(hash, run[i - 1], run[i - 1 + 1]);
      var t: nat :| Next(hash, run[i - 1], t, run[i]);
      NextKeeps(hash, run[i - 1], t, run[i]);
    }
  }

  // ----- At most half full -----------------------------------------------------------

  ghost function Claimed(a: Array): set<nat> {
    set j: nat | j < |a.slots| && a.slots[j].key.Some?
  }

  /** The numbers of the threads that claimed the slots `js`. */
  ghost function NumbersAt(s: State, a: Array, js: set<nat>): set<nat>
    requires forall j :: j in js ==> j < |a.slots| && a.slots[j].key.Some? && a.slots[j].key.value < |s.number|
  {
    set j | j in js :: s.number[a.slots[j].key.value]
  }

  /** Different slots, different threads, different numbers. */
  lemma {:induction false} AsManyNumbers(s: State, a: Array, js: set<nat>)
    requires forall j :: j in js ==> j < |a.slots| && a.slots[j].key.Some? && a.slots[j].key.value < |s.number|
    requires forall i, j :: i in js && j in js && i != j ==>
      s.number[a.slots[i].key.value] != s.number[a.slots[j].key.value]
    ensures |NumbersAt(s, a, js)| == |js|
  {
    if js != {} {
      var j :| j in js;
      AsManyNumbers(s, a, js - {j});
      assert NumbersAt(s, a, js) == NumbersAt(s, a, js - {j}) + {s.number[a.slots[j].key.value]};
    } else {
      assert NumbersAt(s, a, js) == {};
    }
  }

  /** No array ever has more than half of its slots claimed. */
  lemma HalfFull(hash: nat -> nat, s: State, r: nat)
    requires Inv(hash, s) && r < |s.list|
    ensures |Claimed(s.list[r])| <= Pow2(s.list[r].lg) / 2 < |s.list[r].slots|
  {
    hide Inv, ListOk, NumbersOk, LocalsOk, ClaimsOk, Claimed, NumbersAt, Pow2;
    InvParts(hash, s, 0);
    GoodAt(s, r);
    var a := s.list[r];
    HalfSize(a.lg);
    NumbersInHalf(hash, s, r);
    DifferentNumbers(hash, s, r);
    AsManyNumbers(s, a, Claimed(a));
    WithinSize(NumbersAt(s, a, Claimed(a)), Pow2(a.lg - 1));
  }

  lemma WithinSize(a: set<nat>, n: nat)
    requires a <= Below(n + 1) - {0}
    ensures |a| <= n
  {
    BelowSize(n + 1);
    SubsetSize(a, Below(n + 1) - {0});
  }

  lemma NumbersInHalf(hash: nat -> nat, s: State, r: nat)
    requires Sizes(s) && ListOk(s) && ClaimsOk(hash, s) && r < |s.list|
    ensures 1 <= s.list[r].lg
    ensures forall j :: j in Claimed(s.list[r]) ==>
      j < |s.list[r].slots| && s.list[r].slots[j].key.Some? && s.list[r].slots[j].key.value < |s.number|
    ensures NumbersAt(s, s.list[r], Claimed(s.list[r])) <= Below(Pow2(s.list[r].lg - 1) + 1) - {0}
  {
    hide FullPath, ProbeAt, Pow2;
    GoodAt(s, r);
    var a := s.list[r];
    forall j | j in Claimed(a)
      ensures a.slots[j].key.value < |s.number| && 0 < s.number[a.slots[j].key.value] <= Pow2(a.lg - 1) {
      assert ClaimOk(hash, s, r, j);
    }
  }

  lemma DifferentNumbers(hash: nat -> nat, s: State, r: nat)
    requires Sizes(s) && ListOk(s) && NumbersOk(s) && ClaimsOk(hash, s) && r < |s.list|
    ensures forall i, j :: i in Claimed(s.list[r]) && j in Claimed(s.list[r]) && i != j ==>
      && s.list[r].slots[i].key.value < |s.number| && s.list[r].slots[j].key.value < |s.number|
      && s.number[s.list[r].slots[i].key.value] != s.number[s.list[r].slots[j].key.value]
  {
    hide FullPath, ProbeAt, Numbered;
    var a := s.list[r];
    forall i, j | i in Claimed(a) && j in Claimed(a) && i != j
      ensures a.slots[i].key.value < |s.number| && a.slots[j].key.value < |s.number|
      ensures s.number[a.slots[i].key.value] != s.number[a.slots[j].key.value]
    {
      assert ClaimOk(hash, s, r, i) && ClaimOk(hash, s, r, j);
      assert OneSlotEach(a);
      var k, l := a.slots[i].key.value, a.slots[j].key.value;
      assert k != l by { if i < j { assert a.slots[i].key != a.slots[j].key; }
        else { assert a.slots[j].key != a.slots[i].key; } }
    }
  }

  // ----- Every search ends -----------------------------------------------------------

  /** The first `n` probes look at different slots. */
  lemma ProbesDiffer(x: nat, size: nat, c: nat, d: nat)
    requires 0 < size && c < d < size
    ensures (x + c) % size != (x + d) % size
  {
    var q := (x + c) / size;
    assert x + c == size * q + (x + c) % size;
    if (x + c) % size + (d - c) < size {
      ModIs(x + d, size, q, (x + c) % size + (d - c));
    } else {
      assert size * (q + 1) == size * q + size;
      ModIs(x + d, size, q + 1, (x + c) % size + (d - c) - size);
    }
  }

  ghost function Probed(a: Array, h: nat, n: nat): set<nat>
    requires GoodArray(a)
  {
    set d: nat | d in Below(n) :: ProbeAt(a, h, d)
  }

  lemma ProbedAgain(a: Array, h: nat, n: nat)
    requires GoodArray(a) && n < |a.slots|
    ensures ProbeAt(a, h, n) !in Probed(a, h, n) && Probed(a, h, n + 1) == Probed(a, h, n) + {ProbeAt(a, h, n)}
  {
    forall d: nat | d < n ensures ProbeAt(a, h, d) != ProbeAt(a, h, n) {
      ProbesDiffer(Start(h, a.lg), |a.slots|, d, n);
    }
    assert Below(n + 1) == Below(n) + {n};
  }

  lemma {:induction false} ProbedSize(a: Array, h: nat, n: nat)
    requires GoodArray(a) && n <= |a.slots|
    ensures |Probed(a, h, n)| == n
  {
    hide ProbeAt, GoodArray;
    if n > 0 {
      ProbedSize(a, h, n - 1);
      ProbedAgain(a, h, n - 1);
    } else {
      assert Probed(a, h, 0) == {};
    }
  }

  /** A path of claimed slots is never longer than half the array. */
  lemma PathIsShort(hash: nat -> nat, s: State, r: nat, h: nat, n: nat)
    requires Inv(hash, s) && r < |s.list| && FullPath(s.list[r], h, n)
    ensures n <= Pow2(s.list[r].lg) / 2
  {
    hide Inv, ProbeAt;
    HalfFull(hash, s, r);
    InvParts(hash, s, 0);
    GoodAt(s, r);
    var a := s.list[r];
    var m := if n <= |a.slots| then n else |a.slots|;
    ProbedSize(a, h, m);
    forall i | i in Probed(a, h, m) ensures i in Claimed(a) {
      var d: nat :| d in Below(m) && ProbeAt(a, h, d) == i;
      assert Taken(a, h, d);
    }
    SubsetSize(Probed(a, h, m), Claimed(a));
  }

  /** In every reachable state each probe sequence meets an empty slot within half the size,
      and no search has gone further than that. */
  lemma SearchesEnd(hash: nat -> nat, run: seq<State>, i: nat, r: nat, h: nat)
    requires Run(hash, run) && i < |run| && r < |run[i].list|
    ensures GoodArray(run[i].list[r])
    ensures exists d: nat :: d <= Pow2(run[i].list[r].lg) / 2 && !Taken(run[i].list[r], h, d)
    ensures forall t: nat :: t < |run[i].pc| ==>
      match run[i].pc[t]
      case Scan(q, n) => q == r ==> n <= Pow2(run[i].list[r].lg) / 2
      case Place(q, n, _, _) => q == r ==> n <= Pow2(run[i].list[r].lg) / 2
      case Take(q, n, _, _) => q == r ==> n <= Pow2(run[i].list[r].lg) / 2
      case _ => true
  {
    hide Inv, Run, ProbeAt, Next;
    RunInv(hash, run, i);
    var s := run[i];
    InvParts(hash, s, 0);
    GoodAt(s, r);
    var half := Pow2(s.list[r].lg) / 2;
    if forall d: nat :: d <= half ==> Taken(s.list[r], h, d) {
      PathIsShort(hash, s, r, h, half + 1);
    }
    forall t: nat | t < |s.pc|
      ensures s.pc[t].Scan? && s.pc[t].r == r ==> s.pc[t].n <= half
      ensures s.pc[t].Place? && s.pc[t].r == r ==> s.pc[t].n <= half
      ensures s.pc[t].Take? && s.pc[t].r == r ==> s.pc[t].n <= half
    {
      InvParts(hash, s, t);
      if s.pc[t].Scan? || s.pc[t].Place? || s.pc[t].Take? {
        if s.pc[t].r == r { PathIsShort(hash, s, r, hash(t), s.pc[t].n); }
      }
    }
  }

  // ----- Stable locals ---------------------------------------------------------------

  lemma LocalStays(hash: nat -> nat, s: State, t: nat, s': State, u: nat)
    requires Inv(hash, s) && Next(hash, s, t, s') && u < |s.pc| && s.local[u].Some?
    ensures |s'.pc| == |s.pc| == |s'.local| && s'.local[u] == s.local[u]
  {
    hide ClaimsOk, ListOk, ProbeAt, Taken, AbsentFrom, Present;
    InvParts(hash, s, t);
  }

  lemma {:induction false} LocalStaysLong(hash: nat -> nat, run: seq<State>, i: nat, j: nat, u: nat)
    requires Run(hash, run) && i <= j < |run| && u < |run[i].local| && run[i].local[u].Some?
    ensures u < |run[j].local| && run[j].local[u] == run[i].local[u]
    decreases j
  {
    hide Init, Inv, Next;
    if i < j {
      LocalStaysLong(hash, run, i, j - 1, u);
      RunInv(hash, run, j - 1);
      InvParts(hash, run[j - 1], u);
      assert StepBetween(hash, run[j - 1], run[j - 1 + 1]);
      var t: nat :| Next(hash, run[j - 1], t, run[j]);
      LocalStays(hash, run[j - 1], t, run[j], u);
    }
  }

  /** create_local runs once for each thread that has returned, the first call and no other
      says that the object is new, and no two threads share an object. */
  lemma CreatedOnce(hash: nat -> nat, run: seq<State>, i: nat, t: nat, u: nat)
    requires Run(hash, run) && i < |run| && t < |run[i].pc| && u < |run[i].pc|
    ensures Sizes(run[i]) && run[i].created[t] <= 1
    ensures run[i].pc[t].Return? ==> run[i].created[t] == 1 && (run[i].pc[t].exists' <==> 0 < run[i].calls[t])
    ensures run[i].pc[t].Return? && run[i].pc[u].Return? && t != u ==> run[i].pc[t].found != run[i].pc[u].found
  {
    hide ClaimsOk, NumbersOk, AbsentFrom, Present, RoomFrom;
    RunInv(hash, run, i);
    InvParts(hash, run[i], t);
    InvParts(hash, run[i], u);
  }

  /** Every call of a thread returns the same object, however many larger arrays were
      installed in between. */
  lemma SameObject(hash: nat -> nat, run: seq<State>, i: nat, j: nat, t: nat)
    requires Run(hash, run) && i <= j < |run| && t < |run[i].pc| && t < |run[j].pc|
    requires run[i].pc[t].Return? && run[j].pc[t].Return?
    ensures run[i].pc[t].found == run[j].pc[t].found
  {
    hide Init, Inv, Next, ListOk, Present;
    RunInv(hash, run, i);
    RunInv(hash, run, j);
    InvParts(hash, run[i], t);
    InvParts(hash, run[j], t);
    LocalStaysLong(hash, run, i, j, t);
  }

  /** Along the list the sizes strictly decrease. */
  lemma SizesDecrease(hash: nat -> nat, run: seq<State>, i: nat, r: nat)
    requires Run(hash, run) && i < |run| && r < |run[i].list| && run[i].list[r].next.Some?
    ensures var n := run[i].list[r].next.value;
      n < |run[i].list| && 2 * Pow2(run[i].list[n].lg) <= Pow2(run[i].list[r].lg)
  {
    hide Inv, Run, ClaimsOk, NumbersOk, LocalsOk;
    RunInv(hash, run, i);
    InvParts(hash, run[i], 0);
    Pow2Grows(run[i].list[r - 1].lg, run[i].list[r].lg);
  }
}
