/** concurrent_hash_map.h under concurrency. */
module HashSteps {
  // Any number of threads run find, insert, erase and exclude.  Every atomic access to shared
  // memory is a step of its own: reading the mask, probing a bucket's marker, try_acquire,
  // the second look at the marker, the blocking acquire, an upgrade, the two reads of
  // check_mask_race, counting, linking, unlinking, the CAS that claims a segment and the
  // publication of the larger mask.  The nodes of one rehash_bucket are moved in one step,
  // since the child and the parent are then both locked for writing.

  import opened HashIndex
  import opened HashPlacement
  import opened Options

  datatype Op<K, V> = Find(key: K) | Insert(key: K, value: V) | Erase(key: K) | Exclude(node: Node<K, V>)

  ghost function KeyOf<K, V>(op: Op<K, V>): K {
    if op.Exclude? then op.node.key else op.key
  }

  ghost predicate IsTarget<K, V>(op: Op<K, V>, n: Node<K, V>) {
    if op.Exclude? then n == op.node else n.key == op.key
  }

  datatype Result<K, V> = Found(n: Node<K, V>) | Inserted(n: Node<K, V>) | Erased(n: Node<K, V>) | Missing

  /** Where a thread is.  `Race` and `RaceChild` are the two reads of check_mask_race; with
      `again` the search is repeated after it. */
  datatype Pc =
    | Probe | TryLock | Recheck | Block | Held | ReWait
    | Race(again: bool) | RaceChild(again: bool, jNow: nat)
    | Count | Link(sz: int) | Grow | Unlink | Shrink | Leaving(grow: bool) | Enable | Return

  /** A running call.  `j` is the number of bits of the mask it read; `stack` holds the buckets
      whose rehash_bucket is in progress, outermost first; `cur` is the bucket it is about to
      acquire or holds, for writing if `w`. */
  datatype Thread<K, V> =
    | Resting
    | Running(pc: Pc, op: Op<K, V>, j: nat, stack: seq<nat>, cur: nat, w: bool,
              node: Option<Node<K, V>>, res: Option<Result<K, V>>)

  datatype Event<K, V> = Event(tid: nat, op: Op<K, V>, res: Result<K, V>)

  datatype State<K(==), V(==)> = State(
    bits: nat,                      // the mask is Pow2(bits) - 1
    floor: nat,                     // no mask of fewer bits was read since the run began
    start: set<Node<K, V>>,         // the nodes stored when the run began
    buckets: seq<Bucket<K, V>>,
    size: int,                      // my_size
    enabling: Option<nat>,          // the thread that won the CAS on my_table[bits]
    nextId: nat,
    threads: seq<Thread<K, V>>,
    pending: set<nat>,              // buckets in some thread's stack
    all: set<Node<K, V>>,           // the nodes of the abstract map
    hist: seq<Event<K, V>>)         // the operations that have taken effect, in order

  ghost function TableOf<K, V>(s: State<K, V>): Table<K, V> {
    Table(s.bits, s.floor, s.buckets, s.pending)
  }

  // ----- Locks -----------------------------------------------------------------------

  ghost predicate Holding(pc: Pc) {
    !(pc.Probe? || pc.TryLock? || pc.Block? || pc.ReWait? || pc.Enable? || pc.Return?)
  }

  ghost predicate Writes<K, V>(th: Thread<K, V>, b: nat) {
    th.Running? && (b in th.stack || (th.cur == b && th.w && Holding(th.pc)))
  }

  ghost predicate Reads<K, V>(th: Thread<K, V>, b: nat) {
    th.Running? && th.cur == b && !th.w && Holding(th.pc)
  }

  /** No other thread has a lock on `b`. */
  ghost predicate Free<K, V>(s: State<K, V>, t: nat, b: nat) {
    forall u :: 0 <= u < |s.threads| && u != t ==> !Writes(s.threads[u], b) && !Reads(s.threads[u], b)
  }

  /** No other thread has `b` locked for writing. */
  ghost predicate Readable<K, V>(s: State<K, V>, t: nat, b: nat) {
    forall u :: 0 <= u < |s.threads| && u != t ==> !Writes(s.threads[u], b)
  }

  // ----- The sequential map ----------------------------------------------------------

  /** What an operation may answer on a map that stores the nodes `all`. */
  ghost predicate Answers<K(!new), V(!new)>(all: set<Node<K, V>>, op: Op<K, V>, res: Result<K, V>) {
    match res
    case Found(n) => (op.Find? || op.Insert?) && n in all && n.key == KeyOf(op)
    case Inserted(n) => op.Insert? && !HasKey(all, op.key) && n.key == op.key && n.value == op.value
    case Erased(n) => (op.Erase? || op.Exclude?) && n in all && IsTarget(op, n)
    case Missing => !op.Insert? && forall n :: n in all ==> !IsTarget(op, n)
  }

  ghost function Effect<K(!new), V(!new)>(all: set<Node<K, V>>, res: Result<K, V>): set<Node<K, V>> {
    match res
    case Inserted(n) => all + {n}
    case Erased(n) => all - {n}
    case _ => all
  }

  /** The nodes after the history, starting with those of `start`. */
  ghost function Replay<K(!new), V(!new)>(start: set<Node<K, V>>, hist: seq<Event<K, V>>): set<Node<K, V>> {
    if hist == [] then start else Effect(Replay(start, hist[..|hist|-1]), hist[|hist|-1].res)
  }

  /** The history is a run of the sequential map that stores the nodes `start` at first. */
  ghost predicate LegalHist<K(!new), V(!new)>(start: set<Node<K, V>>, hist: seq<Event<K, V>>) {
    hist != [] ==>
      && LegalHist(start, hist[..|hist|-1])
      && Answers(Replay(start, hist[..|hist|-1]), hist[|hist|-1].op, hist[|hist|-1].res)
  }

  lemma HistSnoc<K(!new), V(!new)>(start: set<Node<K, V>>, hist: seq<Event<K, V>>, e: Event<K, V>)
    requires LegalHist(start, hist) && Answers(Replay(start, hist), e.op, e.res)
    ensures LegalHist(start, hist + [e]) && Replay(start, hist + [e]) == Effect(Replay(start, hist), e.res)
  {
    assert (hist + [e])[..|hist|] == hist;
  }

  // ----- Steps -----------------------------------------------------------------------

  ghost function Put<K, V>(s: State<K, V>, t: nat, th: Thread<K, V>): State<K, V>
    requires t < |s.threads|
  {
    s.(threads := s.threads[t := th])
  }

  ghost predicate Runs<K, V>(s: State<K, V>, t: nat) {
    t < |s.threads| && s.threads[t].Running?
  }

  /** Thread `t` takes effect with answer `res` and goes to `pc`. */
  ghost function Settle<K, V>(s: State<K, V>, t: nat, pc: Pc, res: Result<K, V>): State<K, V>
    requires Runs(s, t)
  {
    var th := s.threads[t];
    Put(s, t, th.(pc := pc, res := Some(res))).(hist := s.hist + [Event(t, th.op, res)])
  }

  /** Call an operation: hash the key and read the mask. */
  ghost predicate Start<K(!new), V(!new)>(hash: K -> nat, s: State<K, V>, t: nat, s': State<K, V>, op: Op<K, V>) {
    && t < |s.threads| && s.threads[t].Resting?
    && (op.Exclude? ==> op.node.id < s.nextId)
    && s' == Put(s, t, Running(Probe, op, s.bits, [], hash(KeyOf(op)) % Pow2(s.bits), false, None, None))
  }

  /** Release the bucket and begin again with the mask of `j` bits. */
  ghost function Again<K, V>(hash: K -> nat, th: Thread<K, V>, j: nat): Thread<K, V>
    requires th.Running?
  {
    th.(pc := Probe, j := j, cur := hash(KeyOf(th.op)) % Pow2(j), w := false)
  }

  /** bucket_accessor::acquire, first look at the marker. */
  ghost predicate ProbeStep<K(!new), V(!new)>(s: State<K, V>, t: nat, s': State<K, V>) {
    && Runs(s, t) && s.threads[t].pc.Probe? && s.threads[t].cur < |s.buckets|
    && var th := s.threads[t];
       s' == Put(s, t, th.(pc := if s.buckets[th.cur].RehashReq? then TryLock else Block))
  }

  /** try_acquire for writing. */
  ghost predicate TryStep<K(!new), V(!new)>(s: State<K, V>, t: nat, s': State<K, V>) {
    && Runs(s, t) && s.threads[t].pc.TryLock?
    && var th := s.threads[t];
       s' == Put(s, t, if Free(s, t, th.cur) then th.(pc := Recheck, w := true) else th.(pc := Block))
  }

  /** The second look at the marker, under the write lock: clear it and go for the parent. */
  ghost predicate MarkStep<K(!new), V(!new)>(s: State<K, V>, t: nat, s': State<K, V>) {
    && Runs(s, t) && s.threads[t].pc.Recheck?
    && var th := s.threads[t];
       && 1 < th.cur < |s.buckets| && s.buckets[th.cur].RehashReq?
       && s' == Put(s, t, th.(pc := Probe, stack := th.stack + [th.cur], cur := Parent(th.cur), w := false))
                .(buckets := s.buckets[th.cur := Chain([])], pending := s.pending + {th.cur})
  }

  ghost predicate RecheckedStep<K(!new), V(!new)>(s: State<K, V>, t: nat, s': State<K, V>) {
    && Runs(s, t) && s.threads[t].pc.Recheck?
    && var th := s.threads[t];
       && th.cur < |s.buckets| && s.buckets[th.cur].Chain?
       && s' == Put(s, t, th.(pc := Held))
  }

  /** The blocking acquire: exclude() asks for a writer lock on its own bucket. */
  ghost predicate BlockStep<K(!new), V(!new)>(s: State<K, V>, t: nat, s': State<K, V>) {
    && Runs(s, t) && s.threads[t].pc.Block?
    && var th := s.threads[t];
       var want := th.stack == [] && th.op.Exclude?;
       && (if want then Free(s, t, th.cur) else Readable(s, t, th.cur))
       && s' == Put(s, t, th.(pc := Held, w := want))
  }

  /** The end of an upgrade that had to give the lock up.  erase() then checks the mask. */
  ghost predicate ReWaitStep<K(!new), V(!new)>(s: State<K, V>, t: nat, s': State<K, V>) {
    && Runs(s, t) && s.threads[t].pc.ReWait?
    && var th := s.threads[t];
       && Free(s, t, th.cur)
       && s' == Put(s, t, th.(w := true, pc := if th.stack == [] && th.op.Erase? then Race(true) else Held))
  }

  /** upgrade_to_writer that gives the lock up and waits. */
  ghost predicate GiveUpStep<K(!new), V(!new)>(s: State<K, V>, t: nat, s': State<K, V>) {
    && Runs(s, t) && s.threads[t].pc.Held? && !s.threads[t].w
    && (s.threads[t].stack == [] ==> !s.threads[t].op.Find?)
    && s' == Put(s, t, s.threads[t].(pc := ReWait))
  }

  /** upgrade_to_writer within rehash_bucket that succeeds at once. */
  ghost predicate MoveUpgradeStep<K(!new), V(!new)>(s: State<K, V>, t: nat, s': State<K, V>) {
    && Runs(s, t) && s.threads[t].pc.Held? && s.threads[t].stack != [] && !s.threads[t].w
    && Free(s, t, s.threads[t].cur)
    && s' == Put(s, t, s.threads[t].(w := true))
  }

  /** The end of one rehash_bucket: the matching nodes are moved, which needs the writer lock
      of the parent unless there are none, the parent is released, and the child is held. */
  ghost predicate FillStep<K(!new), V(!new)>(hash: K -> nat, s: State<K, V>, t: nat, s': State<K, V>) {
    && Runs(s, t) && s.threads[t].pc.Held? && s.threads[t].stack != []
    && var th := s.threads[t];
       var i := th.stack[|th.stack|-1];
       && 1 < i < |s.buckets| && th.cur == Parent(i) && s.buckets[th.cur].Chain?
       && (th.w || forall n :: n in s.buckets[th.cur].nodes ==> !Matches(hash, n, i))
       && var f := Filled(hash, TableOf(s), i);
          s' == Put(s, t, th.(stack := th.stack[..|th.stack|-1], cur := i, w := true))
                .(buckets := f.buckets, pending := f.pending)
  }

  /** The search finds a node that a find or insert may answer with. */
  ghost predicate FoundStep<K(!new), V(!new)>(s: State<K, V>, t: nat, s': State<K, V>, n: Node<K, V>) {
    && Runs(s, t) && s.threads[t].pc.Held? && s.threads[t].stack == []
    && var th := s.threads[t];
       && (th.op.Find? || th.op.Insert?)
       && th.cur < |s.buckets| && s.buckets[th.cur].Chain? && n in s.buckets[th.cur].nodes && IsTarget(th.op, n)
       && s' == Settle(s, t, Leaving(false), Found(n))
  }

  /** ... but its lock is taken for too long, and the call begins again. */
  ghost predicate BusyStep<K(!new), V(!new)>(hash: K -> nat, s: State<K, V>, t: nat, s': State<K, V>) {
    && Runs(s, t) && s.threads[t].pc.Held? && s.threads[t].stack == []
    && (s.threads[t].op.Find? || s.threads[t].op.Insert?)
    && s' == Put(s, t, Again(hash, s.threads[t], s.bits))
  }

  /** The search finds the node to unlink, and the bucket is or becomes locked for writing. */
  ghost predicate AimStep<K(!new), V(!new)>(s: State<K, V>, t: nat, s': State<K, V>, n: Node<K, V>) {
    && Runs(s, t) && s.threads[t].pc.Held? && s.threads[t].stack == []
    && var th := s.threads[t];
       && (th.op.Erase? || th.op.Exclude?)
       && th.cur < |s.buckets| && s.buckets[th.cur].Chain? && n in s.buckets[th.cur].nodes && IsTarget(th.op, n)
       && (th.w || Free(s, t, th.cur))
       && s' == Put(s, t, th.(pc := Unlink, w := true, node := Some(n)))
  }

  /** The search fails; an insert needs the bucket locked for writing from here on. */
  ghost predicate NotFoundStep<K(!new), V(!new)>(s: State<K, V>, t: nat, s': State<K, V>) {
    && Runs(s, t) && s.threads[t].pc.Held? && s.threads[t].stack == []
    && var th := s.threads[t];
       && th.cur < |s.buckets| && s.buckets[th.cur].Chain?
       && (forall n :: n in s.buckets[th.cur].nodes ==> !IsTarget(th.op, n))
       && (th.op.Insert? && !th.w ==> Free(s, t, th.cur))
       && s' == Put(s, t, th.(pc := Race(false), w := th.w || th.op.Insert?))
  }

  /** What follows when check_mask_race answers false; it has read the mask of `jNow` bits. */
  ghost function NoRace<K, V>(s: State<K, V>, t: nat, again: bool, jNow: nat): State<K, V>
    requires Runs(s, t)
  {
    var th := s.threads[t];
    if again then Put(s, t, th.(pc := Held, j := jNow))
    else if th.op.Insert? then Put(s, t, th.(pc := Count, j := jNow))
    else Settle(Put(s, t, th.(j := jNow)), t, Leaving(false), Missing)
  }

  /** check_mask_race: the current mask is read. */
  ghost predicate RaceStep<K(!new), V(!new)>(hash: K -> nat, s: State<K, V>, t: nat, s': State<K, V>) {
    && Runs(s, t) && s.threads[t].pc.Race?
    && var th := s.threads[t];
       var h := hash(KeyOf(th.op));
       s' == if h % Pow2(th.j) == h % Pow2(s.bits) then NoRace(s, t, th.pc.again, s.bits)
             else Put(s, t, th.(pc := RaceChild(th.pc.again, s.bits)))
  }

  /** check_rehashing_collision: the marker of the next bucket of the path is read. */
  ghost predicate RaceChildStep<K(!new), V(!new)>(hash: K -> nat, s: State<K, V>, t: nat, s': State<K, V>, l: nat) {
    && Runs(s, t) && s.threads[t].pc.RaceChild?
    && var th := s.threads[t];
       var h := hash(KeyOf(th.op));
       && NextLevel(h, th.j, l) && h % Pow2(l) < |s.buckets|
       && s' == if s.buckets[h % Pow2(l)].RehashReq? then NoRace(s, t, th.pc.again, th.pc.jNow)
                else Put(s, t, Again(hash, th, th.pc.jNow))
  }

  /** insert_new_node: ++my_size. */
  ghost predicate CountStep<K(!new), V(!new)>(s: State<K, V>, t: nat, s': State<K, V>) {
    && Runs(s, t) && s.threads[t].pc.Count?
    && s' == Put(s, t, s.threads[t].(pc := Link(s.size + 1))).(size := s.size + 1)
  }

  /** add_to_bucket, and the comparison with the load limit. */
  ghost predicate LinkStep<K(!new), V(!new)>(s: State<K, V>, t: nat, s': State<K, V>) {
    && Runs(s, t) && s.threads[t].pc.Link? && s.threads[t].op.Insert?
    && var th := s.threads[t];
       var n := Node(s.nextId, th.op.key, th.op.value);
       && th.cur < |s.buckets| && s.buckets[th.cur].Chain?
       && s' == Settle(s, t, if th.pc.sz >= Pow2(th.j) - 1 then Grow else Leaving(false), Inserted(n))
                .(buckets := WithFront(TableOf(s), th.cur, n).buckets, all := s.all + {n}, nextId := s.nextId + 1)
  }

  /** The CAS on the segment pointer: null exactly when the segment is the first unpublished
      one and no other thread has claimed it. */
  ghost predicate GrowStep<K(!new), V(!new)>(s: State<K, V>, t: nat, s': State<K, V>) {
    && Runs(s, t) && s.threads[t].pc.Grow?
    && var th := s.threads[t];
       s' == if th.j == s.bits && s.enabling.None? then Put(s, t, th.(pc := Leaving(true))).(enabling := Some(t))
             else Put(s, t, th.(pc := Leaving(false)))
  }

  ghost predicate UnlinkStep<K(!new), V(!new)>(s: State<K, V>, t: nat, s': State<K, V>, p: nat) {
    && Runs(s, t) && s.threads[t].pc.Unlink? && s.threads[t].node.Some?
    && var th := s.threads[t];
       && th.cur < |s.buckets| && s.buckets[th.cur].Chain?
       && p < |s.buckets[th.cur].nodes| && s.buckets[th.cur].nodes[p] == th.node.value
       && s' == Settle(s, t, Shrink, Erased(th.node.value))
                .(buckets := Without(TableOf(s), th.cur, p).buckets, all := s.all - {th.node.value})
  }

  ghost predicate ShrinkStep<K(!new), V(!new)>(s: State<K, V>, t: nat, s': State<K, V>) {
    && Runs(s, t) && s.threads[t].pc.Shrink?
    && s' == Put(s, t, s.threads[t].(pc := Leaving(false))).(size := s.size - 1)
  }

  /** Leaving the lock scope. */
  ghost predicate LeaveStep<K(!new), V(!new)>(s: State<K, V>, t: nat, s': State<K, V>) {
    && Runs(s, t) && s.threads[t].pc.Leaving?
    && s' == Put(s, t, s.threads[t].(pc := if s.threads[t].pc.grow then Enable else Return))
  }

  ghost function NextBits(k: nat): nat {
    if k < FIRST_BLOCK then FIRST_BLOCK else k + 1
  }

  /** enable_segment: the new buckets carry the marker; the mask is published last. */
  ghost predicate EnableStep<K(!new), V(!new)>(s: State<K, V>, t: nat, s': State<K, V>) {
    && Runs(s, t) && s.threads[t].pc.Enable? && |s.buckets| <= Pow2(NextBits(s.bits))
    && s' == Put(s, t, s.threads[t].(pc := Return))
             .(bits := NextBits(s.bits), buckets := Grown(TableOf(s), NextBits(s.bits)).buckets, enabling := None)
  }

  ghost predicate ReturnStep<K(!new), V(!new)>(s: State<K, V>, t: nat, s': State<K, V>) {
    && Runs(s, t) && s.threads[t].pc.Return?
    && s' == Put(s, t, Resting)
  }

  ghost predicate Next<K(!new), V(!new)>(hash: K -> nat, s: State<K, V>, t: nat, s': State<K, V>) {
    || (exists op :: Start(hash, s, t, s', op))
    || ProbeStep(s, t, s') || TryStep(s, t, s') || MarkStep(s, t, s') || RecheckedStep(s, t, s')
    || BlockStep(s, t, s') || ReWaitStep(s, t, s') || GiveUpStep(s, t, s') || MoveUpgradeStep(s, t, s')
    || FillStep(hash, s, t, s') || BusyStep(hash, s, t, s') || NotFoundStep(s, t, s') || RaceStep(hash, s, t, s')
    || (exists n :: FoundStep(s, t, s', n)) || (exists n :: AimStep(s, t, s', n))
    || (exists l :: RaceChildStep(hash, s, t, s', l)) || (exists p :: UnlinkStep(s, t, s', p))
    || CountStep(s, t, s') || LinkStep(s, t, s') || GrowStep(s, t, s') || ShrinkStep(s, t, s')
    || LeaveStep(s, t, s') || EnableStep(s, t, s') || ReturnStep(s, t, s')
  }

  /** Any table that no call is working on: a new one, or one that earlier calls or rehash()
      have left. */
  ghost predicate Init<K(!new), V(!new)>(hash: K -> nat, s: State<K, V>) {
    && (s.bits == 1 || FIRST_BLOCK <= s.bits) && Placed(hash, TableOf(s), s.all)
    && s.size == |s.all| && s.enabling == None && s.pending == {} && s.start == s.all && s.hist == []
    && forall t :: 0 <= t < |s.threads| ==> s.threads[t] == Resting
  }

  // ----- The invariant ---------------------------------------------------------------

  ghost predicate Exclusive<K(!new), V(!new)>(s: State<K, V>) {
    forall t, u, b :: 0 <= t < |s.threads| && 0 <= u < |s.threads| && t != u && Writes(s.threads[t], b)
      ==> !Writes(s.threads[u], b) && !Reads(s.threads[u], b)
  }

  ghost predicate Stacked<K, V>(s: State<K, V>, t: nat, i: nat) {
    Runs(s, t) && i in s.threads[t].stack
  }

  ghost predicate PendingOk<K(!new), V(!new)>(s: State<K, V>) {
    && (forall i :: i in s.pending ==> exists t: nat :: Stacked(s, t, i))
    && forall t: nat, i: nat :: Stacked(s, t, i) ==> i in s.pending
  }

  /** The buckets being rehashed by a thread form a path of parents up to the bucket it wants. */
  ghost predicate PathOk<K, V>(hash: K -> nat, th: Thread<K, V>)
    requires th.Running?
  {
    var k := |th.stack|;
    && (0 < k ==> th.stack[0] == hash(KeyOf(th.op)) % Pow2(th.j))
    && (forall i :: 0 <= i < k ==> 1 < th.stack[i])
    && (forall i :: 0 < i < k ==> th.stack[i] == Parent(th.stack[i-1]))
    && (0 < k ==> th.cur == Parent(th.stack[k-1]))
  }

  ghost predicate AtHome<K(!new), V(!new)>(hash: K -> nat, s: State<K, V>, th: Thread<K, V>)
    requires th.Running? && 1 <= s.bits
  {
    HomeOf(hash, TableOf(s), KeyOf(th.op)) == th.cur
  }

  ghost predicate NoTarget<K(!new), V(!new)>(s: State<K, V>, th: Thread<K, V>)
    requires th.Running? && th.cur < |s.buckets| && s.buckets[th.cur].Chain?
  {
    forall n :: n in s.buckets[th.cur].nodes ==> !IsTarget(th.op, n)
  }

  ghost predicate Early(pc: Pc) {
    pc.Probe? || pc.TryLock? || pc.Recheck? || pc.Block? || pc.Held? || pc.ReWait? || pc.Race? || pc.RaceChild?
  }

  ghost predicate OnFilled(pc: Pc) {
    pc.Held? || pc.ReWait? || pc.Race? || pc.RaceChild? || pc.Count? || pc.Link? || pc.Unlink?
    || pc.Grow? || pc.Shrink? || pc.Leaving?
  }

  /** Some other thread is about to clear the marker of `b`. */
  ghost predicate BeingMarked<K, V>(s: State<K, V>, t: nat, b: nat) {
    exists v: nat :: v != t && Runs(s, v) && s.threads[v].pc.Recheck? && s.threads[v].cur == b
  }

  ghost predicate ThreadOk<K(!new), V(!new)>(hash: K -> nat, s: State<K, V>, t: nat)
    requires t < |s.threads| && 1 <= s.bits
  {
    var th := s.threads[t];
    th.Running? ==>
      var h := hash(KeyOf(th.op));
      && 1 <= s.floor <= th.j <= s.bits && th.cur < |s.buckets| && PathOk(hash, th)
      && (th.stack != [] ==>
           th.pc.Probe? || th.pc.TryLock? || th.pc.Recheck? || th.pc.Block? || th.pc.Held? || th.pc.ReWait?)
      // until the answer is settled the bucket wanted is the one of the thread's mask, or is known to be right
      && (Early(th.pc) && th.stack == [] ==>
            th.cur == h % Pow2(th.j) || (th.w && (th.pc.Held? || th.pc.Race? || th.pc.RaceChild?)
              && AtHome(hash, s, th)))
      && (OnFilled(th.pc) ==> th.cur in Ready(TableOf(s)))
      && (th.pc.Recheck? ==> th.w)
      && (th.pc.Block? ==> s.buckets[th.cur].Chain? || BeingMarked(s, t, th.cur))
      && ((th.pc.Race? || th.pc.RaceChild?) && th.pc.again ==> th.w && th.op.Erase?)
      && ((th.pc.Race? || th.pc.RaceChild?) && !th.pc.again ==> NoTarget(s, th) && (th.op.Insert? ==> th.w))
      && (th.pc.RaceChild? ==> th.j < th.pc.jNow <= s.bits && h % Pow2(th.pc.jNow) != h % Pow2(th.j))
      && (th.pc.Count? || th.pc.Link? ==> th.op.Insert? && th.w && NoTarget(s, th) && AtHome(hash, s, th))
      && (th.pc.Unlink? ==> th.w && (th.op.Erase? || th.op.Exclude?) && th.node.Some?)
      && (th.pc.Unlink? ==> th.node.value in s.buckets[th.cur].nodes && IsTarget(th.op, th.node.value))
      && (Early(th.pc) || th.pc.Count? || th.pc.Link? || th.pc.Unlink? <==> th.res.None?)
      && (th.pc.Enable? || (th.pc.Leaving? && th.pc.grow) <==> s.enabling == Some(t))
      && (s.enabling == Some(t) ==> th.j == s.bits)
  }

  ghost predicate ThreadsOk<K(!new), V(!new)>(hash: K -> nat, s: State<K, V>)
    requires 1 <= s.bits
  {
    && (forall t :: 0 <= t < |s.threads| ==> ThreadOk(hash, s, t))
    && (s.enabling.Some? ==> Runs(s, s.enabling.value))
  }

  ghost predicate Inv<K(!new), V(!new)>(hash: K -> nat, s: State<K, V>) {
    && (s.bits == 1 || FIRST_BLOCK <= s.bits)
    && Placed(hash, TableOf(s), s.all)
    && Exclusive(s) && PendingOk(s) && ThreadsOk(hash, s)
    && LegalHist(s.start, s.hist) && Replay(s.start, s.hist) == s.all
  }

  // ----- What a step of one thread leaves to the others ------------------------------

  ghost predicate OnlyThread<K, V>(s: State<K, V>, t: nat, s': State<K, V>) {
    && t < |s.threads| && |s'.threads| == |s.threads|
    && forall u :: 0 <= u < |s.threads| && u != t ==> s'.threads[u] == s.threads[u]
  }

  /** The locks that `t` holds after the step are old ones or were free. */
  ghost predicate LocksOk<K(!new), V(!new)>(s: State<K, V>, t: nat, s': State<K, V>)
    requires OnlyThread(s, t, s')
  {
    && (forall b :: Writes(s'.threads[t], b) ==> Writes(s.threads[t], b) || Free(s, t, b))
    && (forall b :: Reads(s'.threads[t], b) ==> Writes(s.threads[t], b) || Reads(s.threads[t], b) || Readable(s, t, b))
  }

  lemma ExclusiveKept<K(!new), V(!new)>(s: State<K, V>, t: nat, s': State<K, V>)
    requires Exclusive(s) && OnlyThread(s, t, s') && LocksOk(s, t, s')
    ensures Exclusive(s')
  {
    forall x, y, b | 0 <= x < |s'.threads| && 0 <= y < |s'.threads| && x != y && Writes(s'.threads[x], b)
      ensures !Writes(s'.threads[y], b) && !Reads(s'.threads[y], b)
    {
      assert Writes(s'.threads[t], b) ==> Writes(s.threads[t], b) || Free(s, t, b);
      assert Reads(s'.threads[t], b) ==> Writes(s.threads[t], b) || Reads(s.threads[t], b) || Readable(s, t, b);
    }
  }

  /** Chains and homes change only under a write lock of `t`, and markers only disappear. */
  ghost predicate TableStep<K(!new), V(!new)>(hash: K -> nat, s: State<K, V>, t: nat, s': State<K, V>)
    requires t < |s.threads| && 1 <= s.bits && 1 <= s'.bits
  {
    && s'.floor == s.floor && s.bits <= s'.bits && |s.buckets| <= |s'.buckets|
    && Ready(TableOf(s)) <= Ready(TableOf(s'))
    && (forall b :: 0 <= b < |s.buckets| && s.buckets[b].Chain? ==> s'.buckets[b].Chain?)
    && (forall b :: b in Ready(TableOf(s)) && !Writes(s.threads[t], b) ==> s'.buckets[b] == s.buckets[b])
    && (forall key ::
          !Writes(s.threads[t], HomeOf(hash, TableOf(s), key)) && !Reads(s.threads[t], HomeOf(hash, TableOf(s), key))
          ==> HomeOf(hash, TableOf(s'), key) == HomeOf(hash, TableOf(s), key))
    && (Runs(s, t) && s.threads[t].pc.Recheck? ==>
         s.threads[t].cur < |s.buckets| && s'.buckets[s.threads[t].cur].Chain?)
  }

  ghost predicate EnablingStep<K, V>(s: State<K, V>, t: nat, s': State<K, V>) {
    && (forall u: nat :: u != t ==> (s'.enabling == Some(u) <==> s.enabling == Some(u)))
    && (s'.bits != s.bits ==> s.enabling == Some(t))
  }

  lemma OtherKept<K(!new), V(!new)>(hash: K -> nat, s: State<K, V>, t: nat, s': State<K, V>, u: nat)
    requires 1 <= s.bits && 1 <= s'.bits && u < |s.threads| && u != t && OnlyThread(s, t, s')
    requires ThreadOk(hash, s, u) && Exclusive(s) && TableStep(hash, s, t, s') && EnablingStep(s, t, s')
    ensures ThreadOk(hash, s', u)
  {
    hide Ready, HomeOf, LegalHist;
    var th := s.threads[u];
    if th.Running? {
      if Holding(th.pc) && th.w { assert Writes(th, th.cur); }
      if Holding(th.pc) && !th.w { assert Reads(th, th.cur); }
      if th.pc.Block? && !s'.buckets[th.cur].Chain? {
        var v: nat :| v != u && Runs(s, v) && s.threads[v].pc.Recheck? && s.threads[v].cur == th.cur;
        assert v != t;
        assert Runs(s', v) && s'.threads[v].pc.Recheck? && s'.threads[v].cur == th.cur;
      }
    }
  }

  lemma ThreadsKept<K(!new), V(!new)>(hash: K -> nat, s: State<K, V>, t: nat, s': State<K, V>)
    requires 1 <= s.bits && 1 <= s'.bits && OnlyThread(s, t, s')
    requires ThreadsOk(hash, s) && Exclusive(s) && TableStep(hash, s, t, s') && EnablingStep(s, t, s')
    requires ThreadOk(hash, s', t) && (s'.enabling == Some(t) ==> Runs(s', t))
    ensures ThreadsOk(hash, s')
  {
    hide ThreadOk, Exclusive, TableStep;
    forall u | 0 <= u < |s'.threads| ensures ThreadOk(hash, s', u) {
      if u != t { OtherKept(hash, s, t, s', u); }
    }
    if s'.enabling.Some? && s'.enabling.value != t {
      assert s.enabling == Some(s'.enabling.value);
    }
  }

  /** A step that leaves the table alone. */
  lemma TableUntouched<K(!new), V(!new)>(hash: K -> nat, s: State<K, V>, t: nat, s': State<K, V>)
    requires Inv(hash, s) && t < |s.threads|
    requires |s'.threads| == |s.threads| && s' == Put(s, t, s'.threads[t]).(hist := s'.hist, size := s'.size)
    requires LegalHist(s'.start, s'.hist) && Replay(s'.start, s'.hist) == s.all
    requires LocksOk(s, t, s') && ThreadOk(hash, s', t)
    requires SameStack(s.threads[t], s'.threads[t])
    requires Runs(s, t) && s.threads[t].pc.Recheck? ==>
      s.threads[t].cur < |s.buckets| && s.buckets[s.threads[t].cur].Chain?
    requires s.enabling == Some(t) ==> s'.threads[t].Running?
    ensures Inv(hash, s')
  {
    hide ThreadOk, Placed, LegalHist;
    assert TableOf(s') == TableOf(s);
    ThreadsKept(hash, s, t, s');
    ExclusiveKept(s, t, s');
    SameStackPending(s, t, s');
  }

  /** A step that changes nothing but the thread itself. */
  lemma LocalKept<K(!new), V(!new)>(hash: K -> nat, s: State<K, V>, t: nat, th: Thread<K, V>)
    requires Inv(hash, s) && t < |s.threads|
    requires LocksOk(s, t, Put(s, t, th)) && ThreadOk(hash, Put(s, t, th), t)
    requires SameStack(s.threads[t], th)
    requires Runs(s, t) && s.threads[t].pc.Recheck? ==>
      s.threads[t].cur < |s.buckets| && s.buckets[s.threads[t].cur].Chain?
    requires s.enabling == Some(t) ==> th.Running?
    ensures Inv(hash, Put(s, t, th))
  {
    hide ThreadOk, Placed, LegalHist;
    TableUntouched(hash, s, t, Put(s, t, th));
  }

  ghost predicate SameStack<K, V>(th: Thread<K, V>, th': Thread<K, V>) {
    StackOf(th) == StackOf(th')
  }

  ghost function StackOf<K, V>(th: Thread<K, V>): seq<nat> {
    if th.Running? then th.stack else []
  }

  lemma SameStackPending<K(!new), V(!new)>(s: State<K, V>, t: nat, s': State<K, V>)
    requires PendingOk(s) && OnlyThread(s, t, s') && SameStack(s.threads[t], s'.threads[t]) && s'.pending == s.pending
    ensures PendingOk(s')
  {
    forall u: nat, i: nat ensures Stacked(s', u, i) <==> Stacked(s, u, i) {
    }
    forall i | i in s'.pending ensures exists u: nat :: Stacked(s', u, i) {
      var u: nat :| Stacked(s, u, i);
      assert Stacked(s', u, i);
    }
  }

  // ----- Every step keeps the invariant ----------------------------------------------

  /** A locked bucket carries no marker, unless its holder is about to clear it. */
  lemma LockedIsMarked<K(!new), V(!new)>(hash: K -> nat, s: State<K, V>, u: nat, b: nat)
    requires Inv(hash, s) && u < |s.threads| && (Writes(s.threads[u], b) || Reads(s.threads[u], b))
    ensures b < |s.buckets|
    ensures s.buckets[b].Chain? || (s.threads[u].pc.Recheck? && s.threads[u].cur == b)
  {
    assert ThreadOk(hash, s, u);
    if b in s.threads[u].stack {
      assert Stacked(s, u, b);
    }
  }

  lemma Own<K(!new), V(!new)>(hash: K -> nat, s: State<K, V>, t: nat)
    requires Inv(hash, s) && t < |s.threads|
    ensures 1 <= s.floor <= s.bits && |s.buckets| == Pow2(s.bits) && ThreadOk(hash, s, t)
    ensures forall b :: b in Ready(TableOf(s)) ==> b < |s.buckets| && s.buckets[b].Chain?
    ensures s.enabling == Some(t) ==> Runs(s, t)
  {
  }

  lemma WriterExcludes<K(!new), V(!new)>(hash: K -> nat, s: State<K, V>, t: nat, b: nat)
    requires Inv(hash, s) && t < |s.threads| && Writes(s.threads[t], b)
    ensures Free(s, t, b)
  {
  }

  lemma StartKeeps<K(!new), V(!new)>(hash: K -> nat, s: State<K, V>, t: nat, s': State<K, V>, op: Op<K, V>)
    requires Inv(hash, s) && Start(hash, s, t, s', op)
    ensures Inv(hash, s')
  {
    hide Inv, Ready;
    Own(hash, s, t);
    LocalKept(hash, s, t, s'.threads[t]);
  }

  lemma ProbeKeeps<K(!new), V(!new)>(hash: K -> nat, s: State<K, V>, t: nat, s': State<K, V>)
    requires Inv(hash, s) && ProbeStep(s, t, s')
    ensures Inv(hash, s')
  {
    hide Inv, Ready;
    Own(hash, s, t);
    LocalKept(hash, s, t, s'.threads[t]);
  }

  lemma TryKeeps<K(!new), V(!new)>(hash: K -> nat, s: State<K, V>, t: nat, s': State<K, V>)
    requires Inv(hash, s) && TryStep(s, t, s')
    ensures Inv(hash, s')
  {
    hide Inv, Ready;
    Own(hash, s, t);
    if !Free(s, t, s.threads[t].cur) { BusyIsMarked(hash, s, t, s'); }
    LocalKept(hash, s, t, s'.threads[t]);
  }

  /** try_acquire fails only on a bucket that is filled or about to be. */
  lemma BusyIsMarked<K(!new), V(!new)>(hash: K -> nat, s: State<K, V>, t: nat, s': State<K, V>)
    requires Inv(hash, s) && TryStep(s, t, s') && !Free(s, t, s.threads[t].cur)
    ensures var b := s.threads[t].cur; b < |s.buckets| && (s.buckets[b].Chain? || BeingMarked(s', t, b))
  {
    hide Inv, Ready;
    var b := s.threads[t].cur;
    var u: nat :| u < |s.threads| && u != t && (Writes(s.threads[u], b) || Reads(s.threads[u], b));
    LockedIsMarked(hash, s, u, b);
    assert s'.threads[u] == s.threads[u];
    if !s.buckets[b].Chain? { assert Runs(s', u) && s'.threads[u].pc.Recheck? && s'.threads[u].cur == b; }
  }

  lemma RecheckedKeeps<K(!new), V(!new)>(hash: K -> nat, s: State<K, V>, t: nat, s': State<K, V>)
    requires Inv(hash, s) && RecheckedStep(s, t, s')
    ensures Inv(hash, s')
  {
    hide Inv, Ready;
    Own(hash, s, t);
    PathAvoids(hash, s.threads[t]);
    WriterExcludes(hash, s, t, s.threads[t].cur);
    MarkedIsReady(hash, s, t, s.threads[t].cur);
    LocalKept(hash, s, t, s'.threads[t]);
  }

  /** A bucket without marker that nobody else has locked for writing has been filled. */
  lemma MarkedIsReady<K(!new), V(!new)>(hash: K -> nat, s: State<K, V>, t: nat, b: nat)
    requires Inv(hash, s) && t < |s.threads| && b < |s.buckets| && s.buckets[b].Chain?
    requires Readable(s, t, b) && !Stacked(s, t, b)
    ensures b in Ready(TableOf(s))
  {
    assert forall u: nat :: Stacked(s, u, b) ==> Writes(s.threads[u], b);
  }

  /** The buckets of a rehash path have decreasing indices, so the wanted one is not among them. */
  lemma {:induction false} PathDecreases<K, V>(hash: K -> nat, th: Thread<K, V>, i: nat)
    requires th.Running? && PathOk(hash, th) && i < |th.stack|
    ensures th.cur < th.stack[i]
    ensures forall m :: i < m < |th.stack| ==> th.stack[m] < th.stack[i]
    decreases |th.stack| - i
  {
    if i + 1 < |th.stack| {
      PathDecreases(hash, th, i + 1);
      assert th.stack[i+1] == Parent(th.stack[i]);
    }
  }

  lemma PathAvoids<K, V>(hash: K -> nat, th: Thread<K, V>)
    requires th.Running? && PathOk(hash, th)
    ensures th.cur !in th.stack
    ensures th.stack != [] ==> th.stack[|th.stack|-1] !in th.stack[..|th.stack|-1]
  {
    forall i | 0 <= i < |th.stack|
      ensures th.cur < th.stack[i] && (i < |th.stack|-1 ==> th.stack[|th.stack|-1] < th.stack[i]) {
      PathDecreases(hash, th, i);
    }
  }

  lemma RecheckWrites<K(!new), V(!new)>(hash: K -> nat, s: State<K, V>, v: nat)
    requires Inv(hash, s) && Runs(s, v) && s.threads[v].pc.Recheck?
    ensures Writes(s.threads[v], s.threads[v].cur)
  {
    Own(hash, s, v);
  }

  lemma NotBeingMarked<K(!new), V(!new)>(hash: K -> nat, s: State<K, V>, t: nat, b: nat)
    requires Inv(hash, s) && Readable(s, t, b)
    ensures !BeingMarked(s, t, b)
  {
    hide Inv;
    if BeingMarked(s, t, b) {
      var v: nat :| v != t && Runs(s, v) && s.threads[v].pc.Recheck? && s.threads[v].cur == b;
      RecheckWrites(hash, s, v);
      assert false;
    }
  }

  lemma BlockKeeps<K(!new), V(!new)>(hash: K -> nat, s: State<K, V>, t: nat, s': State<K, V>)
    requires Inv(hash, s) && BlockStep(s, t, s')
    ensures Inv(hash, s')
  {
    hide Inv, Ready;
    var th := s.threads[t];
    Own(hash, s, t);
    PathAvoids(hash, th);
    NotBeingMarked(hash, s, t, th.cur);
    MarkedIsReady(hash, s, t, th.cur);
    LocalKept(hash, s, t, s'.threads[t]);
  }

  lemma ReWaitKeeps<K(!new), V(!new)>(hash: K -> nat, s: State<K, V>, t: nat, s': State<K, V>)
    requires Inv(hash, s) && ReWaitStep(s, t, s')
    ensures Inv(hash, s')
  {
    hide Inv, Ready;
    Own(hash, s, t);
    LocalKept(hash, s, t, s'.threads[t]);
  }

  lemma GiveUpKeeps<K(!new), V(!new)>(hash: K -> nat, s: State<K, V>, t: nat, s': State<K, V>)
    requires Inv(hash, s) && GiveUpStep(s, t, s')
    ensures Inv(hash, s')
  {
    hide Inv, Ready;
    Own(hash, s, t);
    LocalKept(hash, s, t, s'.threads[t]);
  }

  lemma MoveUpgradeKeeps<K(!new), V(!new)>(hash: K -> nat, s: State<K, V>, t: nat, s': State<K, V>)
    requires Inv(hash, s) && MoveUpgradeStep(s, t, s')
    ensures Inv(hash, s')
  {
    hide Inv, Ready;
    Own(hash, s, t);
    LocalKept(hash, s, t, s'.threads[t]);
  }

  lemma BusyKeeps<K(!new), V(!new)>(hash: K -> nat, s: State<K, V>, t: nat, s': State<K, V>)
    requires Inv(hash, s) && BusyStep(hash, s, t, s')
    ensures Inv(hash, s')
  {
    hide Inv, Ready;
    Own(hash, s, t);
    LocalKept(hash, s, t, s'.threads[t]);
  }

  lemma AimKeeps<K(!new), V(!new)>(hash: K -> nat, s: State<K, V>, t: nat, s': State<K, V>, n: Node<K, V>)
    requires Inv(hash, s) && AimStep(s, t, s', n)
    ensures Inv(hash, s')
  {
    hide Inv, Ready;
    Own(hash, s, t);
    LocalKept(hash, s, t, s'.threads[t]);
  }

  lemma NotFoundKeeps<K(!new), V(!new)>(hash: K -> nat, s: State<K, V>, t: nat, s': State<K, V>)
    requires Inv(hash, s) && NotFoundStep(s, t, s')
    ensures Inv(hash, s')
  {
    hide Inv, Ready;
    Own(hash, s, t);
    LocalKept(hash, s, t, s'.threads[t]);
  }

  lemma LeaveKeeps<K(!new), V(!new)>(hash: K -> nat, s: State<K, V>, t: nat, s': State<K, V>)
    requires Inv(hash, s) && LeaveStep(s, t, s')
    ensures Inv(hash, s')
  {
    hide Inv, Ready;
    Own(hash, s, t);
    LocalKept(hash, s, t, s'.threads[t]);
  }

  lemma ReturnKeeps<K(!new), V(!new)>(hash: K -> nat, s: State<K, V>, t: nat, s': State<K, V>)
    requires Inv(hash, s) && ReturnStep(s, t, s')
    ensures Inv(hash, s')
  {
    hide Inv, Ready;
    Own(hash, s, t);
    LocalKept(hash, s, t, s'.threads[t]);
  }

  // ----- Steps that take effect ------------------------------------------------------

  /** A step that settles the operation of `t` without touching the table. */
  lemma SettleKept<K(!new), V(!new)>(hash: K -> nat, s: State<K, V>, t: nat, s': State<K, V>, j: nat, res: Result<K, V>)
    requires Inv(hash, s) && Runs(s, t) && s.threads[t].pc != Recheck && Holding(s.threads[t].pc)
    requires s' == Settle(Put(s, t, s.threads[t].(j := j)), t, Leaving(false), res)
    requires s.threads[t].stack == [] && s.threads[t].cur in Ready(TableOf(s)) && s.floor <= j <= s.bits
    requires s.enabling != Some(t)
    requires Answers(s.all, s.threads[t].op, res) && Effect(s.all, res) == s.all
    ensures Inv(hash, s')
  {
    hide Ready;
    Own(hash, s, t);
    HistSnoc(s.start, s.hist, Event(t, s.threads[t].op, res));
    TableUntouched(hash, s, t, s');
  }

  lemma FoundKeeps<K(!new), V(!new)>(hash: K -> nat, s: State<K, V>, t: nat, s': State<K, V>, n: Node<K, V>)
    requires Inv(hash, s) && FoundStep(s, t, s', n)
    ensures Inv(hash, s')
  {
    var th := s.threads[t];
    Own(hash, s, t);
    FoundIsStored(hash, TableOf(s), s.all, th.cur, n);
    SettleKept(hash, s, t, s', th.j, Found(n));
  }

  lemma CountKeeps<K(!new), V(!new)>(hash: K -> nat, s: State<K, V>, t: nat, s': State<K, V>)
    requires Inv(hash, s) && CountStep(s, t, s')
    ensures Inv(hash, s')
  {
    hide Ready, Placed;
    Own(hash, s, t);
    TableUntouched(hash, s, t, s');
  }

  lemma ShrinkKeeps<K(!new), V(!new)>(hash: K -> nat, s: State<K, V>, t: nat, s': State<K, V>)
    requires Inv(hash, s) && ShrinkStep(s, t, s')
    ensures Inv(hash, s')
  {
    hide Ready, Placed;
    Own(hash, s, t);
    TableUntouched(hash, s, t, s');
  }

  // ----- check_mask_race -------------------------------------------------------------

  /** When check_mask_race answers false, the held bucket is the home of the key. */
  lemma NoRaceAtHome<K(!new), V(!new)>(hash: K -> nat, s: State<K, V>, t: nat)
    requires Inv(hash, s) && Runs(s, t) && (s.threads[t].pc.Race? || s.threads[t].pc.RaceChild?)
    requires NoMaskRace(TableOf(s), hash(KeyOf(s.threads[t].op)), s.threads[t].j)
    ensures AtHome(hash, s, s.threads[t])
  {
    var th := s.threads[t];
    assert ThreadOk(hash, s, t);
    if th.cur == hash(KeyOf(th.op)) % Pow2(th.j) {
      StaleMaskSafe(hash, TableOf(s), s.all, KeyOf(th.op), th.j);
    }
  }

  /** A key that is not in its home bucket is not in the table. */
  lemma MissingAnswers<K(!new), V(!new)>(hash: K -> nat, s: State<K, V>, th: Thread<K, V>)
    requires Inv(hash, s) && th.Running? && th.cur in Ready(TableOf(s)) && th.cur < |s.buckets|
    requires NoTarget(s, th) && AtHome(hash, s, th)
    ensures forall n :: n in s.all ==> !IsTarget(th.op, n)
    ensures !th.op.Exclude? ==> !HasKey(s.all, KeyOf(th.op))
  {
  }

  lemma NoRaceKeeps<K(!new), V(!new)>(hash: K -> nat, s: State<K, V>, t: nat, jNow: nat)
    requires Inv(hash, s) && Runs(s, t) && (s.threads[t].pc.Race? || s.threads[t].pc.RaceChild?)
    requires NoMaskRace(TableOf(s), hash(KeyOf(s.threads[t].op)), s.threads[t].j) && s.floor <= jNow <= s.bits
    ensures Inv(hash, NoRace(s, t, s.threads[t].pc.again, jNow))
  {
    hide Inv, Ready, NoMaskRace;
    var th := s.threads[t];
    NoRaceAtHome(hash, s, t);
    Own(hash, s, t);
    var s' := NoRace(s, t, th.pc.again, jNow);
    if th.pc.again || th.op.Insert? {
      LocalKept(hash, s, t, s'.threads[t]);
    } else {
      MissingAnswers(hash, s, th);
      SettleKept(hash, s, t, s', jNow, Missing);
    }
  }

  lemma RaceKeeps<K(!new), V(!new)>(hash: K -> nat, s: State<K, V>, t: nat, s': State<K, V>)
    requires Inv(hash, s) && RaceStep(hash, s, t, s')
    ensures Inv(hash, s')
  {
    hide Inv, Ready, NoRace;
    var th := s.threads[t];
    Own(hash, s, t);
    if hash(KeyOf(th.op)) % Pow2(th.j) == hash(KeyOf(th.op)) % Pow2(s.bits) {
      NoRaceKeeps(hash, s, t, s.bits);
    } else {
      LocalKept(hash, s, t, s'.threads[t]);
    }
  }

  /** The next bucket of the path exists as soon as the mask that was read selects another one. */
  lemma NextWithin(h: nat, j: nat, jNow: nat, l: nat)
    requires NextLevel(h, j, l) && j < jNow && h % Pow2(jNow) != h % Pow2(j)
    ensures l <= jNow
  {
  }

  lemma RaceChildKeeps<K(!new), V(!new)>(hash: K -> nat, s: State<K, V>, t: nat, s': State<K, V>, l: nat)
    requires Inv(hash, s) && RaceChildStep(hash, s, t, s', l)
    ensures Inv(hash, s')
  {
    hide Inv, Ready, NoRace, NextLevel;
    var th := s.threads[t];
    Own(hash, s, t);
    NextWithin(hash(KeyOf(th.op)), th.j, th.pc.jNow, l);
    if s.buckets[hash(KeyOf(th.op)) % Pow2(l)].RehashReq? {
      assert Marked(TableOf(s), hash(KeyOf(th.op)) % Pow2(l));
      NoRaceKeeps(hash, s, t, th.pc.jNow);
    } else {
      Pow2Monotone(th.pc.jNow, s.bits);
      LocalKept(hash, s, t, s'.threads[t]);
    }
  }

  // ----- Steps that change the table -------------------------------------------------

  /** Puts together what a step that changes the table has to keep. */
  lemma TableChanged<K(!new), V(!new)>(hash: K -> nat, s: State<K, V>, t: nat, s': State<K, V>)
    requires Inv(hash, s) && OnlyThread(s, t, s') && (s'.bits == 1 || FIRST_BLOCK <= s'.bits)
    requires Placed(hash, TableOf(s'), s'.all) && PendingOk(s')
    requires LegalHist(s'.start, s'.hist) && Replay(s'.start, s'.hist) == s'.all
    requires LocksOk(s, t, s') && TableStep(hash, s, t, s') && EnablingStep(s, t, s')
    requires ThreadOk(hash, s', t) && (s'.enabling == Some(t) ==> Runs(s', t))
    ensures Inv(hash, s')
  {
    hide ThreadOk, Placed, LegalHist, TableStep, EnablingStep, LocksOk, PendingOk;
    ThreadsKept(hash, s, t, s');
    ExclusiveKept(s, t, s');
  }

  lemma MarkStepPending<K(!new), V(!new)>(s: State<K, V>, t: nat, s': State<K, V>)
    requires PendingOk(s) && MarkStep(s, t, s')
    ensures PendingOk(s')
  {
    var c := s.threads[t].cur;
    forall u: nat, i: nat ensures Stacked(s', u, i) <==> Stacked(s, u, i) || (u == t && i == c) {
    }
    forall i | i in s'.pending ensures exists u: nat :: Stacked(s', u, i) {
      if i == c {
        assert Stacked(s', t, i);
      } else {
        var u: nat :| Stacked(s, u, i);
        assert Stacked(s', u, i);
      }
    }
  }

  lemma MarkKeepsInv<K(!new), V(!new)>(hash: K -> nat, s: State<K, V>, t: nat, s': State<K, V>)
    requires Inv(hash, s) && MarkStep(s, t, s')
    ensures Inv(hash, s')
  {
    hide Inv, Ready, PendingOk, Placed;
    var th := s.threads[t];
    Own(hash, s, t);
    MarkPlaced(hash, s, t, s');
    TableChanged(hash, s, t, s');
  }

  lemma MarkPlaced<K(!new), V(!new)>(hash: K -> nat, s: State<K, V>, t: nat, s': State<K, V>)
    requires Inv(hash, s) && MarkStep(s, t, s')
    ensures s'.bits == s.bits && (s.bits == 1 || FIRST_BLOCK <= s.bits) && LegalHist(s'.start, s'.hist)
      && Replay(s'.start, s'.hist) == s'.all
    ensures Placed(hash, TableOf(s'), s'.all) && Ready(TableOf(s')) == Ready(TableOf(s)) && PendingOk(s')
    ensures forall b :: b in Ready(TableOf(s)) ==> s'.buckets[b] == s.buckets[b]
  {
    hide Placed, PendingOk, LegalHist;
    MarkKeeps(hash, TableOf(s), s.all, s.threads[t].cur);
    MarkStepPending(s, t, s');
  }

  lemma FillStepPending<K(!new), V(!new)>(hash: K -> nat, s: State<K, V>, t: nat, s': State<K, V>)
    requires PendingOk(s) && Exclusive(s) && FillStep(hash, s, t, s') && PathOk(hash, s.threads[t])
    ensures PendingOk(s')
  {
    var th := s.threads[t];
    var i := th.stack[|th.stack|-1];
    PathAvoids(hash, th);
    assert th.stack == th.stack[..|th.stack|-1] + [i];
    assert Writes(th, i);
    forall u: nat, b: nat ensures Stacked(s', u, b) <==> Stacked(s, u, b) && b != i {
      if Stacked(s, u, b) && u != t { assert Writes(s.threads[u], b); }
    }
    forall b | b in s'.pending ensures exists u: nat :: Stacked(s', u, b) {
      var u: nat :| Stacked(s, u, b);
      assert Stacked(s', u, b);
    }
  }

  lemma {:induction false} NothingMatches<K(!new), V(!new)>(hash: K -> nat, s: seq<Node<K, V>>, i: nat)
    requires forall n :: n in s ==> !Matches(hash, n, i)
    ensures Kept(hash, s, i) == s && Moved(hash, s, i) == []
  {
    if s != [] { NothingMatches(hash, s[..|s|-1], i); }
  }

  lemma FillPlaced<K(!new), V(!new)>(hash: K -> nat, s: State<K, V>, t: nat, s': State<K, V>)
    requires Inv(hash, s) && FillStep(hash, s, t, s')
    ensures s'.bits == s.bits && (s.bits == 1 || FIRST_BLOCK <= s.bits) && LegalHist(s'.start, s'.hist)
      && Replay(s'.start, s'.hist) == s'.all
    ensures Placed(hash, TableOf(s'), s'.all) && PendingOk(s')
    ensures var i := s.threads[t].stack[|s.threads[t].stack|-1];
      && Ready(TableOf(s')) == Ready(TableOf(s)) + {i} && i in s.pending
      && s' == s.(threads := s'.threads, buckets := Filled(hash, TableOf(s), i).buckets, pending := s'.pending)
  {
    hide Placed, PendingOk, LegalHist;
    var th := s.threads[t];
    assert ThreadOk(hash, s, t);
    var i := th.stack[|th.stack|-1];
    StackIsPending(hash, s, t);
    FillKeeps(hash, TableOf(s), s.all, i);
    FillStepPending(hash, s, t, s');
  }

  lemma StackIsPending<K(!new), V(!new)>(hash: K -> nat, s: State<K, V>, t: nat)
    requires Inv(hash, s) && Runs(s, t)
    ensures forall i :: i in s.threads[t].stack ==> i in s.pending
  {
    forall i | i in s.threads[t].stack ensures i in s.pending { assert Stacked(s, t, i); }
  }

  lemma FillTableStep<K(!new), V(!new)>(hash: K -> nat, s: State<K, V>, t: nat, s': State<K, V>)
    requires Inv(hash, s) && FillStep(hash, s, t, s')
    ensures TableStep(hash, s, t, s')
  {
    hide Placed, PendingOk, LegalHist, Inv, ThreadOk, Ready;
    var th := s.threads[t];
    Own(hash, s, t);
    FillPlaced(hash, s, t, s');
    var i := th.stack[|th.stack|-1];
    assert Writes(th, i);
    if !th.w { NothingMatches(hash, s.buckets[th.cur].nodes, i); }
    forall key | !Writes(th, HomeOf(hash, TableOf(s), key)) && !Reads(th, HomeOf(hash, TableOf(s), key))
      ensures HomeOf(hash, TableOf(s'), key) == HomeOf(hash, TableOf(s), key)
    {
      ParentIsReady(hash, s, t);
      PendingNotReady(TableOf(s), i);
      HomeUnderFill(Ready(TableOf(s)), s.bits, i, hash(key));
    }
  }

  lemma PendingNotReady<K, V>(t: Table<K, V>, i: nat)
    requires i in t.pending
    ensures i !in Ready(t)
  {
  }

  lemma ParentIsReady<K(!new), V(!new)>(hash: K -> nat, s: State<K, V>, t: nat)
    requires Inv(hash, s) && Runs(s, t) && s.threads[t].pc.Held?
    ensures s.threads[t].cur in Ready(TableOf(s))
  {
    assert ThreadOk(hash, s, t);
  }

  lemma PathShrinks<K, V>(hash: K -> nat, th: Thread<K, V>)
    requires th.Running? && PathOk(hash, th) && th.stack != []
    ensures var k := |th.stack| - 1;
      var th' := th.(stack := th.stack[..k], cur := th.stack[k], w := true);
      PathOk(hash, th') && (th'.stack == [] ==> th'.cur == hash(KeyOf(th.op)) % Pow2(th.j))
  {
  }

  lemma FillLocks<K(!new), V(!new)>(hash: K -> nat, s: State<K, V>, t: nat, s': State<K, V>)
    requires FillStep(hash, s, t, s')
    ensures OnlyThread(s, t, s') && LocksOk(s, t, s')
  {
    hide Filled;
    var th, k := s.threads[t], |s.threads[t].stack| - 1;
    assert th.stack == th.stack[..k] + [th.stack[k]];
  }

  lemma FillThread<K(!new), V(!new)>(hash: K -> nat, s: State<K, V>, t: nat, s': State<K, V>)
    requires Inv(hash, s) && FillStep(hash, s, t, s')
    ensures ThreadOk(hash, s', t)
    ensures s'.enabling == s.enabling && (s.enabling == Some(t) ==> Runs(s', t))
  {
    hide Inv, Ready, PendingOk, Placed, Filled, LegalHist, Exclusive, PathOk;
    var th, k := s.threads[t], |s.threads[t].stack| - 1;
    Own(hash, s, t);
    FillPlaced(hash, s, t, s');
    PathShrinks(hash, th);
    var th' := s'.threads[t];
    assert th' == th.(stack := th.stack[..k], cur := th.stack[k], w := true);
    assert PathOk(hash, th');
    assert th'.cur in Ready(TableOf(s'));
  }

  lemma FillKeepsInv<K(!new), V(!new)>(hash: K -> nat, s: State<K, V>, t: nat, s': State<K, V>)
    requires Inv(hash, s) && FillStep(hash, s, t, s')
    ensures Inv(hash, s')
  {
    hide Inv, Ready, PendingOk, Placed, TableStep, Filled, LegalHist, ThreadOk, LocksOk, FillStep;
    FillPlaced(hash, s, t, s');
    FillTableStep(hash, s, t, s');
    FillLocks(hash, s, t, s');
    FillThread(hash, s, t, s');
    TableChanged(hash, s, t, s');
  }

  lemma LinkPlaced<K(!new), V(!new)>(hash: K -> nat, s: State<K, V>, t: nat, s': State<K, V>)
    requires Inv(hash, s) && LinkStep(s, t, s')
    ensures s'.bits == s.bits && (s.bits == 1 || FIRST_BLOCK <= s.bits) && LegalHist(s'.start, s'.hist)
      && Replay(s'.start, s'.hist) == s'.all
    ensures Placed(hash, TableOf(s'), s'.all) && PendingOk(s') && Ready(TableOf(s')) == Ready(TableOf(s))
    ensures s'.threads[t].res.Some?
  {
    hide Placed, LegalHist, Ready;
    var th := s.threads[t];
    Own(hash, s, t);
    var n := Node(s.nextId, th.op.key, th.op.value);
    MissingAnswers(hash, s, th);
    InsertKeeps(hash, TableOf(s), s.all, th.cur, n);
    HistSnoc(s.start, s.hist, Event(t, th.op, Inserted(n)));
    SameStackPending(s, t, s');
    assert TableOf(s') == WithFront(TableOf(s), th.cur, n);
  }

  lemma LinkKeepsInv<K(!new), V(!new)>(hash: K -> nat, s: State<K, V>, t: nat, s': State<K, V>)
    requires Inv(hash, s) && LinkStep(s, t, s')
    ensures Inv(hash, s')
  {
    hide Inv, Ready, PendingOk, Placed, LegalHist, HomeOf;
    Own(hash, s, t);
    LinkPlaced(hash, s, t, s');
    SameHomes(hash, TableOf(s), TableOf(s'));
    assert Writes(s.threads[t], s.threads[t].cur);
    TableChanged(hash, s, t, s');
  }

  lemma SameHomes<K(!new), V(!new)>(hash: K -> nat, t: Table<K, V>, t': Table<K, V>)
    requires 1 <= t.k == t'.k && Ready(t') == Ready(t)
    ensures forall key :: HomeOf(hash, t', key) == HomeOf(hash, t, key)
  {
  }

  lemma UnlinkPlaced<K(!new), V(!new)>(hash: K -> nat, s: State<K, V>, t: nat, s': State<K, V>, p: nat)
    requires Inv(hash, s) && UnlinkStep(s, t, s', p)
    ensures s'.bits == s.bits && (s.bits == 1 || FIRST_BLOCK <= s.bits) && LegalHist(s'.start, s'.hist)
      && Replay(s'.start, s'.hist) == s'.all
    ensures Placed(hash, TableOf(s'), s'.all) && PendingOk(s') && Ready(TableOf(s')) == Ready(TableOf(s))
    ensures s'.threads[t].res.Some?
  {
    hide Placed, LegalHist, Ready;
    var th := s.threads[t];
    Own(hash, s, t);
    RemoveKeeps(hash, TableOf(s), s.all, th.cur, p);
    FoundIsStored(hash, TableOf(s), s.all, th.cur, th.node.value);
    HistSnoc(s.start, s.hist, Event(t, th.op, Erased(th.node.value)));
    SameStackPending(s, t, s');
    assert TableOf(s') == Without(TableOf(s), th.cur, p);
  }

  lemma UnlinkKeepsInv<K(!new), V(!new)>(hash: K -> nat, s: State<K, V>, t: nat, s': State<K, V>, p: nat)
    requires Inv(hash, s) && UnlinkStep(s, t, s', p)
    ensures Inv(hash, s')
  {
    hide Inv, Ready, PendingOk, Placed, LegalHist, HomeOf;
    Own(hash, s, t);
    UnlinkPlaced(hash, s, t, s', p);
    SameHomes(hash, TableOf(s), TableOf(s'));
    assert Writes(s.threads[t], s.threads[t].cur);
    TableChanged(hash, s, t, s');
  }

  lemma GrowKeepsInv<K(!new), V(!new)>(hash: K -> nat, s: State<K, V>, t: nat, s': State<K, V>)
    requires Inv(hash, s) && GrowStep(s, t, s')
    ensures Inv(hash, s')
  {
    hide Ready, Placed, LegalHist, HomeOf;
    Own(hash, s, t);
    assert TableOf(s') == TableOf(s);
    SameStackPending(s, t, s');
    TableChanged(hash, s, t, s');
  }

  lemma EnablePlaced<K(!new), V(!new)>(hash: K -> nat, s: State<K, V>, t: nat, s': State<K, V>)
    requires Inv(hash, s) && EnableStep(s, t, s')
    ensures 1 <= s.bits < s'.bits && FIRST_BLOCK <= s'.bits && LegalHist(s'.start, s'.hist)
      && Replay(s'.start, s'.hist) == s'.all
    ensures Placed(hash, TableOf(s'), s'.all) && PendingOk(s') && Ready(TableOf(s')) == Ready(TableOf(s))
    ensures forall key :: HomeOf(hash, TableOf(s'), key) == HomeOf(hash, TableOf(s), key)
  {
    hide Placed, LegalHist, Ready;
    GrowKeeps(hash, TableOf(s), s.all, NextBits(s.bits));
    SameStackPending(s, t, s');
    assert TableOf(s') == Grown(TableOf(s), NextBits(s.bits));
    EnableHomes(hash, s, t, s');
  }

  lemma EnableHomes<K(!new), V(!new)>(hash: K -> nat, s: State<K, V>, t: nat, s': State<K, V>)
    requires Inv(hash, s) && EnableStep(s, t, s') && Ready(TableOf(s')) == Ready(TableOf(s))
    ensures forall key :: HomeOf(hash, TableOf(s'), key) == HomeOf(hash, TableOf(s), key)
  {
    forall key ensures HomeOf(hash, TableOf(s'), key) == HomeOf(hash, TableOf(s), key) {
      HomeUnderGrowth(Ready(TableOf(s)), s.bits, s'.bits, hash(key));
    }
  }

  lemma EnableKeepsInv<K(!new), V(!new)>(hash: K -> nat, s: State<K, V>, t: nat, s': State<K, V>)
    requires Inv(hash, s) && EnableStep(s, t, s')
    ensures Inv(hash, s')
  {
    hide Inv, Ready, PendingOk, Placed, LegalHist, HomeOf;
    Own(hash, s, t);
    EnablePlaced(hash, s, t, s');
    TableChanged(hash, s, t, s');
  }

  // ----- Every run -------------------------------------------------------------------

  lemma InitInv<K(!new), V(!new)>(hash: K -> nat, s: State<K, V>)
    requires Init(hash, s)
    ensures Inv(hash, s)
  {
    hide Placed;
    assert 1 <= s.bits by { PlacedBits(hash, TableOf(s), s.all); }
  }

  lemma PlacedBits<K(!new), V(!new)>(hash: K -> nat, t: Table<K, V>, all: set<Node<K, V>>)
    requires Placed(hash, t, all)
    ensures 1 <= t.floor <= t.k && |t.buckets| == Pow2(t.k)
  {
  }

  lemma NextKeeps<K(!new), V(!new)>(hash: K -> nat, s: State<K, V>, t: nat, s': State<K, V>)
    requires Inv(hash, s) && Next(hash, s, t, s')
    ensures Inv(hash, s')
  {
    hide Inv, Start, ProbeStep, TryStep, MarkStep, RecheckedStep, BlockStep, ReWaitStep, GiveUpStep, MoveUpgradeStep;
    hide FillStep, BusyStep, NotFoundStep, RaceStep, FoundStep, AimStep, RaceChildStep, UnlinkStep, CountStep;
    hide LinkStep, GrowStep, ShrinkStep, LeaveStep, EnableStep, ReturnStep;
    if op :| Start(hash, s, t, s', op) { StartKeeps(hash, s, t, s', op); }
    else if ProbeStep(s, t, s') { ProbeKeeps(hash, s, t, s'); }
    else if TryStep(s, t, s') { TryKeeps(hash, s, t, s'); }
    else if MarkStep(s, t, s') { MarkKeepsInv(hash, s, t, s'); }
    else if RecheckedStep(s, t, s') { RecheckedKeeps(hash, s, t, s'); }
    else if BlockStep(s, t, s') { BlockKeeps(hash, s, t, s'); }
    else if ReWaitStep(s, t, s') { ReWaitKeeps(hash, s, t, s'); }
    else if GiveUpStep(s, t, s') { GiveUpKeeps(hash, s, t, s'); }
    else if MoveUpgradeStep(s, t, s') { MoveUpgradeKeeps(hash, s, t, s'); }
    else if FillStep(hash, s, t, s') { FillKeepsInv(hash, s, t, s'); }
    else if BusyStep(hash, s, t, s') { BusyKeeps(hash, s, t, s'); }
    else if NotFoundStep(s, t, s') { NotFoundKeeps(hash, s, t, s'); }
    else if RaceStep(hash, s, t, s') { RaceKeeps(hash, s, t, s'); }
    else if n :| FoundStep(s, t, s', n) { FoundKeeps(hash, s, t, s', n); }
    else if n :| AimStep(s, t, s', n) { AimKeeps(hash, s, t, s', n); }
    else if l: nat :| RaceChildStep(hash, s, t, s', l) { RaceChildKeeps(hash, s, t, s', l); }
    else if p: nat :| UnlinkStep(s, t, s', p) { UnlinkKeepsInv(hash, s, t, s', p); }
    else if CountStep(s, t, s') { CountKeeps(hash, s, t, s'); }
    else if LinkStep(s, t, s') { LinkKeepsInv(hash, s, t, s'); }
    else if GrowStep(s, t, s') { GrowKeepsInv(hash, s, t, s'); }
    else if ShrinkStep(s, t, s') { ShrinkKeeps(hash, s, t, s'); }
    else if LeaveStep(s, t, s') { LeaveKeeps(hash, s, t, s'); }
    else if EnableStep(s, t, s') { EnableKeepsInv(hash, s, t, s'); }
    else { ReturnKeeps(hash, s, t, s'); }
  }

  ghost predicate Steps<K(!new), V(!new)>(hash: K -> nat, s: State<K, V>, s': State<K, V>) {
    exists t: nat :: Next(hash, s, t, s')
  }

  /** The states of a run of any number of threads from the empty table. */
  ghost predicate Run<K(!new), V(!new)>(hash: K -> nat, run: seq<State<K, V>>) {
    && run != [] && Init(hash, run[0])
    && forall i :: 0 <= i < |run| - 1 ==> Steps(hash, run[i], run[i+1])
  }

  /** The invariant holds in every state of every run. */
  lemma {:induction false} RunInv<K(!new), V(!new)>(hash: K -> nat, run: seq<State<K, V>>, i: nat)
    requires Run(hash, run) && i < |run|
    ensures Inv(hash, run[i])
  {
    hide Next, Inv, Init;
    if i == 0 {
      InitInv(hash, run[0]);
    } else {
      RunInv(hash, run, i - 1);
      assert Steps(hash, run[i-1], run[i-1+1]);
      var t: nat :| Next(hash, run[i-1], t, run[i]);
      NextKeeps(hash, run[i-1], t, run[i]);
    }
  }

  /** Stale-mask safety in every run: when a thread is about to be told that no mask race
      matters, the key is in the map exactly when it is in the chain the thread holds. */
  lemma RunStaleMask<K(!new), V(!new)>(hash: K -> nat, run: seq<State<K, V>>, i: nat, t: nat)
    requires Run(hash, run) && i < |run| && Runs(run[i], t)
    requires run[i].threads[t].pc.Race? || run[i].threads[t].pc.RaceChild?
    requires NoMaskRace(TableOf(run[i]), hash(KeyOf(run[i].threads[t].op)), run[i].threads[t].j)
    ensures run[i].threads[t].cur in Ready(TableOf(run[i]))
    ensures HasKey(run[i].all, KeyOf(run[i].threads[t].op))
      <==> exists n :: n in run[i].buckets[run[i].threads[t].cur].nodes && n.key == KeyOf(run[i].threads[t].op)
  {
    RunInv(hash, run, i);
    NoRaceAtHome(hash, run[i], t);
    assert ThreadOk(hash, run[i], t);
    HomeDecides(hash, TableOf(run[i]), run[i].all, KeyOf(run[i].threads[t].op));
  }

  /** Every thread that holds a bucket to work on finds its marker cleared. */
  lemma RunHeldIsFilled<K(!new), V(!new)>(hash: K -> nat, run: seq<State<K, V>>, i: nat, t: nat)
    requires Run(hash, run) && i < |run| && Runs(run[i], t) && run[i].threads[t].pc.Held?
    ensures run[i].threads[t].cur < |run[i].buckets| && run[i].buckets[run[i].threads[t].cur].Chain?
  {
    RunInv(hash, run, i);
    Own(hash, run[i], t);
  }

  /** A step within a call that does not take effect. */
  ghost predicate Quiet<K(!new), V(!new)>(s: State<K, V>, t: nat, s': State<K, V>) {
    && OnlyThread(s, t, s') && Runs(s, t) && Runs(s', t) && s'.hist == s.hist && s'.all == s.all
    && s'.threads[t].op == s.threads[t].op && s'.threads[t].res == s.threads[t].res
  }

  /** The step by which a call takes effect. */
  ghost predicate Takes<K(!new), V(!new)>(s: State<K, V>, t: nat, s': State<K, V>) {
    && OnlyThread(s, t, s') && Runs(s, t) && Runs(s', t) && s'.threads[t].op == s.threads[t].op
    && s.threads[t].res.None? && s'.threads[t].res.Some?
    && s'.hist == s.hist + [Event(t, s.threads[t].op, s'.threads[t].res.value)]
  }

  ghost predicate Begins<K(!new), V(!new)>(s: State<K, V>, t: nat, s': State<K, V>) {
    && OnlyThread(s, t, s') && t < |s.threads| && !Runs(s, t) && Runs(s', t) && s'.threads[t].res.None?
    && s'.hist == s.hist && s'.all == s.all
  }

  ghost predicate Ends<K(!new), V(!new)>(s: State<K, V>, t: nat, s': State<K, V>) {
    && OnlyThread(s, t, s') && Runs(s, t) && !Runs(s', t) && s.threads[t].res.Some?
    && s'.hist == s.hist && s'.all == s.all
  }

  lemma QuietAcquire<K(!new), V(!new)>(hash: K -> nat, s: State<K, V>, t: nat, s': State<K, V>)
    requires ProbeStep(s, t, s') || TryStep(s, t, s') || MarkStep(s, t, s') || RecheckedStep(s, t, s')
      || BlockStep(s, t, s') || ReWaitStep(s, t, s') || GiveUpStep(s, t, s') || MoveUpgradeStep(s, t, s')
      || FillStep(hash, s, t, s')
    ensures Quiet(s, t, s')
  {
  }

  lemma QuietSearch<K(!new), V(!new)>(hash: K -> nat, s: State<K, V>, t: nat, s': State<K, V>)
    requires BusyStep(hash, s, t, s') || NotFoundStep(s, t, s') || (exists n :: AimStep(s, t, s', n))
      || CountStep(s, t, s') || GrowStep(s, t, s') || ShrinkStep(s, t, s') || LeaveStep(s, t, s')
      || EnableStep(s, t, s')
    ensures Quiet(s, t, s')
  {
  }

  lemma TakingSteps<K(!new), V(!new)>(hash: K -> nat, s: State<K, V>, t: nat, s': State<K, V>)
    requires Inv(hash, s)
    requires (exists n :: FoundStep(s, t, s', n)) || LinkStep(s, t, s') || (exists p: nat :: UnlinkStep(s, t, s', p))
    ensures Takes(s, t, s')
  {
    hide Inv;
    Own(hash, s, t);
  }

  lemma RacingSteps<K(!new), V(!new)>(hash: K -> nat, s: State<K, V>, t: nat, s': State<K, V>)
    requires Inv(hash, s)
    requires RaceStep(hash, s, t, s') || (exists l: nat :: RaceChildStep(hash, s, t, s', l))
    ensures Quiet(s, t, s') || Takes(s, t, s')
  {
    hide Inv;
    Own(hash, s, t);
  }

  lemma EndingSteps<K(!new), V(!new)>(hash: K -> nat, s: State<K, V>, t: nat, s': State<K, V>)
    requires Inv(hash, s) && ReturnStep(s, t, s')
    ensures Ends(s, t, s')
  {
    hide Inv;
    Own(hash, s, t);
  }

  /** A call begins without an answer, takes effect in exactly one step, which appends its
      answer to the history, and ends only after that: the history is a linearization. */
  lemma EffectOnce<K(!new), V(!new)>(hash: K -> nat, s: State<K, V>, t: nat, s': State<K, V>)
    requires Inv(hash, s) && Next(hash, s, t, s')
    ensures Begins(s, t, s') || Quiet(s, t, s') || Takes(s, t, s') || Ends(s, t, s')
  {
    hide Inv, ProbeStep, TryStep, MarkStep, RecheckedStep, BlockStep, ReWaitStep, GiveUpStep, MoveUpgradeStep;
    hide FillStep, BusyStep, NotFoundStep, RaceStep, FoundStep, AimStep, RaceChildStep, UnlinkStep, CountStep;
    hide LinkStep, GrowStep, ShrinkStep, LeaveStep, EnableStep, ReturnStep, Quiet, Takes, Ends;
    if op :| Start(hash, s, t, s', op) {
      assert Begins(s, t, s');
    } else if ReturnStep(s, t, s') {
      EndingSteps(hash, s, t, s');
    } else if RaceStep(hash, s, t, s') || (exists l: nat :: RaceChildStep(hash, s, t, s', l)) {
      RacingSteps(hash, s, t, s');
    } else if (exists n :: FoundStep(s, t, s', n)) || LinkStep(s, t, s') || (exists p: nat :: UnlinkStep(s, t, s', p)) {
      TakingSteps(hash, s, t, s');
    } else if BusyStep(hash, s, t, s') || NotFoundStep(s, t, s') || (exists n :: AimStep(s, t, s', n))
      || CountStep(s, t, s') || GrowStep(s, t, s') || ShrinkStep(s, t, s') || LeaveStep(s, t, s')
      || EnableStep(s, t, s') {
      QuietSearch(hash, s, t, s');
    } else {
      QuietAcquire(hash, s, t, s');
    }
  }

  // ----- Growth ----------------------------------------------------------------------

  ghost predicate SameMask<K, V>(s: State<K, V>, s': State<K, V>) {
    s'.bits == s.bits && s'.enabling == s.enabling && s'.start == s.start && s'.floor == s.floor
  }

  ghost predicate MaskStep<K, V>(s: State<K, V>, t: nat, s': State<K, V>) {
    && s'.start == s.start && s'.floor == s.floor
    && (|| (s'.bits == s.bits && s'.enabling == s.enabling)
        || (s'.bits == s.bits && s.enabling == None && s'.enabling == Some(t))
        || (s'.bits == NextBits(s.bits) && s.enabling == Some(t) && s'.enabling == None))
  }

  lemma AcquireMask<K(!new), V(!new)>(hash: K -> nat, s: State<K, V>, t: nat, s': State<K, V>)
    requires ProbeStep(s, t, s') || TryStep(s, t, s') || MarkStep(s, t, s') || RecheckedStep(s, t, s')
      || BlockStep(s, t, s') || ReWaitStep(s, t, s') || GiveUpStep(s, t, s') || MoveUpgradeStep(s, t, s')
      || FillStep(hash, s, t, s')
    ensures SameMask(s, s')
  {
  }

  lemma SearchMask<K(!new), V(!new)>(hash: K -> nat, s: State<K, V>, t: nat, s': State<K, V>)
    requires BusyStep(hash, s, t, s') || NotFoundStep(s, t, s') || (exists n :: AimStep(s, t, s', n))
      || CountStep(s, t, s') || ShrinkStep(s, t, s') || LeaveStep(s, t, s') || ReturnStep(s, t, s')
      || (exists n :: FoundStep(s, t, s', n)) || LinkStep(s, t, s') || (exists p: nat :: UnlinkStep(s, t, s', p))
      || RaceStep(hash, s, t, s') || (exists l: nat :: RaceChildStep(hash, s, t, s', l))
      || (exists op :: Start(hash, s, t, s', op))
    ensures SameMask(s, s')
  {
  }

  lemma GrowingSteps<K(!new), V(!new)>(hash: K -> nat, s: State<K, V>, t: nat, s': State<K, V>)
    requires Inv(hash, s) && (GrowStep(s, t, s') || EnableStep(s, t, s'))
    ensures MaskStep(s, t, s')
  {
    hide Inv;
    Own(hash, s, t);
  }

  /** The mask is one less than a power of two and never shrinks.  Only the one thread that
      won the CAS on the next segment pointer publishes a larger mask, and it does so once. */
  lemma MaskGrows<K(!new), V(!new)>(hash: K -> nat, s: State<K, V>, t: nat, s': State<K, V>)
    requires Inv(hash, s) && Next(hash, s, t, s')
    ensures MaskStep(s, t, s') && s.bits <= s'.bits
    ensures |s.buckets| == Pow2(s.bits) && |s'.buckets| == Pow2(s'.bits)
  {
    hide Inv, ProbeStep, TryStep, MarkStep, RecheckedStep, BlockStep, ReWaitStep, GiveUpStep, MoveUpgradeStep;
    hide FillStep, BusyStep, NotFoundStep, RaceStep, FoundStep, AimStep, RaceChildStep, UnlinkStep, CountStep;
    hide LinkStep, GrowStep, ShrinkStep, LeaveStep, EnableStep, ReturnStep, Start;
    NextKeeps(hash, s, t, s');
    BucketsFitMask(hash, s);
    BucketsFitMask(hash, s');
    if GrowStep(s, t, s') || EnableStep(s, t, s') {
      GrowingSteps(hash, s, t, s');
    } else if ProbeStep(s, t, s') || TryStep(s, t, s') || MarkStep(s, t, s') || RecheckedStep(s, t, s')
      || BlockStep(s, t, s') || ReWaitStep(s, t, s') || GiveUpStep(s, t, s') || MoveUpgradeStep(s, t, s')
      || FillStep(hash, s, t, s') {
      AcquireMask(hash, s, t, s');
    } else {
      SearchMask(hash, s, t, s');
    }
  }

  lemma BucketsFitMask<K(!new), V(!new)>(hash: K -> nat, s: State<K, V>)
    requires Inv(hash, s)
    ensures |s.buckets| == Pow2(s.bits)
  {
  }

  // ----- Linearizability -------------------------------------------------------------

  lemma {:induction false} RunStart<K(!new), V(!new)>(hash: K -> nat, run: seq<State<K, V>>, i: nat)
    requires Run(hash, run) && i < |run|
    ensures run[i].start == run[0].all && run[i].floor == run[0].floor
  {
    hide Next, Inv;
    if i > 0 {
      RunStart(hash, run, i - 1);
      RunInv(hash, run, i - 1);
      assert Steps(hash, run[i-1], run[i-1+1]);
      var t: nat :| Next(hash, run[i-1], t, run[i]);
      MaskGrows(hash, run[i-1], t, run[i]);
    }
  }

  /** From any table that was at rest, the history of every run is a run of the sequential map
      that begins with the nodes stored then and ends in those stored now. */
  lemma RunLinearizable<K(!new), V(!new)>(hash: K -> nat, run: seq<State<K, V>>, i: nat)
    requires Run(hash, run) && i < |run|
    ensures LegalHist(run[0].all, run[i].hist) && Replay(run[0].all, run[i].hist) == run[i].all
    ensures UniqueKeys(run[i].all) && Placed(hash, TableOf(run[i]), run[i].all)
  {
    RunInv(hash, run, i);
    RunStart(hash, run, i);
  }

  // ----- The size counter ------------------------------------------------------------

  /** A thread that has counted its node but not linked it, or unlinked but not counted. */
  ghost function Weight<K, V>(th: Thread<K, V>): int {
    if th.Running? && (th.pc.Link? || th.pc.Shrink?) then 1 else 0
  }

  ghost function Weights<K, V>(ths: seq<Thread<K, V>>): int {
    if ths == [] then 0 else Weights(ths[..|ths|-1]) + Weight(ths[|ths|-1])
  }

  lemma {:induction false} WeightsPut<K, V>(ths: seq<Thread<K, V>>, t: nat, th: Thread<K, V>)
    requires t < |ths|
    ensures Weights(ths[t := th]) == Weights(ths) - Weight(ths[t]) + Weight(th)
  {
    var k := |ths| - 1;
    if t < k {
      WeightsPut(ths[..k], t, th);
      assert ths[t := th][..k] == ths[..k][t := th];
    } else {
      assert ths[t := th][..k] == ths[..k];
    }
  }

  /** my_size is the number of stored nodes, up to the calls that are between the two updates. */
  ghost predicate SizeOk<K(!new), V(!new)>(s: State<K, V>) {
    s.size == |s.all| + Weights(s.threads)
  }

  ghost predicate Balanced<K(!new), V(!new)>(s: State<K, V>, t: nat, s': State<K, V>) {
    && t < |s.threads| && |s'.threads| == |s.threads| && s'.threads == s.threads[t := s'.threads[t]]
    && s'.size - |s'.all| - Weight(s'.threads[t]) == s.size - |s.all| - Weight(s.threads[t])
  }

  lemma AcquireBalance<K(!new), V(!new)>(hash: K -> nat, s: State<K, V>, t: nat, s': State<K, V>)
    requires ProbeStep(s, t, s') || TryStep(s, t, s') || MarkStep(s, t, s') || RecheckedStep(s, t, s')
      || BlockStep(s, t, s') || ReWaitStep(s, t, s') || GiveUpStep(s, t, s') || MoveUpgradeStep(s, t, s')
      || FillStep(hash, s, t, s')
    ensures Balanced(s, t, s')
  {
  }

  lemma SearchBalance<K(!new), V(!new)>(hash: K -> nat, s: State<K, V>, t: nat, s': State<K, V>)
    requires BusyStep(hash, s, t, s') || NotFoundStep(s, t, s') || (exists n :: AimStep(s, t, s', n))
      || CountStep(s, t, s') || GrowStep(s, t, s') || ShrinkStep(s, t, s') || LeaveStep(s, t, s')
      || EnableStep(s, t, s')
      || (exists n :: FoundStep(s, t, s', n))
    ensures Balanced(s, t, s')
  {
  }

  lemma OtherBalance<K(!new), V(!new)>(hash: K -> nat, s: State<K, V>, t: nat, s': State<K, V>)
    requires RaceStep(hash, s, t, s') || (exists l: nat :: RaceChildStep(hash, s, t, s', l))
      || (exists op :: Start(hash, s, t, s', op)) || ReturnStep(s, t, s')
    ensures Balanced(s, t, s')
  {
  }

  lemma LinkBalance<K(!new), V(!new)>(hash: K -> nat, s: State<K, V>, t: nat, s': State<K, V>)
    requires Inv(hash, s) && (LinkStep(s, t, s') || (exists p: nat :: UnlinkStep(s, t, s', p)))
    ensures Balanced(s, t, s')
  {
    hide Inv, Ready;
    var th := s.threads[t];
    Own(hash, s, t);
    if LinkStep(s, t, s') {
      NewIsNew(hash, s, th);
      var n := Node(s.nextId, th.op.key, th.op.value);
      assert n !in s.all;
    } else {
      StoredInAll(hash, s, th.cur, th.node.value);
    }
  }

  lemma NewIsNew<K(!new), V(!new)>(hash: K -> nat, s: State<K, V>, th: Thread<K, V>)
    requires Inv(hash, s) && th.Running? && th.cur in Ready(TableOf(s)) && th.cur < |s.buckets|
    requires NoTarget(s, th) && AtHome(hash, s, th) && th.op.Insert?
    ensures forall n :: n in s.all ==> n.key != th.op.key
  {
    MissingAnswers(hash, s, th);
  }

  lemma StoredInAll<K(!new), V(!new)>(hash: K -> nat, s: State<K, V>, b: nat, n: Node<K, V>)
    requires Inv(hash, s) && b in Ready(TableOf(s)) && n in s.buckets[b].nodes
    ensures n in s.all
  {
  }

  lemma NextKeepsSize<K(!new), V(!new)>(hash: K -> nat, s: State<K, V>, t: nat, s': State<K, V>)
    requires Inv(hash, s) && Next(hash, s, t, s') && SizeOk(s)
    ensures SizeOk(s')
  {
    hide Inv, ProbeStep, TryStep, MarkStep, RecheckedStep, BlockStep, ReWaitStep, GiveUpStep, MoveUpgradeStep;
    hide FillStep, BusyStep, NotFoundStep, RaceStep, FoundStep, AimStep, RaceChildStep, UnlinkStep, CountStep;
    hide LinkStep, GrowStep, ShrinkStep, LeaveStep, EnableStep, ReturnStep, Start, Weights;
    if ProbeStep(s, t, s') || TryStep(s, t, s') || MarkStep(s, t, s') || RecheckedStep(s, t, s')
      || BlockStep(s, t, s') || ReWaitStep(s, t, s') || GiveUpStep(s, t, s') || MoveUpgradeStep(s, t, s')
      || FillStep(hash, s, t, s') {
      AcquireBalance(hash, s, t, s');
    } else if LinkStep(s, t, s') || (exists p: nat :: UnlinkStep(s, t, s', p)) {
      LinkBalance(hash, s, t, s');
    } else if RaceStep(hash, s, t, s') || (exists l: nat :: RaceChildStep(hash, s, t, s', l))
      || (exists op :: Start(hash, s, t, s', op)) || ReturnStep(s, t, s') {
      OtherBalance(hash, s, t, s');
    } else {
      SearchBalance(hash, s, t, s');
    }
    WeightsPut(s.threads, t, s'.threads[t]);
  }

  lemma {:induction false} RestingWeighNothing<K(!new), V(!new)>(ths: seq<Thread<K, V>>)
    requires forall t :: 0 <= t < |ths| ==> ths[t] == Resting
    ensures Weights(ths) == 0
  {
    if ths != [] { RestingWeighNothing(ths[..|ths|-1]); }
  }

  lemma {:induction false} RunSizeOk<K(!new), V(!new)>(hash: K -> nat, run: seq<State<K, V>>, i: nat)
    requires Run(hash, run) && i < |run|
    ensures SizeOk(run[i])
  {
    hide Next, Inv;
    if i == 0 {
      RestingWeighNothing(run[0].threads);
    } else {
      RunSizeOk(hash, run, i - 1);
      RunInv(hash, run, i - 1);
      assert Steps(hash, run[i-1], run[i-1+1]);
      var t: nat :| Next(hash, run[i-1], t, run[i]);
      NextKeepsSize(hash, run[i-1], t, run[i]);
    }
  }

  /** Whenever no call is running, my_size is the number of keys. */
  lemma RunSizeAtRest<K(!new), V(!new)>(hash: K -> nat, run: seq<State<K, V>>, i: nat)
    requires Run(hash, run) && i < |run|
    requires forall t :: 0 <= t < |run[i].threads| ==> run[i].threads[t] == Resting
    ensures run[i].size == |run[i].all|
  {
    RunSizeOk(hash, run, i);
    RestingWeighNothing(run[i].threads);
  }
}
