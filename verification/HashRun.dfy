/** Whole runs of the table of concurrent_hash_map.h against a plain map.

    A run is any sequence of calls.  Each call works from any mask that was current at some
    earlier moment since the last rehash(), so growth and lazy rehashing interleave freely. */
module HashRun {
  import opened HashIndex
  import opened HashPlacement
  import opened HashTable
  import HashRehash
  import HashSteps
  import opened Options

  /** EraseHeld erases through the accessor that an earlier call left, given by its number. */
  datatype Call<K, V> =
    | Find(key: K)
    | Count(key: K)
    | Insert(key: K, value: V)
    | EraseKey(key: K)
    | EraseHeld(call: nat)
    | Rehash(sz: nat)

  datatype Answer<K, V> = Answer(ret: bool, node: Option<Node<K, V>>)

  // ----- The plain map ---------------------------------------------------------------

  /** A map whose entries carry the number of the insertion that made them, and the answers
      given so far. */
  datatype Model<K(==), V> = Model(entries: map<K, Node<K, V>>, inserted: nat, answers: seq<Answer<K, V>>)

  ghost function LookUp<K, V>(s: Model<K, V>, key: K): Answer<K, V> {
    if key in s.entries then Answer(true, Some(s.entries[key])) else Answer(false, None)
  }

  ghost predicate HeldBy<K, V>(s: Model<K, V>, call: nat) {
    call < |s.answers| && s.answers[call].node.Some?
  }

  ghost predicate StillThere<K, V>(s: Model<K, V>, n: Node<K, V>) {
    n.key in s.entries && s.entries[n.key] == n
  }

  /** The answer of a call and the entries after it. */
  ghost function Answered<K, V>(s: Model<K, V>, c: Call<K, V>): Answer<K, V> {
    match c
    case Find(key) => LookUp(s, key)
    case Count(key) => Answer(key in s.entries, None)
    case Insert(key, value) =>
      if key in s.entries then Answer(false, Some(s.entries[key])) else Answer(true, Some(Node(s.inserted, key, value)))
    case EraseKey(key) => Answer(key in s.entries, None)
    case EraseHeld(call) => Answer(HeldBy(s, call) && StillThere(s, s.answers[call].node.value), None)
    case Rehash(_) => Answer(true, None)
  }

  ghost function After<K, V>(s: Model<K, V>, c: Call<K, V>): map<K, Node<K, V>> {
    if !Answered(s, c).ret then s.entries
    else match c
      case Insert(key, value) => s.entries[key := Node(s.inserted, key, value)]
      case EraseKey(key) => s.entries - {key}
      case EraseHeld(call) => s.entries - {s.answers[call].node.value.key}
      case _ => s.entries
  }

  ghost function Apply<K, V>(s: Model<K, V>, c: Call<K, V>): Model<K, V> {
    Model(After(s, c), if c.Insert? && Answered(s, c).ret then s.inserted + 1 else s.inserted,
      s.answers + [Answered(s, c)])
  }

  ghost function ApplyAll<K, V>(calls: seq<Call<K, V>>): Model<K, V> {
    if calls == [] then Model(map[], 0, []) else Apply(ApplyAll(calls[..|calls|-1]), calls[|calls|-1])
  }

  lemma ApplyNext<K, V>(calls: seq<Call<K, V>>, i: nat)
    requires i < |calls|
    ensures ApplyAll(calls[..i+1]) == Apply(ApplyAll(calls[..i]), calls[i])
  {
    assert calls[..i+1][..i] == calls[..i];
  }

  // ----- What the table and the map have in common -----------------------------------

  ghost predicate SameEntries<K(!new), V(!new)>(all: set<Node<K, V>>, entries: map<K, Node<K, V>>) {
    forall n: Node<K, V> :: n in all <==> n.key in entries && entries[n.key] == n
  }

  ghost predicate OwnKeys<K, V>(entries: map<K, Node<K, V>>) {
    forall key :: key in entries ==> entries[key].key == key
  }

  ghost predicate AllHeldBorn<K, V>(answers: seq<Answer<K, V>>, born: seq<Node<K, V>>) {
    forall i :: 0 <= i < |answers| && answers[i].node.Some? ==>
      answers[i].node.value.id < |born| && born[answers[i].node.value.id] == answers[i].node.value
  }

  ghost predicate Agrees<K(!new), V(!new)>(all: set<Node<K, V>>, born: seq<Node<K, V>>, s: Model<K, V>) {
    && SameEntries(all, s.entries) && OwnKeys(s.entries)
    && |born| == s.inserted && AllHeldBorn(s.answers, born)
  }

  lemma AgreesOnKeys<K(!new), V(!new)>(all: set<Node<K, V>>, entries: map<K, Node<K, V>>, key: K)
    requires SameEntries(all, entries) && OwnKeys(entries) && UniqueKeys(all)
    ensures key in Contents(all) <==> key in entries
    ensures key in entries ==> entries[key] in all && Contents(all)[key] == entries[key].value
    ensures forall n :: n in all && n.key == key ==> key in entries && entries[key] == n
  {
    if key in entries { ContentsAt(all, entries[key]); }
  }

  lemma AddAgrees<K(!new), V(!new)>(all: set<Node<K, V>>, entries: map<K, Node<K, V>>, n: Node<K, V>)
    requires SameEntries(all, entries) && OwnKeys(entries) && n.key !in entries
    ensures SameEntries(all + {n}, entries[n.key := n]) && OwnKeys(entries[n.key := n])
  {
  }

  lemma DropAgrees<K(!new), V(!new)>(all: set<Node<K, V>>, all': set<Node<K, V>>, entries: map<K, Node<K, V>>, key: K)
    requires SameEntries(all, entries) && OwnKeys(entries)
    requires forall n :: n in all' <==> n in all && n.key != key
    ensures SameEntries(all', entries - {key}) && OwnKeys(entries - {key})
  {
  }

  lemma HeldStays<K, V>(answers: seq<Answer<K, V>>, born: seq<Node<K, V>>, born': seq<Node<K, V>>, a: Answer<K, V>)
    requires AllHeldBorn(answers, born) && born <= born'
    requires a.node.Some? ==> a.node.value.id < |born'| && born'[a.node.value.id] == a.node.value
    ensures AllHeldBorn(answers + [a], born')
  {
  }

  // ----- Runs ------------------------------------------------------------------------

  /** One call, working from a mask of `j` bits. */
  method Perform<K(==,!new), V(!new)>(m: ConcurrentHashMap<K, V>, c: Call<K, V>, staleMask: nat, ghost j: nat,
                                      answers: seq<Answer<K, V>>, ghost s: Model<K, V>) returns (a: Answer<K, V>)
    requires m.Valid() && m.floor <= j <= m.bits && staleMask == Pow2(j) - 1
    requires Agrees(m.all, m.born, s) && answers == s.answers
    modifies m
    ensures m.Valid() && Agrees(m.all, m.born, Apply(s, c)) && a == Answered(s, c)
    ensures !c.Rehash? ==> m.floor == old(m.floor) && old(m.mask) <= m.mask
  {
    hide Contents, SameEntries, AllHeldBorn, OwnKeys;
    m.InvGivesBits();
    match c {
      case Find(key) =>
        a := PerformFind(m, key, staleMask, j, s);
      case Count(key) =>
        var f := PerformFind(m, key, staleMask, j, s);
        a := Answer(f.ret, None);
        QuietAgrees(m.all, m.born, s, c);
      case Insert(key, value) =>
        a := PerformInsert(m, key, value, staleMask, j, s);
      case EraseKey(key) =>
        a := PerformErase(m, key, staleMask, j, s);
      case EraseHeld(call) =>
        a := PerformEraseHeld(m, call, staleMask, j, answers, s);
      case Rehash(sz) =>
        HashRehash.Rehash(m, sz);
        a := Answer(true, None);
        QuietAgrees(m.all, m.born, s, c);
    }
  }

  lemma QuietAgrees<K(!new), V(!new)>(all: set<Node<K, V>>, born: seq<Node<K, V>>, s: Model<K, V>, c: Call<K, V>)
    requires Agrees(all, born, s) && (c.Count? || c.Rehash?)
    ensures Agrees(all, born, Apply(s, c))
  {
    HeldStays(s.answers, born, born, Answered(s, c));
  }

  method PerformErase<K(==,!new), V(!new)>(m: ConcurrentHashMap<K, V>, key: K, staleMask: nat, ghost j: nat,
                                           ghost s: Model<K, V>)
    returns (a: Answer<K, V>)
    requires m.Valid() && m.floor <= j <= m.bits && staleMask == Pow2(j) - 1 && Agrees(m.all, m.born, s)
    modifies m
    ensures m.Valid() && Agrees(m.all, m.born, Apply(s, EraseKey(key))) && a == Answered(s, EraseKey(key))
    ensures m.floor == old(m.floor) && old(m.mask) <= m.mask
  {
    hide Contents, SameEntries, AllHeldBorn, OwnKeys;
    m.InvGivesBits();
    AgreesOnKeys(m.all, s.entries, key);
    var ret := m.Erase(key, staleMask, j);
    a := Answer(ret, None);
    DropAgrees(old(m.all), m.all, s.entries, key);
    if !ret { assert s.entries - {key} == s.entries; }
    HeldStays(s.answers, m.born, m.born, a);
  }

  method PerformFind<K(==,!new), V(!new)>(m: ConcurrentHashMap<K, V>, key: K, staleMask: nat, ghost j: nat,
                                          ghost s: Model<K, V>)
    returns (a: Answer<K, V>)
    requires m.Valid() && m.floor <= j <= m.bits && staleMask == Pow2(j) - 1 && Agrees(m.all, m.born, s)
    modifies m
    ensures m.Valid() && Agrees(m.all, m.born, s) && a == LookUp(s, key) && m.all == old(m.all) && m.born == old(m.born)
    ensures AllHeldBorn(s.answers + [a], m.born) && m.floor == old(m.floor) && old(m.mask) <= m.mask
  {
    hide Contents, SameEntries, AllHeldBorn, OwnKeys;
    m.InvGivesBits();
    AgreesOnKeys(m.all, s.entries, key);
    var ret, node := m.Lookup(false, key, None, staleMask, j);
    a := Answer(ret, node);
    HeldStays(s.answers, m.born, m.born, a);
  }

  method PerformInsert<K(==,!new), V(!new)>(m: ConcurrentHashMap<K, V>, key: K, value: V, staleMask: nat, ghost j: nat,
                                            ghost s: Model<K, V>)
    returns (a: Answer<K, V>)
    requires m.Valid() && m.floor <= j <= m.bits && staleMask == Pow2(j) - 1 && Agrees(m.all, m.born, s)
    modifies m
    ensures m.Valid() && Agrees(m.all, m.born, Apply(s, Insert(key, value))) && a == Answered(s, Insert(key, value))
    ensures m.floor == old(m.floor) && old(m.mask) <= m.mask
  {
    hide Contents, SameEntries, AllHeldBorn, OwnKeys;
    m.InvGivesBits();
    AgreesOnKeys(m.all, s.entries, key);
    var ret, node := m.Lookup(true, key, Some(value), staleMask, j);
    a := Answer(ret, node);
    if ret { AddAgrees(old(m.all), s.entries, node.value); }
    HeldStays(s.answers, old(m.born), m.born, a);
  }

  method PerformEraseHeld<K(==,!new), V(!new)>(m: ConcurrentHashMap<K, V>, call: nat, staleMask: nat, ghost j: nat,
                                               answers: seq<Answer<K, V>>, ghost s: Model<K, V>)
                                                 returns (a: Answer<K, V>)
    requires m.Valid() && m.floor <= j <= m.bits && staleMask == Pow2(j) - 1
    requires Agrees(m.all, m.born, s) && answers == s.answers
    modifies m
    ensures m.Valid() && Agrees(m.all, m.born, Apply(s, EraseHeld(call))) && a == Answered(s, EraseHeld(call))
    ensures m.floor == old(m.floor) && m.mask == old(m.mask)
  {
    hide Agrees, Apply, Answered, Contents;
    m.InvGivesBits();
    a := Answer(false, None);
    if call < |answers| && answers[call].node.Some? {
      HeldIsBorn(m.all, m.born, s, call);
      var ret := m.Exclude(answers[call].node.value, staleMask, j);
      a := Answer(ret, None);
      HeldErased(old(m.all), m.born, s, call);
    } else {
      NothingHeld(m.all, m.born, s, call);
    }
  }

  lemma HeldIsBorn<K(!new), V(!new)>(all: set<Node<K, V>>, born: seq<Node<K, V>>, s: Model<K, V>, call: nat)
    requires Agrees(all, born, s) && HeldBy(s, call)
    ensures var n := s.answers[call].node.value; n.id < |born| && born[n.id] == n
  {
  }

  lemma HeldErased<K(!new), V(!new)>(all: set<Node<K, V>>, born: seq<Node<K, V>>, s: Model<K, V>, call: nat)
    requires Agrees(all, born, s) && UniqueKeys(all) && HeldBy(s, call)
    ensures var n := s.answers[call].node.value;
      Answered(s, EraseHeld(call)) == Answer(n in all, None) && Agrees(all - {n}, born, Apply(s, EraseHeld(call)))
  {
    hide SameEntries, OwnKeys;
    var n := s.answers[call].node.value;
    InEntries(all, s, n);
    if n in all {
      DropAgrees(all, all - {n}, s.entries, n.key);
    } else {
      assert all - {n} == all;
    }
    HeldStays(s.answers, born, born, Answer(n in all, None));
  }

  lemma NothingHeld<K(!new), V(!new)>(all: set<Node<K, V>>, born: seq<Node<K, V>>, s: Model<K, V>, call: nat)
    requires Agrees(all, born, s) && !HeldBy(s, call)
    ensures Answered(s, EraseHeld(call)) == Answer(false, None) && Agrees(all, born, Apply(s, EraseHeld(call)))
  {
    HeldStays(s.answers, born, born, Answer(false, None));
  }

  lemma InEntries<K(!new), V(!new)>(all: set<Node<K, V>>, s: Model<K, V>, n: Node<K, V>)
    requires SameEntries(all, s.entries)
    ensures n in all <==> StillThere(s, n)
  {
  }

  /** The masks read since the last rehash(), and how many bits each has. */
  ghost predicate MasksSeen(masks: seq<nat>, js: seq<nat>, floor: nat, bits: nat) {
    && |masks| == |js| > 0
    && forall i :: 0 <= i < |masks| ==> floor <= js[i] <= bits && masks[i] == Pow2(js[i]) - 1
  }

  /** Any sequence of calls on a new table, each from any mask seen since the last rehash():
      the answers are those of the plain map, and so are the contents and the size. */
  method RunAll<K(==,!new), V(!new)>(hash: K -> nat, calls: seq<Call<K, V>>, pick: nat -> nat)
    returns (m: ConcurrentHashMap<K, V>, answers: seq<Answer<K, V>>)
    ensures fresh(m) && m.Valid() && answers == ApplyAll(calls).answers
    ensures SameEntries(m.all, ApplyAll(calls).entries)
    ensures m.my_size == |ApplyAll(calls).entries|
  {
    hide Agrees, Apply, ApplyAll, MasksSeen, Answered;
    m := new ConcurrentHashMap(hash);
    answers := [];
    var masks: seq<nat> := [];
    ghost var js: seq<nat> := [];
    var i := 0;
    m.InvGivesBits();
    AgreesAtFirst(m.all, m.born, calls);
    MaskSeen(masks, js, m.floor, m.mask, m.bits, m.bits);
    masks, js := masks + [m.mask], js + [m.bits];
    while i < |calls|
      invariant i <= |calls| && fresh(m) && m.Valid()
      invariant Agrees(m.all, m.born, ApplyAll(calls[..i])) && answers == ApplyAll(calls[..i]).answers
      invariant MasksSeen(masks, js, m.floor, m.bits)
    {
      ApplyNext(calls, i);
      MaskOf(masks, js, m.floor, m.bits, pick(i));
      ghost var f, k := m.floor, m.bits;
      var a := Perform(m, calls[i], masks[pick(i) % |masks|], js[pick(i) % |masks|], answers, ApplyAll(calls[..i]));
      answers := answers + [a];
      AnswersGrow(ApplyAll(calls[..i]), calls[i]);
      m.InvGivesBits();
      if calls[i].Rehash? {
        masks, js := [], [];
      } else {
        MaskLonger(k, m.bits);
      }
      MaskSeen(masks, js, m.floor, m.mask, k, m.bits);
      masks, js := masks + [m.mask], js + [m.bits];
      i := i + 1;
    }
    assert calls[..i] == calls;
    AgreesParts(m.all, m.born, ApplyAll(calls));
    SizeAgrees(m.all, ApplyAll(calls).entries);
  }

  lemma AgreesAtFirst<K(!new), V(!new)>(all: set<Node<K, V>>, born: seq<Node<K, V>>, calls: seq<Call<K, V>>)
    requires all == {} && born == []
    ensures Agrees(all, born, ApplyAll(calls[..0])) && ApplyAll(calls[..0]).answers == []
  {
  }

  lemma AgreesParts<K(!new), V(!new)>(all: set<Node<K, V>>, born: seq<Node<K, V>>, s: Model<K, V>)
    requires Agrees(all, born, s)
    ensures SameEntries(all, s.entries) && OwnKeys(s.entries)
  {
  }

  lemma AnswersGrow<K, V>(s: Model<K, V>, c: Call<K, V>)
    ensures Apply(s, c).answers == s.answers + [Answered(s, c)]
  {
  }

  lemma MaskOf(masks: seq<nat>, js: seq<nat>, floor: nat, bits: nat, p: nat)
    requires MasksSeen(masks, js, floor, bits)
    ensures 0 < |masks| && var k := p % |masks|; k < |js| && floor <= js[k] <= bits && masks[k] == Pow2(js[k]) - 1
  {
  }

  lemma MaskSeen(masks: seq<nat>, js: seq<nat>, floor: nat, mask: nat, k: nat, bits: nat)
    requires masks == js == [] || (MasksSeen(masks, js, floor, k) && k <= bits)
    requires floor <= bits && mask == Pow2(bits) - 1
    ensures MasksSeen(masks + [mask], js + [bits], floor, bits)
  {
  }

  lemma MaskLonger(k: nat, bits: nat)
    requires Pow2(k) <= Pow2(bits)
    ensures k <= bits
  {
    if bits < k { Pow2Grows(bits, k); }
  }

  lemma NoEntries<K(!new), V(!new)>(all: set<Node<K, V>>, entries: map<K, Node<K, V>>)
    requires SameEntries(all, entries) && OwnKeys(entries) && all == {}
    ensures |entries| == 0
  {
    assert forall key :: key !in entries;
  }

  lemma {:induction false} SizeAgrees<K(!new), V(!new)>(all: set<Node<K, V>>, entries: map<K, Node<K, V>>)
    requires SameEntries(all, entries) && OwnKeys(entries)
    ensures |all| == |entries|
  {
    if all == {} {
      NoEntries(all, entries);
    } else {
      var n :| n in all;
      DropAgrees(all, all - {n}, entries, n.key);
      SizeAgrees(all - {n}, entries - {n.key});
    }
  }

  // ----- Concurrent runs begin anywhere ----------------------------------------------

  /** The table with `n` threads that have not called anything yet. */
  ghost function AtRest<K(!new), V(!new)>(m: ConcurrentHashMap<K, V>, n: nat): HashSteps.State<K, V>
    reads m
  {
    HashSteps.State(m.bits, m.floor, m.all, m.buckets, m.my_size, None, m.nextId, seq(n, _ => HashSteps.Resting), {},
      m.all, [])
  }

  /** Every table that a sequence of calls can leave, rehash() included, is one from which the
      concurrent runs of HashSteps may start. */
  lemma RunsStartAtRest<K(!new), V(!new)>(m: ConcurrentHashMap<K, V>, n: nat)
    requires m.Valid()
    ensures HashSteps.Init(m.hash, AtRest(m, n))
  {
    hide Placed, Closed, Home;
    assert HashSteps.TableOf(AtRest(m, n)) == m.State({});
  }
}
