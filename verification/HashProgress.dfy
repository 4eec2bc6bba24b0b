/** No deadlock in the hash map. */
module HashProgress {
  import opened HashIndex
  import opened HashPlacement
  import opened HashSteps
  import opened Options

  /** A step of a call that goes on with its work, without starting over. */
  ghost predicate Advance<K(!new), V(!new)>(hash: K -> nat, s: State<K, V>, t: nat, s': State<K, V>) {
    || ProbeStep(s, t, s') || TryStep(s, t, s') || MarkStep(s, t, s') || RecheckedStep(s, t, s')
    || BlockStep(s, t, s') || ReWaitStep(s, t, s') || GiveUpStep(s, t, s')
    || FillStep(hash, s, t, s') || NotFoundStep(s, t, s') || RaceStep(hash, s, t, s')
    || (exists n :: FoundStep(s, t, s', n)) || (exists n :: AimStep(s, t, s', n))
    || (exists l :: RaceChildStep(hash, s, t, s', l)) || (exists p :: UnlinkStep(s, t, s', p))
    || CountStep(s, t, s') || LinkStep(s, t, s') || GrowStep(s, t, s') || ShrinkStep(s, t, s')
    || LeaveStep(s, t, s') || EnableStep(s, t, s') || ReturnStep(s, t, s')
  }

  lemma AdvanceIsNext<K(!new), V(!new)>(hash: K -> nat, s: State<K, V>, t: nat, s': State<K, V>)
    requires Advance(hash, s, t, s')
    ensures Next(hash, s, t, s')
  {
    hide ProbeStep, TryStep, MarkStep, RecheckedStep, BlockStep, ReWaitStep, GiveUpStep, FillStep, NotFoundStep;
    hide RaceStep, FoundStep, AimStep, RaceChildStep, UnlinkStep, CountStep, LinkStep, GrowStep, ShrinkStep, LeaveStep;
    hide EnableStep, ReturnStep, Start, MoveUpgradeStep, BusyStep;
  }

  /** Waiting for a bucket lock. */
  ghost predicate Waits<K, V>(s: State<K, V>, t: nat) {
    Runs(s, t) && (s.threads[t].pc.Block? || s.threads[t].pc.ReWait?)
  }

  lemma MarkedIsDeep<K(!new), V(!new)>(hash: K -> nat, s: State<K, V>, b: nat)
    requires Inv(hash, s) && b < |s.buckets| && s.buckets[b].RehashReq?
    ensures 1 < b
  {
    assert Pow2(1) == 2;
    Pow2Monotone(1, s.floor);
  }

  lemma RecheckAdvances<K(!new), V(!new)>(hash: K -> nat, s: State<K, V>, t: nat) returns (s': State<K, V>)
    requires Inv(hash, s) && Runs(s, t) && s.threads[t].pc.Recheck?
    ensures MarkStep(s, t, s') || RecheckedStep(s, t, s')
  {
    hide Inv;
    Own(hash, s, t);
    var th := s.threads[t];
    if s.buckets[th.cur].RehashReq? {
      MarkedIsDeep(hash, s, th.cur);
      s' := Put(s, t, th.(pc := Probe, stack := th.stack + [th.cur], cur := Parent(th.cur), w := false))
            .(buckets := s.buckets[th.cur := Chain([])], pending := s.pending + {th.cur});
    } else {
      s' := Put(s, t, th.(pc := Held));
    }
  }

  lemma RehashedInside<K(!new), V(!new)>(hash: K -> nat, s: State<K, V>, t: nat)
    requires Inv(hash, s) && Runs(s, t) && s.threads[t].pc.Held? && s.threads[t].stack != []
    ensures var th := s.threads[t];
      var i := th.stack[|th.stack|-1];
      1 < i < |s.buckets| && th.cur == Parent(i) && s.buckets[th.cur].Chain?
  {
    hide LegalHist, Answers, UniqueKeys, HomeOf, Exclusive;
    assert ThreadOk(hash, s, t);
    StackIsPending(hash, s, t);
    assert s.threads[t].stack[|s.threads[t].stack|-1] in s.pending;
  }

  lemma RehashAdvances<K(!new), V(!new)>(hash: K -> nat, s: State<K, V>, t: nat) returns (s': State<K, V>)
    requires Inv(hash, s) && Runs(s, t) && s.threads[t].pc.Held? && s.threads[t].stack != []
    ensures FillStep(hash, s, t, s') || GiveUpStep(s, t, s')
  {
    hide Inv, Filled, Parent;
    RehashedInside(hash, s, t);
    var th := s.threads[t];
    if th.w {
      var i := th.stack[|th.stack|-1];
      var f := Filled(hash, TableOf(s), i);
      s' := Put(s, t, th.(stack := th.stack[..|th.stack|-1], cur := i, w := true))
            .(buckets := f.buckets, pending := f.pending);
    } else {
      s' := Put(s, t, th.(pc := ReWait));
    }
  }

  lemma SearchAdvances<K(!new), V(!new)>(hash: K -> nat, s: State<K, V>, t: nat) returns (s': State<K, V>)
    requires Inv(hash, s) && Runs(s, t) && s.threads[t].pc.Held? && s.threads[t].stack == []
    ensures GiveUpStep(s, t, s') || NotFoundStep(s, t, s')
      || (exists n :: FoundStep(s, t, s', n)) || (exists n :: AimStep(s, t, s', n))
  {
    hide Inv;
    Own(hash, s, t);
    var th := s.threads[t];
    if !th.w && !th.op.Find? {
      s' := Put(s, t, th.(pc := ReWait));
    } else if n :| n in s.buckets[th.cur].nodes && IsTarget(th.op, n) {
      if th.op.Find? || th.op.Insert? {
        s' := Settle(s, t, Leaving(false), Found(n));
        assert FoundStep(s, t, s', n);
      } else {
        s' := Put(s, t, th.(pc := Unlink, w := true, node := Some(n)));
        assert AimStep(s, t, s', n);
      }
    } else {
      s' := Put(s, t, th.(pc := Race(false), w := th.w || th.op.Insert?));
    }
  }

  lemma {:induction false} LevelExists(h: nat, j: nat, k: nat) returns (l: nat)
    requires 1 <= j < k && h % Pow2(k) != h % Pow2(j)
    ensures NextLevel(h, j, l) && l <= k
    decreases k
  {
    if k > j + 1 && h % Pow2(k - 1) != h % Pow2(j) {
      l := LevelExists(h, j, k - 1);
    } else {
      l := k;
      forall u | j <= u < k ensures h % Pow2(u) == h % Pow2(j) {
        if k > j + 1 { SameBetween(h, j, u, k - 1); }
      }
    }
  }

  lemma RaceChildAdvances<K(!new), V(!new)>(hash: K -> nat, s: State<K, V>, t: nat) returns (s': State<K, V>, l: nat)
    requires Inv(hash, s) && Runs(s, t) && s.threads[t].pc.RaceChild?
    ensures RaceChildStep(hash, s, t, s', l)
  {
    hide Inv;
    Own(hash, s, t);
    var th := s.threads[t];
    var h := hash(KeyOf(th.op));
    l := LevelExists(h, th.j, th.pc.jNow);
    Pow2Monotone(l, s.bits);
    var b := h % Pow2(l);
    s' := if s.buckets[b].RehashReq? then NoRace(s, t, th.pc.again, th.pc.jNow)
    else Put(s, t, Again(hash, th, th.pc.jNow));
  }

  lemma ChangeAdvances<K(!new), V(!new)>(hash: K -> nat, s: State<K, V>, t: nat) returns (s': State<K, V>)
    requires Inv(hash, s) && Runs(s, t) && (s.threads[t].pc.Link? || s.threads[t].pc.Unlink?)
    ensures LinkStep(s, t, s') || exists p :: UnlinkStep(s, t, s', p)
  {
    hide Inv, WithFront, Without;
    Own(hash, s, t);
    var th := s.threads[t];
    if th.pc.Link? {
      var n := Node(s.nextId, th.op.key, th.op.value);
      s' := Settle(s, t, if th.pc.sz >= Pow2(th.j) - 1 then Grow else Leaving(false), Inserted(n))
            .(buckets := WithFront(TableOf(s), th.cur, n).buckets, all := s.all + {n}, nextId := s.nextId + 1);
    } else {
      var p: nat :| p < |s.buckets[th.cur].nodes| && s.buckets[th.cur].nodes[p] == th.node.value;
      s' := Settle(s, t, Shrink, Erased(th.node.value))
            .(buckets := Without(TableOf(s), th.cur, p).buckets, all := s.all - {th.node.value});
      assert UnlinkStep(s, t, s', p);
    }
  }

  lemma EnableAdvances<K(!new), V(!new)>(hash: K -> nat, s: State<K, V>, t: nat) returns (s': State<K, V>)
    requires Inv(hash, s) && Runs(s, t) && s.threads[t].pc.Enable?
    ensures EnableStep(s, t, s')
  {
    hide Inv, Grown;
    Own(hash, s, t);
    Pow2Monotone(s.bits, NextBits(s.bits));
    s' := Put(s, t, s.threads[t].(pc := Return))
          .(bits := NextBits(s.bits), buckets := Grown(TableOf(s), NextBits(s.bits)).buckets, enabling := None);
  }

  /** A thread that does not wait for a bucket lock can go on. */
  lemma Advances<K(!new), V(!new)>(hash: K -> nat, s: State<K, V>, t: nat) returns (s': State<K, V>)
    requires Inv(hash, s) && Runs(s, t) && !Waits(s, t)
    ensures Advance(hash, s, t, s')
  {
    hide Inv, MarkStep, FillStep, FoundStep, AimStep, RaceChildStep, UnlinkStep, LinkStep, EnableStep, NotFoundStep;
    Own(hash, s, t);
    var th := s.threads[t];
    var h := hash(KeyOf(th.op));
    match th.pc {
      case Probe => s' := Put(s, t, th.(pc := if s.buckets[th.cur].RehashReq? then TryLock else Block));
      case TryLock =>
        s' := Put(s, t, if Free(s, t, th.cur) then th.(pc := Recheck, w := true) else th.(pc := Block));
      case Recheck => s' := RecheckAdvances(hash, s, t);
      case Held =>
        if th.stack != [] { s' := RehashAdvances(hash, s, t); } else { s' := SearchAdvances(hash, s, t); }
      case Race(again) =>
        s' := if h % Pow2(th.j) == h % Pow2(s.bits) then NoRace(s, t, again, s.bits)
        else Put(s, t, th.(pc := RaceChild(again, s.bits)));
      case RaceChild(_, _) => var l; s', l := RaceChildAdvances(hash, s, t);
      case Count => s' := Put(s, t, s.threads[t].(pc := Link(s.size + 1))).(size := s.size + 1);
      case Link(_) => s' := ChangeAdvances(hash, s, t);
      case Unlink => s' := ChangeAdvances(hash, s, t);
      case Grow =>
        s' := if th.j == s.bits && s.enabling.None? then Put(s, t, th.(pc := Leaving(true))).(enabling := Some(t))
        else Put(s, t, th.(pc := Leaving(false)));
      case Shrink => s' := Put(s, t, s.threads[t].(pc := Leaving(false))).(size := s.size - 1);
      case Leaving(grow) => s' := Put(s, t, s.threads[t].(pc := if grow then Enable else Return));
      case Enable => s' := EnableAdvances(hash, s, t);
      case Return => s' := Put(s, t, Resting);
    }
  }

  /** A waiting thread that no lock keeps back can go on. */
  lemma WaitEnds<K(!new), V(!new)>(s: State<K, V>, t: nat) returns (s': State<K, V>)
    requires Waits(s, t) && Free(s, t, s.threads[t].cur)
    ensures BlockStep(s, t, s') || ReWaitStep(s, t, s')
  {
    var th := s.threads[t];
    if th.pc.Block? {
      s' := Put(s, t, th.(pc := Held, w := th.stack == [] && th.op.Exclude?));
    } else {
      s' := Put(s, t, th.(w := true, pc := if th.stack == [] && th.op.Erase? then Race(true) else Held));
    }
  }

  /** A waiting thread holds only buckets deeper than the one it waits for. */
  lemma HoldsDeeper<K(!new), V(!new)>(hash: K -> nat, s: State<K, V>, u: nat, b: nat)
    requires Inv(hash, s) && Waits(s, u) && (Writes(s.threads[u], b) || Reads(s.threads[u], b))
    ensures s.threads[u].cur < b
  {
    hide Inv;
    Own(hash, s, u);
    var th := s.threads[u];
    var i :| 0 <= i < |th.stack| && th.stack[i] == b;
    PathDecreases(hash, th, i);
  }

  /** Whoever waits, someone can go on: following the locks leads to ever shallower buckets. */
  lemma {:induction false} SomeoneAdvances<K(!new), V(!new)>(hash: K -> nat, s: State<K, V>, t: nat)
    returns (u: nat, s': State<K, V>)
    requires Inv(hash, s) && Runs(s, t)
    ensures Runs(s, u) && Advance(hash, s, u, s')
    decreases s.threads[t].cur
  {
    hide Inv, ProbeStep, TryStep, MarkStep, RecheckedStep, FillStep, NotFoundStep, RaceStep, FoundStep, AimStep;
    hide RaceChildStep, UnlinkStep, CountStep, LinkStep, GrowStep, ShrinkStep, LeaveStep, EnableStep, ReturnStep;
    if !Waits(s, t) {
      u := t;
      s' := Advances(hash, s, t);
    } else if Free(s, t, s.threads[t].cur) {
      u := t;
      s' := WaitEnds(s, t);
    } else {
      var b := s.threads[t].cur;
      var v: nat :| v < |s.threads| && v != t && (Writes(s.threads[v], b) || Reads(s.threads[v], b));
      if Waits(s, v) {
        HoldsDeeper(hash, s, v, b);
        u, s' := SomeoneAdvances(hash, s, v);
      } else {
        u := v;
        s' := Advances(hash, s, v);
      }
    }
  }

  /** There is no deadlock: in every state of every run in which a call is in progress, some call
      can go on, and not only by starting over. */
  lemma NoDeadlock<K(!new), V(!new)>(hash: K -> nat, run: seq<State<K, V>>, i: nat, t: nat)
    requires Run(hash, run) && i < |run| && Runs(run[i], t)
    ensures exists u: nat, s' :: Runs(run[i], u) && Advance(hash, run[i], u, s') && Next(hash, run[i], u, s')
  {
    hide Inv, Advance, Next;
    RunInv(hash, run, i);
    var u, s' := SomeoneAdvances(hash, run[i], t);
    AdvanceIsNext(hash, run[i], u, s');
  }
}
