/** How fast the arrays of the per-thread table grow. */
module ThreadSizes {
  // The source says of the list that each array is half the size of its predecessor.  That is
  // so exactly as long as no thread installs an array over a root that is smaller than the
  // number the thread got when it incremented my_count.

  import opened HashIndex
  import opened ThreadTable
  import opened Options

  // ----- One installation ------------------------------------------------------------

  /** The compare_and_swap of `t` succeeds over another array. */
  ghost predicate Installs(s: State, t: nat, s': State) {
    SwapStep(s, t, s') && s.list != [] && Root(s) == s.pc[t].next
  }

  /** ... which has fewer slots than threads had counted themselves up to `t`. */
  ghost predicate Jumps(s: State, t: nat, s': State) {
    Installs(s, t, s') && s.pc[t].c > |s.list[|s.list|-1].slots|
  }

  lemma DoubleSize(r: nat, lg: nat)
    requires r < lg
    ensures Pow2(lg) == 2 * Pow2(r) <==> lg == r + 1
  {
    if r + 1 < lg { Pow2Grows(r + 1, lg); }
  }

  lemma InstalledSize(c: nat, r: nat, lg: nat)
    requires 2 <= r < lg && Pow2(lg - 2) < c <= Pow2(lg - 1)
    ensures lg == r + 1 <==> c <= Pow2(r)
  {
    if r + 1 < lg { Pow2Monotone(r, lg - 2); }
  }

  /** The new root is twice as large as the old one exactly if the number of the thread is at
      most the size of the old one. */
  lemma InstallDoubles(hash: nat -> nat, s: State, t: nat, s': State)
    requires Inv(hash, s) && Installs(s, t, s')
    ensures |s'.list| == |s.list| + 1 && s'.list[..|s.list|] == s.list
    ensures |s'.list[|s.list|].slots| == 2 * |s.list[|s.list|-1].slots| <==> !Jumps(s, t, s')
  {
    hide Inv, ListOk, ClaimsOk, NumbersOk, LocalsOk, Pow2;
    InvParts(hash, s, t);
    RootFits(s);
    GoodAt(s, |s.list| - 1);
    var r, lg := s.list[|s.list|-1].lg, s.pc[t].lg;
    InstalledSize(s.pc[t].c, r, lg);
    DoubleSize(r, lg);
  }

  // ----- Whole runs ------------------------------------------------------------------

  /** Each array is half the size of its predecessor in the list. */
  ghost predicate Halving(list: seq<Array>) {
    forall i: nat :: i + 1 < |list| ==> |list[i + 1].slots| == 2 * |list[i].slots|
  }

  ghost predicate SameSizes(l: seq<Array>, l': seq<Array>) {
    |l'| == |l| && forall i: nat :: i < |l| ==> |l'[i].slots| == |l[i].slots|
  }

  lemma HalvingGrows(l: seq<Array>, l': seq<Array>)
    requires l != [] && |l'| == |l| + 1 && l'[..|l|] == l
    ensures Halving(l') <==> Halving(l) && |l'[|l|].slots| == 2 * |l[|l|-1].slots|
  {
    forall i: nat | i < |l| ensures l'[i] == l[i] { assert l'[..|l|][i] == l[i]; }
    if Halving(l') {
      assert |l'[|l| - 1 + 1].slots| == 2 * |l'[|l| - 1].slots|;
      forall i: nat | i + 1 < |l| ensures |l[i + 1].slots| == 2 * |l[i].slots| {
        assert |l'[i + 1].slots| == 2 * |l'[i].slots|;
      }
    }
  }

  lemma QuietSizes(hash: nat -> nat, s: State, t: nat, s': State)
    requires Next(hash, s, t, s') && !SwapStep(s, t, s')
    ensures SameSizes(s.list, s'.list)
  {
    hide ProbeAt, Taken, Settled;
  }

  lemma SwapSizes(s: State, t: nat, s': State)
    requires SwapStep(s, t, s') && !Installs(s, t, s')
    ensures s'.list == s.list || (s.list == [] && |s'.list| == 1)
  {
  }

  lemma NextHalving(hash: nat -> nat, s: State, t: nat, s': State)
    requires Inv(hash, s) && Next(hash, s, t, s')
    ensures Halving(s'.list) <==> Halving(s.list) && !Jumps(s, t, s')
  {
    hide Inv, Next, SwapStep;
    if Installs(s, t, s') {
      InstallDoubles(hash, s, t, s');
      HalvingGrows(s.list, s'.list);
    } else if SwapStep(s, t, s') {
      SwapSizes(s, t, s');
    } else {
      QuietSizes(hash, s, t, s');
    }
  }

  ghost predicate JumpBetween(s: State, s': State) {
    exists t: nat :: Jumps(s, t, s')
  }

  /** In every run the sizes halve along the list exactly if no thread ever installed an array
      over a root of fewer slots than its number. */
  lemma {:induction false} HalvesUnlessJumped(hash: nat -> nat, run: seq<State>, i: nat)
    requires Run(hash, run) && i < |run|
    ensures Halving(run[i].list) <==> forall j: nat :: j < i ==> !JumpBetween(run[j], run[j + 1])
  {
    hide Init, Inv, Next, Jumps;
    if i == 0 {
      assert run[0].list == [] by { StartsEmpty(hash, run); }
    } else {
      var k := i - 1;
      HalvesUnlessJumped(hash, run, k);
      RunInv(hash, run, k);
      assert StepBetween(hash, run[k], run[k + 1]);
      var t: nat :| Next(hash, run[k], t, run[k + 1]);
      NextHalving(hash, run[k], t, run[k + 1]);
      if JumpBetween(run[k], run[k + 1]) {
        var u: nat :| Jumps(run[k], u, run[k + 1]);
        JumpIsNext(hash, run[k], u, run[k + 1]);
        NextHalving(hash, run[k], u, run[k + 1]);
      }
    }
  }

  lemma StartsEmpty(hash: nat -> nat, run: seq<State>)
    requires Run(hash, run)
    ensures run[0].list == []
  {
  }

  lemma JumpIsNext(hash: nat -> nat, s: State, t: nat, s': State)
    requires Jumps(s, t, s')
    ensures Next(hash, s, t, s')
  {
  }

  // ----- A run in which the sizes do not halve ----------------------------------------

  ghost predicate Reachable(hash: nat -> nat, s: State) {
    exists run: seq<State> :: Run(hash, run) && run[|run|-1] == s
  }

  lemma ReachStep(hash: nat -> nat, s: State, t: nat, s': State)
    requires Reachable(hash, s) && Next(hash, s, t, s')
    ensures Reachable(hash, s')
  {
    hide Next, Init;
    var run: seq<State> :| Run(hash, run) && run[|run|-1] == s;
    var longer := run + [s'];
    forall i: nat | i + 1 < |longer| ensures StepBetween(hash, longer[i], longer[i + 1]) {
      if i + 1 < |run| { assert StepBetween(hash, run[i], run[i + 1]); }
    }
    assert longer[|longer|-1] == s';
  }

  /** Five threads, of which the first `k` have counted themselves and no one has gone on. */
  ghost function Counted(k: nat): State {
    State([], k, k,
          seq(5, (i: int) => if 0 <= i < k then Compare(i + 1, i) else Idle),
          seq(5, (i: int) => if 0 <= i < k then i + 1 else 0),
          seq(5, (i: int) => if 0 <= i < k then Some(i) else None),
          seq(5, (i: int) => if 0 <= i < k then 1 else 0),
          seq(5, (i: int) => 0))
  }

  lemma CountOne(hash: nat -> nat, k: nat)
    requires k < 5 && Reachable(hash, Counted(k))
    ensures Reachable(hash, Counted(k + 1))
  {
    hide Reachable;
    var s := Counted(k);
    var s1 := Go(s, k, Begin);
    var s2 := Go(s1, k, Create);
    var s3 := Go(s2, k, Count(k)).(made := k + 1, local := s.local[k := Some(k)], created := s.created[k := 1]);
    var s4 := Go(s3, k, Compare(k + 1, k)).(count := k + 1, number := s.number[k := k + 1]);
    assert CallStep(s, k, s1) && BeginStep(s1, k, s2) && CreateStep(s2, k, s3) && CountStep(s3, k, s4);
    ReachStep(hash, s, k, s1);
    ReachStep(hash, s1, k, s2);
    ReachStep(hash, s2, k, s3);
    ReachStep(hash, s3, k, s4);
    assert s4 == Counted(k + 1);
  }

  lemma {:induction false} CountAll(hash: nat -> nat, k: nat)
    requires k <= 5
    ensures Reachable(hash, Counted(k))
  {
    if k == 0 {
      Pow2Monotone(3, WORD - 2);
      assert Pow2(3) == 8;
      assert Init(Counted(0));
      assert Run(hash, [Counted(0)]) && [Counted(0)][0] == Counted(0);
    } else {
      CountAll(hash, k - 1);
      CountOne(hash, k - 1);
    }
  }

  /** Five threads have counted themselves before any array exists.  The first installs four
      slots; the last, which found no root either, needs sixteen and installs them next. */
  lemma SizesMayJump(hash: nat -> nat)
    ensures exists s ::
      && Reachable(hash, s) && |s.list| == 2 && s.list[1].next == Some(0)
      && |s.list[0].slots| == 4 && |s.list[1].slots| == 16
  {
    hide Reachable;
    CountAll(hash, 5);
    assert Pow2(1) == 2 && Pow2(2) == 4 && Pow2(3) == 8 && Pow2(4) == 16;
    assert Enough(1, 2) == 2 && Enough(5, 2) == Enough(5, 3) == Enough(5, 4) == 4;
    var s := Counted(5);
    var s1 := Go(s, 0, Swap(1, 0, 2, None));
    var s2 := Go(s1, 4, Swap(5, 4, 4, None));
    var s3 := Go(s2, 0, Insert(0, false)).(list := [NewArray(2, None)]);
    var s4 := Go(s3, 4, Swap(5, 4, 4, Some(0)));
    var s5 := Go(s4, 4, Insert(4, false)).(list := [NewArray(2, None), NewArray(4, Some(0))]);
    assert CompareStep(s, 0, s1) && CompareStep(s1, 4, s2) && SwapStep(s2, 0, s3) && SwapStep(s3, 4, s4)
      && SwapStep(s4, 4, s5);
    ReachStep(hash, s, 0, s1);
    ReachStep(hash, s1, 4, s2);
    ReachStep(hash, s2, 0, s3);
    ReachStep(hash, s3, 4, s4);
    ReachStep(hash, s4, 4, s5);
  }
}
