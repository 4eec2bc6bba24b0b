/** The aggregator protocol of aggregator.h as a state machine. */
module Aggregator {
  // Any number of threads call execute() again and again.  An operation is a slot on its
  // thread's stack, so the address of an operation is its thread: a later call of the same
  // thread uses the same address.  Every access to the mailbox, to handler_busy, and to the
  // link and the status of an operation is a step of its own.

  import opened Options

  /** Where a thread is.  `Send` reads the mailbox into my_next, `Cas` tries to swap it; `Wait`
      spins on the own status; `Spin` waits for handler_busy == 0, `Raise` sets it, `Grab`
      empties the mailbox; `Loop` tests the list and reads the link of its head, then comes
      `Apply` and `Finish`; `Lower` clears handler_busy. */
  datatype Pc =
    | Idle | Send | Cas(res: Option<nat>) | Wait
    | Spin | Raise | Grab
    | Loop(list: Option<nat>) | Apply(cur: nat, rest: Option<nat>) | Finish(cur: nat, rest: Option<nat>) | Lower
    | Return

  /** `queue` is the list in the mailbox, newest first; `batch` the part of a grabbed list that
      is not finished; `boss` the thread that set handler_busy; `issued` counts the calls of a
      thread, and `handled` records the operations whose body ran. */
  datatype State = State(
    mailbox: Option<nat>,
    busy: bool,
    pc: seq<Pc>,
    next: seq<Option<nat>>,
    finished: seq<bool>,
    queue: seq<nat>,
    batch: seq<nat>,
    boss: Option<nat>,
    issued: seq<nat>,
    handled: seq<(nat, nat)>)

  ghost predicate At(s: State, t: nat) {
    t < |s.pc| == |s.next| == |s.finished| == |s.issued|
  }

  // ----- Steps -----------------------------------------------------------------------

  /** A new call: the operation is constructed in its slot. */
  ghost predicate CallStep(s: State, t: nat, s': State) {
    && At(s, t) && s.pc[t].Idle?
    && s' == s.(pc := s.pc[t := Send], next := s.next[t := None], finished := s.finished[t := false],
                issued := s.issued[t := s.issued[t] + 1])
  }

  ghost predicate SendStep(s: State, t: nat, s': State) {
    && At(s, t) && s.pc[t].Send?
    && s' == s.(pc := s.pc[t := Cas(s.mailbox)], next := s.next[t := s.mailbox])
  }

  /** The swap succeeds if the mailbox holds the address that was read, whatever happened to
      the operation there in between. */
  ghost predicate CasStep(s: State, t: nat, s': State) {
    && At(s, t) && s.pc[t].Cas?
    && s' == if s.mailbox != s.pc[t].res then s.(pc := s.pc[t := Send])
             else s.(pc := s.pc[t := if s.pc[t].res.None? then Spin else Wait], mailbox := Some(t),
               queue := [t] + s.queue)
  }

  ghost predicate WaitStep(s: State, t: nat, s': State) {
    && At(s, t) && s.pc[t].Wait? && s.finished[t]
    && s' == s.(pc := s.pc[t := Return])
  }

  ghost predicate SpinStep(s: State, t: nat, s': State) {
    && At(s, t) && s.pc[t].Spin? && !s.busy
    && s' == s.(pc := s.pc[t := Raise])
  }

  ghost predicate RaiseStep(s: State, t: nat, s': State) {
    && At(s, t) && s.pc[t].Raise?
    && s' == s.(pc := s.pc[t := Grab], busy := true, boss := Some(t))
  }

  ghost predicate GrabStep(s: State, t: nat, s': State) {
    && At(s, t) && s.pc[t].Grab?
    && s' == s.(pc := s.pc[t := Loop(s.mailbox)], mailbox := None, queue := [], batch := s.queue)
  }

  ghost predicate LoopStep(s: State, t: nat, s': State) {
    && At(s, t) && s.pc[t].Loop?
    && match s.pc[t].list {
         case None => s' == s.(pc := s.pc[t := Lower])
         case Some(cur) => At(s, cur) && s' == s.(pc := s.pc[t := Apply(cur, s.next[cur])])
       }
  }

  ghost predicate ApplyStep(s: State, t: nat, s': State) {
    && At(s, t) && s.pc[t].Apply? && At(s, s.pc[t].cur)
    && var cur := s.pc[t].cur;
       s' == s.(pc := s.pc[t := Finish(cur, s.pc[t].rest)], handled := s.handled + [(cur, s.issued[cur])])
  }

  ghost predicate FinishStep(s: State, t: nat, s': State) {
    && At(s, t) && s.pc[t].Finish? && At(s, s.pc[t].cur) && s.batch != []
    && s' == s.(pc := s.pc[t := Loop(s.pc[t].rest)], finished := s.finished[s.pc[t].cur := true], batch := s.batch[1..])
  }

  ghost predicate LowerStep(s: State, t: nat, s': State) {
    && At(s, t) && s.pc[t].Lower?
    && s' == s.(pc := s.pc[t := Return], busy := false, boss := None)
  }

  ghost predicate ReturnStep(s: State, t: nat, s': State) {
    && At(s, t) && s.pc[t].Return?
    && s' == s.(pc := s.pc[t := Idle])
  }

  ghost predicate Next(s: State, t: nat, s': State) {
    || CallStep(s, t, s') || SendStep(s, t, s') || CasStep(s, t, s') || WaitStep(s, t, s') || SpinStep(s, t, s')
    || RaiseStep(s, t, s') || GrabStep(s, t, s') || LoopStep(s, t, s') || ApplyStep(s, t, s')
    || FinishStep(s, t, s') || LowerStep(s, t, s') || ReturnStep(s, t, s')
  }

  ghost predicate Init(s: State) {
    && s.mailbox == None && !s.busy && s.queue == [] && s.batch == [] && s.boss == None && s.handled == []
    && |s.pc| == |s.next| == |s.finished| == |s.issued|
    && forall t :: 0 <= t < |s.pc| ==> s.pc[t] == Idle && s.issued[t] == 0
  }

  // ----- The invariant ---------------------------------------------------------------

  /** First in the list, so it will handle it: "to be handler". */
  ghost predicate IsHeir(pc: Pc) {
    pc.Spin? || pc.Raise? || pc.Grab?
  }

  /** Between setting and clearing handler_busy. */
  ghost predicate IsBoss(pc: Pc) {
    pc.Grab? || pc.Loop? || pc.Apply? || pc.Finish? || pc.Lower?
  }

  ghost function Following(list: seq<nat>, i: nat): Option<nat> {
    if i + 1 < |list| then Some(list[i + 1]) else None
  }

  ghost predicate Linked(next: seq<Option<nat>>, start: Option<nat>, list: seq<nat>) {
    && start == (if list == [] then None else Some(list[0]))
    && forall i: nat :: i < |list| ==> list[i] < |next| && next[list[i]] == Following(list, i)
  }

  ghost predicate Distinct(a: seq<nat>) {
    forall i: nat, j: nat :: i < j < |a| ==> a[i] != a[j]
  }

  ghost predicate Sizes(s: State) {
    |s.pc| == |s.next| == |s.finished| == |s.issued|
  }

  /** The mailbox: all wait but the first one that came, which is the heir. */
  ghost predicate QueueOk(s: State)
    requires Sizes(s)
  {
    && Linked(s.next, s.mailbox, s.queue) && Distinct(s.queue)
    && (forall i: nat :: i < |s.queue| ==> s.queue[i] < |s.pc| && !s.finished[s.queue[i]])
    && (forall i: nat :: i + 1 < |s.queue| ==> s.pc[s.queue[i]].Wait?)
    && (forall t: nat :: t < |s.pc| ==> (IsHeir(s.pc[t]) <==> s.queue != [] && t == s.queue[|s.queue|-1]))
  }

  /** What the handler still has to finish: its own operation comes last. */
  ghost predicate BatchOk(s: State)
    requires Sizes(s)
  {
    && Distinct(s.batch)
    && (forall i: nat :: i < |s.batch| ==> s.batch[i] < |s.pc| && !s.finished[s.batch[i]] && s.batch[i] !in s.queue)
    && (forall i: nat :: i + 1 < |s.batch| ==> s.pc[s.batch[i]].Wait?)
    && (s.batch != [] ==> s.boss == Some(s.batch[|s.batch|-1]))
  }

  ghost predicate BossOk(s: State)
    requires Sizes(s)
  {
    && (s.busy <==> s.boss.Some?)
    && (s.boss.Some? ==> s.boss.value < |s.pc|)
    && (forall t: nat :: t < |s.pc| ==> (IsBoss(s.pc[t]) <==> s.boss == Some(t)))
    && (forall t: nat :: t < |s.pc| && s.pc[t].Raise? ==> s.boss == None)
    && (s.boss == None ==> s.batch == [])
    && (s.boss.Some? ==>
          match s.pc[s.boss.value] {
            case Loop(list) => Linked(s.next, list, s.batch) && (s.batch == [] ==> s.finished[s.boss.value])
            case Apply(cur, rest) => s.batch != [] && cur == s.batch[0] && Linked(s.next, rest, s.batch[1..])
            case Finish(cur, rest) => s.batch != [] && cur == s.batch[0] && Linked(s.next, rest, s.batch[1..])
            case Lower => s.batch == [] && s.finished[s.boss.value]
            case _ => s.batch == []
          })
  }

  ghost predicate WaitersOk(s: State)
    requires Sizes(s)
  {
    forall t: nat :: t < |s.pc| ==>
      && (s.pc[t].Wait? ==> s.finished[t] || t in s.queue || t in s.batch)
      && (s.pc[t].Send? || s.pc[t].Cas? ==> !s.finished[t])
      && (!s.pc[t].Idle? ==> 0 < s.issued[t])
      && (s.pc[t].Cas? ==> s.next[t] == s.pc[t].res)
      && (s.pc[t].Return? || (s.pc[t].Idle? && 0 < s.issued[t]) ==> s.finished[t])
  }

  /** Has the body of the current operation of `t` run? */
  ghost predicate Ran(s: State, t: nat)
    requires At(s, t)
  {
    s.finished[t] || (s.boss.Some? && At(s, s.boss.value) && s.pc[s.boss.value].Finish? && s.pc[s.boss.value].cur == t)
  }

  /** Call number `e` of thread `t` was handled once if it is an earlier one or its body ran,
      and never otherwise. */
  ghost predicate HandledOk(s: State)
    requires Sizes(s)
  {
    forall t: nat, e: nat :: multiset(s.handled)[(t, e)] ==
      if t < |s.pc| && 1 <= e && (e < s.issued[t] || (e == s.issued[t] && Ran(s, t))) then 1 else 0
  }

  ghost predicate Inv(s: State) {
    Sizes(s) && QueueOk(s) && BatchOk(s) && BossOk(s) && WaitersOk(s) && HandledOk(s)
  }

  // ----- Every step keeps the invariant ----------------------------------------------

  lemma InitInv(s: State)
    requires Init(s)
    ensures Inv(s)
  {
  }

  /** Neither waiting, nor heir, nor boss. */
  ghost predicate IsOutside(pc: Pc) {
    pc.Idle? || pc.Send? || pc.Cas? || pc.Return?
  }

  lemma OutsideIsFree(s: State, t: nat)
    requires Sizes(s) && QueueOk(s) && BatchOk(s) && BossOk(s) && t < |s.pc| && IsOutside(s.pc[t])
    ensures t !in s.queue && t !in s.batch && s.boss != Some(t)
  {
  }

  lemma LinkedElsewhere(next: seq<Option<nat>>, t: nat, n: Option<nat>, start: Option<nat>, list: seq<nat>)
    requires Linked(next, start, list) && t < |next| && t !in list
    ensures Linked(next[t := n], start, list)
  {
  }

  /** An outside thread may move outside. */
  lemma OutsideMoves(s: State, t: nat, p: Pc)
    requires Sizes(s) && QueueOk(s) && BatchOk(s) && BossOk(s) && t < |s.pc| && IsOutside(s.pc[t]) && IsOutside(p)
    ensures var s' := s.(pc := s.pc[t := p]); QueueOk(s') && BatchOk(s') && BossOk(s')
  {
    hide Linked, Distinct;
    OutsideIsFree(s, t);
  }

  /** ... and write its own link. */
  lemma OutsideLinks(s: State, t: nat, n: Option<nat>)
    requires Sizes(s) && QueueOk(s) && BatchOk(s) && BossOk(s) && t < |s.pc| && t !in s.queue && t !in s.batch
    ensures var s' := s.(next := s.next[t := n]); QueueOk(s') && BatchOk(s') && BossOk(s')
  {
    hide Linked, Distinct;
    LinkedElsewhere(s.next, t, n, s.mailbox, s.queue);
    if s.boss.Some? && s.pc[s.boss.value].Loop? {
      LinkedElsewhere(s.next, t, n, s.pc[s.boss.value].list, s.batch);
    }
    if s.boss.Some? && (s.pc[s.boss.value].Apply? || s.pc[s.boss.value].Finish?) {
      LinkedElsewhere(s.next, t, n, s.pc[s.boss.value].rest, s.batch[1..]);
    }
  }

  lemma OutsideRestarts(s: State, t: nat, f: bool, c: nat)
    requires Sizes(s) && QueueOk(s) && BatchOk(s) && BossOk(s) && t < |s.pc| && t !in s.queue && t !in s.batch
      && s.boss != Some(t)
    ensures var s' := s.(finished := s.finished[t := f], issued := s.issued[t := c]);
      QueueOk(s') && BatchOk(s') && BossOk(s')
  {
    hide Linked, Distinct;
  }

  lemma CallKeeps(s: State, t: nat, s': State)
    requires Inv(s) && CallStep(s, t, s')
    ensures Inv(s')
  {
    hide QueueOk, BatchOk, BossOk;
    OutsideIsFree(s, t);
    OutsideMoves(s, t, Send);
    var s1 := s.(pc := s.pc[t := Send]);
    OutsideLinks(s1, t, None);
    OutsideRestarts(s1.(next := s.next[t := None]), t, false, s.issued[t] + 1);
    NotCurrent(s, t);
  }

  /** An outside operation is not the one at hand. */
  lemma NotCurrent(s: State, t: nat)
    requires Sizes(s) && QueueOk(s) && BatchOk(s) && BossOk(s) && t < |s.pc| && IsOutside(s.pc[t])
    ensures s.boss.Some? && s.pc[s.boss.value].Finish? ==> s.pc[s.boss.value].cur != t
    ensures s.boss.Some? ==> s.boss.value < |s.pc| && s.boss.value != t
  {
  }

  lemma SameHandled(s: State, s': State)
    requires Sizes(s) && Sizes(s') && |s.pc| == |s'.pc| && HandledOk(s) && s'.handled == s.handled
      && s'.issued == s.issued
    requires forall u: nat :: u < |s.pc| ==> (Ran(s', u) <==> Ran(s, u))
    ensures HandledOk(s')
  {
  }

  lemma SendKeeps(s: State, t: nat, s': State)
    requires Inv(s) && SendStep(s, t, s')
    ensures Inv(s')
  {
    hide QueueOk, BatchOk, BossOk, HandledOk;
    OutsideIsFree(s, t);
    NotCurrent(s, t);
    OutsideMoves(s, t, Cas(s.mailbox));
    OutsideLinks(s.(pc := s.pc[t := Cas(s.mailbox)]), t, s.mailbox);
    SameHandled(s, s');
  }

  /** The new list is linked: the slot of `t` holds the address that was the head. */
  lemma LinkedFront(next: seq<Option<nat>>, t: nat, start: Option<nat>, list: seq<nat>)
    requires Linked(next, start, list) && t < |next| && next[t] == start
    ensures Linked(next, Some(t), [t] + list)
  {
    var l := [t] + list;
    forall i: nat | i < |l| ensures l[i] < |next| && next[l[i]] == Following(l, i) {
      if i > 0 { assert l[i] == list[i - 1]; }
    }
  }

  lemma DistinctFront(t: nat, list: seq<nat>)
    requires Distinct(list) && t !in list
    ensures Distinct([t] + list)
  {
  }

  lemma CasQueue(s: State, t: nat, s': State)
    requires Inv(s) && CasStep(s, t, s') && s.mailbox == s.pc[t].res && t !in s.queue
    ensures QueueOk(s')
  {
    hide Linked, Distinct, BatchOk, BossOk, HandledOk;
    LinkedFront(s.next, t, s.mailbox, s.queue);
    DistinctFront(t, s.queue);
    MailboxEmpty(s.next, s.mailbox, s.queue);
    assert forall i: nat :: i < |s'.queue| ==> s'.queue[i] == if i == 0 then t else s.queue[i - 1];
  }

  lemma MailboxEmpty(next: seq<Option<nat>>, start: Option<nat>, list: seq<nat>)
    requires Linked(next, start, list)
    ensures start == None <==> list == []
  {
  }

  lemma CasRest(s: State, t: nat, s': State)
    requires Inv(s) && CasStep(s, t, s') && s.mailbox == s.pc[t].res && t !in s.batch && s.boss != Some(t)
    ensures BatchOk(s') && BossOk(s')
  {
    hide Linked, Distinct, QueueOk, HandledOk;
  }

  lemma CasKeeps(s: State, t: nat, s': State)
    requires Inv(s) && CasStep(s, t, s')
    ensures Inv(s')
  {
    hide QueueOk, BatchOk, BossOk, HandledOk;
    OutsideIsFree(s, t);
    NotCurrent(s, t);
    if s.mailbox != s.pc[t].res {
      OutsideMoves(s, t, Send);
    } else {
      CasQueue(s, t, s');
      CasRest(s, t, s');
    }
    SameHandled(s, s');
  }

  lemma WaitKeeps(s: State, t: nat, s': State)
    requires Inv(s) && WaitStep(s, t, s')
    ensures Inv(s')
  {
    hide Linked, Distinct, HandledOk;
    SameHandled(s, s');
  }

  lemma ReturnKeeps(s: State, t: nat, s': State)
    requires Inv(s) && ReturnStep(s, t, s')
    ensures Inv(s')
  {
    hide QueueOk, BatchOk, BossOk, HandledOk;
    OutsideIsFree(s, t);
    NotCurrent(s, t);
    OutsideMoves(s, t, Idle);
    SameHandled(s, s');
  }

  lemma SpinKeeps(s: State, t: nat, s': State)
    requires Inv(s) && SpinStep(s, t, s')
    ensures Inv(s')
  {
    hide Linked, Distinct, HandledOk;
    SameHandled(s, s');
  }

  lemma RaiseKeeps(s: State, t: nat, s': State)
    requires Inv(s) && RaiseStep(s, t, s')
    ensures Inv(s')
  {
    hide Linked, Distinct, HandledOk;
    SameHandled(s, s');
  }

  lemma GrabKeeps(s: State, t: nat, s': State)
    requires Inv(s) && GrabStep(s, t, s')
    ensures Inv(s')
  {
    hide Linked, Distinct, HandledOk;
    NothingLinked(s.next);
    SameHandled(s, s');
  }

  lemma NothingLinked(next: seq<Option<nat>>)
    ensures Linked(next, None, []) && Distinct([])
  {
  }

  lemma LinkedTail(next: seq<Option<nat>>, start: Option<nat>, list: seq<nat>)
    requires Linked(next, start, list)
    ensures start == if list == [] then None else Some(list[0])
    ensures list != [] ==> list[0] < |next| && Linked(next, next[list[0]], list[1..])
  {
    if list != [] {
      forall i: nat | i < |list[1..]|
        ensures list[1..][i] < |next| && next[list[1..][i]] == Following(list[1..], i)
      {
        assert list[1..][i] == list[i + 1];
      }
    }
  }

  lemma LoopKeeps(s: State, t: nat, s': State)
    requires Inv(s) && LoopStep(s, t, s')
    ensures Inv(s')
  {
    hide Linked, Distinct, HandledOk;
    LinkedTail(s.next, s.pc[t].list, s.batch);
    SameHandled(s, s');
  }

  lemma ApplyHandled(s: State, t: nat, s': State)
    requires Inv(s) && ApplyStep(s, t, s')
    ensures HandledOk(s')
  {
    hide Linked, Distinct, QueueOk;
    var cur := s.pc[t].cur;
    assert cur == s.batch[0] && !s.finished[cur];
    forall u: nat | u < |s.pc| ensures Ran(s', u) <==> Ran(s, u) || u == cur {}
    assert 1 <= s.issued[cur];
    assert multiset(s'.handled) == multiset(s.handled) + multiset{(cur, s.issued[cur])};
  }

  lemma ApplyKeeps(s: State, t: nat, s': State)
    requires Inv(s) && ApplyStep(s, t, s')
    ensures Inv(s')
  {
    hide Linked, Distinct, HandledOk;
    ApplyHandled(s, t, s');
  }

  lemma DistinctTail(list: seq<nat>)
    requires Distinct(list) && list != []
    ensures Distinct(list[1..]) && list[0] !in list[1..]
  {
  }

  lemma FinishKeeps(s: State, t: nat, s': State)
    requires Inv(s) && FinishStep(s, t, s')
    ensures Inv(s')
  {
    hide Linked, Distinct, HandledOk;
    DistinctTail(s.batch);
    SameHandled(s, s');
  }

  lemma LowerKeeps(s: State, t: nat, s': State)
    requires Inv(s) && LowerStep(s, t, s')
    ensures Inv(s')
  {
    hide Linked, Distinct, HandledOk;
    SameHandled(s, s');
  }

  lemma NextKeeps(s: State, t: nat, s': State)
    requires Inv(s) && Next(s, t, s')
    ensures Inv(s')
  {
    hide Inv, CallStep, SendStep, CasStep, WaitStep, SpinStep, RaiseStep, GrabStep, LoopStep, ApplyStep, FinishStep,
      LowerStep, ReturnStep;
    if CallStep(s, t, s') { CallKeeps(s, t, s'); }
    else if SendStep(s, t, s') { SendKeeps(s, t, s'); }
    else if CasStep(s, t, s') { CasKeeps(s, t, s'); }
    else if WaitStep(s, t, s') { WaitKeeps(s, t, s'); }
    else if SpinStep(s, t, s') { SpinKeeps(s, t, s'); }
    else if RaiseStep(s, t, s') { RaiseKeeps(s, t, s'); }
    else if GrabStep(s, t, s') { GrabKeeps(s, t, s'); }
    else if LoopStep(s, t, s') { LoopKeeps(s, t, s'); }
    else if ApplyStep(s, t, s') { ApplyKeeps(s, t, s'); }
    else if FinishStep(s, t, s') { FinishKeeps(s, t, s'); }
    else if LowerStep(s, t, s') { LowerKeeps(s, t, s'); }
    else { ReturnKeeps(s, t, s'); }
  }

  // ----- Whole runs ------------------------------------------------------------------

  ghost predicate StepBetween(s: State, s': State) {
    exists t: nat :: Next(s, t, s')
  }

  /** Any interleaving of any number of threads. */
  ghost predicate Run(run: seq<State>) {
    && run != [] && Init(run[0])
    && forall i: nat :: i + 1 < |run| ==> StepBetween(run[i], run[i + 1])
  }

  lemma {:induction false} RunInv(run: seq<State>, i: nat)
    requires Run(run) && i < |run|
    ensures Inv(run[i])
  {
    hide Init, Inv, Next;
    if i == 0 {
      InitInv(run[0]);
    } else {
      RunInv(run, i - 1);
      assert StepBetween(run[i - 1], run[i - 1 + 1]);
      var t: nat :| Next(run[i - 1], t, run[i]);
      NextKeeps(run[i - 1], t, run[i]);
    }
  }

  /** Although handler_busy is tested and set in separate steps, no two threads run the
      handler, and whoever is about to set the flag still finds it clear. */
  lemma OneHandler(run: seq<State>, i: nat, t: nat, u: nat)
    requires Run(run) && i < |run|
    ensures var s := run[i]; At(s, t) && At(s, u) && IsBoss(s.pc[t]) && IsBoss(s.pc[u]) ==> t == u
    ensures var s := run[i]; At(s, t) && At(s, u) && s.pc[t].Raise? && (s.pc[u].Raise? || IsBoss(s.pc[u])) ==> t == u
    ensures var s := run[i]; At(s, t) && s.pc[t].Raise? ==> !s.busy
  {
    RunInv(run, i);
  }

  /** The mailbox holds operations exactly while some thread is about to handle them, and
      there is only one such thread. */
  lemma MailboxHasHeir(run: seq<State>, i: nat)
    requires Run(run) && i < |run|
    ensures run[i].mailbox.Some? <==> exists t: nat :: At(run[i], t) && IsHeir(run[i].pc[t])
    ensures forall t: nat, u: nat :: At(run[i], t) && At(run[i], u) && IsHeir(run[i].pc[t]) && IsHeir(run[i].pc[u]) ==>
      t == u
  {
    RunInv(run, i);
    var s := run[i];
    MailboxEmpty(s.next, s.mailbox, s.queue);
    if s.queue != [] {
      var h := s.queue[|s.queue|-1];
      assert At(s, h) && IsHeir(s.pc[h]);
    }
  }

  /** No operation is handled twice; when a call returns, its own operation was handled and
      finished, and so were those of all its earlier calls. */
  lemma HandledOnce(run: seq<State>, i: nat, t: nat, e: nat)
    requires Run(run) && i < |run|
    ensures multiset(run[i].handled)[(t, e)] <= 1
    ensures At(run[i], t) && run[i].pc[t].Return? ==> run[i].finished[t]
    ensures At(run[i], t) && run[i].pc[t].Return? && 1 <= e <= run[i].issued[t] ==>
      multiset(run[i].handled)[(t, e)] == 1
    ensures At(run[i], t) && run[i].issued[t] < e ==> (t, e) !in run[i].handled
  {
    RunInv(run, i);
    if At(run[i], t) && run[i].issued[t] < e { assert multiset(run[i].handled)[(t, e)] == 0; }
  }

  /** The link of an operation is read only before the operation is marked finished, while its
      thread is still in the call that made it. */
  lemma LinkReadBeforeFinish(run: seq<State>, i: nat, t: nat, s': State)
    requires Run(run) && i < |run| && LoopStep(run[i], t, s') && run[i].pc[t].list.Some?
    ensures var cur := run[i].pc[t].list.value;
      At(run[i], cur) && !run[i].finished[cur] && (run[i].pc[cur].Wait? || cur == t)
  {
    RunInv(run, i);
    var s := run[i];
    assert s.pc[t].list.value == s.batch[0];
  }

  ghost predicate CanMove(s: State, u: nat) {
    At(s, u) && !s.pc[u].Idle? && exists s': State :: Next(s, u, s')
  }

  lemma Moves(s: State, u: nat, s': State)
    requires At(s, u) && !s.pc[u].Idle? && Next(s, u, s')
    ensures CanMove(s, u)
  {
  }

  /** There is no deadlock: while a thread is in a call, some thread in a call can move. */
  lemma NoDeadlock(run: seq<State>, i: nat, t: nat)
    requires Run(run) && i < |run| && At(run[i], t) && !run[i].pc[t].Idle?
    ensures exists u: nat :: CanMove(run[i], u)
  {
    RunInv(run, i);
    var s := run[i];
    if s.boss.Some? {
      BossMoves(s);
    } else if s.pc[t].Wait? && !s.finished[t] {
      HeirMoves(s);
    } else {
      CallerMoves(s, t);
    }
  }

  lemma BossMoves(s: State)
    requires Inv(s) && s.boss.Some?
    ensures CanMove(s, s.boss.value)
  {
    hide Distinct, CanMove, Next;
    var t := s.boss.value;
    match s.pc[t] {
      case Grab =>
        var s' := s.(pc := s.pc[t := Loop(s.mailbox)], mailbox := None, queue := [], batch := s.queue);
        Moves(s, t, s') by { assert GrabStep(s, t, s'); }
      case Loop(list) =>
        var s' := s.(pc := s.pc[t := if list == None then Lower else Apply(list.value, s.next[list.value])]);
        Moves(s, t, s') by { assert LoopStep(s, t, s'); }
      case Apply(cur, rest) =>
        var s' := s.(pc := s.pc[t := Finish(cur, rest)], handled := s.handled + [(cur, s.issued[cur])]);
        Moves(s, t, s') by { assert ApplyStep(s, t, s'); }
      case Finish(cur, rest) =>
        var s' := s.(pc := s.pc[t := Loop(rest)], finished := s.finished[cur := true], batch := s.batch[1..]);
        Moves(s, t, s') by { assert FinishStep(s, t, s'); }
      case Lower =>
        var s' := s.(pc := s.pc[t := Return], busy := false, boss := None);
        Moves(s, t, s') by { assert LowerStep(s, t, s'); }
    }
  }

  lemma HeirMoves(s: State)
    requires Inv(s) && s.boss == None && s.queue != []
    ensures CanMove(s, s.queue[|s.queue|-1])
  {
    hide Linked, Distinct;
    var t := s.queue[|s.queue|-1];
    assert IsHeir(s.pc[t]) && !IsBoss(s.pc[t]);
    CallerMoves(s, t);
  }

  lemma CallerMoves(s: State, t: nat)
    requires Inv(s) && s.boss == None && At(s, t) && !s.pc[t].Idle? && (s.pc[t].Wait? ==> s.finished[t])
    ensures CanMove(s, t)
  {
    hide Linked, Distinct, CanMove;
    assert !IsBoss(s.pc[t]);
    match s.pc[t] {
      case Send =>
        Moves(s, t, s.(pc := s.pc[t := Cas(s.mailbox)], next := s.next[t := s.mailbox]));
      case Cas(res) =>
        Moves(s, t, if s.mailbox != res then s.(pc := s.pc[t := Send])
          else s.(pc := s.pc[t := if res.None? then Spin else Wait], mailbox := Some(t), queue := [t] + s.queue));
      case Wait =>
        Moves(s, t, s.(pc := s.pc[t := Return]));
      case Spin =>
        Moves(s, t, s.(pc := s.pc[t := Raise]));
      case Raise =>
        Moves(s, t, s.(pc := s.pc[t := Grab], busy := true, boss := Some(t)));
      case Return =>
        Moves(s, t, s.(pc := s.pc[t := Idle]));
    }
  }
}
