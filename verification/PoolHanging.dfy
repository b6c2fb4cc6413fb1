/** Exactly when an Apply or a Stop is sure to return: a condition on the state at the call, against
    all fair schedules and all cancellations. */
module PoolHanging {
  import opened Options
  import opened PoolModel
  import opened PoolInvariant
  import opened PoolLiveness

  /** From `s`, every fair schedule brings the current call to its return, whatever is cancelled. */
  ghost predicate SureToReturn(s: State) {
    forall st: nat -> State, act: nat -> Action ::
      IsBehaviour(st, act) && Fair(st, act) && st(0) == s ==> ReturnsLater(st)
  }

  ghost predicate ReturnsLater(st: nat -> State) {
    exists m: nat :: st(m).pc.Idle?
  }

  // ---------- a schedule that makes the call hang ----------

  /** A call that will not return if nobody takes another command. */
  ghost predicate Blocked(s: State) {
    && Inv(s) && Live(s)
    && if InPoll(s.pc) then Queue(s) != []
       else InApply(s.pc) && |Queue(s)| >= s.size && (s.pc.ApplySend? || (!PoolIsDone(s) && !Done(s, s.pc.caller)))
  }

  /** A worker that has not left. */
  ghost function Remaining(s: State): (w: nat)
    requires !AllExited(s.workers)
    ensures w < |s.workers| && !s.workers[w].phase.Exited?
  {
    var w: nat :| w < |s.workers| && !s.workers[w].phase.Exited?;
    w
  }

  predicate BeforeSend(p: Pc) { p.ApplyCheck? || p.ApplyLoad? || p.ApplySelect? }

  /** Bring an Apply to its send, cancel the pool's context, let every worker finish what it holds and
      leave, and from then on only poll or wait. */
  ghost function Policy(s: State): Action {
    if BeforeSend(s.pc) then Control(DataCase)
    else if !PoolIsDone(s) && s.poolCtx.Some? then Cancel(s.poolCtx.value)
    else if !AllExited(s.workers) then Work(Remaining(s), PoolDoneCase)
    else if InPoll(s.pc) then Control(DataCase)
    else Tick
  }

  lemma PolicyEnabled(s: State)
    requires Blocked(s)
    ensures Enabled(s, Policy(s))
  {
    if !BeforeSend(s.pc) && PoolIsDone(s) && !AllExited(s.workers) {
      assert WorkerOk(s, s.workers[Remaining(s)]);
    }
  }

  lemma TowardsSend(s: State)
    requires Light(s) && Live(s) && BeforeSend(s.pc) && !PoolIsDone(s) && !Done(s, s.pc.caller)
    ensures var p := DoApply(s, DataCase).pc;
      && DoApply(s, DataCase) == s.(pc := p)
      && (p.ApplySend? || (BeforeSend(p) && p.caller == s.pc.caller))
      && ControlRank(p) < ControlRank(s.pc)
  {}

  lemma BlockedSend(s: State)
    requires Blocked(s) && BeforeSend(s.pc)
    ensures Blocked(DoApply(s, DataCase)) && ControlRank(DoApply(s, DataCase).pc) < ControlRank(s.pc)
  {
    TowardsSend(s);
    ApplyInv(s, DataCase);
  }

  lemma StillPolls(s: State)
    requires Light(s) && InPoll(s.pc) && Live(s) && Queue(s) != []
    ensures InPoll(DoPoll(s).pc) && DoPoll(s) == s.(pc := DoPoll(s).pc)
  {}

  lemma BlockedPoll(s: State)
    requires Blocked(s) && InPoll(s.pc)
    ensures Blocked(DoPoll(s)) && InPoll(DoPoll(s).pc) && DoPoll(s) == s.(pc := DoPoll(s).pc)
  {
    StillPolls(s);
    PollInv(s);
  }

  lemma CancelledIs(s: State, ctx: nat)
    requires |s.chans| > 0 && s.poolCtx == Some(ctx) && ctx < |s.ctxDone|
    ensures var s' := Do(s, Cancel(ctx));
      && s' == s.(ctxDone := s'.ctxDone) && PoolIsDone(s') && Rank(s') == Rank(s)
  {}

  lemma BlockedCancel(s: State)
    requires Blocked(s) && !BeforeSend(s.pc) && s.poolCtx.Some? && s.poolCtx.value < |s.ctxDone|
    ensures var s' := Do(s, Cancel(s.poolCtx.value));
      && Blocked(s') && PoolIsDone(s') && s'.pc == s.pc && s'.workers == s.workers && Rank(s') == Rank(s)
  {
    CancelInv(s, s.poolCtx.value);
    CancelledIs(s, s.poolCtx.value);
  }

  lemma LeavesQueue(s: State, w: nat)
    requires WellFormed(s) && w < |s.workers| && WorkerOk(s, s.workers[w]) && WorkReady(s, s.workers[w], PoolDoneCase)
    ensures w < |DoWork(s, w, PoolDoneCase).workers| && !DoWork(s, w, PoolDoneCase).workers[w].phase.Received?
  {}

  lemma BlockedWork(s: State, w: nat)
    requires Blocked(s) && Enabled(s, Work(w, PoolDoneCase))
    ensures var s' := DoWork(s, w, PoolDoneCase);
            Blocked(s') && s'.pc == s.pc && s'.ctxDone == s.ctxDone && s'.poolCtx == s.poolCtx && Rank(s') < Rank(s)
  {
    WorkInv(s, w, PoolDoneCase);
    WorkMoves(s, w, PoolDoneCase);
    assert WorkerOk(s, s.workers[w]);
    LeavesQueue(s, w);
    MovedModes(s, DoWork(s, w, PoolDoneCase), w);
    WorkLowersRank(s, w, PoolDoneCase);
  }

  lemma PolicySends(s: State)
    requires Blocked(s) && BeforeSend(s.pc)
    ensures Enabled(s, Policy(s)) && Blocked(Do(s, Policy(s)))
  {
    PolicyEnabled(s);
    BlockedSend(s);
    assert Do(s, Control(DataCase)) == DoApply(s, DataCase);
  }

  lemma PolicyPolls(s: State)
    requires Blocked(s) && Policy(s) == Control(DataCase) && InPoll(s.pc)
    ensures Enabled(s, Policy(s)) && Blocked(Do(s, Policy(s)))
  {
    BlockedPoll(s);
    assert Do(s, Control(DataCase)) == DoPoll(s);
  }

  lemma PolicyWorks(s: State)
    requires Blocked(s) && Policy(s).Work?
    ensures Enabled(s, Policy(s)) && Blocked(Do(s, Policy(s)))
  {
    PolicyEnabled(s);
    BlockedWork(s, Policy(s).w);
  }

  /** The policy keeps the call blocked. */
  lemma PolicyBlocks(s: State)
    requires Blocked(s)
    ensures Enabled(s, Policy(s)) && Blocked(Do(s, Policy(s)))
  {
    if BeforeSend(s.pc) {
      PolicySends(s);
    } else if Policy(s).Control? {
      PolicyPolls(s);
    } else if Policy(s).Work? {
      PolicyWorks(s);
    } else {
      PolicyEnabled(s);
      if Policy(s).Cancel? {
        BlockedCancel(s);
      }
    }
  }

  /** The state after `n` steps of the policy. */
  ghost function Follow(s: State, n: nat): (r: State)
    requires Blocked(s)
    ensures Blocked(r)
  {
    if n == 0 then s
    else
      var p := Follow(s, n - 1);
      PolicyBlocks(p);
      Do(p, Policy(p))
  }

  lemma FollowStep(s: State, n: nat)
    requires Blocked(s)
    ensures Enabled(Follow(s, n), Policy(Follow(s, n))) && Follow(s, n + 1) == Do(Follow(s, n), Policy(Follow(s, n)))
  {
    PolicyBlocks(Follow(s, n));
  }

  /** All workers are gone; only polling or waiting is left. */
  ghost predicate Settled(s: State) {
    AllExited(s.workers) && PoolIsDone(s) && !BeforeSend(s.pc)
  }

  lemma SettledServesAll(s: State)
    requires Blocked(s) && Settled(s)
    ensures forall w: nat :: !WorkerCan(s, w)
    ensures Policy(s).Control? || !ControlCan(s)
  {
    forall w: nat, c: Case ensures !Enabled(s, Work(w, c)) {}
    if !InPoll(s.pc) {
      forall c: Case ensures !Enabled(s, Control(c)) {}
    }
  }

  /** What one step of the policy brings nearer to the settled state. */
  lemma PolicyCloser(s: State)
    requires Blocked(s) && !Settled(s)
    ensures Enabled(s, Policy(s)) && |Do(s, Policy(s)).chans| > 0
    ensures var s' := Do(s, Policy(s));
      if BeforeSend(s.pc) then ControlRank(s'.pc) < ControlRank(s.pc)
      else !BeforeSend(s'.pc) && PoolIsDone(s') && (PoolIsDone(s) ==> Rank(s') < Rank(s))
  {
    PolicyEnabled(s);
    match Policy(s)
    case Control(_) => BlockedSend(s);
    case Cancel(_) => BlockedCancel(s);
    case Work(w, _) => BlockedWork(s, w);
  }

  ghost function RankOf(s: State): nat
    requires |s.chans| > 0
  {
    RankTotal(s.workers);
    Rank(s)
  }

  /** The policy settles. */
  lemma Settles(s: State, n: nat) returns (m: nat)
    requires Blocked(s)
    ensures n <= m && Settled(Follow(s, m))
    decreases if BeforeSend(Follow(s, n).pc) then 1 + ControlRank(Follow(s, n).pc) else 0,
              if PoolIsDone(Follow(s, n)) then 0 else 1, RankOf(Follow(s, n))
  {
    m := n;
    if !Settled(Follow(s, n)) {
      PolicyCloser(Follow(s, n));
      FollowStep(s, n);
      m := Settles(s, n + 1);
    }
  }

  /** `st` and `act` are the policy's run from `s`, at `n`. */
  ghost predicate FollowsAt(s: State, st: nat -> State, act: nat -> Action, n: nat)
    requires Blocked(s)
  {
    st(n) == Follow(s, n) && act(n) == Policy(Follow(s, n))
  }

  lemma SettledLater(s: State, st: nat -> State, act: nat -> Action, n: nat) returns (m: nat)
    requires Blocked(s) && forall k: nat :: FollowsAt(s, st, act, k)
    ensures n <= m && ControlServed(st, act, m) && forall w: nat :: WorkerServed(st, act, w, m)
  {
    m := Settles(s, n);
    assert FollowsAt(s, st, act, m);
    SettledServesAll(Follow(s, m));
  }

  lemma FollowIsFair(s: State, st: nat -> State, act: nat -> Action)
    requires Blocked(s) && forall n: nat :: FollowsAt(s, st, act, n)
    ensures Fair(st, act)
  {
    forall w: nat, n: nat ensures WorkerServedLater(st, act, w, n) {
      var m := SettledLater(s, st, act, n);
      assert WorkerServed(st, act, w, m);
    }
    forall n: nat ensures ControlServedLater(st, act, n) {
      var m := SettledLater(s, st, act, n);
    }
  }

  lemma FollowIsBehaviour(s: State, st: nat -> State, act: nat -> Action)
    requires Blocked(s) && forall n: nat :: FollowsAt(s, st, act, n)
    ensures IsBehaviour(st, act) && st(0) == s
  {
    assert FollowsAt(s, st, act, 0);
    forall n: nat ensures StepAt(st, act, n) {
      assert FollowsAt(s, st, act, n) && FollowsAt(s, st, act, n + 1);
      FollowStepAt(s, st, act, n);
    }
  }

  lemma FollowStepAt(s: State, st: nat -> State, act: nat -> Action, n: nat)
    requires Blocked(s) && FollowsAt(s, st, act, n) && FollowsAt(s, st, act, n + 1)
    ensures StepAt(st, act, n)
  {
    FollowStep(s, n);
  }

  lemma NeverReturns(s: State, st: nat -> State, act: nat -> Action)
    requires IsBehaviour(st, act) && Fair(st, act) && st(0) == s
    requires forall n: nat :: !st(n).pc.Idle?
    ensures !SureToReturn(s)
  {
    assert !ReturnsLater(st);
  }

  /** A blocked call can be made to hang by a fair schedule. */
  lemma BlockedCanHang(s: State)
    requires Blocked(s)
    ensures !SureToReturn(s)
  {
    var st := (n: nat) => Follow(s, n);
    var act := (n: nat) => Policy(Follow(s, n));
    forall n: nat ensures FollowsAt(s, st, act, n) {}
    FollowIsBehaviour(s, st, act);
    FollowIsFair(s, st, act);
    forall n: nat ensures !st(n).pc.Idle? {
      BlockedNotIdle(Follow(s, n));
    }
    NeverReturns(s, st, act);
  }

  lemma BlockedNotIdle(s: State)
    requires Blocked(s)
    ensures !s.pc.Idle?
  {}

  // ---------- calls that no schedule can stop ----------

  /** A call that cannot come to wait for a worker: a Stop with an empty channel, or an Apply that has
      room or will not get to its send. */
  ghost predicate Clear(s: State) {
    && |s.chans| > 0
    && if InApply(s.pc) then
         |Queue(s)| < s.size || (BeforeSend(s.pc) && (!Live(s) || PoolIsDone(s) || Done(s, s.pc.caller)))
       else (InPoll(s.pc) || InTeardown(s.pc)) && Queue(s) == []
  }

  lemma ClearApply(s: State, c: Case)
    requires Light(s) && Clear(s) && InApply(s.pc) && ControlReady(s, c)
    ensures Clear(DoApply(s, c)) || DoApply(s, c).pc.Idle?
  {}

  lemma ClearStop(s: State, c: Case)
    requires Light(s) && Clear(s) && !InApply(s.pc) && ControlReady(s, c)
    ensures Clear(DoControl(s, c)) || DoControl(s, c).pc.Idle?
  {
    if InPoll(s.pc) {
      assert DoControl(s, c) == DoPoll(s);
    } else {
      assert DoControl(s, c) == DoTeardown(s);
    }
  }

  lemma WorkerMeansLive(s: State, w: nat)
    requires Light(s) && BeforeSend(s.pc) && w < |s.workers| && !s.workers[w].phase.Exited?
    ensures Live(s)
  {}

  lemma ClearWork(s: State, w: nat, c: Case)
    requires Inv(s) && Clear(s) && Enabled(s, Work(w, c))
    ensures Clear(DoWork(s, w, c))
  {
    WorkMoves(s, w, c);
    MovedModes(s, DoWork(s, w, c), w);
    if BeforeSend(s.pc) {
      WorkerMeansLive(s, w);
    }
  }

  lemma ClearCancel(s: State, ctx: nat)
    requires Clear(s) && ctx < |s.ctxDone|
    ensures Clear(Do(s, Cancel(ctx)))
  {}

  lemma ClearStep(s: State, a: Action)
    requires Inv(s) && Clear(s) && Enabled(s, a)
    ensures Clear(Do(s, a)) || Do(s, a).pc.Idle?
  {
    match a
    case Work(w, c) => ClearWork(s, w, c);
    case Control(c) => if InApply(s.pc) { ClearApply(s, c); } else { ClearStop(s, c); }
    case Cancel(ctx) => ClearCancel(s, ctx);
    case _ =>
  }

  /** Along a behaviour the call stays clear until it returns. */
  lemma {:induction false} WalkClear(st: nat -> State, act: nat -> Action, n: nat, last: nat) returns (m: nat)
    requires IsBehaviour(st, act) && n <= last && Clear(st(n))
    ensures n <= m <= last && (st(m).pc.Idle? || (m == last && Clear(st(m))))
    decreases last - n
  {
    m := n;
    if n < last {
      BehaviourInv(st, act, n);
      assert StepAt(st, act, n);
      ClearStep(st(n), act(n));
      m := n + 1;
      if !st(n + 1).pc.Idle? {
        m := WalkClear(st, act, n + 1, last);
      }
    }
  }

  lemma ClearIsNotHung(s: State)
    requires Clear(s)
    ensures !Hung(s) && InCall(s.pc)
  {}

  lemma ClearReturns(s: State)
    requires Clear(s)
    ensures SureToReturn(s)
  {
    forall st: nat -> State, act: nat -> Action | IsBehaviour(st, act) && Fair(st, act) && st(0) == s
      ensures ReturnsLater(st)
    {
      ClearIsNotHung(s);
      var last := CallsReturn(st, act, 0);
      var m := WalkClear(st, act, 0, last);
      if !st(m).pc.Idle? {
        ClearIsNotHung(st(m));
      }
    }
  }

  // ---------- the exact conditions ----------

  /** A Stop is sure to return, under every fair schedule and every cancellation, exactly if the
      channel is empty when it is called. */
  lemma StopReturnsIff(s: State)
    requires Inv(s) && s.pc.StopCheck?
    ensures SureToReturn(s) <==> Queue(s) == []
  {
    if Queue(s) == [] {
      ClearReturns(s);
    } else {
      BlockedCanHang(s);
    }
  }

  /** An Apply is sure to return exactly if, when it is called, the pool is not live, there is room in
      the channel, or the pool's context or the caller's is done. */
  lemma ApplyReturnsIff(s: State)
    requires Inv(s) && s.pc.ApplyCheck?
    ensures SureToReturn(s) <==> !Live(s) || |Queue(s)| < s.size || PoolIsDone(s) || Done(s, s.pc.caller)
  {
    if !Live(s) || |Queue(s)| < s.size || PoolIsDone(s) || Done(s, s.pc.caller) {
      ClearReturns(s);
    } else {
      BlockedCanHang(s);
    }
  }

  /** A Stop called on a live pool with an empty channel returns nil, whatever is cancelled. */
  lemma EmptyStopReturnsNil(st: nat -> State, act: nat -> Action, n: nat) returns (m: nat)
    requires IsBehaviour(st, act) && Fair(st, act)
    requires st(n).pc == StopCheck && |st(n).chans| > 0 && Live(st(n)) && Queue(st(n)) == []
    ensures n < m && st(m).pc == Idle(Stopped)
  {
    m := LiveStopReturns(st, act, n);
    if Stopping(st(m)) {
      var k := WalkClear(st, act, n, m);
      assert Stopping(st(k));
      ClearIsNotHung(st(m));
    }
  }
}
