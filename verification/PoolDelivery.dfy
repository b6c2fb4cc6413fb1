/** Every accepted command is eventually applied, Stop or no Stop. */
module PoolDelivery {
  import opened Options
  import opened PoolModel
  import opened PoolInvariant
  import opened PoolLiveness

  // ---------- a command in the channel ----------

  /** Ticket `t` is queued, and nothing that would make the workers leave has happened. */
  ghost predicate Pending(s: State, t: nat) {
    |s.chans| > 0 && Uncancelled(s) && |s.taken| <= t < |s.accepted|
  }

  /** A bound on the worker steps left until ticket `t` is received. */
  function Wait(s: State, t: nat): int {
    6 * (t + 1 - |s.taken|) + Total(s.workers, PhaseRank)
  }

  lemma PendingIsLive(s: State, t: nat)
    requires Inv(s) && Pending(s, t)
    ensures Queue(s) != [] && Live(s) && s.size > 0
    ensures AtRest(s) && !InTeardown(s.pc) && !s.pc.RunSpawn? && !s.pc.RunMark?
  {}

  /** The worker spawned last is there, and can move. */
  lemma PendingCan(s: State, t: nat)
    requires Inv(s) && Pending(s, t)
    ensures |s.workers| > 0 && WorkerCan(s, |s.workers| - 1)
  {
    PendingIsLive(s, t);
    UncancelledMeans(s);
    var w := |s.workers| - 1;
    assert WorkerOk(s, s.workers[w]);
    assert Enabled(s, Work(w, DataCase));
  }

  /** What the controller leaves alone while a command is queued. */
  ghost predicate Unmoved(s: State, s': State) {
    && |s'.chans| == |s.chans| && s'.size == s.size && s'.workers == s.workers
    && s'.poolCtx == s.poolCtx && s'.taken == s.taken && |s.accepted| <= |s'.accepted|
  }

  lemma PendingControl(s: State, t: nat, c: Case)
    requires Inv(s) && Pending(s, t) && ControlReady(s, c)
    ensures Unmoved(s, DoControl(s, c)) && DoControl(s, c).ctxDone == s.ctxDone
  {
    PendingIsLive(s, t);
    if InRun(s.pc) {
      assert DoControl(s, c) == DoRun(s);
    } else if InReconn(s.pc) {
      assert DoControl(s, c) == DoReconnect(s);
    } else if InApply(s.pc) {
      assert DoControl(s, c) == DoApply(s, c);
    } else {
      assert DoControl(s, c) == DoPoll(s);
    }
  }

  lemma PendingOther(s: State, t: nat, a: Action)
    requires Inv(s) && Pending(s, t) && Enabled(s, a) && NoCancelAt(s, a) && !a.Work? && !a.Control?
    ensures Unmoved(s, Do(s, a)) && Pending(Do(s, a), t)
  {
    var s' := Do(s, a);
    forall ctx: nat | Watched(s, ctx) && Done(s', ctx) ensures Done(s, ctx) {
      WatchedKnown(s, ctx);
    }
    WatchKept(s, s');
  }

  lemma WatchedKnown(s: State, ctx: nat)
    requires Inv(s) && Watched(s, ctx)
    ensures ctx < |s.ctxDone|
  {
    if s.poolCtx != Some(ctx) {
      var w :| 0 <= w < |s.workers| && s.workers[w].gen == Gen(s) && s.workers[w].ctx == ctx;
      assert WorkerOk(s, s.workers[w]);
    }
  }

  lemma PendingWork(s: State, t: nat, w: nat, c: Case)
    requires Inv(s) && Pending(s, t) && Enabled(s, Work(w, c))
    ensures var s' := DoWork(s, w, c);
      && |s'.workers| == |s.workers| && Wait(s', t) < Wait(s, t)
      && (Pending(s', t) || t < |s'.taken|)
  {
    var s' := DoWork(s, w, c);
    WorkMoves(s, w, c);
    assert WorkerOk(s, s.workers[w]);
    PhaseFalls(s, w, c);
    TotalUpdate(s.workers, w, s'.workers[w], PhaseRank);
    WatchKept(s, s');
  }

  lemma PendingStep(s: State, t: nat, a: Action)
    requires Inv(s) && Pending(s, t) && Enabled(s, a) && NoCancelAt(s, a)
    ensures var s' := Do(s, a);
      && |s'.workers| == |s.workers|
      && (Pending(s', t) || t < |s'.taken|)
      && (if a.Work? then Wait(s', t) < Wait(s, t) else Wait(s', t) == Wait(s, t))
  {
    match a
    case Work(w, c) => PendingWork(s, t, w, c);
    case Control(c) =>
      PendingControl(s, t, c);
      WatchKept(s, DoControl(s, c));
    case _ => PendingOther(s, t, a);
  }

  lemma PendingStepAt(st: nat -> State, act: nat -> Action, n: nat, t: nat)
    requires IsBehaviour(st, act) && NoCancelFrom(st, act, n) && Pending(st(n), t)
    ensures |st(n + 1).workers| == |st(n).workers| > 0 && WorkerCan(st(n), |st(n).workers| - 1)
    ensures Pending(st(n + 1), t) || t < |st(n + 1).taken|
    ensures if act(n).Work? then Wait(st(n + 1), t) < Wait(st(n), t) else Wait(st(n + 1), t) == Wait(st(n), t)
    ensures NoCancelFrom(st, act, n + 1)
  {
    BehaviourInv(st, act, n);
    PendingCan(st(n), t);
    assert StepAt(st, act, n);
    assert NoCancelAt(st(n), act(n));
    PendingStep(st(n), t, act(n));
  }

  /** Until the last worker is served, the ticket is received or the bound falls. */
  lemma {:induction false} WalkPending(st: nat -> State, act: nat -> Action, n: nat, last: nat, t: nat) returns (m: nat)
    requires IsBehaviour(st, act) && NoCancelFrom(st, act, n) && Pending(st(n), t) && n <= last
    requires |st(n).workers| > 0 && WorkerServed(st, act, |st(n).workers| - 1, last)
    ensures n < m && NoCancelFrom(st, act, m)
    ensures t < |st(m).taken| || (Pending(st(m), t) && Wait(st(m), t) < Wait(st(n), t))
    decreases last - n
  {
    PendingStepAt(st, act, n, t);
    m := n + 1;
    if !act(n).Work? && t >= |st(n + 1).taken| {
      m := WalkPending(st, act, n + 1, last, t);
    }
  }

  ghost function WaitLeft(s: State, t: nat): nat
    requires |s.taken| <= t
  {
    RankTotal(s.workers);
    Wait(s, t)
  }

  /** A queued command is received. */
  lemma {:induction false} UntilTaken(st: nat -> State, act: nat -> Action, n: nat, t: nat) returns (m: nat)
    requires IsBehaviour(st, act) && Fair(st, act) && NoCancelFrom(st, act, n) && Pending(st(n), t)
    ensures n <= m && t < |st(m).taken|
    decreases WaitLeft(st(n), t)
  {
    PendingStepAt(st, act, n, t);
    var last := WhenServed(st, act, |st(n).workers| - 1, n);
    m := WalkPending(st, act, n, last, t);
    if t >= |st(m).taken| {
      m := UntilTaken(st, act, m, t);
    }
  }

  // ---------- a command in a worker's hands ----------

  ghost predicate Holds(s: State, w: nat, t: nat) {
    w < |s.workers| && Holding(s.workers[w].phase) && s.workers[w].phase.ticket == t
  }

  lemma {:induction false} HeldHolder(ws: seq<Worker>, t: nat) returns (w: nat)
    requires t in Held(ws)
    ensures w < |ws| && Holding(ws[w].phase) && ws[w].phase.ticket == t
  {
    if t in HeldBy(ws[|ws| - 1].phase) {
      w := |ws| - 1;
    } else {
      w := HeldHolder(ws[..|ws| - 1], t);
    }
  }

  /** A received command has been applied, or some worker holds it. */
  lemma TakenIsHeldOrApplied(s: State, t: nat) returns (w: nat)
    requires Inv(s) && t < |s.taken|
    ensures t in s.applied || Holds(s, w, t)
  {
    w := 0;
    assert s.taken[t] == (s.taken + Queue(s))[t] == t;
    assert t in multiset(s.taken);
    if t !in s.applied {
      w := HeldHolder(s.workers, t);
    }
  }

  /** Nobody but the worker itself changes its phase. */
  lemma OthersKeepPhase(s: State, a: Action, w: nat)
    requires Inv(s) && Enabled(s, a) && w < |s.workers| && !(a.Work? && a.w == w)
    ensures w < |Do(s, a).workers| && Do(s, a).workers[w].phase == s.workers[w].phase
  {
    match a
    case Work(v, c) => WorkMoves(s, v, c);
    case Control(c) => ControlKeepsWorkers(s, c);
    case _ =>
  }

  lemma ControlKeepsWorkers(s: State, c: Case)
    requires ControlReady(s, c)
    ensures |s.workers| <= |DoControl(s, c).workers|
    ensures forall w :: 0 <= w < |s.workers| ==> DoControl(s, c).workers[w] == s.workers[w]
  {
    if InRun(s.pc) {
      assert DoControl(s, c) == DoRun(s);
    } else if InReconn(s.pc) {
      assert DoReconnect(s).workers == s.workers;
    } else if InApply(s.pc) {
      assert DoApply(s, c).workers == s.workers;
    } else if InPoll(s.pc) {
      assert DoPoll(s).workers == s.workers;
    } else {
      assert DoTeardown(s).workers == s.workers;
    }
  }

  lemma HolderMoves(s: State, w: nat, t: nat, c: Case)
    requires Holds(s, w, t) && WorkReady(s, s.workers[w], c)
    ensures var s' := DoWork(s, w, c);
      if s.workers[w].phase.Received? then Holds(s', w, t) && s'.workers[w].phase.Counted? else t in s'.applied
  {}

  /** The holder at `m` is one step further with ticket `t` than at `n`. */
  ghost predicate MovedOn(st: nat -> State, n: nat, m: nat, w: nat, t: nat) {
    Holds(st(n), w, t) &&
    if st(n).workers[w].phase.Received? then Holds(st(m), w, t) && st(m).workers[w].phase.Counted?
    else t in st(m).applied
  }

  lemma HolderStepAt(st: nat -> State, act: nat -> Action, n: nat, w: nat, t: nat)
    requires IsBehaviour(st, act) && Holds(st(n), w, t)
    ensures WorkerCan(st(n), w)
    ensures if act(n).Work? && act(n).w == w then MovedOn(st, n, n + 1, w, t)
            else Holds(st(n + 1), w, t) && st(n + 1).workers[w].phase == st(n).workers[w].phase
  {
    BehaviourInv(st, act, n);
    assert StepAt(st, act, n);
    assert Enabled(st(n), Work(w, DataCase));
    if act(n).Work? && act(n).w == w {
      HolderMoves(st(n), w, t, act(n).c);
    } else {
      OthersKeepPhase(st(n), act(n), w);
    }
  }

  /** A worker that holds a command moves on, whatever happens around it. */
  lemma {:induction false} HolderServed(st: nat -> State, act: nat -> Action, n: nat, w: nat, t: nat, last: nat)
    returns (m: nat)
    requires IsBehaviour(st, act) && Holds(st(n), w, t) && n <= last && WorkerServed(st, act, w, last)
    ensures n < m && MovedOn(st, n, m, w, t)
    decreases last - n
  {
    HolderStepAt(st, act, n, w, t);
    m := n + 1;
    if !(act(n).Work? && act(n).w == w) {
      m := HolderServed(st, act, n + 1, w, t, last);
    }
  }

  /** A received command is applied, even if everything is cancelled meanwhile. */
  lemma HeldIsApplied(st: nat -> State, act: nat -> Action, n: nat, w: nat, t: nat) returns (m: nat)
    requires IsBehaviour(st, act) && Fair(st, act) && Holds(st(n), w, t)
    ensures n <= m && t in st(m).applied
  {
    var last := WhenServed(st, act, w, n);
    m := HolderServed(st, act, n, w, t, last);
    if t !in st(m).applied {
      last := WhenServed(st, act, w, m);
      m := HolderServed(st, act, m, w, t, last);
    }
  }

  // ---------- every command ----------

  /** Under every fair schedule, whatever the controller does, every accepted command is applied: one
      that was received in any case, and one still queued as long as nobody outside cancels the pool's
      context or a worker's. */
  lemma AcceptedIsApplied(st: nat -> State, act: nat -> Action, n: nat, t: nat) returns (m: nat)
    requires IsBehaviour(st, act) && Fair(st, act) && t < |st(n).accepted|
    requires t < |st(n).taken| || (|st(n).chans| > 0 && Uncancelled(st(n)) && NoCancelFrom(st, act, n))
    ensures n <= m && t in st(m).applied
  {
    m := n;
    if t >= |st(n).taken| {
      m := UntilTaken(st, act, n, t);
    }
    BehaviourInv(st, act, m);
    var w := TakenIsHeldOrApplied(st(m), t);
    if t !in st(m).applied {
      m := HeldIsApplied(st, act, m, w, t);
    }
  }

  // ---------- workers that leave ----------

  /** Worker `w` has left, or its own context or the pool's is done. */
  ghost predicate Leaving(s: State, w: nat) {
    w < |s.workers| && (s.workers[w].phase.Exited? || Done(s, s.workers[w].ctx) || PoolIsDone(s))
  }

  /** Only when nobody is left does the pool's context change. */
  ghost predicate KeepsDone(s: State, s': State) {
    && (forall c: nat :: Done(s, c) ==> Done(s', c))
    && (PoolIsDone(s) ==> PoolIsDone(s') || AllExited(s.workers))
  }

  lemma PlainControl(s: State, c: Case)
    requires Light(s) && ControlReady(s, c) && !InReconn(s.pc) && !InTeardown(s.pc)
    ensures DoControl(s, c).ctxDone == s.ctxDone && DoControl(s, c).poolCtx == s.poolCtx
  {
    if InRun(s.pc) {
      assert DoControl(s, c) == DoRun(s);
    } else if InApply(s.pc) {
      assert DoControl(s, c) == DoApply(s, c);
    } else {
      assert DoControl(s, c) == DoPoll(s);
    }
  }

  lemma ControlKeepsDone(s: State, c: Case)
    requires Light(s) && ControlReady(s, c)
    ensures KeepsDone(s, DoControl(s, c))
  {
    if InReconn(s.pc) {
      ReconnKeepsDone(s);
    } else if InTeardown(s.pc) {
      TeardownKeepsDone(s, c);
    } else {
      PlainControl(s, c);
    }
  }

  lemma ReconnKeepsDone(s: State)
    requires Light(s) && InReconn(s.pc)
    ensures KeepsDone(s, DoReconnect(s))
  {}

  lemma TeardownKeepsDone(s: State, c: Case)
    requires Light(s) && InTeardown(s.pc) && ControlReady(s, c)
    ensures KeepsDone(s, DoTeardown(s))
  {}

  lemma StepKeepsDone(s: State, a: Action)
    requires Inv(s) && Enabled(s, a)
    ensures KeepsDone(s, Do(s, a))
  {
    match a
    case Work(w, c) => WorkMoves(s, w, c);
    case Control(c) => ControlKeepsDone(s, c);
    case _ =>
  }

  lemma ControlKeepsContexts(s: State, a: Action, w: nat)
    requires Inv(s) && Enabled(s, a) && w < |s.workers|
    ensures w < |Do(s, a).workers| && Do(s, a).workers[w].ctx == s.workers[w].ctx
  {
    match a
    case Work(v, c) => WorkMoves(s, v, c);
    case Control(c) => ControlKeepsWorkers(s, c);
    case _ =>
  }

  lemma LeavingCan(s: State, w: nat)
    requires Inv(s) && Leaving(s, w) && !s.workers[w].phase.Exited?
    ensures WorkerCan(s, w)
  {
    var c := if PoolIsDone(s) then PoolDoneCase else CtxDoneCase;
    assert WorkerOk(s, s.workers[w]);
    assert Enabled(s, Work(w, c));
  }

  /** A step of a worker that finds the channel empty brings it nearer to its end. */
  lemma LeavingWorks(s: State, w: nat, c: Case)
    requires Inv(s) && Queue(s) == [] && Enabled(s, Work(w, c))
    ensures var s' := DoWork(s, w, c);
            w < |s'.workers| && PhaseRank(s'.workers[w].phase) < PhaseRank(s.workers[w].phase)
  {
    WorkMoves(s, w, c);
    assert WorkerOk(s, s.workers[w]);
    PhaseFalls(s, w, c);
  }

  lemma LeavingStepAt(st: nat -> State, act: nat -> Action, n: nat, w: nat)
    requires IsBehaviour(st, act) && Leaving(st(n), w) && !st(n).workers[w].phase.Exited?
    requires |st(n).chans| > 0 && Queue(st(n)) == []
    ensures Leaving(st(n + 1), w) && WorkerCan(st(n), w)
    ensures if act(n).Work? && act(n).w == w
            then PhaseRank(st(n + 1).workers[w].phase) < PhaseRank(st(n).workers[w].phase)
            else st(n + 1).workers[w].phase == st(n).workers[w].phase
  {
    BehaviourInv(st, act, n);
    assert StepAt(st, act, n);
    LeavingCan(st(n), w);
    StepKeepsDone(st(n), act(n));
    ControlKeepsContexts(st(n), act(n), w);
    if act(n).Work? && act(n).w == w {
      LeavingWorks(st(n), w, act(n).c);
    } else {
      OthersKeepPhase(st(n), act(n), w);
    }
  }

  /** Nothing is queued from `n` on. */
  ghost predicate NothingQueued(st: nat -> State, n: nat) {
    forall k: nat :: n <= k ==> EmptyAt(st, k)
  }

  ghost predicate EmptyAt(st: nat -> State, k: nat) {
    |st(k).chans| > 0 && Queue(st(k)) == []
  }

  lemma {:induction false} WalkLeaving(st: nat -> State, act: nat -> Action, n: nat, w: nat, last: nat) returns (m: nat)
    requires IsBehaviour(st, act) && NothingQueued(st, n) && Leaving(st(n), w) && !st(n).workers[w].phase.Exited?
    requires n <= last && WorkerServed(st, act, w, last)
    ensures n < m && Leaving(st(m), w) && PhaseRank(st(m).workers[w].phase) < PhaseRank(st(n).workers[w].phase)
    decreases last - n
  {
    assert EmptyAt(st, n);
    LeavingStepAt(st, act, n, w);
    m := n + 1;
    if !(act(n).Work? && act(n).w == w) {
      m := WalkLeaving(st, act, n + 1, w, last);
    }
  }

  /** Under every fair schedule a worker whose own context is done, or whose pool's context is, leaves if
      nothing is queued from then on. */
  lemma {:induction false} WorkerLeaves(st: nat -> State, act: nat -> Action, n: nat, w: nat) returns (m: nat)
    requires IsBehaviour(st, act) && Fair(st, act) && NothingQueued(st, n)
    requires Leaving(st(n), w)
    ensures n <= m && w < |st(m).workers| && st(m).workers[w].phase.Exited?
    decreases PhaseRank(st(n).workers[w].phase)
  {
    m := n;
    if !st(n).workers[w].phase.Exited? {
      var last := WhenServed(st, act, w, n);
      m := WalkLeaving(st, act, n, w, last);
      m := WorkerLeaves(st, act, m, w);
    }
  }
}
