/** Apply and Stop return under every fair schedule, except from states in which every worker has
    left on a cancelled context with work still in the channel. */
module PoolLiveness {
  import opened Options
  import opened PoolModel
  import opened PoolInvariant

  // ---------- infinite runs and fairness ----------

  ghost predicate StepAt(st: nat -> State, act: nat -> Action, n: nat) {
    Enabled(st(n), act(n)) && st(n + 1) == Do(st(n), act(n))
  }

  /** An infinite run, from any state the invariant allows. */
  ghost predicate IsBehaviour(st: nat -> State, act: nat -> Action) {
    Inv(st(0)) && forall n: nat :: StepAt(st, act, n)
  }

  ghost predicate WorkerCan(s: State, w: nat) {
    exists c: Case :: Enabled(s, Work(w, c))
  }

  ghost predicate ControlCan(s: State) {
    exists c: Case :: Enabled(s, Control(c))
  }

  ghost predicate WorkerServed(st: nat -> State, act: nat -> Action, w: nat, m: nat) {
    (act(m).Work? && act(m).w == w) || !WorkerCan(st(m), w)
  }

  ghost predicate ControlServed(st: nat -> State, act: nat -> Action, m: nat) {
    act(m).Control? || !ControlCan(st(m))
  }

  ghost predicate WorkerServedLater(st: nat -> State, act: nat -> Action, w: nat, n: nat) {
    exists m: nat :: n <= m && WorkerServed(st, act, w, m)
  }

  ghost predicate ControlServedLater(st: nat -> State, act: nat -> Action, n: nat) {
    exists m: nat :: n <= m && ControlServed(st, act, m)
  }

  /** Weak fairness: no goroutine can move from some time on without ever moving. */
  ghost predicate Fair(st: nat -> State, act: nat -> Action) {
    && (forall w: nat, n: nat :: WorkerServedLater(st, act, w, n))
    && (forall n: nat :: ControlServedLater(st, act, n))
  }

  lemma NextInv(s: State, a: Action, s': State)
    requires Inv(s) && Enabled(s, a) && s' == Do(s, a)
    ensures Inv(s')
  {
    StepInv(s, a);
  }

  lemma StepAtInv(st: nat -> State, act: nat -> Action, m: nat, n: nat)
    requires StepAt(st, act, m) && n == m + 1 && Inv(st(m))
    ensures Inv(st(n))
  {
    NextInv(st(m), act(m), st(n));
  }

  lemma BehaviourStep(st: nat -> State, act: nat -> Action, m: nat, n: nat)
    requires IsBehaviour(st, act) && n == m + 1 && Inv(st(m))
    ensures Inv(st(n))
  {
    assert StepAt(st, act, m);
    StepAtInv(st, act, m, n);
  }

  /** Induction along a run. */
  lemma {:induction false} HoldsAlways(holds: nat -> bool, n: nat)
    requires holds(0) && forall k: nat :: holds(k) ==> holds(k + 1)
    ensures holds(n)
  {
    if n > 0 {
      HoldsAlways(holds, n - 1);
      assert holds(n - 1 + 1);
    }
  }

  lemma BehaviourInv(st: nat -> State, act: nat -> Action, n: nat)
    requires IsBehaviour(st, act)
    ensures Inv(st(n))
  {
    var holds := (k: nat) => Inv(st(k));
    forall k: nat | holds(k) ensures holds(k + 1) {
      BehaviourStep(st, act, k, k + 1);
    }
    HoldsAlways(holds, n);
  }

  // ---------- the measure ----------

  function PhaseRank(p: Phase): int {
    match p
    case Exited => 0
    case Loaded(_) => 1
    case Top => 2
    case Ran(_) => 3
    case Counted(_) => 4
    case Received(_) => 5
  }

  /** An upper bound on the worker steps left before every worker waits or has exited. */
  function Rank(s: State): int
    requires |s.chans| > 0
  {
    6 * |Queue(s)| + Total(s.workers, PhaseRank)
  }

  lemma {:induction false} RankTotal(ws: seq<Worker>)
    ensures Total(ws, PhaseRank) >= 0
  {
    if ws != [] {
      RankTotal(ws[..|ws| - 1]);
    }
  }

  lemma PhaseFalls(s: State, w: nat, c: Case)
    requires WellFormed(s) && w < |s.workers| && WorkerOk(s, s.workers[w]) && WorkReady(s, s.workers[w], c)
    ensures w < |DoWork(s, w, c).workers|
    ensures var was, now := s.workers[w].phase, DoWork(s, w, c).workers[w].phase;
            PhaseRank(now) < PhaseRank(was) || (now.Received? && was.Loaded?)
  {
    if s.workers[w].phase.Loaded? && c.DataCase? {
      assert s.workers[w].phase.ch == Some(Gen(s));
    }
  }

  /** Every step of a worker lowers the rank, whatever the contexts do. */
  lemma WorkLowersRank(s: State, w: nat, c: Case)
    requires Inv(s) && Enabled(s, Work(w, c))
    ensures |DoWork(s, w, c).chans| > 0 && Rank(DoWork(s, w, c)) < Rank(s)
  {
    WorkMoves(s, w, c);
    assert WorkerOk(s, s.workers[w]);
    PhaseFalls(s, w, c);
    TotalUpdate(s.workers, w, DoWork(s, w, c).workers[w], PhaseRank);
    if DoWork(s, w, c).workers[w].phase.Received? {
      assert |Queue(s)| == 1 + |Queue(DoWork(s, w, c))|;
    }
  }

  // ---------- one step of everything else ----------

  /** An Apply or a Stop in progress. */
  predicate InCall(p: Pc) { InApply(p) || InPoll(p) || InTeardown(p) }

  /** The controller's remaining steps while nothing else happens and no test fails. */
  function ControlRank(p: Pc): nat {
    match p
    case ApplyCheck(_, _) => 4
    case ApplyLoad(_, _) => 3
    case ApplySelect(_, _, _) => 2
    case ApplySend(_, _) => 1
    case StopCheck => 10
    case StopLoad => 9
    case StopInWork(_) => 8
    case StopLen(_) => 7
    case StopCancel(_) => 6
    case StopClose(_) => 5
    case StopNil => 4
    case StopWait => 3
    case StopClear => 2
    case StopUnset => 1
    case _ => 0
  }

  /** What a call in progress leaves alone until it returns. */
  ghost predicate SameQueue(s: State, s': State)
    requires |s.chans| > 0
  {
    && |s'.chans| == |s.chans| && s'.workers == s.workers
    && Queue(s') == Queue(s)
    && (s.chans[Gen(s)].closed ==> s'.chans[Gen(s)].closed)
    && (forall c :: Done(s, c) ==> Done(s', c))
    && (s'.poolCtx == s.poolCtx || s'.poolCtx.None?)
    && s'.fault.None?
  }

  lemma CallKeeps(s: State, c: Case)
    requires Light(s) && InCall(s.pc) && ControlReady(s, c)
    ensures var s' := DoControl(s, c);
            s'.pc.Idle? || (InCall(s'.pc) && SameQueue(s, s'))
  {
    if InApply(s.pc) {
      assert DoControl(s, c) == DoApply(s, c);
    } else if InPoll(s.pc) {
      assert DoControl(s, c) == DoPoll(s);
    } else {
      assert DoControl(s, c) == DoTeardown(s);
    }
  }

  lemma OthersKeep(s: State, a: Action)
    requires Light(s) && InCall(s.pc) && Enabled(s, a) && !a.Work? && !a.Control?
    ensures Do(s, a).pc == s.pc && SameQueue(s, Do(s, a))
  {}

  /** A worker that can move keeps being able to until it does. */
  lemma StillCan(s: State, s': State, w: nat)
    requires Inv(s) && SameQueue(s, s') && WorkerCan(s, w)
    ensures WorkerCan(s', w)
  {
    var c :| Enabled(s, Work(w, c));
    assert WorkerOk(s, s.workers[w]);
    assert Enabled(s', Work(w, c));
  }

  // ---------- hanging ----------

  /** Every worker has left, and what the call waits for needs one: Stop polls a channel that
      nobody drains, or Apply sends on a full one. */
  ghost predicate Hung(s: State)
    requires |s.chans| > 0
  {
    && AllExited(s.workers)
    && ((InPoll(s.pc) && Live(s) && Queue(s) != [])
        || (s.pc.ApplySend? && Live(s) && |Queue(s)| >= s.size))
  }

  lemma HungControl(s: State, c: Case)
    requires Light(s) && Hung(s) && ControlReady(s, c)
    ensures DoControl(s, c) == s.(pc := DoControl(s, c).pc) && InPoll(DoControl(s, c).pc)
  {}

  /** A hung call never returns. */
  lemma HungForever(s: State, a: Action)
    requires Inv(s) && Hung(s) && Enabled(s, a)
    ensures |Do(s, a).chans| > 0 && Hung(Do(s, a)) && !Do(s, a).pc.Idle?
  {
    if a.Control? {
      HungControl(s, a.c);
    }
  }

  /** A call can only hang if the pool's context or a worker's was cancelled, or if `size` is 0. */
  lemma HungOnlyIfCancelled(s: State)
    requires Inv(s) && Hung(s) && s.size > 0
    ensures PoolIsDone(s) || exists w :: 0 <= w < |s.workers| && s.workers[w].gen == Gen(s) && Done(s, s.workers[w].ctx)
  {
    assert WorkerOk(s, s.workers[|s.workers| - 1]);
  }

  // ---------- when no worker can move ----------

  ghost predicate Waiting(s: State) {
    forall w: nat :: !WorkerCan(s, w)
  }

  lemma WaitingWorker(s: State, w: nat)
    requires Light(s) && w < |s.workers| && WorkerOk(s, s.workers[w]) && !WorkerCan(s, w)
    ensures s.workers[w].phase.Exited? || s.workers[w].phase == Loaded(Some(Gen(s)))
    ensures Queue(s) != [] || s.chans[Gen(s)].closed || PoolIsDone(s) ==> s.workers[w].phase.Exited?
  {
    assert !Enabled(s, Work(w, DataCase));
    assert !Enabled(s, Work(w, PoolDoneCase));
  }

  lemma {:induction false} NoneCounted(ws: seq<Worker>)
    requires forall w :: 0 <= w < |ws| ==> ws[w].phase.Exited? || ws[w].phase.Loaded?
    ensures Total(ws, CountedBit) == 0
  {
    if ws != [] {
      NoneCounted(ws[..|ws| - 1]);
    }
  }

  lemma WaitingPool(s: State)
    requires Inv(s) && Waiting(s)
    ensures s.inWork == 0
    ensures Queue(s) != [] || s.chans[Gen(s)].closed || PoolIsDone(s) || s.size == 0 ==> AllExited(s.workers)
    ensures AllExited(s.workers) ==> s.wg == 0
  {
    forall w | 0 <= w < |s.workers|
      ensures s.workers[w].phase.Exited? || s.workers[w].phase.Loaded?
      ensures Queue(s) != [] || s.chans[Gen(s)].closed || PoolIsDone(s) ==> s.workers[w].phase.Exited?
    {
      assert WorkerOk(s, s.workers[w]);
      WaitingWorker(s, w);
    }
    NoneCounted(s.workers);
    LiveTotal(s.workers);
  }

  /** Then the controller's next step leads it closer to returning, unless it hangs. */
  lemma WaitingControl(s: State, c: Case)
    requires Light(s) && s.inWork == 0 && InCall(s.pc) && ControlReady(s, c)
    requires InPoll(s.pc) && Live(s) ==> Queue(s) == []
    ensures var s' := DoControl(s, c);
            s'.pc.Idle? || ControlRank(s'.pc) < ControlRank(s.pc)
  {
    if InApply(s.pc) {
      assert DoControl(s, c) == DoApply(s, c);
    } else if InPoll(s.pc) {
      assert DoControl(s, c) == DoPoll(s);
    } else {
      assert DoControl(s, c) == DoTeardown(s);
    }
  }

  lemma WaitingControlCan(s: State)
    requires Light(s) && InCall(s.pc) && |Queue(s)| <= s.size
    requires s.pc.ApplySend? ==> |Queue(s)| < s.size
    requires s.pc.StopWait? ==> s.wg == 0
    ensures ControlCan(s)
  {
    var c := if s.pc.ApplySelect? && PoolIsDone(s) then PoolDoneCase
             else if s.pc.ApplySelect? && Done(s, s.pc.caller) then CtxDoneCase
             else DataCase;
    assert s.fault.None? && ControlReady(s, c);
    assert Enabled(s, Control(c));
  }

  // ---------- walking along a fair run ----------

  /** The three things one step of a run can do to a call in progress. */
  lemma CallStepAt(st: nat -> State, act: nat -> Action, n: nat)
    requires IsBehaviour(st, act) && InCall(st(n).pc)
    ensures |st(n).chans| > 0 && |st(n + 1).chans| > 0
    ensures act(n).Work? ==> st(n + 1).pc == st(n).pc && Rank(st(n + 1)) < Rank(st(n))
    ensures !act(n).Work? ==> st(n + 1).pc.Idle? || (InCall(st(n + 1).pc) && SameQueue(st(n), st(n + 1)))
    ensures !act(n).Work? && !act(n).Control? ==> st(n + 1).pc == st(n).pc
  {
    BehaviourInv(st, act, n);
    BehaviourInv(st, act, n + 1);
    assert StepAt(st, act, n);
    match act(n)
    case Work(w, c) => WorkLowersRank(st(n), w, c); WorkMoves(st(n), w, c);
    case Control(c) => CallKeeps(st(n), c);
    case _ => OthersKeep(st(n), act(n));
  }

  /** A step that is not a worker's leaves worker `w` able to move. */
  lemma CanStepAt(st: nat -> State, act: nat -> Action, n: nat, w: nat)
    requires IsBehaviour(st, act) && InCall(st(n).pc) && WorkerCan(st(n), w)
    requires !act(n).Work? && !st(n + 1).pc.Idle?
    ensures |st(n).chans| > 0 && |st(n + 1).chans| > 0
    ensures InCall(st(n + 1).pc) && WorkerCan(st(n + 1), w) && Rank(st(n + 1)) == Rank(st(n))
  {
    CallStepAt(st, act, n);
    BehaviourInv(st, act, n);
    StillCan(st(n), st(n + 1), w);
  }

  lemma WorkOrReturnAt(st: nat -> State, act: nat -> Action, n: nat)
    requires IsBehaviour(st, act) && InCall(st(n).pc) && (act(n).Work? || st(n + 1).pc.Idle?)
    ensures |st(n).chans| > 0 && |st(n + 1).chans| > 0
    ensures st(n + 1).pc.Idle? || (InCall(st(n + 1).pc) && Rank(st(n + 1)) < Rank(st(n)))
  {
    CallStepAt(st, act, n);
  }

  /** Until worker `w` is served, the call returns or the rank falls. */
  lemma {:induction false} WalkToServed(st: nat -> State, act: nat -> Action, n: nat, w: nat, last: nat)
    returns (m: nat)
    requires IsBehaviour(st, act) && InCall(st(n).pc) && WorkerCan(st(n), w)
    requires n <= last && WorkerServed(st, act, w, last)
    ensures n < m && |st(n).chans| > 0 && |st(m).chans| > 0
    ensures st(m).pc.Idle? || (InCall(st(m).pc) && Rank(st(m)) < Rank(st(n)))
    decreases last - n
  {
    if act(n).Work? || st(n + 1).pc.Idle? {
      WorkOrReturnAt(st, act, n);
      m := n + 1;
    } else {
      CanStepAt(st, act, n, w);
      m := WalkToServed(st, act, n + 1, w, last);
    }
  }

  lemma WhenServed(st: nat -> State, act: nat -> Action, w: nat, n: nat) returns (last: nat)
    requires Fair(st, act)
    ensures n <= last && WorkerServed(st, act, w, last)
  {
    assert WorkerServedLater(st, act, w, n);
    last :| n <= last && WorkerServed(st, act, w, last);
  }

  /** While a worker can move, the call returns or the rank falls. */
  lemma WorkersProgress(st: nat -> State, act: nat -> Action, n: nat, w: nat) returns (m: nat)
    requires IsBehaviour(st, act) && Fair(st, act) && InCall(st(n).pc) && WorkerCan(st(n), w)
    ensures n < m && |st(n).chans| > 0 && |st(m).chans| > 0
    ensures st(m).pc.Idle? || (InCall(st(m).pc) && Rank(st(m)) < Rank(st(n)))
  {
    var last := WhenServed(st, act, w, n);
    m := WalkToServed(st, act, n, w, last);
  }

  /** When no worker can move and the call is not hung, the controller can, and only moves forward. */
  lemma WaitingStepAt(st: nat -> State, act: nat -> Action, n: nat)
    requires IsBehaviour(st, act) && InCall(st(n).pc) && |st(n).chans| > 0 && |st(n + 1).chans| > 0
    requires Waiting(st(n)) && !Hung(st(n))
    ensures ControlCan(st(n)) && !act(n).Work?
    ensures st(n + 1).pc.Idle? || Rank(st(n + 1)) == Rank(st(n))
    ensures act(n).Control? ==> st(n + 1).pc.Idle? || ControlRank(st(n + 1).pc) < ControlRank(st(n).pc)
    ensures !act(n).Control? ==> st(n + 1).pc == st(n).pc
  {
    BehaviourInv(st, act, n);
    WaitingPool(st(n));
    WaitingControlCan(st(n));
    assert StepAt(st, act, n);
    assert !act(n).Work? by {
      assert act(n).Work? ==> WorkerCan(st(n), act(n).w);
    }
    CallStepAt(st, act, n);
    if act(n).Control? {
      WaitingControl(st(n), act(n).c);
    }
  }

  lemma HungNext(st: nat -> State, act: nat -> Action, n: nat)
    requires IsBehaviour(st, act) && |st(n).chans| > 0 && Hung(st(n))
    ensures |st(n + 1).chans| > 0 && Hung(st(n + 1))
  {
    BehaviourInv(st, act, n);
    assert StepAt(st, act, n);
    HungForever(st(n), act(n));
  }

  /** What a call has reached at `m`, compared with `n`. */
  ghost predicate Closer(st: nat -> State, n: nat, m: nat)
    requires |st(n).chans| > 0 && |st(m).chans| > 0
  {
    || st(m).pc.Idle?
    || Hung(st(m))
    || (InCall(st(m).pc) && (Rank(st(m)) < Rank(st(n)) ||
                             (Rank(st(m)) == Rank(st(n)) && ControlRank(st(m).pc) < ControlRank(st(n).pc))))
  }

  /** Until the controller is served at `last`, the call gets closer to its end, or hangs. */
  lemma {:induction false} CallProgressBy(st: nat -> State, act: nat -> Action, n: nat, last: nat) returns (m: nat)
    requires IsBehaviour(st, act) && Fair(st, act) && InCall(st(n).pc)
    requires n <= last && ControlServed(st, act, last)
    ensures n < m && |st(n).chans| > 0 && |st(m).chans| > 0 && Closer(st, n, m)
    decreases last - n
  {
    CallStepAt(st, act, n);
    m := n + 1;
    if Hung(st(n)) {
      HungNext(st, act, n);
    } else if w: nat :| WorkerCan(st(n), w) {
      m := WorkersProgress(st, act, n, w);
    } else {
      WaitingStepAt(st, act, n);
      if !act(n).Control? && !st(n + 1).pc.Idle? {
        m := CallProgressBy(st, act, n + 1, last);
      }
    }
  }

  /** Every call in progress gets closer to its end, or hangs. */
  lemma CallProgress(st: nat -> State, act: nat -> Action, n: nat) returns (m: nat)
    requires IsBehaviour(st, act) && Fair(st, act) && InCall(st(n).pc)
    ensures n < m && |st(n).chans| > 0 && |st(m).chans| > 0 && Closer(st, n, m)
  {
    assert ControlServedLater(st, act, n);
    var last: nat :| n <= last && ControlServed(st, act, last);
    m := CallProgressBy(st, act, n, last);
  }

  /** Every Apply and every Stop returns under every fair schedule, or it hangs. */
  lemma CallsReturn(st: nat -> State, act: nat -> Action, n: nat) returns (m: nat)
    requires IsBehaviour(st, act) && Fair(st, act) && InCall(st(n).pc)
    ensures n < m && |st(m).chans| > 0
    ensures st(m).pc.Idle? || Hung(st(m))
    decreases BehaviourRank(st, act, n), ControlRank(st(n).pc)
  {
    m := CallProgress(st, act, n);
    if !st(m).pc.Idle? && !Hung(st(m)) {
      m := CallsReturn(st, act, m);
    }
  }

  ghost function BehaviourRank(st: nat -> State, act: nat -> Action, n: nat): nat
    requires IsBehaviour(st, act)
  {
    BehaviourInv(st, act, n);
    RankTotal(st(n).workers);
    Rank(st(n))
  }

  // ---------- Stop of a live pool ----------

  /** A context whose end the pool or a worker of this generation would notice. */
  ghost predicate Watched(s: State, ctx: nat)
    requires |s.chans| > 0
  {
    || s.poolCtx == Some(ctx)
    || exists w :: 0 <= w < |s.workers| && s.workers[w].gen == Gen(s) && s.workers[w].ctx == ctx
  }

  ghost predicate Uncancelled(s: State)
    requires |s.chans| > 0
  {
    forall ctx: nat :: Watched(s, ctx) ==> !Done(s, ctx)
  }

  lemma UncancelledMeans(s: State)
    requires |s.chans| > 0 && Uncancelled(s)
    ensures !PoolIsDone(s)
    ensures forall w :: 0 <= w < |s.workers| && s.workers[w].gen == Gen(s) ==> !Done(s, s.workers[w].ctx)
  {
    if s.poolCtx.Some? {
      assert Watched(s, s.poolCtx.value);
    }
    forall w | 0 <= w < |s.workers| && s.workers[w].gen == Gen(s) ensures !Done(s, s.workers[w].ctx) {
      assert Watched(s, s.workers[w].ctx);
    }
  }

  /** From `n` on nobody outside cancels a context that is being watched. */
  ghost predicate NoCancelFrom(st: nat -> State, act: nat -> Action, n: nat) {
    forall k: nat :: n <= k ==> NoCancelAt(st(k), act(k))
  }

  ghost predicate NoCancelAt(s: State, a: Action) {
    a.Cancel? && |s.chans| > 0 ==> !Watched(s, a.ctx)
  }

  /** A Stop of a live pool, on its way to returning nil. */
  ghost predicate Stopping(s: State) {
    |s.chans| > 0 && ((InPoll(s.pc) && Live(s)) || InTeardown(s.pc))
  }

  lemma StoppingControl(s: State, c: Case)
    requires Light(s) && Stopping(s) && ControlReady(s, c)
    ensures Stopping(DoControl(s, c)) || DoControl(s, c).pc == Idle(Stopped)
    ensures InPoll(s.pc) ==> DoControl(s, c) == s.(pc := DoControl(s, c).pc)
  {
    if InPoll(s.pc) {
      assert DoControl(s, c) == DoPoll(s) == s.(pc := DoPoll(s).pc);
    } else {
      assert DoControl(s, c) == DoTeardown(s);
    }
  }

  lemma StoppingStep(s: State, a: Action)
    requires Inv(s) && Stopping(s) && Enabled(s, a)
    ensures Stopping(Do(s, a)) || Do(s, a).pc == Idle(Stopped)
  {
    match a
    case Work(w, c) =>
      WorkMoves(s, w, c);
      MovedModes(s, Do(s, a), w);
    case Control(c) => StoppingControl(s, c);
    case _ =>
  }

  lemma StoppingStepAt(st: nat -> State, act: nat -> Action, n: nat)
    requires IsBehaviour(st, act) && Stopping(st(n))
    ensures Stopping(st(n + 1)) || st(n + 1).pc == Idle(Stopped)
  {
    BehaviourInv(st, act, n);
    assert StepAt(st, act, n);
    StoppingStep(st(n), act(n));
  }

  /** A Stop stays on its way until it returns nil. */
  lemma {:induction false} WalkStop(st: nat -> State, act: nat -> Action, n: nat, last: nat) returns (m: nat)
    requires IsBehaviour(st, act) && Stopping(st(n)) && n <= last
    ensures n <= m <= last && forall k :: n <= k < m ==> Stopping(st(k))
    ensures if m < last then n < m && st(m).pc == Idle(Stopped)
            else Stopping(st(m)) || (n < m && st(m).pc == Idle(Stopped))
    decreases last - n
  {
    m := n;
    if n < last {
      StoppingStepAt(st, act, n);
      m := n + 1;
      if Stopping(st(n + 1)) {
        m := WalkStop(st, act, n + 1, last);
      }
    }
  }

  /** A fair Stop of a live pool returns nil, unless it hangs. */
  lemma LiveStopReturns(st: nat -> State, act: nat -> Action, n: nat) returns (m: nat)
    requires IsBehaviour(st, act) && Fair(st, act) && Stopping(st(n))
    ensures n <= m && forall k :: n <= k < m ==> Stopping(st(k))
    ensures (n < m && st(m).pc == Idle(Stopped)) || (Stopping(st(m)) && Hung(st(m)))
  {
    StoppingInCall(st(n));
    var last := CallsReturn(st, act, n);
    m := WalkStop(st, act, n, last);
    if m == last {
      StoppingNotIdle(st(m));
    }
  }

  lemma StoppingInCall(s: State)
    requires Stopping(s)
    ensures InCall(s.pc)
  {}

  lemma StoppingNotIdle(s: State)
    ensures Stopping(s) ==> !s.pc.Idle?
  {}

  // ---------- Stop without cancellation ----------

  ghost predicate Undisturbed(s: State) {
    |s.chans| > 0 && s.size > 0 && (InPoll(s.pc) ==> Live(s) && Uncancelled(s))
  }

  lemma WatchKept(s: State, s': State)
    requires |s.chans| > 0 && |s'.chans| == |s.chans| && s'.poolCtx == s.poolCtx && |s'.workers| == |s.workers|
    requires forall w :: 0 <= w < |s.workers| ==> s'.workers[w].gen == s.workers[w].gen
                                                  && s'.workers[w].ctx == s.workers[w].ctx
    requires forall ctx: nat :: Watched(s, ctx) && Done(s', ctx) ==> Done(s, ctx)
    ensures Uncancelled(s) ==> Uncancelled(s')
  {
    forall ctx: nat | Watched(s', ctx) ensures Watched(s, ctx) {
      if s.poolCtx != Some(ctx) {
        var w :| 0 <= w < |s'.workers| && s'.workers[w].gen == Gen(s') && s'.workers[w].ctx == ctx;
        assert s.workers[w].gen == Gen(s) && s.workers[w].ctx == ctx;
      }
    }
  }

  lemma UndisturbedStep(s: State, a: Action)
    requires Inv(s) && Stopping(s) && Undisturbed(s) && Enabled(s, a) && NoCancelAt(s, a)
    ensures Stopping(Do(s, a)) ==> Undisturbed(Do(s, a))
  {
    StoppingStep(s, a);
    match a
    case Work(w, c) =>
      WorkMoves(s, w, c);
      WatchKept(s, Do(s, a));
    case Control(c) => UndisturbedControl(s, c);
    case Cancel(ctx) => UndisturbedCancel(s, ctx);
    case _ =>
  }

  lemma UndisturbedControl(s: State, c: Case)
    requires Inv(s) && Stopping(s) && Undisturbed(s) && ControlReady(s, c)
    ensures Stopping(DoControl(s, c)) ==> Undisturbed(DoControl(s, c))
  {
    if InPoll(s.pc) {
      StoppingControl(s, c);
      WatchKept(s, DoControl(s, c));
    } else {
      UndisturbedTeardown(s);
    }
  }

  lemma UndisturbedTeardown(s: State)
    requires Light(s) && Undisturbed(s) && InTeardown(s.pc)
    requires s.pc.StopCancel? && s.poolCancel.Some? ==> s.poolCancel.value < |s.ctxDone|
    requires s.pc.StopClose? ==> s.pc.ch < |s.chans|
    ensures Undisturbed(DoTeardown(s))
  {}

  lemma UndisturbedCancel(s: State, ctx: nat)
    requires |s.chans| > 0 && Undisturbed(s) && ctx < |s.ctxDone| && !Watched(s, ctx)
    ensures Undisturbed(Do(s, Cancel(ctx)))
  {
    WatchKept(s, Do(s, Cancel(ctx)));
  }

  lemma UndisturbedNotHung(s: State)
    requires Inv(s) && Stopping(s) && Undisturbed(s)
    ensures !Hung(s)
  {
    if Hung(s) {
      UncancelledMeans(s);
      HungOnlyIfCancelled(s);
    }
  }

  lemma UndisturbedStepAt(st: nat -> State, act: nat -> Action, n: nat)
    requires IsBehaviour(st, act) && Stopping(st(n)) && Undisturbed(st(n)) && NoCancelAt(st(n), act(n))
    ensures Stopping(st(n + 1)) ==> Undisturbed(st(n + 1))
  {
    BehaviourInv(st, act, n);
    assert StepAt(st, act, n);
    UndisturbedStep(st(n), act(n));
  }

  lemma {:induction false} StaysUndisturbed(st: nat -> State, act: nat -> Action, n: nat, m: nat)
    requires IsBehaviour(st, act) && n <= m && Undisturbed(st(n)) && NoCancelFrom(st, act, n)
    requires forall k :: n <= k <= m ==> Stopping(st(k))
    ensures Undisturbed(st(m))
  {
    if n < m {
      StaysUndisturbed(st, act, n, m - 1);
      assert NoCancelAt(st(m - 1), act(m - 1));
      UndisturbedStepAt(st, act, m - 1);
    }
  }

  /** While nobody outside cancels the pool's context or a worker's, Stop of a live pool with workers
      returns nil under every fair schedule. */
  lemma StopReturns(st: nat -> State, act: nat -> Action, n: nat) returns (m: nat)
    requires IsBehaviour(st, act) && Fair(st, act)
    requires st(n).size > 0 && st(n).pc == StopCheck && |st(n).chans| > 0 && Live(st(n)) && Uncancelled(st(n))
    requires NoCancelFrom(st, act, n)
    ensures n < m && st(m).pc == Idle(Stopped)
  {
    m := LiveStopReturns(st, act, n);
    if Stopping(st(m)) {
      StaysUndisturbed(st, act, n, m);
      BehaviourInv(st, act, m);
      UndisturbedNotHung(st(m));
    }
  }

  // ---------- Apply without cancellation ----------

  /** An Apply to a live pool with workers that nobody has cancelled. */
  ghost predicate Applying(s: State) {
    |s.chans| > 0 && s.size > 0 && InApply(s.pc) && Live(s) && Uncancelled(s)
  }

  predicate ApplyDone(p: Pc) {
    p == Idle(Accepted) || p == Idle(CallerDone)
  }

  lemma ApplyingControl(s: State, c: Case)
    requires Light(s) && Applying(s) && ControlReady(s, c)
    ensures var s' := DoApply(s, c);
            ApplyDone(s'.pc) || (InApply(s'.pc) && s' == s.(pc := s'.pc))
  {
    UncancelledMeans(s);
  }

  lemma ApplyingWork(s: State, w: nat, c: Case)
    requires Inv(s) && Applying(s) && Enabled(s, Work(w, c))
    ensures Applying(DoWork(s, w, c))
  {
    WorkMoves(s, w, c);
    MovedModes(s, DoWork(s, w, c), w);
    WatchKept(s, DoWork(s, w, c));
  }

  lemma ApplyingStep(s: State, a: Action)
    requires Inv(s) && Applying(s) && Enabled(s, a) && NoCancelAt(s, a)
    ensures Applying(Do(s, a)) || ApplyDone(Do(s, a).pc)
  {
    match a
    case Work(w, c) => ApplyingWork(s, w, c);
    case Control(c) =>
      ApplyingControl(s, c);
      if !ApplyDone(DoApply(s, c).pc) {
        WatchKept(s, DoApply(s, c));
      }
    case Cancel(ctx) => WatchKept(s, Do(s, a));
    case _ =>
  }

  lemma {:induction false} WalkApply(st: nat -> State, act: nat -> Action, n: nat, last: nat) returns (m: nat)
    requires IsBehaviour(st, act) && NoCancelFrom(st, act, n) && Applying(st(n)) && n <= last
    ensures n <= m <= last && (ApplyDone(st(m).pc) || (m == last && Applying(st(m))))
    decreases last - n
  {
    m := n;
    if n < last {
      BehaviourInv(st, act, n);
      assert StepAt(st, act, n) && NoCancelAt(st(n), act(n));
      ApplyingStep(st(n), act(n));
      m := n + 1;
      if !ApplyDone(st(n + 1).pc) {
        m := WalkApply(st, act, n + 1, last);
      }
    }
  }

  lemma ApplyingNotHung(s: State)
    requires Inv(s) && Applying(s)
    ensures !Hung(s)
  {
    UncancelledMeans(s);
    if Hung(s) {
      HungOnlyIfCancelled(s);
    }
  }

  /** While nobody outside cancels the pool's context or a worker's, Apply to a live pool with workers
      returns under every fair schedule, full channel or not: accepted, or because its caller is done. */
  lemma ApplyReturns(st: nat -> State, act: nat -> Action, n: nat) returns (m: nat)
    requires IsBehaviour(st, act) && Fair(st, act)
    requires st(n).size > 0 && st(n).pc.ApplyCheck? && |st(n).chans| > 0 && Live(st(n)) && Uncancelled(st(n))
    requires NoCancelFrom(st, act, n)
    ensures n < m && (st(m).pc == Idle(Accepted) || st(m).pc == Idle(CallerDone))
  {
    var last := CallsReturn(st, act, n);
    m := WalkApply(st, act, n, last);
    if Applying(st(m)) {
      BehaviourInv(st, act, m);
      ApplyingNotHung(st(m));
    }
  }

  // ---------- draining ----------

  /** Nothing queued and nothing held: what Stop waits for. */
  ghost predicate Drained(s: State) {
    |s.chans| > 0 && Queue(s) == [] && Held(s.workers) == multiset{}
  }

  lemma {:induction false} HeldNone(ws: seq<Worker>)
    requires forall w :: 0 <= w < |ws| ==> !Holding(ws[w].phase)
    ensures Held(ws) == multiset{}
  {
    if ws != [] {
      HeldNone(ws[..|ws| - 1]);
    }
  }

  /** Without cancellation, as long as work is queued or held some worker can move. */
  lemma WorkRemainsSomeoneMoves(s: State)
    requires Inv(s) && Live(s) && s.size > 0 && Uncancelled(s) && !Drained(s)
    ensures exists w: nat :: WorkerCan(s, w)
  {
    UncancelledMeans(s);
    assert WorkerOk(s, s.workers[|s.workers| - 1]);
    if Waiting(s) {
      forall w | 0 <= w < |s.workers| ensures !Holding(s.workers[w].phase) {
        assert WorkerOk(s, s.workers[w]);
        WaitingWorker(s, w);
      }
      HeldNone(s.workers);
      WaitingPool(s);
    }
  }

  lemma {:induction false} HoldingHeld(ws: seq<Worker>, w: nat)
    requires w < |ws| && Holding(ws[w].phase)
    ensures ws[w].phase.ticket in Held(ws)
  {
    var n := |ws| - 1;
    if w < n {
      HoldingHeld(ws[..n], w);
    } else {
      assert ws[w].phase.ticket in HeldBy(ws[n].phase);
    }
  }

  lemma NoneHolding(ws: seq<Worker>, w: nat)
    requires Held(ws) == multiset{} && w < |ws|
    ensures !Holding(ws[w].phase)
  {
    if Holding(ws[w].phase) {
      HoldingHeld(ws, w);
    }
  }

  lemma DrainedByWork(s: State, w: nat, c: Case)
    requires Inv(s) && Drained(s) && Enabled(s, Work(w, c))
    ensures Drained(DoWork(s, w, c))
  {
    WorkMoves(s, w, c);
    var s' := DoWork(s, w, c);
    NoneHolding(s.workers, w);
    HeldUpdate(s.workers, w, s'.workers[w]);
    HeldCancel(Held(s.workers), Held(s'.workers), multiset{});
  }

  /** Once drained, a pool in a Stop stays drained. */
  lemma DrainedIsStable(s: State, a: Action)
    requires Inv(s) && Drained(s) && Enabled(s, a) && (InPoll(s.pc) || InTeardown(s.pc))
    ensures Drained(Do(s, a))
  {
    match a
    case Work(w, c) => DrainedByWork(s, w, c);
    case Control(c) => DrainedByStop(s, c);
    case _ =>
  }

  lemma DrainedByStop(s: State, c: Case)
    requires Inv(s) && Drained(s) && ControlReady(s, c) && (InPoll(s.pc) || InTeardown(s.pc))
    ensures Drained(DoControl(s, c))
  {
    if InPoll(s.pc) {
      DrainedByPoll(s);
    } else {
      DrainedByTeardown(s, c);
    }
  }

  lemma DrainedByPoll(s: State)
    requires Drained(s) && InPoll(s.pc) && (s.pc.StopLen? ==> s.pc.ch < |s.chans|)
    ensures Drained(DoPoll(s))
  {}

  lemma DrainedByTeardown(s: State, c: Case)
    requires Inv(s) && Drained(s) && InTeardown(s.pc) && ControlReady(s, c)
    ensures Drained(DoTeardown(s))
  {
    if s.pc.StopCancel? || s.pc.StopClose? || s.pc.StopNil? {
      CancelCloseStep(s, c);
    } else {
      WaitClearStep(s, c);
    }
  }
}
