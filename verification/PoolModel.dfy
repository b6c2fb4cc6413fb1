/** The command worker pool as a step relation (pkg/worker_pool.go).

    One controller goroutine calls Run, Apply, Stop and Reconnect in turn; the workers, context
    cancellation and the passing of time interleave with it between any two of its steps. What would
    panic in Go raises `fault`.

    A step is one read or write of shared state, except for these, which nobody can observe halfway:
    the three writes of `StopClear` (lines 74-76) and the two of `ReconnCtx` (94-95) happen while no worker
    is left; `RunSpawn` adds to the WaitGroup and starts the worker, and `Exit` leaves and calls Done,
    while only the controller ever waits on the WaitGroup; and a select reads the pool's context together
    with the channels, while that field changes only when no worker is left. */
module PoolModel {
  import opened CommandStore
  import opened Options

  /** A buffered channel. Commands are the pointers allocated by `Apply`, named by the
      number of the accepting `Apply` call: its ticket. */
  datatype Chan = Chan(queue: seq<nat>, cap: nat, closed: bool)

  /** Where a worker goroutine stands in its loop (pkg/worker_pool.go:141-176). */
  datatype Phase =
    | Top                        // about to load taskAtom
    | Loaded(ch: Option<nat>)    // at a select, with the channel it loaded
    | Received(ticket: nat)      // command received, inWork not yet incremented
    | Counted(ticket: nat)       // inWork incremented, handler not yet run
    | Ran(ticket: nat)           // handler done, inWork not yet decremented
    | Exited

  /** A worker: the generation that spawned it and the context its closure captured. */
  datatype Worker = Worker(gen: nat, ctx: nat, phase: Phase)

  /** The outcome of the controller's last call. */
  datatype Result =
    | Created | Started | RunIgnored | Reconnected | AlreadyRunning
    | Accepted | NotRunning | Frozen | PoolDone | CallerDone
    | StopFrozen | Stopped

  /** The controller's program counter; the channel it loaded travels with it. */
  datatype Pc =
    | Idle(last: Result)
    | RunCheck(ctx: nat, again: bool)
    | RunLoad(ctx: nat, again: bool)
    | RunSpawn(ctx: nat, again: bool, done: nat, total: nat)
    | RunMark(again: bool)
    | ReconnCheck(ctx: nat)
    | ReconnCtx(ctx: nat)
    | ReconnChan(ctx: nat)
    | ApplyCheck(caller: nat, cmd: Command)
    | ApplyLoad(caller: nat, cmd: Command)
    | ApplySelect(caller: nat, cmd: Command, ch: nat)
    | ApplySend(cmd: Command, ch: nat)
    | StopCheck
    | StopLoad
    | StopInWork(ch: nat)
    | StopLen(ch: nat)
    | StopCancel(ch: nat)
    | StopClose(ch: nat)
    | StopNil
    | StopWait
    | StopClear
    | StopUnset

  datatype Fault = NilPoolCtx | NilPoolCancel | SendOnClosed | CloseOfClosed | NegativeWaitGroup

  datatype State = State(
    size: nat,
    initial: Store,
    store: Store,
    run: bool,                  // runAtom
    task: Option<nat>,          // taskAtom: an index into chans, or the nil channel
    poolCtx: Option<nat>,       // an index into ctxDone, or nil
    poolCancel: Option<nat>,
    inWork: int,
    wg: int,
    chans: seq<Chan>,           // every channel ever made
    ctxDone: seq<bool>,         // every context ever seen
    workers: seq<Worker>,       // every worker ever spawned
    pc: Pc,
    fault: Option<Fault>,
    accepted: seq<Command>,     // history: the commands Apply sent, in order
    gens: seq<nat>,             // history: the channel each was sent on
    taken: seq<nat>,            // history: tickets in the order workers received them
    applied: seq<nat>)          // history: tickets in the order handlers ran

  /** A pool just returned by NewPoolStore; its context may be cancelled already. */
  ghost predicate Init(s: State) {
    exists done: bool :: s == Fresh(s.size, s.initial, done)
  }

  function Fresh(size: nat, initial: Store, done: bool): State {
    State(size, initial, initial, false, Some(0), Some(0), Some(0), 0, 0,
          [Chan([], size, false)], [done], [], Idle(Created), None, [], [], [], [])
  }

  /** Which ready case of a select is taken. */
  datatype Case = PoolDoneCase | CtxDoneCase | DataCase

  datatype Action =
    | CallRun(done: bool)
    | CallReconnect(done: bool)
    | CallApply(done: bool, code: int, key: string, value: string)
    | CallStop
    | Control(c: Case)
    | Work(w: nat, c: Case)
    | Cancel(ctx: nat)
    | Tick

  predicate Done(s: State, ctx: nat) {
    ctx < |s.ctxDone| && s.ctxDone[ctx]
  }

  predicate PoolIsDone(s: State) {
    s.poolCtx.Some? && Done(s, s.poolCtx.value)
  }

  /** The generation number: Run and Reconnect work on the newest channel. */
  function Gen(s: State): nat
    requires |s.chans| > 0
  {
    |s.chans| - 1
  }

  predicate Enabled(s: State, a: Action) {
    match a
    case CallRun(_) => s.fault.None? && s.pc.Idle?
    case CallReconnect(_) => s.fault.None? && s.pc.Idle?
    case CallApply(_, _, _, _) => s.fault.None? && s.pc.Idle?
    case CallStop => s.fault.None? && s.pc.Idle?
    case Control(c) => s.fault.None? && ControlReady(s, c)
    case Work(w, c) => s.fault.None? && w < |s.workers| && WorkReady(s, s.workers[w], c)
    case Cancel(ctx) => ctx < |s.ctxDone|
    case Tick => true
  }

  predicate ControlReady(s: State, c: Case) {
    match s.pc
    case Idle(_) => false
    case ApplySelect(caller, _, _) =>
      s.poolCtx.None? ||
      (match c
       case PoolDoneCase => PoolIsDone(s)
       case CtxDoneCase => Done(s, caller)
       case DataCase => !PoolIsDone(s) && !Done(s, caller))
    case ApplySend(_, ch) =>
      ch < |s.chans| && (s.chans[ch].closed || |s.chans[ch].queue| < s.chans[ch].cap)
    case StopLen(ch) => ch < |s.chans|
    case StopClose(ch) => ch < |s.chans|
    case StopCancel(_) => s.poolCancel.Some? ==> s.poolCancel.value < |s.ctxDone|
    case StopWait => s.wg == 0
    case ReconnCtx(ctx) => ctx < |s.ctxDone|
    case _ => true
  }

  /** Whether a worker can move by the given select case; the case only matters at a select. */
  predicate WorkReady(s: State, w: Worker, c: Case) {
    match w.phase
    case Exited => false
    case Loaded(ch) =>
      s.poolCtx.None? ||
      (match c
       case PoolDoneCase => PoolIsDone(s)
       case CtxDoneCase => Done(s, w.ctx)
       case DataCase =>
         if ch.None? then !PoolIsDone(s) && !Done(s, w.ctx)
         else ch.value < |s.chans| && (s.chans[ch.value].queue != [] || s.chans[ch.value].closed))
    case _ => true
  }

  function Do(s: State, a: Action): State
    requires Enabled(s, a)
  {
    match a
    case CallRun(done) => s.(ctxDone := s.ctxDone + [done], pc := RunCheck(|s.ctxDone|, false))
    case CallReconnect(done) => s.(ctxDone := s.ctxDone + [done], pc := ReconnCheck(|s.ctxDone|))
    case CallApply(done, code, key, value) =>
      s.(ctxDone := s.ctxDone + [done], pc := ApplyCheck(|s.ctxDone|, Factory(code, key, value)))
    case CallStop => s.(pc := StopCheck)
    case Control(c) => DoControl(s, c)
    case Work(w, c) => DoWork(s, w, c)
    case Cancel(ctx) => s.(ctxDone := s.ctxDone[ctx := true])
    case Tick => s
  }

  function Return(s: State, r: Result): State {
    s.(pc := Idle(r))
  }

  function DoControl(s: State, c: Case): State
    requires ControlReady(s, c)
  {
    if InRun(s.pc) then DoRun(s)
    else if InReconn(s.pc) then DoReconnect(s)
    else if InApply(s.pc) then DoApply(s, c)
    else if InPoll(s.pc) then DoPoll(s)
    else DoTeardown(s)
  }

  predicate InRun(p: Pc) { p.RunCheck? || p.RunLoad? || p.RunSpawn? || p.RunMark? }
  predicate InReconn(p: Pc) { p.ReconnCheck? || p.ReconnCtx? || p.ReconnChan? }
  predicate InApply(p: Pc) { p.ApplyCheck? || p.ApplyLoad? || p.ApplySelect? || p.ApplySend? }
  /** Stop before its test has passed. */
  predicate InPoll(p: Pc) { p.StopCheck? || p.StopLoad? || p.StopInWork? || p.StopLen? }
  /** Stop after its test has passed. */
  predicate InTeardown(p: Pc) {
    p.StopCancel? || p.StopClose? || p.StopNil? || p.StopWait? || p.StopClear? || p.StopUnset?
  }

  /** Run: pkg/worker_pool.go:123-182. */
  function DoRun(s: State): State
    requires InRun(s.pc)
  {
    match s.pc
    case RunCheck(ctx, again) =>
      if s.run then Return(s, RunIgnored) else s.(pc := RunLoad(ctx, again))
    case RunLoad(ctx, again) =>
      var cap := if s.task.Some? && s.task.value < |s.chans| then s.chans[s.task.value].cap else 0;
      s.(pc := RunSpawn(ctx, again, 0, cap))
    case RunSpawn(ctx, again, done, total) =>
      if done < total then
        s.(wg := s.wg + 1,
           workers := s.workers + [Worker(if |s.chans| > 0 then Gen(s) else 0, ctx, Top)],
           pc := RunSpawn(ctx, again, done + 1, total))
      else s.(pc := RunMark(again))
    case RunMark(again) =>
      s.(run := true, pc := Idle(if again then Reconnected else Started))
  }

  /** Reconnect up to its call of Run: pkg/worker_pool.go:88-97. */
  function DoReconnect(s: State): State
    requires InReconn(s.pc) && (s.pc.ReconnCtx? ==> s.pc.ctx < |s.ctxDone|)
  {
    match s.pc
    case ReconnCheck(ctx) =>
      if s.run then Return(s, AlreadyRunning) else s.(pc := ReconnCtx(ctx))
    case ReconnCtx(ctx) =>
      s.(ctxDone := s.ctxDone + [s.ctxDone[ctx]],
         poolCtx := Some(|s.ctxDone|), poolCancel := Some(|s.ctxDone|), pc := ReconnChan(ctx))
    case ReconnChan(ctx) =>
      s.(chans := s.chans + [Chan([], s.size, false)], task := Some(|s.chans|), pc := RunCheck(ctx, true))
  }

  /** Apply: pkg/worker_pool.go:184-213. */
  function DoApply(s: State, c: Case): State
    requires InApply(s.pc) && ControlReady(s, c)
  {
    match s.pc
    case ApplyCheck(caller, cmd) =>
      if !s.run then Return(s, NotRunning) else s.(pc := ApplyLoad(caller, cmd))
    case ApplyLoad(caller, cmd) =>
      if s.task.None? then Return(s, Frozen) else s.(pc := ApplySelect(caller, cmd, s.task.value))
    case ApplySelect(_, cmd, ch) =>
      if s.poolCtx.None? then s.(fault := Some(NilPoolCtx))
      else if c.PoolDoneCase? then Return(s, PoolDone)
      else if c.CtxDoneCase? then Return(s, CallerDone)
      else s.(pc := ApplySend(cmd, ch))
    case ApplySend(cmd, ch) =>
      if s.chans[ch].closed then s.(fault := Some(SendOnClosed)) else Send(s, cmd, ch)
  }

  function Send(s: State, cmd: Command, ch: nat): State
    requires ch < |s.chans|
  {
    s.(chans := s.chans[ch := s.chans[ch].(queue := s.chans[ch].queue + [|s.accepted|])],
       accepted := s.accepted + [cmd], gens := s.gens + [ch], pc := Idle(Accepted))
  }

  /** Stop's polling loop: pkg/worker_pool.go:51-64. */
  function DoPoll(s: State): State
    requires InPoll(s.pc) && (s.pc.StopLen? ==> s.pc.ch < |s.chans|)
  {
    match s.pc
    case StopCheck =>
      if !s.run then Return(s, NotRunning) else s.(pc := StopLoad)
    case StopLoad =>
      if s.task.None? then Return(s, StopFrozen) else s.(pc := StopInWork(s.task.value))
    case StopInWork(ch) =>
      s.(pc := if s.inWork == 0 then StopLen(ch) else StopLoad)
    case StopLen(ch) =>
      s.(pc := if s.chans[ch].queue == [] then StopCancel(ch) else StopLoad)
  }

  /** The rest of Stop: pkg/worker_pool.go:65-79. */
  function DoTeardown(s: State): State
    requires InTeardown(s.pc)
    requires s.pc.StopCancel? && s.poolCancel.Some? ==> s.poolCancel.value < |s.ctxDone|
    requires s.pc.StopClose? ==> s.pc.ch < |s.chans|
  {
    match s.pc
    case StopCancel(ch) =>
      if s.poolCancel.None? then s.(fault := Some(NilPoolCancel))
      else s.(ctxDone := s.ctxDone[s.poolCancel.value := true], pc := StopClose(ch))
    case StopClose(ch) =>
      if s.chans[ch].closed then s.(fault := Some(CloseOfClosed))
      else s.(chans := s.chans[ch := s.chans[ch].(closed := true)], pc := StopNil)
    case StopNil => s.(task := None, pc := StopWait)
    case StopWait => s.(pc := StopClear)
    case StopClear => s.(poolCancel := None, poolCtx := None, inWork := 0, pc := StopUnset)
    case StopUnset => s.(run := false, pc := Idle(Stopped))
  }

  function SetPhase(s: State, w: nat, p: Phase): State
    requires w < |s.workers|
  {
    s.(workers := s.workers[w := s.workers[w].(phase := p)])
  }

  /** A worker's goroutine ends: the deferred wg.Done runs. */
  function Exit(s: State, w: nat): State
    requires w < |s.workers|
  {
    SetPhase(if s.wg <= 0 then s.(fault := Some(NegativeWaitGroup)) else s.(wg := s.wg - 1), w, Exited)
  }

  function DoWork(s: State, w: nat, c: Case): State
    requires w < |s.workers| && WorkReady(s, s.workers[w], c)
  {
    match s.workers[w].phase
    case Top => SetPhase(s, w, Loaded(s.task))
    case Loaded(ch) =>
      if s.poolCtx.None? then s.(fault := Some(NilPoolCtx))
      else if !c.DataCase? then Exit(s, w)
      else if ch.None? then SetPhase(s, w, Top)
      else
        var q := s.chans[ch.value].queue;
        if q == [] then Exit(s, w)     // closed and drained
        else
          SetPhase(s.(chans := s.chans[ch.value := s.chans[ch.value].(queue := q[1..])],
                      taken := s.taken + [q[0]]), w, Received(q[0]))
    case Received(t) => SetPhase(s.(inWork := s.inWork + 1), w, Counted(t))
    case Counted(t) =>
      SetPhase(s.(store := if t < |s.accepted| then Effect(s.accepted[t], s.store) else s.store,
                  applied := s.applied + [t]), w, Ran(t))
    case Ran(t) => SetPhase(s.(inWork := s.inWork - 1), w, Top)
  }

  ghost predicate Next(s: State, s': State) {
    exists a :: Enabled(s, a) && s' == Do(s, a)
  }

  /** A finite run of the pool under one controller. */
  ghost predicate IsRun(tr: seq<State>) {
    && |tr| > 0
    && Init(tr[0])
    && forall i :: 0 < i < |tr| ==> Next(tr[i - 1], tr[i])
  }
}
