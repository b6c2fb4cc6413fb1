/** What each call on the pool comes to, in terms of the state at the call: Run, Apply, Stop and Reconnect
    from their start to their return, whatever workers and cancellations do meanwhile. */
module PoolCalls {
  import opened CommandStore
  import opened Options
  import opened PoolModel
  import opened PoolInvariant

  predicate IsCallAction(a: Action) {
    a.CallRun? || a.CallReconnect? || a.CallApply? || a.CallStop?
  }

  /** The states of one call: from its start to its return. */
  ghost predicate IsCall(s: State, a: Action, tr: seq<State>) {
    && |tr| > 1
    && IsCallAction(a) && Enabled(s, a) && tr[0] == Do(s, a)
    && (forall k :: 0 <= k < |tr| - 1 ==> !tr[k].pc.Idle?)
    && (forall k :: 0 < k < |tr| ==> Next(tr[k - 1], tr[k]))
    && tr[|tr| - 1].pc.Idle?
  }

  /** A new pool is not running, has an empty channel with `size` places and the given store, and is done
      exactly if the context it was made with is. */
  lemma NewPool(size: nat, initial: Store, done: bool)
    ensures var s := Fresh(size, initial, done);
      && Init(s) && Inv(s) && !s.run && s.accepted == [] && s.store == initial
      && s.chans == [Chan([], size, false)] && s.task == Some(0) && (PoolIsDone(s) <==> done)
  {
    var s := Fresh(size, initial, done);
    assert s == Fresh(s.size, s.initial, done);
    InitInv(s);
  }

  // ---------- what the others do meanwhile ----------

  /** A step of a worker or of a context, as far as the call is concerned. */
  ghost predicate Still(s: State, s': State) {
    && s'.pc == s.pc && s'.size == s.size && s'.run == s.run && s'.task == s.task && s'.poolCtx == s.poolCtx
    && s'.accepted == s.accepted && s'.gens == s.gens && |s'.chans| == |s.chans| > 0
    && |s'.workers| == |s.workers|
    && (forall w :: 0 <= w < |s.workers| ==>
          s'.workers[w].gen == s.workers[w].gen && s'.workers[w].ctx == s.workers[w].ctx)
    && (forall c: nat :: Done(s, c) ==> Done(s', c))
  }

  lemma OthersStill(s: State, a: Action)
    requires Inv(s) && Enabled(s, a) && !s.pc.Idle? && !a.Control?
    ensures Still(s, Do(s, a))
  {
    if a.Work? {
      WorkMoves(s, a.w, a.c);
    }
  }

  // ---------- Apply ----------

  /** What a command does to any store: code 1 changes nothing, 2 deletes the key, any other code writes. */
  ghost predicate Does(cmd: Command, code: int, key: string, value: string) {
    forall s: Store, k: string :: Lookup(Effect(cmd, s), k) ==
      if k != key || code == 1 then Lookup(s, k) else if code == 2 then None else Some(value)
  }

  lemma FactoryDoes(code: int, key: string, value: string)
    ensures Does(Factory(code, key, value), code, key, value)
  {
    forall s: Store, k: string ensures Lookup(Effect(Factory(code, key, value), s), k) ==
      if k != key || code == 1 then Lookup(s, k) else if code == 2 then None else Some(value)
    {
      FactoryEffect(code, key, value, s, k);
    }
  }

  /** An Apply of `cmd` with its own context, called in `s`, has come to `t`. */
  ghost predicate ApplyDuring(s: State, done: bool, cmd: Command, t: State) {
    var caller := |s.ctxDone|;
    && |s.chans| == |t.chans| > 0 && t.run == s.run && t.task == s.task && t.poolCtx == s.poolCtx
    && (PoolIsDone(s) ==> PoolIsDone(t)) && (done ==> Done(t, caller))
    && (if t.pc == Idle(Accepted) then t.accepted == s.accepted + [cmd] && t.gens == s.gens + [Gen(s)]
        else t.accepted == s.accepted && t.gens == s.gens)
    && match t.pc
       case ApplyCheck(c, k) => c == caller && k == cmd
       case ApplyLoad(c, k) => c == caller && k == cmd && s.run
       case ApplySelect(c, k, _) => c == caller && k == cmd && s.run && s.task.Some?
       case ApplySend(k, ch) => k == cmd && ch == Gen(s) && s.run && s.task.Some? && !done && !PoolIsDone(s)
       case Idle(NotRunning) => !s.run
       case Idle(Frozen) => s.run && s.task.None?
       case Idle(PoolDone) => s.run && s.task.Some? && PoolIsDone(t)
       case Idle(CallerDone) => s.run && s.task.Some? && Done(t, caller)
       case Idle(Accepted) => s.run && s.task.Some? && !done && !PoolIsDone(s)
       case _ => false
  }

  lemma ApplyStarts(s: State, done: bool, code: int, key: string, value: string)
    requires Inv(s) && s.pc.Idle?
    ensures ApplyDuring(s, done, Factory(code, key, value), Do(s, CallApply(done, code, key, value)))
  {}

  lemma ApplyStill(s: State, done: bool, cmd: Command, t: State, t': State)
    requires ApplyDuring(s, done, cmd, t) && Still(t, t') && !t.pc.Idle?
    ensures ApplyDuring(s, done, cmd, t')
  {}

  lemma ApplyControl(s: State, done: bool, cmd: Command, t: State, c: Case)
    requires Light(t) && ApplyDuring(s, done, cmd, t) && ControlReady(t, c) && InApply(t.pc)
    ensures ApplyDuring(s, done, cmd, DoApply(t, c))
  {}

  lemma ApplyStep(s: State, done: bool, cmd: Command, t: State, a: Action)
    requires Inv(t) && ApplyDuring(s, done, cmd, t) && Enabled(t, a) && !t.pc.Idle?
    ensures ApplyDuring(s, done, cmd, Do(t, a))
  {
    if a.Control? {
      ApplyControl(s, done, cmd, t, a.c);
    } else {
      OthersStill(t, a);
      ApplyStill(s, done, cmd, t, Do(t, a));
    }
  }

  lemma {:induction false} ApplyAlong(s: State, a: Action, tr: seq<State>, k: nat)
    requires Inv(s) && a.CallApply? && IsCall(s, a, tr) && k < |tr|
    ensures Inv(tr[k]) && ApplyDuring(s, a.done, Factory(a.code, a.key, a.value), tr[k])
  {
    if k == 0 {
      StepInv(s, a);
      ApplyStarts(s, a.done, a.code, a.key, a.value);
    } else {
      ApplyAlong(s, a, tr, k - 1);
      var b := CallStepOf(s, a, tr, k);
      ApplyStep(s, a.done, Factory(a.code, a.key, a.value), tr[k - 1], b);
    }
  }

  /** One step inside a call. */
  lemma CallStepOf(s: State, a: Action, tr: seq<State>, k: nat) returns (b: Action)
    requires IsCall(s, a, tr) && 0 < k < |tr| && Inv(tr[k - 1])
    ensures Enabled(tr[k - 1], b) && tr[k] == Do(tr[k - 1], b) && !tr[k - 1].pc.Idle? && Inv(tr[k])
  {
    assert Next(tr[k - 1], tr[k]);
    b :| Enabled(tr[k - 1], b) && tr[k] == Do(tr[k - 1], b);
    StepInv(tr[k - 1], b);
  }

  /** At the select neither context was done. */
  ghost predicate Selected(t: State, t': State, caller: nat) {
    t.pc.ApplySelect? && t.pc.caller == caller && t'.pc.ApplySend? && !PoolIsDone(t) && !Done(t, caller)
  }

  lemma SendComesFrom(s: State, done: bool, cmd: Command, t: State, b: Action)
    requires Inv(t) && ApplyDuring(s, done, cmd, t) && Enabled(t, b) && !t.pc.Idle?
    ensures Do(t, b).pc.ApplySend? ==> t.pc.ApplySend? || Selected(t, Do(t, b), |s.ctxDone|)
    ensures Do(t, b).pc == Idle(Accepted) ==> t.pc.ApplySend?
  {
    if b.Control? {
      assert Do(t, b) == DoApply(t, b.c);
    } else {
      OthersStill(t, b);
    }
  }

  lemma SelectOrSend(s: State, a: Action, tr: seq<State>, k: nat)
    requires Inv(s) && a.CallApply? && IsCall(s, a, tr) && 0 < k < |tr|
    requires tr[k].pc.ApplySend? || tr[k].pc == Idle(Accepted)
    ensures tr[k - 1].pc.ApplySend? || Selected(tr[k - 1], tr[k], |s.ctxDone|)
  {
    ApplyAlong(s, a, tr, k - 1);
    var b := CallStepOf(s, a, tr, k);
    SendComesFrom(s, a.done, Factory(a.code, a.key, a.value), tr[k - 1], b);
  }

  lemma {:induction false} WasSelected(s: State, a: Action, tr: seq<State>, k: nat) returns (j: nat)
    requires Inv(s) && a.CallApply? && IsCall(s, a, tr) && k < |tr|
    requires tr[k].pc.ApplySend? || tr[k].pc == Idle(Accepted)
    ensures j < k && Selected(tr[j], tr[j + 1], |s.ctxDone|)
  {
    if k > 0 {
      SelectOrSend(s, a, tr, k);
      j := k - 1;
      if !Selected(tr[k - 1], tr[k], |s.ctxDone|) {
        j := WasSelected(s, a, tr, k - 1);
      }
    }
  }

  /** What an Apply that returns comes to. It is refused exactly as not running or frozen by the state at the
      call; with its own context or the pool's done at the call it is never accepted; and if it is accepted,
      one command has been added, which does what the code says. */
  lemma ApplyMeans(s: State, a: Action, tr: seq<State>)
    requires Inv(s) && a.CallApply? && IsCall(s, a, tr)
    ensures var t, r := tr[|tr| - 1], tr[|tr| - 1].pc.last;
      && r in {NotRunning, Frozen, PoolDone, CallerDone, Accepted}
      && (r == NotRunning <==> !s.run)
      && (r == Frozen <==> s.run && s.task.None?)
      && (r == PoolDone ==> PoolIsDone(t)) && (r == CallerDone ==> Done(t, |s.ctxDone|))
      && (a.done || PoolIsDone(s) ==> r != Accepted)
      && (r != Accepted ==> t.accepted == s.accepted)
      && (r == Accepted ==> |t.accepted| == |s.accepted| + 1 && t.accepted[..|s.accepted|] == s.accepted
                            && Does(t.accepted[|s.accepted|], a.code, a.key, a.value))
  {
    ApplyAlong(s, a, tr, |tr| - 1);
    FactoryDoes(a.code, a.key, a.value);
  }

  /** An accepted Apply passed its select while neither its own context nor the pool's was done. */
  lemma AcceptedWasSelected(s: State, a: Action, tr: seq<State>) returns (j: nat)
    requires Inv(s) && a.CallApply? && IsCall(s, a, tr) && tr[|tr| - 1].pc == Idle(Accepted)
    ensures j < |tr| - 1 && tr[j].pc.ApplySelect? && !PoolIsDone(tr[j]) && !Done(tr[j], |s.ctxDone|)
  {
    j := WasSelected(s, a, tr, |tr| - 1);
  }

  // ---------- Stop ----------

  ghost predicate StopDuring(s: State, t: State) {
    && t.accepted == s.accepted
    && match t.pc
       case StopCheck => t.run == s.run && t.task == s.task
       case StopLoad => t.run == s.run && t.task == s.task && s.run
       case Idle(NotRunning) => !s.run && !t.run
       case Idle(StopFrozen) => s.run && s.task.None? && t.run && t.task.None?
       case Idle(Stopped) => s.run && s.task.Some? && !t.run && t.task.None? && t.poolCtx.None?
       case _ => s.run && s.task.Some? && (if InPoll(t.pc) then t.run && t.task == s.task else InTeardown(t.pc))
  }

  lemma StopStill(s: State, t: State, t': State)
    requires StopDuring(s, t) && Still(t, t') && !t.pc.Idle?
    ensures StopDuring(s, t')
  {}

  lemma StopControl(s: State, t: State, c: Case)
    requires Light(t) && StopDuring(s, t) && ControlReady(t, c)
    ensures StopDuring(s, DoControl(t, c))
  {
    if InPoll(t.pc) {
      assert DoControl(t, c) == DoPoll(t);
    } else {
      assert DoControl(t, c) == DoTeardown(t);
    }
  }

  lemma StopStep(s: State, t: State, a: Action)
    requires Inv(t) && StopDuring(s, t) && Enabled(t, a) && !t.pc.Idle?
    ensures StopDuring(s, Do(t, a))
  {
    if a.Control? {
      StopControl(s, t, a.c);
    } else {
      OthersStill(t, a);
      StopStill(s, t, Do(t, a));
    }
  }

  lemma {:induction false} StopAlong(s: State, tr: seq<State>, k: nat)
    requires Inv(s) && IsCall(s, CallStop, tr) && k < |tr|
    ensures Inv(tr[k]) && StopDuring(s, tr[k])
  {
    if k == 0 {
      StepInv(s, CallStop);
    } else {
      StopAlong(s, tr, k - 1);
      var b := CallStepOf(s, CallStop, tr, k);
      StopStep(s, tr[k - 1], b);
    }
  }

  /** How a call of Stop has ended. */
  lemma StopEnds(s: State, t: State)
    requires StopDuring(s, t) && t.pc.Idle?
    ensures t.pc.last == (if !s.run then NotRunning else if s.task.None? then StopFrozen else Stopped)
    ensures t.accepted == s.accepted && (t.pc.last == Stopped ==> !t.run && t.task.None? && t.poolCtx.None?)
  {}

  /** What a Stop that returns comes to: the state at the call decides its result, and it adds no command. */
  lemma StopMeans(s: State, tr: seq<State>)
    requires Inv(s) && IsCall(s, CallStop, tr)
    ensures var t := tr[|tr| - 1];
      && t.pc.last == (if !s.run then NotRunning else if s.task.None? then StopFrozen else Stopped)
      && t.accepted == s.accepted
      && (t.pc.last == Stopped ==> !t.run && t.task.None? && t.poolCtx.None?)
  {
    StopAlong(s, tr, |tr| - 1);
    StopEnds(s, tr[|tr| - 1]);
  }

  // ---------- Run and Reconnect ----------

  /** The workers spawned since `s`, all with the context of the call and for generation `g`. */
  ghost predicate NewWorkers(s: State, t: State, n: int, ctx: nat, g: nat) {
    && |t.workers| == |s.workers| + n
    && forall w :: |s.workers| <= w < |t.workers| ==> t.workers[w].ctx == ctx && t.workers[w].gen == g
  }

  /** How many workers a Run spawns. */
  function Wanted(s: State): nat {
    if s.task.Some? then s.size else 0
  }

  ghost predicate RunDuring(s: State, done: bool, t: State) {
    var ctx := |s.ctxDone|;
    && |t.chans| == |s.chans| > 0 && t.task == s.task && t.size == s.size && t.poolCtx == s.poolCtx
    && t.accepted == s.accepted && (done ==> Done(t, ctx)) && (PoolIsDone(s) ==> PoolIsDone(t))
    && match t.pc
       case RunCheck(c, again) => c == ctx && !again && t.run == s.run && NewWorkers(s, t, 0, ctx, Gen(s))
       case RunLoad(c, again) => c == ctx && !again && !s.run && NewWorkers(s, t, 0, ctx, Gen(s))
       case RunSpawn(c, again, d, total) =>
         c == ctx && !again && !s.run && d <= total == Wanted(s) && NewWorkers(s, t, d, ctx, Gen(s))
       case RunMark(again) => !again && !s.run && NewWorkers(s, t, Wanted(s), ctx, Gen(s))
       case Idle(RunIgnored) => s.run && t.run && NewWorkers(s, t, 0, ctx, Gen(s))
       case Idle(Started) => !s.run && t.run && NewWorkers(s, t, Wanted(s), ctx, Gen(s))
       case _ => false
  }

  lemma RunStarts(s: State, done: bool)
    requires Inv(s) && s.pc.Idle?
    ensures RunDuring(s, done, Do(s, CallRun(done)))
  {}

  lemma RunStill(s: State, done: bool, t: State, t': State)
    requires RunDuring(s, done, t) && Still(t, t') && !t.pc.Idle?
    ensures RunDuring(s, done, t')
  {}

  lemma RunControl(s: State, done: bool, t: State)
    requires Light(t) && RunDuring(s, done, t) && InRun(t.pc)
    ensures RunDuring(s, done, DoRun(t))
  {}

  lemma RunCallStep(s: State, done: bool, t: State, a: Action)
    requires Inv(t) && RunDuring(s, done, t) && Enabled(t, a) && !t.pc.Idle?
    ensures RunDuring(s, done, Do(t, a))
  {
    if a.Control? {
      RunControl(s, done, t);
    } else {
      OthersStill(t, a);
      RunStill(s, done, t, Do(t, a));
    }
  }

  lemma {:induction false} RunAlong(s: State, done: bool, tr: seq<State>, k: nat)
    requires Inv(s) && IsCall(s, CallRun(done), tr) && k < |tr|
    ensures Inv(tr[k]) && RunDuring(s, done, tr[k])
  {
    if k == 0 {
      StepInv(s, CallRun(done));
      RunStarts(s, done);
    } else {
      RunAlong(s, done, tr, k - 1);
      var b := CallStepOf(s, CallRun(done), tr, k);
      RunCallStep(s, done, tr[k - 1], b);
    }
  }

  /** What a Run that returns comes to: nothing on a running pool; else one worker for each place in the
      channel, each watching the context that this Run was given. */
  lemma RunMeans(s: State, done: bool, tr: seq<State>)
    requires Inv(s) && IsCall(s, CallRun(done), tr)
    ensures var t, ctx := tr[|tr| - 1], |s.ctxDone|;
      && |s.chans| > 0 && t.accepted == s.accepted && t.task == s.task && (done ==> Done(t, ctx))
      && t.run && t.pc.last == (if s.run then RunIgnored else Started)
      && NewWorkers(s, t, if s.run || s.task.None? then 0 else s.size, ctx, Gen(s))
  {
    RunAlong(s, done, tr, |tr| - 1);
  }

  ghost predicate ReconnDuring(s: State, done: bool, t: State) {
    var ctx := |s.ctxDone|;
    && t.size == s.size && t.accepted == s.accepted && (done ==> Done(t, ctx)) && |s.chans| > 0
    && (if InReconn(t.pc) || t.pc == Idle(AlreadyRunning) then
          |t.chans| == |s.chans| && NewWorkers(s, t, 0, ctx, |s.chans|)
        else |t.chans| == |s.chans| + 1 && t.task == Some(|s.chans|) && !s.run && (done ==> PoolIsDone(t)))
    && match t.pc
       case ReconnCheck(c) => c == ctx && t.run == s.run
       case ReconnCtx(c) => c == ctx && !s.run
       case ReconnChan(c) => c == ctx && !s.run && (done ==> PoolIsDone(t))
       case RunCheck(c, again) => c == ctx && again && !t.run && NewWorkers(s, t, 0, ctx, |s.chans|)
       case RunLoad(c, again) => c == ctx && again && NewWorkers(s, t, 0, ctx, |s.chans|)
       case RunSpawn(c, again, d, total) =>
         c == ctx && again && d <= total == s.size && NewWorkers(s, t, d, ctx, |s.chans|)
       case RunMark(again) => again && NewWorkers(s, t, s.size, ctx, |s.chans|)
       case Idle(AlreadyRunning) => s.run
       case Idle(Reconnected) => t.run && NewWorkers(s, t, s.size, ctx, |s.chans|)
       case _ => false
  }

  lemma ReconnStarts(s: State, done: bool)
    requires Inv(s) && s.pc.Idle?
    ensures ReconnDuring(s, done, Do(s, CallReconnect(done)))
  {}

  lemma ReconnStill(s: State, done: bool, t: State, t': State)
    requires ReconnDuring(s, done, t) && Still(t, t') && !t.pc.Idle?
    ensures ReconnDuring(s, done, t')
  {}

  lemma ReconnControl(s: State, done: bool, t: State)
    requires Light(t) && ReconnDuring(s, done, t) && InReconn(t.pc)
    ensures ReconnDuring(s, done, DoReconnect(t))
  {}

  lemma ReconnRunControl(s: State, done: bool, t: State)
    requires Light(t) && ReconnDuring(s, done, t) && InRun(t.pc)
    ensures ReconnDuring(s, done, DoRun(t))
  {}

  lemma ReconnCallStep(s: State, done: bool, t: State, a: Action)
    requires Inv(t) && ReconnDuring(s, done, t) && Enabled(t, a) && !t.pc.Idle?
    ensures ReconnDuring(s, done, Do(t, a))
  {
    if !a.Control? {
      OthersStill(t, a);
      ReconnStill(s, done, t, Do(t, a));
    } else if InRun(t.pc) {
      ReconnRunControl(s, done, t);
    } else {
      ReconnControl(s, done, t);
    }
  }

  lemma {:induction false} ReconnAlong(s: State, done: bool, tr: seq<State>, k: nat)
    requires Inv(s) && IsCall(s, CallReconnect(done), tr) && k < |tr|
    ensures Inv(tr[k]) && ReconnDuring(s, done, tr[k])
  {
    if k == 0 {
      StepInv(s, CallReconnect(done));
      ReconnStarts(s, done);
    } else {
      ReconnAlong(s, done, tr, k - 1);
      var b := CallStepOf(s, CallReconnect(done), tr, k);
      ReconnCallStep(s, done, tr[k - 1], b);
    }
  }

  /** What a Reconnect that returns comes to: an error on a running pool; else a live pool with a new
      channel and `size` workers of its own, and a context that is done if the one it was given was. */
  lemma ReconnectMeans(s: State, done: bool, tr: seq<State>)
    requires Inv(s) && IsCall(s, CallReconnect(done), tr)
    ensures var t, ctx := tr[|tr| - 1], |s.ctxDone|;
      && t.accepted == s.accepted && |s.chans| > 0 && |t.chans| > 0
      && t.pc.last == (if s.run then AlreadyRunning else Reconnected)
      && (if s.run then |t.chans| == |s.chans| && |t.workers| == |s.workers|
          else Live(t) && Gen(t) == Gen(s) + 1 && NewWorkers(s, t, s.size, ctx, Gen(t))
               && (done ==> Done(t, ctx) && PoolIsDone(t)))
  {
    ReconnAlong(s, done, tr, |tr| - 1);
  }
}
