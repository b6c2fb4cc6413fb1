/** Building runs: what a controller and its workers can be made to do from a given state. */
module PoolRuns {
  import opened CommandStore
  import opened Options
  import opened PoolModel
  import opened PoolInvariant

  ghost predicate Reachable(s: State) {
    exists tr :: IsRun(tr) && tr[|tr| - 1] == s
  }

  lemma ReachableInv(s: State)
    requires Reachable(s)
    ensures Inv(s)
  {
    var tr :| IsRun(tr) && tr[|tr| - 1] == s;
    RunsKeepInv(tr, |tr| - 1);
  }

  lemma Go(s: State, a: Action)
    requires Reachable(s) && Enabled(s, a)
    ensures Reachable(Do(s, a))
  {
    var tr :| IsRun(tr) && tr[|tr| - 1] == s;
    var tr' := tr + [Do(s, a)];
    forall i | 0 < i < |tr'| ensures Next(tr'[i - 1], tr'[i]) {
      assert i < |tr| ==> Next(tr[i - 1], tr[i]);
    }
    assert IsRun(tr');
  }

  lemma GoRun(s: State, s': State)
    requires Reachable(s) && s.fault.None? && InRun(s.pc) && DoRun(s) == s'
    ensures Reachable(s')
  {
    Go(s, Control(DataCase));
  }

  lemma GoReconnect(s: State, s': State)
    requires Reachable(s) && s.fault.None? && InReconn(s.pc) && (s.pc.ReconnCtx? ==> s.pc.ctx < |s.ctxDone|)
    requires DoReconnect(s) == s'
    ensures Reachable(s')
  {
    Go(s, Control(DataCase));
  }

  lemma GoApply(s: State, s': State)
    requires Reachable(s) && s.fault.None? && InApply(s.pc) && ControlReady(s, DataCase) && DoApply(s, DataCase) == s'
    ensures Reachable(s')
  {
    Go(s, Control(DataCase));
  }

  lemma GoPoll(s: State, s': State)
    requires Reachable(s) && s.fault.None? && InPoll(s.pc) && (s.pc.StopLen? ==> s.pc.ch < |s.chans|) && DoPoll(s) == s'
    ensures Reachable(s')
  {
    Go(s, Control(DataCase));
  }

  lemma GoTeardown(s: State, s': State)
    requires Reachable(s) && s.fault.None? && InTeardown(s.pc) && ControlReady(s, DataCase) && DoTeardown(s) == s'
    ensures Reachable(s')
  {
    Go(s, Control(DataCase));
  }

  lemma GoWork(s: State, w: nat, c: Case, s': State)
    requires Reachable(s) && s.fault.None? && w < |s.workers| && WorkReady(s, s.workers[w], c) && DoWork(s, w, c) == s'
    ensures Reachable(s')
  {
    Go(s, Work(w, c));
  }

  // ---------- Apply ----------

  /** An idle, live pool that has not been cancelled. */
  ghost predicate Usable(s: State) {
    && Reachable(s) && s.pc.Idle? && s.run && s.task.Some? && !PoolIsDone(s)
  }

  lemma UsableMeans(s: State)
    requires Usable(s)
    ensures Inv(s) && Live(s) && s.task == Some(Gen(s)) && s.poolCtx.Some?
  {
    ReachableInv(s);
  }

  /** The pool after an accepted Apply. */
  function Submitted(s: State, cmd: Command): State
    requires |s.chans| > 0
  {
    Send(s.(ctxDone := s.ctxDone + [false]), cmd, Gen(s))
  }

  lemma Submit(s: State, cmd: Command)
    requires Usable(s) && |s.chans| > 0 && |Queue(s)| < s.size
    ensures Usable(Submitted(s, cmd))
  {
    UsableMeans(s);
    var code := match cmd case Put(_, _) => 0 case Get(_, _) => 1 case Del(_, _) => 2;
    var call := CallApply(false, code, cmd.key, cmd.value);
    Go(s, call);
    var caller := |s.ctxDone|;
    var s1 := s.(ctxDone := s.ctxDone + [false], pc := ApplyCheck(caller, cmd));
    assert Do(s, call) == s1;
    SubmitFrom(s1, caller, cmd);
  }

  lemma SubmitFrom(s: State, caller: nat, cmd: Command)
    requires Reachable(s) && WellFormed(s) && Live(s) && |Queue(s)| < s.size
    requires s.pc == ApplyCheck(caller, cmd) && !PoolIsDone(s) && !Done(s, caller)
    ensures Reachable(Send(s, cmd, Gen(s)))
  {
    var g := Gen(s);
    var s1, s2 := s.(pc := ApplyLoad(caller, cmd)), s.(pc := ApplySelect(caller, cmd, g));
    GoApply(s, s1);
    GoApply(s1, s2);
    SelectAndSend(s2, caller, cmd);
  }

  lemma SelectAndSend(s: State, caller: nat, cmd: Command)
    requires Reachable(s) && WellFormed(s) && Live(s) && |Queue(s)| < s.size
    requires s.pc == ApplySelect(caller, cmd, Gen(s)) && !PoolIsDone(s) && !Done(s, caller)
    ensures Reachable(Send(s, cmd, Gen(s)))
  {
    var s1 := s.(pc := ApplySend(cmd, Gen(s)));
    GoApply(s, s1);
    GoApply(s1, Send(s, cmd, Gen(s)));
  }

  // ---------- workers ----------

  /** Worker `w` goes round its loop up to holding the first queued command. */
  function Took(s: State, w: nat): State
    requires w < |s.workers| && |s.chans| > 0 && Queue(s) != []
  {
    var g, q := Gen(s), Queue(s);
    SetPhase(s.(chans := s.chans[g := s.chans[g].(queue := q[1..])], taken := s.taken + [q[0]]), w, Received(q[0]))
  }

  lemma Take(s: State, w: nat)
    requires Usable(s) && w < |s.workers| && s.workers[w].phase.Top? && |s.chans| > 0 && Queue(s) != []
    ensures Usable(Took(s, w))
  {
    UsableMeans(s);
    var s1 := SetPhase(s, w, Loaded(Some(Gen(s))));
    GoWork(s, w, DataCase, s1);
    GoWork(s1, w, DataCase, Took(s, w));
  }

  /** Worker `w` runs the command it holds and returns to the top. */
  function Handled(s: State, w: nat): State
    requires w < |s.workers| && s.workers[w].phase.Received? && s.workers[w].phase.ticket < |s.accepted|
  {
    var t := s.workers[w].phase.ticket;
    SetPhase(s.(store := Effect(s.accepted[t], s.store), applied := s.applied + [t]), w, Top)
  }

  lemma Handle(s: State, w: nat)
    requires Usable(s) && w < |s.workers| && s.workers[w].phase.Received? && s.workers[w].phase.ticket < |s.accepted|
    ensures Usable(Handled(s, w))
  {
    ReachableInv(s);
    var t := s.workers[w].phase.ticket;
    var s1 := SetPhase(s.(inWork := s.inWork + 1), w, Counted(t));
    var s2 := SetPhase(s.(inWork := s.inWork + 1, store := Effect(s.accepted[t], s.store), applied := s.applied + [t]),
                       w, Ran(t));
    GoWork(s, w, DataCase, s1);
    GoWork(s1, w, DataCase, s2);
    GoWork(s2, w, DataCase, Handled(s, w));
  }

  /** An Apply to an empty channel whose command is run at once. */
  function Performed(s: State, cmd: Command): State
    requires |s.chans| > 0
  {
    var t := |s.accepted|;
    s.(ctxDone := s.ctxDone + [false], accepted := s.accepted + [cmd], gens := s.gens + [Gen(s)],
       taken := s.taken + [t], applied := s.applied + [t], store := Effect(cmd, s.store), pc := Idle(Accepted))
  }

  /** Usable, with nothing queued and worker `w` at the top of its loop. */
  ghost predicate Served(s: State, w: nat) {
    Usable(s) && |s.chans| > 0 && Queue(s) == [] && s.size > 0 && w < |s.workers| && s.workers[w].phase.Top?
  }

  lemma Perform(s: State, cmd: Command, w: nat)
    requires Served(s, w)
    ensures Served(Performed(s, cmd), w)
  {
    var s1 := Submitted(s, cmd);
    Submit(s, cmd);
    Take(s1, w);
    var s2 := Took(s1, w);
    Handle(s2, w);
    PerformedIs(s, cmd, w);
  }

  lemma PerformedIs(s: State, cmd: Command, w: nat)
    requires |s.chans| > 0 && Queue(s) == [] && w < |s.workers| && s.workers[w].phase.Top?
    ensures var s2 := Took(Submitted(s, cmd), w);
            s2.workers[w].phase == Received(|s.accepted|) && |s2.accepted| == |s.accepted| + 1
    ensures Handled(Took(Submitted(s, cmd), w), w) == Performed(s, cmd)
  {
    var s1 := Submitted(s, cmd);
    assert Queue(s1) == [|s.accepted|];
    assert Queue(s1)[1..] == [];
    var s2 := Took(s1, w);
    assert s2.chans == s.chans;
    assert s2.workers[w := s2.workers[w].(phase := Top)] == s.workers;
  }

  // ---------- Stop ----------

  /** Usable, with nothing queued; the last `size` workers are at the top, the others are gone. */
  ghost predicate Ready(s: State) {
    && Usable(s) && |s.chans| > 0 && Queue(s) == []
    && s.size <= |s.workers|
    && (forall w :: 0 <= w < |s.workers| ==> s.workers[w].phase == if w < |s.workers| - s.size then Exited else Top)
  }

  lemma {:induction false} NoneWorking(ws: seq<Worker>)
    requires forall w :: 0 <= w < |ws| ==> ws[w].phase.Exited? || ws[w].phase.Top?
    ensures Total(ws, CountedBit) == 0
  {
    if ws != [] {
      NoneWorking(ws[..|ws| - 1]);
    }
  }

  /** Stop's test passes when no handler runs and the channel is empty. */
  lemma PassTest(s: State)
    requires Usable(s) && |s.chans| > 0 && s.inWork == 0 && Queue(s) == []
    ensures Reachable(s.(pc := StopCancel(Gen(s))))
  {
    UsableMeans(s);
    var g := Gen(s);
    Go(s, CallStop);
    var s1, s2, s3, s4 := s.(pc := StopCheck), s.(pc := StopLoad), s.(pc := StopInWork(g)), s.(pc := StopLen(g));
    assert Do(s, CallStop) == s1;
    GoPoll(s1, s2);
    GoPoll(s2, s3);
    GoPoll(s3, s4);
    GoPoll(s4, s.(pc := StopCancel(g)));
  }

  /** What Stop, Run and Reconnect never touch. */
  ghost predicate SameHistory(s: State, s': State) {
    && s'.size == s.size && s'.initial == s.initial && s'.store == s.store
    && s'.accepted == s.accepted && s'.gens == s.gens && s'.applied == s.applied
  }

  lemma CloseDown(s: State, g: nat) returns (s': State)
    requires Reachable(s) && WellFormed(s) && Live(s) && s.pc == StopCancel(g) && g == Gen(s)
    ensures Reachable(s') && SameHistory(s, s') && |s'.chans| == |s.chans| && s'.workers == s.workers
    ensures s'.pc == StopWait && s'.task == None && PoolIsDone(s')
  {
    var s1 := s.(ctxDone := s.ctxDone[s.poolCtx.value := true], pc := StopClose(g));
    var s2 := s1.(chans := s.chans[g := s.chans[g].(closed := true)], pc := StopNil);
    s' := s2.(task := None, pc := StopWait);
    GoTeardown(s, s1);
    GoTeardown(s1, s2);
    GoTeardown(s2, s');
  }

  lemma LeaveNil(s: State, w: nat) returns (s': State)
    requires Reachable(s) && w < |s.workers| && s.workers[w].phase.Top? && s.task == None && PoolIsDone(s)
    ensures Reachable(s') && SameHistory(s, s') && s'.chans == s.chans && s'.pc == s.pc
    ensures s'.task == None && PoolIsDone(s') && s'.workers == s.workers[w := s.workers[w].(phase := Exited)]
  {
    ReachableInv(s);
    LiveTotal(s.workers);
    var s1 := SetPhase(s, w, Loaded(None));
    GoWork(s, w, DataCase, s1);
    s' := SetPhase(s.(wg := s.wg - 1), w, Exited);
    assert s1.workers[w := s1.workers[w].(phase := Exited)] == s'.workers;
    GoWork(s1, w, PoolDoneCase, s');
  }

  /** Workers at the top of their loop leave one after the other. */
  lemma {:induction false} LeaveAll(s: State, n: nat) returns (s': State)
    requires Reachable(s) && s.pc == StopWait && s.task == None && PoolIsDone(s) && n <= |s.workers|
    requires forall w :: 0 <= w < |s.workers| ==> s.workers[w].phase.Exited? || (n <= w && s.workers[w].phase.Top?)
    ensures Reachable(s') && SameHistory(s, s') && s'.chans == s.chans && s'.pc == StopWait && AllExited(s'.workers)
    decreases |s.workers| - n
  {
    s' := s;
    if n < |s.workers| {
      if s.workers[n].phase.Top? {
        s' := LeaveNil(s, n);
      }
      s' := LeaveAll(s', n + 1);
    }
  }

  lemma Finish(s: State) returns (s': State)
    requires Reachable(s) && s.pc == StopWait && AllExited(s.workers)
    ensures Reachable(s') && SameHistory(s, s') && s'.chans == s.chans && s'.pc == Idle(Stopped)
  {
    ReachableInv(s);
    LiveTotal(s.workers);
    var s1 := s.(pc := StopClear);
    var s2 := s.(poolCancel := None, poolCtx := None, inWork := 0, pc := StopUnset);
    s' := s2.(run := false, pc := Idle(Stopped));
    GoTeardown(s, s1);
    GoTeardown(s1, s2);
    GoTeardown(s2, s');
  }

  /** A ready pool can be stopped. */
  lemma StopPool(s: State) returns (s': State)
    requires Ready(s)
    ensures Reachable(s') && SameHistory(s, s') && |s'.chans| == |s.chans| && s'.pc == Idle(Stopped)
  {
    UsableMeans(s);
    NoneWorking(s.workers);
    PassTest(s);
    s' := CloseDown(s.(pc := StopCancel(Gen(s))), Gen(s));
    s' := LeaveAll(s', 0);
    s' := Finish(s');
  }

  // ---------- Run and Reconnect ----------

  /** `s'` is `s` with `n` more workers at the top of their loop, and running. */
  ghost predicate Grown(s: State, s': State, n: nat) {
    && SameHistory(s, s') && s'.chans == s.chans && s'.task == s.task
    && s'.poolCtx == s.poolCtx && s'.ctxDone == s.ctxDone && s'.run && s'.pc.Idle?
    && |s'.workers| == |s.workers| + n
    && (forall w :: 0 <= w < |s.workers| ==> s'.workers[w] == s.workers[w])
    && (forall w :: |s.workers| <= w < |s'.workers| ==> s'.workers[w].phase.Top?)
  }

  lemma {:induction false} SpawnAll(s: State, ctx: nat, again: bool, done: nat, total: nat) returns (s': State)
    requires Reachable(s) && s.pc == RunSpawn(ctx, again, done, total) && done <= total
    ensures Reachable(s') && Grown(s, s', total - done)
    decreases total - done
  {
    if done < total {
      var s1 := SpawnOne(s, ctx, again, done, total);
      s' := SpawnAll(s1, ctx, again, done + 1, total);
    } else {
      s' := Mark(s, ctx, again, done);
    }
  }

  lemma SpawnOne(s: State, ctx: nat, again: bool, done: nat, total: nat) returns (s': State)
    requires Reachable(s) && s.pc == RunSpawn(ctx, again, done, total) && done < total
    ensures Reachable(s') && s' == s.(wg := s'.wg, workers := s'.workers, pc := RunSpawn(ctx, again, done + 1, total))
    ensures |s'.workers| == |s.workers| + 1 && s'.workers[..|s.workers|] == s.workers
    ensures s'.workers[|s.workers|].phase.Top?
  {
    ReachableInv(s);
    s' := s.(wg := s.wg + 1, workers := s.workers + [Worker(Gen(s), ctx, Top)],
             pc := RunSpawn(ctx, again, done + 1, total));
    GoRun(s, s');
  }

  lemma Mark(s: State, ctx: nat, again: bool, done: nat) returns (s': State)
    requires Reachable(s) && s.pc == RunSpawn(ctx, again, done, done)
    ensures Reachable(s') && Grown(s, s', 0)
  {
    ReachableInv(s);
    var s1 := s.(pc := RunMark(again));
    GoRun(s, s1);
    s' := s1.(run := true, pc := Idle(if again then Reconnected else Started));
    GoRun(s1, s');
  }

  /** Run, from its check to its return, on an idle pool with a channel. */
  lemma RunPool(s: State, ctx: nat, again: bool) returns (s': State)
    requires Reachable(s) && s.pc == RunCheck(ctx, again) && !s.run && s.task.Some? && !PoolIsDone(s)
    requires AllExited(s.workers)
    ensures Ready(s') && SameHistory(s, s') && s'.chans == s.chans && s'.ctxDone == s.ctxDone
    ensures |s'.workers| == |s.workers| + s.size
  {
    LoadSize(s, ctx, again);
    s' := SpawnAll(s.(pc := RunSpawn(ctx, again, 0, s.size)), ctx, again, 0, s.size);
    GrownReady(s, s');
  }

  lemma LoadSize(s: State, ctx: nat, again: bool)
    requires Reachable(s) && s.pc == RunCheck(ctx, again) && !s.run && s.task.Some?
    ensures Reachable(s.(pc := RunSpawn(ctx, again, 0, s.size)))
  {
    ReachableInv(s);
    var s1, s2 := s.(pc := RunLoad(ctx, again)), s.(pc := RunSpawn(ctx, again, 0, s.size));
    GoRun(s, s1);
    GoRun(s1, s2);
  }

  lemma GrownReady(s: State, s': State)
    requires Reachable(s) && s.pc.RunCheck? && !s.run && s.task.Some? && !PoolIsDone(s) && AllExited(s.workers)
    requires Reachable(s') && Grown(s, s', s.size)
    ensures Ready(s')
  {
    ReachableInv(s);
    assert Down(s);
  }

  /** A new pool, running. */
  lemma StartPool(size: nat, initial: Store) returns (s': State)
    ensures Ready(s') && s'.size == size && s'.initial == initial && s'.accepted == [] && s'.gens == []
    ensures s'.applied == [] && |s'.chans| == 1 && s'.ctxDone == [false, false] && |s'.workers| == size
  {
    var s := Fresh(size, initial, false);
    assert s == Fresh(s.size, s.initial, false);
    assert IsRun([s]) && [s][|[s]| - 1] == s;
    Go(s, CallRun(false));
    var s1 := s.(ctxDone := [false, false], pc := RunCheck(1, false));
    assert Do(s, CallRun(false)) == s1;
    s' := RunPool(s1, 1, false);
  }

  lemma RenewContext(s: State, ctx: nat) returns (s': State)
    requires Reachable(s) && s.pc == ReconnCheck(ctx) && !s.run && ctx < |s.ctxDone| && !s.ctxDone[ctx]
    ensures Reachable(s') && SameHistory(s, s') && s'.chans == s.chans && s'.workers == s.workers
    ensures s'.pc == ReconnChan(ctx) && !s'.run && !PoolIsDone(s')
  {
    ReachableInv(s);
    var s1 := s.(pc := ReconnCtx(ctx));
    GoReconnect(s, s1);
    var own := |s.ctxDone|;
    s' := s1.(ctxDone := s.ctxDone + [false], poolCtx := Some(own), poolCancel := Some(own), pc := ReconnChan(ctx));
    GoReconnect(s1, s');
  }

  lemma RenewChannel(s: State, ctx: nat) returns (s': State)
    requires Reachable(s) && s.pc == ReconnChan(ctx) && !s.run && !PoolIsDone(s)
    ensures Reachable(s') && SameHistory(s, s') && |s'.chans| == |s.chans| + 1 && s'.workers == s.workers
    ensures s'.pc == RunCheck(ctx, true) && !s'.run && s'.task.Some? && !PoolIsDone(s')
  {
    ReachableInv(s);
    s' := s.(chans := s.chans + [Chan([], s.size, false)], task := Some(|s.chans|), pc := RunCheck(ctx, true));
    GoReconnect(s, s');
  }

  /** A stopped pool, running again. */
  lemma ReconnectPool(s: State) returns (s': State)
    requires Reachable(s) && s.pc == Idle(Stopped)
    ensures Ready(s') && SameHistory(s, s') && |s'.chans| == |s.chans| + 1
  {
    ReachableInv(s);
    var ctx := |s.ctxDone|;
    s' := s.(ctxDone := s.ctxDone + [false], pc := ReconnCheck(ctx));
    Go(s, CallReconnect(false));
    s' := RenewContext(s', ctx);
    s' := RenewChannel(s', ctx);
    s' := RunPool(s', ctx, true);
  }

  /** A ready pool, stopped and running again until its generation is `g`. */
  lemma {:induction false} AdvanceTo(s: State, g: nat) returns (s': State)
    requires Ready(s) && |s.chans| - 1 <= g
    ensures Ready(s') && SameHistory(s, s') && |s'.chans| == g + 1
    decreases g - |s.chans|
  {
    s' := s;
    if |s.chans| <= g {
      var stopped := StopPool(s);
      s' := ReconnectPool(stopped);
      s' := AdvanceTo(s', g);
    }
  }
}
