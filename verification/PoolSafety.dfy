/** What every run of the pool guarantees. */
module PoolSafety {
  import opened CommandStore
  import opened PoolModel
  import opened PoolInvariant

  // ---------- conservation and back-pressure ----------

  lemma {:induction false} HeldAtMostLive(ws: seq<Worker>)
    ensures |Held(ws)| <= Total(ws, LiveBit)
  {
    if ws != [] {
      HeldAtMostLive(ws[..|ws| - 1]);
    }
  }

  /** In every state of every run the accepted commands are those queued, those held by workers and
      those applied; workers receive them in submission order; `inWork` counts the workers between
      the two additions; at most `2 * size` commands are outstanding. */
  lemma Conservation(tr: seq<State>, i: nat)
    requires IsRun(tr) && i < |tr|
    ensures var s := tr[i];
      && |s.chans| > 0
      && multiset(Queue(s)) + Held(s.workers) + multiset(s.applied) == multiset(Range(|s.accepted|))
      && s.taken == Range(|s.taken|)
      && s.inWork == Total(s.workers, CountedBit)
      && |Queue(s)| + |Held(s.workers)| <= 2 * s.size
  {
    RunsKeepInv(tr, i);
    var s := tr[i];
    var n, m := |s.accepted|, |s.taken|;
    assert multiset(s.taken + Queue(s)) == multiset(s.taken) + multiset(Queue(s));
    assert forall k :: 0 <= k < m ==> s.taken[k] == (s.taken + Queue(s))[k];
    HeldAtMostLive(s.workers);
  }

  // ---------- Stop ----------

  /** Every ticket up to `n` occurs exactly once in `log`, and nothing else does. */
  ghost predicate ExactlyOnce(log: seq<nat>, n: nat) {
    && Within(log, n)
    && (forall i, j :: 0 <= i < j < |log| ==> log[i] != log[j])
    && (forall t: nat :: t < n ==> t in log)
  }

  lemma PermutationIsExactlyOnce(log: seq<nat>, n: nat)
    requires multiset(log) == multiset(Range(n))
    ensures ExactlyOnce(log, n)
  {
    TicketsInRange(n, log);
    forall i, j | 0 <= i < j < |log| ensures log[i] != log[j] {
      TicketsDistinct(n, log, i, j);
    }
  }

  lemma StoppedIsDrained(s: State)
    requires Inv(s) && s.pc == Idle(Stopped)
    ensures Queue(s) == [] && AllExited(s.workers)
    ensures multiset(s.applied) == multiset(Range(|s.accepted|))
  {
    ExitedTotals(s.workers);
    assert s.taken + Queue(s) == s.taken;
    assert multiset(s.applied) + multiset{} == multiset(s.applied);
  }

  /** When Stop returns nil, every command Apply ever accepted has been applied exactly once, the
      channel is empty and every worker has exited. */
  lemma StopAppliesEverything(tr: seq<State>, i: nat)
    requires IsRun(tr) && i < |tr| && tr[i].pc == Idle(Stopped)
    ensures ExactlyOnce(tr[i].applied, |tr[i].accepted|)
    ensures |tr[i].chans| > 0 && Queue(tr[i]) == [] && AllExited(tr[i].workers)
  {
    RunsKeepInv(tr, i);
    StoppedIsDrained(tr[i]);
    PermutationIsExactlyOnce(tr[i].applied, |tr[i].accepted|);
  }

  // ---------- schedule independence ----------

  /** No two commands accepted between the same pair of Stops conflict. */
  ghost predicate RoundsHarmless(accepted: seq<Command>, gens: seq<nat>) {
    forall i, j :: 0 <= i < j < |accepted| && j < |gens| && gens[i] == gens[j] ==> NoConflict(accepted[j], accepted[i])
  }

  lemma OvertakingIsHarmless(s: State)
    requires Inv(s) && RoundsHarmless(s.accepted, s.gens)
    ensures InversionsHarmless(s.accepted, s.applied)
  {}

  /** After any number of Stop/Reconnect rounds the store is that of running all accepted commands
      in submission order, whatever the schedule was, if no round contains a conflict. */
  lemma ScheduleIndependence(tr: seq<State>, i: nat)
    requires IsRun(tr) && i < |tr| && tr[i].pc == Idle(Stopped)
    requires RoundsHarmless(tr[i].accepted, tr[i].gens)
    ensures tr[i].store == RunAll(tr[i].initial, tr[i].accepted)
  {
    RunsKeepInv(tr, i);
    var s := tr[i];
    StoppedIsDrained(s);
    OvertakingIsHarmless(s);
    ReorderedRun(s.initial, s.accepted, s.applied);
  }

  /** The case of pairwise distinct keys in each round. */
  lemma DistinctKeysIndependence(tr: seq<State>, i: nat)
    requires IsRun(tr) && i < |tr| && tr[i].pc == Idle(Stopped)
    requires forall a, b :: 0 <= a < b < |tr[i].accepted| && b < |tr[i].gens| && tr[i].gens[a] == tr[i].gens[b] ==>
               tr[i].accepted[a].key != tr[i].accepted[b].key
    ensures tr[i].store == RunAll(tr[i].initial, tr[i].accepted)
  {
    ScheduleIndependence(tr, i);
  }

  // ---------- lifecycle ----------

  /** No run ever sends on or closes a closed channel, dereferences a nil pool context, calls a nil
      cancel function or drives the WaitGroup negative; live workers all belong to the newest
      generation, only hold the newest channel, and never exceed `size`. */
  lemma LifecycleSafety(tr: seq<State>, i: nat)
    requires IsRun(tr) && i < |tr|
    ensures tr[i].fault.None? && |tr[i].chans| > 0
    ensures Total(tr[i].workers, LiveBit) <= tr[i].size
    ensures forall w :: 0 <= w < |tr[i].workers| && !tr[i].workers[w].phase.Exited? ==>
      && tr[i].workers[w].gen == Gen(tr[i])
      && (tr[i].workers[w].phase.Loaded? && tr[i].workers[w].phase.ch.Some? ==>
            tr[i].workers[w].phase.ch.value == Gen(tr[i]))
  {
    RunsKeepInv(tr, i);
    forall w | 0 <= w < |tr[i].workers| ensures WorkerOk(tr[i], tr[i].workers[w]) {}
  }

  // ---------- what the calls report ----------

  /** What the state was when a call returned with result `r`, and what the call did to the log. */
  ghost predicate Reports(s: State, s': State, r: Result) {
    match r
    case Accepted => s.pc.ApplySend? && s'.accepted == s.accepted + [s.pc.cmd]
    case _ => s'.accepted == s.accepted && Explains(s, s', r)
  }

  ghost predicate Explains(s: State, s': State, r: Result) {
    match r
    case NotRunning => !s.run && (s.pc.ApplyCheck? || s.pc.StopCheck?)
    case Frozen => s.run && s.task.None? && s.pc.ApplyLoad?
    case PoolDone => s.pc.ApplySelect? && PoolIsDone(s)
    case CallerDone => s.pc.ApplySelect? && Done(s, s.pc.caller)
    case StopFrozen => s.run && s.task.None? && s.pc.StopLoad?
    case Stopped => s.pc.StopUnset? && !s'.run && s'.task.None? && s'.poolCtx.None? && AllExited(s'.workers)
    case RunIgnored => s.run && s.pc.RunCheck?
    case AlreadyRunning => s.run && s.pc.ReconnCheck?
    case Started => s.pc == RunMark(false) && s'.run
    case Reconnected => s.pc == RunMark(true) && s'.run && s'.task.Some? && s'.poolCtx.Some?
    case _ => false
  }

  lemma RunReports(s: State)
    requires Light(s)
    ensures InRun(s.pc) && DoRun(s).pc.Idle? ==> Reports(s, DoRun(s), DoRun(s).pc.last)
    ensures InReconn(s.pc) && DoReconnect(s).pc.Idle? ==> Reports(s, DoReconnect(s), DoReconnect(s).pc.last)
  {}

  lemma ApplyReports(s: State, c: Case)
    requires Light(s) && InApply(s.pc) && ControlReady(s, c) && DoApply(s, c).pc.Idle?
    ensures Reports(s, DoApply(s, c), DoApply(s, c).pc.last)
  {}

  lemma PollReports(s: State)
    requires Light(s) && InPoll(s.pc) && DoPoll(s).pc.Idle?
    ensures Reports(s, DoPoll(s), DoPoll(s).pc.last)
  {}

  lemma TeardownReports(s: State)
    requires Light(s) && InTeardown(s.pc) && DoTeardown(s).pc.Idle?
    ensures Reports(s, DoTeardown(s), DoTeardown(s).pc.last)
  {
    assert s.pc.StopUnset?;
  }

  lemma ControlReports(s: State, c: Case)
    requires Light(s) && ControlReady(s, c) && DoControl(s, c).pc.Idle?
    ensures Reports(s, DoControl(s, c), DoControl(s, c).pc.last)
  {
    if InPoll(s.pc) {
      PollReports(s);
    } else if InTeardown(s.pc) {
      TeardownReports(s);
    } else if InApply(s.pc) {
      ApplyReports(s, c);
    } else {
      RunReports(s);
    }
  }

  /** A call that has just been made. */
  predicate AtStart(p: Pc) { p.RunCheck? || p.ReconnCheck? || p.ApplyCheck? || p.StopCheck? }

  /** A step from one state of a run to the next. */
  lemma StepOf(tr: seq<State>, i: nat) returns (a: Action)
    requires IsRun(tr) && i + 1 < |tr|
    ensures Inv(tr[i]) && Enabled(tr[i], a) && tr[i + 1] == Do(tr[i], a)
    ensures a.Work? ==> tr[i + 1].accepted == tr[i].accepted
    ensures !a.Control? ==> tr[i + 1].pc == tr[i].pc || AtStart(tr[i + 1].pc)
  {
    RunsKeepInv(tr, i);
    assert Next(tr[i + 1 - 1], tr[i + 1]);
    a :| Enabled(tr[i], a) && tr[i + 1] == Do(tr[i], a);
    if a.Work? {
      WorkMoves(tr[i], a.w, a.c);
    }
  }

  /** In every run, every call that returns reports truly why, and what it did to the commands. */
  lemma ResultsAreTruthful(tr: seq<State>, i: nat)
    requires IsRun(tr) && i + 1 < |tr| && !tr[i].pc.Idle? && tr[i + 1].pc.Idle?
    ensures Reports(tr[i], tr[i + 1], tr[i + 1].pc.last)
  {
    var a := StepOf(tr, i);
    if a.Control? {
      ControlReports(tr[i], a.c);
    }
  }

  lemma ControlAdds(s: State, c: Case)
    requires ControlReady(s, c)
    ensures DoControl(s, c).accepted == s.accepted || (s.pc.ApplySend? && DoControl(s, c).pc == Idle(Accepted))
  {
    if InRun(s.pc) {
      assert DoRun(s).accepted == s.accepted;
    } else if InReconn(s.pc) {
      assert DoReconnect(s).accepted == s.accepted;
    } else if InPoll(s.pc) {
      assert DoPoll(s).accepted == s.accepted;
    } else if InTeardown(s.pc) {
      assert DoTeardown(s).accepted == s.accepted;
    } else {
      assert DoControl(s, c) == DoApply(s, c);
    }
  }

  /** In every run, commands are only ever added by an Apply that reports them accepted. */
  lemma OnlyAcceptedAdds(tr: seq<State>, i: nat)
    requires IsRun(tr) && i + 1 < |tr| && tr[i + 1].accepted != tr[i].accepted
    ensures tr[i].pc.ApplySend? && tr[i + 1].pc == Idle(Accepted)
    ensures tr[i + 1].accepted == tr[i].accepted + [tr[i].pc.cmd]
  {
    var a := StepOf(tr, i);
    if a.Control? {
      ControlAdds(tr[i], a.c);
      ControlReports(tr[i], a.c);
    }
  }

  // ---------- Stop's test ----------

  lemma PollPrevious(s: State)
    requires Light(s) && InPoll(s.pc)
    ensures DoPoll(s).pc.StopLen? ==> s.pc == StopInWork(DoPoll(s).pc.ch) && s.inWork == 0
    ensures DoPoll(s).pc.StopCancel? ==>
              s.pc == StopLen(DoPoll(s).pc.ch) && s.pc.ch < |s.chans| && s.chans[s.pc.ch].queue == []
  {}

  /** No other call leads into Stop's test. */
  lemma OnlyPolls(s: State, c: Case)
    requires Light(s) && ControlReady(s, c) && !InPoll(s.pc)
    ensures !DoControl(s, c).pc.StopLen? && !DoControl(s, c).pc.StopCancel?
  {
    if InTeardown(s.pc) {
      assert !DoTeardown(s).pc.StopLen? && !DoTeardown(s).pc.StopCancel?;
    } else if InApply(s.pc) {
      assert InApply(DoApply(s, c).pc) || DoApply(s, c).pc.Idle?;
    } else if InRun(s.pc) {
      assert InRun(DoRun(s).pc) || DoRun(s).pc.Idle?;
    } else {
      assert InReconn(DoReconnect(s).pc) || DoReconnect(s).pc.Idle? || DoReconnect(s).pc.RunCheck?;
    }
  }

  lemma StartsIdle(tr: seq<State>)
    requires IsRun(tr)
    ensures tr[0].pc.Idle?
  {
    assert Init(tr[0]);
  }

  /** How a run comes to Stop's read of the length, and past it. */
  lemma TestStep(tr: seq<State>, i: nat)
    requires IsRun(tr) && i + 1 < |tr| && tr[i + 1].pc != tr[i].pc
    ensures tr[i + 1].pc.StopLen? ==> tr[i].pc == StopInWork(tr[i + 1].pc.ch) && tr[i].inWork == 0
    ensures tr[i + 1].pc.StopCancel? ==>
              tr[i].pc == StopLen(tr[i + 1].pc.ch) && tr[i].pc.ch < |tr[i].chans| &&
              tr[i].chans[tr[i].pc.ch].queue == []
  {
    var a := StepOf(tr, i);
    if a.Control? {
      if InPoll(tr[i].pc) {
        PollPrevious(tr[i]);
        assert tr[i + 1] == DoPoll(tr[i]);
      } else {
        OnlyPolls(tr[i], a.c);
      }
    }
  }

  /** The last position before `i` that the controller was elsewhere. */
  lemma {:induction false} Entered(pcs: seq<Pc>, i: nat, p: Pc) returns (j: nat)
    requires i < |pcs| && pcs[i] == p && pcs[0] != p
    ensures j < i && pcs[j] != p && forall m :: j < m <= i ==> pcs[m] == p
  {
    if pcs[i - 1] == p {
      j := Entered(pcs, i - 1, p);
    } else {
      j := i - 1;
    }
  }

  function Pcs(tr: seq<State>): (pcs: seq<Pc>)
    ensures |pcs| == |tr| && forall i :: 0 <= i < |tr| ==> pcs[i] == tr[i].pc
  {
    seq(|tr|, i requires 0 <= i < |tr| => tr[i].pc)
  }

  /** How a run came to a state in which Stop is about to read the length. */
  lemma InWorkWasRead(tr: seq<State>, k: nat, ch: nat) returns (j: nat)
    requires IsRun(tr) && k < |tr| && tr[k].pc == StopLen(ch)
    ensures j < k && tr[j].pc == StopInWork(ch) && tr[j].inWork == 0
    ensures forall m :: j < m <= k ==> tr[m].pc == StopLen(ch)
  {
    StartsIdle(tr);
    j := Entered(Pcs(tr), k, StopLen(ch));
    TestStep(tr, j);
  }

  lemma LenWasRead(tr: seq<State>, i: nat, ch: nat) returns (k: nat)
    requires IsRun(tr) && i < |tr| && tr[i].pc == StopCancel(ch)
    ensures k < i && tr[k].pc == StopLen(ch) && ch < |tr[k].chans| && tr[k].chans[ch].queue == []
    ensures forall m :: k < m <= i ==> tr[m].pc == StopCancel(ch)
  {
    StartsIdle(tr);
    k := Entered(Pcs(tr), i, StopCancel(ch));
    TestStep(tr, k);
  }

  /** In every run Stop goes on to cancel only after two earlier states of the same round of its loop:
      one in which no handler was running, and then one in which the newest channel was empty. */
  lemma StopTestPassed(tr: seq<State>, i: nat, ch: nat) returns (j: nat, k: nat)
    requires IsRun(tr) && i < |tr| && tr[i].pc == StopCancel(ch)
    ensures j < k < i
    ensures tr[j].pc == StopInWork(ch) && Total(tr[j].workers, CountedBit) == 0
    ensures tr[k].pc == StopLen(ch) && |tr[k].chans| > 0 && ch == Gen(tr[k]) && Queue(tr[k]) == []
    ensures forall m :: j < m < i ==> tr[m].pc == if m <= k then StopLen(ch) else StopCancel(ch)
  {
    k := LenWasRead(tr, i, ch);
    j := InWorkWasRead(tr, k, ch);
    TestMeans(tr, j, ch);
    TestMeans(tr, k, ch);
  }

  lemma TestMeans(tr: seq<State>, i: nat, ch: nat)
    requires IsRun(tr) && i < |tr| && (tr[i].pc == StopInWork(ch) || tr[i].pc == StopLen(ch))
    ensures tr[i].inWork == Total(tr[i].workers, CountedBit)
    ensures |tr[i].chans| > 0 && ch == Gen(tr[i])
  {
    RunsKeepInv(tr, i);
  }

  // ---------- Run on a stopped pool ----------

  /** Marked as running, without a channel, and no call in progress that could change that. */
  predicate Stuck(s: State) {
    && s.run && s.task.None?
    && (match s.pc
        case Idle(_) => true
        case RunCheck(_, _) => true
        case ReconnCheck(_) => true
        case ApplyCheck(_, _) => true
        case ApplyLoad(_, _) => true
        case StopCheck => true
        case StopLoad => true
        case _ => false)
  }

  /** A stuck pool stays stuck, accepts nothing and cannot be stopped or reconnected. */
  lemma StuckForever(s: State, a: Action)
    requires Enabled(s, a) && Stuck(s)
    ensures Stuck(Do(s, a)) && Do(s, a).accepted == s.accepted
    ensures var p := Do(s, a).pc; p.Idle? ==> p == s.pc || p.last in {RunIgnored, AlreadyRunning, Frozen, StopFrozen}
  {}

  lemma StuckByControl(s: State, c: Case)
    requires Light(s) && ControlReady(s, c) && !Stuck(s) && Stuck(DoControl(s, c))
    ensures s.pc == RunMark(false) && s.task.None?
  {}

  /** The only way in: Run, called on a pool whose channel is gone. */
  lemma StuckOnlyByRun(s: State, a: Action)
    requires Inv(s) && Enabled(s, a) && !Stuck(s) && Stuck(Do(s, a))
    ensures a.Control? && s.pc == RunMark(false) && s.task.None?
  {
    match a
    case Work(w, c) => WorkMoves(s, w, c);
    case Control(c) => StuckByControl(s, c);
    case _ =>
  }

  /** The states of one call of Run: from its start to its return. */
  ghost predicate IsRunCall(s: State, done: bool, tr: seq<State>) {
    && |tr| > 1
    && Enabled(s, CallRun(done)) && tr[0] == Do(s, CallRun(done))
    && (forall k :: 0 <= k < |tr| - 1 ==> InRun(tr[k].pc))
    && (forall k :: 0 < k < |tr| ==> Next(tr[k - 1], tr[k]))
    && tr[|tr| - 1].pc.Idle?
  }

  /** What a Run of an idle, stopped pool keeps until it returns. */
  ghost predicate Starting(s: State, s': State) {
    && Inv(s') && s'.task == s.task
    && if InRun(s'.pc) then !s'.run && !Again(s'.pc) else s'.pc == Idle(Started) && s'.run
  }

  predicate Again(p: Pc)
    requires InRun(p)
  {
    p.again
  }

  lemma StartingControl(s: State, s': State, c: Case)
    requires Starting(s, s') && InRun(s'.pc)
    ensures var t := DoRun(s');
      t.task == s.task && if InRun(t.pc) then !t.run && !Again(t.pc) else t.pc == Idle(Started) && t.run
  {}

  lemma StartingStep(s: State, s': State, a: Action)
    requires Starting(s, s') && InRun(s'.pc) && Enabled(s', a)
    ensures Starting(s, Do(s', a))
  {
    StepInv(s', a);
    match a
    case Work(w, c) => WorkMoves(s', w, c);
    case Control(c) => StartingControl(s, s', c);
    case _ =>
  }

  lemma {:induction false} RunCallStarts(s: State, done: bool, tr: seq<State>, k: nat)
    requires Inv(s) && s.pc.Idle? && !s.run && IsRunCall(s, done, tr) && k < |tr|
    ensures Starting(s, tr[k])
  {
    if k == 0 {
      StepInv(s, CallRun(done));
    } else {
      RunCallStarts(s, done, tr, k - 1);
      assert Next(tr[k - 1], tr[k]);
      var a :| Enabled(tr[k - 1], a) && tr[k] == Do(tr[k - 1], a);
      StartingStep(s, tr[k - 1], a);
    }
  }

  /** Run of an idle pool that is not running leaves it stuck exactly when its channel was gone at the
      call, and live otherwise, however workers and cancellations interleave. */
  lemma RunSticksIff(s: State, done: bool, tr: seq<State>)
    requires Inv(s) && s.pc.Idle? && !s.run && IsRunCall(s, done, tr)
    ensures var s' := tr[|tr| - 1];
      && s'.pc == Idle(Started) && |s'.chans| > 0
      && (Stuck(s') <==> s.task.None?)
      && (Live(s') <==> s.task.Some?)
  {
    RunCallStarts(s, done, tr, |tr| - 1);
  }

  ghost predicate RunsOn(s: State, s': State) {
    s.fault.None? && InRun(s.pc) && DoRun(s) == s'
  }

  lemma NextOfRun(s: State, s': State)
    requires RunsOn(s, s')
    ensures Next(s, s')
  {
    assert Enabled(s, Control(DataCase)) && Do(s, Control(DataCase)) == s';
  }

  lemma NextOfRuns(tr: seq<State>)
    requires forall k :: 0 < k < |tr| ==> RunsOn(tr[k - 1], tr[k])
    ensures forall k :: 0 < k < |tr| ==> Next(tr[k - 1], tr[k])
  {
    forall k | 0 < k < |tr| ensures Next(tr[k - 1], tr[k]) {
      NextOfRun(tr[k - 1], tr[k]);
    }
  }

  /** The steps of a Run that finds no channel. */
  lemma EmptyRun(s: State, ctx: nat) returns (tr: seq<State>)
    requires s.fault.None? && !s.run && s.task.None? && s.pc == RunCheck(ctx, false)
    ensures |tr| == 5 && tr[0] == s && tr[4] == s.(run := true, pc := Idle(Started))
    ensures forall k :: 0 <= k < 4 ==> InRun(tr[k].pc) && RunsOn(tr[k], tr[k + 1])
  {
    tr := [s, s.(pc := RunLoad(ctx, false)), s.(pc := RunSpawn(ctx, false, 0, 0)), s.(pc := RunMark(false)),
           s.(run := true, pc := Idle(Started))];
  }

  /** A Run of a stopped pool can always return, whichever rejected calls came before it. */
  lemma RunAfterStopSticks(s: State, done: bool)
    requires Inv(s) && s.pc.Idle? && !s.run && s.task.None?
    ensures exists tr :: IsRunCall(s, done, tr) && Stuck(tr[|tr| - 1])
  {
    var s1 := s.(ctxDone := s.ctxDone + [done], pc := RunCheck(|s.ctxDone|, false));
    var tr := EmptyRun(s1, |s.ctxDone|);
    assert Do(s, CallRun(done)) == s1;
    forall k | 0 < k < |tr| ensures RunsOn(tr[k - 1], tr[k]) {
      assert RunsOn(tr[k - 1], tr[k - 1 + 1]);
    }
    NextOfRuns(tr);
    assert IsRunCall(s, done, tr);
  }
}
