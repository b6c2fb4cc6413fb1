/** Reachable states that show what the pool does not guarantee. */
module PoolWitness {
  import opened CommandStore
  import opened PoolModel
  import opened PoolInvariant
  import opened PoolLiveness
  import opened PoolHanging
  import opened PoolRuns

  /** A pool of any size with its first command in the channel. */
  lemma OneQueued(size: nat, initial: Store, cmd: Command) returns (s: State)
    requires size > 0
    ensures Usable(s) && s.size == size && s.initial == initial && s.accepted == [cmd] && s.applied == []
    ensures |s.chans| == 1 && Queue(s) == [0] && s.inWork == 0 && (forall ctx: nat :: !Done(s, ctx))
    ensures |s.workers| > 0 && s.workers[0].phase.Top?
  {
    var s0 := StartPool(size, initial);
    Submit(s0, cmd);
    AllAtTop(s0);
    s := Submitted(s0, cmd);
  }

  lemma AllAtTop(s: State)
    requires Ready(s)
    ensures s.inWork == 0
  {
    ReachableInv(s);
    NoneWorking(s.workers);
  }

  /** In a pool of any size, the test `inWork == 0 && len == 0` can pass while a worker holds a command
      it has received but not counted: the test alone does not mean that the work is done. */
  lemma TestPassesWithHeldCommand(size: nat, initial: Store, cmd: Command)
    requires size > 0
    ensures exists s :: Reachable(s) && s.pc == StopCancel(0) && s.size == size && s.initial == initial &&
                        s.accepted == [cmd] && |s.workers| > 0 && s.workers[0].phase == Received(0) && s.applied == []
  {
    var s0 := OneQueued(size, initial, cmd);
    Take(s0, 0);
    PassTest(Took(s0, 0));
  }

  /** In a pool of any size, with nothing cancelled before, a Stop that finds one command in the channel
      need not return: a cancellation can come first. */
  lemma CancelCanHang(size: nat, initial: Store, cmd: Command)
    requires size > 0
    ensures exists s :: Reachable(s) && s.pc == StopCheck && s.size == size && s.initial == initial &&
                        s.accepted == [cmd] && |s.chans| > 0 && Live(s) && Uncancelled(s) && !SureToReturn(s)
  {
    var s0 := OneQueued(size, initial, cmd);
    UsableMeans(s0);
    Go(s0, CallStop);
    var s := s0.(pc := StopCheck);
    assert Do(s0, CallStop) == s;
    ReachableInv(s);
    StopReturnsIff(s);
    assert Queue(s) == [0] && Live(s);
    NothingDone(s0, s);
  }

  lemma NothingDone(s0: State, s: State)
    requires (forall ctx: nat :: !Done(s0, ctx)) && s.ctxDone == s0.ctxDone && |s.chans| > 0
    ensures Uncancelled(s)
  {
    forall ctx: nat ensures !Done(s, ctx) {
      assert !Done(s0, ctx);
    }
  }
}
