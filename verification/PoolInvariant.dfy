/** The inductive invariant of the pool and its preservation by every step. */
module PoolInvariant {
  import opened CommandStore
  import opened Options
  import opened PoolModel

  // ---------- sums over the workers ----------

  function LiveBit(p: Phase): int { if p.Exited? then 0 else 1 }
  function CountedBit(p: Phase): int { if p.Counted? || p.Ran? then 1 else 0 }

  function Total(ws: seq<Worker>, f: Phase -> int): int {
    if ws == [] then 0 else Total(ws[..|ws| - 1], f) + f(ws[|ws| - 1].phase)
  }

  /** The command a worker has received and whose handler has not run. */
  predicate Holding(p: Phase) { p.Received? || p.Counted? }

  function HeldBy(p: Phase): multiset<nat> {
    if Holding(p) then multiset{p.ticket} else multiset{}
  }

  function Held(ws: seq<Worker>): multiset<nat> {
    if ws == [] then multiset{} else Held(ws[..|ws| - 1]) + HeldBy(ws[|ws| - 1].phase)
  }

  lemma {:induction false} TotalUpdate(ws: seq<Worker>, i: nat, w: Worker, f: Phase -> int)
    requires i < |ws|
    ensures Total(ws[i := w], f) == Total(ws, f) - f(ws[i].phase) + f(w.phase)
  {
    var n := |ws| - 1;
    if i < n {
      assert ws[i := w][..n] == ws[..n][i := w];
      TotalUpdate(ws[..n], i, w, f);
    } else {
      assert ws[i := w][..n] == ws[..n];
    }
  }

  lemma {:induction false} HeldUpdate(ws: seq<Worker>, i: nat, w: Worker)
    requires i < |ws|
    ensures Held(ws[i := w]) + HeldBy(ws[i].phase) == Held(ws) + HeldBy(w.phase)
  {
    var n := |ws| - 1;
    if i < n {
      assert ws[i := w][..n] == ws[..n][i := w];
      HeldUpdate(ws[..n], i, w);
      AddBoth(Held(ws[..n][i := w]), HeldBy(ws[i].phase), Held(ws[..n]), HeldBy(w.phase), HeldBy(ws[n].phase));
    } else {
      assert ws[i := w][..n] == ws[..n];
    }
  }

  lemma AddBoth(a: multiset<nat>, x: multiset<nat>, b: multiset<nat>, y: multiset<nat>, m: multiset<nat>)
    requires a + x == b + y
    ensures (a + m) + x == (b + m) + y
  {
    assert (a + m) + x == (a + x) + m;
    assert (b + m) + y == (b + y) + m;
  }

  lemma AppendWorker(ws: seq<Worker>, w: Worker, f: Phase -> int)
    ensures Total(ws + [w], f) == Total(ws, f) + f(w.phase)
    ensures Held(ws + [w]) == Held(ws) + HeldBy(w.phase)
  {
    assert (ws + [w])[..|ws|] == ws;
  }

  predicate AllExited(ws: seq<Worker>) {
    forall i :: 0 <= i < |ws| ==> ws[i].phase.Exited?
  }

  lemma {:induction false} LiveTotal(ws: seq<Worker>)
    ensures 0 <= Total(ws, LiveBit) <= |ws|
    ensures Total(ws, LiveBit) == 0 <==> AllExited(ws)
  {
    if ws != [] {
      LiveTotal(ws[..|ws| - 1]);
      assert forall i :: 0 <= i < |ws| - 1 ==> ws[..|ws| - 1][i] == ws[i];
    }
  }

  lemma {:induction false} ExitedTotals(ws: seq<Worker>)
    requires AllExited(ws)
    ensures Total(ws, CountedBit) == 0 && Held(ws) == multiset{}
  {
    if ws != [] {
      ExitedTotals(ws[..|ws| - 1]);
    }
  }

  // ---------- the invariant ----------

  function Queue(s: State): seq<nat>
    requires |s.chans| > 0
  {
    s.chans[Gen(s)].queue
  }

  /** References point where they should, and nothing has gone wrong. */
  ghost predicate WellFormed(s: State) {
    && s.fault.None?
    && |s.chans| > 0
    && (forall c :: 0 <= c < |s.chans| ==> s.chans[c].cap == s.size)
    && (s.task.Some? ==> s.task.value == Gen(s))
    && s.poolCancel == s.poolCtx
    && (s.poolCtx.Some? ==> s.poolCtx.value < |s.ctxDone|)
  }

  /** What a live worker may assume of the pool it runs in. */
  ghost predicate WorkerOk(s: State, w: Worker)
    requires |s.chans| > 0
  {
    && w.ctx < |s.ctxDone|
    && w.gen <= Gen(s)
    && (!w.phase.Exited? ==> w.gen == Gen(s) && s.poolCtx.Some?)
    && (w.phase.Loaded? && w.phase.ch.Some? ==> w.phase.ch.value == Gen(s))
    && (w.phase.Loaded? && w.phase.ch.None? ==> s.task.None? && PoolIsDone(s))
    && (Holding(w.phase) ==> w.phase.ticket < |s.gens| && s.gens[w.phase.ticket] == Gen(s))
    && (w.phase.Exited? && w.gen == Gen(s) && s.task.Some? ==> PoolIsDone(s) || Done(s, w.ctx))
  }

  ghost predicate WorkersOk(s: State)
    requires |s.chans| > 0
  {
    forall i :: 0 <= i < |s.workers| ==> WorkerOk(s, s.workers[i])
  }

  /** Every accepted command is queued, held by one worker, or applied; the queue is in order. */
  ghost predicate TicketsOk(s: State)
    requires |s.chans| > 0
  {
    && |s.gens| == |s.accepted|
    && |s.taken| + |Queue(s)| == |s.accepted|
    && s.taken + Queue(s) == Range(|s.accepted|)
    && |Queue(s)| <= s.size
    && multiset(s.applied) + Held(s.workers) == multiset(s.taken)
  }

  /** Generations: queued commands belong to the newest one, and handlers only overtake
      each other inside a generation. */
  ghost predicate GensOk(s: State)
    requires |s.chans| > 0 && |s.gens| == |s.accepted|
  {
    && (forall i, j :: 0 <= i <= j < |s.gens| ==> s.gens[i] <= s.gens[j])
    && (forall i :: 0 <= i < |s.gens| ==> s.gens[i] <= Gen(s))
    && (forall i :: |s.taken| <= i < |s.gens| ==> s.gens[i] == Gen(s))
    && Within(s.applied, |s.accepted|)
    && (forall i, j :: 0 <= i < j < |s.applied| && s.applied[i] > s.applied[j] ==>
          s.gens[s.applied[i]] == s.gens[s.applied[j]])
  }

  ghost predicate CountersOk(s: State) {
    && s.inWork == Total(s.workers, CountedBit)
    && s.wg == Total(s.workers, LiveBit)
    && s.wg <= s.size
  }

  ghost predicate StoreOk(s: State) {
    Within(s.applied, |s.accepted|) && s.store == RunAll(s.initial, Pick(s.accepted, s.applied))
  }

  ghost predicate Open(s: State)
    requires |s.chans| > 0
  {
    s.task.Some? && !s.chans[Gen(s)].closed && s.poolCtx.Some?
  }

  /** The last `n` workers spawned belong to this generation. */
  ghost predicate SpawnedLast(s: State, n: nat)
    requires |s.chans| > 0
  {
    n <= |s.workers| && forall i :: |s.workers| - n <= i < |s.workers| ==> s.workers[i].gen == Gen(s)
  }

  /** All workers of this generation were spawned. */
  ghost predicate Spawned(s: State)
    requires |s.chans| > 0
  {
    SpawnedLast(s, s.size)
  }

  ghost predicate NoneSpawned(s: State)
    requires |s.chans| > 0
  {
    forall i :: 0 <= i < |s.workers| ==> s.workers[i].gen < Gen(s)
  }

  /** Running with an open channel. */
  ghost predicate Live(s: State)
    requires |s.chans| > 0
  {
    s.run && Open(s) && Spawned(s)
  }

  /** Not running: before the first Run, or after a Stop. */
  ghost predicate Down(s: State)
    requires |s.chans| > 0
  {
    && !s.run && AllExited(s.workers) && Queue(s) == []
    && (s.task.Some? ==> Open(s) && NoneSpawned(s))
  }

  /** Marked as running without a channel: Run was called on a stopped pool. */
  ghost predicate Wedged(s: State)
    requires |s.chans| > 0
  {
    s.run && s.task.None? && AllExited(s.workers) && Queue(s) == []
  }

  ghost predicate AtRest(s: State)
    requires |s.chans| > 0
  {
    Live(s) || Down(s) || Wedged(s)
  }

  ghost predicate Draining(s: State)
    requires |s.chans| > 0
  {
    s.run && Queue(s) == []
  }

  ghost predicate PcOk(s: State)
    requires |s.chans| > 0
  {
    match s.pc
    case Idle(r) => AtRest(s) && (r.Stopped? ==> Down(s) && s.task.None?)
    case RunCheck(ctx, again) => ctx < |s.ctxDone| && AtRest(s) && (again ==> Down(s) && s.task.Some?)
    case RunLoad(ctx, again) => ctx < |s.ctxDone| && Down(s) && (again ==> s.task.Some?)
    case RunSpawn(ctx, again, done, total) =>
      && ctx < |s.ctxDone| && !s.run && Queue(s) == []
      && Total(s.workers, LiveBit) <= done <= total
      && (s.task.Some? ==> Open(s) && total == s.size)
      && (s.task.None? ==> total == 0 && AllExited(s.workers))
      && (again ==> s.task.Some?)
      && SpawnedLast(s, done)
    case RunMark(again) =>
      && !s.run && Queue(s) == []
      && (s.task.Some? ==> Open(s) && Spawned(s))
      && (s.task.None? ==> AllExited(s.workers))
      && (again ==> s.task.Some?)
    case ReconnCheck(ctx) => ctx < |s.ctxDone| && AtRest(s)
    case ReconnCtx(ctx) => ctx < |s.ctxDone| && Down(s)
    case ReconnChan(ctx) => ctx < |s.ctxDone| && Down(s) && s.poolCtx.Some?
    case ApplyCheck(_, _) => AtRest(s)
    case ApplyLoad(_, _) => AtRest(s) && s.run
    case ApplySelect(_, _, ch) => Live(s) && ch == Gen(s)
    case ApplySend(_, ch) => Live(s) && ch == Gen(s)
    case StopCheck => AtRest(s)
    case StopLoad => AtRest(s) && s.run
    case StopInWork(ch) => Live(s) && ch == Gen(s)
    case StopLen(ch) => Live(s) && ch == Gen(s)
    case StopCancel(ch) => Live(s) && ch == Gen(s) && Draining(s)
    case StopClose(ch) => Live(s) && ch == Gen(s) && Draining(s) && PoolIsDone(s)
    case StopNil => Draining(s) && s.task.Some? && s.chans[Gen(s)].closed && PoolIsDone(s)
    case StopWait => Draining(s) && s.task.None? && s.chans[Gen(s)].closed && PoolIsDone(s)
    case StopClear => Draining(s) && s.task.None? && AllExited(s.workers)
    case StopUnset => Draining(s) && s.task.None? && s.poolCtx.None? && AllExited(s.workers)
  }

  ghost predicate Inv(s: State) {
    && WellFormed(s)
    && WorkersOk(s)
    && TicketsOk(s)
    && GensOk(s)
    && CountersOk(s)
    && StoreOk(s)
    && PcOk(s)
  }

  lemma InitInv(s: State)
    requires Init(s)
    ensures Inv(s)
  {
    assert Pick(s.accepted, s.applied) == [];
  }

  // ---------- worker steps ----------

  lemma UpdateSums(ws: seq<Worker>, w: nat, v: Worker)
    requires w < |ws|
    ensures Total(ws[w := v], LiveBit) == Total(ws, LiveBit) - LiveBit(ws[w].phase) + LiveBit(v.phase)
    ensures Total(ws[w := v], CountedBit) == Total(ws, CountedBit) - CountedBit(ws[w].phase) + CountedBit(v.phase)
    ensures Held(ws[w := v]) + HeldBy(ws[w].phase) == Held(ws) + HeldBy(v.phase)
  {
    TotalUpdate(ws, w, v, LiveBit);
    TotalUpdate(ws, w, v, CountedBit);
    HeldUpdate(ws, w, v);
  }

  /** The net effect of one worker step on everything the invariant looks at. */
  ghost predicate Moved(s: State, s': State, w: nat)
    requires |s.chans| > 0 && w < |s.workers|
  {
    && |s'.workers| == |s.workers|
    && s'.workers == s.workers[w := s'.workers[w]]
    && var was, now := s.workers[w], s'.workers[w];
    && now.gen == was.gen && now.ctx == was.ctx && !was.phase.Exited?
    && s'.size == s.size && s'.initial == s.initial && s'.run == s.run && s'.pc == s.pc && s'.fault == s.fault
    && s'.task == s.task && s'.poolCtx == s.poolCtx && s'.poolCancel == s.poolCancel && s'.ctxDone == s.ctxDone
    && s'.accepted == s.accepted && s'.gens == s.gens
    && |s'.chans| == |s.chans|
    && (forall c :: 0 <= c < |s.chans| ==> s'.chans[c].cap == s.chans[c].cap && s'.chans[c].closed == s.chans[c].closed)
    && s'.inWork - s.inWork == CountedBit(now.phase) - CountedBit(was.phase)
    && s'.wg - s.wg == LiveBit(now.phase) - LiveBit(was.phase)
    && MovedTicket(s, s', was.phase, now.phase)
  }

  /** Whether and how a worker step moves a command: out of the queue, through the handler, or not. */
  ghost predicate MovedTicket(s: State, s': State, was: Phase, now: Phase)
    requires |s.chans| > 0 && |s'.chans| == |s.chans|
  {
    if now.Received? then
      && HeldBy(was) == multiset{}
      && Queue(s) == [now.ticket] + Queue(s')
      && s'.taken == s.taken + [now.ticket] && s'.applied == s.applied && s'.store == s.store
    else
      && Queue(s') == Queue(s) && s'.taken == s.taken
      && if now.Ran? then
           && was == Counted(now.ticket) && now.ticket < |s.accepted|
           && s'.applied == s.applied + [now.ticket]
           && s'.store == Effect(s.accepted[now.ticket], s.store)
         else HeldBy(now) == HeldBy(was) && s'.applied == s.applied && s'.store == s.store
  }

  lemma LoadMoves(s: State, w: nat, c: Case)
    requires WellFormed(s) && w < |s.workers| && s.workers[w].phase.Top?
    requires s.task.None? ==> PoolIsDone(s)
    requires WorkerOk(s, s.workers[w])
    ensures Moved(s, DoWork(s, w, c), w) && WorkerOk(DoWork(s, w, c), DoWork(s, w, c).workers[w])
  {}

  lemma ExitMoves(s: State, w: nat, c: Case)
    requires WellFormed(s) && w < |s.workers| && s.workers[w].phase.Loaded?
    requires WorkReady(s, s.workers[w], c) && WorkerOk(s, s.workers[w]) && s.wg > 0
    requires !c.DataCase? || (s.workers[w].phase.ch.Some? && Queue(s) == [])
    requires s.task.Some? && s.chans[Gen(s)].closed ==> PoolIsDone(s)
    ensures Moved(s, DoWork(s, w, c), w) && WorkerOk(DoWork(s, w, c), DoWork(s, w, c).workers[w])
  {}

  lemma TakeMoves(s: State, w: nat, c: Case)
    requires WellFormed(s) && w < |s.workers| && s.workers[w].phase.Loaded?
    requires WorkReady(s, s.workers[w], c) && WorkerOk(s, s.workers[w])
    requires c.DataCase? && s.workers[w].phase.ch.Some? && Queue(s) != []
    requires Queue(s)[0] < |s.gens| && s.gens[Queue(s)[0]] == Gen(s)
    ensures Moved(s, DoWork(s, w, c), w) && WorkerOk(DoWork(s, w, c), DoWork(s, w, c).workers[w])
  {}

  lemma SelectMoves(s: State, w: nat, c: Case)
    requires WellFormed(s) && w < |s.workers| && s.workers[w].phase.Loaded? && PcOk(s)
    requires WorkReady(s, s.workers[w], c) && WorkerOk(s, s.workers[w]) && s.wg > 0
    requires TicketsOk(s) && GensOk(s)
    ensures Moved(s, DoWork(s, w, c), w) && WorkerOk(DoWork(s, w, c), DoWork(s, w, c).workers[w])
  {
    var q := Queue(s);
    if !c.DataCase? || (s.workers[w].phase.ch.Some? && q == []) {
      ExitMoves(s, w, c);
    } else {
      assert q[0] == (s.taken + q)[|s.taken|] == |s.taken|;
      TakeMoves(s, w, c);
    }
  }

  lemma HandlerMoves(s: State, w: nat, c: Case)
    requires WellFormed(s) && w < |s.workers| && WorkerOk(s, s.workers[w]) && |s.gens| == |s.accepted|
    requires s.workers[w].phase.Received? || s.workers[w].phase.Counted? || s.workers[w].phase.Ran?
    ensures Moved(s, DoWork(s, w, c), w) && WorkerOk(DoWork(s, w, c), DoWork(s, w, c).workers[w])
  {}

  lemma MovedWorkers(s: State, s': State, w: nat)
    requires WellFormed(s) && WorkersOk(s) && w < |s.workers| && Moved(s, s', w)
    requires WorkerOk(s', s'.workers[w])
    ensures WellFormed(s') && WorkersOk(s')
  {
    forall i | 0 <= i < |s'.workers| ensures WorkerOk(s', s'.workers[i]) {
      assert WorkerOk(s, s.workers[i]);
    }
  }

  lemma MovedTickets(s: State, s': State, w: nat)
    requires |s.chans| > 0 && w < |s.workers| && Moved(s, s', w) && TicketsOk(s)
    ensures TicketsOk(s')
  {
    UpdateSums(s.workers, w, s'.workers[w]);
    var q, q' := Queue(s), Queue(s');
    assert s'.workers[w].phase.Received? ==> s.taken + q == s'.taken + q';
    var was, now := s.workers[w].phase, s'.workers[w].phase;
    if now.Received? {
      TakenConserved(s.applied, s.taken, Held(s.workers), Held(s'.workers), now.ticket);
    } else if now.Ran? {
      AppliedConserved(s.applied, multiset(s.taken), Held(s.workers), Held(s'.workers), now.ticket);
    } else {
      HeldCancel(Held(s.workers), Held(s'.workers), HeldBy(was));
    }
  }

  lemma TakenConserved(applied: seq<nat>, taken: seq<nat>, held: multiset<nat>, held': multiset<nat>, t: nat)
    requires multiset(applied) + held == multiset(taken)
    requires held' + multiset{} == held + multiset{t}
    ensures multiset(applied) + held' == multiset(taken + [t])
  {
    assert held' == held' + multiset{};
    assert multiset(applied) + (held + multiset{t}) == (multiset(applied) + held) + multiset{t};
  }

  lemma AppliedConserved(applied: seq<nat>, taken: multiset<nat>, held: multiset<nat>, held': multiset<nat>, t: nat)
    requires multiset(applied) + held == taken
    requires held' + multiset{t} == held + multiset{}
    ensures multiset(applied + [t]) + held' == taken
  {
    assert held == held + multiset{};
    assert (multiset(applied) + multiset{t}) + held' == multiset(applied) + (held' + multiset{t});
  }

  lemma HeldCancel(held: multiset<nat>, held': multiset<nat>, m: multiset<nat>)
    requires held' + m == held + m
    ensures held' == held
  {
    assert held == (held + m) - m && held' == (held' + m) - m;
  }

  lemma MovedGens(s: State, s': State, w: nat)
    requires |s.chans| > 0 && w < |s.workers| && Moved(s, s', w) && TicketsOk(s) && GensOk(s)
    requires WorkerOk(s, s.workers[w])
    ensures GensOk(s')
  {}

  lemma MovedCounters(s: State, s': State, w: nat)
    requires |s.chans| > 0 && w < |s.workers| && Moved(s, s', w) && CountersOk(s)
    ensures CountersOk(s')
  {
    UpdateSums(s.workers, w, s'.workers[w]);
  }

  lemma MovedStore(s: State, s': State, w: nat)
    requires |s.chans| > 0 && w < |s.workers| && Moved(s, s', w) && StoreOk(s)
    ensures StoreOk(s')
  {
    if s'.workers[w].phase.Ran? {
      var t := s'.workers[w].phase.ticket;
      assert Pick(s'.accepted, s'.applied) == Pick(s.accepted, s.applied) + [s.accepted[t]];
      RunAllAppend(s.initial, Pick(s.accepted, s.applied), s.accepted[t]);
    }
  }

  lemma MovedLive(s: State, s': State, w: nat)
    requires |s.chans| > 0 && w < |s.workers| && Moved(s, s', w)
    ensures Open(s) ==> Open(s')
    ensures Spawned(s) ==> Spawned(s')
    ensures Queue(s) == [] ==> Queue(s') == []
    ensures !AllExited(s.workers)
  {
    assert forall i :: 0 <= i < |s.workers| ==> s'.workers[i].gen == s.workers[i].gen;
  }

  lemma MovedModes(s: State, s': State, w: nat)
    requires |s.chans| > 0 && w < |s.workers| && Moved(s, s', w)
    ensures Live(s) ==> Live(s')
    ensures Down(s) ==> Down(s')
    ensures Wedged(s) ==> Wedged(s')
    ensures Queue(s) == [] ==> Queue(s') == []
    ensures Open(s) ==> Open(s')
    ensures Spawned(s) ==> Spawned(s')
    ensures Total(s'.workers, LiveBit) <= Total(s.workers, LiveBit)
    ensures !AllExited(s.workers)
  {
    UpdateSums(s.workers, w, s'.workers[w]);
    MovedLive(s, s', w);
  }

  lemma MovedPc(s: State, s': State, w: nat)
    requires |s.chans| > 0 && w < |s.workers| && Moved(s, s', w) && PcOk(s)
    ensures PcOk(s')
  {
    MovedModes(s, s', w);
    assert s'.workers[|s.workers| - 1].gen == s.workers[|s.workers| - 1].gen;
  }

  lemma WorkMoves(s: State, w: nat, c: Case)
    requires Inv(s) && Enabled(s, Work(w, c))
    ensures Moved(s, DoWork(s, w, c), w) && WorkerOk(DoWork(s, w, c), DoWork(s, w, c).workers[w])
  {
    assert WorkerOk(s, s.workers[w]);
    LiveTotal(s.workers);
    match s.workers[w].phase
    case Top => LoadMoves(s, w, c);
    case Loaded(_) => SelectMoves(s, w, c);
    case _ => HandlerMoves(s, w, c);
  }

  lemma WorkInv(s: State, w: nat, c: Case)
    requires Inv(s) && Enabled(s, Work(w, c))
    ensures Inv(DoWork(s, w, c))
  {
    WorkMoves(s, w, c);
    MovedInv(s, DoWork(s, w, c), w);
  }

  lemma MovedInv(s: State, s': State, w: nat)
    requires Inv(s) && w < |s.workers| && Moved(s, s', w)
    requires WorkerOk(s', s'.workers[w])
    ensures Inv(s')
  {
    MovedWorkers(s, s', w);
    MovedTickets(s, s', w);
    MovedGens(s, s', w);
    MovedCounters(s, s', w);
    MovedStore(s, s', w);
    MovedPc(s, s', w);
  }

  // ---------- controller steps ----------

  ghost predicate Light(s: State) { WellFormed(s) && PcOk(s) }

  /** A step that leaves workers, counters, queues and logs alone. */
  ghost predicate SameWork(s: State, s': State) {
    && s'.size == s.size && s'.initial == s.initial && s'.store == s.store
    && s'.inWork == s.inWork && s'.wg == s.wg && s'.workers == s.workers
    && s'.accepted == s.accepted && s'.gens == s.gens && s'.taken == s.taken && s'.applied == s.applied
    && |s'.chans| == |s.chans|
    && (forall c :: 0 <= c < |s.chans| ==> s'.chans[c].queue == s.chans[c].queue)
    && |s.ctxDone| <= |s'.ctxDone| && (forall c :: 0 <= c < |s.ctxDone| && s.ctxDone[c] ==> s'.ctxDone[c])
  }

  /** Such a step keeps the invariant if it is right about the pool's context and channel. */
  ghost predicate Quiet(s: State, s': State)
    requires |s.chans| > 0
  {
    && SameWork(s, s') && Light(s')
    && (s'.task == s.task || (s'.task.None? && PoolIsDone(s')))
    && (s'.poolCtx == s.poolCtx || (AllExited(s.workers) && (s.task.Some? ==> NoneSpawned(s))))
  }

  lemma QuietWorkers(s: State, s': State)
    requires WellFormed(s) && WorkersOk(s) && Quiet(s, s')
    ensures WorkersOk(s')
  {
    forall i | 0 <= i < |s'.workers| ensures WorkerOk(s', s'.workers[i]) {
      assert WorkerOk(s, s.workers[i]);
    }
  }

  lemma QuietLogs(s: State, s': State)
    requires |s.chans| > 0 && SameWork(s, s')
    requires TicketsOk(s) && GensOk(s) && CountersOk(s) && StoreOk(s)
    ensures TicketsOk(s') && GensOk(s') && CountersOk(s') && StoreOk(s')
  {}

  lemma QuietInv(s: State, s': State)
    requires Inv(s) && Quiet(s, s')
    ensures Inv(s')
  {
    QuietWorkers(s, s');
    QuietLogs(s, s');
  }

  // Run

  ghost predicate SpawnedOne(s: State, s': State, w: Worker) {
    && s' == s.(wg := s'.wg, workers := s'.workers, pc := s'.pc)
    && s'.workers == s.workers + [w] && s'.wg == s.wg + 1 && w.phase.Top?
  }

  lemma SpawnedLogs(s: State, s': State, w: Worker)
    requires |s.chans| > 0 && s.wg < s.size && SpawnedOne(s, s', w)
    requires TicketsOk(s) && GensOk(s) && CountersOk(s) && StoreOk(s)
    ensures TicketsOk(s') && GensOk(s') && CountersOk(s') && StoreOk(s')
  {
    AppendWorker(s.workers, w, LiveBit);
    AppendWorker(s.workers, w, CountedBit);
    assert Held(s'.workers) == Held(s.workers);
  }

  lemma SpawnedInv(s: State, s': State, w: Worker)
    requires Inv(s) && s.wg < s.size && SpawnedOne(s, s', w) && WorkerOk(s, w) && PcOk(s')
    ensures Inv(s')
  {
    SpawnedLogs(s, s', w);
    forall i | 0 <= i < |s'.workers| ensures WorkerOk(s', s'.workers[i]) {
      assert i < |s.workers| ==> WorkerOk(s, s.workers[i]);
    }
  }

  lemma SpawnStep(s: State)
    requires Light(s) && s.pc.RunSpawn? && s.pc.done < s.pc.total
    ensures Total(s.workers, LiveBit) < s.size
    ensures var w := Worker(Gen(s), s.pc.ctx, Top);
            SpawnedOne(s, DoRun(s), w) && WorkerOk(s, w) && PcOk(DoRun(s))
  {
    AppendWorker(s.workers, Worker(Gen(s), s.pc.ctx, Top), LiveBit);
  }

  lemma RunStep(s: State)
    requires Light(s) && InRun(s.pc) && !(s.pc.RunSpawn? && s.pc.done < s.pc.total)
    ensures Quiet(s, DoRun(s))
  {
    LiveTotal(s.workers);
  }

  lemma RunInv(s: State)
    requires Inv(s) && InRun(s.pc)
    ensures Inv(DoRun(s))
  {
    var s' := DoRun(s);
    if s.pc.RunSpawn? && s.pc.done < s.pc.total {
      SpawnStep(s);
      SpawnedInv(s, s', Worker(Gen(s), s.pc.ctx, Top));
    } else {
      RunStep(s);
      QuietInv(s, s');
    }
  }

  // Reconnect

  lemma ReconnStep(s: State)
    requires Light(s) && InReconn(s.pc) && !s.pc.ReconnChan?
    ensures Quiet(s, DoReconnect(s))
  {}

  ghost predicate NewChan(s: State, s': State) {
    s' == s.(chans := s.chans + [Chan([], s.size, false)], task := Some(|s.chans|), pc := s'.pc)
  }

  lemma NewChanWorkers(s: State, s': State)
    requires WellFormed(s) && WorkersOk(s) && NewChan(s, s') && AllExited(s.workers) && s.poolCtx.Some?
    ensures WellFormed(s') && WorkersOk(s') && NoneSpawned(s')
  {
    forall i | 0 <= i < |s'.workers| ensures WorkerOk(s', s'.workers[i]) && s'.workers[i].gen < Gen(s') {
      assert WorkerOk(s, s.workers[i]);
    }
  }

  lemma NewChanLogs(s: State, s': State)
    requires |s.chans| > 0 && NewChan(s, s') && Queue(s) == []
    requires TicketsOk(s) && GensOk(s) && CountersOk(s) && StoreOk(s)
    ensures TicketsOk(s') && GensOk(s') && CountersOk(s') && StoreOk(s')
  {
    assert s.taken + Queue(s) == s.taken == s'.taken + Queue(s');
  }

  lemma ReconnInv(s: State)
    requires Inv(s) && InReconn(s.pc)
    ensures Inv(DoReconnect(s))
  {
    var s' := DoReconnect(s);
    if s.pc.ReconnChan? {
      NewChanWorkers(s, s');
      NewChanLogs(s, s');
    } else {
      ReconnStep(s);
      QuietInv(s, s');
    }
  }

  // Apply

  lemma ApplyStep(s: State, c: Case)
    requires Light(s) && InApply(s.pc) && !s.pc.ApplySend? && ControlReady(s, c)
    ensures Quiet(s, DoApply(s, c))
  {}

  lemma SendLogs(s: State, cmd: Command, ch: nat)
    requires |s.chans| > 0 && ch == Gen(s) && |Queue(s)| < s.size
    requires TicketsOk(s) && GensOk(s) && StoreOk(s)
    ensures TicketsOk(Send(s, cmd, ch)) && GensOk(Send(s, cmd, ch)) && StoreOk(Send(s, cmd, ch))
  {
    var s', n := Send(s, cmd, ch), |s.accepted|;
    assert Range(n + 1) == Range(n) + [n];
    assert Queue(s') == Queue(s) + [n];
    assert s'.taken + Queue(s') == (s.taken + Queue(s)) + [n];
    assert Pick(s'.accepted, s'.applied) == Pick(s.accepted, s.applied);
  }

  lemma SendStep(s: State, cmd: Command, ch: nat)
    requires Light(s) && WorkersOk(s) && Live(s) && ch == Gen(s)
    ensures Light(Send(s, cmd, ch)) && WorkersOk(Send(s, cmd, ch))
  {
    var s' := Send(s, cmd, ch);
    forall i | 0 <= i < |s'.workers| ensures WorkerOk(s', s'.workers[i]) {
      assert WorkerOk(s, s.workers[i]);
    }
  }

  lemma ApplyInv(s: State, c: Case)
    requires Inv(s) && InApply(s.pc) && ControlReady(s, c)
    ensures Inv(DoApply(s, c))
  {
    if s.pc.ApplySend? {
      SendLogs(s, s.pc.cmd, s.pc.ch);
      SendStep(s, s.pc.cmd, s.pc.ch);
    } else {
      ApplyStep(s, c);
      QuietInv(s, DoApply(s, c));
    }
  }

  // Stop

  lemma PollStep(s: State)
    requires Light(s) && InPoll(s.pc)
    ensures Quiet(s, DoPoll(s))
  {
    assert DoPoll(s) == s.(pc := DoPoll(s).pc);
    assert AtRest(s) && AtRest(DoPoll(s));
  }

  lemma CancelCloseStep(s: State, c: Case)
    requires Light(s) && ControlReady(s, c)
    requires s.pc.StopCancel? || s.pc.StopClose? || s.pc.StopNil?
    ensures Quiet(s, DoTeardown(s))
  {
    if !s.pc.StopNil? {
      assert Live(s) && Live(DoTeardown(s)) == !s.pc.StopClose?;
    }
  }

  lemma WaitClearStep(s: State, c: Case)
    requires Light(s) && CountersOk(s) && ControlReady(s, c)
    requires s.pc.StopWait? || s.pc.StopClear? || s.pc.StopUnset?
    ensures Quiet(s, DoTeardown(s))
  {
    LiveTotal(s.workers);
    assert AllExited(s.workers);
    ExitedTotals(s.workers);
  }

  lemma PollInv(s: State)
    requires Inv(s) && InPoll(s.pc)
    ensures Inv(DoPoll(s))
  {
    PollStep(s);
    QuietInv(s, DoPoll(s));
  }

  lemma TeardownInv(s: State, c: Case)
    requires Inv(s) && InTeardown(s.pc) && ControlReady(s, c)
    ensures Inv(DoTeardown(s))
  {
    if s.pc.StopCancel? || s.pc.StopClose? || s.pc.StopNil? {
      CancelCloseStep(s, c);
    } else {
      WaitClearStep(s, c);
    }
    QuietInv(s, DoTeardown(s));
  }

  lemma ControlInv(s: State, c: Case)
    requires Inv(s) && ControlReady(s, c)
    ensures Inv(DoControl(s, c))
  {
    if InRun(s.pc) {
      RunInv(s);
    } else if InReconn(s.pc) {
      ReconnInv(s);
    } else if InApply(s.pc) {
      ApplyInv(s, c);
    } else if InPoll(s.pc) {
      PollInv(s);
    } else {
      TeardownInv(s, c);
    }
  }

  // ---------- every step, every run ----------

  lemma CallStep(s: State, a: Action)
    requires Light(s) && s.pc.Idle?
    requires a.CallRun? || a.CallReconnect? || a.CallApply? || a.CallStop?
    ensures Quiet(s, Do(s, a))
  {}

  lemma CancelStep(s: State, ctx: nat)
    requires Light(s) && ctx < |s.ctxDone|
    ensures Quiet(s, Do(s, Cancel(ctx)))
  {}

  lemma CallInv(s: State, a: Action)
    requires Inv(s) && s.pc.Idle?
    requires a.CallRun? || a.CallReconnect? || a.CallApply? || a.CallStop?
    ensures Inv(Do(s, a))
  {
    CallStep(s, a);
    QuietInv(s, Do(s, a));
  }

  lemma CancelInv(s: State, ctx: nat)
    requires Inv(s) && ctx < |s.ctxDone|
    ensures Inv(Do(s, Cancel(ctx)))
  {
    CancelStep(s, ctx);
    QuietInv(s, Do(s, Cancel(ctx)));
  }

  lemma StepInv(s: State, a: Action)
    requires Inv(s) && Enabled(s, a)
    ensures Inv(Do(s, a))
  {
    match a
    case Control(c) => ControlInv(s, c);
    case Work(w, c) => WorkInv(s, w, c);
    case Cancel(ctx) => CancelInv(s, ctx);
    case Tick =>
    case _ => CallInv(s, a);
  }

  lemma {:induction false} RunsKeepInv(tr: seq<State>, i: nat)
    requires IsRun(tr) && i < |tr|
    ensures Inv(tr[i])
  {
    if i == 0 {
      InitInv(tr[0]);
    } else {
      RunsKeepInv(tr, i - 1);
      assert Next(tr[i - 1], tr[i]);
      var a :| Enabled(tr[i - 1], a) && tr[i] == Do(tr[i - 1], a);
      StepInv(tr[i - 1], a);
    }
  }
}
