/** Exactly when the store after a Stop is that of running all commands in submission order. */
module PoolPredictable {
  import opened CommandStore
  import opened PoolModel
  import opened PoolInvariant
  import opened PoolSafety
  import opened PoolRuns

  /** A history can occur only if the rounds of its commands never fall. */
  predicate Possible(accepted: seq<Command>, gens: seq<nat>) {
    |gens| == |accepted| && forall i, j :: 0 <= i <= j < |gens| ==> gens[i] <= gens[j]
  }

  /** A later round writes the key of command `i`. */
  predicate Overwritten(accepted: seq<Command>, gens: seq<nat>, i: nat)
    requires |gens| == |accepted| && i < |accepted|
  {
    exists k :: 0 <= k < |accepted| && gens[k] > gens[i] && Writes(accepted[k], accepted[i].key)
  }

  /** Every conflict inside a round is about a key that a later round writes. */
  predicate LastWritersAgree(accepted: seq<Command>, gens: seq<nat>)
    requires |gens| == |accepted|
  {
    forall i, j :: 0 <= i < j < |accepted| && gens[i] == gens[j] && !NoConflict(accepted[i], accepted[j]) ==>
      Overwritten(accepted, gens, j)
  }

  /** A stopped pool with a given size, initial store and history. */
  ghost predicate EndsWith(s: State, size: nat, initial: Store, accepted: seq<Command>, gens: seq<nat>) {
    && Reachable(s) && s.pc == Idle(Stopped)
    && s.size == size && s.initial == initial && s.accepted == accepted && s.gens == gens
  }

  /** Whatever the schedule was, the store is that of submission order. */
  ghost predicate Predictable(size: nat, initial: Store, accepted: seq<Command>, gens: seq<nat>) {
    forall s: State :: EndsWith(s, size, initial, accepted, gens) ==> s.store == RunAll(initial, accepted)
  }

  // ---------- sufficient: agreeing last writers ----------

  /** Handlers overtake each other only inside a round. */
  predicate RoundOrder(gens: seq<nat>, order: seq<nat>)
    requires Within(order, |gens|)
  {
    forall i, j :: 0 <= i < j < |order| && order[i] > order[j] ==> gens[order[i]] == gens[order[j]]
  }

  lemma LastWriterAgrees(log: seq<Command>, gens: seq<nat>, order: seq<nat>, key: string, p: nat, q: nat)
    requires Possible(log, gens) && LastWritersAgree(log, gens)
    requires multiset(order) == multiset(Range(|log|)) && Within(order, |log|) && RoundOrder(gens, order)
    requires p < |log| && Writes(log[p], key) && forall i :: p < i < |log| ==> !Writes(log[i], key)
    requires q < |order| && Writes(log[order[q]], key) && forall i :: q < i < |order| ==> !Writes(log[order[i]], key)
    ensures Written(log[order[q]]) == Written(log[p])
  {
    var e := order[q];
    TicketsInRange(|log|, order);
    assert p in order;
    var x: nat :| x < |order| && order[x] == p;
    NotOverwritten(log, gens, p);
    ConflictMeans(log[e], log[p]);
    assert e != p ==> x < q && e < p && gens[e] == gens[p];
  }

  lemma NotOverwritten(log: seq<Command>, gens: seq<nat>, p: nat)
    requires Possible(log, gens) && p < |log| && forall i :: p < i < |log| ==> !Writes(log[i], log[p].key)
    ensures !Overwritten(log, gens, p)
  {}

  lemma KeyAgrees(initial: Store, log: seq<Command>, gens: seq<nat>, order: seq<nat>, key: string)
    requires Possible(log, gens) && LastWritersAgree(log, gens)
    requires multiset(order) == multiset(Range(|log|)) && Within(order, |log|) && RoundOrder(gens, order)
    ensures Lookup(RunAll(initial, Pick(log, order)), key) == Lookup(RunAll(initial, log), key)
  {
    var picked := Pick(log, order);
    var p := FindLastWrite(log, key);
    var q := FindLastWrite(picked, key);
    if p.None? {
      NeverWritten(initial, log, key);
      NeverWritten(initial, picked, key);
    } else {
      TicketsInRange(|log|, order);
      assert p.value in order;
      var x: nat :| x < |order| && order[x] == p.value;
      assert Writes(picked[x], key);
      assert forall i :: 0 <= i < |order| ==> picked[i] == log[order[i]];
      LastWriterAgrees(log, gens, order, key, p.value, q.value);
      LastWrite(initial, log, key, p.value);
      LastWrite(initial, picked, key, q.value);
    }
  }

  lemma AgreeingStops(s: State)
    requires Inv(s) && s.pc == Idle(Stopped) && LastWritersAgree(s.accepted, s.gens)
    ensures s.store == RunAll(s.initial, s.accepted)
  {
    StoppedIsDrained(s);
    forall key ensures Lookup(s.store, key) == Lookup(RunAll(s.initial, s.accepted), key) {
      KeyAgrees(s.initial, s.accepted, s.gens, s.applied, key);
    }
    SameLookups(s.store, RunAll(s.initial, s.accepted));
  }

  // ---------- sufficient: one worker ----------

  /** Commands are applied in the order in which they were received. */
  ghost predicate InOrder(s: State) {
    s.size <= 1 ==> |s.applied| <= |s.taken| && s.applied == s.taken[..|s.applied|]
  }

  lemma LastOne(a: seq<nat>, b: seq<nat>, t: nat)
    requires |b| == |a| + 1 && a == b[..|a|] && multiset(a + [t]) == multiset(b)
    ensures a + [t] == b
  {
    assert b == a + [b[|a|]];
    assert multiset(a) + multiset{t} == multiset(a) + multiset{b[|a|]};
    assert multiset{t} == (multiset(a) + multiset{t}) - multiset(a);
    assert multiset{b[|a|]} == (multiset(a) + multiset{b[|a|]}) - multiset(a);
    assert t in multiset{b[|a|]};
  }

  lemma OneHeld(s: State)
    requires Inv(s) && s.size <= 1
    ensures |s.taken| <= |s.applied| + 1
    ensures |s.taken| == |s.applied| ==> multiset(s.applied) == multiset(s.taken)
  {
    HeldAtMostLive(s.workers);
    assert |multiset(s.applied) + Held(s.workers)| == |s.applied| + |Held(s.workers)|;
    if |s.taken| == |s.applied| {
      assert Held(s.workers) == multiset{};
    }
  }

  lemma InOrderWork(s: State, w: nat, c: Case)
    requires Inv(s) && InOrder(s) && Enabled(s, Work(w, c))
    ensures InOrder(DoWork(s, w, c))
  {
    WorkMoves(s, w, c);
    WorkInv(s, w, c);
    if s.size <= 1 {
      OneHeld(s);
      OneHeld(DoWork(s, w, c));
      InOrderMoved(s, DoWork(s, w, c), w);
    }
  }

  lemma InOrderMoved(s: State, s': State, w: nat)
    requires |s.chans| > 0 && w < |s.workers| && Moved(s, s', w) && InOrder(s) && s.size <= 1
    requires |s'.taken| <= |s'.applied| + 1 && |s.taken| <= |s.applied| + 1
    requires |s'.applied| <= |s'.taken|
    requires |s'.taken| == |s'.applied| ==> multiset(s'.applied) == multiset(s'.taken)
    ensures InOrder(s')
  {
    if s'.workers[w].phase.Ran? {
      LastOne(s.applied, s.taken, s'.workers[w].phase.ticket);
    }
  }

  /** What a step that is not a worker's leaves alone. */
  ghost predicate SameReceipts(s: State, s': State) {
    s'.applied == s.applied && s'.taken == s.taken && s'.size == s.size
  }

  lemma ControlReceipts(s: State, c: Case)
    requires ControlReady(s, c)
    ensures SameReceipts(s, DoControl(s, c))
  {
    if InRun(s.pc) {
      assert SameReceipts(s, DoRun(s));
    } else if InReconn(s.pc) {
      assert SameReceipts(s, DoReconnect(s));
    } else if InApply(s.pc) {
      assert SameReceipts(s, DoApply(s, c));
    } else if InPoll(s.pc) {
      assert SameReceipts(s, DoPoll(s));
    } else {
      assert SameReceipts(s, DoTeardown(s));
    }
  }

  lemma InOrderStep(s: State, a: Action)
    requires Inv(s) && InOrder(s) && Enabled(s, a)
    ensures InOrder(Do(s, a))
  {
    match a
    case Work(w, c) => InOrderWork(s, w, c);
    case Control(c) => ControlReceipts(s, c);
    case _ => assert SameReceipts(s, Do(s, a));
  }

  lemma {:induction false} RunsInOrder(tr: seq<State>, i: nat)
    requires IsRun(tr) && i < |tr|
    ensures InOrder(tr[i])
  {
    if i == 0 {
      assert Init(tr[0]);
    } else {
      RunsInOrder(tr, i - 1);
      var a := StepOf(tr, i - 1);
      InOrderStep(tr[i - 1], a);
    }
  }

  /** With at most one worker, every state of every run has applied the accepted commands one by one
      in submission order, conflicts or not. */
  lemma OneWorkerInOrder(tr: seq<State>, i: nat)
    requires IsRun(tr) && i < |tr| && tr[i].size <= 1
    ensures var s := tr[i];
      && |s.applied| <= |s.accepted| && s.applied == Range(|s.applied|)
      && s.store == RunAll(s.initial, s.accepted[..|s.applied|])
  {
    var s := tr[i];
    RunsKeepInv(tr, i);
    RunsInOrder(tr, i);
    assert forall k :: 0 <= k < |s.taken| ==> s.taken[k] == (s.taken + Queue(s))[k];
    assert Pick(s.accepted, s.applied) == s.accepted[..|s.applied|];
  }

  // ---------- necessary: a command that is held back ----------

  /** The first `n` commands of a given history have been accepted. */
  ghost predicate At(s: State, log: seq<Command>, gens: seq<nat>, n: nat) {
    |gens| == |log| && n <= |log| && s.accepted == log[..n] && s.gens == gens[..n]
  }

  /** The tickets from `n` up to `m`. */
  function Span(n: nat, m: nat): seq<nat>
    requires n <= m
  {
    seq(m - n, i requires 0 <= i => n + i)
  }

  lemma SpanNext(a: seq<nat>, n: nat, m: nat)
    requires n < m
    ensures a + [n] + Span(n + 1, m) == a + Span(n, m)
  {
    assert [n] + Span(n + 1, m) == Span(n, m);
  }

  ghost predicate SamePool(s: State, s': State) {
    s'.size == s.size && s'.initial == s.initial
  }

  lemma PerformNext(s: State, w: nat, log: seq<Command>, gens: seq<nat>, n: nat) returns (s': State)
    requires Served(s, w) && At(s, log, gens, n) && n < |log| && gens[n] == |s.chans| - 1
    ensures Served(s', w) && At(s', log, gens, n + 1) && SamePool(s, s') && s'.workers == s.workers
    ensures s'.applied == s.applied + [n] && s'.chans == s.chans
  {
    Perform(s, log[n], w);
    s' := Performed(s, log[n]);
  }

  /** Worker `w` runs the rest of a round, one command at a time. */
  lemma {:induction false} PerformAll(s: State, w: nat, log: seq<Command>, gens: seq<nat>, n: nat, m: nat)
    returns (s': State)
    requires Served(s, w) && At(s, log, gens, n) && n <= m <= |log|
    requires forall i :: n <= i < m ==> gens[i] == |s.chans| - 1
    ensures Served(s', w) && At(s', log, gens, m) && SamePool(s, s') && s'.workers == s.workers
    ensures s'.applied == s.applied + Span(n, m) && s'.chans == s.chans
    decreases m - n
  {
    s' := s;
    if n < m {
      s' := PerformNext(s, w, log, gens, n);
      s' := PerformAll(s', w, log, gens, n + 1, m);
      SpanNext(s.applied, n, m);
    }
  }

  /** A ready pool runs more of the history, one command at a time. */
  lemma {:induction false} ExtendTo(s: State, log: seq<Command>, gens: seq<nat>, n: nat, m: nat) returns (s': State)
    requires Ready(s) && s.size > 0 && At(s, log, gens, n) && Possible(log, gens) && n <= m <= |log|
    requires forall i :: n <= i < |log| ==> gens[i] >= |s.chans| - 1
    ensures Ready(s') && SamePool(s, s') && At(s', log, gens, m)
    ensures s'.applied == s.applied + Span(n, m)
    ensures forall i :: m <= i < |log| ==> gens[i] >= |s'.chans| - 1
    decreases m - n
  {
    s' := s;
    if n < m {
      s' := ExtendOne(s, log, gens, n);
      s' := ExtendTo(s', log, gens, n + 1, m);
      SpanNext(s.applied, n, m);
    }
  }

  lemma ExtendOne(s: State, log: seq<Command>, gens: seq<nat>, n: nat) returns (s': State)
    requires Ready(s) && s.size > 0 && At(s, log, gens, n) && Possible(log, gens) && n < |log|
    requires gens[n] >= |s.chans| - 1
    ensures Ready(s') && SamePool(s, s') && At(s', log, gens, n + 1) && s'.applied == s.applied + [n]
    ensures |s'.chans| - 1 == gens[n]
  {
    var s1 := AdvanceTo(s, gens[n]);
    s' := PerformNext(s1, |s1.workers| - 1, log, gens, n);
  }

  /** Accepts command `n` and lets worker `w` receive it, and no more. */
  lemma HoldNext(s: State, w: nat, log: seq<Command>, gens: seq<nat>, n: nat) returns (s': State)
    requires Served(s, w) && At(s, log, gens, n) && n < |log| && gens[n] == |s.chans| - 1
    ensures Usable(s') && At(s', log, gens, n + 1) && SamePool(s, s') && s'.applied == s.applied
    ensures |s'.chans| == |s.chans| && Queue(s') == []
    ensures s'.workers == s.workers[w := s.workers[w].(phase := Received(n))]
  {
    Submit(s, log[n]);
    var s1 := Submitted(s, log[n]);
    assert Queue(s1) == [n];
    Take(s1, w);
    s' := Took(s1, w);
  }

  lemma ReleaseHeld(s: State, w: nat, log: seq<Command>, gens: seq<nat>, d: nat, m: nat) returns (s': State)
    requires Usable(s) && |s.chans| > 0 && Queue(s) == [] && At(s, log, gens, m) && d < m
    requires w < |s.workers| && s.workers[w].phase == Received(d)
    ensures Usable(s') && At(s', log, gens, m) && SamePool(s, s') && s'.applied == s.applied + [d]
    ensures |s'.chans| == |s.chans| && Queue(s') == []
    ensures s'.workers == s.workers[w := s.workers[w].(phase := Top)]
  {
    Handle(s, w);
    s' := Handled(s, w);
  }

  /** In a pool with two workers, one runs the rest of the round while the other holds command `d`. */
  lemma DelayRound(s: State, log: seq<Command>, gens: seq<nat>, d: nat, e: nat) returns (s': State)
    requires Ready(s) && s.size >= 2 && At(s, log, gens, d) && d < e <= |log|
    requires forall i :: d <= i < e ==> gens[i] == |s.chans| - 1
    ensures Ready(s') && SamePool(s, s') && At(s', log, gens, e) && |s'.chans| == |s.chans|
    ensures s'.applied == s.applied + Span(d + 1, e) + [d]
  {
    var a, b := |s.workers| - 2, |s.workers| - 1;
    var s1 := HoldNext(s, a, log, gens, d);
    var s2 := PerformAll(s1, b, log, gens, d + 1, e);
    s' := ReleaseHeld(s2, a, log, gens, d, e);
    assert s'.workers == s.workers;
  }

  lemma {:induction false} RoundEnd(log: seq<Command>, gens: seq<nat>, d: nat, n: nat) returns (e: nat)
    requires Possible(log, gens) && d < n <= |gens| && forall i :: d <= i < n ==> gens[i] == gens[d]
    ensures n <= e <= |gens|
    ensures forall i :: d <= i < e ==> gens[i] == gens[d]
    ensures forall i :: e <= i < |gens| ==> gens[i] > gens[d]
    decreases |gens| - n
  {
    if n < |gens| && gens[n] == gens[d] {
      e := RoundEnd(log, gens, d, n + 1);
    } else {
      e := n;
    }
  }

  /** The order of submission, except that `d` runs after the tickets up to `e`. */
  function Delayed(d: nat, e: nat, n: nat): seq<nat>
    requires d < e <= n
  {
    Range(d) + Span(d + 1, e) + [d] + Span(e, n)
  }

  /** In a pool with at least two workers any command can be held back to the end of its round. */
  lemma DelayToEnd(size: nat, initial: Store, log: seq<Command>, gens: seq<nat>, d: nat) returns (s: State, e: nat)
    requires size >= 2 && Possible(log, gens) && d < |log|
    ensures EndsWith(s, size, initial, log, gens)
    ensures d < e <= |log| && forall i :: e <= i < |log| ==> gens[i] > gens[d]
    ensures s.applied == Delayed(d, e, |log|)
  {
    e := RoundEnd(log, gens, d, d + 1);
    s := RunUpTo(size, initial, log, gens, d);
    s := DelayRound(s, log, gens, d, e);
    s := RunOut(s, log, gens, e);
    DelayedIs(d, e, |log|);
  }

  lemma DelayedIs(d: nat, e: nat, n: nat)
    requires d < e <= n
    ensures Range(d) + (Span(d + 1, e) + [d]) + Span(e, n) == Delayed(d, e, n)
  {}

  /** A new pool that has run the commands before `d`, in the round of `d`. */
  lemma RunUpTo(size: nat, initial: Store, log: seq<Command>, gens: seq<nat>, d: nat) returns (s: State)
    requires size > 0 && Possible(log, gens) && d < |log|
    ensures Ready(s) && s.size == size && s.initial == initial && At(s, log, gens, d)
    ensures s.applied == Range(d) && |s.chans| - 1 == gens[d]
  {
    s := StartPool(size, initial);
    s := ExtendTo(s, log, gens, 0, d);
    s := AdvanceTo(s, gens[d]);
    assert [] + Span(0, d) == Range(d);
  }

  /** The rest of the history, and the final Stop. */
  lemma RunOut(s: State, log: seq<Command>, gens: seq<nat>, n: nat) returns (s': State)
    requires Ready(s) && s.size > 0 && At(s, log, gens, n) && Possible(log, gens)
    requires forall i :: n <= i < |log| ==> gens[i] >= |s.chans| - 1
    ensures EndsWith(s', s.size, s.initial, log, gens)
    ensures s'.applied == s.applied + Span(n, |log|)
  {
    var s1 := ExtendTo(s, log, gens, n, |log|);
    s' := StopPool(s1);
    assert log[..|log|] == log && gens[..|log|] == gens;
  }

  lemma DelayedAt(log: seq<Command>, d: nat, e: nat)
    requires d < e <= |log|
    ensures Within(Delayed(d, e, |log|), |log|) && |Delayed(d, e, |log|)| == |log|
    ensures Delayed(d, e, |log|)[e - 1] == d
    ensures forall i :: e <= i < |log| ==> Delayed(d, e, |log|)[i] == i
  {}

  /** If command `d` and the last writer of its key leave different values, holding `d` back shows it. */
  lemma DelayShows(size: nat, initial: Store, log: seq<Command>, gens: seq<nat>, d: nat, p: nat)
    requires size >= 2 && Possible(log, gens) && d < p < |log| && gens[d] == gens[p]
    requires !NoConflict(log[d], log[p])
    requires forall i :: p < i < |log| ==> !Writes(log[i], log[p].key)
    ensures !Predictable(size, initial, log, gens)
  {
    var s, e := DelayToEnd(size, initial, log, gens, d);
    ReachableInv(s);
    DelayedAt(log, d, e);
    ConflictMeans(log[d], log[p]);
    var key, picked := log[p].key, Pick(log, s.applied);
    assert p < e;
    assert forall i :: e - 1 < i < |log| ==> picked[i] == log[i];
    LastWrite(initial, picked, key, e - 1);
    LastWrite(initial, log, key, p);
    assert EndsWith(s, size, initial, log, gens);
  }

  /** Two conflicting commands cannot both agree with a third writer of the key. */
  lemma OneConflicts(a: Command, b: Command, c: Command)
    requires !NoConflict(a, b) && Writes(c, b.key) && NoConflict(b, c)
    ensures !NoConflict(a, c)
  {}

  lemma DisagreeingRound(size: nat, initial: Store, log: seq<Command>, gens: seq<nat>, i: nat, j: nat)
    requires size >= 2 && Possible(log, gens) && i < j < |log| && gens[i] == gens[j]
    requires !NoConflict(log[i], log[j]) && !Overwritten(log, gens, j)
    ensures !Predictable(size, initial, log, gens)
  {
    var key := log[j].key;
    var last := FindLastWrite(log, key);
    ConflictMeans(log[i], log[j]);
    assert Writes(log[j], key);
    var p := last.value;
    assert j <= p && gens[p] == gens[j];
    if NoConflict(log[j], log[p]) {
      OneConflicts(log[i], log[j], log[p]);
      DelayShows(size, initial, log, gens, i, p);
    } else {
      DelayShows(size, initial, log, gens, j, p);
    }
  }

  // ---------- the exact condition ----------

  lemma PredictableIf(s: State)
    requires Reachable(s) && s.pc == Idle(Stopped) && |s.gens| == |s.accepted|
    requires s.size <= 1 || LastWritersAgree(s.accepted, s.gens)
    ensures s.store == RunAll(s.initial, s.accepted)
  {
    ReachableInv(s);
    if s.size <= 1 {
      var tr :| IsRun(tr) && tr[|tr| - 1] == s;
      OneWorkerInOrder(tr, |tr| - 1);
      StoppedIsDrained(s);
      TicketsInRange(|s.accepted|, s.applied);
      assert s.accepted[..|s.applied|] == s.accepted;
    } else {
      AgreeingStops(s);
    }
  }

  /** For a pool of a given size, a given initial store and a given history of accepted commands and
      their rounds: after every run the store is that of submission order exactly if the pool has at most one
      worker, or the history cannot occur, or each conflict inside a round is about a key written again
      in a later round. */
  lemma PredictableIff(size: nat, initial: Store, accepted: seq<Command>, gens: seq<nat>)
    ensures Predictable(size, initial, accepted, gens) <==>
            size <= 1 || !Possible(accepted, gens) || LastWritersAgree(accepted, gens)
  {
    if size <= 1 || !Possible(accepted, gens) || LastWritersAgree(accepted, gens) {
      forall s: State | EndsWith(s, size, initial, accepted, gens) ensures s.store == RunAll(initial, accepted) {
        ReachableInv(s);
        PredictableIf(s);
      }
    } else {
      var i: nat, j: nat :| i < j < |accepted| && gens[i] == gens[j] && !NoConflict(accepted[i], accepted[j]) &&
                            !Overwritten(accepted, gens, j);
      DisagreeingRound(size, initial, accepted, gens, i, j);
    }
  }
}
