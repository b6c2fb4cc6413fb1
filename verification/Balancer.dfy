/** The load balancer object: its backends, its merge of etcd snapshots, and its pick interleaved
    with probe results (pkg/etdc_load_balancer.go). */
module Balancer {
  import opened BalancerScan
  import opened Options

  class Backend {
    const url: string
    var alive: bool

    /** A backend is assumed alive when it is added. */
    constructor (url: string)
      ensures this.url == url && alive
    {
      this.url := url;
      alive := true;
    }

    method SetAlive(alive: bool)
      modifies this
      ensures this.alive == alive
    {
      this.alive := alive;
    }
  }

  /** A probe result being stored: one SetAlive call by a probe goroutine. */
  datatype Landing = Landing(target: Backend, up: bool)

  /** The liveness of `b` after the landings `ls`, applied in order. */
  function After(b: Backend, was: bool, ls: seq<Landing>): bool {
    if ls == [] then was
    else if ls[|ls| - 1].target == b then ls[|ls| - 1].up
    else After(b, was, ls[..|ls| - 1])
  }

  function Gap(gaps: seq<seq<Landing>>, k: nat): seq<Landing> {
    if k < |gaps| then gaps[k] else []
  }

  /** The landings before the `k`-th read of a call has begun: `gaps[i]` are those just before read `i`. */
  function Landed(gaps: seq<seq<Landing>>, k: nat): seq<Landing> {
    if k == 0 then [] else Landed(gaps, k - 1) + Gap(gaps, k - 1)
  }

  /** What read `k` of a call answers. */
  function Observed(backends: seq<Backend>, was: map<Backend, bool>, gaps: seq<seq<Landing>>, cur: nat, k: nat): bool
    requires backends != [] && forall b :: b in backends ==> b in was
  {
    var b := backends[Pos(cur, k, |backends|)];
    After(b, was[b], Landed(gaps, k + 1))
  }

  /** The answers of all reads of a call. */
  function Reads(backends: seq<Backend>, was: map<Backend, bool>, gaps: seq<seq<Landing>>, cur: nat): nat -> bool
    requires backends != [] && forall b :: b in backends ==> b in was
  {
    (k: nat) => Observed(backends, was, gaps, cur, k)
  }

  /** The backend under read `k` of a call is dead when it is read. */
  predicate DeadAt(backends: seq<Backend>, was: map<Backend, bool>, gaps: seq<seq<Landing>>, cur: nat, k: nat)
    requires backends != [] && forall b :: b in backends ==> b in was
  {
    var b := backends[Pos(cur, k, |backends|)];
    !After(b, was[b], Landed(gaps, k + 1))
  }

  lemma DeadReads(backends: seq<Backend>, was: map<Backend, bool>, gaps: seq<seq<Landing>>, cur: nat, k: nat)
    requires backends != [] && forall b :: b in backends ==> b in was
    requires NoneBefore(Reads(backends, was, gaps, cur), k)
    ensures forall j: nat :: j < k ==> DeadAt(backends, was, gaps, cur, j)
  {
    forall j: nat | j < k ensures DeadAt(backends, was, gaps, cur, j) {
      assert !Reads(backends, was, gaps, cur)(j);
    }
  }

  function Targets(gaps: seq<seq<Landing>>): set<Backend> {
    set i, j | 0 <= i < |gaps| && 0 <= j < |gaps[i]| :: gaps[i][j].target
  }

  /** Whether a backend with this URL is known, and the first such backend. */
  predicate Known(bs: seq<Backend>, url: string) {
    exists i :: 0 <= i < |bs| && bs[i].url == url
  }

  function FirstAt(bs: seq<Backend>, url: string): (i: nat)
    requires Known(bs, url)
    ensures i < |bs| && bs[i].url == url && forall j :: 0 <= j < i ==> bs[j].url != url
  {
    if bs[0].url == url then 0
    else
      assert Known(bs[1..], url) by {
        var i :| 0 <= i < |bs| && bs[i].url == url;
        assert bs[1..][i - 1].url == url;
      }
      1 + FirstAt(bs[1..], url)
  }

  /** The URLs of the entries that are neither this service's own nor unparsable, in order. `parse`
      gives the printed form of the parsed URL. */
  function Wanted(entries: seq<(string, string)>, own: string, parse: string -> Option<string>): seq<string> {
    if entries == [] then []
    else
      var (key, value) := entries[|entries| - 1];
      Wanted(entries[..|entries| - 1], own, parse) +
      (if key == own || parse(value).None? then [] else [parse(value).value])
  }

  /** `to` is the list for `urls`: known URLs keep their first object, unknown ones get a new object each. */
  ghost predicate IsMerge(from: seq<Backend>, to: seq<Backend>, urls: seq<string>) {
    && |to| == |urls|
    && (forall i :: 0 <= i < |to| ==> to[i].url == urls[i])
    && (forall i :: 0 <= i < |to| && Known(from, urls[i]) ==> to[i] == from[FirstAt(from, urls[i])])
    && (forall i :: 0 <= i < |to| && !Known(from, urls[i]) ==> to[i] !in from)
    && (forall i, j :: 0 <= i < j < |to| && !Known(from, urls[i]) ==> to[i] != to[j])
  }

  lemma WantedStep(entries: seq<(string, string)>, i: nat, own: string, parse: string -> Option<string>)
    requires i < |entries|
    ensures Wanted(entries[..i + 1], own, parse) == Wanted(entries[..i], own, parse) +
      (if entries[i].0 == own || parse(entries[i].1).None? then [] else [parse(entries[i].1).value])
  {
    assert entries[..i + 1][..i] == entries[..i];
  }

  lemma MergeAppend(from: seq<Backend>, to: seq<Backend>, urls: seq<string>, b: Backend, url: string)
    requires IsMerge(from, to, urls) && b.url == url
    requires Known(from, url) ==> b == from[FirstAt(from, url)]
    requires !Known(from, url) ==> b !in from && b !in to
    ensures IsMerge(from, to + [b], urls + [url])
  {}

  class LoadBalancer {
    const key: string
    var backends: seq<Backend>
    var current: nat

    ghost predicate Valid()
      reads this
    {
      if backends == [] then current == 0 else current < |backends|
    }

    /** The liveness of every backend in the list. */
    ghost function Liveness(): map<Backend, bool>
      reads this, backends
    {
      map b | b in backends :: b.alive
    }

    /** Every listed backend had the liveness `was`, and then the landings of the first `k` gaps. */
    ghost predicate AllAfter(was: map<Backend, bool>, gaps: seq<seq<Landing>>, k: nat)
      reads this, backends
    {
      forall x :: x in backends ==> x in was && x.alive == After(x, was[x], Landed(gaps, k))
    }

    constructor (key: string)
      ensures Valid() && backends == []
    {
      this.key := key;
      backends := [];
      current := 0;
    }

    /** Probe goroutines finishing, one SetAlive after the other. */
    static method Land(ls: seq<Landing>, ghost watched: seq<Backend>)
      modifies set i | 0 <= i < |ls| :: ls[i].target
      ensures forall b :: b in watched ==> b.alive == After(b, old(b.alive), ls)
    {
      for i := 0 to |ls|
        invariant forall b :: b in watched ==> b.alive == After(b, old(b.alive), ls[..i])
      {
        assert ls[..i + 1][..i] == ls[..i];
        ls[i].target.SetAlive(ls[i].up);
      }
      assert ls[..|ls|] == ls;
    }

    /** One pick, with the probe results of `gaps[k]` landing just before its `k`-th IsAlive read; those of
        the first `looks` gaps have landed when it returns. */
    method RoundRobbinNextBackend(gaps: seq<seq<Landing>>)
      returns (b: Backend?, ghost at: Option<nat>, ghost looks: nat)
      requires Valid()
      modifies this`current, Targets(gaps)
      ensures Valid()
      ensures forall x :: x in backends ==> x.alive == After(x, old(x.alive), Landed(gaps, looks))
      ensures looks <= |backends| + 1
      ensures backends != [] ==> current == Pos(old(current), looks, |backends|)
      ensures backends == [] ==> b == null && current == 0
      ensures backends != [] ==>
        IsPick(|backends|, old(current), Reads(backends, old(Liveness()), gaps, old(current)), at, current)
      ensures b == if at.Some? && at.value < |backends| then backends[at.value] else null
      ensures b != null ==> backends != [] && b.alive
      ensures b != null ==> looks > 0 && b == backends[Pos(old(current), looks - 1, |backends|)]
      ensures b == null && backends != [] ==> looks == |backends| + 1
      ensures backends != [] ==>
        forall k: nat :: k < looks && (b == null || k < looks - 1) ==>
          DeadAt(backends, old(Liveness()), gaps, old(current), k)
    {
      at, looks := None, 0;
      if |backends| == 0 {
        return null, None, 0;
      }
      ghost var cur, was := current, Liveness();
      StartPos(cur, |backends|);
      assert AllAfter(was, gaps, 0);
      b, at := TryNext(gaps, 0, cur, was);
      looks := 1;
      if b == null {
        b, at, looks := ScanOn(gaps, cur, was);
      }
      if b == null {
        NoneIsPick(|backends|, cur, Reads(backends, was, gaps, cur));
      } else {
        FoundIsPick(|backends|, cur, Reads(backends, was, gaps, cur), looks - 1);
      }
      DeadReads(backends, was, gaps, cur, if b == null then looks else looks - 1);
    }

    /** The first `k` reads of a call that began at `cur` have found nothing alive. */
    ghost predicate Scanned(was: map<Backend, bool>, gaps: seq<seq<Landing>>, cur: nat, k: nat)
      requires backends != []
      reads this, backends
    {
      AllAfter(was, gaps, k) && current == Pos(cur, k, |backends|) && NoneBefore(Reads(backends, was, gaps, cur), k)
    }

    /** Read number `k - 1` was the first to find a backend alive, and that is `b`. */
    ghost predicate Chosen(was: map<Backend, bool>, gaps: seq<seq<Landing>>, cur: nat, k: nat,
                           b: Backend, at: Option<nat>)
      requires backends != []
      reads this, backends
    {
      && 0 < k <= |backends| + 1 && AllAfter(was, gaps, k) && current == Pos(cur, k, |backends|)
      && NoneBefore(Reads(backends, was, gaps, cur), k - 1)
      && at == Some(Pos(cur, k - 1, |backends|)) && b == backends[at.value] && b.alive
      && Reads(backends, was, gaps, cur)(k - 1)
    }

    /** The loop of the pick, after its first look failed. */
    method ScanOn(gaps: seq<seq<Landing>>, ghost cur: nat, ghost was: map<Backend, bool>)
      returns (b: Backend?, ghost at: Option<nat>, ghost looks: nat)
      requires backends != [] && Scanned(was, gaps, cur, 1)
      modifies this`current, Targets(gaps)
      ensures b != null ==> Chosen(was, gaps, cur, looks, b, at)
      ensures b == null ==> at == None && looks == |backends| + 1 && Scanned(was, gaps, cur, looks)
    {
      b, at, looks := null, None, 1;
      for i := 0 to |backends|
        invariant looks == i + 1 && b == null && at == None
        invariant Scanned(was, gaps, cur, looks)
      {
        b, at := TryNext(gaps, i + 1, cur, was);
        looks := i + 2;
        if b != null {
          return;
        }
      }
    }

    /** Looks at the backend under `current`, and returns it if it is alive. */
    method TryNext(gaps: seq<seq<Landing>>, k: nat, ghost cur: nat, ghost was: map<Backend, bool>)
      returns (b: Backend?, ghost at: Option<nat>)
      requires backends != [] && k <= |backends| && Scanned(was, gaps, cur, k)
      modifies this`current, Targets(gaps)
      ensures b == null ==> at == None && Scanned(was, gaps, cur, k + 1)
      ensures b != null ==> Chosen(was, gaps, cur, k + 1, b, at)
    {
      ghost var seen := Reads(backends, was, gaps, cur);
      var candidate, up := ReadNext(gaps, k, cur, was);
      assert up == seen(k);
      if up {
        return candidate, Some(Pos(cur, k, |backends|));
      }
      NoneNext(seen, k);
      return null, None;
    }

    /** Takes the backend under `current`, advances, lets probe results land, and reads its liveness. */
    method ReadNext(gaps: seq<seq<Landing>>, k: nat, ghost cur: nat, ghost was: map<Backend, bool>)
      returns (b: Backend, up: bool)
      requires backends != [] && current == Pos(cur, k, |backends|)
      requires AllAfter(was, gaps, k)
      modifies this`current, Targets(gaps)
      ensures current == Pos(cur, k + 1, |backends|)
      ensures AllAfter(was, gaps, k + 1)
      ensures b == backends[Pos(cur, k, |backends|)]
      ensures up == b.alive && up == Observed(backends, was, gaps, cur, k)
    {
      b := backends[current];
      PosNext(cur, k, |backends|);
      current := (current + 1) % |backends|;
      assert forall i :: 0 <= i < |Gap(gaps, k)| ==> Gap(gaps, k)[i].target in Targets(gaps);
      forall x | x in backends
        ensures After(x, was[x], Landed(gaps, k + 1)) == After(x, x.alive, Gap(gaps, k))
      {
        AfterSplit(x, was[x], Landed(gaps, k), Gap(gaps, k));
      }
      Land(Gap(gaps, k), backends);
      up := b.alive;
    }

    /** Replaces the list by the merge with a fetched snapshot; a failed fetch changes nothing. */
    method UpdateBackends(fetched: Option<seq<(string, string)>>, parse: string -> Option<string>)
      requires Valid()
      modifies this
      ensures Valid()
      ensures fetched.None? ==> backends == old(backends) && current == old(current)
      ensures fetched.Some? ==>
        && current == 0
        && var urls := Wanted(fetched.value, key, parse);
        && IsMerge(old(backends), backends, urls)
        && forall i :: 0 <= i < |backends| && !Known(old(backends), backends[i].url) ==>
             fresh(backends[i]) && backends[i].alive
    {
      if fetched.Some? {
        backends := MergeAll(fetched.value, parse);
        current := 0;
      }
    }

    /** The loop over the fetched entries. */
    method MergeAll(entries: seq<(string, string)>, parse: string -> Option<string>) returns (next: seq<Backend>)
      ensures IsMerge(backends, next, Wanted(entries, key, parse))
      ensures forall i :: 0 <= i < |next| && !Known(backends, next[i].url) ==> fresh(next[i]) && next[i].alive
    {
      next := [];
      ghost var urls: seq<string> := [];
      for i := 0 to |entries|
        invariant urls == Wanted(entries[..i], key, parse)
        invariant IsMerge(backends, next, urls)
        invariant forall j :: 0 <= j < |next| && !Known(backends, next[j].url) ==> fresh(next[j]) && next[j].alive
        invariant forall j :: 0 <= j < |next| ==> next[j] in backends || fresh(next[j])
      {
        WantedStep(entries, i, key, parse);
        var (k, v) := entries[i];
        if k != key && parse(v).Some? {
          var url := parse(v).value;
          var b := FindOrNew(url);
          MergeAppend(backends, next, urls, b, url);
          next := next + [b];
          urls := urls + [url];
        }
      }
      assert entries[..|entries|] == entries;
    }

    /** The first known backend with this URL, or a new one. */
    method FindOrNew(url: string) returns (b: Backend)
      ensures b.url == url
      ensures Known(backends, url) ==> b == backends[FirstAt(backends, url)]
      ensures !Known(backends, url) ==> fresh(b) && b.alive
    {
      var found := Find(url);
      if found == null {
        b := new Backend(url);
      } else {
        b := found;
      }
    }

    /** The inner loop of the merge: the first backend with this URL. */
    method Find(url: string) returns (b: Backend?)
      ensures Known(backends, url) ==> b == backends[FirstAt(backends, url)]
      ensures !Known(backends, url) ==> b == null
    {
      for i := 0 to |backends|
        invariant forall j :: 0 <= j < i ==> backends[j].url != url
      {
        if backends[i].url == url {
          return backends[i];
        }
      }
      return null;
    }

    /** The health check's loop: one probe per list position, with what the backend there will answer. */
    method LaunchProbes(answers: seq<bool>) returns (probes: seq<Landing>)
      requires |answers| == |backends|
      ensures probes == Probes(backends, answers)
    {
      probes := [];
      for i := 0 to |backends|
        invariant probes == Probes(backends[..i], answers[..i])
      {
        probes := probes + [Landing(backends[i], answers[i])];
      }
      assert backends[..|backends|] == backends && answers[..|backends|] == answers;
    }

    /** A probe finishes: it reaches exactly the list positions that still hold its backend. */
    method FinishProbe(b: Backend, up: bool)
      modifies b
      ensures b !in backends ==> Liveness() == old(Liveness())
      ensures b in backends ==> Liveness() == old(Liveness())[b := up]
    {
      b.SetAlive(up);
    }
  }

  lemma StartPos(cur: nat, n: nat)
    requires cur < n
    ensures Pos(cur, 0, n) == cur
  {
    SmallMod(cur, n);
  }

  lemma PosNext(cur: nat, k: nat, n: nat)
    requires n > 0
    ensures (Pos(cur, k, n) + 1) % n == Pos(cur, k + 1, n)
  {
    ModSuccessor(cur + k, n);
  }

  lemma {:induction false} AfterSplit(b: Backend, was: bool, x: seq<Landing>, y: seq<Landing>)
    ensures After(b, was, x + y) == After(b, After(b, was, x), y)
  {
    if y == [] {
      assert x + y == x;
    } else {
      assert (x + y)[..|x + y| - 1] == x + y[..|y| - 1];
      AfterSplit(b, was, x, y[..|y| - 1]);
    }
  }

  /** A backend that is alive and that no probe reports down is seen alive by every read. */
  lemma {:induction false} StaysAlive(b: Backend, ls: seq<Landing>)
    requires forall i :: 0 <= i < |ls| && ls[i].target == b ==> ls[i].up
    ensures After(b, true, ls)
  {
    if ls != [] {
      StaysAlive(b, ls[..|ls| - 1]);
    }
  }

  // ---------- one health check ----------

  /** The probes of one health check, by list position. */
  function Probes(bs: seq<Backend>, answers: seq<bool>): (ls: seq<Landing>)
    requires |answers| == |bs|
    ensures |ls| == |bs| && forall i :: 0 <= i < |bs| ==> ls[i] == Landing(bs[i], answers[i])
  {
    seq(|bs|, i requires 0 <= i < |bs| => Landing(bs[i], answers[i]))
  }

  /** The last landing for `b` decides. */
  lemma {:induction false} LastLanding(b: Backend, was: bool, ls: seq<Landing>, k: nat) returns (j: nat)
    requires k < |ls| && ls[k].target == b
    ensures j < |ls| && ls[j].target == b && After(b, was, ls) == ls[j].up
  {
    if ls[|ls| - 1].target == b {
      j := |ls| - 1;
    } else {
      j := LastLanding(b, was, ls[..|ls| - 1], k);
    }
  }

  lemma AgreedAnswer(bs: seq<Backend>, answers: seq<bool>, b: Backend, v: bool, was: bool, ls: seq<Landing>)
    requires |answers| == |bs| && b in bs && multiset(ls) == multiset(Probes(bs, answers))
    requires forall i :: 0 <= i < |bs| && bs[i] == b ==> answers[i] == v
    ensures After(b, was, ls) == v
  {
    var probes := Probes(bs, answers);
    var i: nat :| i < |bs| && bs[i] == b;
    assert probes[i] in multiset(ls);
    var k: nat :| k < |ls| && ls[k] == probes[i];
    var j := LastLanding(b, was, ls, k);
    assert ls[j] in multiset(probes);
  }

  /** The landings `probes`, with number `i` last. */
  lemma LandLast(b: Backend, was: bool, probes: seq<Landing>, i: nat) returns (ls: seq<Landing>)
    requires i < |probes| && probes[i].target == b
    ensures multiset(ls) == multiset(probes) && After(b, was, ls) == probes[i].up
  {
    ls := probes[..i] + probes[i + 1..] + [probes[i]];
    assert probes == probes[..i] + [probes[i]] + probes[i + 1..];
  }

  /** After a health check whose probes have all landed, a listed backend has liveness `v` whatever the
      order of landing and whatever it was before, exactly if all its probes answered `v`. */
  lemma HealthCheckDecides(bs: seq<Backend>, answers: seq<bool>, b: Backend, v: bool)
    requires |answers| == |bs| && b in bs
    ensures (forall was: bool, ls: seq<Landing> ::
               multiset(ls) == multiset(Probes(bs, answers)) ==> After(b, was, ls) == v)
            <==> (forall i :: 0 <= i < |bs| && bs[i] == b ==> answers[i] == v)
  {
    if forall i :: 0 <= i < |bs| && bs[i] == b ==> answers[i] == v {
      forall was: bool, ls: seq<Landing> | multiset(ls) == multiset(Probes(bs, answers))
        ensures After(b, was, ls) == v
      {
        AgreedAnswer(bs, answers, b, v, was, ls);
      }
    } else {
      var i: nat :| i < |bs| && bs[i] == b && answers[i] != v;
      var ls := LandLast(b, v, Probes(bs, answers), i);
      assert After(b, v, ls) != v;
    }
  }

  // ---------- which entries are listed ----------

  predicate Listable(entry: (string, string), own: string, parse: string -> Option<string>) {
    entry.0 != own && parse(entry.1).Some?
  }

  /** `at` names, in increasing order, all listable entries, and `urls` are their URLs. */
  ghost predicate IsSelection(entries: seq<(string, string)>, own: string, parse: string -> Option<string>,
                              urls: seq<string>, at: seq<nat>)
  {
    && |at| == |urls|
    && (forall j, k :: 0 <= j < k < |at| ==> at[j] < at[k])
    && (forall j :: 0 <= j < |at| ==> at[j] < |entries| && Listable(entries[at[j]], own, parse))
    && (forall j :: 0 <= j < |at| ==> parse(entries[at[j]].1) == Some(urls[j]))
    && (forall i: nat :: i < |entries| && Listable(entries[i], own, parse) ==> i in at)
  }

  lemma SelectionStep(entries: seq<(string, string)>, own: string, parse: string -> Option<string>,
                      urls: seq<string>, at: seq<nat>, e: (string, string))
    requires IsSelection(entries, own, parse, urls, at)
    ensures !Listable(e, own, parse) ==> IsSelection(entries + [e], own, parse, urls, at)
    ensures Listable(e, own, parse) ==>
              IsSelection(entries + [e], own, parse, urls + [parse(e.1).value], at + [|entries|])
  {
    var all := entries + [e];
    assert forall i :: 0 <= i < |entries| ==> all[i] == entries[i];
    if Listable(e, own, parse) {
      var at' := at + [|entries|];
      forall i: nat | i < |all| && Listable(all[i], own, parse) ensures i in at' {
        if i < |entries| {
          assert i in at;
        } else {
          assert at'[|at|] == i;
        }
      }
    }
  }

  /** The wanted URLs are those of exactly the parsable entries of other services, in order: `at` gives
      the entry behind each of them. */
  lemma {:induction false} WantedExactly(entries: seq<(string, string)>, own: string, parse: string -> Option<string>)
    returns (at: seq<nat>)
    ensures IsSelection(entries, own, parse, Wanted(entries, own, parse), at)
  {
    at := [];
    if entries != [] {
      var n := |entries| - 1;
      at := WantedExactly(entries[..n], own, parse);
      SelectionStep(entries[..n], own, parse, Wanted(entries[..n], own, parse), at, entries[n]);
      assert entries[..n] + [entries[n]] == entries;
      if Listable(entries[n], own, parse) {
        at := at + [n];
      } else {
        assert Wanted(entries, own, parse) == Wanted(entries[..n], own, parse) + [];
      }
    }
  }

  // ---------- no backend is passed over for long ----------

  ghost predicate NoneDown(ls: seq<Landing>, b: Backend) {
    forall i :: 0 <= i < |ls| && ls[i].target == b ==> ls[i].up
  }

  /** Consecutive calls on one list: call `i` starts with the liveness `was(i)`, sees the landings
      `gaps(i)` between its reads, and `between(i)` is all that lands before call `i + 1` starts. */
  ghost predicate NeverDown(b: Backend, was: nat -> map<Backend, bool>, gaps: nat -> seq<seq<Landing>>,
                            between: nat -> seq<Landing>)
  {
    && (forall i: nat :: b in was(i))
    && was(0)[b]
    && (forall i: nat :: was(i + 1)[b] == After(b, was(i)[b], between(i)))
    && (forall i: nat :: NoneDown(between(i), b))
    && (forall i: nat, k: nat :: NoneDown(Gap(gaps(i), k), b))
  }

  lemma {:induction false} LandedNoneDown(gaps: seq<seq<Landing>>, k: nat, b: Backend)
    requires forall j: nat :: NoneDown(Gap(gaps, j), b)
    ensures NoneDown(Landed(gaps, k), b)
  {
    if k > 0 {
      LandedNoneDown(gaps, k - 1, b);
      assert NoneDown(Gap(gaps, k - 1), b);
    }
  }

  lemma {:induction false} StartsAlive(b: Backend, was: nat -> map<Backend, bool>, gaps: nat -> seq<seq<Landing>>,
                                       between: nat -> seq<Landing>, i: nat)
    requires NeverDown(b, was, gaps, between)
    ensures was(i)[b]
  {
    if i > 0 {
      StartsAlive(b, was, gaps, between, i - 1);
      assert NoneDown(between(i - 1), b);
      StaysAlive(b, between(i - 1));
      assert was(i - 1 + 1)[b] == After(b, was(i - 1)[b], between(i - 1));
    }
  }

  /** A listed backend that is alive at first and that no probe ever reports down is returned within
      `n` calls, whatever the probes of the other backends do between any two reads. */
  lemma BackendNotBypassed(bs: seq<Backend>, p: nat, was: nat -> map<Backend, bool>, gaps: nat -> seq<seq<Landing>>,
                           between: nat -> seq<Landing>, curs: seq<nat>, picks: seq<Option<nat>>)
    requires p < |bs| && forall i: nat, b :: b in bs ==> b in was(i)
    requires NeverDown(bs[p], was, gaps, between)
    requires |curs| == |picks| + 1 && curs[0] < |bs| && |picks| >= |bs|
    requires forall i :: 0 <= i < |picks| ==>
               IsPick(|bs|, curs[i], Reads(bs, was(i), gaps(i), curs[i]), picks[i], curs[i + 1])
    ensures exists i :: 0 <= i < |bs| && picks[i] == Some(p)
  {
    var seen := (i: nat) => if i < |curs| then Reads(bs, was(i), gaps(i), curs[i]) else (k: nat) => true;
    forall i: nat, k: nat | i < |picks| && k <= |bs| && Pos(curs[i], k, |bs|) == p ensures seen(i)(k) {
      StartsAlive(bs[p], was, gaps, between, i);
      forall j: nat ensures NoneDown(Gap(gaps(i), j), bs[p]) {}
      LandedNoneDown(gaps(i), k + 1, bs[p]);
      StaysAlive(bs[p], Landed(gaps(i), k + 1));
    }
    BoundedBypass(|bs|, curs, seen, picks, p);
  }

  /** The targets of all landings inside and between the picks. */
  function AllTargets(gaps: seq<seq<seq<Landing>>>, between: seq<seq<Landing>>): set<Backend> {
    (set i, x | 0 <= i < |gaps| && x in Targets(gaps[i]) :: x) + Targets(between)
  }

  lemma SeenAlive(bs: seq<Backend>, was: map<Backend, bool>, gaps: seq<seq<Landing>>, cur: nat, p: nat, k: nat)
    requires p < |bs| && (forall b :: b in bs ==> b in was) && was[bs[p]] && Pos(cur, k, |bs|) == p
    requires forall j: nat :: NoneDown(Gap(gaps, j), bs[p])
    ensures Reads(bs, was, gaps, cur)(k)
  {
    LandedNoneDown(gaps, k + 1, bs[p]);
    StaysAlive(bs[p], Landed(gaps, k + 1));
  }

  /** A pick that meets an alive backend, which no landing reports down, returns it or gets closer to it,
      and leaves it alive. */
  method PickTowards(lb: LoadBalancer, gaps: seq<seq<Landing>>, ghost p: nat) returns (b: Backend?)
    requires lb.Valid() && p < |lb.backends| && lb.backends[p].alive
    requires forall j: nat :: NoneDown(Gap(gaps, j), lb.backends[p])
    modifies lb`current, Targets(gaps)
    ensures lb.Valid() && lb.backends[p].alive
    ensures b == lb.backends[p] ||
            Distance(|lb.backends|, lb.current, p) < Distance(|lb.backends|, old(lb.current), p)
  {
    ghost var bs, cur, was := lb.backends, lb.current, lb.Liveness();
    ghost var at, looks;
    b, at, looks := lb.RoundRobbinNextBackend(gaps);
    forall k: nat | k <= |bs| && Pos(cur, k, |bs|) == p ensures Reads(bs, was, gaps, cur)(k) {
      SeenAlive(bs, was, gaps, cur, p, k);
    }
    PickCloser(|bs|, cur, Reads(bs, was, gaps, cur), at, lb.current, p);
    LandedNoneDown(gaps, looks, bs[p]);
    StaysAlive(bs[p], Landed(gaps, looks));
  }

  /** Picks one after the other, the `i`-th with the landings `gaps[i]` between its reads and `between[i]`
      behind it. A listed backend that is alive at first, and that no landing reports down, is returned by
      one of any `n` picks on a list of `n`. */
  method PickRepeatedly(lb: LoadBalancer, gaps: seq<seq<seq<Landing>>>, between: seq<seq<Landing>>, ghost p: nat)
    returns (picks: seq<Backend?>)
    requires lb.Valid() && p < |lb.backends| && lb.backends[p].alive
    requires |gaps| == |between| >= |lb.backends|
    requires forall i: nat, j: nat :: i < |gaps| ==> NoneDown(Gap(gaps[i], j), lb.backends[p])
    requires forall i :: 0 <= i < |between| ==> NoneDown(between[i], lb.backends[p])
    modifies lb`current, AllTargets(gaps, between)
    ensures lb.Valid() && lb.backends[p].alive && |picks| == |gaps|
    ensures exists i :: 0 <= i < |lb.backends| && picks[i] == lb.backends[p]
  {
    picks := [];
    ghost var n, found: Option<nat> := |lb.backends|, None;
    for i := 0 to |gaps|
      invariant lb.Valid() && lb.backends[p].alive && |picks| == i
      invariant found.Some? ==> found.value < n && found.value < i && picks[found.value] == lb.backends[p]
      invariant found.None? ==> Distance(n, lb.current, p) + i < n
    {
      assert Targets(gaps[i]) <= AllTargets(gaps, between);
      var b := PickTowards(lb, gaps[i], p);
      assert forall k :: 0 <= k < |between[i]| ==> between[i][k].target in AllTargets(gaps, between);
      StaysAlive(lb.backends[p], between[i]);
      LoadBalancer.Land(between[i], lb.backends);
      picks := picks + [b];
      if found.None? && b == lb.backends[p] {
        found := Some(i);
      }
    }
  }

  // ---------- picks while no probe result lands ----------

  lemma {:induction false} NothingLanded(k: nat)
    ensures Landed([], k) == []
  {
    if k > 0 {
      NothingLanded(k - 1);
    }
  }

  /** Without landings a read finds what was there before the call. */
  lemma QuietRead(bs: seq<Backend>, was: map<Backend, bool>, cur: nat, k: nat)
    requires bs != [] && forall b :: b in bs ==> b in was
    ensures DeadAt(bs, was, [], cur, k) <==> !was[bs[(cur + k) % |bs|]]
  {
    NothingLanded(k + 1);
  }

  /** Every position is read from `cur` on. */
  lemma ReadInTurn(n: nat, cur: nat, p: nat) returns (k: nat)
    requires cur < n && p < n
    ensures k < n && (cur + k) % n == p
  {
    k := Distance(n, cur, p);
    PosSteps(cur, k, n);
  }

  /** The same position is read first and last. */
  lemma LastIsFirst(n: nat, cur: nat)
    requires cur < n
    ensures (cur + n) % n == cur && (cur + 0) % n == cur && (cur + n + 1) % n == (cur + 1) % n
  {
    SmallMod(cur, n);
    ModShift(cur, n);
    ModShift(cur + 1, n);
  }

  /** The liveness by list position. */
  ghost function Alive(bs: seq<Backend>): (a: seq<bool>)
    reads bs
    ensures |a| == |bs| && forall i :: 0 <= i < |a| ==> a[i] == bs[i].alive
  {
    seq(|bs|, i requires 0 <= i < |bs| reads bs => bs[i].alive)
  }

  /** Whether the position `e` steps from `cur` is alive. */
  predicate Ahead(alive: seq<bool>, cur: nat, e: nat)
    requires alive != []
  {
    alive[(cur + e) % |alive|]
  }

  /** The position `d` steps from `cur` is the first one alive. */
  ghost predicate IsFirstAhead(alive: seq<bool>, cur: nat, d: nat) {
    && d < |alive| && Ahead(alive, cur, d)
    && forall e: nat :: e < d ==> !Ahead(alive, cur, e)
  }

  lemma QuietPick(bs: seq<Backend>, was: map<Backend, bool>, alive: seq<bool>, cur: nat, looks: nat, found: bool)
    requires |alive| == |bs| > 0 && cur < |bs| && (forall b :: b in bs ==> b in was)
    requires forall i :: 0 <= i < |bs| ==> alive[i] == was[bs[i]]
    requires forall k: nat :: k < looks && (!found || k < looks - 1) ==> DeadAt(bs, was, [], cur, k)
    requires if found then 0 < looks <= |bs| + 1 && was[bs[Pos(cur, looks - 1, |bs|)]] else looks == |bs| + 1
    ensures found ==> IsFirstAhead(alive, cur, looks - 1)
    ensures !found ==> (forall p :: 0 <= p < |bs| ==> !alive[p]) && (cur + looks) % |bs| == (cur + 1) % |bs|
  {
    LastIsFirst(|bs|, cur);
    forall k: nat ensures DeadAt(bs, was, [], cur, k) <==> !Ahead(alive, cur, k) {
      QuietRead(bs, was, cur, k);
    }
    if found {
      assert Ahead(alive, cur, looks - 1);
      assert looks == 1 || !Ahead(alive, cur, 0);
    } else {
      forall p | 0 <= p < |bs| ensures !alive[p] {
        var k := ReadInTurn(|bs|, cur, p);
        assert !Ahead(alive, cur, k);
      }
    }
  }

  /** What a pick does while nothing lands: the first alive backend from Current in cyclic order, and nil
      exactly if none is alive. */
  ghost predicate QuietResult(bs: seq<Backend>, alive: seq<bool>, cur: nat, b: Backend?, cur': nat)
    requires |alive| == |bs| > 0
  {
    if b == null then (forall p :: 0 <= p < |bs| ==> !alive[p]) && cur' == (cur + 1) % |bs|
    else exists d: nat :: IsFirstAhead(alive, cur, d) && b == bs[(cur + d) % |bs|] && cur' == (cur + d + 1) % |bs|
  }

  method PickQuietly(lb: LoadBalancer) returns (b: Backend?, ghost at: Option<nat>)
    requires lb.Valid() && lb.backends != []
    modifies lb`current
    ensures lb.Valid()
    ensures QuietResult(lb.backends, Alive(lb.backends), old(lb.current), b, lb.current)
    ensures b == if at.Some? && at.value < |lb.backends| then lb.backends[at.value] else null
    ensures IsPick(|lb.backends|, old(lb.current), Fixed(Alive(lb.backends), old(lb.current)), at, lb.current)
  {
    ghost var bs, cur, was, alive := lb.backends, lb.current, lb.Liveness(), Alive(lb.backends);
    ghost var looks;
    b, at, looks := lb.RoundRobbinNextBackend([]);
    QuietPick(bs, was, alive, cur, looks, b != null);
    QuietIsFixed(bs, was, alive, cur, at, lb.current);
  }

  /** Calls that see the same answers make the same pick. */
  lemma SameSeen(n: nat, cur: nat, seen: nat -> bool, seen': nat -> bool, result: Option<nat>, cur': nat)
    requires IsPick(n, cur, seen, result, cur') && forall k: nat :: seen(k) == seen'(k)
    ensures IsPick(n, cur, seen', result, cur')
  {
    if result.Some? {
      var k := WhichRead(n, cur, seen, result, cur');
      assert PickedAt(n, cur, seen', k);
    }
  }

  lemma QuietIsFixed(bs: seq<Backend>, was: map<Backend, bool>, alive: seq<bool>, cur: nat, at: Option<nat>, cur': nat)
    requires |alive| == |bs| > 0 && (forall b :: b in bs ==> b in was)
    requires forall i :: 0 <= i < |bs| ==> alive[i] == was[bs[i]]
    requires IsPick(|bs|, cur, Reads(bs, was, [], cur), at, cur')
    ensures IsPick(|bs|, cur, Fixed(alive, cur), at, cur')
  {
    forall k: nat ensures Reads(bs, was, [], cur)(k) == Fixed(alive, cur)(k) {
      NothingLanded(k + 1);
    }
    SameSeen(|bs|, cur, Reads(bs, was, [], cur), Fixed(alive, cur), at, cur');
  }

  /** What was picked, by object and by list position. */
  ghost predicate PicksAt(bs: seq<Backend>, picks: seq<Backend?>, at: seq<Option<nat>>) {
    |picks| == |at| && forall i :: 0 <= i < |at| ==>
      picks[i] == if at[i].Some? && at[i].value < |bs| then bs[at[i].value] else null
  }

  /** Any number of picks while nothing lands: they are consecutive calls of the cyclic scan, so the
      counts of two alive positions differ by at most one. */
  method ServeQuietly(lb: LoadBalancer, calls: nat)
    returns (picks: seq<Backend?>, ghost at: seq<Option<nat>>, ghost curs: seq<nat>)
    requires lb.Valid() && lb.backends != []
    modifies lb`current
    ensures lb.Valid() && |at| == calls && PicksAt(lb.backends, picks, at)
    ensures AreFixedPicks(Alive(lb.backends), curs, at) && curs[0] == old(lb.current) && curs[calls] == lb.current
    ensures EvenlyServed(Alive(lb.backends), at)
  {
    ghost var alive := Alive(lb.backends);
    picks, at, curs := [], [], [lb.current];
    for i := 0 to calls
      invariant lb.Valid() && |at| == i && PicksAt(lb.backends, picks, at)
      invariant AreFixedPicks(alive, curs, at) && curs[0] == old(lb.current) && curs[i] == lb.current
    {
      var b;
      ghost var p;
      b, p := PickQuietly(lb);
      FixedAppend(alive, curs, at, p, lb.current);
      picks, at, curs := picks + [b], at + [p], curs + [lb.current];
    }
    AllEvenlyServed(alive, curs, at);
  }

  ghost predicate EvenlyServed(alive: seq<bool>, at: seq<Option<nat>>) {
    forall p: nat, q: nat :: p < |alive| && q < |alive| && alive[p] && alive[q] ==>
      Served(at, p, |at|) <= Served(at, q, |at|) + 1
  }

  lemma AllEvenlyServed(alive: seq<bool>, curs: seq<nat>, at: seq<Option<nat>>)
    requires AreFixedPicks(alive, curs, at)
    ensures EvenlyServed(alive, at)
  {
    forall p: nat, q: nat | p < |alive| && q < |alive| && alive[p] && alive[q]
      ensures Served(at, p, |at|) <= Served(at, q, |at|) + 1
    {
      Fairness(alive, curs, at, p, q);
    }
  }

  lemma FixedAppend(alive: seq<bool>, curs: seq<nat>, at: seq<Option<nat>>, p: Option<nat>, cur: nat)
    requires AreFixedPicks(alive, curs, at) && IsPick(|alive|, curs[|at|], Fixed(alive, curs[|at|]), p, cur)
    ensures AreFixedPicks(alive, curs + [cur], at + [p])
  {
    var curs', at' := curs + [cur], at + [p];
    forall i | 0 <= i < |at'| ensures IsPick(|alive|, curs'[i], Fixed(alive, curs'[i]), at'[i], curs'[i + 1]) {
      assert i < |at| ==> curs'[i] == curs[i] && curs'[i + 1] == curs[i + 1] && at'[i] == at[i];
    }
  }

  // ---------- repeating a snapshot ----------

  lemma MergedKnown(from: seq<Backend>, to: seq<Backend>, urls: seq<string>, i: nat)
    requires IsMerge(from, to, urls) && i < |urls|
    ensures Known(to, urls[i]) && FirstAt(to, urls[i]) <= i && urls[FirstAt(to, urls[i])] == urls[i]
  {
    assert to[i].url == urls[i];
  }

  /** Merging the same snapshot again gives the same objects exactly when equal URLs already share
      one object. */
  lemma RepeatIsFixedIff(a: seq<Backend>, b: seq<Backend>, c: seq<Backend>, urls: seq<string>)
    requires IsMerge(a, b, urls) && IsMerge(b, c, urls)
    ensures c == b <==> forall i, j :: 0 <= i < j < |urls| && urls[i] == urls[j] ==> b[i] == b[j]
  {
    forall i | 0 <= i < |urls| ensures c[i] == b[FirstAt(b, urls[i])] {
      MergedKnown(a, b, urls, i);
    }
    if c == b {
      forall i, j | 0 <= i < j < |urls| && urls[i] == urls[j] ensures b[i] == b[j] {
        assert c[i] == c[j];
      }
    } else {
      var i :| 0 <= i < |urls| && c[i] != b[i];
      MergedKnown(a, b, urls, i);
    }
  }

  /** For distinct URLs the first repetition changes nothing. */
  lemma RepeatDistinct(a: seq<Backend>, b: seq<Backend>, c: seq<Backend>, urls: seq<string>)
    requires IsMerge(a, b, urls) && IsMerge(b, c, urls)
    requires forall i, j :: 0 <= i < j < |urls| ==> urls[i] != urls[j]
    ensures c == b
  {
    RepeatIsFixedIff(a, b, c, urls);
  }

  /** For any URLs the list is fixed after the second pass. */
  lemma RepeatTwice(a: seq<Backend>, b: seq<Backend>, c: seq<Backend>, d: seq<Backend>, urls: seq<string>)
    requires IsMerge(a, b, urls) && IsMerge(b, c, urls) && IsMerge(c, d, urls)
    ensures d == c
  {
    forall i, j | 0 <= i < j < |urls| && urls[i] == urls[j] ensures c[i] == c[j] {
      MergedKnown(a, b, urls, i);
      MergedKnown(a, b, urls, j);
    }
    RepeatIsFixedIff(b, c, d, urls);
  }
}
