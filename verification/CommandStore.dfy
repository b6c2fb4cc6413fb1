/** The key-value store and the commands the pool runs on it
    (pkg/map_store.go, and the command types of pkg/worker_pool.go). */
module CommandStore {
  import opened Options

  type Store = map<string, string>

  /** A command object. `Get` and `Del` carry a value too, which they ignore. */
  datatype Command =
    | Put(key: string, value: string)
    | Get(key: string, value: string)
    | Del(key: string, value: string)

  /** The command for a numeric code; every code other than 1 and 2 is a put. */
  function Factory(code: int, key: string, value: string): Command {
    if code == 1 then Get(key, value)
    else if code == 2 then Del(key, value)
    else Put(key, value)
  }

  function Effect(c: Command, s: Store): Store {
    match c
    case Put(k, v) => s[k := v]
    case Get(_, _) => s
    case Del(k, _) => s - {k}
  }

  /** Runs `cs` from left to right. */
  function RunAll(s: Store, cs: seq<Command>): Store {
    if cs == [] then s else Effect(cs[|cs| - 1], RunAll(s, cs[..|cs| - 1]))
  }

  /** The mutex-guarded map; each method is one critical section. */
  class MemStore {
    var data: Store

    constructor ()
      ensures data == map[]
    {
      data := map[];
    }

    method Put(key: string, value: string)
      modifies this
      ensures data.Keys == old(data).Keys + {key} && data[key] == value
      ensures forall k :: k in old(data) && k != key ==> data[k] == old(data)[k]
    {
      data := data[key := value];
    }

    method Get(key: string) returns (value: string)
      ensures key in data ==> value == data[key]
      ensures key !in data ==> value == ""
    {
      value := if key in data then data[key] else "";
    }

    method Del(key: string)
      modifies this
      ensures data.Keys == old(data).Keys - {key}
      ensures forall k :: k in data ==> data[k] == old(data)[k]
    {
      data := data - {key};
    }

    /** The handler of cmd/custom_worker_pool: dispatches to the command's own `Apply`. */
    method Handle(cmd: Command)
      modifies this
      ensures data == Effect(cmd, old(data))
    {
      match cmd
      case Put(k, v) => Put(k, v);
      case Get(k, _) => var _ := Get(k);
      case Del(k, _) => Del(k);
    }
  }

  // ---------- commuting commands ----------

  ghost predicate Commute(a: Command, b: Command) {
    forall s: Store :: Effect(a, Effect(b, s)) == Effect(b, Effect(a, s))
  }

  /** Commutation decided on the commands alone: different keys, a reader, or the same write. */
  predicate NoConflict(a: Command, b: Command) {
    || a.key != b.key
    || a.Get? || b.Get?
    || (a.Put? && b.Put? && a.value == b.value)
    || (a.Del? && b.Del?)
  }

  lemma NoConflictIsCommute(a: Command, b: Command)
    ensures Commute(a, b) <==> NoConflict(a, b)
  {
    if NoConflict(a, b) {
      forall s: Store
        ensures Effect(a, Effect(b, s)) == Effect(b, Effect(a, s))
      {}
    } else {
      var s: Store := map[];
      assert Effect(a, Effect(b, s)) != Effect(b, Effect(a, s)) by {
        var l, r := Effect(a, Effect(b, s)), Effect(b, Effect(a, s));
        assert (a.key in l <==> a.Put?) && (a.key in r <==> b.Put?);
      }
    }
  }

  // ---------- reordering a log ----------

  /** The numbers 0, 1, ..., n-1. */
  function Range(n: nat): seq<nat> {
    seq(n, i => i)
  }

  predicate Within(order: seq<nat>, n: nat) {
    forall i :: 0 <= i < |order| ==> order[i] < n
  }

  /** The commands of `log` in the order given by the tickets `order`. */
  function Pick(log: seq<Command>, order: seq<nat>): seq<Command>
    requires Within(order, |log|)
  {
    seq(|order|, i requires 0 <= i < |order| => log[order[i]])
  }

  /** Every pair that `order` runs in the opposite of submission order is free of conflict. */
  ghost predicate InversionsHarmless(log: seq<Command>, order: seq<nat>)
    requires Within(order, |log|)
  {
    forall i, j :: 0 <= i < j < |order| && order[i] > order[j] ==> NoConflict(log[order[i]], log[order[j]])
  }

  lemma TicketsInRange(n: nat, order: seq<nat>)
    requires multiset(order) == multiset(Range(n))
    ensures Within(order, n)
    ensures forall t: nat :: t < n ==> t in order
    ensures |order| == n
  {
    forall i | 0 <= i < |order| ensures order[i] < n {
      assert order[i] in multiset(order);
      assert order[i] in Range(n);
    }
    forall t: nat | t < n ensures t in order {
      assert Range(n)[t] == t;
      assert t in multiset(Range(n));
      assert t in multiset(order);
    }
    assert |order| == |multiset(order)| == |multiset(Range(n))| == |Range(n)|;
  }

  lemma RunAllAppend(s: Store, a: seq<Command>, c: Command)
    ensures RunAll(s, a + [c]) == Effect(c, RunAll(s, a))
  {
    assert (a + [c])[..|a|] == a;
  }

  /** A command in no conflict with anything after it can run last. */
  lemma {:induction false} MoveToEnd(s: Store, a: seq<Command>, c: Command, b: seq<Command>)
    requires forall i :: 0 <= i < |b| ==> NoConflict(c, b[i])
    ensures RunAll(s, a + [c] + b) == Effect(c, RunAll(s, a + b))
  {
    if b == [] {
      assert a + [c] + b == a + [c] && a + b == a;
      RunAllAppend(s, a, c);
    } else {
      var b', d := b[..|b| - 1], b[|b| - 1];
      assert a + [c] + b == (a + [c] + b') + [d];
      assert a + b == (a + b') + [d];
      RunAllAppend(s, a + [c] + b', d);
      RunAllAppend(s, a + b', d);
      MoveToEnd(s, a, c, b');
      NoConflictIsCommute(c, d);
    }
  }

  lemma DropTicket(n: nat, order: seq<nat>, j: nat)
    requires n > 0 && multiset(order) == multiset(Range(n))
    requires j < |order| && order[j] == n - 1
    ensures multiset(Without(order, j)) == multiset(Range(n - 1))
  {
    assert order == order[..j] + [n - 1] + order[j + 1..];
    assert Range(n) == Range(n - 1) + [n - 1];
    var last: multiset<nat> := multiset{n - 1};
    var rest := Without(order, j);
    assert multiset(order) == multiset(rest) + last;
    assert multiset(Range(n)) == multiset(Range(n - 1)) + last;
    assert multiset(rest) == multiset(order) - last;
    assert multiset(Range(n - 1)) == multiset(Range(n)) - last;
  }

  /** `order` without its `j`-th ticket. */
  function Without(order: seq<nat>, j: nat): seq<nat>
    requires j < |order|
  {
    order[..j] + order[j + 1..]
  }

  lemma WithoutPreserves(log: seq<Command>, order: seq<nat>, j: nat)
    requires |log| > 0 && j < |order| && Within(order, |log|)
    requires Within(Without(order, j), |log| - 1)
    requires InversionsHarmless(log, order)
    ensures InversionsHarmless(log[..|log| - 1], Without(order, j))
    ensures Pick(log[..|log| - 1], Without(order, j)) == Pick(log, order)[..j] + Pick(log, order)[j + 1..]
  {
    var log', order' := log[..|log| - 1], Without(order, j);
    forall x, y | 0 <= x < y < |order'| && order'[x] > order'[y]
      ensures NoConflict(log'[order'[x]], log'[order'[y]])
    {
      var x', y' := if x < j then x else x + 1, if y < j then y else y + 1;
      assert order'[x] == order[x'] && order'[y] == order[y'];
    }
    assert forall k :: 0 <= k < |order'| ==> order'[k] == order[if k < j then k else k + 1];
  }

  /** Nothing that runs after the newest command conflicts with it. */
  lemma NewestHarmless(log: seq<Command>, order: seq<nat>, j: nat, k: nat)
    requires multiset(order) == multiset(Range(|log|)) && Within(order, |log|)
    requires InversionsHarmless(log, order)
    requires j < k < |order| && order[j] == |log| - 1
    ensures NoConflict(log[|log| - 1], log[order[k]])
  {
    TicketsDistinct(|log|, order, j, k);
  }

  lemma NewestRunsLast(s: Store, log: seq<Command>, order: seq<nat>, j: nat)
    requires multiset(order) == multiset(Range(|log|)) && Within(order, |log|)
    requires InversionsHarmless(log, order)
    requires j < |order| && order[j] == |log| - 1
    ensures RunAll(s, Pick(log, order)) ==
            Effect(log[|log| - 1], RunAll(s, Pick(log, order)[..j] + Pick(log, order)[j + 1..]))
  {
    var all := Pick(log, order);
    var c, b := log[|log| - 1], all[j + 1..];
    forall i | 0 <= i < |b| ensures NoConflict(c, b[i]) {
      NewestHarmless(log, order, j, j + 1 + i);
    }
    assert all == all[..j] + [c] + b;
    MoveToEnd(s, all[..j], c, b);
  }

  lemma FindNewest(n: nat, order: seq<nat>) returns (j: nat)
    requires n > 0 && multiset(order) == multiset(Range(n))
    ensures j < |order| && order[j] == n - 1
    ensures multiset(Without(order, j)) == multiset(Range(n - 1)) && Within(Without(order, j), n - 1)
  {
    TicketsInRange(n, order);
    assert n - 1 in order;
    j :| 0 <= j < |order| && order[j] == n - 1;
    DropTicket(n, order, j);
    TicketsInRange(n - 1, Without(order, j));
  }

  /** Running a log in any order whose inversions are harmless gives the store of submission order. */
  lemma {:induction false} ReorderedRun(s: Store, log: seq<Command>, order: seq<nat>)
    requires multiset(order) == multiset(Range(|log|)) && Within(order, |log|)
    requires InversionsHarmless(log, order)
    ensures RunAll(s, Pick(log, order)) == RunAll(s, log)
    decreases |log|
  {
    if log == [] {
      TicketsInRange(0, order);
      assert Pick(log, order) == log;
    } else {
      var j := FindNewest(|log|, order);
      WithoutPreserves(log, order, j);
      ReorderedRun(s, log[..|log| - 1], Without(order, j));
      NewestRunsLast(s, log, order, j);
    }
  }

  /** No ticket occurs twice in a permutation of the tickets. */
  lemma TicketsDistinct(n: nat, order: seq<nat>, j: nat, k: nat)
    requires multiset(order) == multiset(Range(n))
    requires j < k < |order|
    ensures order[j] != order[k]
  {
    RangeOnce(n, order[j]);
    assert order == order[..j] + [order[j]] + order[j + 1..k] + [order[k]] + order[k + 1..];
    assert multiset(order)[order[j]] <= 1;
  }

  lemma {:induction false} RangeOnce(n: nat, t: nat)
    ensures multiset(Range(n))[t] == if t < n then 1 else 0
  {
    if n > 0 {
      assert Range(n) == Range(n - 1) + [n - 1];
      RangeOnce(n - 1, t);
    } else {
      assert Range(n) == [];
    }
  }

  // ---------- the last write of a key ----------

  predicate Writes(c: Command, key: string) {
    !c.Get? && c.key == key
  }

  /** What a writing command leaves under its key. */
  function Written(c: Command): Option<string> {
    if c.Put? then Some(c.value) else None
  }

  function Lookup(s: Store, key: string): Option<string> {
    if key in s then Some(s[key]) else None
  }

  /** What a call with a numeric code does: 1 changes nothing, 2 deletes the key, any other code writes the
      value; no other key is touched. */
  lemma FactoryEffect(code: int, key: string, value: string, s: Store, k: string)
    ensures Lookup(Effect(Factory(code, key, value), s), k) ==
            if k != key || code == 1 then Lookup(s, k) else if code == 2 then None else Some(value)
  {}

  lemma ConflictMeans(a: Command, b: Command)
    ensures !NoConflict(a, b) <==> a.key == b.key && !a.Get? && !b.Get? && Written(a) != Written(b)
  {}

  /** The last write of a key decides what is found under it. */
  lemma {:induction false} LastWrite(s: Store, cs: seq<Command>, key: string, j: nat)
    requires j < |cs| && Writes(cs[j], key)
    requires forall i :: j < i < |cs| ==> !Writes(cs[i], key)
    ensures Lookup(RunAll(s, cs), key) == Written(cs[j])
  {
    if j < |cs| - 1 {
      LastWrite(s, cs[..|cs| - 1], key, j);
    }
  }

  lemma {:induction false} NeverWritten(s: Store, cs: seq<Command>, key: string)
    requires forall i :: 0 <= i < |cs| ==> !Writes(cs[i], key)
    ensures Lookup(RunAll(s, cs), key) == Lookup(s, key)
  {
    if cs != [] {
      NeverWritten(s, cs[..|cs| - 1], key);
    }
  }

  lemma {:induction false} FindLastWrite(cs: seq<Command>, key: string) returns (last: Option<nat>)
    ensures last.None? ==> forall i :: 0 <= i < |cs| ==> !Writes(cs[i], key)
    ensures last.Some? ==> last.value < |cs| && Writes(cs[last.value], key)
                           && forall i :: last.value < i < |cs| ==> !Writes(cs[i], key)
  {
    if cs == [] {
      last := None;
    } else if Writes(cs[|cs| - 1], key) {
      last := Some(|cs| - 1);
    } else {
      last := FindLastWrite(cs[..|cs| - 1], key);
    }
  }

  lemma SameLookups(a: Store, b: Store)
    requires forall key :: Lookup(a, key) == Lookup(b, key)
    ensures a == b
  {
    forall key ensures key in a <==> key in b {
      assert Lookup(a, key) == Lookup(b, key);
    }
    forall key | key in a ensures a[key] == b[key] {
      assert Lookup(a, key) == Lookup(b, key);
    }
  }
}
