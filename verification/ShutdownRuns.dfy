/** Whole histories of registrations and shutdowns. */
module ShutdownRuns {
  import opened ShutdownOrder

  datatype Op =
    | Register(entry: Entry)
    | ByName(name: string)
    | StopAll

  /** The linked list and the log of executed functions. */
  datatype ListState = ListState(list: seq<Entry>, ran: seq<Entry>)

  function ListStep(s: ListState, op: Op): ListState {
    match op
    case Register(e) => s.(list := Insert(s.list, e))
    case ByName(name) =>
      if HasName(s.list, name) then
        var k := FirstNamed(s.list, name);
        ListState(RemoveAt(s.list, k), s.ran + [s.list[k]])
      else s
    case StopAll => ListState([], s.ran + s.list)
  }

  function ListRun(ops: seq<Op>): ListState {
    if ops == [] then ListState([], []) else ListStep(ListRun(ops[..|ops| - 1]), ops[|ops| - 1])
  }

  // ---------- the reference: pending registrations in registration order ----------

  lemma {:induction false} LeastNamedExists(s: seq<Entry>, name: string)
    requires HasName(s, name)
    ensures exists i: nat :: IsLeastNamed(s, name, i)
  {
    var n := |s| - 1;
    if HasName(s[..n], name) {
      LeastNamedExists(s[..n], name);
      var i: nat :| IsLeastNamed(s[..n], name, i);
      assert forall j :: 0 <= j < n ==> s[..n][j] == s[j];
      assert forall j :: 0 <= j < n && s[j].name == name ==> Before(s[..n], i, j);
      if s[n].name == name && s[n].priority < s[i].priority {
        assert IsLeastNamed(s, name, n);
      } else {
        assert IsLeastNamed(s, name, i);
      }
    } else {
      assert forall j :: 0 <= j < n ==> s[..n][j] == s[j];
      assert IsLeastNamed(s, name, n);
    }
  }

  ghost function LeastNamed(s: seq<Entry>, name: string): (i: nat)
    requires HasName(s, name)
    ensures IsLeastNamed(s, name, i)
  {
    LeastNamedExists(s, name);
    var i: nat :| IsLeastNamed(s, name, i);
    i
  }

  lemma {:induction false} StableSortExists(pending: seq<Entry>)
    ensures exists l :: IsStableSort(l, pending)
  {
    if pending == [] {
      assert IsStableSort([], pending);
    } else {
      var rest, e := pending[..|pending| - 1], pending[|pending| - 1];
      StableSortExists(rest);
      var l :| IsStableSort(l, rest);
      RegisterStable(l, rest, e);
      assert rest + [e] == pending;
    }
  }

  /** The stable sort by priority. */
  ghost function StableSort(pending: seq<Entry>): (l: seq<Entry>)
    ensures IsStableSort(l, pending)
  {
    StableSortExists(pending);
    var l :| IsStableSort(l, pending);
    l
  }

  datatype Queue = Queue(pending: seq<Entry>, ran: seq<Entry>)

  ghost function QueueStep(q: Queue, op: Op): Queue {
    match op
    case Register(e) => q.(pending := q.pending + [e])
    case ByName(name) =>
      if HasName(q.pending, name) then
        var i := LeastNamed(q.pending, name);
        Queue(RemoveAt(q.pending, i), q.ran + [q.pending[i]])
      else q
    case StopAll => Queue([], q.ran + StableSort(q.pending))
  }

  ghost function QueueRun(ops: seq<Op>): Queue {
    if ops == [] then Queue([], []) else QueueStep(QueueRun(ops[..|ops| - 1]), ops[|ops| - 1])
  }

  // ---------- refinement ----------

  lemma StepRefines(s: ListState, q: Queue, op: Op)
    requires IsStableSort(s.list, q.pending) && s.ran == q.ran
    ensures IsStableSort(ListStep(s, op).list, QueueStep(q, op).pending)
    ensures ListStep(s, op).ran == QueueStep(q, op).ran
  {
    match op
    case Register(e) => RegisterStable(s.list, q.pending, e);
    case ByName(name) =>
      NoNameStable(s.list, q.pending, name);
      if HasName(q.pending, name) {
        ByNamePicksLeast(s.list, q.pending, name, LeastNamed(q.pending, name));
        ByNameStable(s.list, q.pending, name, LeastNamed(q.pending, name));
      }
    case StopAll => StableSortUnique(s.list, StableSort(q.pending));
  }

  /** After every history the list is the stable sort of the pending registrations, and the same
      functions have run in the same order. */
  lemma {:induction false} ListRefinesQueue(ops: seq<Op>)
    ensures ListRun(ops).list == StableSort(QueueRun(ops).pending)
    ensures ListRun(ops).ran == QueueRun(ops).ran
  {
    RefinesUpTo(ops);
    StableSortUnique(ListRun(ops).list, StableSort(QueueRun(ops).pending));
  }

  lemma {:induction false} RefinesUpTo(ops: seq<Op>)
    ensures IsStableSort(ListRun(ops).list, QueueRun(ops).pending)
    ensures ListRun(ops).ran == QueueRun(ops).ran
  {
    if ops != [] {
      RefinesUpTo(ops[..|ops| - 1]);
      StepRefines(ListRun(ops[..|ops| - 1]), QueueRun(ops[..|ops| - 1]), ops[|ops| - 1]);
    }
  }

  ghost predicate SameClasses(a: seq<Entry>, b: seq<Entry>) {
    forall p :: Class(a, p) == Class(b, p)
  }

  lemma SortsAgree(a: seq<Entry>, b: seq<Entry>, p: seq<Entry>, q: seq<Entry>)
    requires IsStableSort(a, p) && IsStableSort(b, q)
    ensures a == b <==> SameClasses(p, q)
  {
    if a == b {
      forall k ensures Class(p, k) == Class(q, k) {
        assert Class(a, k) == Class(p, k) && Class(b, k) == Class(q, k);
      }
    }
    if SameClasses(p, q) {
      forall k ensures Class(a, k) == Class(b, k) {
        assert Class(p, k) == Class(q, k);
      }
      StableSortUnique(a, b);
    }
  }

  /** Histories have the same list exactly when their pending registrations agree inside every priority. */
  lemma SameClassesSameList(ops: seq<Op>, ops': seq<Op>)
    ensures ListRun(ops).list == ListRun(ops').list <==> SameClasses(QueueRun(ops).pending, QueueRun(ops').pending)
  {
    RefinesUpTo(ops);
    RefinesUpTo(ops');
    SortsAgree(ListRun(ops).list, ListRun(ops').list, QueueRun(ops).pending, QueueRun(ops').pending);
  }

  // ---------- exactly-once execution ----------

  /** All registrations of a history, in order. */
  function Registered(ops: seq<Op>): seq<Entry> {
    if ops == [] then []
    else Registered(ops[..|ops| - 1]) + match ops[|ops| - 1] case Register(e) => [e] case _ => []
  }

  lemma StepConserves(s: ListState, op: Op, all: seq<Entry>)
    requires multiset(s.list) + multiset(s.ran) == multiset(all)
    ensures var s', more := ListStep(s, op), match op case Register(e) => [e] case _ => [];
            multiset(s'.list) + multiset(s'.ran) == multiset(all + more)
  {
    match op
    case Register(e) =>
      InsertMembers(s.list, e);
      assert multiset(all + [e]) == multiset(s.list) + multiset(s.ran) + multiset{e};
    case ByName(name) =>
      assert all + [] == all;
      if HasName(s.list, name) {
        var k := FirstNamed(s.list, name);
        assert s.list == s.list[..k] + [s.list[k]] + s.list[k + 1..];
        assert multiset(s.list) == multiset(RemoveAt(s.list, k)) + multiset{s.list[k]};
      }
    case StopAll =>
      assert all + [] == all;
      assert multiset(s.ran + s.list) == multiset(s.list) + multiset(s.ran);
  }

  /** Every registration is either still listed or has run. */
  lemma {:induction false} RegistrationsConserved(ops: seq<Op>)
    ensures multiset(ListRun(ops).list) + multiset(ListRun(ops).ran) == multiset(Registered(ops))
  {
    if ops != [] {
      RegistrationsConserved(ops[..|ops| - 1]);
      StepConserves(ListRun(ops[..|ops| - 1]), ops[|ops| - 1], Registered(ops[..|ops| - 1]));
    }
  }

  predicate DistinctFns(s: seq<Entry>) {
    forall i, j :: 0 <= i < j < |s| ==> s[i].fn != s[j].fn
  }

  lemma {:induction false} DistinctCount(s: seq<Entry>, e: Entry)
    requires DistinctFns(s)
    ensures multiset(s)[e] <= 1
  {
    if s != [] {
      var n := |s| - 1;
      DistinctCount(s[..n], e);
      assert s == s[..n] + [s[n]];
      if s[n] == e {
        assert e !in s[..n];
      }
    }
  }

  lemma TwiceCounted(a: seq<Entry>, i: nat, j: nat)
    requires i < j < |a| && a[i] == a[j]
    ensures multiset(a)[a[i]] >= 2
  {
    assert a == a[..j] + ([a[j]] + a[j + 1..]);
    assert a[i] == a[..j][i];
    assert a[i] in a[..j];
    assert multiset(a)[a[i]] == multiset(a[..j])[a[i]] + multiset([a[j]] + a[j + 1..])[a[i]];
    assert a[j] in [a[j]] + a[j + 1..];
  }

  lemma SubDistinct(a: seq<Entry>, all: seq<Entry>)
    requires DistinctFns(all) && multiset(a) <= multiset(all)
    ensures DistinctFns(a)
  {
    forall i, j | 0 <= i < j < |a| ensures a[i].fn != a[j].fn {
      DistinctCount(all, a[i]);
      assert a[i] in multiset(all) && a[j] in multiset(all);
      assert a[i] in all && a[j] in all;
      if a[i] == a[j] {
        TwiceCounted(a, i, j);
      }
    }
  }

  /** No registered function ever runs twice. */
  lemma AtMostOnce(ops: seq<Op>)
    requires DistinctFns(Registered(ops))
    ensures DistinctFns(ListRun(ops).ran)
    ensures forall e :: e in ListRun(ops).ran ==> e in Registered(ops) && e !in ListRun(ops).list
  {
    RegistrationsConserved(ops);
    var s, all := ListRun(ops), Registered(ops);
    SubDistinct(s.ran, all);
    forall e | e in s.ran ensures e in all && e !in s.list {
      DistinctCount(all, e);
      assert e in multiset(s.ran);
      assert multiset(all)[e] >= 1;
      assert multiset(s.list)[e] == 0;
    }
  }

  /** The final stop runs every pending function, in order of priority and then of registration;
      after it every registered function has run, exactly once. */
  lemma StopRunsAll(ops: seq<Op>)
    requires DistinctFns(Registered(ops))
    ensures ListRun(ops + [StopAll]).list == []
    ensures ListRun(ops + [StopAll]).ran == ListRun(ops).ran + StableSort(QueueRun(ops).pending)
    ensures multiset(ListRun(ops + [StopAll]).ran) == multiset(Registered(ops))
    ensures DistinctFns(ListRun(ops + [StopAll]).ran)
  {
    var all := ops + [StopAll];
    assert all[..|all| - 1] == ops;
    ListRefinesQueue(ops);
    RegistrationsConserved(all);
    assert Registered(all) == Registered(ops);
    AtMostOnce(all);
  }

  /** ShutdownByName runs just the least pending registration of that name, if there is one, and
      leaves the others pending in their order. */
  lemma ByNameRunsLeast(ops: seq<Op>, name: string)
    ensures var q, s, s' := QueueRun(ops), ListRun(ops), ListRun(ops + [ByName(name)]);
      if HasName(q.pending, name) then
        exists i: nat :: IsLeastNamed(q.pending, name, i)
                 && s'.ran == s.ran + [q.pending[i]] && s'.list == StableSort(RemoveAt(q.pending, i))
      else s' == s
  {
    var all := ops + [ByName(name)];
    assert all[..|all| - 1] == ops;
    RefinesUpTo(ops);
    NoNameStable(ListRun(ops).list, QueueRun(ops).pending, name);
    if HasName(QueueRun(ops).pending, name) {
      var i := LeastNamed(QueueRun(ops).pending, name);
      ByNamePicksLeast(ListRun(ops).list, QueueRun(ops).pending, name, i);
      ByNameStable(ListRun(ops).list, QueueRun(ops).pending, name, i);
      StableSortUnique(ListRun(all).list, StableSort(RemoveAt(QueueRun(ops).pending, i)));
    }
  }
}
