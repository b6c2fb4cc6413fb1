/** The service container and the locators it hands out (internal/container.go). */
module ServiceContainer {
  import opened Options

  /** What the container stores: nil, a value that cannot take a locator, or a service that can. */
  datatype Value = Nil | Plain(id: nat) | Managed(service: Service)

  type Locator = map<string, Value>

  class Service {
    var locator: Option<Locator>

    constructor ()
      ensures locator == None
    {
      locator := None;
    }
  }

  datatype Registry = Registry(container: map<string, Value>, requirements: map<string, Value>)

  /** The container-first lookup of getForLocator. */
  function Resolve(r: Registry, name: string): Option<Value> {
    if name in r.container then Some(r.container[name])
    else if name in r.requirements then Some(r.requirements[name])
    else None
  }

  predicate Available(r: Registry, services: seq<string>) {
    forall i :: 0 <= i < |services| ==> Resolve(r, services[i]).Some?
  }

  predicate NoDuplicates(services: seq<string>) {
    forall i, j :: 0 <= i < j < |services| ==> services[i] != services[j]
  }

  function LocatorOf(r: Registry, services: seq<string>): Locator
    requires Available(r, services)
  {
    map i | 0 <= i < |services| :: services[i] := Resolve(r, services[i]).value
  }

  /** The locator has exactly the requested names, each with what the container holds for it, or else
      what the requirements do. */
  ghost predicate HandsOut(locator: Locator, services: seq<string>, container: map<string, Value>,
                           requirements: map<string, Value>)
  {
    && (forall name :: name in locator <==> name in services)
    && forall name :: name in locator ==>
         if name in container then locator[name] == container[name]
         else name in requirements && locator[name] == requirements[name]
  }

  /** Either log.Fatalf ends the process, or the call returns. */
  datatype Verdict = Halted | Returned(registry: Registry, locator: Option<Locator>)

  function SetStep(r: Registry, key: string, cnt: Value, services: seq<string>): Verdict {
    if key in r.container then Halted
    else if !cnt.Managed? then Returned(r.(container := r.container[key := Nil]), None)
    else if !Available(r, services) || !NoDuplicates(services) then Halted
    else Returned(r.(container := r.container[key := cnt]), Some(LocatorOf(r, services)))
  }

  class Container {
    var container: map<string, Value>
    var requirements: map<string, Value>

    ghost function Abstract(): Registry
      reads this
    {
      Registry(container, requirements)
    }

    constructor ()
      ensures Abstract() == Registry(map[], map[])
    {
      container, requirements := map[], map[];
    }

    /** The rest of NewContainer: the initial services become requirements; a repeated name is fatal. */
    method Require(inits: seq<(string, Value)>) returns (halted: bool)
      requires Abstract() == Registry(map[], map[])
      modifies this`requirements
      ensures halted <==> !NoDuplicates(Names(inits))
      ensures !halted ==> requirements.Keys == set i | 0 <= i < |inits| :: inits[i].0
      ensures !halted ==> forall i :: 0 <= i < |inits| ==> requirements[inits[i].0] == inits[i].1
    {
      for k := 0 to |inits|
        invariant NoDuplicates(Names(inits)[..k])
        invariant requirements.Keys == set i | 0 <= i < k :: inits[i].0
        invariant forall i :: 0 <= i < k ==> requirements[inits[i].0] == inits[i].1
      {
        var (name, value) := inits[k];
        assert Names(inits)[k] == name;
        if name in requirements {
          assert exists i :: 0 <= i < k && Names(inits)[i] == name;
          return true;
        }
        requirements := requirements[name := value];
      }
      assert Names(inits)[..|inits|] == Names(inits);
      halted := false;
    }

    method AllServicesAreAvailable(services: seq<string>) returns (ok: bool, missing: string)
      ensures ok <==> forall i :: 0 <= i < |services| ==> services[i] in container || services[i] in requirements
      ensures ok <==> Available(Abstract(), services)
      ensures !ok ==> missing !in container && missing !in requirements
      ensures !ok ==> exists i :: 0 <= i < |services| && services[i] == missing && Available(Abstract(), services[..i])
    {
      for i := 0 to |services|
        invariant Available(Abstract(), services[..i])
      {
        if services[i] !in container && services[i] !in requirements {
          return false, services[i];
        }
        assert services[..i + 1] == services[..i] + [services[i]];
      }
      assert services[..|services|] == services;
      return true, "";
    }

    /** A name that is unknown or repeated is fatal. */
    method NewServiceLocator(services: seq<string>) returns (halted: bool, locator: Locator)
      ensures halted <==> !NoDuplicates(services) || !Available(Abstract(), services)
      ensures !halted ==> locator == LocatorOf(Abstract(), services)
      ensures halted <==>
        || (exists i :: 0 <= i < |services| && services[i] !in container && services[i] !in requirements)
        || (exists i, j :: 0 <= i < j < |services| && services[i] == services[j])
      ensures !halted ==> HandsOut(locator, services, container, requirements)
    {
      locator := map[];
      for k := 0 to |services|
        invariant NoDuplicates(services[..k]) && Available(Abstract(), services[..k])
        invariant locator == LocatorOf(Abstract(), services[..k])
      {
        var name := services[k];
        assert services[..k + 1] == services[..k] + [name];
        if name !in container && name !in requirements {
          return true, locator;
        }
        if name in locator {
          assert exists i :: 0 <= i < k && services[i] == name;
          return true, locator;
        }
        LocatorAppend(Abstract(), services[..k], name);
        locator := locator[name := if name in container then container[name] else requirements[name]];
      }
      assert services[..|services|] == services;
      halted := false;
    }

    /** Registers a service, or halts without a change. */
    method Set(key: string, cnt: Value, services: seq<string>) returns (halted: bool)
      modifies this`container, if cnt.Managed? then {cnt.service} else {}
      ensures var v := SetStep(old(Abstract()), key, cnt, services);
        && (halted <==> v.Halted?)
        && (v.Halted? ==> Abstract() == old(Abstract()))
        && (v.Halted? && cnt.Managed? ==> cnt.service.locator == old(cnt.service.locator))
        && (v.Returned? ==> Abstract() == v.registry && (cnt.Managed? ==> cnt.service.locator == v.locator))
      ensures !halted ==> container == old(container)[key := if cnt.Managed? then cnt else Nil]
      ensures !halted && cnt.Managed? ==>
        cnt.service.locator.Some? && HandsOut(cnt.service.locator.value, services, old(container), requirements)
    {
      if key in container {
        return true;
      }
      if cnt.Managed? {
        var ok, _ := AllServicesAreAvailable(services);
        if !ok {
          return true;
        }
        var dup, locator := NewServiceLocator(services);
        if dup {
          return true;
        }
        cnt.service.locator := Some(locator);
      }
      container := container[key := if cnt.Managed? then cnt else Nil];
      halted := false;
    }

    method Get(key: string) returns (value: Value)
      ensures value == if key in container then container[key] else Nil
    {
      if key !in container {
        return Nil;
      }
      value := container[key];
    }
  }

  function Names(inits: seq<(string, Value)>): (s: seq<string>)
    ensures |s| == |inits| && forall i :: 0 <= i < |s| ==> s[i] == inits[i].0
  {
    seq(|inits|, i requires 0 <= i < |inits| => inits[i].0)
  }

  lemma LocatorAppend(r: Registry, services: seq<string>, name: string)
    requires Available(r, services) && Resolve(r, name).Some?
    ensures Available(r, services + [name])
    ensures LocatorOf(r, services + [name]) == LocatorOf(r, services)[name := Resolve(r, name).value]
  {
    var all := services + [name];
    assert forall i :: 0 <= i < |services| ==> all[i] == services[i];
    assert all[|services|] == name;
  }

  // ---------- whole runs of registrations ----------

  datatype Call = Call(key: string, cnt: Value, services: seq<string>)

  /** One accepted registration, with the registry it met. */
  datatype Entry = Entry(call: Call, before: Registry, locator: Option<Locator>)

  /** The registrations of a run that does not halt, and the registry it ends with. */
  datatype Run = Run(entries: seq<Entry>, registry: Registry)

  function RunCalls(requirements: map<string, Value>, calls: seq<Call>): Option<Run> {
    if calls == [] then Some(Run([], Registry(map[], requirements)))
    else
      var c := calls[|calls| - 1];
      match RunCalls(requirements, calls[..|calls| - 1])
      case None => None
      case Some(run) =>
        match SetStep(run.registry, c.key, c.cnt, c.services)
        case Halted => None
        case Returned(registry, locator) => Some(Run(run.entries + [Entry(c, run.registry, locator)], registry))
  }

  function StoredValue(cnt: Value): Value {
    if cnt.Managed? then cnt else Nil
  }

  /** The container after the first `n` registrations. */
  function Stored(entries: seq<Entry>, n: nat): map<string, Value>
    requires n <= |entries|
  {
    if n == 0 then map[]
    else Stored(entries, n - 1)[entries[n - 1].call.key := StoredValue(entries[n - 1].call.cnt)]
  }

  /** What an accepted registration met and left behind. */
  ghost predicate GoodEntry(requirements: map<string, Value>, e: Entry) {
    && e.before.requirements == requirements
    && e.call.key !in e.before.container
    && if e.call.cnt.Managed? then
         Available(e.before, e.call.services) && e.locator == Some(LocatorOf(e.before, e.call.services))
       else e.locator.None?
  }

  ghost predicate GoodRun(requirements: map<string, Value>, run: Run) {
    && run.registry == Registry(Stored(run.entries, |run.entries|), requirements)
    && forall i: nat :: i < |run.entries| ==> GoodAt(requirements, run.entries, i)
  }

  ghost predicate GoodAt(requirements: map<string, Value>, entries: seq<Entry>, i: nat)
    requires i < |entries|
  {
    entries[i].before.container == Stored(entries, i) && GoodEntry(requirements, entries[i])
  }

  lemma {:induction false} StoredPrefix(a: seq<Entry>, b: seq<Entry>, n: nat)
    requires n <= |a| && a <= b
    ensures Stored(a, n) == Stored(b, n)
  {
    if n > 0 {
      StoredPrefix(a, b, n - 1);
    }
  }

  lemma NewEntryGood(requirements: map<string, Value>, before: Registry, c: Call, v: Verdict)
    requires before.requirements == requirements
    requires v == SetStep(before, c.key, c.cnt, c.services) && v.Returned?
    ensures GoodEntry(requirements, Entry(c, before, v.locator))
    ensures v.registry == Registry(before.container[c.key := StoredValue(c.cnt)], requirements)
  {}

  lemma GoodStep(requirements: map<string, Value>, run: Run, c: Call, v: Verdict)
    requires GoodRun(requirements, run) && v == SetStep(run.registry, c.key, c.cnt, c.services) && v.Returned?
    ensures GoodRun(requirements, Run(run.entries + [Entry(c, run.registry, v.locator)], v.registry))
  {
    var e := Entry(c, run.registry, v.locator);
    var all, n := run.entries + [e], |run.entries|;
    NewEntryGood(requirements, run.registry, c, v);
    StoredPrefix(run.entries, all, n);
    forall i: nat | i < |all| ensures GoodAt(requirements, all, i) {
      if i < n {
        StoredPrefix(run.entries, all, i);
        assert GoodAt(requirements, run.entries, i);
        assert all[i] == run.entries[i];
      } else {
        assert all[i] == e;
      }
    }
    assert Stored(all, n + 1) == Stored(all, n)[c.key := StoredValue(c.cnt)];
  }

  lemma {:induction false} RunsAreGood(requirements: map<string, Value>, calls: seq<Call>)
    requires RunCalls(requirements, calls).Some?
    ensures GoodRun(requirements, RunCalls(requirements, calls).value)
  {
    if calls != [] {
      var prev, c := RunCalls(requirements, calls[..|calls| - 1]).value, calls[|calls| - 1];
      RunsAreGood(requirements, calls[..|calls| - 1]);
      GoodStep(requirements, prev, c, SetStep(prev.registry, c.key, c.cnt, c.services));
    }
  }

  // ---------- the dependency graph ----------

  /** The container entries a registration was wired to. */
  function Uses(e: Entry): set<string> {
    if e.call.cnt.Managed? then
      set i | 0 <= i < |e.call.services| && e.call.services[i] in e.before.container :: e.call.services[i]
    else {}
  }

  ghost predicate Edge(run: Run, a: string, b: string) {
    exists i :: 0 <= i < |run.entries| && run.entries[i].call.key == a && b in Uses(run.entries[i])
  }

  ghost predicate IsPath(run: Run, p: seq<string>) {
    |p| > 1 && forall k :: 0 < k < |p| ==> Edge(run, p[k - 1], p[k])
  }

  /** Every stored key comes from an earlier registration. */
  lemma {:induction false} StoredKeys(entries: seq<Entry>, n: nat, key: string)
    requires n <= |entries| && key in Stored(entries, n)
    ensures exists j :: 0 <= j < n && entries[j].call.key == key
  {
    if n > 0 && key != entries[n - 1].call.key {
      StoredKeys(entries, n - 1, key);
    }
  }

  ghost predicate Extends(a: map<string, Value>, b: map<string, Value>) {
    forall k :: k in a ==> k in b && b[k] == a[k]
  }

  predicate FreshAt(entries: seq<Entry>, m: nat)
    requires m < |entries|
  {
    entries[m].call.key !in Stored(entries, m)
  }

  ghost predicate FreshKeys(entries: seq<Entry>) {
    forall m: nat :: m < |entries| ==> FreshAt(entries, m)
  }

  lemma GoodKeys(requirements: map<string, Value>, run: Run)
    requires GoodRun(requirements, run)
    ensures FreshKeys(run.entries)
  {
    forall m: nat | m < |run.entries| ensures FreshAt(run.entries, m) {
      assert GoodAt(requirements, run.entries, m);
    }
  }

  /** What is stored stays stored. */
  lemma {:induction false} StoredGrows(entries: seq<Entry>, i: nat, j: nat)
    requires FreshKeys(entries) && i <= j <= |entries|
    ensures Extends(Stored(entries, i), Stored(entries, j))
  {
    if i < j {
      StoredGrows(entries, i, j - 1);
      assert FreshAt(entries, j - 1);
      var last := entries[j - 1].call;
      ExtendsUpdate(Stored(entries, i), Stored(entries, j - 1), last.key, StoredValue(last.cnt));
    }
  }

  lemma ExtendsUpdate(a: map<string, Value>, b: map<string, Value>, key: string, value: Value)
    requires Extends(a, b) && key !in b
    ensures Extends(a, b[key := value])
  {}

  /** A key is registered at one place only. */
  lemma KeysDistinct(entries: seq<Entry>, i: nat, j: nat)
    requires FreshKeys(entries) && i < |entries| && j < |entries| && i != j
    ensures entries[i].call.key != entries[j].call.key
  {
    var a, b := if i < j then i else j, if i < j then j else i;
    StoredGrows(entries, a + 1, b);
    assert entries[a].call.key in Stored(entries, a + 1);
    assert FreshAt(entries, b);
  }

  /** An edge leads to an earlier registration. */
  lemma EdgeGoesBack(requirements: map<string, Value>, run: Run, a: string, b: string) returns (i: nat, j: nat)
    requires GoodRun(requirements, run) && Edge(run, a, b)
    ensures j < i < |run.entries| && run.entries[i].call.key == a && run.entries[j].call.key == b
  {
    i :| 0 <= i < |run.entries| && run.entries[i].call.key == a && b in Uses(run.entries[i]);
    assert GoodAt(requirements, run.entries, i);
    StoredKeys(run.entries, i, b);
    j :| 0 <= j < i && run.entries[j].call.key == b;
  }

  lemma ShorterPath(run: Run, p: seq<string>)
    requires IsPath(run, p) && |p| > 2
    ensures IsPath(run, p[..|p| - 1])
  {
    var q := p[..|p| - 1];
    forall k | 0 < k < |q| ensures Edge(run, q[k - 1], q[k]) {
      assert Edge(run, p[k - 1], p[k]);
    }
  }

  /** The end of a path was registered before its start. */
  lemma {:induction false} PathGoesBack(requirements: map<string, Value>, run: Run, p: seq<string>)
    returns (first: nat, last: nat)
    requires GoodRun(requirements, run) && IsPath(run, p)
    ensures last < first < |run.entries|
    ensures run.entries[first].call.key == p[0] && run.entries[last].call.key == p[|p| - 1]
    decreases |p|
  {
    var n := |p| - 1;
    assert Edge(run, p[n - 1], p[n]);
    first, last := EdgeGoesBack(requirements, run, p[n - 1], p[n]);
    if n > 1 {
      ShorterPath(run, p);
      var start, mid := PathGoesBack(requirements, run, p[..n]);
      GoodKeys(requirements, run);
      if mid != first {
        KeysDistinct(run.entries, mid, first);
      }
      first := start;
    }
  }

  /** In every run of Set calls that does not halt the dependencies among container entries are acyclic. */
  lemma DependenciesAcyclic(requirements: map<string, Value>, calls: seq<Call>, p: seq<string>)
    requires RunCalls(requirements, calls).Some? && IsPath(RunCalls(requirements, calls).value, p)
    ensures p[0] != p[|p| - 1]
  {
    RunsAreGood(requirements, calls);
    var run := RunCalls(requirements, calls).value;
    var first, last := PathGoesBack(requirements, run, p);
    GoodKeys(requirements, run);
    KeysDistinct(run.entries, last, first);
  }

  // ---------- locators ----------

  /** A managed service's locator holds exactly the requested names. */
  lemma LocatorHoldsRequested(requirements: map<string, Value>, calls: seq<Call>, i: nat)
    requires RunCalls(requirements, calls).Some? && i < |RunCalls(requirements, calls).value.entries|
    ensures var e := RunCalls(requirements, calls).value.entries[i];
      e.locator.Some? == e.call.cnt.Managed? &&
      (e.locator.Some? ==> forall name :: name in e.locator.value <==> name in e.call.services)
  {
    RunsAreGood(requirements, calls);
    assert GoodAt(requirements, RunCalls(requirements, calls).value.entries, i);
  }

  /** The registrations of a run are its calls. */
  lemma {:induction false} EntriesAreCalls(requirements: map<string, Value>, calls: seq<Call>)
    requires RunCalls(requirements, calls).Some?
    ensures var entries := RunCalls(requirements, calls).value.entries;
      |entries| == |calls| && forall i :: 0 <= i < |calls| ==> entries[i].call == calls[i]
  {
    if calls != [] {
      EntriesAreCalls(requirements, calls[..|calls| - 1]);
    }
  }

  /** What a registration stores is found under its key at the end. */
  lemma StoredAtEnd(entries: seq<Entry>, j: nat)
    requires FreshKeys(entries) && j < |entries|
    ensures var c, final := entries[j].call, Stored(entries, |entries|);
      c.key in final && final[c.key] == StoredValue(c.cnt)
  {
    StoredGrows(entries, j + 1, |entries|);
    assert entries[j].call.key in Stored(entries, j + 1);
  }

  /** No call from number `i` on sets `name` to anything but what the requirements have for it. */
  predicate NotShadowed(requirements: map<string, Value>, calls: seq<Call>, i: nat, name: string) {
    forall j :: i <= j < |calls| && calls[j].key == name ==>
      name in requirements && StoredValue(calls[j].cnt) == requirements[name]
  }

  lemma KnownBefore(entries: seq<Entry>, i: nat, name: string)
    requires FreshKeys(entries) && i <= |entries|
    ensures name in Stored(entries, i) <==> exists j :: 0 <= j < i && entries[j].call.key == name
  {
    if name in Stored(entries, i) {
      StoredKeys(entries, i, name);
    }
    if j: nat :| j < i && entries[j].call.key == name {
      StoredGrows(entries, j + 1, i);
      assert name in Stored(entries, j + 1);
    }
  }

  lemma RequirementKept(requirements: map<string, Value>, calls: seq<Call>, entries: seq<Entry>, i: nat, name: string)
    requires FreshKeys(entries) && |entries| == |calls| && i <= |calls| && name in requirements
    requires forall j :: 0 <= j < |calls| ==> entries[j].call == calls[j]
    requires name !in Stored(entries, i)
    ensures var final := Stored(entries, |entries|);
      (name in final ==> final[name] == requirements[name]) <==> NotShadowed(requirements, calls, i, name)
  {
    KnownBefore(entries, i, name);
    KnownBefore(entries, |entries|, name);
    forall j: nat | j < |calls| && calls[j].key == name
      ensures i <= j && name in Stored(entries, |entries|)
      ensures Stored(entries, |entries|)[name] == StoredValue(calls[j].cnt)
    {
      StoredAtEnd(entries, j);
    }
  }

  /** A locator entry of call `i` equals a fresh container-first lookup at the end of the run exactly if an
      earlier call set its name, or no call from `i` on sets it to another value than the requirement. */
  lemma LocatorFreshIff(requirements: map<string, Value>, calls: seq<Call>, i: nat, name: string)
    requires RunCalls(requirements, calls).Some? && i < |RunCalls(requirements, calls).value.entries|
    requires var e := RunCalls(requirements, calls).value.entries[i]; e.locator.Some? && name in e.locator.value
    ensures var run := RunCalls(requirements, calls).value;
      Resolve(run.registry, name) == Some(run.entries[i].locator.value[name]) <==>
        || (exists j :: 0 <= j < i && j < |calls| && calls[j].key == name)
        || NotShadowed(requirements, calls, i, name)
  {
    RunsAreGood(requirements, calls);
    EntriesAreCalls(requirements, calls);
    var run := RunCalls(requirements, calls).value;
    var e := run.entries[i];
    assert GoodAt(requirements, run.entries, i);
    GoodKeys(requirements, run);
    StoredGrows(run.entries, i, |run.entries|);
    var k :| 0 <= k < |e.call.services| && e.call.services[k] == name;
    assert e.locator.value[name] == Resolve(e.before, name).value;
    KnownBefore(run.entries, i, name);
    if name !in e.before.container {
      RequirementKept(requirements, calls, run.entries, i, name);
    }
  }

  /** A locator entry of call `i` is what the earlier call for its name stored, or else the requirement. */
  lemma LocatorValues(requirements: map<string, Value>, calls: seq<Call>, i: nat, name: string)
    requires RunCalls(requirements, calls).Some? && i < |RunCalls(requirements, calls).value.entries|
    requires var e := RunCalls(requirements, calls).value.entries[i]; e.locator.Some? && name in e.locator.value
    ensures i < |calls|
    ensures var value := RunCalls(requirements, calls).value.entries[i].locator.value[name];
      && (forall j :: 0 <= j < i && calls[j].key == name ==> value == StoredValue(calls[j].cnt))
      && ((forall j :: 0 <= j < i ==> calls[j].key != name) ==> name in requirements && value == requirements[name])
  {
    RunsAreGood(requirements, calls);
    EntriesAreCalls(requirements, calls);
    var entries := RunCalls(requirements, calls).value.entries;
    assert GoodAt(requirements, entries, i);
    GoodKeys(requirements, RunCalls(requirements, calls).value);
    KnownBefore(entries, i, name);
    var k :| 0 <= k < |entries[i].call.services| && entries[i].call.services[k] == name;
    forall j: nat | j < i && calls[j].key == name ensures name in Stored(entries, i)
      ensures Stored(entries, i)[name] == StoredValue(calls[j].cnt)
    {
      StoredGrows(entries, j + 1, i);
      assert entries[j].call.key in Stored(entries, j + 1);
    }
  }

  /** What is stored is what was set, except that a value that cannot take a locator is lost: the
      failed type assertion leaves nil. */
  lemma StoredAsSetIff(r: Registry, key: string, cnt: Value, services: seq<string>)
    requires SetStep(r, key, cnt, services).Returned?
    ensures var c := SetStep(r, key, cnt, services).registry.container;
            key in c && (c[key] == cnt <==> !cnt.Plain?)
  {}

  /** Set halts exactly on a repeated key, or on a managed service that asks for something unknown or
      asks twice. */
  lemma SetHaltsIff(r: Registry, key: string, cnt: Value, services: seq<string>)
    ensures SetStep(r, key, cnt, services).Halted? <==>
      || key in r.container
      || (cnt.Managed? &&
          exists i :: 0 <= i < |services| &&
            ((services[i] !in r.container && services[i] !in r.requirements) || services[i] in services[..i]))
  {
    if cnt.Managed? && !NoDuplicates(services) {
      var i, j :| 0 <= i < j < |services| && services[i] == services[j];
      assert services[..j][i] == services[j];
      assert services[j] in services[..j];
    }
  }
}
