/** The application's pointer-linked shutdown list (application/application.go:15-99). */
module ShutdownApp {
  import opened ShutdownOrder
  import opened ShutdownRuns

  class Shutdown {
    const entry: Entry
    var next: Shutdown?

    constructor (entry: Entry)
      ensures this.entry == entry && next == null
    {
      this.entry := entry;
      next := null;
    }
  }

  class App {
    var node: Shutdown?
    var ran: seq<Entry>                // the shutdown functions called so far, in order
    ghost var nodes: seq<Shutdown>     // the chain from `node`

    /** The chain is `nodes`: it ends, and no node occurs twice. */
    ghost predicate Valid()
      reads this, nodes
    {
      && (nodes == [] ==> node == null)
      && (nodes != [] ==> node == nodes[0] && nodes[|nodes| - 1].next == null)
      && (forall i {:trigger nodes[i].next} :: 0 <= i < |nodes| - 1 ==> nodes[i].next == nodes[i + 1])
      && (forall i, j :: 0 <= i < j < |nodes| ==> nodes[i] != nodes[j])
    }

    ghost function List(): seq<Entry>
      reads this
    {
      Entries(nodes)
    }

    ghost function Abstract(): ListState
      reads this
    {
      ListState(List(), ran)
    }

    constructor ()
      ensures Valid() && Abstract() == ListState([], [])
    {
      node := null;
      ran := [];
      nodes := [];
    }

    /** Links a new node behind the node `current`. */
    method LinkAfter(current: Shutdown, ghost at: nat, added: Shutdown)
      requires Valid() && at < |nodes| && current == nodes[at] && added !in nodes
      modifies current, added, this`nodes
      ensures Valid() && nodes == old(nodes)[..at + 1] + [added] + old(nodes)[at + 1..]
      ensures forall x :: x in nodes ==> x in old(nodes) || x == added
    {
      added.next := current.next;
      current.next := added;
      ghost var was := nodes;
      nodes := nodes[..at + 1] + [added] + nodes[at + 1..];
      assert forall i :: 0 <= i < |nodes| ==>
        nodes[i] == if i <= at then was[i] else if i == at + 1 then added else was[i - 1];
    }

    /** Unlinks the node behind the node `current`. */
    method UnlinkAfter(current: Shutdown, ghost at: nat)
      requires Valid() && at + 1 < |nodes| && current == nodes[at]
      modifies current, this`nodes
      ensures Valid() && nodes == old(nodes)[..at + 1] + old(nodes)[at + 2..]
      ensures forall x :: x in nodes ==> x in old(nodes)
    {
      current.next := current.next.next;
      ghost var was := nodes;
      nodes := nodes[..at + 1] + nodes[at + 2..];
      assert forall i :: 0 <= i < |nodes| ==> nodes[i] == if i <= at then was[i] else was[i + 1];
    }

    method PushFront(added: Shutdown)
      requires Valid() && added !in nodes
      modifies this`node, this`nodes, added
      ensures Valid() && nodes == [added] + old(nodes)
    {
      added.next := node;
      node := added;
      nodes := [added] + nodes;
    }

    /** The walk of RegisterShutdown: the last node of the leading run of priorities up to `priority`. */
    method PlaceFor(priority: int) returns (current: Shutdown, ghost at: nat)
      requires Valid() && nodes != [] && nodes[0].entry.priority <= priority
      ensures at < |nodes| && current == nodes[at]
      ensures forall i :: 0 <= i <= at ==> nodes[i].entry.priority <= priority
      ensures at + 1 < |nodes| ==> nodes[at + 1].entry.priority > priority
    {
      current, at := node, 0;
      while current.next != null && current.next.entry.priority <= priority
        invariant at < |nodes| && current == nodes[at]
        invariant forall i :: 0 <= i <= at ==> nodes[i].entry.priority <= priority
        decreases |nodes| - at
      {
        current := current.next;
        at := at + 1;
      }
    }

    /** The walk of ShutdownByName: the node in front of the first one of that name, or the last node. */
    method BeforeNamed(name: string) returns (current: Shutdown, ghost at: nat)
      requires Valid() && nodes != [] && nodes[0].entry.name != name
      ensures at < |nodes| && current == nodes[at]
      ensures forall i :: 0 <= i <= at ==> nodes[i].entry.name != name
      ensures at + 1 < |nodes| ==> nodes[at + 1].entry.name == name
    {
      current, at := node, 0;
      while current.next != null && current.next.entry.name != name
        invariant at < |nodes| && current == nodes[at]
        invariant forall i :: 0 <= i <= at ==> nodes[i].entry.name != name
        decreases |nodes| - at
      {
        current := current.next;
        at := at + 1;
      }
    }

    method RegisterShutdown(name: string, fn: nat, priority: int)
      requires Valid()
      modifies this, nodes
      ensures Valid()
      ensures Abstract() == ListStep(old(Abstract()), Register(Entry(priority, name, fn)))
      ensures forall x :: x in nodes ==> x in old(nodes) || fresh(x)
    {
      var e := Entry(priority, name, fn);
      var added := new Shutdown(e);
      ghost var was := nodes;
      if node == null || node.entry.priority > priority {
        InsertedAt(was, added, 0);
        PushFront(added);
      } else {
        RegisterBehindHead(added);
      }
    }

    /** RegisterShutdown when the head stays in front. */
    method RegisterBehindHead(added: Shutdown)
      requires Valid() && nodes != [] && nodes[0].entry.priority <= added.entry.priority && added !in nodes
      modifies this`nodes, nodes, added
      ensures Valid()
      ensures List() == Insert(old(List()), added.entry)
      ensures forall x :: x in nodes ==> x in old(nodes) || x == added
    {
      var current, at := PlaceFor(added.entry.priority);
      InsertedAt(nodes, added, at + 1);
      ghost var was := nodes;
      LinkAfter(current, at, added);
      assert nodes == was[..at + 1] + [added] + was[at + 1..];
    }

    method PopFront()
      requires Valid() && nodes != []
      modifies this`node, this`nodes
      ensures Valid() && nodes == old(nodes)[1..]
    {
      node := node.next;
      nodes := nodes[1..];
    }

    method ShutdownByName(name: string)
      requires Valid()
      modifies this, nodes
      ensures Valid()
      ensures Abstract() == ListStep(old(Abstract()), ByName(name))
      ensures forall x :: x in nodes ==> x in old(nodes)
    {
      if node == null {
        NothingNamed(nodes, ran, name);
        return;
      }
      if node.entry.name == name {
        ShutdownHead(name);
      } else {
        ShutdownBehindHead(name);
      }
    }

    /** ShutdownByName when the head has this name. */
    method ShutdownHead(name: string)
      requires Valid() && nodes != [] && nodes[0].entry.name == name
      modifies this
      ensures Valid() && nodes == old(nodes)[1..]
      ensures Abstract() == ListStep(old(Abstract()), ByName(name))
    {
      RemovedHead(nodes, ran, name);
      ran := ran + [node.entry];
      PopFront();
    }

    /** ShutdownByName when the head has another name. */
    method ShutdownBehindHead(name: string)
      requires Valid() && nodes != [] && nodes[0].entry.name != name
      modifies this`ran, this`nodes, nodes
      ensures Valid()
      ensures Abstract() == ListStep(old(Abstract()), ByName(name))
      ensures forall x :: x in nodes ==> x in old(nodes)
    {
      var current, at := BeforeNamed(name);
      if current.next != null {
        RemovedAt(nodes, ran, name, at + 1);
        RunBehind(current, at);
      } else {
        NothingNamed(nodes, ran, name);
      }
    }

    /** Runs and unlinks the node behind the node `current`. */
    method RunBehind(current: Shutdown, ghost at: nat)
      requires Valid() && at + 1 < |nodes| && current == nodes[at]
      modifies this`ran, this`nodes, current
      ensures Valid() && ran == old(ran) + [old(nodes)[at + 1].entry]
      ensures nodes == old(nodes)[..at + 1] + old(nodes)[at + 2..]
      ensures forall x :: x in nodes ==> x in old(nodes)
    {
      ran := ran + [current.next.entry];
      UnlinkAfter(current, at);
    }

    /** Stop: runs and unlinks from the front until the list is empty. */
    method ShutdownAll()
      requires Valid()
      modifies this
      ensures Valid()
      ensures Abstract() == ListStep(old(Abstract()), StopAll)
    {
      ghost var was, before, done := nodes, ran, 0;
      while node != null
        invariant Valid() && done <= |was| && nodes == was[done..]
        invariant ran == before + Entries(was)[..done]
        decreases |nodes|
      {
        OneMore(before, Entries(was), done);
        ran := ran + [node.entry];
        PopFront();
        done := done + 1;
      }
      assert Entries(was)[..|was|] == Entries(was);
    }
  }

  /** One call on the object. */
  method Perform(app: App, op: Op)
    requires app.Valid()
    modifies app, app.nodes
    ensures app.Valid() && app.Abstract() == ListStep(old(app.Abstract()), op)
    ensures forall x :: x in app.nodes ==> x in old(app.nodes) || fresh(x)
  {
    match op
    case Register(e) => app.RegisterShutdown(e.name, e.fn, e.priority);
    case ByName(name) => app.ShutdownByName(name);
    case StopAll => app.ShutdownAll();
  }

  /** Any sequence of calls on a new application: its linked list is the stable sort of what is pending,
      and it has called the functions that the queue has run, in the same order. */
  method Replay(ops: seq<Op>) returns (app: App)
    ensures fresh(app) && app.Valid() && app.Abstract() == ListRun(ops)
    ensures app.List() == StableSort(QueueRun(ops).pending) && app.ran == QueueRun(ops).ran
  {
    app := new App();
    for i := 0 to |ops|
      invariant fresh(app) && app.Valid() && app.Abstract() == ListRun(ops[..i])
      invariant forall k :: 0 <= k < |app.nodes| ==> fresh(app.nodes[k])
    {
      Perform(app, ops[i]);
      assert forall k :: 0 <= k < |app.nodes| ==> app.nodes[k] in app.nodes;
      assert ops[..i + 1][..i] == ops[..i];
    }
    assert ops[..|ops|] == ops;
    ListRefinesQueue(ops);
  }

  lemma OneMore(a: seq<Entry>, s: seq<Entry>, k: nat)
    requires k < |s|
    ensures (a + s[..k]) + [s[k]] == a + s[..k + 1]
  {}

  function Entries(nodes: seq<Shutdown>): (s: seq<Entry>)
    ensures |s| == |nodes| && forall i :: 0 <= i < |s| ==> s[i] == nodes[i].entry
  {
    seq(|nodes|, i requires 0 <= i < |nodes| => nodes[i].entry)
  }

  /** Where RegisterShutdown puts the new entry. */
  lemma {:induction false} InsertPosition(s: seq<Entry>, e: Entry, k: nat)
    requires k <= |s|
    requires forall i :: 0 <= i < k ==> s[i].priority <= e.priority
    requires k < |s| ==> s[k].priority > e.priority
    ensures Insert(s, e) == s[..k] + [e] + s[k..]
  {
    if k > 0 {
      InsertPosition(s[1..], e, k - 1);
      assert s[..k] == [s[0]] + s[1..][..k - 1];
      assert s[1..][k - 1..] == s[k..];
    }
  }

  lemma InsertedAt(nodes: seq<Shutdown>, added: Shutdown, k: nat)
    requires k <= |nodes|
    requires forall i :: 0 <= i < k ==> nodes[i].entry.priority <= added.entry.priority
    requires k < |nodes| ==> nodes[k].entry.priority > added.entry.priority
    ensures Entries(nodes[..k] + [added] + nodes[k..]) == Insert(Entries(nodes), added.entry)
    ensures k == 0 ==> nodes[..k] + [added] + nodes[k..] == [added] + nodes
  {
    InsertPosition(Entries(nodes), added.entry, k);
    assert Entries(nodes[..k] + [added] + nodes[k..]) == Entries(nodes)[..k] + [added.entry] + Entries(nodes)[k..];
  }

  lemma RemovedAt(nodes: seq<Shutdown>, ran: seq<Entry>, name: string, k: nat)
    requires k < |nodes| && nodes[k].entry.name == name
    requires forall i :: 0 <= i < k ==> nodes[i].entry.name != name
    ensures ListStep(ListState(Entries(nodes), ran), ByName(name)) ==
            ListState(Entries(nodes[..k] + nodes[k + 1..]), ran + [nodes[k].entry])
  {
    IsFirstNamed(Entries(nodes), name, k);
    assert Entries(nodes[..k] + nodes[k + 1..]) == RemoveAt(Entries(nodes), k);
  }

  lemma RemovedHead(nodes: seq<Shutdown>, ran: seq<Entry>, name: string)
    requires nodes != [] && nodes[0].entry.name == name
    ensures ListStep(ListState(Entries(nodes), ran), ByName(name)) ==
            ListState(Entries(nodes[1..]), ran + [nodes[0].entry])
  {
    RemovedAt(nodes, ran, name, 0);
    assert nodes[..0] + nodes[1..] == nodes[1..];
  }

  lemma NothingNamed(nodes: seq<Shutdown>, ran: seq<Entry>, name: string)
    requires forall i :: 0 <= i < |nodes| ==> nodes[i].entry.name != name
    ensures ListStep(ListState(Entries(nodes), ran), ByName(name)) == ListState(Entries(nodes), ran)
  {}
}
