/** The order in which shutdown functions run: a stable priority queue
    (application/application.go:47-99). */
module ShutdownOrder {

  /** A registered function: `fn` is its identity. */
  datatype Entry = Entry(priority: int, name: string, fn: nat)

  /** The list RegisterShutdown builds: behind everything of the same or a smaller number. */
  function Insert(list: seq<Entry>, e: Entry): seq<Entry> {
    if list == [] || list[0].priority > e.priority then [e] + list
    else [list[0]] + Insert(list[1..], e)
  }

  /** The index of the first entry of that name, or the length if there is none. */
  function FirstNamed(s: seq<Entry>, name: string): (i: nat)
    ensures i <= |s| && (i < |s| ==> s[i].name == name) && forall j :: 0 <= j < i ==> s[j].name != name
  {
    if s == [] || s[0].name == name then 0 else 1 + FirstNamed(s[1..], name)
  }

  predicate HasName(s: seq<Entry>, name: string) {
    FirstNamed(s, name) < |s|
  }

  function RemoveAt(s: seq<Entry>, i: nat): seq<Entry>
    requires i < |s|
  {
    s[..i] + s[i + 1..]
  }

  // ---------- stable sorting ----------

  predicate Sorted(s: seq<Entry>) {
    forall i, j :: 0 <= i < j < |s| ==> s[i].priority <= s[j].priority
  }

  /** The entries of priority `p`, in order. */
  function Class(s: seq<Entry>, p: int): seq<Entry> {
    if s == [] then []
    else (if s[0].priority == p then [s[0]] else []) + Class(s[1..], p)
  }

  /** `list` is `pending` sorted by priority, with the order inside each priority kept. */
  ghost predicate IsStableSort(list: seq<Entry>, pending: seq<Entry>) {
    Sorted(list) && forall p :: Class(list, p) == Class(pending, p)
  }

  lemma {:induction false} ClassMembers(s: seq<Entry>, p: int)
    ensures forall i :: 0 <= i < |Class(s, p)| ==> Class(s, p)[i].priority == p && Class(s, p)[i] in s
    ensures forall e :: e in s && e.priority == p ==> e in Class(s, p)
  {
    if s != [] {
      ClassMembers(s[1..], p);
      assert s == [s[0]] + s[1..];
    }
  }

  lemma {:induction false} ClassAppend(a: seq<Entry>, b: seq<Entry>, p: int)
    ensures Class(a + b, p) == Class(a, p) + Class(b, p)
  {
    if a == [] {
      assert a + b == b;
    } else {
      var h := if a[0].priority == p then [a[0]] else [];
      assert (a + b)[0] == a[0] && (a + b)[1..] == a[1..] + b;
      assert Class(a + b, p) == h + Class(a[1..] + b, p);
      ClassAppend(a[1..], b, p);
      assert h + (Class(a[1..], p) + Class(b, p)) == (h + Class(a[1..], p)) + Class(b, p);
    }
  }

  lemma ClassMiddle(a: seq<Entry>, e: Entry, b: seq<Entry>, p: int)
    ensures Class(a + [e] + b, p) == Class(a, p) + (if e.priority == p then [e] else []) + Class(b, p)
  {
    ClassAppend(a + [e], b, p);
    ClassAppend(a, [e], p);
    assert Class([e], p) == if e.priority == p then [e] else [];
  }

  lemma SortedHead(s: seq<Entry>)
    requires s != [] && Sorted(s)
    ensures Sorted(s[1..])
    ensures forall p :: p < s[0].priority ==> Class(s, p) == []
  {
    forall p | p < s[0].priority ensures Class(s, p) == [] {
      ClassMembers(s, p);
      assert forall e :: e in s ==> s[0].priority <= e.priority;
    }
  }

  lemma NonEmptyClass(s: seq<Entry>)
    ensures s != [] ==> Class(s, s[0].priority) != [] && Class(s, s[0].priority)[0] == s[0]
  {}

  lemma SameTails(a: seq<Entry>, b: seq<Entry>)
    requires a != [] && b != [] && a[0] == b[0] && forall p :: Class(a, p) == Class(b, p)
    ensures forall p :: Class(a[1..], p) == Class(b[1..], p)
  {
    forall p ensures Class(a[1..], p) == Class(b[1..], p) {
      var h := if a[0].priority == p then [a[0]] else [];
      assert Class(a, p) == h + Class(a[1..], p) && Class(b, p) == h + Class(b[1..], p);
      assert Class(a[1..], p) == Class(a, p)[|h|..] == Class(b[1..], p);
    }
  }

  /** There is only one stable sort: lists that agree inside every priority are equal. */
  lemma {:induction false} StableSortUnique(a: seq<Entry>, b: seq<Entry>)
    requires Sorted(a) && Sorted(b) && forall p :: Class(a, p) == Class(b, p)
    ensures a == b
  {
    NonEmptyClass(a);
    NonEmptyClass(b);
    if a != [] && b != [] {
      SortedHead(a);
      SortedHead(b);
      SameTails(a, b);
      StableSortUnique(a[1..], b[1..]);
      assert a == [a[0]] + a[1..] && b == [b[0]] + b[1..];
    }
  }

  // ---------- the three operations ----------

  lemma {:induction false} InsertMembers(list: seq<Entry>, e: Entry)
    ensures multiset(Insert(list, e)) == multiset(list) + multiset{e}
  {
    if list == [] || list[0].priority > e.priority {
    } else {
      InsertMembers(list[1..], e);
      assert list == [list[0]] + list[1..];
    }
  }

  lemma {:induction false} InsertSorted(list: seq<Entry>, e: Entry)
    requires Sorted(list)
    ensures Sorted(Insert(list, e))
  {
    if list != [] && list[0].priority <= e.priority {
      InsertSorted(list[1..], e);
      InsertMembers(list[1..], e);
      forall x | x in Insert(list[1..], e) ensures list[0].priority <= x.priority {
        assert x in multiset(Insert(list[1..], e));
      }
    }
  }

  lemma {:induction false} InsertClass(list: seq<Entry>, e: Entry, p: int)
    requires Sorted(list)
    ensures Class(Insert(list, e), p) == Class(list, p) + if e.priority == p then [e] else []
  {
    if list == [] || list[0].priority > e.priority {
      assert ([e] + list)[1..] == list;
      if list != [] {
        SortedHead(list);
      }
    } else {
      InsertClass(list[1..], e, p);
      assert Insert(list, e)[1..] == Insert(list[1..], e);
    }
  }

  /** Registering on the list is appending to the pending registrations. */
  lemma RegisterStable(list: seq<Entry>, pending: seq<Entry>, e: Entry)
    requires IsStableSort(list, pending)
    ensures IsStableSort(Insert(list, e), pending + [e])
  {
    InsertSorted(list, e);
    forall p ensures Class(Insert(list, e), p) == Class(pending + [e], p) {
      InsertClass(list, e, p);
      ClassAppend(pending, [e], p);
    }
  }

  /** Entry `i` goes before entry `j`: smaller priority number, or registered earlier. */
  predicate Before(s: seq<Entry>, i: nat, j: nat)
    requires i < |s| && j < |s|
  {
    s[i].priority < s[j].priority || (s[i].priority == s[j].priority && i <= j)
  }

  /** The pending entry of that name that goes before all others of that name. */
  ghost predicate IsLeastNamed(s: seq<Entry>, name: string, i: nat) {
    && i < |s| && s[i].name == name
    && forall j :: 0 <= j < |s| && s[j].name == name ==> Before(s, i, j)
  }

  lemma IsFirstNamed(s: seq<Entry>, name: string, k: nat)
    requires k < |s| && s[k].name == name && forall i :: 0 <= i < k ==> s[i].name != name
    ensures HasName(s, name) && FirstNamed(s, name) == k
  {}

  /** Removing the first entry of a name from its class. */
  lemma RemoveFromClass(s: seq<Entry>, i: nat, p: int)
    requires i < |s| && forall j :: 0 <= j < i ==> s[j].priority == s[i].priority ==> s[j].name != s[i].name
    ensures s[i].priority != p ==> Class(RemoveAt(s, i), p) == Class(s, p)
    ensures s[i].priority == p ==> HasName(Class(s, p), s[i].name)
    ensures s[i].priority == p ==> var k := FirstNamed(Class(s, p), s[i].name);
              Class(s, p)[k] == s[i] && Class(RemoveAt(s, i), p) == RemoveAt(Class(s, p), k)
  {
    var a, e, b := s[..i], s[i], s[i + 1..];
    assert s == a + [e] + b;
    ClassMiddle(a, e, b, p);
    ClassAppend(a, b, p);
    if e.priority == p {
      RemoveNamed(Class(a, p), e, Class(b, p)) by {
        ClassMembers(a, p);
        assert forall x :: x in a && x.priority == p ==> x.name != e.name;
      }
    } else {
      assert Class(a, p) + [] + Class(b, p) == Class(a, p) + Class(b, p);
    }
  }

  lemma RemoveNamed(a: seq<Entry>, e: Entry, b: seq<Entry>)
    requires forall x :: x in a ==> x.name != e.name
    ensures var s := a + [e] + b;
            HasName(s, e.name) && s[FirstNamed(s, e.name)] == e && RemoveAt(s, FirstNamed(s, e.name)) == a + b
  {
    IsFirstNamed(a + [e] + b, e.name, |a|);
  }

  lemma SameMembers(list: seq<Entry>, pending: seq<Entry>, e: Entry)
    requires IsStableSort(list, pending)
    ensures e in list <==> e in pending
  {
    ClassMembers(list, e.priority);
    ClassMembers(pending, e.priority);
    assert Class(list, e.priority) == Class(pending, e.priority);
  }

  /** The first entry of a name in the list is the least pending registration of that name. */
  lemma ByNamePicksLeast(list: seq<Entry>, pending: seq<Entry>, name: string, i: nat)
    requires IsStableSort(list, pending) && IsLeastNamed(pending, name, i)
    ensures HasName(list, name)
    ensures list[FirstNamed(list, name)] == pending[i]
  {
    SameMembers(list, pending, pending[i]);
    var at :| 0 <= at < |list| && list[at] == pending[i];
    var k := FirstNamed(list, name);
    SameMembers(list, pending, list[k]);
    var i' :| 0 <= i' < |pending| && pending[i'] == list[k];
    assert Before(pending, i, i');
    var q := list[k].priority;
    assert pending[i].priority == q;
    RemoveFromClass(list, k, q);
    RemoveFromClass(pending, i, q);
  }

  lemma RemoveSorted(s: seq<Entry>, i: nat)
    requires i < |s| && Sorted(s)
    ensures Sorted(RemoveAt(s, i))
  {
    var r := RemoveAt(s, i);
    assert forall k :: 0 <= k < |r| ==> r[k] == s[if k < i then k else k + 1];
  }

  /** ShutdownByName leaves the stable sort of the other pending registrations. */
  lemma ByNameStable(list: seq<Entry>, pending: seq<Entry>, name: string, i: nat)
    requires IsStableSort(list, pending) && IsLeastNamed(pending, name, i) && HasName(list, name)
    ensures IsStableSort(RemoveAt(list, FirstNamed(list, name)), RemoveAt(pending, i))
  {
    ByNamePicksLeast(list, pending, name, i);
    var k := FirstNamed(list, name);
    RemoveSorted(list, k);
    forall p ensures Class(RemoveAt(list, k), p) == Class(RemoveAt(pending, i), p) {
      RemoveFromClass(list, k, p);
      RemoveFromClass(pending, i, p);
      assert Class(list, p) == Class(pending, p);
    }
  }

  lemma NoNameStable(list: seq<Entry>, pending: seq<Entry>, name: string)
    requires IsStableSort(list, pending)
    ensures HasName(list, name) <==> HasName(pending, name)
  {
    if HasName(list, name) {
      SameMembers(list, pending, list[FirstNamed(list, name)]);
    }
    if HasName(pending, name) {
      SameMembers(list, pending, pending[FirstNamed(pending, name)]);
    }
  }
}
