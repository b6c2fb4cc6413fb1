/** The generic singly linked list with head, tail and size (pkg/data_struct/linked_list.go), and its
    reversal in place (pkg/data_struct/ll_test.go:22-33). */
module LinkedLists {
  import opened Options

  class Node<T> {
    const value: T
    var next: Node?<T>

    constructor (value: T)
      ensures this.value == value && next == null
    {
      this.value := value;
      next := null;
    }
  }

  function Values<T>(nodes: seq<Node<T>>): (s: seq<T>)
    ensures |s| == |nodes| && forall i :: 0 <= i < |s| ==> s[i] == nodes[i].value
  {
    seq(|nodes|, i requires 0 <= i < |nodes| => nodes[i].value)
  }

  // ---------- the sequence the list stands for ----------

  datatype Op<T> =
    | PushFront(value: T)
    | PushBack(value: T)
    | PopFront
    | PopBack
    | Get(index: int)
    | Insert(index: int, value: T)
    | Remove(index: int)

  /** The new sequence and the reply: `None` is an error, or no reply for a push. */
  datatype Outcome<T> = Outcome(s: seq<T>, ok: bool, reply: Option<T>)

  function Step<T>(s: seq<T>, op: Op<T>): Outcome<T> {
    match op
    case PushFront(v) => Outcome([v] + s, true, None)
    case PushBack(v) => Outcome(s + [v], true, None)
    case PopFront => if s == [] then Outcome(s, false, None) else Outcome(s[1..], true, Some(s[0]))
    case PopBack =>
      if s == [] then Outcome(s, false, None) else Outcome(s[..|s| - 1], true, Some(s[|s| - 1]))
    case Get(i) => if 0 <= i < |s| then Outcome(s, true, Some(s[i])) else Outcome(s, false, None)
    case Insert(i, v) =>
      if 0 <= i <= |s| then Outcome(s[..i] + [v] + s[i..], true, None) else Outcome(s, false, None)
    case Remove(i) =>
      if 0 <= i < |s| then Outcome(s[..i] + s[i + 1..], true, Some(s[i])) else Outcome(s, false, None)
  }

  datatype Reply<T> = Reply(ok: bool, value: Option<T>)

  function Run<T>(s: seq<T>, ops: seq<Op<T>>): seq<T> {
    if ops == [] then s else Step(Run(s, ops[..|ops| - 1]), ops[|ops| - 1]).s
  }

  function Replies<T>(s: seq<T>, ops: seq<Op<T>>): seq<Reply<T>> {
    if ops == [] then []
    else
      var before := ops[..|ops| - 1];
      var o := Step(Run(s, before), ops[|ops| - 1]);
      Replies(s, before) + [Reply(o.ok, o.reply)]
  }

  class LinkedList<T> {
    var head: Node?<T>
    var tail: Node?<T>
    var size: nat
    ghost var nodes: seq<Node<T>>

    /** Head, tail and size agree with the chain `nodes`, which ends and repeats no node. */
    ghost predicate Valid()
      reads this, nodes
    {
      && size == |nodes|
      && (nodes == [] ==> head == null && tail == null)
      && (nodes != [] ==> head == nodes[0] && tail == nodes[|nodes| - 1] && nodes[|nodes| - 1].next == null)
      && (forall i {:trigger nodes[i].next} :: 0 <= i < |nodes| - 1 ==> nodes[i].next == nodes[i + 1])
      && (forall i, j :: 0 <= i < j < |nodes| ==> nodes[i] != nodes[j])
    }

    ghost function Contents(): seq<T>
      reads this
    {
      Values(nodes)
    }

    constructor ()
      ensures Valid() && Contents() == []
    {
      head, tail, size, nodes := null, null, 0, [];
    }

    method PushFront(value: T)
      requires Valid()
      modifies this
      ensures Valid() && |nodes| > 0 && fresh(nodes[0]) && nodes == [nodes[0]] + old(nodes)
      ensures nodes[0].value == value
      ensures Contents() == Step(old(Contents()), Op.PushFront(value)).s
    {
      var added := new Node(value);
      if size == 0 {
        head := added;
        tail := added;
      } else {
        added.next := head;
        head := added;
      }
      size := size + 1;
      nodes := [added] + nodes;
    }

    method PushBack(value: T)
      requires Valid()
      modifies this, nodes
      ensures Valid() && |nodes| > 0 && fresh(nodes[|nodes| - 1]) && nodes == old(nodes) + [nodes[|nodes| - 1]]
      ensures nodes[|nodes| - 1].value == value
      ensures Contents() == Step(old(Contents()), Op.PushBack(value)).s
    {
      var added := new Node(value);
      if size == 0 {
        head := added;
        tail := added;
      } else {
        tail.next := added;
        tail := added;
      }
      size := size + 1;
      nodes := nodes + [added];
    }

    method PopFront() returns (r: Option<T>)
      requires Valid()
      modifies this
      ensures Valid() && nodes == if old(nodes) == [] then [] else old(nodes)[1..]
      ensures r == if old(nodes) == [] then None else Some(old(nodes)[0].value)
      ensures var o := Step(old(Contents()), Op.PopFront); Contents() == o.s && r == o.reply
    {
      if size == 0 {
        return None;
      }
      r := Some(head.value);
      head := head.next;
      size := size - 1;
      nodes := nodes[1..];
      if size == 0 {
        tail := null;
      }
    }

    method PopBack() returns (r: Option<T>)
      requires Valid()
      modifies this, nodes
      ensures Valid() && nodes == if old(nodes) == [] then [] else old(nodes)[..|old(nodes)| - 1]
      ensures r == if old(nodes) == [] then None else Some(old(nodes)[|old(nodes)| - 1].value)
      ensures var o := Step(old(Contents()), Op.PopBack); Contents() == o.s && r == o.reply
    {
      if size == 0 {
        return None;
      }
      if head == tail {
        r := Some(head.value);
        assert |nodes| == 1;
        head := null;
        tail := null;
        size := 0;
        nodes := [];
        return;
      }
      var current := BeforeTail();
      r := Some(tail.value);
      CutTail(current);
    }

    /** The walk of PopBack. */
    method BeforeTail() returns (current: Node<T>)
      requires Valid() && |nodes| > 1
      ensures current == nodes[|nodes| - 2]
    {
      current := head;
      ghost var at := 0;
      while current.next != null && current.next != tail
        invariant at <= |nodes| - 2 && current == nodes[at]
        decreases |nodes| - at
      {
        current := current.next;
        at := at + 1;
      }
    }

    method CutTail(current: Node<T>)
      requires Valid() && |nodes| > 1 && current == nodes[|nodes| - 2]
      modifies this, current
      ensures Valid() && nodes == old(nodes)[..|old(nodes)| - 1]
    {
      current.next := null;
      tail := current;
      size := size - 1;
      nodes := nodes[..|nodes| - 1];
    }

    /** The walk shared by Get, Insert and Remove: `index` steps from the head. */
    method NodeAt(index: nat) returns (current: Node<T>)
      requires Valid() && index < |nodes|
      ensures current == nodes[index]
    {
      current := head;
      for i := 0 to index
        invariant current == nodes[i]
      {
        current := current.next;
      }
    }

    method Get(index: int) returns (r: Option<T>)
      requires Valid()
      ensures r == if 0 <= index < |nodes| then Some(nodes[index].value) else None
      ensures r == Step(Contents(), Op.Get(index)).reply
    {
      if index < 0 || index >= size {
        return None;
      }
      var current := NodeAt(index);
      r := Some(current.value);
    }

    method Insert(index: int, value: T) returns (ok: bool)
      requires Valid()
      modifies this, nodes
      ensures Valid() && ok == (0 <= index <= |old(nodes)|)
      ensures !ok ==> nodes == old(nodes)
      ensures ok ==> index < |nodes| && fresh(nodes[index]) && nodes[index].value == value
      ensures ok ==> nodes == old(nodes)[..index] + [nodes[index]] + old(nodes)[index..]
      ensures Contents() == Step(old(Contents()), Op.Insert(index, value)).s
    {
      if index < 0 || index > size {
        return false;
      }
      ghost var was := nodes;
      ok := true;
      if index == 0 {
        PushFront(value);
        InsertedValues(was, nodes[0], 0);
      } else if index == size {
        PushBack(value);
        InsertedValues(was, nodes[index], index);
      } else {
        InsertInside(index, value);
      }
    }

    /** Insert at neither end. */
    method InsertInside(index: nat, value: T)
      requires Valid() && 0 < index < |nodes|
      modifies this, nodes
      ensures Valid() && |nodes| == |old(nodes)| + 1 && fresh(nodes[index]) && nodes[index].value == value
      ensures nodes == old(nodes)[..index] + [nodes[index]] + old(nodes)[index..]
      ensures Contents() == Step(old(Contents()), Op.Insert(index, value)).s
    {
      var added := new Node(value);
      InsertedValues(nodes, added, index);
      var current := NodeAt(index - 1);
      LinkAfter(current, index - 1, added);
    }

    method LinkAfter(current: Node<T>, ghost at: nat, added: Node<T>)
      requires Valid() && at + 1 < |nodes| && current == nodes[at] && added !in nodes
      modifies this, current, added
      ensures Valid() && nodes == old(nodes)[..at + 1] + [added] + old(nodes)[at + 1..]
    {
      added.next := current.next;
      current.next := added;
      size := size + 1;
      ghost var was := nodes;
      nodes := nodes[..at + 1] + [added] + nodes[at + 1..];
      assert forall i :: 0 <= i < |nodes| ==>
        nodes[i] == if i <= at then was[i] else if i == at + 1 then added else was[i - 1];
    }

    method Remove(index: int) returns (r: Option<T>)
      requires Valid()
      modifies this, nodes
      ensures Valid()
      ensures nodes == if 0 <= index < |old(nodes)| then old(nodes)[..index] + old(nodes)[index + 1..] else old(nodes)
      ensures r == if 0 <= index < |old(nodes)| then Some(old(nodes)[index].value) else None
      ensures var o := Step(old(Contents()), Op.Remove(index)); Contents() == o.s && r == o.reply
    {
      if index < 0 || index >= size {
        return None;
      }
      RemovedValues(nodes, index);
      if index == 0 {
        r := RemoveHead();
      } else {
        r := RemoveInside(index);
      }
    }

    method RemoveHead() returns (r: Option<T>)
      requires Valid() && nodes != []
      modifies this
      ensures Valid() && nodes == old(nodes)[1..] && r == Some(old(nodes)[0].value)
    {
      r := PopFront();
    }

    /** Remove behind the head. */
    method RemoveInside(index: nat) returns (r: Option<T>)
      requires Valid() && 0 < index < |nodes|
      modifies this, nodes
      ensures Valid() && nodes == old(nodes)[..index] + old(nodes)[index + 1..]
      ensures r == Some(old(nodes)[index].value)
    {
      var current := NodeAt(index - 1);
      r := Some(current.next.value);
      UnlinkAfter(current, index - 1);
    }

    method UnlinkAfter(current: Node<T>, ghost at: nat)
      requires Valid() && at + 1 < |nodes| && current == nodes[at]
      modifies this, current
      ensures Valid() && nodes == old(nodes)[..at + 1] + old(nodes)[at + 2..]
    {
      var removed := current.next;
      current.next := removed.next;
      size := size - 1;
      if removed == tail {
        tail := current;
      }
      ghost var was := nodes;
      nodes := nodes[..at + 1] + nodes[at + 2..];
      assert forall i :: 0 <= i < |nodes| ==> nodes[i] == if i <= at then was[i] else was[i + 1];
    }

    /** Insert followed by Remove at the same index, at every position up to and including the tail,
        leaves the same chain of the same nodes with the same head, tail and size. */
    method InsertThenRemove(index: int, value: T)
      requires Valid() && 0 <= index <= size
      modifies this, nodes
      ensures Valid() && nodes == old(nodes)
      ensures head == old(head) && tail == old(tail) && size == old(size)
    {
      ghost var was := nodes;
      InsertNode(index, value);
      RemoveInserted(was, nodes[index], index);
      RemoveNode(index);
    }

    /** What Insert and Remove do to the chain. */
    method InsertNode(index: nat, value: T)
      requires Valid() && index <= |nodes|
      modifies this, nodes
      ensures Valid() && index < |nodes| && nodes == old(nodes)[..index] + [nodes[index]] + old(nodes)[index..]
      ensures fresh(nodes[index])
    {
      var _ := Insert(index, value);
    }

    method RemoveNode(index: nat)
      requires Valid() && index < |nodes|
      modifies this, nodes
      ensures Valid() && nodes == old(nodes)[..index] + old(nodes)[index + 1..]
    {
      var _ := Remove(index);
    }

    /** One call on the list. */
    method Perform(op: Op<T>) returns (r: Reply<T>)
      requires Valid()
      modifies this, nodes
      ensures Valid() && Outcome(Contents(), r.ok, r.value) == Step(old(Contents()), op)
      ensures forall x :: x in nodes ==> x in old(nodes) || fresh(x)
    {
      match op {
        case PushFront(v) =>
          PushFront(v);
          r := Reply(true, None);
        case PushBack(v) =>
          PushBack(v);
          r := Reply(true, None);
        case PopFront =>
          var v := PopFront();
          r := Reply(v.Some?, v);
        case PopBack =>
          var v := PopBack();
          r := Reply(v.Some?, v);
        case Get(i) =>
          var v := Get(i);
          r := Reply(v.Some?, v);
        case Insert(i, v) =>
          var ok := Insert(i, v);
          r := Reply(ok, None);
        case Remove(i) =>
          var v := Remove(i);
          r := Reply(v.Some?, v);
      }
    }

    /** The reversal in place. */
    method Reverse()
      requires Valid()
      modifies this, nodes
      ensures Valid() && nodes == Reversed(old(nodes))
      ensures Contents() == Reversed(old(Contents()))
      ensures tail == old(head) && head == old(tail) && size == old(size)
    {
      ghost var n := |nodes|;
      ghost var was := nodes;
      var prev: Node?<T> := null;
      var current := head;
      tail := head;
      ghost var k := 0;
      while current != null
        invariant k <= n && nodes == was && size == n
        invariant current == if k < n then was[k] else null
        invariant prev == if k > 0 then was[k - 1] else null
        invariant head == if k > 0 then was[k - 1] else old(head)
        invariant tail == old(head)
        invariant forall i {:trigger was[i].next} :: 0 <= i < k ==> was[i].next == if i > 0 then was[i - 1] else null
        invariant forall i {:trigger was[i].next} :: k <= i < n ==>
                    was[i].next == if i + 1 < n then was[i + 1] else null
        decreases n - k
      {
        var next := current.next;
        current.next := prev;
        prev := current;
        current := next;
        head := prev;
        k := k + 1;
      }
      nodes := Reversed(was);
      ReversedValues(was);
    }
  }

  /** Any sequence of calls on a new list gives the contents and the replies of the sequence. */
  method Replay<T>(ops: seq<Op<T>>) returns (list: LinkedList<T>, replies: seq<Reply<T>>)
    ensures fresh(list) && list.Valid() && list.Contents() == Run([], ops)
    ensures replies == Replies([], ops)
  {
    list := new LinkedList();
    replies := [];
    for i := 0 to |ops|
      invariant fresh(list) && list.Valid() && list.Contents() == Run([], ops[..i])
      invariant replies == Replies([], ops[..i])
      invariant forall k :: 0 <= k < |list.nodes| ==> fresh(list.nodes[k])
    {
      var r := list.Perform(ops[i]);
      assert forall k :: 0 <= k < |list.nodes| ==> list.nodes[k] in list.nodes;
      replies := replies + [r];
      assert ops[..i + 1][..i] == ops[..i];
    }
    assert ops[..|ops|] == ops;
  }

  function Reversed<A>(s: seq<A>): (r: seq<A>)
    ensures |r| == |s| && forall i :: 0 <= i < |s| ==> r[i] == s[|s| - 1 - i]
  {
    if s == [] then [] else Reversed(s[1..]) + [s[0]]
  }

  lemma ReversedValues<T>(nodes: seq<Node<T>>)
    ensures Values(Reversed(nodes)) == Reversed(Values(nodes))
  {}

  lemma InsertedValues<T>(nodes: seq<Node<T>>, added: Node<T>, k: nat)
    requires k <= |nodes|
    ensures Values(nodes[..k] + [added] + nodes[k..]) == Values(nodes)[..k] + [added.value] + Values(nodes)[k..]
  {}

  lemma RemoveInserted<A>(s: seq<A>, x: A, k: nat)
    requires k <= |s|
    ensures var t := s[..k] + [x] + s[k..]; t[..k] + t[k + 1..] == s
  {}

  lemma RemovedValues<T>(nodes: seq<Node<T>>, k: nat)
    requires k < |nodes|
    ensures Step(Values(nodes), Op.Remove(k)) ==
            Outcome(Values(nodes[..k] + nodes[k + 1..]), true, Some(nodes[k].value))
    ensures k == 0 ==> nodes[..k] + nodes[k + 1..] == nodes[1..]
  {
    assert Values(nodes[..k] + nodes[k + 1..]) == Values(nodes)[..k] + Values(nodes)[k + 1..];
  }

  // ---------- laws of the sequence operations ----------

  /** Insert and Remove at one index undo each other, in both orders and at every position. */
  lemma InsertRemoveUndo<T>(s: seq<T>, index: int, value: T)
    ensures 0 <= index <= |s| ==>
              Step(Step(s, Op.Insert(index, value)).s, Op.Remove(index)) == Outcome(s, true, Some(value))
    ensures 0 <= index < |s| ==> Step(Step(s, Op.Remove(index)).s, Op.Insert(index, s[index])).s == s
  {
    if 0 <= index <= |s| {
      var t := s[..index] + [value] + s[index..];
      assert t[..index] == s[..index] && t[index + 1..] == s[index..];
      assert s[..index] + s[index..] == s;
    }
    if 0 <= index < |s| {
      var t := s[..index] + s[index + 1..];
      assert t[..index] == s[..index] && t[index..] == s[index + 1..];
      assert s[..index] + [s[index]] + s[index + 1..] == s;
    }
  }

  /** Get answers what Remove at that index would, and what an Insert at it has put there; it changes
      nothing. */
  lemma GetLaws<T>(s: seq<T>, index: int, value: T)
    ensures Step(s, Op.Get(index)).s == s
    ensures Step(s, Op.Get(index)).reply == Step(s, Op.Remove(index)).reply
    ensures Step(s, Op.Get(index)).ok == Step(s, Op.Remove(index)).ok
    ensures var t := Step(s, Op.Insert(index, value)).s;
            0 <= index <= |s| ==> Step(t, Op.Get(index)) == Outcome(t, true, Some(value))
  {}

  /** The pushes and pops are the inserts and removes at the two ends. */
  lemma EndsAreInsertRemove<T>(s: seq<T>, value: T)
    ensures Step(s, Op.PushFront(value)) == Step(s, Op.Insert(0, value))
    ensures Step(s, Op.PushBack(value)) == Step(s, Op.Insert(|s|, value))
    ensures Step(s, Op.PopFront) == Step(s, Op.Remove(0))
    ensures Step(s, Op.PopBack) == Step(s, Op.Remove(|s| - 1))
  {
    assert s[..0] + [value] + s[0..] == [value] + s;
    assert s[..|s|] + [value] + s[|s|..] == s + [value];
    if s != [] {
      assert s[..0] + s[1..] == s[1..];
      assert s[..|s| - 1] + s[|s|..] == s[..|s| - 1];
    }
  }

  lemma {:induction false} ReversedTwice<A>(s: seq<A>)
    ensures Reversed(Reversed(s)) == s
  {
    forall i | 0 <= i < |s| ensures Reversed(Reversed(s))[i] == s[i] {
      assert Reversed(Reversed(s))[i] == Reversed(s)[|s| - 1 - i];
    }
  }
}
