/**
src/kernel/queues.c: the doubly linked queue.  Ghost fields give its nodes and its contents in queue order;
each operation is proved against `QueueSpec`.
*/
module Queues {
  import opened Options
  import opened QueueSpec
  import opened Types

  class Qnode<T> {
    var prev: Qnode?<T>
    var next: Qnode?<T>
    var data: T
    var key: Key

    constructor (data: T, key: Key)
      ensures this.data == data && this.key == key
    {
      this.data, this.key := data, key;
      prev, next := null, null;
    }
  }

  ghost predicate Distinct<T>(ns: seq<Qnode<T>>) {
    forall i, j :: 0 <= i < j < |ns| ==> ns[i] != ns[j]
  }

  ghost function Prev<T>(ns: seq<Qnode<T>>, i: int): Qnode?<T> {
    if 0 < i <= |ns| then ns[i - 1] else null
  }

  ghost function Next<T>(ns: seq<Qnode<T>>, i: int): Qnode?<T> {
    if 0 <= i + 1 < |ns| then ns[i + 1] else null
  }

  ghost function With<T>(s: seq<T>, p: nat, x: T): seq<T>
    requires p <= |s|
  {
    s[..p] + [x] + s[p..]
  }

  lemma WithAt<T>(s: seq<T>, p: nat, x: T, i: nat)
    requires p <= |s| && i <= |s|
    ensures |With(s, p, x)| == |s| + 1 && With(s, p, x)[i] == if i < p then s[i] else if i == p then x else s[i - 1]
  {
  }

  lemma WithoutAt<T>(s: seq<T>, p: nat, i: nat)
    requires p < |s| && i + 1 < |s|
    ensures |Without(s, p)| == |s| - 1 && Without(s, p)[i] == if i < p then s[i] else s[i + 1]
  {
  }

  lemma WithIsDistinct<T>(ns: seq<Qnode<T>>, p: nat, qn: Qnode<T>)
    requires Distinct(ns) && p <= |ns| && qn !in ns
    ensures Distinct(With(ns, p, qn))
  {
    forall i: nat | i <= |ns| ensures With(ns, p, qn)[i] == if i < p then ns[i] else if i == p then qn else ns[i - 1] {
      WithAt(ns, p, qn, i);
    }
  }

  lemma WithoutIsDistinct<T>(ns: seq<Qnode<T>>, p: nat)
    requires Distinct(ns) && p < |ns|
    ensures Distinct(Without(ns, p))
  {
    forall i: nat | i + 1 < |ns| ensures Without(ns, p)[i] == if i < p then ns[i] else ns[i + 1] {
      WithoutAt(ns, p, i);
    }
  }

  // A node's neighbours after qn has been put at position p.
  lemma WithLinks<T>(ns: seq<Qnode<T>>, p: nat, qn: Qnode<T>, i: nat)
    requires p <= |ns| && i <= |ns|
    ensures var s := With(ns, p, qn);
      && Prev(s, i) == (if i <= p then Prev(ns, i) else if i == p + 1 then qn else Prev(ns, i - 1))
      && Next(s, i) == (if i + 1 < p then Next(ns, i) else if i + 1 == p then qn else Next(ns, i - 1))
  {
    if i > 0 { WithAt(ns, p, qn, i - 1); }
    if i < |ns| { WithAt(ns, p, qn, i + 1); }
  }

  // A node's neighbours after the node at position p has been taken out.
  lemma WithoutLinks<T>(ns: seq<Qnode<T>>, p: nat, i: nat)
    requires p < |ns| && i + 1 < |ns|
    ensures var s := Without(ns, p);
      && Prev(s, i) == (if i <= p then Prev(ns, i) else Prev(ns, i + 1))
      && Next(s, i) == (if i + 1 < p then Next(ns, i) else if i + 1 == p then Next(ns, p) else Next(ns, i + 1))
  {
    if i > 0 { WithoutAt(ns, p, i - 1); }
    if i + 2 < |ns| { WithoutAt(ns, p, i + 1); }
  }

  class Queue<T> {
    var head: Qnode?<T>
    var tail: Qnode?<T>
    const compare: Order
    ghost var nodes: seq<Qnode<T>>
    ghost var contents: seq<Item<T>>

    ghost predicate Valid()
      reads this, nodes
    {
      && Distinct(nodes) && |contents| == |nodes|
      && head == (if nodes == [] then null else nodes[0])
      && tail == (if nodes == [] then null else nodes[|nodes| - 1])
      && forall i :: 0 <= i < |nodes| ==> NodeOk(nodes, contents, i)
    }

    ghost predicate NodeOk(ns: seq<Qnode<T>>, items: seq<Item<T>>, i: nat)
      requires i < |ns| == |items|
      reads ns
    {
      && ns[i].prev == Prev(ns, i) && ns[i].next == Next(ns, i)
      && Item(ns[i].key, ns[i].data) == items[i]
    }

    // _q_alloc
    constructor (compare: Order)
      ensures Valid() && contents == [] && nodes == [] && this.compare == compare
    {
      head, tail := null, null;
      this.compare := compare;
      nodes, contents := [], [];
    }

    // _q_status
    method IsEmpty() returns (empty: bool)
      requires Valid()
      ensures empty <==> contents == []
    {
      empty := head == null;
    }

    // _q_peek
    method Peek() returns (status: Status, key: Key)
      requires Valid()
      ensures status == if contents == [] then EmptyQueue else Success
      ensures contents != [] ==> key == contents[0].key
    {
      if head == null {
        return EmptyQueue, 0;
      }
      assert NodeOk(nodes, contents, 0);
      return Success, head.key;
    }

    // _q_insert
    method Insert(data: T, key: Key)
      requires Valid()
      modifies this, nodes
      ensures Valid() && (forall n :: n in nodes ==> n in old(nodes) || fresh(n))
      ensures contents == QueueSpec.Insert(compare, old(contents), Item(key, data))
    {
      var qn := new Qnode(data, key);
      if compare != Unordered {
        var curr, p := FindPlace(key);
        if curr != null {
          LinkBefore(qn, curr, p);
          return;
        }
      }
      LinkLast(qn);
    }

    // The search loop of _q_insert.
    method FindPlace(key: Key) returns (curr: Qnode?<T>, ghost p: nat)
      requires Valid()
      ensures |nodes| == |contents| && p == Passed(compare, contents, key)
      ensures curr == if Passed(compare, contents, key) == |nodes| then null else nodes[Passed(compare, contents, key)]
    {
      curr := head;
      p := 0;
      while curr != null && AtMost(compare, curr.key, key)
        invariant 0 <= p <= |nodes| && curr == if p == |nodes| then null else nodes[p]
        invariant forall i :: 0 <= i < p ==> AtMost(compare, contents[i].key, key)
        decreases |nodes| - p
      {
        assert NodeOk(nodes, contents, p);
        curr := curr.next;
        p := p + 1;
      }
      if p < |nodes| { assert NodeOk(nodes, contents, p); }
      PassedIs(compare, contents, key, p);
    }

    method LinkBefore(qn: Qnode<T>, curr: Qnode<T>, ghost p: nat)
      requires Valid() && p < |nodes| && nodes[p] == curr && qn !in nodes
      modifies this`head, this`nodes, this`contents, nodes`prev, nodes`next, qn`prev, qn`next
      ensures Valid() && nodes == With(old(nodes), p, qn) && contents == With(old(contents), p, Item(qn.key, qn.data))
    {
      ghost var ns, items := nodes, contents;
      assert NodeOk(ns, items, p);
      assert p > 0 ==> NodeOk(ns, items, p - 1);
      qn.prev := curr.prev;
      qn.next := curr;
      if curr.prev == null {
        head := qn;
      } else {
        curr.prev.next := qn;
      }
      curr.prev := qn;
      nodes, contents := With(ns, p, qn), With(items, p, Item(qn.key, qn.data));
      WithIsDistinct(ns, p, qn);
      forall i: nat | i < |nodes| ensures NodeOk(nodes, contents, i) {
        WithAt(ns, p, qn, i);
        WithAt(items, p, Item(qn.key, qn.data), i);
        WithLinks(ns, p, qn, i);
        if i != p {
          assert old(NodeOk(ns, items, if i < p then i else i - 1));
        }
      }
      WithAt(ns, p, qn, 0);
      WithAt(ns, p, qn, |ns|);
    }

    method LinkLast(qn: Qnode<T>)
      requires Valid() && qn !in nodes
      modifies this`head, this`tail, this`nodes, this`contents, nodes`next, qn`prev, qn`next
      ensures Valid() && nodes == old(nodes) + [qn] && contents == old(contents) + [Item(qn.key, qn.data)]
    {
      ghost var ns, items := nodes, contents;
      qn.prev := tail;
      qn.next := null;
      if tail == null {
        head := qn;
      } else {
        tail.next := qn;
      }
      tail := qn;
      nodes, contents := ns + [qn], items + [Item(qn.key, qn.data)];
      forall i: nat | i < |nodes| ensures NodeOk(nodes, contents, i) {
        if i < |ns| { assert old(NodeOk(ns, items, i)); }
      }
    }

    // _q_remove
    method Remove() returns (status: Status, data: Option<T>)
      requires Valid()
      modifies this, nodes
      ensures Valid() && (forall n :: n in nodes ==> n in old(nodes))
      ensures if old(contents) == [] then status == EmptyQueue && data == None && contents == []
              else status == Success && data == Some(old(contents)[0].data) && contents == old(contents)[1..]
    {
      if head == null {
        return EmptyQueue, None;
      }
      ghost var ns, items := nodes, contents;
      assert NodeOk(ns, items, 0);
      var qn := head;
      head := qn.next;
      if head == null {
        tail := null;
      } else {
        head.prev := null;
      }
      nodes, contents := nodes[1..], contents[1..];
      forall i: nat | i < |nodes| ensures NodeOk(nodes, contents, i) {
        assert old(NodeOk(ns, items, i + 1));
      }
      return Success, Some(qn.data);
    }

    // _q_delete_node
    method DeleteNode(qn: Qnode<T>, ghost p: nat)
      requires Valid() && p < |nodes| && nodes[p] == qn
      modifies this`head, this`tail, this`nodes, this`contents, nodes`prev, nodes`next
      ensures Valid() && nodes == Without(old(nodes), p) && contents == Without(old(contents), p)
    {
      ghost var ns, items := nodes, contents;
      assert NodeOk(ns, items, p);
      if qn.prev == null {
        head := qn.next;
      } else {
        qn.prev.next := qn.next;
      }
      if qn.next == null {
        tail := qn.prev;
      } else {
        qn.next.prev := qn.prev;
      }
      nodes, contents := Without(ns, p), Without(items, p);
      WithoutIsDistinct(ns, p);
      forall i: nat | i < |nodes| ensures NodeOk(nodes, contents, i) {
        WithoutAt(ns, p, i);
        WithoutAt(items, p, i);
        WithoutLinks(ns, p, i);
        assert old(NodeOk(ns, items, if i < p then i else i + 1));
      }
      if nodes != [] {
        WithoutAt(ns, p, 0);
        WithoutAt(ns, p, |nodes| - 1);
      }
    }

    // The search loops of _q_remove_by_key, _q_get_by_key and _q_remove_selected.
    method Find(wanted: Item<T> -> bool) returns (qn: Qnode?<T>, ghost i: nat)
      requires Valid()
      ensures match First(contents, wanted)
        case None => qn == null
        case Some(k) => i == k && k < |nodes| && qn == nodes[k] && qn.data == contents[k].data
    {
      qn := head;
      i := 0;
      while qn != null && !wanted(Item(qn.key, qn.data))
        invariant 0 <= i <= |nodes| && qn == if i == |nodes| then null else nodes[i]
        invariant forall j :: 0 <= j < i ==> !wanted(contents[j])
        decreases |nodes| - i
      {
        assert NodeOk(nodes, contents, i);
        qn := qn.next;
        i := i + 1;
      }
      if qn == null {
        FirstIsNone(contents, wanted);
      } else {
        assert NodeOk(nodes, contents, i);
        FirstIs(contents, wanted, i);
      }
    }

    // _q_get_by_key
    method GetByKey(key: Key) returns (status: Status, data: Option<T>)
      requires Valid()
      ensures match Position(contents, key)
        case None => status == (if contents == [] then EmptyQueue else NotFound) && data == None
        case Some(k) => status == Success && data == Some(contents[k].data)
    {
      if head == null {
        return EmptyQueue, None;
      }
      PositionIsFirst(contents, key, (x: Item<T>) => x.key == key);
      var qn, i := Find((x: Item<T>) => x.key == key);
      if qn == null {
        return NotFound, None;
      }
      return Success, Some(qn.data);
    }

    // _q_remove_by_key
    method RemoveByKey(key: Key) returns (status: Status, data: Option<T>)
      requires Valid()
      modifies this, nodes
      ensures Valid()
      ensures match Position(old(contents), key)
        case None =>
          status == (if old(contents) == [] then EmptyQueue else NotFound) && data == None && contents == old(contents)
        case Some(k) =>
          status == Success && data == Some(old(contents)[k].data) && contents == Without(old(contents), k)
    {
      PositionIsFirst(contents, key, (x: Item<T>) => x.key == key);
      status, data := RemoveSelected((x: Item<T>) => x.key == key);
    }

    // _q_remove_selected, where selected(x) stands for compare(x, lookfor) == 0
    method RemoveSelected(selected: Item<T> -> bool) returns (status: Status, data: Option<T>)
      requires Valid()
      modifies this, nodes
      ensures Valid()
      ensures match First(old(contents), selected)
        case None =>
          status == (if old(contents) == [] then EmptyQueue else NotFound) && data == None && contents == old(contents)
        case Some(k) =>
          && status == Success && data == Some(old(contents)[k].data) && contents == Without(old(contents), k)
          && multiset(old(contents)) == multiset(contents) + multiset{old(contents)[k]}
    {
      if head == null {
        return EmptyQueue, None;
      }
      var qn, i := Find(selected);
      if qn == null {
        return NotFound, None;
      }
      data := Some(qn.data);
      WithoutIsPermutation(contents, i);
      DeleteNode(qn, i);
      status := Success;
    }
  }
}
