/**
The ready queues of src/kernel/scheduler.c as linked queues, no two of which share a node: scheduling and taking a
process on them is what the step functions of `Processes` do to sequences.
*/
module ReadyQueues {
  import opened Options
  import opened QueueSpec
  import opened Queues
  import opened Processes
  import opened Types

  // The processes on a queue
  ghost function Data(s: seq<Item<Id>>): (r: seq<Id>)
    ensures |r| == |s| && forall i :: 0 <= i < |s| ==> r[i] == s[i].data
  {
    seq(|s|, i requires 0 <= i < |s| => s[i].data)
  }

  lemma DataAppend(s: seq<Item<Id>>, x: Item<Id>)
    ensures Data(Insert(Unordered, s, x)) == Data(s) + [x.data]
  {
  }

  lemma DataTail(s: seq<Item<Id>>)
    requires s != []
    ensures Data(s[1..]) == Data(s)[1..] && Data(s)[0] == s[0].data
  {
  }

  // The queue is in order, and shares no node with the others.
  ghost predicate QueueOk(queues: seq<Queue<Id>>, q: nat)
    requires q < |queues|
    reads queues, queues[q].nodes
  {
    && queues[q].Valid() && queues[q].compare == Unordered
    && forall r, n :: 0 <= r < |queues| && r != q && n in queues[q].nodes ==>
         queues[r] != queues[q] && n !in queues[r].nodes
  }

  ghost predicate IsEmptyQueue(queue: Queue<Id>)
    reads queue, queue.nodes
  {
    queue.Valid() && queue.compare == Unordered && queue.nodes == []
  }

  // _ready
  class Ready {
    const queues: seq<Queue<Id>>

    ghost function Nodes(): set<object>
      reads queues
    {
      set q, n | 0 <= q < |queues| && n in queues[q].nodes :: n
    }

    ghost predicate Valid()
      reads queues, Nodes()
    {
      && |queues| == N_PRIOS && (forall q, r :: 0 <= q < r < N_PRIOS ==> queues[q] != queues[r])
      && forall q :: 0 <= q < N_PRIOS ==> assert forall n :: n in queues[q].nodes ==> n in Nodes(); QueueOk(queues, q)
    }

    ghost function Lists(): ReadyTable
      requires |queues| == N_PRIOS
      reads queues
    {
      [Data(queues[0].contents), Data(queues[1].contents), Data(queues[2].contents), Data(queues[3].contents)]
    }

    // _sched_init
    constructor ()
      ensures Valid() && Lists() == [[], [], [], []] && forall q :: 0 <= q < N_PRIOS ==> fresh(queues[q])
    {
      var q0 := new Queue<Id>(Unordered);
      var q1 := new Queue<Id>(Unordered);
      var q2 := new Queue<Id>(Unordered);
      var q3 := new Queue<Id>(Unordered);
      queues := [q0, q1, q2, q3];
      new;
      EmptyIsValid(q0, q1, q2, q3);
    }

    lemma EmptyIsValid(q0: Queue<Id>, q1: Queue<Id>, q2: Queue<Id>, q3: Queue<Id>)
      requires queues == [q0, q1, q2, q3] && q0 != q1 && q0 != q2 && q0 != q3 && q1 != q2 && q1 != q3 && q2 != q3
      requires IsEmptyQueue(q0) && IsEmptyQueue(q1) && IsEmptyQueue(q2) && IsEmptyQueue(q3)
      ensures Valid() && Lists() == [[], [], [], []]
    {
      forall q: nat | q < N_PRIOS ensures QueueOk(queues, q) && Data(queues[q].contents) == [] {
        assert IsEmptyQueue(queues[q]);
      }
    }

    // A change of one queue that takes only new nodes in leaves the others as they were.
    twostate lemma OthersStay(q: nat)
      requires old(Valid()) && q < N_PRIOS && queues[q].Valid() && forall n :: n in queues[q].nodes ==>
        n in old(queues[q].nodes) || fresh(n)
      requires forall r :: 0 <= r < N_PRIOS && r != q ==> queues[r].Valid() && queues[r].nodes == old(queues[r].nodes)
      ensures Valid()
    {
      forall r: nat | r < N_PRIOS ensures QueueOk(queues, r) {
        assert old(QueueOk(queues, r)) && old(QueueOk(queues, q));
      }
    }

    twostate lemma OtherListsStay(q: nat)
      requires |queues| == N_PRIOS && q < N_PRIOS
      requires forall r :: 0 <= r < N_PRIOS && r != q ==> queues[r].contents == old(queues[r].contents)
      ensures Lists() == old(Lists())[q := Data(queues[q].contents)]
    {
    }

    twostate lemma StaysValid(r: nat)
      requires r < |queues| && old(queues[r].Valid()) && unchanged(queues[r])
      requires forall n :: n in old(queues[r].nodes) ==>
        n.prev == old(n.prev) && n.next == old(n.next) && n.key == old(n.key) && n.data == old(n.data)
      ensures queues[r].Valid()
    {
      var s := queues[r];
      forall i: nat | i < |s.nodes| ensures s.NodeOk(s.nodes, s.contents, i) {
        assert s.nodes[i] in s.nodes && old(s.NodeOk(s.nodes, s.contents, i));
      }
    }

    // The insertion of _sched
    method Add(i: Id, priority: nat, ghost p: Proc)
      requires Valid() && Lists() == p.ready && priority == p.pcbs[i].priority < N_PRIOS
      modifies queues[priority], queues[priority].nodes
      ensures Valid() && Lists() == Sched(p, i).ready
    {
      assert QueueOk(queues, priority);
      DataAppend(queues[priority].contents, Item(0, i));
      queues[priority].Insert(i, 0);
      forall r: nat | r < N_PRIOS && r != priority ensures queues[r].Valid() {
        assert old(QueueOk(queues, r));
        StaysValid(r);
      }
      OthersStay(priority);
      OtherListsStay(priority);
    }

    // The removal of _dispatch
    method TakeFirst(q: nat, ghost p: Proc) returns (empty: bool, i: Id)
      requires Valid() && Lists() == p.ready && q < N_PRIOS
      modifies queues[q], queues[q].nodes
      ensures Valid() && (empty <==> p.ready[q] == [])
      ensures if empty then Lists() == p.ready else Lists() == Take(p, q).ready && i == Take(p, q).current
    {
      i := 0;
      assert QueueOk(queues, q) && |p.ready[q]| == |queues[q].contents|;
      empty := queues[q].IsEmpty();
      if !empty {
        DataTail(queues[q].contents);
        var status, data := queues[q].Remove();
        i := data.value;
        forall r: nat | r < N_PRIOS && r != q ensures queues[r].Valid() {
          assert old(QueueOk(queues, r));
          StaysValid(r);
        }
        OthersStay(q);
        OtherListsStay(q);
      }
    }
  }
}
