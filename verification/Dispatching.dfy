/**
Whom _dispatch (src/kernel/scheduler.c) chooses: the first ready process that has not been killed, by priority and
then by time of arrival; the killed ones before it go back to the pool.
*/
module Dispatching {
  import opened Options
  import opened Processes
  import opened ProcessSafety

  // The ready processes in the order in which they are to run.
  function InOrder(lists: seq<seq<Id>>): seq<Id> { if lists == [] then [] else lists[0] + InOrder(lists[1..]) }

  ghost predicate IsKilled(p: Proc, i: Id) { p.pcbs[i].state == Killed }

  // r is p after the first n processes of `order` have been cleaned up and the next one has been made current.
  ghost predicate Chosen(p: Proc, order: seq<Id>, n: nat, r: Proc) {
    && n < |order| && (forall i :: 0 <= i < n ==> IsKilled(p, order[i])) && !IsKilled(p, order[n])
    && r == p.(pcbs := r.pcbs, pool := p.pool + order[..n], ready := r.ready, current := order[n])
    && InOrder(r.ready) == order[n + 1..]
    && forall x: Id :: r.pcbs[x] == ChosenPcb(p.pcbs[x], x == order[n], x in order[..n])
  }

  function ChosenPcb(pcb: Pcb, chosen: bool, passed: bool): Pcb {
    if chosen then pcb.(state := Running, quantum := STD_QUANTUM) else if passed then pcb.(state := Free) else pcb
  }

  lemma {:induction false} EmptyPrefix(lists: seq<seq<Id>>, q: nat)
    requires q < |lists| && forall i :: 0 <= i < q ==> lists[i] == []
    ensures InOrder(lists) == lists[q] + InOrder(lists[q + 1..])
  {
    if q > 0 {
      EmptyPrefix(lists[1..], q - 1);
      assert lists[1..][q..] == lists[q + 1..];
    }
  }

  lemma {:induction false} AllEmpty(lists: seq<seq<Id>>)
    requires forall i :: 0 <= i < |lists| ==> lists[i] == []
    ensures InOrder(lists) == []
  {
    if lists != [] { AllEmpty(lists[1..]); }
  }

  // The head of the first queue that is not empty is the first in order.
  lemma TakeIsFirst(p: Proc, q: nat)
    requires q < N_PRIOS && p.ready[q] != [] && forall i :: 0 <= i < q ==> p.ready[i] == []
    ensures InOrder(p.ready) == [p.ready[q][0]] + InOrder(Take(p, q).ready)
  {
    EmptyPrefix(p.ready, q);
    EmptyPrefix(Take(p, q).ready, q);
    assert p.ready[q + 1..] == Take(p, q).ready[q + 1..];
    HeadFirst(p.ready[q], InOrder(p.ready[q + 1..]));
  }

  lemma HeadFirst(s: seq<Id>, t: seq<Id>)
    requires s != []
    ensures s + t == [s[0]] + (s[1..] + t)
  {
  }

  lemma NotChosen(order: seq<Id>, n: nat, i: Id)
    requires n < |order| && i !in order
    ensures i != order[n] && i !in order[..n]
  {
  }

  // A killed process is cleaned up on the way to the one chosen.
  lemma ChosenAfterCleanup(p: Proc, i: Id, order: seq<Id>, n: nat, r: Proc)
    requires IsKilled(p, i) && i !in order && Chosen(Cleanup(p, i), order, n, r)
    ensures Chosen(p, [i] + order, n + 1, r)
  {
    var c := Cleanup(p, i);
    forall j | 0 <= j < n + 1 ensures IsKilled(p, ([i] + order)[j]) {
      if j > 0 { assert IsKilled(c, order[j - 1]); }
    }
    assert ([i] + order)[..n + 1] == [i] + order[..n];
    assert ([i] + order)[n + 2..] == order[n + 1..];
    assert order[n] in order;
    forall x: Id ensures r.pcbs[x] == ChosenPcb(p.pcbs[x], x == order[n], x in [i] + order[..n]) {
      assert r.pcbs[x] == ChosenPcb(c.pcbs[x], x == order[n], x in order[..n]);
      if x == i { NotChosen(order, n, i); }
    }
  }

  lemma InOrderHas(p: Proc, i: Id)
    requires Core(p) && Queued(p, i) == 0
    ensures i !in InOrder(p.ready)
  {
    NotInOrder(p.ready, i);
  }

  lemma {:induction false} NotInOrder(lists: seq<seq<Id>>, i: Id)
    requires FlatOcc(lists, i) == 0
    ensures i !in InOrder(lists)
  {
    if lists != [] { NotInOrder(lists[1..], i); }
  }

  // The first live process of `order` is chosen; without one there is none.
  ghost predicate Answers(p: Proc, order: seq<Id>, result: Option<Proc>) {
    if result.Some? then exists n: nat :: Chosen(p, order, n, result.value)
    else forall i :: 0 <= i < |order| ==> IsKilled(p, order[i])
  }

  lemma AnswersAfterCleanup(p: Proc, i: Id, order: seq<Id>, result: Option<Proc>)
    requires IsKilled(p, i) && i !in order && Answers(Cleanup(p, i), order, result)
    ensures Answers(p, [i] + order, result)
  {
    if result.Some? {
      var n: nat :| Chosen(Cleanup(p, i), order, n, result.value);
      ChosenAfterCleanup(p, i, order, n, result.value);
    } else {
      forall j | 0 <= j < |[i] + order| ensures IsKilled(p, ([i] + order)[j]) {
        if j > 0 { assert IsKilled(Cleanup(p, i), order[j - 1]); }
      }
    }
  }

  // Only the places of processes matter, not which one is current.
  lemma AnswersBeforeTake(p: Proc, q: nat, order: seq<Id>, result: Option<Proc>)
    requires q < N_PRIOS && p.ready[q] != [] && Answers(Take(p, q), order, result)
    ensures Answers(p, order, result)
  {
    if result.Some? {
      var n: nat :| Chosen(Take(p, q), order, n, result.value);
      assert forall i :: 0 <= i < n ==> IsKilled(Take(p, q), order[i]) ==> IsKilled(p, order[i]);
      assert Chosen(p, order, n, result.value);
    } else {
      assert forall i :: 0 <= i < |order| ==> IsKilled(Take(p, q), order[i]) ==> IsKilled(p, order[i]);
    }
  }

  lemma {:induction false} DispatchFromChooses(p: Proc, q: nat)
    requires Core(p) && q <= N_PRIOS && forall i :: 0 <= i < q ==> p.ready[i] == []
    ensures Answers(p, InOrder(p.ready), DispatchFrom(p, q))
    decreases N_PRIOS - q, if q < N_PRIOS then |p.ready[q]| else 0
  {
    if q == N_PRIOS {
      AllEmpty(p.ready);
    } else if p.ready[q] == [] {
      DispatchFromChooses(p, q + 1);
    } else {
      var i, taken := p.ready[q][0], Take(p, q);
      TakeIsFirst(p, q);
      TakeSound(p, q);
      if IsKilled(p, i) {
        CleanupSound(taken, i);
        InOrderHas(taken, i);
        DispatchFromChooses(Cleanup(taken, i), q);
        AnswersAfterCleanup(taken, i, InOrder(taken.ready), DispatchFrom(Cleanup(taken, i), q));
        AnswersBeforeTake(p, q, InOrder(p.ready), DispatchFrom(p, q));
      } else {
        assert Chosen(p, InOrder(p.ready), 0, DispatchFrom(p, q).value);
      }
    }
  }

  // Dispatching takes the first live ready process, and panics when there is none.
  lemma DispatchChooses(p: Proc)
    requires Core(p)
    ensures Answers(p, InOrder(p.ready), Dispatch(p))
  {
    DispatchFromChooses(p, 0);
  }
}
