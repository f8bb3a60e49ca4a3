/**
The wake loop of the clock interrupt (src/kernel/clock.c): which sleepers leave, in which order, whatever the
system time has been set to.
*/
module Wakeups {
  import opened QueueSpec
  import opened Processes
  import opened ProcessSafety

  // The processes of priority q among some sleepers, in order.
  function OfPriority(pcbs: PcbTable, s: seq<Item<Id>>, q: nat): seq<Id> {
    if s == [] then []
    else (if pcbs[s[0].data].priority == q then [s[0].data] else []) + OfPriority(pcbs, s[1..], q)
  }

  ghost predicate SamePriorities(a: PcbTable, b: PcbTable) { forall i: Id :: a[i].priority == b[i].priority }

  lemma {:induction false} OfPrioritySame(a: PcbTable, b: PcbTable, s: seq<Item<Id>>, q: nat)
    requires SamePriorities(a, b)
    ensures OfPriority(a, s, q) == OfPriority(b, s, q)
  {
    if s != [] { OfPrioritySame(a, b, s[1..], q); }
  }

  ghost predicate Asleep(s: seq<Item<Id>>, i: Id) { exists j :: 0 <= j < |s| && s[j].data == i }

  // r is p after the sleepers `due` have woken and `rest` has stayed.
  ghost predicate Woken(p: Proc, due: seq<Item<Id>>, rest: seq<Item<Id>>, r: Proc) {
    && r == p.(pcbs := r.pcbs, ready := r.ready, sleeping := rest)
    && (forall q :: 0 <= q < N_PRIOS ==> r.ready[q] == p.ready[q] + OfPriority(p.pcbs, due, q))
    && forall i: Id :: r.pcbs[i] == if Asleep(due, i) then p.pcbs[i].(state := Ready) else p.pcbs[i]
  }

  lemma WakeAllIs(p: Proc)
    requires forall i: Id :: p.pcbs[i].priority < N_PRIOS
    ensures var n := Passed(AscendingUint, p.sleeping, p.time); Woken(p, p.sleeping[..n], p.sleeping[n..], WakeAll(p))
  {
    var n := Passed(AscendingUint, p.sleeping, p.time);
    WakeSplit(p, p.sleeping[..n], p.sleeping[n..]);
  }

  lemma {:induction false} WakeSplit(p: Proc, due: seq<Item<Id>>, rest: seq<Item<Id>>)
    requires forall i: Id :: p.pcbs[i].priority < N_PRIOS
    requires p.sleeping == due + rest && (forall i :: 0 <= i < |due| ==> due[i].key <= p.time)
    requires rest != [] ==> rest[0].key > p.time
    ensures Woken(p, due, rest, WakeAll(p))
    decreases |due|
  {
    if due == [] {
      assert p.sleeping == rest;
    } else {
      var p1 := WakeOne(p);
      assert p1.sleeping == due[1..] + rest;
      WakeSplit(p1, due[1..], rest);
      WokenFirst(p, due, rest, WakeAll(p1));
    }
  }

  lemma WokenFirst(p: Proc, due: seq<Item<Id>>, rest: seq<Item<Id>>, r: Proc)
    requires forall i: Id :: p.pcbs[i].priority < N_PRIOS
    requires p.sleeping == due + rest && due != [] && Woken(WakeOne(p), due[1..], rest, r)
    ensures Woken(p, due, rest, r)
  {
    var p1 := WakeOne(p);
    forall q | 0 <= q < N_PRIOS ensures r.ready[q] == p.ready[q] + OfPriority(p.pcbs, due, q) {
      OfPrioritySame(p.pcbs, p1.pcbs, due[1..], q);
    }
    assert forall i: Id :: Asleep(due, i) <==> due[0].data == i || Asleep(due[1..], i) by {
      assert due == [due[0]] + due[1..];
      assert forall j :: 0 < j < |due| ==> due[j] == due[1..][j - 1];
    }
  }

  // In every reachable state a tick wakes exactly the sleepers whose time has come, in order of time and then of
  // arrival, and puts them behind those that were ready; all who stay have a later time.
  lemma TickWakesTheDue(p: Proc)
    requires Sound(p)
    ensures var now := (p.time + 1) % TIME_RANGE; var n := Passed(AscendingUint, p.sleeping, now);
      && Woken(p.(time := now), p.sleeping[..n], p.sleeping[n..], Awake(p))
      && (forall i :: 0 <= i < n ==> p.sleeping[i].key <= now)
      && (forall i :: n <= i < |p.sleeping| ==> p.sleeping[i].key > now)
  {
    forall i: Id ensures p.pcbs[i].priority < N_PRIOS { assert PcbOk(p, i); }
    var now := (p.time + 1) % TIME_RANGE;
    WakeAllIs(p.(time := now));
    PassedSplits(AscendingUint, p.sleeping, now);
  }
}
