/**
What the handlers of `Processes` do to the mark of a killed process, and to a process that has never been scheduled.
*/
module Fates {
  import opened Options
  import opened QueueSpec
  import opened Processes
  import opened ProcessSafety
  import opened Types
  import opened Wakeups

  // x has been killed, and may have been cleaned up since.
  ghost predicate Marked(p: Proc, x: Id) { p.pcbs[x].state == Killed || x in p.pool }

  // x is FREE although it is not in the pool: it has never been scheduled.
  ghost predicate Unstarted(p: Proc, x: Id) { p.pcbs[x].state == Free && x !in p.pool }

  ghost predicate IsReady(p: Proc, x: Id) { exists q :: 0 <= q < N_PRIOS && x in p.ready[q] }

  // From p to r the processes `who`, and no others, have lost the mark, and none is newly unstarted.
  ghost predicate Unmarks(p: Proc, r: Proc, who: iset<Id>) {
    && (forall x: Id :: Marked(p, x) ==> (Marked(r, x) <==> x !in who))
    && forall x: Id :: Unstarted(r, x) ==> Unstarted(p, x) && r.pcbs[x].pid == p.pcbs[x].pid
  }

  // ---------------------------------------------------------------- dispatching

  // Dispatching takes no mark away: what it cleans up was marked, and what it makes current was not.
  lemma {:induction false} DispatchFromUnmarks(p: Proc, q: nat)
    requires Core(p) && q <= N_PRIOS && DispatchFrom(p, q).Some?
    ensures var r := DispatchFrom(p, q).value;
      && (forall x: Id :: Marked(r, x) <==> Marked(p, x)) && r.pcbs[r.current].state == Running
      && (forall x: Id :: Unstarted(r, x) ==> Unstarted(p, x) && r.pcbs[x].pid == p.pcbs[x].pid)
    decreases N_PRIOS - q, if q < N_PRIOS then |p.ready[q]| else 0
  {
    if p.ready[q] == [] {
      DispatchFromUnmarks(p, q + 1);
    } else {
      var i := p.ready[q][0];
      var taken := Take(p, q);
      TakeSound(p, q);
      if p.pcbs[i].state == Killed {
        var c := Cleanup(taken, i);
        CleanupSound(taken, i);
        CleanupMarks(p, q, c);
        DispatchFromUnmarks(c, q);
      } else {
        QueuedHas(taken);
        assert i !in p.pool;
      }
    }
  }

  // A killed process that is cleaned up had the mark.
  lemma CleanupMarks(p: Proc, q: nat, c: Proc)
    requires q < N_PRIOS && p.ready[q] != [] && p.pcbs[p.ready[q][0]].state == Killed
    requires c == Cleanup(Take(p, q), p.ready[q][0])
    ensures forall x: Id :: Marked(c, x) <==> Marked(p, x)
    ensures forall x: Id :: Unstarted(c, x) ==> Unstarted(p, x) && c.pcbs[x].pid == p.pcbs[x].pid
  {
  }

  // A ready process stays ready, becomes current or is cleaned up.
  lemma {:induction false} DispatchFromReady(p: Proc, q: nat, x: Id)
    requires q <= N_PRIOS && DispatchFrom(p, q).Some? && (IsReady(p, x) || x in p.pool)
    ensures var r := DispatchFrom(p, q).value; IsReady(r, x) || r.current == x || x in r.pool
    decreases N_PRIOS - q, if q < N_PRIOS then |p.ready[q]| else 0
  {
    if p.ready[q] == [] {
      DispatchFromReady(p, q + 1, x);
    } else {
      var i := p.ready[q][0];
      var taken := Take(p, q);
      if x !in p.pool && x != i { TakeLeavesReady(p, q, x); }
      if p.pcbs[i].state == Killed {
        var c := Cleanup(taken, i);
        if IsReady(taken, x) {
          var s :| 0 <= s < N_PRIOS && x in taken.ready[s];
          assert x in c.ready[s];
        }
        DispatchFromReady(c, q, x);
      } else {
        var r := DispatchFrom(p, q).value;
        if IsReady(taken, x) {
          var s :| 0 <= s < N_PRIOS && x in taken.ready[s];
          assert x in r.ready[s];
        }
      }
    }
  }

  lemma TakeLeavesReady(p: Proc, q: nat, x: Id)
    requires q < N_PRIOS && p.ready[q] != [] && IsReady(p, x) && x != p.ready[q][0]
    ensures IsReady(Take(p, q), x)
  {
    var s :| 0 <= s < N_PRIOS && x in p.ready[s];
    assert s == q ==> p.ready[q] == [p.ready[q][0]] + p.ready[q][1..];
    assert x in Take(p, q).ready[s];
  }

  // ---------------------------------------------------------------- scheduling

  // Scheduling takes the mark away from those who are scheduled.
  lemma SchedOneUnmarks(p: Proc, i: Id, ret: Option<Status>)
    requires Sound(p) && Queued(p, i) == 0
    ensures Unmarks(p, SchedOne(p, i, ret), iset{i}) && !Marked(SchedOne(p, i, ret), i)
  {
    QueuedHas(p);
    assert PcbOk(p, i) && i !in p.pool;
  }

  lemma {:induction false} SchedAllUnmarks(p: Proc, who: seq<Id>, ret: Option<Status>)
    requires Sound(p) && forall x: Id :: Placed(p, x) + Occ(who, x) <= 1
    ensures Unmarks(p, SchedAll(p, who, ret), iset x: Id | x in who)
    decreases |who|
  {
    if who != [] {
      var i, m, r := who[0], SchedOne(p, who[0], ret), SchedAll(p, who, ret);
      OccTail(who, i);
      assert Placed(p, i) + Occ(who, i) <= 1;
      SchedOneSound(p, i, ret);
      forall x: Id ensures Placed(m, x) + Occ(who[1..], x) <= 1 {
        OccTail(who, x); assert Placed(p, x) + Occ(who, x) <= 1;
      }
      SchedOneUnmarks(p, i, ret);
      SchedAllUnmarks(m, who[1..], ret);
      SchedAllKeepsUnmarked(m, who[1..], ret, i);
      UnmarksTwice(p, m, r, who);
    }
  }

  lemma UnmarksTwice(p: Proc, m: Proc, r: Proc, who: seq<Id>)
    requires who != [] && Unmarks(p, m, iset{who[0]}) && Unmarks(m, r, iset x: Id | x in who[1..])
    requires !Marked(m, who[0]) && !Marked(r, who[0])
    ensures Unmarks(p, r, iset x: Id | x in who)
  {
    forall x: Id ensures x in who <==> x == who[0] || x in who[1..] { assert who == [who[0]] + who[1..]; }
  }

  lemma {:induction false} SchedAllKeepsUnmarked(p: Proc, who: seq<Id>, ret: Option<Status>, x: Id)
    requires !Marked(p, x)
    ensures !Marked(SchedAll(p, who, ret), x)
    decreases |who|
  {
    if who != [] { SchedAllKeepsUnmarked(SchedOne(p, who[0], ret), who[1..], ret, x); }
  }

  // The sleepers whose time has come at the next tick
  function Due(p: Proc): seq<Item<Id>> { p.sleeping[..Passed(AscendingUint, p.sleeping, (p.time + 1) % TIME_RANGE)] }

  lemma AwakeUnmarks(p: Proc, r: Proc)
    requires Sound(p) && r == Awake(p)
    ensures Unmarks(p, r, iset x: Id | Asleep(Due(p), x))
    ensures forall x: Id :: Asleep(Due(p), x) ==> !Marked(r, x)
    ensures r.current == p.current && forall x: Id :: r.pcbs[x].quantum == p.pcbs[x].quantum
  {
    var now := (p.time + 1) % TIME_RANGE;
    var due, rest := Due(p), p.sleeping[Passed(AscendingUint, p.sleeping, now)..];
    TickWakesTheDue(p);
    NoneDueIsPooled(p);
    WokenUnmarks(p, now, due, rest, r);
  }

  lemma NoneDueIsPooled(p: Proc)
    requires Sound(p)
    ensures forall x: Id :: Asleep(Due(p), x) ==> x !in p.pool
  {
    forall x: Id | Asleep(Due(p), x) ensures x !in p.pool { DueIsLive(p, x); }
  }

  lemma WokenUnmarks(p: Proc, now: Time, due: seq<Item<Id>>, rest: seq<Item<Id>>, r: Proc)
    requires Woken(p.(time := now), due, rest, r) && forall x: Id :: Asleep(due, x) ==> x !in p.pool
    ensures Unmarks(p, r, iset x: Id | Asleep(due, x)) && forall x: Id :: Asleep(due, x) ==> !Marked(r, x)
    ensures r.current == p.current && forall x: Id :: r.pcbs[x].quantum == p.pcbs[x].quantum
  {
  }

  lemma DueIsLive(p: Proc, x: Id)
    requires Sound(p) && Asleep(p.sleeping, x)
    ensures x !in p.pool && x != p.current
  {
    var j :| 0 <= j < |p.sleeping| && p.sleeping[j].data == x;
    DataHas(p.sleeping, j);
    QueuedHas(p);
    assert PcbOk(p, x);
  }
}
