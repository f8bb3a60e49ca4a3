/**
How long a ready process waits: the measure behind the bound on ticks, and what a handler does to it.
*/
module Fairness {
  import opened Options
  import opened Types
  import opened Processes
  import opened ProcessSafety
  import opened Wakeups

  // x waits at position k of ready queue q.
  ghost predicate At(p: Proc, x: Id, q: nat, k: nat) {
    q < N_PRIOS && k < |p.ready[q]| && p.ready[q][k] == x
  }

  // No process of higher priority than q is current or ready.
  ghost predicate Undisturbed(p: Proc, q: nat) {
    p.pcbs[p.current].priority >= q && forall i :: 0 <= i < q && i < N_PRIOS ==> p.ready[i] == []
  }

  // Nor has x been killed.
  ghost predicate Quiet(p: Proc, x: Id, q: nat) { p.pcbs[x].state != Killed && Undisturbed(p, q) }

  // The ticks that x may still have to wait.
  function Wait(p: Proc, k: nat): nat
  {
    k * (STD_QUANTUM + 1) + p.pcbs[p.current].quantum + 1
  }

  // r is p after processes have joined ready queues at the back.
  ghost predicate Joined(p: Proc, r: Proc) {
    && r.current == p.current && r.pcbs[r.current].quantum == p.pcbs[p.current].quantum
    && forall q :: 0 <= q < N_PRIOS ==> p.ready[q] <= r.ready[q]
  }

  // No process has been killed from p to r.
  ghost predicate Spared(p: Proc, r: Proc) {
    forall i: Id :: r.pcbs[i].state == Killed ==> p.pcbs[i].state == Killed
  }

  // What a handler that is not the clock does to the queues: others join, and it may end with a dispatch.
  ghost predicate Moved(p: Proc, r: Proc) {
    Joined(p, r) || exists m: Proc :: Core(m) && Joined(p, m) && Spared(p, m) && Dispatch(m) == Some(r)
  }

  // x has become the current process, or can wait at most bound ticks more.
  ghost predicate Nearer(r: Proc, x: Id, q: nat, bound: int) {
    r.current == x || exists k: nat :: At(r, x, q, k) && Wait(r, k) <= bound
  }

  // x had been killed in p and has been cleaned up in r.
  ghost predicate Gone(p: Proc, r: Proc, x: Id) { p.pcbs[x].state == Killed && x in r.pool }

  lemma JoinedKeepsAt(p: Proc, r: Proc, x: Id, q: nat, k: nat)
    requires Joined(p, r) && At(p, x, q, k)
    ensures At(r, x, q, k) && Wait(r, k) == Wait(p, k)
  {
    assert p.ready[q] <= r.ready[q];
  }

  // A dispatch takes x, cleans it up, or takes at least one process ahead of it.
  lemma {:induction false} DispatchFromAdvances(p: Proc, from: nat, x: Id, q: nat, k: nat)
    requires Core(p) && At(p, x, q, k) && from <= q && DispatchFrom(p, from).Some?
    requires var r := DispatchFrom(p, from).value; r.pcbs[r.current].priority >= q
    ensures var r := DispatchFrom(p, from).value; Nearer(r, x, q, k * (STD_QUANTUM + 1)) || Gone(p, r, x)
    decreases N_PRIOS - from, |p.ready[from]|
  {
    if p.ready[from] == [] {
      DispatchFromAdvances(p, from + 1, x, q, k);
    } else {
      var i := p.ready[from][0];
      var taken := Take(p, from);
      var k1: int := if from == q then k - 1 else k;
      TakeSound(p, from);
      assert ReadyPcb(p.pcbs[i], from);
      assert from == q && k == 0 ==> i == x;
      if p.pcbs[i].state != Killed {
        var r := DispatchFrom(p, from).value;
        assert r.current == x || (At(r, x, q, k1) && Wait(r, k1) <= k * (STD_QUANTUM + 1));
      } else if from == q && k == 0 {
        DispatchFromPids(Cleanup(taken, x), from);
      } else {
        CleanupSound(taken, i);
        assert At(Cleanup(taken, i), x, q, k1);
        DispatchFromAdvances(Cleanup(taken, i), from, x, q, k1);
      }
    }
  }

  lemma MovedAdvances(p: Proc, r: Proc, x: Id, q: nat, k: nat)
    requires Sound(p) && Moved(p, r) && At(p, x, q, k) && Undisturbed(r, q)
    ensures Nearer(r, x, q, Wait(p, k)) || Gone(p, r, x)
  {
    if Joined(p, r) {
      JoinedKeepsAt(p, r, x, q, k);
    } else {
      var m: Proc :| Core(m) && Joined(p, m) && Spared(p, m) && Dispatch(m) == Some(r);
      JoinedKeepsAt(p, m, x, q, k);
      DispatchFromAdvances(m, 0, x, q, k);
    }
  }

  // ---------------------------------------------------------------- each handler

  lemma DispatchedMoves(p: Proc, m: Proc)
    requires Core(m) && Joined(p, m) && Spared(p, m) && Dispatch(m).Some?
    ensures Moved(p, Dispatch(m).value)
  {
    DispatchSound(m);
  }

  lemma ForkMoves(p: Proc)
    requires Sound(p) && p.pool != []
    ensures Fork(p).Some? && Moved(p, Fork(p).value)
  {
    ForkEffect(p);
    ForkSound(p);
  }

  lemma ExitMoves(p: Proc)
    requires Sound(p) && Exit(p).Some?
    ensures Moved(p, Exit(p).value)
  {
    CleanupSound(p, p.current);
    DispatchedMoves(p, Cleanup(p, p.current));
  }

  lemma ReadMoves(p: Proc, ch: int)
    requires Sound(p) && Read(p, ch).Some?
    ensures Moved(p, Read(p, ch).value)
  {
    if ch < 0 {
      ReadCore(p);
      DispatchedMoves(p, SetState(p, p.current, Blocked).(reading := p.reading + [p.current]));
    }
  }

  lemma SleepMoves(p: Proc, ms: Time)
    requires Sound(p) && Sleep(p, ms).Some?
    ensures Moved(p, Sleep(p, ms).value)
  {
    SleepCore(p, ms);
    DispatchedMoves(p, Slept(p, ms));
  }

  lemma KillMoves(p: Proc, pid: nat)
    ensures Moved(p, Kill(p, pid))
  {
  }

  lemma SetPriorityMoves(p: Proc, arg: nat)
    ensures Moved(p, SetPriority(p, arg))
  {
  }

  lemma SerialInputMoves(p: Proc, ch: nat)
    requires Sound(p)
    ensures Moved(p, SerialInput(p, ch))
  {
    if p.reading != [] {
      QueuedHas(p);
      assert Queued(p, p.reading[0]) >= 1;
    }
  }

  lemma {:induction false} SchedAllMoves(p: Proc, who: seq<Id>, ret: Option<Status>)
    ensures Joined(p, SchedAll(p, who, ret))
    decreases |who|
  {
    if who != [] {
      var p1 := SchedOne(p, who[0], ret);
      SchedAllMoves(p1, who[1..], ret);
      forall q | 0 <= q < N_PRIOS ensures p.ready[q] <= SchedAll(p, who, ret).ready[q] {
        assert p.ready[q] <= p1.ready[q] <= SchedAll(p1, who[1..], ret).ready[q];
      }
    }
  }

  lemma BlockMoves(p: Proc)
    requires Sound(p) && Dispatch(p).Some?
    ensures Moved(p, Dispatch(p).value)
  {
    DispatchedMoves(p, p);
  }

  // A clock tick brings x closer by one.
  lemma TickAdvances(p: Proc, x: Id, q: nat, k: nat)
    requires Sound(p) && Tick(p).Some? && At(p, x, q, k) && Undisturbed(Tick(p).value, q)
    ensures Nearer(Tick(p).value, x, q, Wait(p, k) - 1) || Gone(p, Tick(p).value, x)
  {
    TickWakesTheDue(p);
    AwakeSound(p);
    var a := Awake(p);
    assert Placed(a, a.current) == Placed(p, p.current);
    assert Joined(p, a);
    JoinedKeepsAt(p, a, x, q, k);
    if a.pcbs[a.current].quantum < 1 {
      SchedSound(a, a.current);
      JoinedKeepsAt(a, Sched(a, a.current), x, q, k);
      DispatchFromAdvances(Sched(a, a.current), 0, x, q, k);
    } else {
      assert At(Tick(p).value, x, q, k) && Wait(Tick(p).value, k) == Wait(p, k) - 1;
    }
  }
}
