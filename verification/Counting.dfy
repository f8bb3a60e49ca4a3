/**
When two counts go wrong.  A semaphore's value is a 32-bit word, to which _sem_post (src/kernel/semaphores.c:184) adds
one without asking whether it is the greatest.  _lock_insert_waiter (src/kernel/locks.c:69-94) queues a process that
asks for neither mode as a writer, but does not count it as one.
*/
module Counting {
  import opened Options
  import opened QueueSpec
  import opened Processes
  import opened Types
  import opened KernelRuns
  import S = Semaphores
  import L = Locks

  // No semaphore has wrapped since it was made.
  ghost predicate NoneWrapped(k: Kernel) { forall slot: S.Slot :: k.sems.logs[slot].wraps == 0 }

  // A post to a semaphore whose value is the greatest word
  predicate PostsToFull(k: Kernel, step: Step) {
    step.OfSem? && step.s.SemPost? && Lookup(k.sems.live, step.s.id) == Success
      && S.Full(k.sems.sems[S.Find(k.sems, step.s.id)])
  }

  lemma StepWrapsIffFull(k: Kernel, step: Step, r: Kernel)
    requires Inv(k) && Enabled(k, step) && Next(k, step) == Some(r) && NoneWrapped(k)
    ensures NoneWrapped(r) <==> !PostsToFull(k, step)
  {
    assert Holds(k, Sems);
    if step.OfSem? && step.s.SemPost? && Lookup(k.sems.live, step.s.id) == Success {
      S.PostWrapsIffFull(S.State(k.proc, k.sems), step.s.id);
    }
  }

  // Over any run the history of every semaphore accounts for its value in every state, without a wrap, exactly when no
  // step posts to a full semaphore.
  lemma {:induction false} PostsCountIffNoneIsFull(ks: seq<Kernel>, steps: seq<Step>)
    requires Run(ks, steps) && Inv(ks[0]) && NoneWrapped(ks[0])
    ensures (forall i :: 0 <= i < |ks| ==> NoneWrapped(ks[i])) <==>
      forall i :: 0 <= i < |steps| ==> !PostsToFull(ks[i], steps[i])
  {
    RunKeepsInv(ks, steps);
    if forall i :: 0 <= i < |ks| ==> NoneWrapped(ks[i]) {
      forall i | 0 <= i < |steps| ensures !PostsToFull(ks[i], steps[i]) {
        assert NoneWrapped(ks[i + 1]);
        StepWrapsIffFull(ks[i], steps[i], ks[i + 1]);
      }
    }
    if forall i :: 0 <= i < |steps| ==> !PostsToFull(ks[i], steps[i]) {
      forall i | 0 <= i < |ks| ensures NoneWrapped(ks[i]) { NeverWrapped(ks, steps, i); }
    }
  }

  lemma {:induction false} NeverWrapped(ks: seq<Kernel>, steps: seq<Step>, i: nat)
    requires Run(ks, steps) && (forall j :: 0 <= j < |ks| ==> Inv(ks[j])) && NoneWrapped(ks[0]) && i < |ks|
    requires forall j :: 0 <= j < |steps| ==> !PostsToFull(ks[j], steps[j])
    ensures NoneWrapped(ks[i])
  {
    if i > 0 {
      NeverWrapped(ks, steps, i - 1);
      StepWrapsIffFull(ks[i - 1], steps[i - 1], ks[i]);
    }
  }

  // ---------------------------------------------------------------- a run in which a semaphore forgets its posts

  // A new semaphore, and n posts to it
  function Posts(n: nat): (s: seq<Step>)
    ensures |s| == n + 1
  {
    if n == 0 then [OfSem(SemNew)] else Posts(n - 1) + [OfSem(SemPost(1))]
  }

  // The first semaphore has been made, and posted to n times.
  ghost predicate PostedTo(k: Kernel, n: nat) {
    && k.sems.live == [Item(1, 0)] && k.sems.sems[0] == S.Sem(1, n % WORD_RANGE, []) && k.sems.logs[0].posts == n
    && k.sems.logs[0].granted == []
  }

  lemma FirstIsMade(k: Kernel)
    requires Boot(k)
    ensures Enabled(k, OfSem(SemNew)) && Next(k, OfSem(SemNew)).Some? && PostedTo(Next(k, OfSem(SemNew)).value, 0)
  {
    S.NoneMadeInv(k.sems);
    S.NewIs(k.sems);
  }

  lemma OnePost(k: Kernel, n: nat)
    requires PostedTo(k, n)
    ensures Next(k, OfSem(SemPost(1))).Some? && PostedTo(Next(k, OfSem(SemPost(1))).value, n + 1)
  {
    PositionIs(k.sems.live, 1, 0);
    var st := S.State(k.proc, k.sems);
    assert S.Post(st, 1) == S.Posted(st, 0);
    assert (n + 1) % WORD_RANGE == if n % WORD_RANGE + 1 == WORD_RANGE then 0 else n % WORD_RANGE + 1;
  }

  lemma RunMore(ks: seq<Kernel>, steps: seq<Step>, step: Step, r: Kernel)
    requires Run(ks, steps) && Enabled(ks[|steps|], step) && Next(ks[|steps|], step) == Some(r)
    ensures Run(ks + [r], steps + [step])
  {
  }

  lemma {:induction false} PostsRun(n: nat) returns (ks: seq<Kernel>)
    ensures Run(ks, Posts(n)) && Boot(ks[0]) && PostedTo(ks[n + 1], n)
    decreases n
  {
    if n == 0 {
      StartedIsBoot();
      FirstIsMade(Started());
      ks := [Started()];
      var k := Next(Started(), OfSem(SemNew)).value;
      RunMore(ks, [], OfSem(SemNew), k);
      assert [] + [OfSem(SemNew)] == Posts(0);
      ks := ks + [k];
    } else {
      ks := PostsRun(n - 1);
      OnePost(ks[n], n - 1);
      var k := Next(ks[n], OfSem(SemPost(1))).value;
      RunMore(ks, Posts(n - 1), OfSem(SemPost(1)), k);
      ks := ks + [k];
    }
  }

  ghost predicate Forgotten(s: S.Sems) {
    s.sems[0].value == 0 && s.logs[0].posts == WORD_RANGE && s.logs[0].granted == []
  }

  // From the start: after a whole word of posts that nobody has waited for, the value is 0 again.
  lemma PostsAreForgotten()
    ensures exists ks: seq<Kernel> :: Run(ks, Posts(WORD_RANGE)) && Boot(ks[0]) && Forgotten(ks[WORD_RANGE + 1].sems)
  {
    var ks := PostsRun(WORD_RANGE);
    assert PostedTo(ks[WORD_RANGE + 1], WORD_RANGE);
  }

  // ---------------------------------------------------------------- waiting writers

  // Every lock counts the writers that wait for it, and nobody waits for a lock that would let a reader in.
  ghost predicate LocksCount(k: Kernel) { forall i :: 0 <= i < |k.locks.list| ==> L.LockOk(k.locks.list[i].data) }

  // A process that asks for neither mode has to wait.
  predicate QueuesOther(k: Kernel, step: Step) {
    step.OfLock? && step.l.LockLock? && step.l.mode == L.Other && Lookup(k.locks.list, step.l.id) == Success
    && !L.Admits(k.locks.list[Position(k.locks.list, step.l.id).value].data, L.Other)
  }

  function Sum(s: seq<Item<Id>>, n: nat): nat { if n == 0 then 0 else DataOcc(s, n - 1) + Sum(s, n - 1) }

  lemma {:induction false} SumRest(s: seq<Item<Id>>, n: nat)
    requires s != []
    ensures Sum(s, n) == Sum(s[1..], n) + One(s[0].data < n)
  {
    if n > 0 { SumRest(s, n - 1); }
  }

  lemma {:induction false} SumNone(n: nat)
    ensures Sum([], n) == 0
  {
    if n > 0 { SumNone(n - 1); }
  }

  lemma {:induction false} SumAll(s: seq<Item<Id>>)
    ensures Sum(s, N_PCBS) == |s|
  {
    if s == [] {
      SumNone(N_PCBS);
    } else {
      SumRest(s, N_PCBS);
      SumAll(s[1..]);
    }
  }

  lemma {:induction false} SumBound(s: seq<Item<Id>>, n: nat, c: Id)
    requires n <= N_PCBS && DataOcc(s, c) == 0 && forall x: Id :: DataOcc(s, x) <= 1
    ensures Sum(s, n) <= n - One(c < n)
  {
    if n > 0 { SumBound(s, n - 1, c); }
  }

  // The process that runs waits for no lock, so fewer wait for one than there are PCBs.
  lemma WaitersAreFew(k: Kernel, i: nat)
    requires Inv(k) && i < |k.locks.list|
    ensures |k.locks.list[i].data.waiting| < N_PCBS
  {
    var s := k.locks.list[i].data.waiting;
    assert Holds(k, OnePlace);
    forall x: Id ensures DataOcc(s, x) + One(k.proc.current == x) <= 1 {
      assert Places(k, x) == 1;
      L.LockOccHas(k.locks.list, i, x);
    }
    assert DataOcc(s, k.proc.current) == 0;
    SumBound(s, N_PCBS, k.proc.current);
    SumAll(s);
  }

  lemma OneLockCounts(k: Kernel, i: nat, l: L.LockInfo)
    requires LocksCount(k) && i < |k.locks.list|
    ensures LocksCount(k.(locks := L.SetLock(k.locks, i, l))) <==> L.LockOk(l)
  {
    var r := k.(locks := L.SetLock(k.locks, i, l));
    assert r.locks.list[i].data == l;
  }

  lemma LockingCounts(k: Kernel, i: nat, mode: L.Mode)
    requires Inv(k) && LocksCount(k) && i < |k.locks.list|
    ensures var l := k.locks.list[i].data;
      LocksCount(k.(locks := L.SetLock(k.locks, i, L.Acquire(l, mode, k.proc.current)))) <==>
        L.Admits(l, mode) || mode != L.Other
  {
    var l := k.locks.list[i].data;
    WaitersAreFew(k, i);
    L.WritersFirst(l.waiting);
    L.AcquireKeepsOk(l, mode, k.proc.current);
    OneLockCounts(k, i, L.Acquire(l, mode, k.proc.current));
  }

  lemma LockStepCounts(k: Kernel, step: LockStep, r: Kernel)
    requires Inv(k) && Enabled(k, OfLock(step)) && Next(k, OfLock(step)) == Some(r) && LocksCount(k)
    ensures LocksCount(r) <==> !QueuesOther(k, OfLock(step))
  {
    match step
    case LockNew =>
      assert Holds(k, LocksAndMail);
      L.NewKeeps(k.locks);
      assert L.LockOk(L.LockInfo(0, 0, [], false));
    case LockLock(id, mode) =>
      if Lookup(k.locks.list, id) == Success { LockingCounts(k, Position(k.locks.list, id).value, mode); }
    case LockUnlock(id, mode) =>
      if Lookup(k.locks.list, id) == Success {
        var i := Position(k.locks.list, id).value;
        L.ReleaseKeepsOk(k.locks.list[i].data, mode);
        OneLockCounts(k, i, L.Release(k.locks.list[i].data, mode).lock);
      }
  }

  lemma StepCountsIffNoneIsOther(k: Kernel, step: Step, r: Kernel)
    requires Inv(k) && Enabled(k, step) && Next(k, step) == Some(r) && LocksCount(k)
    ensures LocksCount(r) <==> !QueuesOther(k, step)
  {
    if step.OfLock? { LockStepCounts(k, step.l, r); }
  }

  // Over any run every lock counts its waiting writers in every state exactly when nobody has to wait for neither mode.
  lemma {:induction false} LocksCountIffNoneIsOther(ks: seq<Kernel>, steps: seq<Step>)
    requires Run(ks, steps) && Inv(ks[0]) && LocksCount(ks[0])
    ensures (forall i :: 0 <= i < |ks| ==> LocksCount(ks[i])) <==>
      forall i :: 0 <= i < |steps| ==> !QueuesOther(ks[i], steps[i])
  {
    RunKeepsInv(ks, steps);
    if forall i :: 0 <= i < |ks| ==> LocksCount(ks[i]) {
      forall i | 0 <= i < |steps| ensures !QueuesOther(ks[i], steps[i]) {
        assert LocksCount(ks[i + 1]);
        StepCountsIffNoneIsOther(ks[i], steps[i], ks[i + 1]);
      }
    }
    if forall i :: 0 <= i < |steps| ==> !QueuesOther(ks[i], steps[i]) {
      forall i | 0 <= i < |ks| ensures LocksCount(ks[i]) { AlwaysCounted(ks, steps, i); }
    }
  }

  lemma {:induction false} AlwaysCounted(ks: seq<Kernel>, steps: seq<Step>, i: nat)
    requires Run(ks, steps) && (forall j :: 0 <= j < |ks| ==> Inv(ks[j])) && LocksCount(ks[0]) && i < |ks|
    requires forall j :: 0 <= j < |steps| ==> !QueuesOther(ks[j], steps[j])
    ensures LocksCount(ks[i])
  {
    if i > 0 {
      var k, step := ks[i - 1], steps[i - 1];
      AlwaysCounted(ks, steps, i - 1);
      assert Enabled(k, step) && Next(k, step) == Some(ks[i]) && !QueuesOther(k, step);
      StepCountsIffNoneIsOther(k, step, ks[i]);
    }
  }
}
