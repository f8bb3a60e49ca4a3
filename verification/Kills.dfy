/**
When a killed process runs again all the same, and what becomes of the initial process that is never marked as
running.  The functions concerned are _sched (src/kernel/scheduler.c:104), which overwrites KILLED, _sys_read
(syscalls.c:200), which does too, and _sys_kill (syscalls.c:308-338), which takes FREE for dead.
*/
module Kills {
  import opened Options
  import opened QueueSpec
  import opened Processes
  import opened ProcessSafety
  import opened Fairness
  import opened Fates
  import opened KernelRuns
  import opened Types
  import opened Wakeups
  import S = Semaphores
  import L = Locks
  import M = Messages

  // ---------------------------------------------------------------- the steps that forget a kill

  ghost predicate ProcReschedules(p: Proc, step: ProcStep, x: Id) {
    match step
    case Tick => Asleep(Due(p), x) || (x == p.current && p.pcbs[x].quantum < 1)
    case Sleep(ms) => ms == 0 && x == p.current
    case ReadChar(ch) => ch < 0 && x == p.current
    case Received(_) => p.reading != [] && x == p.reading[0]
    case _ => false
  }

  ghost predicate SemReschedules(s: S.Sems, step: SemStep, x: Id) {
    match step
    case SemPost(id) => Lookup(s.live, id) == Success && var w := s.sems[S.Find(s, id)].waiting; w != [] && x == w[0]
    case SemDestroy(id) => Lookup(s.live, id) == Success && x in s.sems[S.Find(s, id)].waiting
    case _ => false
  }

  ghost predicate LockReschedules(s: L.Locks, step: LockStep, x: Id) {
    match step
    case LockUnlock(id, mode) =>
      Lookup(s.list, id) == Success && x in L.Who(L.Release(s.list[Position(s.list, id).value].data, mode).woken)
    case _ => false
  }

  ghost predicate MailReschedules(mail: M.Mail, step: MailStep, x: Id) {
    match step
    case Send(to, _) => var i := Position(mail.waiting, to); i.Some? && x == mail.waiting[i.value].data
    case _ => false
  }

  // The step hands x to _sched although it is killed, or blocks it in a read.
  ghost predicate Reschedules(k: Kernel, step: Step, x: Id) {
    match step
    case OfProc(p) => ProcReschedules(k.proc, p, x)
    case OfSem(s) => SemReschedules(k.sems, s, x)
    case OfLock(l) => LockReschedules(k.locks, l, x)
    case OfMail(m) => MailReschedules(k.mail, m, x)
  }

  lemma QuantumUnmarks(p: Proc)
    requires Sound(p) && Quantum(p).Some?
    ensures var r := Quantum(p).value;
      && Unmarks(p, r, iset x: Id | x == p.current && p.pcbs[x].quantum < 1)
      && forall x: Id :: Marked(r, x) ==> Marked(p, x)
  {
    if p.pcbs[p.current].quantum < 1 {
      SchedSound(p, p.current);
      SchedOneUnmarks(p, p.current, None);
      DispatchFromUnmarks(Sched(p, p.current), 0);
    }
  }

  lemma TickUnmarks(p: Proc, x: Id)
    requires Sound(p) && Processes.Tick(p).Some?
    ensures var r := Processes.Tick(p).value;
      && (Marked(p, x) ==> (Marked(r, x) <==> !ProcReschedules(p, Tick, x)))
      && (Unstarted(r, x) ==> Unstarted(p, x) && r.pcbs[x].pid == p.pcbs[x].pid)
  {
    AwakeSound(p);
    AwakeUnmarks(p, Awake(p));
    QuantumUnmarks(Awake(p));
    if Asleep(Due(p), x) { DueIsLive(p, x); }
  }

  lemma ReadUnmarks(p: Proc, ch: int)
    requires Sound(p) && Read(p, ch).Some?
    ensures Unmarks(p, Read(p, ch).value, iset x: Id | ProcReschedules(p, ReadChar(ch), x))
  {
    if ch < 0 {
      QueuedHas(p);
      ReadCore(p);
      DispatchFromUnmarks(SetState(p, p.current, Blocked).(reading := p.reading + [p.current]), 0);
    }
  }

  lemma SleepUnmarks(p: Proc, ms: Time, x: Id)
    requires Sound(p) && Processes.Sleep(p, ms).Some?
    ensures var r := Processes.Sleep(p, ms).value;
      && (Marked(p, x) ==> (Marked(r, x) <==> !(ms == 0 && x == p.current)))
      && (Unstarted(r, x) ==> Unstarted(p, x) && r.pcbs[x].pid == p.pcbs[x].pid)
  {
    SleepCore(p, ms);
    DispatchFromUnmarks(Slept(p, ms), 0);
    if ms == 0 {
      SchedSound(p, p.current);
      SchedOneUnmarks(p, p.current, None);
    }
  }

  lemma ForkUnmarks(p: Proc)
    requires Sound(p) && p.pool != []
    ensures Processes.Fork(p).Some? && Unmarks(p, Processes.Fork(p).value, iset{p.pool[0]})
    ensures p.pcbs[p.pool[0]].state == Free
  {
    ForkEffect(p);
    ForkPool(p);
    ForkedSound(p);
    QueuedHas(Forked(p));
  }

  lemma ExitUnmarks(p: Proc)
    requires Sound(p) && Processes.Exit(p).Some?
    ensures Unmarks(p, Processes.Exit(p).value, iset{})
  {
    CleanupSound(p, p.current);
    DispatchFromUnmarks(Processes.Cleanup(p, p.current), 0);
  }

  lemma ReceivedUnmarks(p: Proc, ch: nat)
    requires Sound(p)
    ensures Unmarks(p, SerialInput(p, ch), iset x: Id | ProcReschedules(p, Received(ch), x))
  {
    QueuedHas(p);
    if p.reading != [] { assert PcbOk(p, p.reading[0]); }
  }

  lemma KillUnmarks(p: Proc, pid: nat)
    ensures Unmarks(p, Processes.Kill(p, pid), iset{})
  {
  }

  lemma SetPriorityUnmarks(p: Proc, arg: nat)
    ensures Unmarks(p, Processes.SetPriority(p, arg), iset{})
  {
  }

  // A step of processes takes the mark away from the processes it reschedules, and from no other that is killed.
  lemma ProcUnmarks(p: Proc, step: ProcStep, x: Id)
    requires Sound(p) && NextProc.requires(p, step) && NextProc(p, step).Some?
    ensures var r := NextProc(p, step).value;
      && (p.pcbs[x].state == Killed ==> (Marked(r, x) <==> !ProcReschedules(p, step, x)))
      && (Unstarted(r, x) ==> Unstarted(p, x) && r.pcbs[x].pid == p.pcbs[x].pid)
  {
    match step
    case Fork => ForkUnmarks(p);
    case Exit => ExitUnmarks(p);
    case ReadChar(ch) => ReadUnmarks(p, ch);
    case Sleep(ms) => SleepUnmarks(p, ms, x);
    case Kill(pid) => KillUnmarks(p, pid);
    case SetPriority(arg) => SetPriorityUnmarks(p, arg);
    case SetTime(time) =>
    case Received(ch) => ReceivedUnmarks(p, ch);
    case Tick => TickUnmarks(p, x);
  }

  lemma SemUnmarks(st: S.State, step: SemStep, x: Id)
    requires S.SemSound(st) && NextSem.requires(st, step) && NextSem(st, step).Some?
    ensures var r := NextSem(st, step).value.proc;
      && (st.proc.pcbs[x].state == Killed ==> (Marked(r, x) <==> !SemReschedules(st.sems, step, x)))
      && (Unstarted(r, x) ==> Unstarted(st.proc, x) && r.pcbs[x].pid == st.proc.pcbs[x].pid)
  {
    match step
    case SemDestroy(id) =>
      if Lookup(st.sems.live, id) == Success {
        var waiting := st.sems.sems[S.Find(st.sems, id)].waiting;
        S.WaitersApart(st, S.Find(st.sems, id));
        SchedAllUnmarks(st.proc, waiting, Some(Failure));
      }
    case SemPost(id) =>
      if Lookup(st.sems.live, id) == Success {
        var waiting := st.sems.sems[S.Find(st.sems, id)].waiting;
        S.PostIs(st, id);
        S.WaitersApart(st, S.Find(st.sems, id));
        if waiting != [] {
          OccTail(waiting, waiting[0]);
          assert Placed(st.proc, waiting[0]) + Occ(waiting, waiting[0]) <= 1;
          SchedOneUnmarks(st.proc, waiting[0], None);
        }
      }
    case SemWait(id) => if Dispatch(st.proc).Some? { DispatchFromUnmarks(st.proc, 0); }
    case _ =>
  }

  lemma LockUnmarks(st: L.State, step: LockStep, x: Id)
    requires L.LockSound(st) && NextLock.requires(st, step) && NextLock(st, step).Some?
    ensures var r := NextLock(st, step).value.proc;
      && (st.proc.pcbs[x].state == Killed ==> (Marked(r, x) <==> !LockReschedules(st.locks, step, x)))
      && (Unstarted(r, x) ==> Unstarted(st.proc, x) && r.pcbs[x].pid == st.proc.pcbs[x].pid)
  {
    match step
    case LockUnlock(id, mode) =>
      if Lookup(st.locks.list, id) == Success {
        var i := Position(st.locks.list, id).value;
        L.WokenApart(st, i, mode);
        SchedAllUnmarks(st.proc, L.Who(L.Release(st.locks.list[i].data, mode).woken), None);
      }
    case LockLock(id, mode) => if Dispatch(st.proc).Some? { DispatchFromUnmarks(st.proc, 0); }
    case _ =>
  }

  lemma MailUnmarks(st: M.State, step: MailStep, x: Id)
    requires M.MailSound(st) && NextMail(st, step).Some?
    ensures var r := NextMail(st, step).value.proc;
      && (st.proc.pcbs[x].state == Killed ==> (Marked(r, x) <==> !MailReschedules(st.mail, step, x)))
      && (Unstarted(r, x) ==> Unstarted(st.proc, x) && r.pcbs[x].pid == st.proc.pcbs[x].pid)
  {
    match step
    case Send(to, m) =>
      var i := Position(st.mail.waiting, to);
      if i.Some? {
        var who := st.mail.waiting[i.value].data;
        DataHas(st.mail.waiting, i.value);
        assert Placed(st.proc, who) + DataOcc(st.mail.waiting, who) <= 1;
        SchedOneUnmarks(st.proc, who, Some(Success));
      }
    case Receive => if Dispatch(st.proc).Some? { DispatchFromUnmarks(st.proc, 0); }
    case TryReceive =>
  }

  // ---------------------------------------------------------------- every step

  ghost predicate IsKilled(k: Kernel, x: Id) { k.proc.pcbs[x].state == Killed }

  lemma StepUnmarks(k: Kernel, step: Step, r: Kernel, x: Id)
    requires Inv(k) && Enabled(k, step) && Next(k, step) == Some(r)
    ensures IsKilled(k, x) ==> (Marked(r.proc, x) <==> !Reschedules(k, step, x))
    ensures Unstarted(r.proc, x) ==> Unstarted(k.proc, x) && r.proc.pcbs[x].pid == k.proc.pcbs[x].pid
  {
    assert Holds(k, Procs) && Holds(k, Sems) && Holds(k, LocksAndMail) && Holds(k, OnePlace);
    forall y: Id
      ensures Placed(k.proc, y) + S.SemOcc(k.sems.sems, y) <= 1 && Placed(k.proc, y) + L.LockOcc(k.locks.list, y) <= 1
      ensures Placed(k.proc, y) + DataOcc(k.mail.waiting, y) <= 1
    {
      assert Places(k, y) == 1;
    }
    match step
    case OfProc(p) => ProcUnmarks(k.proc, p, x);
    case OfSem(s) => SemUnmarks(S.State(k.proc, k.sems), s, x);
    case OfLock(l) => LockUnmarks(L.State(k.proc, k.locks), l, x);
    case OfMail(m) => MailUnmarks(M.State(k.proc, k.mail), m, x);
  }

  // After any step a killed process is still marked, or cleaned up, exactly when the step does not reschedule it.
  lemma KillIsForgottenIffRescheduled(k: Kernel, step: Step, r: Kernel, x: Id)
    requires Inv(k) && Enabled(k, step) && Next(k, step) == Some(r) && IsKilled(k, x)
    ensures IsKilled(r, x) || x in r.proc.pool <==> !Reschedules(k, step, x)
  {
    StepUnmarks(k, step, r, x);
  }

  // A process that is made current runs.
  lemma NewCurrentRuns(k: Kernel, step: Step, r: Kernel)
    requires Inv(k) && Enabled(k, step) && Next(k, step) == Some(r) && r.proc.current != k.proc.current
    ensures r.proc.pcbs[r.proc.current].state == Running
  {
    assert Holds(k, Procs);
    if step == OfProc(Tick) {
      AwakeSound(k.proc);
      AwakeUnmarks(k.proc, Awake(k.proc));
      QuantumRuns(Awake(k.proc));
    } else {
      StepMoves(k, step);
      var m: Proc :| Core(m) && Joined(k.proc, m) && Spared(k.proc, m) && Dispatch(m) == Some(r.proc);
      DispatchFromUnmarks(m, 0);
    }
  }

  lemma QuantumRuns(p: Proc)
    requires Sound(p) && Quantum(p).Some? && Quantum(p).value.current != p.current
    ensures var r := Quantum(p).value; r.pcbs[r.current].state == Running
  {
    SchedSound(p, p.current);
    DispatchFromUnmarks(Sched(p, p.current), 0);
  }

  // So a killed process is made current by no step but one that reschedules it.
  lemma KilledIsDispatchedOnlyIfRescheduled(k: Kernel, step: Step, r: Kernel, x: Id)
    requires Inv(k) && Enabled(k, step) && Next(k, step) == Some(r) && IsKilled(k, x)
    requires k.proc.current != x == r.proc.current
    ensures Reschedules(k, step, x)
  {
    StepUnmarks(k, step, r, x);
    StepKeepsInv(k, step);
    assert Holds(r, Procs);
    QueuedHas(r.proc);
    NewCurrentRuns(k, step, r);
  }

  // ---------------------------------------------------------------- whole runs

  // x has been in the pool by state i.
  ghost predicate CleanedUpBy(ks: seq<Kernel>, i: nat, x: Id)
    requires i < |ks|
  {
    exists j :: 0 <= j <= i && x in ks[j].proc.pool
  }

  lemma CleanedUpLater(ks: seq<Kernel>, i: nat, x: Id)
    requires i + 1 < |ks|
    ensures CleanedUpBy(ks, i + 1, x) <==> CleanedUpBy(ks, i, x) || x in ks[i + 1].proc.pool
  {
  }

  // Over any run a kill holds until it is carried out exactly when no step before that reschedules the process.
  lemma {:induction false} KillHoldsIffNeverRescheduled(ks: seq<Kernel>, steps: seq<Step>, x: Id)
    requires Run(ks, steps) && Inv(ks[0]) && IsKilled(ks[0], x)
    ensures (forall i :: 0 <= i < |ks| ==> CleanedUpBy(ks, i, x) || IsKilled(ks[i], x))
       <==> (forall i :: 0 <= i < |steps| && !CleanedUpBy(ks, i, x) ==> !Reschedules(ks[i], steps[i], x))
  {
    RunKeepsInv(ks, steps);
    if forall i :: 0 <= i < |ks| ==> CleanedUpBy(ks, i, x) || IsKilled(ks[i], x) {
      forall i | 0 <= i < |steps| && !CleanedUpBy(ks, i, x) ensures !Reschedules(ks[i], steps[i], x) {
        StepUnmarks(ks[i], steps[i], ks[i + 1], x);
        CleanedUpLater(ks, i, x);
        assert CleanedUpBy(ks, i + 1, x) || IsKilled(ks[i + 1], x);
      }
    }
    if forall i :: 0 <= i < |steps| && !CleanedUpBy(ks, i, x) ==> !Reschedules(ks[i], steps[i], x) {
      forall i | 0 <= i < |ks| ensures CleanedUpBy(ks, i, x) || IsKilled(ks[i], x) { KillHolds(ks, steps, x, i); }
    }
  }

  lemma {:induction false} KillHolds(ks: seq<Kernel>, steps: seq<Step>, x: Id, i: nat)
    requires Run(ks, steps) && (forall j :: 0 <= j < |ks| ==> Inv(ks[j])) && IsKilled(ks[0], x) && i < |ks|
    requires forall j :: 0 <= j < |steps| && !CleanedUpBy(ks, j, x) ==> !Reschedules(ks[j], steps[j], x)
    ensures CleanedUpBy(ks, i, x) || IsKilled(ks[i], x)
  {
    if i > 0 {
      KillHolds(ks, steps, x, i - 1);
      CleanedUpLater(ks, i - 1, x);
      if !CleanedUpBy(ks, i - 1, x) { StepUnmarks(ks[i - 1], steps[i - 1], ks[i], x); }
    }
  }

  // Over any run a killed process is not current until it is cleaned up exactly when it is not current to begin with
  // and no step before that reschedules it.
  lemma KilledNeverRunsIff(ks: seq<Kernel>, steps: seq<Step>, x: Id)
    requires Run(ks, steps) && Inv(ks[0]) && IsKilled(ks[0], x)
    ensures (forall i :: 0 <= i < |ks| ==> CleanedUpBy(ks, i, x) || (IsKilled(ks[i], x) && ks[i].proc.current != x))
       <==> ks[0].proc.current != x
            && forall i :: 0 <= i < |steps| && !CleanedUpBy(ks, i, x) ==> !Reschedules(ks[i], steps[i], x)
  {
    RunKeepsInv(ks, steps);
    KillHoldsIffNeverRescheduled(ks, steps, x);
    KilledIsNotInPool(ks[0], x);
    var spared := forall i :: 0 <= i < |steps| && !CleanedUpBy(ks, i, x) ==> !Reschedules(ks[i], steps[i], x);
    if ks[0].proc.current != x && spared {
      forall i | 0 <= i < |ks| ensures CleanedUpBy(ks, i, x) || (IsKilled(ks[i], x) && ks[i].proc.current != x) {
        KilledStaysOff(ks, steps, x, i);
      }
    }
  }

  lemma KilledIsNotInPool(k: Kernel, x: Id)
    requires Inv(k) && IsKilled(k, x)
    ensures x !in k.proc.pool
  {
    assert Holds(k, Procs) && PcbOk(k.proc, x);
  }

  lemma {:induction false} KilledStaysOff(ks: seq<Kernel>, steps: seq<Step>, x: Id, i: nat)
    requires Run(ks, steps) && (forall j :: 0 <= j < |ks| ==> Inv(ks[j])) && i < |ks|
    requires IsKilled(ks[0], x) && ks[0].proc.current != x
    requires forall j :: 0 <= j < |steps| && !CleanedUpBy(ks, j, x) ==> !Reschedules(ks[j], steps[j], x)
    ensures CleanedUpBy(ks, i, x) || (IsKilled(ks[i], x) && ks[i].proc.current != x)
  {
    if i > 0 {
      KilledStaysOff(ks, steps, x, i - 1);
      CleanedUpLater(ks, i - 1, x);
      if !CleanedUpBy(ks, i - 1, x) { KilledStepsOff(ks[i - 1], steps[i - 1], ks[i], x); }
    }
  }

  lemma KilledStepsOff(k: Kernel, step: Step, r: Kernel, x: Id)
    requires Inv(k) && Enabled(k, step) && Next(k, step) == Some(r) && IsKilled(k, x)
    requires k.proc.current != x && !Reschedules(k, step, x)
    ensures x in r.proc.pool || (IsKilled(r, x) && r.proc.current != x)
  {
    StepUnmarks(k, step, r, x);
    if r.proc.current == x { KilledIsDispatchedOnlyIfRescheduled(k, step, r, x); }
  }

  // A ready process is in no other place, so no step reschedules it.
  lemma ReadyIsNotRescheduled(k: Kernel, step: Step, x: Id)
    requires Inv(k) && IsReady(k.proc, x)
    ensures !Reschedules(k, step, x) && k.proc.current != x && x !in k.proc.pool
  {
    assert Holds(k, OnePlace) && Holds(k, LocksAndMail);
    assert Places(k, x) == 1;
    ReadyCounts(k.proc, x);
    match step
    case OfProc(p) => NotAsleep(k.proc.sleeping, x);
    case OfSem(s) =>
      if SemReschedules(k.sems, s, x) { S.SemOccHas(k.sems.sems, S.Find(k.sems, s.id), x); }
    case OfLock(l) =>
      if LockReschedules(k.locks, l, x) { L.WokenCounts(k.locks.list, Position(k.locks.list, l.id).value, l.mode, x); }
    case OfMail(m) =>
      if MailReschedules(k.mail, m, x) { DataHas(k.mail.waiting, Position(k.mail.waiting, m.to).value); }
  }

  lemma ReadyCounts(p: Proc, x: Id)
    requires IsReady(p, x)
    ensures FlatOcc(p.ready, x) >= 1
  {
    var q :| 0 <= q < N_PRIOS && x in p.ready[q];
    FlatHas(p.ready, q, x);
  }

  lemma NotAsleep(s: seq<Item<Id>>, x: Id)
    requires DataOcc(s, x) == 0
    ensures !Asleep(s, x)
  {
    if Asleep(s, x) {
      var j :| 0 <= j < |s| && s[j].data == x;
      DataHas(s, j);
    }
  }

  // It stays ready until a dispatch takes it.
  lemma StaysReady(k: Kernel, step: Step, r: Kernel, x: Id)
    requires Inv(k) && Enabled(k, step) && Next(k, step) == Some(r) && IsReady(k.proc, x)
    ensures IsReady(r.proc, x) || r.proc.current == x || x in r.proc.pool
  {
    assert Holds(k, Procs);
    if step == OfProc(Tick) {
      TickStaysReady(k.proc, x);
    } else {
      StepMoves(k, step);
      MovedStaysReady(k.proc, r.proc, x);
    }
  }

  lemma MovedStaysReady(p: Proc, r: Proc, x: Id)
    requires Moved(p, r) && IsReady(p, x)
    ensures IsReady(r, x) || r.current == x || x in r.pool
  {
    if Joined(p, r) {
      JoinedStaysReady(p, r, x);
    } else {
      var m: Proc :| Core(m) && Joined(p, m) && Spared(p, m) && Dispatch(m) == Some(r);
      JoinedStaysReady(p, m, x);
      DispatchFromReady(m, 0, x);
    }
  }

  lemma TickStaysReady(p: Proc, x: Id)
    requires Sound(p) && IsReady(p, x) && Processes.Tick(p).Some?
    ensures var r := Processes.Tick(p).value; IsReady(r, x) || r.current == x || x in r.pool
  {
    AwakeSound(p);
    TickWakesTheDue(p);
    JoinedStaysReady(p, Awake(p), x);
    QuantumStaysReady(Awake(p), x);
  }

  lemma QuantumStaysReady(p: Proc, x: Id)
    requires Sound(p) && IsReady(p, x) && Quantum(p).Some?
    ensures var r := Quantum(p).value; IsReady(r, x) || r.current == x || x in r.pool
  {
    if p.pcbs[p.current].quantum < 1 {
      SchedSound(p, p.current);
      JoinedStaysReady(p, Sched(p, p.current), x);
      DispatchFromReady(Sched(p, p.current), 0, x);
    } else {
      JoinedStaysReady(p, Quantum(p).value, x);
    }
  }

  lemma JoinedStaysReady(p: Proc, r: Proc, x: Id)
    requires IsReady(p, x) && forall q :: 0 <= q < N_PRIOS ==> p.ready[q] <= r.ready[q]
    ensures IsReady(r, x)
  {
    var q :| 0 <= q < N_PRIOS && x in p.ready[q];
    assert x in r.ready[q];
  }

  // Over any run a killed process that is ready stays both, and is not current, until it is cleaned up.
  lemma KilledReadyIsCleanedUp(ks: seq<Kernel>, steps: seq<Step>, x: Id, i: nat)
    requires Run(ks, steps) && Inv(ks[0]) && i < |ks| && IsKilled(ks[0], x) && IsReady(ks[0].proc, x)
    ensures CleanedUpBy(ks, i, x) || (IsKilled(ks[i], x) && IsReady(ks[i].proc, x) && ks[i].proc.current != x)
  {
    RunKeepsInv(ks, steps);
    KilledReadyHolds(ks, steps, x, i);
  }

  lemma {:induction false} KilledReadyHolds(ks: seq<Kernel>, steps: seq<Step>, x: Id, i: nat)
    requires Run(ks, steps) && (forall j :: 0 <= j < |ks| ==> Inv(ks[j])) && i < |ks|
    requires IsKilled(ks[0], x) && IsReady(ks[0].proc, x)
    ensures CleanedUpBy(ks, i, x) || (IsKilled(ks[i], x) && IsReady(ks[i].proc, x) && ks[i].proc.current != x)
  {
    if i == 0 {
      ReadyIsNotRescheduled(ks[0], OfProc(Tick), x);
    } else {
      KilledReadyHolds(ks, steps, x, i - 1);
      CleanedUpLater(ks, i - 1, x);
      if !CleanedUpBy(ks, i - 1, x) { KilledReadyStep(ks[i - 1], steps[i - 1], ks[i], x); }
    }
  }

  lemma KilledReadyStep(k: Kernel, step: Step, r: Kernel, x: Id)
    requires Inv(k) && Inv(r) && Enabled(k, step) && Next(k, step) == Some(r) && IsKilled(k, x) && IsReady(k.proc, x)
    ensures x in r.proc.pool || (IsKilled(r, x) && IsReady(r.proc, x) && r.proc.current != x)
  {
    ReadyIsNotRescheduled(k, step, x);
    StepUnmarks(k, step, r, x);
    StaysReady(k, step, r, x);
    if r.proc.current == x { NewCurrentRuns(k, step, r); }
  }

  // A kill of a process at position k of its ready queue is carried out within (k + 1) * (STD_QUANTUM + 1) ticks, while
  // no process of higher priority is current or ready.
  lemma BoundedKill(ks: seq<Kernel>, steps: seq<Step>, x: Id, q: nat, k: nat)
    requires Run(ks, steps) && Inv(ks[0]) && At(ks[0].proc, x, q, k) && IsKilled(ks[0], x)
    requires forall i :: 0 <= i < |ks| ==> Undisturbed(ks[i].proc, q)
    requires Ticks(steps) >= (k + 1) * (STD_QUANTUM + 1)
    ensures CleanedUpBy(ks, |ks| - 1, x)
  {
    BoundedService(ks, steps, x, q, k);
    var i :| 0 <= i < |ks| && Served(ks, x, i);
    assert x in ks[0].proc.ready[q];
    KilledReadyIsCleanedUp(ks, steps, x, i);
  }

  // ---------------------------------------------------------------- a run in which a killed process runs

  lemma HeadIsDispatched(p: Proc, i: Id)
    requires p.ready[0] != [] && p.ready[0][0] == i && p.pcbs[i].state != Killed
    ensures Dispatch(p) == Some(SetPcb(Take(p, 0), i, p.pcbs[i].(state := Running, quantum := STD_QUANTUM)))
  {
  }

  // msleep(0) with nobody else ready schedules the caller and dispatches it again, killed or not.
  lemma AloneYields(k: Kernel)
    requires k.proc.ready == [[], [], [], []] && k.proc.pcbs[k.proc.current].priority == PRIO_HIGH
    ensures var p := k.proc; var r := p.pcbs[p.current].(state := Running, quantum := STD_QUANTUM, ret := Success);
      Next(k, OfProc(Sleep(0))) == Some(k.(proc := SetPcb(p, p.current, r)))
  {
    var p := k.proc;
    var i := p.current;
    var m := Slept(p, 0);
    assert m.pcbs == p.pcbs[i := p.pcbs[i].(state := Ready, ret := Success)];
    assert m.ready[0] == [i];
    var r := p.pcbs[i].(state := Running, quantum := STD_QUANTUM, ret := Success);
    assert m.pcbs[i].(state := Running, quantum := STD_QUANTUM) == r && m.pcbs[i].state != Killed;
    HeadIsDispatched(m, i);
    assert m.ready == [[i], [], [], []] && [i][1..] == [];
    assert Take(m, 0).ready == p.ready;
    assert m.pcbs[i := r] == p.pcbs[i := r];
  }

  lemma InitialIsKilled(k: Kernel)
    requires k.proc.current == 0 && k.proc.pcbs[0].pid == PID_INIT && k.proc.pcbs[0].state == Running
    ensures Next(k, OfProc(Kill(PID_INIT))) == Some(k.(proc := SetRet(SetState(k.proc, 0, Killed), 0, Success)))
  {
    VictimIs(k.proc.pcbs, PID_INIT, 0);
  }

  // From the start the initial process yields, is killed, yields again, and runs.
  lemma KilledProcessRunsFrom(k0: Kernel)
    requires Boot(k0)
    ensures var steps := [OfProc(Sleep(0)), OfProc(Kill(PID_INIT)), OfProc(Sleep(0))];
      exists ks: seq<Kernel> :: Run(ks, steps) && Boot(ks[0]) && IsKilled(ks[2], 0)
        && ks[3].proc.current == 0 && ks[3].proc.pcbs[0].state == Running
  {
    assert k0.proc.ready == [[], [], [], []];
    AloneYields(k0);
    var k1 := Next(k0, OfProc(Sleep(0))).value;
    InitialIsKilled(k1);
    var k2 := Next(k1, OfProc(Kill(PID_INIT))).value;
    AloneYields(k2);
    ThreeSteps(k0, k1, k2, Next(k2, OfProc(Sleep(0))).value, OfProc(Sleep(0)), OfProc(Kill(PID_INIT)),
      OfProc(Sleep(0)));
  }

  lemma KilledProcessRuns()
    ensures var steps := [OfProc(Sleep(0)), OfProc(Kill(PID_INIT)), OfProc(Sleep(0))];
      exists ks: seq<Kernel> :: Run(ks, steps) && Boot(ks[0]) && IsKilled(ks[2], 0)
        && ks[3].proc.current == 0 && ks[3].proc.pcbs[0].state == Running
  {
    StartedIsBoot();
    KilledProcessRunsFrom(Started());
  }

  // A process that kills itself runs on, although no step reschedules it: here it makes a semaphore.
  lemma SelfKilledRunsOnFrom(k0: Kernel)
    requires Boot(k0)
    ensures var steps := [OfProc(Sleep(0)), OfProc(Kill(PID_INIT)), OfSem(SemNew)];
      exists ks: seq<Kernel> :: Run(ks, steps) && Boot(ks[0]) && IsKilled(ks[2], 0) && !Reschedules(ks[2], steps[2], 0)
        && ks[2].proc.current == 0 == ks[3].proc.current && IsKilled(ks[3], 0) && ks[3].sems.count == 1
  {
    assert k0.proc.ready == [[], [], [], []];
    AloneYields(k0);
    var k1 := Next(k0, OfProc(Sleep(0))).value;
    InitialIsKilled(k1);
    var k2 := Next(k1, OfProc(Kill(PID_INIT))).value;
    var k3 := Next(k2, OfSem(SemNew)).value;
    assert k2.sems.available[0] == 0;
    ThreeSteps(k0, k1, k2, k3, OfProc(Sleep(0)), OfProc(Kill(PID_INIT)), OfSem(SemNew));
  }

  lemma SelfKilledRunsOn()
    ensures var steps := [OfProc(Sleep(0)), OfProc(Kill(PID_INIT)), OfSem(SemNew)];
      exists ks: seq<Kernel> :: Run(ks, steps) && Boot(ks[0]) && IsKilled(ks[2], 0) && !Reschedules(ks[2], steps[2], 0)
        && ks[2].proc.current == 0 == ks[3].proc.current && IsKilled(ks[3], 0) && ks[3].sems.count == 1
  {
    StartedIsBoot();
    SelfKilledRunsOnFrom(Started());
  }

  lemma ThreeSteps(k0: Kernel, k1: Kernel, k2: Kernel, k3: Kernel, s0: Step, s1: Step, s2: Step)
    requires Enabled(k0, s0) && Next(k0, s0) == Some(k1) && Enabled(k1, s1) && Next(k1, s1) == Some(k2)
    requires Enabled(k2, s2) && Next(k2, s2) == Some(k3)
    ensures Run([k0, k1, k2, k3], [s0, s1, s2])
  {
  }

  // ---------------------------------------------------------------- the initial process

  // A kill of the initial process from where the system starts does not find it.
  lemma FirstKillMisses(p: Proc)
    requires Booted(p)
    ensures var r := Processes.Kill(p, PID_INIT); r == SetRet(p, 0, NotFound) && r.pcbs[0].state == Free && 0 !in r.pool
  {
    VictimIsNone(p.pcbs, PID_INIT);
  }

  // In every state of every run from the start a process that is FREE outside the pool is the initial one, and has been
  // so all the time.
  lemma UnstartedIsInitial(ks: seq<Kernel>, steps: seq<Step>, i: nat, x: Id)
    requires Run(ks, steps) && Boot(ks[0]) && i < |ks| && Unstarted(ks[i].proc, x)
    ensures x == 0 && ks[i].proc.pcbs[x].pid == PID_INIT && forall j :: 0 <= j <= i ==> Unstarted(ks[j].proc, x)
  {
    BootInv(ks[0]);
    RunKeepsInv(ks, steps);
    UnstartedSoFar(ks, steps, i, x);
  }

  lemma {:induction false} UnstartedSoFar(ks: seq<Kernel>, steps: seq<Step>, i: nat, x: Id)
    requires Run(ks, steps) && Boot(ks[0]) && (forall j :: 0 <= j < |ks| ==> Inv(ks[j])) && i < |ks|
    requires Unstarted(ks[i].proc, x)
    ensures x == 0 && ks[i].proc.pcbs[x].pid == PID_INIT && forall j :: 0 <= j <= i ==> Unstarted(ks[j].proc, x)
  {
    if i == 0 {
      forall y: Id | y > 0 ensures y in ks[0].proc.pool { assert ks[0].proc.pool[y - 1] == y; }
    } else {
      StepUnmarks(ks[i - 1], steps[i - 1], ks[i], x);
      UnstartedSoFar(ks, steps, i - 1, x);
    }
  }

  // So a kill finds a process exactly when one outside the pool has the pid and is not the initial one, still FREE.
  lemma KillFindsAllButTheInitial(ks: seq<Kernel>, steps: seq<Step>, i: nat, pid: nat)
    requires Run(ks, steps) && Boot(ks[0]) && i < |ks|
    ensures Victim(ks[i].proc.pcbs, pid).Some? <==>
      exists x: Id :: x !in ks[i].proc.pool && ks[i].proc.pcbs[x].pid == pid
        && !(x == 0 && ks[i].proc.pcbs[x].state == Free)
  {
    var p := ks[i].proc;
    BootInv(ks[0]);
    RunKeepsInv(ks, steps);
    assert Holds(ks[i], Procs);
    if Victim(p.pcbs, pid).Some? {
      var x := Victim(p.pcbs, pid).value;
      assert PcbOk(p, x);
      assert x !in p.pool && p.pcbs[x].pid == pid;
    }
    forall x: Id | x !in p.pool && p.pcbs[x].pid == pid && !(x == 0 && p.pcbs[x].state == Free)
      ensures Victim(p.pcbs, pid).Some?
    {
      if p.pcbs[x].state == Free { UnstartedIsInitial(ks, steps, i, x); }
    }
  }
}
