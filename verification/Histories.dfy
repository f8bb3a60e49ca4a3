/**
What the calls of a run have come to: who has exited stays away, the messages sent are those delivered or queued, and
the logs of semaphores and the states of locks are what the calls on them have made of them.
*/
module Histories {
  import opened Options
  import opened QueueSpec
  import opened Processes
  import opened ProcessSafety
  import opened ProcessEffects
  import opened KernelRuns
  import opened Types
  import S = Semaphores
  import SE = SemaphoreEffects
  import L = Locks
  import LE = LockEffects
  import M = Messages
  import ME = MessageEffects

  // The run without its last step
  lemma Shorter(ks: seq<Kernel>, steps: seq<Step>)
    requires Run(ks, steps) && steps != []
    ensures var n := |steps| - 1;
      && Run(ks[..n + 1], steps[..n]) && ks[..n + 1][n] == ks[n] && ks[..n + 1][0] == ks[0]
      && Enabled(ks[n], steps[n]) && Next(ks[n], steps[n]) == Some(ks[n + 1])
  {
  }

  // ---------------------------------------------------------------- exits

  // A fork that gives PCB x to the child
  predicate Reuses(k: Kernel, step: Step, x: Id) { step == OfProc(Fork) && k.proc.pool != [] && k.proc.pool[0] == x }

  lemma StepPids(k: Kernel, step: Step, r: Kernel)
    requires Inv(k) && Enabled(k, step) && Next(k, step) == Some(r) && step != OfProc(Fork)
    ensures SamePids(k.proc, r.proc)
  {
    assert Holds(k, Procs) && Holds(k, Sems) && Holds(k, OwnPid);
    MeIsPid(k);
    match step
    case OfProc(p) => ProcStepPids(k.proc, p);
    case OfSem(s) => SemStepPids(S.State(k.proc, k.sems), s);
    case OfLock(l) => LockStepPids(L.State(k.proc, k.locks), l);
    case OfMail(m) => MailStepPids(M.State(k.proc, k.mail), m);
  }

  lemma PooledStays(k: Kernel, step: Step, r: Kernel, x: Id)
    requires Inv(k) && Enabled(k, step) && Next(k, step) == Some(r) && x in k.proc.pool && !Reuses(k, step, x)
    ensures x in r.proc.pool
  {
    assert Holds(k, Procs);
    if step == OfProc(Fork) { ForkPool(k.proc); } else { StepPids(k, step, r); }
  }

  lemma PooledIsGone(k: Kernel, x: Id)
    requires Inv(k) && x in k.proc.pool
    ensures k.proc.pcbs[x].state == Free && k.proc.current != x
  {
    assert Holds(k, Procs);
    assert PcbOk(k.proc, x);
    QueuedHas(k.proc);
  }

  lemma {:induction false} PooledUntilForked(ks: seq<Kernel>, steps: seq<Step>, x: Id, i: nat)
    requires Run(ks, steps) && (forall j :: 0 <= j < |ks| ==> Inv(ks[j])) && i < |ks| && x in ks[0].proc.pool
    requires forall j :: 0 <= j < i ==> !Reuses(ks[j], steps[j], x)
    ensures x in ks[i].proc.pool
  {
    if i > 0 {
      PooledUntilForked(ks, steps, x, i - 1);
      PooledStays(ks[i - 1], steps[i - 1], ks[i], x);
    }
  }

  // Whoever exits in the first step of a run is FREE and not current in every state from then on, until a fork takes
  // the PCB.
  lemma ExitedStaysAway(ks: seq<Kernel>, steps: seq<Step>, x: Id, i: nat)
    requires Run(ks, steps) && Inv(ks[0]) && steps != [] && steps[0] == OfProc(Exit) && x == ks[0].proc.current
    requires 1 <= i < |ks| && forall j :: 1 <= j < i ==> !Reuses(ks[j], steps[j], x)
    ensures x in ks[i].proc.pool && ks[i].proc.pcbs[x].state == Free && ks[i].proc.current != x
  {
    RunKeepsInv(ks, steps);
    RunTail(ks, steps);
    assert Holds(ks[0], Procs);
    ExitEffect(ks[0].proc);
    assert x in ks[0].proc.pool + [x];
    forall j | 0 <= j < i - 1 ensures !Reuses(ks[1..][j], steps[1..][j], x) {
      assert ks[1..][j] == ks[j + 1] && steps[1..][j] == steps[j + 1];
    }
    PooledUntilForked(ks[1..], steps[1..], x, i - 1);
    PooledIsGone(ks[i], x);
  }

  // ---------------------------------------------------------------- the time and the pids

  // The time that the steps lead to: the last one set, and the ticks since, in 32 bits
  function TimeAfter(steps: seq<Step>, start: Time): Time {
    if steps == [] then start else TimeBy(steps[|steps| - 1], TimeAfter(steps[..|steps| - 1], start))
  }

  function TimeBy(step: Step, time: Time): Time {
    match step
    case OfProc(Tick) => (time + 1) % 0x1_0000_0000
    case OfProc(SetTime(given)) => given
    case _ => time
  }

  function Forks(steps: seq<Step>): nat {
    if steps == [] then 0 else Forks(steps[..|steps| - 1]) + One(steps[|steps| - 1] == OfProc(Fork))
  }

  lemma {:induction false} DispatchFromTime(p: Proc, q: nat)
    requires q <= N_PRIOS
    ensures DispatchFrom(p, q).Some? ==> DispatchFrom(p, q).value.time == p.time
    decreases N_PRIOS - q, if q < N_PRIOS then |p.ready[q]| else 0
  {
    if q < N_PRIOS && p.ready[q] == [] {
      DispatchFromTime(p, q + 1);
    } else if q < N_PRIOS && p.pcbs[p.ready[q][0]].state == Killed {
      DispatchFromTime(Cleanup(Take(p, q), p.ready[q][0]), q);
    }
  }

  lemma {:induction false} SchedAllTime(p: Proc, who: seq<Id>, ret: Option<Status>)
    ensures SchedAll(p, who, ret).time == p.time
    decreases |who|
  {
    if who != [] { SchedAllTime(SchedOne(p, who[0], ret), who[1..], ret); }
  }

  lemma ProcStepTime(p: Proc, step: ProcStep)
    requires Sound(p) && NextProc.requires(p, step) && NextProc(p, step).Some?
    ensures NextProc(p, step).value.time == TimeBy(OfProc(step), p.time)
  {
    match step
    case Exit => DispatchFromTime(Processes.Cleanup(p, p.current), 0);
    case ReadChar(ch) => DispatchFromTime(SetState(p, p.current, Blocked).(reading := p.reading + [p.current]), 0);
    case Sleep(ms) => DispatchFromTime(Slept(p, ms), 0);
    case Tick => TickTime(p);
    case _ =>
  }

  lemma TickTime(p: Proc)
    requires Sound(p) && Processes.Tick(p).Some?
    ensures Processes.Tick(p).value.time == (p.time + 1) % 0x1_0000_0000
  {
    var a, n := TickEffect(p);
    if a.pcbs[a.current].quantum < 1 { MadeWayTime(Joining(a, a.current), Processes.Tick(p)); }
  }

  lemma MadeWayTime(m: Proc, result: Option<Proc>)
    requires MakesWay(m, result)
    ensures result.Some? ==> result.value.time == m.time
  {
  }

  lemma StepTime(k: Kernel, step: Step, r: Kernel)
    requires Inv(k) && Enabled(k, step) && Next(k, step) == Some(r)
    ensures r.proc.time == TimeBy(step, k.proc.time)
  {
    assert Holds(k, Procs) && Holds(k, Sems);
    match step
    case OfProc(p) => ProcStepTime(k.proc, p);
    case OfSem(s) => SemStepTime(S.State(k.proc, k.sems), s);
    case OfLock(l) => LockStepTime(L.State(k.proc, k.locks), l);
    case OfMail(m) => DispatchFromTime(k.proc, 0);
  }

  lemma SemStepTime(st: S.State, step: SemStep)
    requires S.SemInv(st.sems) && NextSem.requires(st, step) && NextSem(st, step).Some?
    ensures NextSem(st, step).value.proc.time == st.proc.time
  {
    match step
    case SemDestroy(id) =>
      if Lookup(st.sems.live, id) == Success {
        SchedAllTime(st.proc, st.sems.sems[S.Find(st.sems, id)].waiting, Some(Failure));
      }
    case SemPost(id) => if Lookup(st.sems.live, id) == Success { S.PostIs(st, id); }
    case SemWait(id) => DispatchFromTime(st.proc, 0);
    case _ =>
  }

  lemma LockStepTime(st: L.State, step: LockStep)
    requires NextLock.requires(st, step) && NextLock(st, step).Some?
    ensures NextLock(st, step).value.proc.time == st.proc.time
  {
    match step
    case LockUnlock(id, mode) =>
      if Lookup(st.locks.list, id) == Success {
        var i := Position(st.locks.list, id).value;
        SchedAllTime(st.proc, L.Who(L.Release(st.locks.list[i].data, mode).woken), None);
      }
    case LockLock(id, mode) => DispatchFromTime(st.proc, 0);
    case _ =>
  }

  // In every run the time is the last one set and the ticks since, whatever else happens.
  lemma {:induction false} TimeIsTheRun(ks: seq<Kernel>, steps: seq<Step>)
    requires Run(ks, steps) && Inv(ks[0])
    ensures ks[|steps|].proc.time == TimeAfter(steps, ks[0].proc.time)
    decreases |steps|
  {
    if steps != [] {
      var n := |steps| - 1;
      Shorter(ks, steps);
      RunKeepsInv(ks, steps);
      TimeIsTheRun(ks[..n + 1], steps[..n]);
      StepTime(ks[n], steps[n], ks[n + 1]);
    }
  }

  // The pids given out go up by one with every fork, and with nothing else.
  lemma {:induction false} PidsAreTheRun(ks: seq<Kernel>, steps: seq<Step>)
    requires Run(ks, steps) && Inv(ks[0])
    ensures ks[|steps|].proc.nextPid == ks[0].proc.nextPid + Forks(steps)
    decreases |steps|
  {
    if steps != [] {
      var n := |steps| - 1;
      Shorter(ks, steps);
      RunKeepsInv(ks, steps);
      PidsAreTheRun(ks[..n + 1], steps[..n]);
      StepPidCount(ks[n], steps[n], ks[n + 1]);
    }
  }

  lemma StepPidCount(k: Kernel, step: Step, r: Kernel)
    requires Inv(k) && Enabled(k, step) && Next(k, step) == Some(r)
    ensures r.proc.nextPid == k.proc.nextPid + One(step == OfProc(Fork))
  {
    assert Holds(k, Procs);
    if step == OfProc(Fork) { ForkPool(k.proc); } else { StepPids(k, step, r); }
  }

  // ---------------------------------------------------------------- messages

  // The messages that the steps send to a pid
  function SentTo(steps: seq<Step>, pid: M.Pid): seq<M.Message> {
    if steps == [] then [] else
    var n := |steps| - 1;
    SentTo(steps[..n], pid) + match steps[n]
      case OfMail(Send(to, m)) => if to == pid then [m] else []
      case _ => []
  }

  // Whether somebody waits for a message to the pid
  predicate Awaited(k: Kernel, pid: M.Pid) { exists i :: 0 <= i < |k.mail.waiting| && k.mail.waiting[i].key == pid }

  // The message that a step delivers for a pid: one that is sent to a process waiting for it, or the oldest of the
  // mailbox, to a process with that pid that asks for it.
  function DeliveredBy(k: Kernel, step: Step, pid: M.Pid): seq<M.Message> {
    var mine := k.proc.pcbs[k.proc.current].pid == pid && M.In(k.mail.boxes, pid) != [];
    match step
    case OfMail(Send(to, m)) => if to == pid && Awaited(k, pid) then [m] else []
    case OfMail(_) => if mine then [M.In(k.mail.boxes, pid)[0]] else []
    case _ => []
  }

  function DeliveredFor(ks: seq<Kernel>, steps: seq<Step>, pid: M.Pid): seq<M.Message>
    requires |ks| == |steps| + 1
  {
    if steps == [] then [] else
    var n := |steps| - 1;
    DeliveredFor(ks[..n + 1], steps[..n], pid) + DeliveredBy(ks[n], steps[n], pid)
  }

  lemma MailStepEnters(k: Kernel, step: MailStep, r: Kernel, pid: M.Pid)
    requires Inv(k) && Next(k, OfMail(step)) == Some(r)
    ensures M.In(r.mail.history.sent, pid) == M.In(k.mail.history.sent, pid) +
      if step.Send? && step.to == pid then [step.m] else []
    ensures M.In(r.mail.history.received, pid) == M.In(k.mail.history.received, pid) + DeliveredBy(k, OfMail(step), pid)
  {
    var st := M.State(k.proc, k.mail);
    assert Holds(k, Procs);
    MeIsPid(k);
    match step
    case Send(to, m) => SendEnters(k, to, m, r, pid);
    case Receive => ME.ReceiveEffect(st, Me(k.proc));
    case TryReceive => ME.TryReceiveEffect(k.mail, Me(k.proc), k.proc.current);
  }

  lemma SendEnters(k: Kernel, to: M.Pid, m: M.Message, r: Kernel, pid: M.Pid)
    requires Inv(k) && Next(k, OfMail(Send(to, m))) == Some(r)
    ensures M.In(r.mail.history.sent, pid) == M.In(k.mail.history.sent, pid) + if to == pid then [m] else []
    ensures M.In(r.mail.history.received, pid) ==
      M.In(k.mail.history.received, pid) + DeliveredBy(k, OfMail(Send(to, m)), pid)
  {
    var st := M.State(k.proc, k.mail);
    assert Holds(k, Procs);
    var i := Position(k.mail.waiting, to);
    if i.Some? {
      ME.SendIsHanded(st, to, m, i.value);
      assert Awaited(k, to);
    } else {
      ME.SendIsKept(st, to, m);
      assert !Awaited(k, to);
    }
  }

  lemma {:induction false} HistoryIsTheRun(ks: seq<Kernel>, steps: seq<Step>, pid: M.Pid)
    requires Run(ks, steps) && Boot(ks[0])
    ensures M.In(ks[|steps|].mail.history.sent, pid) == SentTo(steps, pid)
    ensures M.In(ks[|steps|].mail.history.received, pid) == DeliveredFor(ks, steps, pid)
    decreases |steps|
  {
    if steps != [] {
      var n := |steps| - 1;
      Shorter(ks, steps);
      HistoryIsTheRun(ks[..n + 1], steps[..n], pid);
      BootInv(ks[0]);
      RunKeepsInv(ks, steps);
      if steps[n].OfMail? { MailStepEnters(ks[n], steps[n].m, ks[n + 1], pid); }
    }
  }

  // In every run from the start, for each pid: the messages delivered by its steps, followed by those in the mailbox,
  // are the messages sent by its steps.  Each is delivered once and in order, and none is lost.
  lemma SentIsDeliveredOrQueued(ks: seq<Kernel>, steps: seq<Step>, pid: M.Pid)
    requires Run(ks, steps) && Boot(ks[0])
    ensures DeliveredFor(ks, steps, pid) + M.In(ks[|steps|].mail.boxes, pid) == SentTo(steps, pid)
  {
    HistoryIsTheRun(ks, steps, pid);
    BootRunsAreSafe(ks, steps, |steps|);
    assert M.DeliveredTo(ks[|steps|].mail, pid);
  }

  // ---------------------------------------------------------------- semaphores

  // The id names the live semaphore of the record.
  predicate Named(k: Kernel, slot: S.Slot, id: Key) { slot !in k.sems.available && k.sems.sems[slot].id == id }

  // The step makes a semaphore of the record.
  predicate Makes(k: Kernel, step: Step, slot: S.Slot) {
    step == OfSem(SemNew) && k.sems.available != [] && k.sems.available[0] == slot
  }

  // Whether a step posts to the semaphore
  function PostsBy(k: Kernel, step: Step, slot: S.Slot): nat {
    match step
    case OfSem(SemPost(id)) => One(Named(k, slot, id))
    case _ => 0
  }

  // The process that a step brings to the semaphore: by a wait, or by a try_wait that finds a positive value
  function ArrivesBy(k: Kernel, step: Step, slot: S.Slot): seq<Id> {
    match step
    case OfSem(SemWait(id)) => if Named(k, slot, id) then [k.proc.current] else []
    case OfSem(SemTryWait(id)) => if Named(k, slot, id) && k.sems.sems[slot].value > 0 then [k.proc.current] else []
    case _ => []
  }

  // The posts to the semaphore of a record, and the processes that have come to it, since it was made last
  function PostsTo(ks: seq<Kernel>, steps: seq<Step>, slot: S.Slot): nat
    requires |ks| == |steps| + 1
  {
    if steps == [] then 0 else
    var n := |steps| - 1;
    if Makes(ks[n], steps[n], slot) then 0
    else PostsTo(ks[..n + 1], steps[..n], slot) + PostsBy(ks[n], steps[n], slot)
  }

  function ArrivalsAt(ks: seq<Kernel>, steps: seq<Step>, slot: S.Slot): seq<Id>
    requires |ks| == |steps| + 1
  {
    if steps == [] then [] else
    var n := |steps| - 1;
    if Makes(ks[n], steps[n], slot) then []
    else ArrivalsAt(ks[..n + 1], steps[..n], slot) + ArrivesBy(ks[n], steps[n], slot)
  }

  // The live semaphore that an id names, if any
  lemma NamedOrUnknown(k: Kernel, id: Key)
    requires Inv(k)
    ensures (exists slot: S.Slot :: Named(k, slot, id)) ||
      forall slot: S.Slot :: slot !in k.sems.available ==> k.sems.sems[slot].id != id
  {
    if forall slot: S.Slot :: !Named(k, slot, id) {
      forall slot: S.Slot | slot !in k.sems.available ensures k.sems.sems[slot].id != id { assert !Named(k, slot, id); }
    }
  }

  lemma NamesApart(k: Kernel, a: S.Slot, b: S.Slot, id: Key)
    requires Inv(k) && Named(k, a, id) && Named(k, b, id)
    ensures a == b
  {
    assert Holds(k, Sems);
    S.LiveIsFound(k.sems, a);
    S.LiveIsFound(k.sems, b);
  }

  // What a step adds to the log of a semaphore that stays live
  lemma SemStepLogs(k: Kernel, step: SemStep, r: Kernel, slot: S.Slot)
    requires Inv(k) && Enabled(k, OfSem(step)) && Next(k, OfSem(step)) == Some(r)
    requires !Makes(k, OfSem(step), slot) && slot !in r.sems.available
    ensures slot !in k.sems.available
    ensures r.sems.logs[slot].posts == k.sems.logs[slot].posts + PostsBy(k, OfSem(step), slot)
    ensures r.sems.logs[slot].arrived == k.sems.logs[slot].arrived + ArrivesBy(k, OfSem(step), slot)
  {
    var st := S.State(k.proc, k.sems);
    assert Holds(k, Procs) && Holds(k, Sems);
    if step == SemNew {
      SE.NewEffect(k.sems);
      if k.sems.available != [] { assert k.sems.available == [k.sems.available[0]] + k.sems.available[1..]; }
    } else {
      NamedOrUnknown(k, step.id);
      if s: S.Slot :| Named(k, s, step.id) {
        if Named(k, slot, step.id) { NamesApart(k, s, slot, step.id); }
        CallOnLogs(k, step, r, s);
      } else {
        SE.UnknownEffect(st, step.id);
      }
    }
  }

  lemma StepLogs(k: Kernel, step: Step, r: Kernel, slot: S.Slot)
    requires Inv(k) && Enabled(k, step) && Next(k, step) == Some(r)
    requires !Makes(k, step, slot) && slot !in r.sems.available
    ensures slot !in k.sems.available
    ensures r.sems.logs[slot].posts == k.sems.logs[slot].posts + PostsBy(k, step, slot)
    ensures r.sems.logs[slot].arrived == k.sems.logs[slot].arrived + ArrivesBy(k, step, slot)
  {
    if step.OfSem? { SemStepLogs(k, step.s, r, slot); }
  }

  // A call on the semaphore of a record changes the log of that record only.
  lemma CallOnLogs(k: Kernel, step: SemStep, r: Kernel, s: S.Slot)
    requires Inv(k) && Enabled(k, OfSem(step)) && Next(k, OfSem(step)) == Some(r) && step != SemNew
    requires Named(k, s, step.id)
    ensures forall x :: x in k.sems.available ==> x in r.sems.available
    ensures forall x: S.Slot :: x != s ==> r.sems.logs[x] == k.sems.logs[x]
    ensures r.sems.logs[s].posts == k.sems.logs[s].posts + One(step.SemPost?)
    ensures r.sems.logs[s].arrived == k.sems.logs[s].arrived +
      if step.SemWait? || (step.SemTryWait? && k.sems.sems[s].value > 0) then [k.proc.current] else []
  {
    var st := S.State(k.proc, k.sems);
    assert Holds(k, Procs) && Holds(k, Sems);
    match step
    case SemPost(_) => SE.PostEffect(st, s);
    case SemWait(_) => SE.WaitEffect(st, s);
    case SemTryWait(_) => SE.TryWaitEffect(st, s);
    case SemDestroy(_) => var _ := SE.DestroyEffect(st, s);
  }

  lemma MadeLog(k: Kernel, step: Step, r: Kernel, slot: S.Slot)
    requires Inv(k) && Enabled(k, step) && Next(k, step) == Some(r) && Makes(k, step, slot)
    ensures r.sems.logs[slot].posts == 0 && r.sems.logs[slot].arrived == []
  {
    assert Holds(k, Sems);
    SE.NewEffect(k.sems);
  }

  lemma NoneIsLive(k: Kernel)
    requires Boot(k)
    ensures forall slot: S.Slot :: slot in k.sems.available
  {
    forall slot: S.Slot ensures slot in k.sems.available { assert k.sems.available[slot] == slot; }
  }

  lemma {:induction false} LogsAreTheRun(ks: seq<Kernel>, steps: seq<Step>, slot: S.Slot)
    requires Run(ks, steps) && Boot(ks[0]) && (forall j :: 0 <= j < |ks| ==> Inv(ks[j]))
    requires slot !in ks[|steps|].sems.available
    ensures ks[|steps|].sems.logs[slot].posts == PostsTo(ks, steps, slot)
    ensures ks[|steps|].sems.logs[slot].arrived == ArrivalsAt(ks, steps, slot)
    decreases |steps|
  {
    NoneIsLive(ks[0]);
    if steps != [] {
      var n := |steps| - 1;
      var k, step := ks[n], steps[n];
      Shorter(ks, steps);
      if Makes(k, step, slot) {
        MadeLog(k, step, ks[n + 1], slot);
      } else {
        StepLogs(k, step, ks[n + 1], slot);
        LogsAreTheRun(ks[..n + 1], steps[..n], slot);
      }
    }
  }

  // In every run from the start, for each semaphore whose value has not wrapped since it was made: of the processes
  // that its steps have brought to it, as many as its steps have posted have been let through, in order; the others
  // wait, in order; and the value is what is left of the posts.
  lemma PostsLetArrivalsThrough(ks: seq<Kernel>, steps: seq<Step>, slot: S.Slot)
    requires Run(ks, steps) && Boot(ks[0]) && slot !in ks[|steps|].sems.available
    requires ks[|steps|].sems.logs[slot].wraps == 0
    ensures var posts, arrivals := PostsTo(ks, steps, slot), ArrivalsAt(ks, steps, slot);
      var n := if posts < |arrivals| then posts else |arrivals|;
      ks[|steps|].sems.sems[slot].waiting == arrivals[n..] && ks[|steps|].sems.sems[slot].value == posts - n
  {
    BootInv(ks[0]);
    RunKeepsInv(ks, steps);
    LogsAreTheRun(ks, steps, slot);
    assert Holds(ks[|steps|], Sems);
    S.ServiceIsFirstComeFirstServed(ks[|steps|].sems, slot);
  }

  // ---------------------------------------------------------------- locks

  // What a step does to the lock at place i of the list, if anything
  function OpOn(k: Kernel, step: Step, i: nat): Option<L.Op> {
    match step
    case OfLock(LockLock(id, mode)) =>
      if Position(k.locks.list, id) == Some(i) then Some(L.Lock(mode, k.proc.current)) else None
    case OfLock(LockUnlock(id, mode)) => if Position(k.locks.list, id) == Some(i) then Some(L.Unlock(mode)) else None
    case _ => None
  }

  function OpsOn(ks: seq<Kernel>, steps: seq<Step>, i: nat): seq<L.Op>
    requires |ks| == |steps| + 1
  {
    if steps == [] then [] else
    var n := |steps| - 1;
    OpsOn(ks[..n + 1], steps[..n], i) + match OpOn(ks[n], steps[n], i)
      case Some(op) => [op]
      case None => []
  }

  // The list of locks grows at its end only.
  lemma LockListGrows(k: Kernel, step: Step, r: Kernel, i: nat)
    requires Inv(k) && Enabled(k, step) && Next(k, step) == Some(r)
    ensures |k.locks.list| <= |r.locks.list|
    ensures |k.locks.list| <= i < |r.locks.list| ==> r.locks.list[i].data == L.LockInfo(0, 0, [], false)
    ensures i < |k.locks.list| && OpOn(k, step, i).None? ==> r.locks.list[i].data == k.locks.list[i].data
    ensures i < |k.locks.list| && OpOn(k, step, i).Some? ==>
      forall readers, writers ::
        L.Next(L.Held(k.locks.list[i].data, readers, writers), OpOn(k, step, i).value).lock == r.locks.list[i].data
  {
    assert Holds(k, LocksAndMail);
    if step == OfLock(LockNew) { LE.NewEffect(k.locks); }
  }

  lemma {:induction false} NoOpsBefore(ks: seq<Kernel>, steps: seq<Step>, i: nat)
    requires Run(ks, steps) && (forall j :: 0 <= j < |ks| ==> Inv(ks[j])) && |ks[|steps|].locks.list| <= i
    ensures OpsOn(ks, steps, i) == []
    decreases |steps|
  {
    if steps != [] {
      var n := |steps| - 1;
      Shorter(ks, steps);
      LockListGrows(ks[n], steps[n], ks[n + 1], i);
      NoOpsBefore(ks[..n + 1], steps[..n], i);
    }
  }

  lemma LockRunMore(states: seq<L.Held>, ops: seq<L.Op>, op: L.Op)
    requires L.Run(states, ops)
    ensures L.Run(states + [L.Next(states[|ops|], op)], ops + [op])
  {
  }

  // In every run from the start each lock has been through a run of its own, on the calls that have found it.
  lemma {:induction false} LocksAreTheRun(ks: seq<Kernel>, steps: seq<Step>, i: nat) returns (states: seq<L.Held>)
    requires Run(ks, steps) && Boot(ks[0]) && i < |ks[|steps|].locks.list|
    ensures L.Run(states, OpsOn(ks, steps, i))
    ensures states[|OpsOn(ks, steps, i)|].lock == ks[|steps|].locks.list[i].data
    decreases |steps|
  {
    var n := |steps| - 1;
    Shorter(ks, steps);
    BootInv(ks[0]);
    RunKeepsInv(ks, steps);
    LockListGrows(ks[n], steps[n], ks[n + 1], i);
    if i < |ks[n].locks.list| {
      states := LocksAreTheRun(ks[..n + 1], steps[..n], i);
      var ops, op := OpsOn(ks[..n + 1], steps[..n], i), OpOn(ks[n], steps[n], i);
      if op.Some? {
        LockRunMore(states, ops, op.value);
        states := states + [L.Next(states[|ops|], op.value)];
      }
    } else {
      NoOpsBefore(ks[..n + 1], steps[..n], i);
      states := [L.Held(L.LockInfo(0, 0, [], false), 0, 0)];
    }
  }

  // So if only those unlock who have locked, in the same mode, and no unlock is hasty, readers and writers of the lock
  // have been apart throughout.
  lemma LocksExclude(ks: seq<Kernel>, steps: seq<Step>, i: nat) returns (states: seq<L.Held>)
    requires Run(ks, steps) && Boot(ks[0]) && i < |ks[|steps|].locks.list|
    ensures L.Run(states, OpsOn(ks, steps, i)) && states[|OpsOn(ks, steps, i)|].lock == ks[|steps|].locks.list[i].data
    ensures L.MatchedRun(states, OpsOn(ks, steps, i)) ==>
      (L.Patient(states, OpsOn(ks, steps, i)) <==> forall j :: 0 <= j < |states| ==> L.Exclusive(states[j]))
  {
    states := LocksAreTheRun(ks, steps, i);
    if L.MatchedRun(states, OpsOn(ks, steps, i)) { L.ExclusionHoldsIffPatient(states, OpsOn(ks, steps, i)); }
  }
}
