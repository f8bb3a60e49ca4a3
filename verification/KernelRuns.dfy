/**
Whole runs of the kernel: one state for processes, semaphores, locks and messages, and one step for each system
call and interrupt.  Handlers run to completion, so every step is atomic.
*/
module KernelRuns {
  import opened Options
  import opened QueueSpec
  import opened Processes
  import opened ProcessSafety
  import opened Fairness
  import S = Semaphores
  import L = Locks
  import M = Messages
  import opened Types

  datatype Kernel = Kernel(proc: Proc, sems: S.Sems, locks: L.Locks, mail: M.Mail)

  datatype ProcStep = Fork | Exit | ReadChar(ch: int) | Sleep(ms: Time) | Kill(pid: nat) | SetPriority(arg: nat)
                    | SetTime(time: Time) | Received(code: nat) | Tick

  datatype SemStep = SemNew | SemDestroy(id: Key) | SemPost(id: Key) | SemWait(id: Key) | SemTryWait(id: Key)

  datatype LockStep = LockNew | LockLock(id: Key, mode: L.Mode) | LockUnlock(id: Key, mode: L.Mode)

  // A message can come from a process or from the kernel.
  datatype MailStep = Send(to: M.Pid, m: M.Message) | Receive | TryReceive

  datatype Step = OfProc(p: ProcStep) | OfSem(s: SemStep) | OfLock(l: LockStep) | OfMail(m: MailStep)

  // The pool is not empty at a fork, and the counters of pids and ids do not wrap.
  predicate Enabled(k: Kernel, step: Step) {
    && (step == OfProc(Fork) ==> k.proc.pool != [] && k.proc.nextPid < 0x1_0000)
    && (step == OfSem(SemNew) ==> k.sems.count + 1 < S.NO_SEMAPHORE)
    && (step == OfLock(LockNew) ==> k.locks.count + 1 < 0x1_0000_0000)
  }

  function NextProc(p: Proc, step: ProcStep): Option<Proc>
    requires step == Fork ==> p.pool != []
  {
    match step
    case Fork => Processes.Fork(p)
    case Exit => Processes.Exit(p)
    case ReadChar(ch) => Read(p, ch)
    case Sleep(ms) => Processes.Sleep(p, ms)
    case Kill(pid) => Some(Processes.Kill(p, pid))
    case SetPriority(arg) => Some(Processes.SetPriority(p, arg))
    case SetTime(time) => Some(Processes.SetTime(p, time))
    case Received(ch) => Some(SerialInput(p, ch))
    case Tick => Processes.Tick(p)
  }

  function NextSem(st: S.State, step: SemStep): Option<S.State>
    requires step == SemNew ==> st.sems.count + 1 < S.NO_SEMAPHORE
  {
    match step
    case SemNew => Some(S.State(st.proc, S.New(st.sems).0))
    case SemDestroy(id) => Some(S.Destroy(st, id))
    case SemPost(id) => Some(S.Post(st, id))
    case SemWait(id) => S.Wait(st, id)
    case SemTryWait(id) => Some(S.TryWait(st, id).0)
  }

  function NextLock(st: L.State, step: LockStep): Option<L.State>
    requires step == LockNew ==> st.locks.count + 1 < 0x1_0000_0000
  {
    match step
    case LockNew => Some(L.State(st.proc, L.New(st.locks).0))
    case LockLock(id, mode) => L.LockLock(st, id, mode)
    case LockUnlock(id, mode) => Some(L.LockUnlock(st, id, mode).0)
  }

  function Me(p: Proc): M.Pid { p.pcbs[p.current].pid % 0x1_0000 }

  function NextMail(st: M.State, step: MailStep): Option<M.State> {
    match step
    case Send(to, m) => Some(M.Send(st, to, m).0)
    case Receive => M.Receive(st, Me(st.proc))
    case TryReceive => Some(M.State(st.proc, M.TryReceive(st.mail, Me(st.proc), st.proc.current).0))
  }

  // The state after a step, unless the kernel panics.
  function Next(k: Kernel, step: Step): Option<Kernel>
    requires Enabled(k, step)
  {
    match step
    case OfProc(p) =>
      (match NextProc(k.proc, p) case None => None case Some(r) => Some(k.(proc := r)))
    case OfSem(s) =>
      (match NextSem(S.State(k.proc, k.sems), s)
       case None => None
       case Some(r) => Some(k.(proc := r.proc, sems := r.sems)))
    case OfLock(l) =>
      (match NextLock(L.State(k.proc, k.locks), l)
       case None => None
       case Some(r) => Some(k.(proc := r.proc, locks := r.locks)))
    case OfMail(m) =>
      (match NextMail(M.State(k.proc, k.mail), m)
       case None => None
       case Some(r) => Some(k.(proc := r.proc, mail := r.mail)))
  }

  // ---------------------------------------------------------------- the invariant

  // In how many places PCB x is: the pool, a ready queue, the sleep or read queue, a semaphore's, a lock's or the
  // message waiting list, or current.
  function Places(k: Kernel, x: nat): nat {
    Placed(k.proc, x) + S.SemOcc(k.sems.sems, x) + L.LockOcc(k.locks.list, x) + DataOcc(k.mail.waiting, x)
  }

  datatype Clause = OnePlace | Procs | Sems | LocksAndMail | OwnPid | Given

  // A process blocked in receive waits under its own pid.
  ghost predicate OwnPids(p: Proc, waiting: seq<Item<Id>>) {
    forall i :: 0 <= i < |waiting| ==> waiting[i].key == p.pcbs[waiting[i].data].pid
  }

  ghost predicate Holds(k: Kernel, c: Clause) {
    match c
    case OnePlace => forall x: Id :: Places(k, x) == 1
    case Procs => Sound(k.proc) && k.proc.nextPid <= 0x1_0000
    case Sems => S.SemInv(k.sems)
    case LocksAndMail => L.LocksInv(k.locks) && M.MailInv(k.mail)
    case OwnPid => OwnPids(k.proc, k.mail.waiting)
    case Given => M.GivenOk(k.proc, k.mail)
  }

  ghost predicate Inv(k: Kernel) { forall c: Clause :: Holds(k, c) }

  ghost predicate Boot(k: Kernel) {
    Booted(k.proc) && S.NoneMade(k.sems) && k.locks == L.Locks([], 0)
      && k.mail == M.Mail(map[], [], map[], M.History(map[], map[]))
  }

  lemma BootInv(k: Kernel)
    requires Boot(k)
    ensures Inv(k)
  {
    BootedSound(k.proc);
    S.NoneMadeInv(k.sems);
    forall c: Clause ensures Holds(k, c) {
      match c
      case OnePlace => forall x: Id ensures Places(k, x) == 1 {}
      case LocksAndMail => forall pid: M.Pid ensures M.DeliveredTo(k.mail, pid) {}
      case _ =>
    }
  }

  // ---------------------------------------------------------------- every step keeps it

  lemma ProcStepKeeps(p: Proc, step: ProcStep)
    requires Sound(p) && (step == Fork ==> p.pool != []) && NextProc(p, step).Some?
    ensures Keeps(p, NextProc(p, step).value)
  {
    match step
    case Fork => ForkSound(p);
    case Exit => ExitSound(p);
    case ReadChar(ch) => ReadSound(p, ch);
    case Sleep(ms) => SleepSound(p, ms);
    case Kill(pid) => KillSound(p, pid);
    case SetPriority(arg) => SetPrioritySound(p, arg);
    case SetTime(time) => SetTimeSound(p, time);
    case Received(ch) => SerialInputSound(p, ch);
    case Tick => TickSound(p);
  }

  lemma ProcStepMoves(p: Proc, step: ProcStep)
    requires Sound(p) && (step == Fork ==> p.pool != []) && NextProc(p, step).Some? && step != Tick
    ensures Moved(p, NextProc(p, step).value)
  {
    match step
    case Fork => ForkMoves(p);
    case Exit => ExitMoves(p);
    case ReadChar(ch) => ReadMoves(p, ch);
    case Sleep(ms) => SleepMoves(p, ms);
    case Kill(pid) => KillMoves(p, pid);
    case SetPriority(arg) => SetPriorityMoves(p, arg);
    case SetTime(time) =>
    case Received(ch) => SerialInputMoves(p, ch);
  }

  lemma SemStepKeeps(st: S.State, step: SemStep)
    requires S.SemSound(st) && (step == SemNew ==> st.sems.count + 1 < S.NO_SEMAPHORE) && NextSem(st, step).Some?
    ensures S.SemKeeps(st, NextSem(st, step).value)
  {
    match step
    case SemNew => S.NewKeeps(st.sems);
    case SemDestroy(id) => S.DestroyKeeps(st, id);
    case SemPost(id) => S.PostKeeps(st, id);
    case SemWait(id) => S.WaitKeeps(st, id);
    case SemTryWait(id) => S.TryWaitKeeps(st, id);
  }

  lemma LockStepKeeps(st: L.State, step: LockStep)
    requires L.LockSound(st) && (step == LockNew ==> st.locks.count + 1 < 0x1_0000_0000) && NextLock(st, step).Some?
    ensures L.LockKeeps(st, NextLock(st, step).value)
  {
    match step
    case LockNew => L.NewKeeps(st.locks);
    case LockLock(id, mode) => L.LockLockKeeps(st, id, mode);
    case LockUnlock(id, mode) => L.LockUnlockKeeps(st, id, mode);
  }

  lemma MailStepKeeps(st: M.State, step: MailStep)
    requires M.MailSound(st) && NextMail(st, step).Some?
    ensures M.MailKeeps(st, NextMail(st, step).value)
  {
    match step
    case Send(to, m) => M.SendKeeps(st, to, m);
    case Receive => M.ReceiveKeeps(st, Me(st.proc));
    case TryReceive => M.TryReceiveKeeps(st.mail, Me(st.proc), st.proc.current);
  }

  lemma ProcStepPids(p: Proc, step: ProcStep)
    requires NextProc.requires(p, step) && step != Fork && NextProc(p, step).Some?
    ensures SamePids(p, NextProc(p, step).value)
  {
    match step
    case Exit => DispatchFromPids(Processes.Cleanup(p, p.current), 0);
    case ReadChar(ch) => DispatchFromPids(SetState(p, p.current, Blocked).(reading := p.reading + [p.current]), 0);
    case Sleep(ms) => DispatchFromPids(Slept(p, ms), 0);
    case Tick => TickPids(p);
    case _ =>
  }

  lemma SemStepPids(st: S.State, step: SemStep)
    requires S.SemInv(st.sems) && NextSem.requires(st, step) && NextSem(st, step).Some?
    ensures SamePids(st.proc, NextSem(st, step).value.proc)
  {
    match step
    case SemDestroy(id) =>
      if Lookup(st.sems.live, id) == Success {
        SchedAllPids(st.proc, st.sems.sems[S.Find(st.sems, id)].waiting, Some(Failure));
      }
    case SemPost(id) => if Lookup(st.sems.live, id) == Success { S.PostIs(st, id); }
    case SemWait(id) => DispatchFromPids(st.proc, 0);
    case _ =>
  }

  lemma LockStepPids(st: L.State, step: LockStep)
    requires NextLock.requires(st, step) && NextLock(st, step).Some?
    ensures SamePids(st.proc, NextLock(st, step).value.proc)
  {
    match step
    case LockUnlock(id, mode) =>
      if Lookup(st.locks.list, id) == Success {
        SchedAllPids(st.proc, L.Who(L.Release(st.locks.list[Position(st.locks.list, id).value].data, mode).woken),
          None);
      }
    case LockLock(id, mode) => DispatchFromPids(st.proc, 0);
    case _ =>
  }

  lemma MailStepPids(st: M.State, step: MailStep)
    requires NextMail(st, step).Some? && Me(st.proc) == st.proc.pcbs[st.proc.current].pid
    requires OwnPids(st.proc, st.mail.waiting)
    ensures SamePids(st.proc, NextMail(st, step).value.proc)
    ensures OwnPids(NextMail(st, step).value.proc, NextMail(st, step).value.mail.waiting)
  {
    match step
    case Receive => DispatchFromPids(st.proc, 0);
    case _ =>
  }

  // A process that waits for a message keeps its pid.
  lemma ForkOwnPids(p: Proc, waiting: seq<Item<Id>>)
    requires Sound(p) && p.pool != [] && OwnPids(p, waiting) && forall x: Id :: Placed(p, x) + DataOcc(waiting, x) <= 1
    ensures Processes.Fork(p).Some? && OwnPids(Processes.Fork(p).value, waiting)
  {
    ForkEffect(p);
    QueuedHas(p);
    forall i | 0 <= i < |waiting| ensures waiting[i].data != p.pool[0] {
      DataHas(waiting, i);
      assert Placed(p, waiting[i].data) + DataOcc(waiting, waiting[i].data) <= 1;
    }
  }

  // Nothing has been received for the pid of a new process.
  lemma ForkGiven(p: Proc, mail: M.Mail)
    requires Sound(p) && p.pool != [] && M.GivenOk(p, mail) && Processes.Fork(p).Some?
    ensures M.GivenOk(Processes.Fork(p).value, mail)
  {
    var r := Processes.Fork(p).value;
    ForkEffect(p);
    ForkPool(p);
    forall x: Id | x !in r.pool ensures M.HoldsLast(r, mail, x) {
      if x != p.pool[0] { assert x !in p.pool && M.HoldsLast(p, mail, x); }
    }
  }

  // The pid of the current process is a 16-bit word as it stands.
  lemma MeIsPid(k: Kernel)
    requires Inv(k)
    ensures Me(k.proc) == k.proc.pcbs[k.proc.current].pid
  {
    assert Holds(k, Procs);
    QueuedHas(k.proc);
    assert PcbOk(k.proc, k.proc.current);
  }

  // Moving between the lists of different modules does not change the number of places.
  lemma OnePlaceStays(k: Kernel, r: Kernel)
    requires Holds(k, OnePlace) && forall x :: Places(r, x) == Places(k, x)
    ensures Holds(r, OnePlace)
  {
  }

  // A step of processes that give out no pid
  lemma PidClausesStay(k: Kernel, r: Kernel)
    requires Inv(k) && Sound(r.proc) && SamePids(k.proc, r.proc) && r.mail == k.mail
    ensures Holds(r, Procs) && Holds(r, OwnPid) && Holds(r, Given)
  {
    assert Holds(k, Procs) && Holds(k, OwnPid) && Holds(k, Given);
    M.GivenStays(k.proc, r.proc, k.mail, r.mail);
  }

  lemma ForkInv(k: Kernel, r: Kernel)
    requires Inv(k) && Enabled(k, OfProc(Fork)) && Next(k, OfProc(Fork)) == Some(r)
    ensures Holds(r, Procs) && Holds(r, OwnPid) && Holds(r, Given)
  {
    assert Holds(k, OnePlace) && Holds(k, Procs) && Holds(k, OwnPid) && Holds(k, Given);
    forall x: Id ensures Placed(k.proc, x) + DataOcc(k.mail.waiting, x) <= 1 { assert Places(k, x) == 1; }
    ForkSound(k.proc);
    ForkPool(k.proc);
    ForkOwnPids(k.proc, k.mail.waiting);
    ForkGiven(k.proc, k.mail);
  }

  lemma ProcInv(k: Kernel, step: ProcStep, r: Kernel)
    requires Inv(k) && Enabled(k, OfProc(step)) && Next(k, OfProc(step)) == Some(r)
    ensures Inv(r)
  {
    assert Holds(k, OnePlace) && Holds(k, Procs);
    ProcStepKeeps(k.proc, step);
    OnePlaceStays(k, r);
    if step == Fork {
      ForkInv(k, r);
    } else {
      ProcStepPids(k.proc, step);
      PidClausesStay(k, r);
    }
    forall c: Clause ensures Holds(r, c) { assert Holds(k, c); }
  }

  lemma SemInv(k: Kernel, step: SemStep, r: Kernel)
    requires Inv(k) && Enabled(k, OfSem(step)) && Next(k, OfSem(step)) == Some(r)
    ensures Inv(r) && Moved(k.proc, r.proc)
  {
    var st := S.State(k.proc, k.sems);
    assert Holds(k, OnePlace) && Holds(k, Procs) && Holds(k, Sems);
    forall x: Id ensures Placed(k.proc, x) + S.SemOcc(k.sems.sems, x) <= 1 { assert Places(k, x) == 1; }
    SemStepKeeps(st, step);
    SemStepPids(st, step);
    SemPlaces(k, r);
    PidClausesStay(k, r);
    forall c: Clause ensures Holds(r, c) { assert Holds(k, c); }
  }

  lemma SemPlaces(k: Kernel, r: Kernel)
    requires Holds(k, OnePlace) && r.locks == k.locks && r.mail == k.mail
    requires forall x :: Placed(r.proc, x) + S.SemOcc(r.sems.sems, x) == Placed(k.proc, x) + S.SemOcc(k.sems.sems, x)
    ensures Holds(r, OnePlace)
  {
    forall x ensures Places(r, x) == Places(k, x) {
      assert Placed(r.proc, x) + S.SemOcc(r.sems.sems, x) == Placed(k.proc, x) + S.SemOcc(k.sems.sems, x);
    }
    OnePlaceStays(k, r);
  }

  lemma LockInv(k: Kernel, step: LockStep, r: Kernel)
    requires Inv(k) && Enabled(k, OfLock(step)) && Next(k, OfLock(step)) == Some(r)
    ensures Inv(r) && Moved(k.proc, r.proc)
  {
    var st := L.State(k.proc, k.locks);
    assert Holds(k, OnePlace) && Holds(k, Procs) && Holds(k, LocksAndMail);
    forall x: Id ensures Placed(k.proc, x) + L.LockOcc(k.locks.list, x) <= 1 { assert Places(k, x) == 1; }
    LockStepKeeps(st, step);
    LockStepPids(st, step);
    LockPlaces(k, r);
    PidClausesStay(k, r);
    forall c: Clause ensures Holds(r, c) { assert Holds(k, c); }
  }

  lemma LockPlaces(k: Kernel, r: Kernel)
    requires Holds(k, OnePlace) && r.sems == k.sems && r.mail == k.mail
    requires forall x ::
      Placed(r.proc, x) + L.LockOcc(r.locks.list, x) == Placed(k.proc, x) + L.LockOcc(k.locks.list, x)
    ensures Holds(r, OnePlace)
  {
    forall x ensures Places(r, x) == Places(k, x) {
      assert Placed(r.proc, x) + L.LockOcc(r.locks.list, x) == Placed(k.proc, x) + L.LockOcc(k.locks.list, x);
    }
    OnePlaceStays(k, r);
  }

  lemma MailInv(k: Kernel, step: MailStep, r: Kernel)
    requires Inv(k) && Next(k, OfMail(step)) == Some(r)
    ensures Inv(r) && Moved(k.proc, r.proc)
  {
    var st := M.State(k.proc, k.mail);
    assert Holds(k, OnePlace) && Holds(k, Procs) && Holds(k, LocksAndMail);
    forall x: Id ensures Placed(k.proc, x) + DataOcc(k.mail.waiting, x) <= 1 { assert Places(k, x) == 1; }
    MailStepKeeps(st, step);
    MailPlaces(k, r);
    MailPids(k, step, r);
    forall c: Clause ensures Holds(r, c) { assert Holds(k, c); }
  }

  lemma MailPlaces(k: Kernel, r: Kernel)
    requires Holds(k, OnePlace) && r.sems == k.sems && r.locks == k.locks
    requires forall x ::
      Placed(r.proc, x) + DataOcc(r.mail.waiting, x) == Placed(k.proc, x) + DataOcc(k.mail.waiting, x)
    ensures Holds(r, OnePlace)
  {
    forall x ensures Places(r, x) == Places(k, x) {
      assert Placed(r.proc, x) + DataOcc(r.mail.waiting, x) == Placed(k.proc, x) + DataOcc(k.mail.waiting, x);
    }
    OnePlaceStays(k, r);
  }

  lemma MailPids(k: Kernel, step: MailStep, r: Kernel)
    requires Inv(k) && Next(k, OfMail(step)) == Some(r)
    ensures r.proc.nextPid == k.proc.nextPid && Holds(r, OwnPid) && Holds(r, Given)
  {
    var st := M.State(k.proc, k.mail);
    assert Holds(k, OnePlace) && Holds(k, Procs) && Holds(k, OwnPid) && Holds(k, Given);
    MeIsPid(k);
    MailStepPids(st, step);
    match step
    case Send(to, m) =>
      var i := Position(k.mail.waiting, to);
      if i.Some? {
        WaiterIsLive(k, i.value);
        M.GivenTo(k.proc, r.proc, k.mail, r.mail, k.mail.waiting[i.value].data, m);
      } else {
        M.GivenStays(k.proc, r.proc, k.mail, r.mail);
      }
    case _ =>
      QueuedHas(k.proc);
      if M.In(k.mail.boxes, Me(k.proc)) != [] {
        M.GivenTo(k.proc, r.proc, k.mail, r.mail, k.proc.current, k.mail.boxes[Me(k.proc)][0]);
      } else {
        M.GivenStays(k.proc, r.proc, k.mail, r.mail);
      }
  }

  // A process that waits for a message is not in the pool.
  lemma WaiterIsLive(k: Kernel, i: nat)
    requires Holds(k, OnePlace) && i < |k.mail.waiting|
    ensures k.mail.waiting[i].data !in k.proc.pool
  {
    var x := k.mail.waiting[i].data;
    DataHas(k.mail.waiting, i);
    QueuedHas(k.proc);
    assert Places(k, x) == 1;
  }

  lemma StepKeepsInv(k: Kernel, step: Step)
    requires Inv(k) && Enabled(k, step) && Next(k, step).Some?
    ensures Inv(Next(k, step).value)
  {
    match step
    case OfProc(p) => ProcInv(k, p, Next(k, step).value);
    case OfSem(s) => SemInv(k, s, Next(k, step).value);
    case OfLock(l) => LockInv(k, l, Next(k, step).value);
    case OfMail(m) => MailInv(k, m, Next(k, step).value);
  }

  lemma StepMoves(k: Kernel, step: Step)
    requires Inv(k) && Enabled(k, step) && Next(k, step).Some? && step != OfProc(Tick)
    ensures Moved(k.proc, Next(k, step).value.proc)
  {
    match step
    case OfProc(p) =>
      assert Holds(k, Procs);
      ProcStepMoves(k.proc, p);
    case OfSem(s) => SemInv(k, s, Next(k, step).value);
    case OfLock(l) => LockInv(k, l, Next(k, step).value);
    case OfMail(m) => MailInv(k, m, Next(k, step).value);
  }

  // ---------------------------------------------------------------- runs

  // The states of a run that has not panicked.
  ghost predicate Run(ks: seq<Kernel>, steps: seq<Step>) {
    && |ks| == |steps| + 1
    && forall i :: 0 <= i < |steps| ==> Enabled(ks[i], steps[i]) && Next(ks[i], steps[i]) == Some(ks[i + 1])
  }

  lemma RunTail(ks: seq<Kernel>, steps: seq<Step>)
    requires Run(ks, steps) && steps != []
    ensures Enabled(ks[0], steps[0]) && Next(ks[0], steps[0]) == Some(ks[1]) && Run(ks[1..], steps[1..])
  {
    assert forall i :: 0 <= i < |steps| ==> ks[1..][i] == ks[i + 1];
    assert forall i :: 0 <= i < |steps| - 1 ==> steps[1..][i] == steps[i + 1];
  }

  // In every state of every run each PCB is in exactly one place, pool members are FREE, and what the other
  // modules promise holds.
  lemma {:induction false} RunKeepsInv(ks: seq<Kernel>, steps: seq<Step>)
    requires Run(ks, steps) && Inv(ks[0])
    ensures forall i :: 0 <= i < |ks| ==> Inv(ks[i])
  {
    if steps != [] {
      RunTail(ks, steps);
      StepKeepsInv(ks[0], steps[0]);
      RunKeepsInv(ks[1..], steps[1..]);
      forall i | 0 <= i < |ks| ensures Inv(ks[i]) { assert i > 0 ==> ks[i] == ks[1..][i - 1]; }
    }
  }

  // The same, spelt out for a run from the start of the system.
  lemma BootRunsAreSafe(ks: seq<Kernel>, steps: seq<Step>, i: nat)
    requires Run(ks, steps) && Boot(ks[0]) && i < |ks|
    ensures forall x: Id :: Places(ks[i], x) == 1
    ensures forall x: Id :: x in ks[i].proc.pool ==> ks[i].proc.pcbs[x].state == Free
    ensures forall pid: M.Pid :: M.DeliveredTo(ks[i].mail, pid)
    ensures forall j :: 0 <= j < |ks[i].mail.waiting| ==>
      var pid := ks[i].proc.pcbs[ks[i].mail.waiting[j].data].pid; pid < 0x1_0000 && M.In(ks[i].mail.boxes, pid) == []
    ensures forall x: Id :: x !in ks[i].proc.pool ==> M.HoldsLast(ks[i].proc, ks[i].mail, x)
  {
    BootInv(ks[0]);
    RunKeepsInv(ks, steps);
    assert Holds(ks[i], OnePlace) && Holds(ks[i], Procs) && Holds(ks[i], LocksAndMail) && Holds(ks[i], OwnPid)
      && Holds(ks[i], Given);
    forall x: Id | x in ks[i].proc.pool ensures ks[i].proc.pcbs[x].state == Free { assert PcbOk(ks[i].proc, x); }
  }

  // A fork from a state of a run never panics: the PCB it takes from the pool is FREE.
  lemma ForkNeverPanics(k: Kernel)
    requires Inv(k) && Enabled(k, OfProc(Fork))
    ensures Next(k, OfProc(Fork)).Some?
  {
    assert Holds(k, Procs);
    ForkIs(k.proc);
  }

  // ---------------------------------------------------------------- a start

  function BootPool(n: nat): (s: seq<Id>)
    requires n < N_PCBS
    ensures |s| == n && forall i :: 0 <= i < n ==> s[i] == i + 1
  {
    if n == 0 then [] else BootPool(n - 1) + [n]
  }

  function Slots(n: nat): (s: seq<S.Slot>)
    requires n <= S.MAX_SEMAPHORES
    ensures |s| == n && forall i :: 0 <= i < n ==> s[i] == i
  {
    if n == 0 then [] else Slots(n - 1) + [n - 1]
  }

  // The system as it starts
  function Started(): Kernel {
    var pcbs := Blanks(N_PCBS)[0 := BLANK.(pid := PID_INIT, ppid := PID_INIT)];
    Kernel(Proc(pcbs, BootPool(N_PCBS - 1), [[], [], [], []], [], [], 0, 0, PID_INIT + 1),
           S.Sems(S.NoSems(S.MAX_SEMAPHORES), S.NoLogs(S.MAX_SEMAPHORES), [], Slots(S.MAX_SEMAPHORES), 0),
           L.Locks([], 0), M.Mail(map[], [], map[], M.History(map[], map[])))
  }

  lemma StartedIsBoot()
    ensures Boot(Started())
  {
  }

  // ---------------------------------------------------------------- waiting

  function Ticks(steps: seq<Step>): nat {
    if steps == [] then 0 else One(steps[0] == OfProc(Tick)) + Ticks(steps[1..])
  }

  // One step brings x closer, by a tick if it is one, or cleans it up.
  lemma StepAdvances(k: Kernel, step: Step, r: Kernel, x: Id, q: nat, i: nat)
    requires Inv(k) && Enabled(k, step) && Next(k, step) == Some(r)
    requires At(k.proc, x, q, i) && Undisturbed(r.proc, q)
    ensures Nearer(r.proc, x, q, Wait(k.proc, i) - One(step == OfProc(Tick))) || Gone(k.proc, r.proc, x)
  {
    assert Holds(k, Procs);
    if step == OfProc(Tick) {
      TickAdvances(k.proc, x, q, i);
    } else {
      StepMoves(k, step);
      MovedAdvances(k.proc, r.proc, x, q, i);
    }
  }

  // By state i of the run x has been current, or the step before has cleaned it up.
  ghost predicate Served(ks: seq<Kernel>, x: Id, i: nat)
    requires i < |ks|
  {
    ks[i].proc.current == x || (i > 0 && Gone(ks[i - 1].proc, ks[i].proc, x))
  }

  lemma {:induction false} WaitingEnds(ks: seq<Kernel>, steps: seq<Step>, x: Id, q: nat, k: nat)
    requires Run(ks, steps) && Inv(ks[0]) && At(ks[0].proc, x, q, k)
    requires forall i :: 0 <= i < |ks| ==> Undisturbed(ks[i].proc, q)
    requires Ticks(steps) >= Wait(ks[0].proc, k)
    ensures exists i :: 0 <= i < |ks| && Served(ks, x, i)
    decreases |steps|
  {
    RunTail(ks, steps);
    StepKeepsInv(ks[0], steps[0]);
    StepAdvances(ks[0], steps[0], ks[1], x, q, k);
    if !Served(ks, x, 1) {
      var k1: nat :| At(ks[1].proc, x, q, k1)
        && Wait(ks[1].proc, k1) <= Wait(ks[0].proc, k) - One(steps[0] == OfProc(Tick));
      forall i | 0 <= i < |ks[1..]| ensures Undisturbed(ks[1..][i].proc, q) { assert Undisturbed(ks[i + 1].proc, q); }
      WaitingEnds(ks[1..], steps[1..], x, q, k1);
      var i :| 0 <= i < |ks[1..]| && Served(ks[1..], x, i);
      assert Served(ks, x, i + 1);
    }
  }

  // While no process of higher priority is current or ready, x at position k of its ready queue becomes the current
  // process, or is cleaned up if it has been killed, within (k + 1) * (STD_QUANTUM + 1) ticks, whatever else happens.
  lemma BoundedService(ks: seq<Kernel>, steps: seq<Step>, x: Id, q: nat, k: nat)
    requires Run(ks, steps) && Inv(ks[0]) && At(ks[0].proc, x, q, k)
    requires forall i :: 0 <= i < |ks| ==> Undisturbed(ks[i].proc, q)
    requires Ticks(steps) >= (k + 1) * (STD_QUANTUM + 1)
    ensures exists i :: 0 <= i < |ks| && Served(ks, x, i)
  {
    assert Holds(ks[0], Procs) && PcbOk(ks[0].proc, ks[0].proc.current);
    WaitingEnds(ks, steps, x, q, k);
  }

  // So if it is not killed it becomes the current process.
  lemma BoundedWaiting(ks: seq<Kernel>, steps: seq<Step>, x: Id, q: nat, k: nat)
    requires Run(ks, steps) && Inv(ks[0]) && At(ks[0].proc, x, q, k)
    requires forall i :: 0 <= i < |ks| ==> Quiet(ks[i].proc, x, q)
    requires Ticks(steps) >= (k + 1) * (STD_QUANTUM + 1)
    ensures exists i :: 0 <= i < |ks| && ks[i].proc.current == x
  {
    assert forall i :: 0 <= i < |ks| ==> Undisturbed(ks[i].proc, q);
    BoundedService(ks, steps, x, q, k);
    var i :| 0 <= i < |ks| && Served(ks, x, i);
    assert i > 0 ==> Quiet(ks[i - 1].proc, x, q);
  }
}
