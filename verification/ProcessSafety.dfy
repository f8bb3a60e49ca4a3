/**
What every process step keeps: each PCB is in at most one place of `Processes`, pool members are FREE, ready
processes are in the queue of their priority, pids are unique, and the sleep queue is sorted.
*/
module ProcessSafety {
  import opened Options
  import opened QueueSpec
  import opened Processes
  import opened Types

  // PCB x is in at most one place; it is FREE if it is in the pool, and has a pid that was given out if not.
  ghost predicate PcbOk(p: Proc, x: Id) {
    && Queued(p, x) <= 1 && p.pcbs[x].priority < N_PRIOS && p.pcbs[x].quantum <= STD_QUANTUM
    && if x in p.pool then p.pcbs[x].state == Free else p.pcbs[x].pid < p.nextPid
  }

  ghost predicate DistinctPids(p: Proc) {
    forall i: Id, j: Id :: i != j && i !in p.pool && j !in p.pool ==> p.pcbs[i].pid != p.pcbs[j].pid
  }

  ghost predicate ReadyPcb(pcb: Pcb, q: nat) { pcb.priority == q && (pcb.state == Ready || pcb.state == Killed) }

  ghost predicate ReadyOk(p: Proc) {
    forall q, i :: 0 <= q < N_PRIOS && 0 <= i < |p.ready[q]| ==> ReadyPcb(p.pcbs[p.ready[q][i]], q)
  }

  // The invariant inside a handler, when the current process may already be queued.
  ghost predicate Core(p: Proc) {
    && DistinctPids(p) && ReadyOk(p) && Sorted(AscendingUint, p.sleeping)
    && forall x: Id :: PcbOk(p, x)
  }

  // The invariant between handlers: the current process is on no queue.
  ghost predicate Sound(p: Proc) { Core(p) && Queued(p, p.current) == 0 }

  // ---------------------------------------------------------------- the primitive moves

  lemma QueuedHas(p: Proc)
    ensures forall x :: x in p.pool ==> Queued(p, x) >= 1
    ensures forall x :: x in p.reading ==> Queued(p, x) >= 1
    ensures forall q, i :: 0 <= q < N_PRIOS && 0 <= i < |p.ready[q]| ==> Queued(p, p.ready[q][i]) >= 1
  {
    forall q, i | 0 <= q < N_PRIOS && 0 <= i < |p.ready[q]| ensures Queued(p, p.ready[q][i]) >= 1 {
      FlatHas(p.ready, q, p.ready[q][i]);
    }
  }

  // A process that is nowhere in the module may change in everything but its pid.
  lemma SetPcbSound(p: Proc, i: Id, pcb: Pcb)
    requires Core(p) && Queued(p, i) == 0
    requires pcb.pid == p.pcbs[i].pid && pcb.priority < N_PRIOS && pcb.quantum <= STD_QUANTUM
    ensures Core(SetPcb(p, i, pcb))
  {
    QueuedHas(p);
    var r := SetPcb(p, i, pcb);
    assert forall j :: 0 <= j < N_PCBS && j != i ==> r.pcbs[j] == p.pcbs[j];
    forall q, j | 0 <= q < N_PRIOS && 0 <= j < |r.ready[q]| ensures ReadyPcb(r.pcbs[r.ready[q][j]], q) {
      assert p.ready[q][j] != i;
    }
    QueuesKeepPlaces(p, r);
    forall x: Id ensures PcbOk(r, x) { assert PcbOk(p, x); }
  }

  lemma QueuesKeepPlaces(p: Proc, r: Proc)
    requires p.pool == r.pool && p.ready == r.ready && p.sleeping == r.sleeping && p.reading == r.reading
    ensures forall x :: Queued(r, x) == Queued(p, x)
  {
  }

  // Return values and results are not part of the invariant.
  lemma AnswerSound(p: Proc, i: Id, word: int)
    requires Core(p)
    ensures Core(Answer(p, i, word)) && forall x :: Queued(Answer(p, i, word), x) == Queued(p, x)
  {
    var r := Answer(p, i, word);
    assert forall j :: 0 <= j < N_PCBS ==> r.pcbs[j].(ret := p.pcbs[j].ret, info := p.pcbs[j].info) == p.pcbs[j];
    QueuesKeepPlaces(p, r);
    forall x: Id ensures PcbOk(r, x) { assert PcbOk(p, x); }
  }

  lemma SetRetSound(p: Proc, i: Id, ret: Status)
    requires Core(p)
    ensures Core(SetRet(p, i, ret)) && forall x :: Queued(SetRet(p, i, ret), x) == Queued(p, x)
  {
    var r := SetRet(p, i, ret);
    assert forall j :: 0 <= j < N_PCBS ==> r.pcbs[j].(ret := p.pcbs[j].ret) == p.pcbs[j];
    QueuesKeepPlaces(p, r);
    forall x: Id ensures PcbOk(r, x) { assert PcbOk(p, x); }
  }

  lemma SchedSound(p: Proc, i: Id)
    requires Core(p) && Queued(p, i) == 0
    ensures SchedStatus(p, i) == Success && Core(Sched(p, i))
    ensures forall x :: Queued(Sched(p, i), x) == Queued(p, x) + One(i == x)
  {
    var p1 := SetState(p, i, Ready);
    assert PcbOk(p, i);
    SetPcbSound(p, i, p.pcbs[i].(state := Ready));
    var q := p.pcbs[i].priority;
    var r := Sched(p, i);
    forall q', j | 0 <= q' < N_PRIOS && 0 <= j < |r.ready[q']| ensures ReadyPcb(r.pcbs[r.ready[q'][j]], q') {
      assert (q' == q && j == |p.ready[q]|) || r.ready[q'][j] == p1.ready[q'][j];
    }
    forall x ensures Queued(r, x) == Queued(p, x) + One(i == x) { SchedMoves(p, i, x); }
    forall x: Id ensures PcbOk(r, x) { assert PcbOk(p1, x) && Queued(r, x) == Queued(p, x) + One(i == x); }
  }

  lemma CleanupSound(p: Proc, i: Id)
    requires Core(p) && Queued(p, i) == 0
    ensures Core(Cleanup(p, i))
    ensures forall x :: Queued(Cleanup(p, i), x) == Queued(p, x) + One(i == x)
  {
    var p1 := SetState(p, i, Free);
    assert PcbOk(p, i);
    SetPcbSound(p, i, p.pcbs[i].(state := Free));
    var r := Cleanup(p, i);
    assert forall j :: 0 <= j < |r.pool| ==> r.pool[j] == if j < |p1.pool| then p1.pool[j] else i;
    assert forall j :: j !in r.pool ==> j !in p1.pool;
    forall x ensures Queued(r, x) == Queued(p, x) + One(i == x) { CleanupMoves(p, i, x); }
    forall x: Id ensures PcbOk(r, x) { assert PcbOk(p1, x) && Queued(r, x) == Queued(p, x) + One(i == x); }
  }

  lemma TakeSound(p: Proc, q: nat)
    requires Core(p) && q < N_PRIOS && p.ready[q] != []
    ensures Core(Take(p, q)) && Queued(Take(p, q), p.ready[q][0]) == 0
    ensures forall x :: Placed(Take(p, q), x) == Queued(p, x)
  {
    var r := Take(p, q);
    forall x ensures Queued(r, x) + One(r.current == x) == Queued(p, x) == Placed(r, x) { TakeMoves(p, q, x); }
    forall q', j | 0 <= q' < N_PRIOS && 0 <= j < |r.ready[q']| ensures ReadyPcb(r.pcbs[r.ready[q'][j]], q') {
      assert r.ready[q'][j] == p.ready[q'][if q' == q then j + 1 else j];
    }
    forall x: Id ensures PcbOk(r, x) { assert PcbOk(p, x) && Placed(r, x) == Queued(p, x); }
    assert PcbOk(p, r.current) && Placed(r, r.current) == Queued(p, r.current);
  }

  lemma {:induction false} DispatchFromSound(p: Proc, q: nat)
    requires Core(p) && q <= N_PRIOS
    ensures DispatchFrom(p, q).Some? ==> Sound(DispatchFrom(p, q).value)
    ensures DispatchFrom(p, q).Some? ==> forall x :: Placed(DispatchFrom(p, q).value, x) == Queued(p, x)
    decreases N_PRIOS - q, if q < N_PRIOS then |p.ready[q]| else 0
  {
    if q < N_PRIOS && p.ready[q] == [] {
      DispatchFromSound(p, q + 1);
    } else if q < N_PRIOS {
      var i := p.ready[q][0];
      var taken := Take(p, q);
      TakeSound(p, q);
      if p.pcbs[i].state == Killed {
        CleanupSound(taken, i);
        DispatchFromSound(Cleanup(taken, i), q);
      } else {
        SetPcbSound(taken, i, p.pcbs[i].(state := Running, quantum := STD_QUANTUM));
      }
    }
  }

  lemma DispatchSound(p: Proc)
    requires Core(p)
    ensures Dispatch(p).Some? ==> Sound(Dispatch(p).value)
    ensures Dispatch(p).Some? ==> forall x :: Placed(Dispatch(p).value, x) == Queued(p, x)
  {
    DispatchFromSound(p, 0);
  }

  // ---------------------------------------------------------------- the steps

  // A step keeps the invariant and every PCB's number of places.
  ghost predicate Keeps(p: Proc, r: Proc) { Sound(r) && forall x :: Placed(r, x) == Placed(p, x) }

  // A panic keeps nothing.
  ghost predicate KeepsIfAny(p: Proc, r: Option<Proc>) { r.Some? ==> Keeps(p, r.value) }

  // Dispatching after the current process p.current has been put somewhere.
  lemma DispatchKeeps(p: Proc, r: Proc)
    requires Core(r) && r.current == p.current && forall x :: Queued(r, x) == Placed(p, x)
    ensures KeepsIfAny(p, Dispatch(r))
  {
    DispatchSound(r);
  }

  lemma AllocSound(p: Proc, pcb: Pcb)
    requires Core(p) && p.pool != [] && pcb.pid == p.nextPid && pcb.priority < N_PRIOS && pcb.quantum <= STD_QUANTUM
    ensures var r := SetPcb(p, p.pool[0], pcb).(pool := p.pool[1..], nextPid := p.nextPid + 1);
      Core(r) && (forall x :: Queued(r, x) + One(p.pool[0] == x) == Queued(p, x))
  {
    var child := p.pool[0];
    var r := SetPcb(p, child, pcb).(pool := p.pool[1..], nextPid := p.nextPid + 1);
    QueuedHas(p);
    forall x ensures Queued(r, x) + One(child == x) == Queued(p, x) { OccTail(p.pool, x); }
    assert PcbOk(p, child) && Queued(r, child) + One(child == child) == Queued(p, child);
    QueuedHas(r);
    assert p.pool == [child] + r.pool;
    forall x: Id ensures PcbOk(r, x) { assert PcbOk(p, x) && Queued(r, x) + One(child == x) == Queued(p, x); }
    forall i: Id, j: Id | i != j && i !in r.pool && j !in r.pool ensures r.pcbs[i].pid != r.pcbs[j].pid {
      assert PcbOk(p, i) && PcbOk(p, j);
      assert i == child || i !in p.pool;
      assert j == child || j !in p.pool;
    }
    forall q, j | 0 <= q < N_PRIOS && 0 <= j < |r.ready[q]| ensures ReadyPcb(r.pcbs[r.ready[q][j]], q) {
      assert Queued(r, r.ready[q][j]) >= 1;
    }
  }

  lemma ForkedSound(p: Proc)
    requires Sound(p) && p.pool != []
    ensures Core(Forked(p)) && forall x :: Queued(Forked(p), x) + One(p.pool[0] == x) == Queued(p, x)
    ensures p.pool[0] != p.current && p.pcbs[p.pool[0]].state == Free
    ensures Queued(Forked(p), p.pool[0]) == 0 == Queued(Forked(p), p.current)
  {
    QueuedHas(p);
    assert PcbOk(p, p.pool[0]) && PcbOk(p, p.current);
    var told := SetPcb(p, p.current, p.pcbs[p.current].(info := p.nextPid));
    SetPcbSound(p, p.current, p.pcbs[p.current].(info := p.nextPid));
    QueuesKeepPlaces(p, told);
    AllocSound(told, p.pcbs[p.current].(pid := p.nextPid, ppid := p.pcbs[p.current].pid, state := New, info := 0));
    assert Queued(Forked(p), p.pool[0]) + One(p.pool[0] == p.pool[0]) == Queued(p, p.pool[0]);
    assert Queued(Forked(p), p.current) + One(p.pool[0] == p.current) == Queued(p, p.current);
  }

  // Forking never finds a PCB in the pool that is not FREE, and never fails to schedule the child.
  lemma ForkIs(p: Proc)
    requires Sound(p) && p.pool != []
    ensures var child := p.pool[0];
      Fork(p) == Some(SetRet(SetRet(Sched(Forked(p), child), p.current, Success), child, Success))
  {
    ForkedSound(p);
    SchedSound(Forked(p), p.pool[0]);
  }

  lemma ForkSound(p: Proc)
    requires Sound(p) && p.pool != []
    ensures KeepsIfAny(p, Fork(p))
  {
    var child := p.pool[0];
    ForkedSound(p);
    SchedSound(Forked(p), child);
    var p1 := Sched(Forked(p), child);
    SetRetSound(p1, p.current, Success);
    SetRetSound(SetRet(p1, p.current, Success), child, Success);
    ForkIs(p);
  }

  // The child differs from its parent in pid, parent and the pid it is told only, is ready behind the others, and the
  // parent goes on.
  lemma ForkEffect(p: Proc)
    requires Sound(p) && p.pool != []
    ensures Fork(p).Some?
    ensures var r := Fork(p).value; var child := p.pool[0]; var parent := p.pcbs[p.current];
      && r.pcbs[child] == parent.(pid := p.nextPid, ppid := parent.pid, state := Ready, ret := Success, info := 0)
      && r.pcbs[p.current] == parent.(ret := Success, info := p.nextPid) && r.current == p.current
      && (forall i: Id :: i != child && i != p.current ==> r.pcbs[i] == p.pcbs[i])
      && r == p.(pcbs := r.pcbs, ready := r.ready, pool := p.pool[1..], nextPid := p.nextPid + 1)
      && r.ready == p.ready[parent.priority := p.ready[parent.priority] + [child]]
  {
    ForkedSound(p);
    ForkIs(p);
  }

  lemma ForkPool(p: Proc)
    requires Sound(p) && p.pool != []
    ensures Fork(p).Some? && Fork(p).value.pool == p.pool[1..] && p.pool == [p.pool[0]] + p.pool[1..]
    ensures Fork(p).value.nextPid == p.nextPid + 1
  {
    ForkIs(p);
  }

  lemma ExitSound(p: Proc)
    requires Sound(p)
    ensures KeepsIfAny(p, Exit(p))
  {
    CleanupSound(p, p.current);
    DispatchKeeps(p, Cleanup(p, p.current));
  }

  lemma ReadCore(p: Proc)
    requires Sound(p)
    ensures var r := SetState(p, p.current, Blocked).(reading := p.reading + [p.current]);
      Core(r) && forall x :: Queued(r, x) == Placed(p, x)
  {
    var p1 := SetState(p, p.current, Blocked);
    assert PcbOk(p, p.current);
    SetPcbSound(p, p.current, p.pcbs[p.current].(state := Blocked));
    var r := p1.(reading := p.reading + [p.current]);
    forall x ensures Queued(r, x) == Placed(p, x) { OccAppend(p.reading, p.current, x); }
    forall x: Id ensures PcbOk(r, x) { assert PcbOk(p1, x) && Queued(r, x) == Placed(p, x); }
  }

  lemma ReadSound(p: Proc, ch: int)
    requires Sound(p)
    ensures KeepsIfAny(p, Read(p, ch))
  {
    if ch >= 0 {
      AnswerSound(p, p.current, ch);
    } else {
      ReadCore(p);
      DispatchKeeps(p, SetState(p, p.current, Blocked).(reading := p.reading + [p.current]));
    }
  }

  lemma SleepCore(p: Proc, ms: Time)
    requires Sound(p)
    ensures Core(Slept(p, ms)) && forall x :: Queued(Slept(p, ms), x) == Placed(p, x)
    ensures Sleep(p, ms) == Dispatch(Slept(p, ms))
  {
    if ms == 0 {
      SchedSound(p, p.current);
      SetRetSound(Sched(p, p.current), p.current, Success);
    } else {
      var r := p.(sleeping := Insert(AscendingUint, p.sleeping, Item((p.time + ms) % TIME_RANGE, p.current)));
      SleepingCore(p, Item((p.time + ms) % TIME_RANGE, p.current), r);
      SetRetSound(r, p.current, Success);
    }
  }

  lemma SleepingCore(p: Proc, item: Item<Id>, r: Proc)
    requires Sound(p) && item.data == p.current && r == p.(sleeping := Insert(AscendingUint, p.sleeping, item))
    ensures Core(r) && forall x :: Queued(r, x) == Placed(p, x)
  {
    InsertKeepsSorted(AscendingUint, p.sleeping, item);
    forall x ensures Queued(r, x) == Placed(p, x) { DataOccInsert(AscendingUint, p.sleeping, item, x); }
    forall x: Id ensures PcbOk(r, x) { assert PcbOk(p, x) && Queued(r, x) == Placed(p, x); }
  }

  lemma SleepSound(p: Proc, ms: Time)
    requires Sound(p)
    ensures KeepsIfAny(p, Sleep(p, ms))
  {
    SleepCore(p, ms);
    DispatchKeeps(p, Slept(p, ms));
  }

  // Killing marks the one live process of that pid, wherever it is, and no PCB of the pool.
  lemma KillSound(p: Proc, pid: nat)
    requires Sound(p)
    ensures Keeps(p, Kill(p, pid))
    ensures forall i :: 0 <= i < N_PCBS && i !in p.pool && p.pcbs[i].pid == pid && p.pcbs[i].state != Free ==>
      forall j :: 0 <= j < N_PCBS ==> Kill(p, pid).pcbs[j].state == if j == i then Killed else p.pcbs[j].state
  {
    var v := Victim(p.pcbs, pid);
    if v.Some? {
      var i := v.value;
      var p1 := SetState(p, i, Killed);
      assert PcbOk(p, i);
      assert forall j :: 0 <= j < N_PCBS ==> p1.pcbs[j].(state := p.pcbs[j].state) == p.pcbs[j];
      forall q, j | 0 <= q < N_PRIOS && 0 <= j < |p1.ready[q]| ensures ReadyPcb(p1.pcbs[p1.ready[q][j]], q) {
        assert ReadyPcb(p.pcbs[p.ready[q][j]], q);
      }
      QueuesKeepPlaces(p, p1);
      forall x: Id ensures PcbOk(p1, x) { assert PcbOk(p, x); }
      SetRetSound(p1, p.current, Success);
    } else {
      SetRetSound(p, p.current, NotFound);
    }
  }

  lemma SetPrioritySound(p: Proc, arg: nat)
    requires Sound(p)
    ensures Keeps(p, SetPriority(p, arg))
  {
    if arg % 256 < N_PRIOS {
      assert PcbOk(p, p.current);
      SetPcbSound(p, p.current, p.pcbs[p.current].(priority := arg % 256, ret := Success));
    } else {
      SetRetSound(p, p.current, BadParam);
    }
  }

  lemma TimeSound(p: Proc, time: Time)
    requires Core(p)
    ensures Core(p.(time := time)) && forall x :: Queued(p.(time := time), x) == Queued(p, x)
  {
    QueuesKeepPlaces(p, p.(time := time));
    forall x: Id ensures PcbOk(p.(time := time), x) { assert PcbOk(p, x); }
  }

  lemma SetTimeSound(p: Proc, time: Time)
    requires Sound(p)
    ensures Keeps(p, SetTime(p, time))
  {
    SetRetSound(p, p.current, Success);
    TimeSound(SetRet(p, p.current, Success), time);
  }

  lemma SerialInputSound(p: Proc, ch: nat)
    requires Sound(p)
    ensures Keeps(p, SerialInput(p, ch))
  {
    if p.reading != [] {
      var i := p.reading[0];
      QueuedHas(p);
      var word := (if ch == CARRIAGE_RETURN then LINE_FEED else ch) % 256;
      AnswerSound(p, i, word);
      var p1 := Answer(p, i, word);
      var p2 := p1.(reading := p.reading[1..]);
      forall x ensures Queued(p2, x) + One(i == x) == Queued(p, x) { OccTail(p.reading, x); }
      assert PcbOk(p, i) && Queued(p2, i) + One(i == i) == Queued(p, i);
      forall x: Id ensures PcbOk(p2, x) { assert PcbOk(p1, x) && Queued(p2, x) + One(i == x) == Queued(p, x); }
      SchedSound(p2, i);
      assert Queued(p2, p.current) + One(i == p.current) == Queued(p, p.current);
    }
  }

  lemma WakeOneSound(p: Proc)
    requires Core(p) && p.sleeping != []
    ensures Core(WakeOne(p)) && forall x :: Queued(WakeOne(p), x) == Queued(p, x)
  {
    var i := p.sleeping[0].data;
    var p1 := p.(sleeping := p.sleeping[1..]);
    forall x ensures Queued(p1, x) + One(i == x) == Queued(p, x) {}
    assert PcbOk(p, i) && Queued(p1, i) + One(i == i) == Queued(p, i);
    forall x: Id ensures PcbOk(p1, x) { assert PcbOk(p, x) && Queued(p1, x) + One(i == x) == Queued(p, x); }
    assert Sorted(AscendingUint, p1.sleeping);
    SchedSound(p1, i);
  }

  lemma {:induction false} WakeAllSound(p: Proc)
    requires Core(p)
    ensures Core(WakeAll(p)) && (forall x :: Queued(WakeAll(p), x) == Queued(p, x)) && WakeAll(p).current == p.current
    decreases |p.sleeping|
  {
    if !(p.sleeping == [] || p.sleeping[0].key > p.time) {
      WakeOneSound(p);
      WakeAllSound(WakeOne(p));
    }
  }

  lemma AwakeSound(p: Proc)
    requires Sound(p)
    ensures Keeps(p, Awake(p))
  {
    var q := p.(time := (p.time + 1) % TIME_RANGE);
    TimeSound(p, (p.time + 1) % TIME_RANGE);
    WakeAllSound(q);
    SamePlacesKeep(p, WakeAll(q));
  }

  lemma SamePlacesKeep(p: Proc, r: Proc)
    requires Sound(p) && Core(r) && r.current == p.current && forall x :: Queued(r, x) == Queued(p, x)
    ensures Keeps(p, r)
  {
  }

  lemma TickSound(p: Proc)
    requires Sound(p)
    ensures KeepsIfAny(p, Tick(p))
  {
    AwakeSound(p);
    QuantumKeeps(p, Awake(p));
  }

  lemma QuantumKeeps(p: Proc, r: Proc)
    requires Sound(r) && forall x :: Placed(r, x) == Placed(p, x)
    ensures KeepsIfAny(p, Quantum(r))
  {
    assert PcbOk(r, r.current);
    if r.pcbs[r.current].quantum < 1 {
      SchedSound(r, r.current);
      DispatchSound(Sched(r, r.current));
    } else {
      SetPcbSound(r, r.current, r.pcbs[r.current].(quantum := r.pcbs[r.current].quantum - 1));
    }
  }

  // ---------------------------------------------------------------- waking and blocking

  // Processes that are nowhere in the module may be scheduled.
  lemma {:induction false} SchedAllSound(p: Proc, who: seq<Id>, ret: Option<Status>)
    requires Sound(p) && forall x: Id :: Placed(p, x) + Occ(who, x) <= 1
    ensures Sound(SchedAll(p, who, ret)) && SchedAll(p, who, ret).current == p.current
    ensures forall x :: Placed(SchedAll(p, who, ret), x) == Placed(p, x) + Occ(who, x)
    decreases |who|
  {
    if who != [] {
      var i := who[0];
      OccTail(who, i);
      assert Placed(p, i) + Occ(who, i) <= 1;
      SchedOneSound(p, i, ret);
      forall x ensures Placed(SchedOne(p, i, ret), x) + Occ(who[1..], x) == Placed(p, x) + Occ(who, x) {
        OccTail(who, x);
      }
      SchedAllSound(SchedOne(p, i, ret), who[1..], ret);
    }
  }

  lemma SchedOneSound(p: Proc, i: Id, ret: Option<Status>)
    requires Sound(p) && Placed(p, i) == 0
    ensures Sound(SchedOne(p, i, ret)) && SchedOne(p, i, ret).current == p.current
    ensures forall x :: Placed(SchedOne(p, i, ret), x) == Placed(p, x) + One(i == x)
  {
    var p1 := if ret.Some? then SetRet(p, i, ret.value) else p;
    if ret.Some? { SetRetSound(p, i, ret.value); }
    assert Queued(p1, i) == Queued(p, i) && Queued(p1, p1.current) == Queued(p, p.current);
    SchedSound(p1, i);
    assert Queued(SchedOne(p, i, ret), p.current) == Queued(p1, p.current) + One(i == p.current);
  }

  // The current process leaves the module, for a list of waiting processes, and another is dispatched.
  lemma BlockSound(p: Proc)
    requires Sound(p)
    ensures Dispatch(p).Some? ==>
      Sound(Dispatch(p).value) && forall x :: Placed(Dispatch(p).value, x) + One(p.current == x) == Placed(p, x)
  {
    DispatchSound(p);
  }

  lemma BootedSound(p: Proc)
    requires Booted(p)
    ensures Sound(p) && forall x: Id :: Placed(p, x) == 1
  {
    forall x: Id ensures Placed(p, x) == 1 && PcbOk(p, x) {
      EmptyLists(p.ready, x);
      OccOfRange(p.pool, 1, x);
    }
    assert Placed(p, p.current) == 1;
    forall i: Id | i > 0 ensures i in p.pool { assert p.pool[i - 1] == i; }
  }

  lemma {:induction false} EmptyLists(lists: seq<seq<nat>>, x: nat)
    requires forall q :: 0 <= q < |lists| ==> lists[q] == []
    ensures FlatOcc(lists, x) == 0
  {
    if lists != [] { EmptyLists(lists[1..], x); }
  }

  lemma {:induction false} OccOfRange(s: seq<nat>, from: nat, x: nat)
    requires forall i :: 0 <= i < |s| ==> s[i] == from + i
    ensures Occ(s, x) == One(from <= x < from + |s|)
  {
    if s != [] {
      OccOfRange(s[1..], from + 1, x);
      OccTail(s, x);
    }
  }

  // ---------------------------------------------------------------- pids

  // Only a fork gives out a pid and takes a PCB from the pool.
  ghost predicate SamePids(p: Proc, r: Proc) {
    r.nextPid == p.nextPid && p.pool <= r.pool && forall i: Id :: r.pcbs[i].pid == p.pcbs[i].pid
  }

  lemma {:induction false} DispatchFromPids(p: Proc, q: nat)
    requires q <= N_PRIOS
    ensures DispatchFrom(p, q).Some? ==> SamePids(p, DispatchFrom(p, q).value)
    decreases N_PRIOS - q, if q < N_PRIOS then |p.ready[q]| else 0
  {
    if q < N_PRIOS && p.ready[q] == [] {
      DispatchFromPids(p, q + 1);
    } else if q < N_PRIOS && p.pcbs[p.ready[q][0]].state == Killed {
      DispatchFromPids(Cleanup(Take(p, q), p.ready[q][0]), q);
    }
  }

  lemma {:induction false} SchedAllPids(p: Proc, who: seq<Id>, ret: Option<Status>)
    ensures SamePids(p, SchedAll(p, who, ret))
    decreases |who|
  {
    if who != [] { SchedAllPids(SchedOne(p, who[0], ret), who[1..], ret); }
  }

  lemma {:induction false} WakeAllPids(p: Proc)
    ensures SamePids(p, WakeAll(p))
    decreases |p.sleeping|
  {
    if !(p.sleeping == [] || p.sleeping[0].key > p.time) { WakeAllPids(WakeOne(p)); }
  }

  lemma TickPids(p: Proc)
    ensures Tick(p).Some? ==> SamePids(p, Tick(p).value)
  {
    var a := Awake(p);
    WakeAllPids(p.(time := (p.time + 1) % TIME_RANGE));
    DispatchFromPids(if SchedStatus(a, a.current) == Success then Sched(a, a.current) else Cleanup(a, a.current), 0);
  }
}
