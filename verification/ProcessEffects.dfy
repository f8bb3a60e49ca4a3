/**
What each process step does to the whole state: which fields of which PCBs change, who joins or leaves which queue, and
whom the step makes way for.
*/
module ProcessEffects {
  import opened Options
  import opened QueueSpec
  import opened Processes
  import opened ProcessSafety
  import opened Dispatching
  import opened Wakeups
  import opened Types

  // The caller has been changed to `pcb`, and m is ready for a dispatch: the result is the first live ready process of
  // m.
  ghost predicate MakesWay(m: Proc, result: Option<Proc>) { Answers(m, InOrder(m.ready), result) }

  // p with process i changed to pcb
  function With(p: Proc, i: Id, pcb: Pcb): Proc { p.(pcbs := p.pcbs[i := pcb]) }

  // p with i at the back of the ready queue of its priority
  function Joining(p: Proc, i: Id): Proc
    requires p.pcbs[i].priority < N_PRIOS
  {
    var q := p.pcbs[i].priority;
    p.(pcbs := p.pcbs[i := p.pcbs[i].(state := Ready)], ready := p.ready[q := p.ready[q] + [i]])
  }

  lemma PriorityOk(p: Proc, i: Id)
    requires Core(p)
    ensures p.pcbs[i].priority < N_PRIOS
  {
    assert PcbOk(p, i);
  }

  // ---------------------------------------------------------------- exit

  // The caller becomes FREE and goes to the end of the pool, and the next process is chosen.
  lemma ExitEffect(p: Proc)
    requires Sound(p)
    ensures var m := With(p, p.current, p.pcbs[p.current].(state := Free)).(pool := p.pool + [p.current]);
      MakesWay(m, Exit(p))
    ensures Exit(p).Some? ==> var r := Exit(p).value;
      r.pcbs[p.current].state == Free && p.pool + [p.current] <= r.pool && r.current != p.current
  {
    var m := With(p, p.current, p.pcbs[p.current].(state := Free)).(pool := p.pool + [p.current]);
    CleanupSound(p, p.current);
    DispatchChooses(m);
    DispatchSound(m);
    if Exit(p).Some? {
      var r := Exit(p).value;
      var n: nat :| Chosen(m, InOrder(m.ready), n, r);
      QueuedHas(r);
      assert p.current in r.pool;
      assert PcbOk(r, p.current);
    }
  }

  // ---------------------------------------------------------------- read and serial input

  // A character that is there is stored through the info pointer, and nothing else changes.
  lemma ReadEffect(p: Proc, ch: int)
    requires Sound(p)
    ensures ch >= 0 ==> Read(p, ch) == Some(With(p, p.current, p.pcbs[p.current].(ret := Success, info := ch)))
    ensures ch < 0 ==>
      var m := With(p, p.current, p.pcbs[p.current].(state := Blocked)).(reading := p.reading + [p.current]);
      MakesWay(m, Read(p, ch))
  {
    if ch < 0 {
      ReadCore(p);
      DispatchChooses(With(p, p.current, p.pcbs[p.current].(state := Blocked)).(reading := p.reading + [p.current]));
    }
  }

  // The first reader leaves with the low byte of the character, or a line feed for a carriage return.
  lemma SerialInputEffect(p: Proc, ch: nat)
    requires Sound(p)
    ensures p.reading == [] ==> SerialInput(p, ch) == p
    ensures p.reading != [] ==>
      var i, word := p.reading[0], if ch == 13 then 10 else ch % 256;
      && p.pcbs[i].priority < N_PRIOS
      && var m := With(p, i, p.pcbs[i].(ret := Success, info := word));
         SerialInput(p, ch) == Joining(m, i).(reading := p.reading[1..])
  {
    if p.reading != [] { PriorityOk(p, p.reading[0]); }
  }

  // ---------------------------------------------------------------- msleep

  // msleep(0) puts the caller behind the ready processes of its priority.  Otherwise it goes into the sleep queue, by
  // the 32-bit sum of the time and ms, behind those of the same time.
  lemma SleepEffect(p: Proc, ms: Time)
    requires Sound(p)
    ensures p.pcbs[p.current].priority < N_PRIOS
    ensures var asleep := With(p, p.current, p.pcbs[p.current].(ret := Success));
      var item := Item((p.time + ms) % 0x1_0000_0000, p.current);
      var m := if ms == 0 then Joining(asleep, p.current)
               else asleep.(sleeping := Insert(AscendingUint, p.sleeping, item));
      MakesWay(m, Sleep(p, ms))
  {
    PriorityOk(p, p.current);
    SleepCore(p, ms);
    DispatchChooses(Slept(p, ms));
    var asleep := With(p, p.current, p.pcbs[p.current].(ret := Success));
    assert ms == 0 ==> Slept(p, ms) == Joining(asleep, p.current);
  }

  // ---------------------------------------------------------------- kill, set_priority, set_time

  // i is the PCB that a kill of the pid finds: the first that is not FREE.
  ghost predicate Finds(p: Proc, pid: nat, i: Id) {
    && p.pcbs[i].pid == pid && p.pcbs[i].state != Free
    && forall j: Id :: j < i ==> p.pcbs[j].pid != pid || p.pcbs[j].state == Free
  }

  lemma KillEffect(p: Proc, pid: nat)
    ensures forall i: Id :: Finds(p, pid, i) ==>
      var r := With(p, i, p.pcbs[i].(state := Killed));
      Kill(p, pid) == With(r, p.current, r.pcbs[p.current].(ret := Success))
    ensures (forall i: Id :: p.pcbs[i].pid != pid || p.pcbs[i].state == Free) ==>
      Kill(p, pid) == With(p, p.current, p.pcbs[p.current].(ret := NotFound))
  {
    forall i: Id | Finds(p, pid, i) ensures Victim(p.pcbs, pid) == Some(i) { VictimIs(p.pcbs, pid, i); }
    if forall i: Id :: p.pcbs[i].pid != pid || p.pcbs[i].state == Free { VictimIsNone(p.pcbs, pid); }
  }

  lemma SetPriorityEffect(p: Proc, arg: nat)
    ensures var pcb := p.pcbs[p.current];
      var after := if arg % 256 <= 3 then pcb.(priority := arg % 256, ret := Success) else pcb.(ret := BadParam);
      SetPriority(p, arg) == With(p, p.current, after)
  {
  }

  lemma SetTimeEffect(p: Proc, time: Time)
    ensures SetTime(p, time) == With(p, p.current, p.pcbs[p.current].(ret := Success)).(time := time)
  {
  }

  // ---------------------------------------------------------------- the clock

  // After the time has moved on and the due sleepers have woken, the current process has one tick less of its quantum,
  // or goes to the back of its queue if nothing is left.
  lemma TickEffect(p: Proc) returns (a: Proc, n: nat)
    requires Sound(p)
    ensures var now := (p.time + 1) % 0x1_0000_0000;
      n <= |p.sleeping| && Woken(p.(time := now), p.sleeping[..n], p.sleeping[n..], a)
    ensures forall i :: 0 <= i < |p.sleeping| ==> (i < n <==> p.sleeping[i].key <= a.time)
    ensures a.pcbs[a.current].priority < N_PRIOS
    ensures var pcb := a.pcbs[a.current];
      if pcb.quantum >= 1 then Tick(p) == Some(With(a, a.current, pcb.(quantum := pcb.quantum - 1)))
      else MakesWay(Joining(a, a.current), Tick(p))
  {
    n := Passed(AscendingUint, p.sleeping, (p.time + 1) % TIME_RANGE);
    a := Awake(p);
    TickWakesTheDue(p);
    AwakeSound(p);
    PriorityOk(a, a.current);
    if a.pcbs[a.current].quantum < 1 {
      SchedSound(a, a.current);
      DispatchChooses(Sched(a, a.current));
    }
  }

  // ---------------------------------------------------------------- scheduling

  // Scheduling makes a process READY, behind the others of its priority.
  lemma SchedEffect(p: Proc, i: Id)
    ensures p.pcbs[i].priority < N_PRIOS ==> Sched(p, i) == Joining(p, i) && SchedStatus(p, i) == Success
    ensures p.pcbs[i].priority >= N_PRIOS ==> Sched(p, i) == p && SchedStatus(p, i) == BadPrio
  {
  }

  // The processes of priority q among some, in order.
  function ByPriority(pcbs: PcbTable, who: seq<Id>, q: nat): seq<Id> {
    if who == [] then [] else (if pcbs[who[0]].priority == q then [who[0]] else []) + ByPriority(pcbs, who[1..], q)
  }

  function ScheduledPcb(pcb: Pcb, ret: Option<Status>): Pcb {
    if ret.Some? then pcb.(state := Ready, ret := ret.value) else pcb.(state := Ready)
  }

  // r is p after all of `who` have been scheduled in order, each with the return value if there is one.
  ghost predicate Scheduled(p: Proc, who: seq<Id>, ret: Option<Status>, r: Proc) {
    && r == p.(pcbs := r.pcbs, ready := r.ready)
    && (forall q :: 0 <= q < N_PRIOS ==> r.ready[q] == p.ready[q] + ByPriority(p.pcbs, who, q))
    && forall i: Id :: r.pcbs[i] == if i in who then ScheduledPcb(p.pcbs[i], ret) else p.pcbs[i]
  }

  lemma {:induction false} ByPrioritySame(a: PcbTable, b: PcbTable, who: seq<Id>, q: nat)
    requires SamePriorities(a, b)
    ensures ByPriority(a, who, q) == ByPriority(b, who, q)
  {
    if who != [] { ByPrioritySame(a, b, who[1..], q); }
  }

  lemma {:induction false} SchedAllEffect(p: Proc, who: seq<Id>, ret: Option<Status>)
    requires forall i: Id :: p.pcbs[i].priority < N_PRIOS
    ensures Scheduled(p, who, ret, SchedAll(p, who, ret))
    decreases |who|
  {
    if who != [] {
      var m := SchedOne(p, who[0], ret);
      SchedAllEffect(m, who[1..], ret);
      ScheduledFirst(p, who, ret, m, SchedAll(m, who[1..], ret));
    }
  }

  lemma ScheduledFirst(p: Proc, who: seq<Id>, ret: Option<Status>, m: Proc, r: Proc)
    requires who != [] && p.pcbs[who[0]].priority < N_PRIOS && m == SchedOne(p, who[0], ret)
    requires Scheduled(m, who[1..], ret, r)
    ensures Scheduled(p, who, ret, r)
  {
    forall q | 0 <= q < N_PRIOS ensures r.ready[q] == p.ready[q] + ByPriority(p.pcbs, who, q) {
      ByPrioritySame(p.pcbs, m.pcbs, who[1..], q);
    }
    forall i: Id ensures i in who <==> i == who[0] || i in who[1..] { assert who == [who[0]] + who[1..]; }
  }
}
