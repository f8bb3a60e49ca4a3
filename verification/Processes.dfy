/**
The process side of the kernel as a state machine: the PCB pool (src/kernel/pcbs.c), the ready queues
(scheduler.c), the process system calls (syscalls.c), _cleanup (system.c) and the clock tick (clock.c).
Handlers run to completion, so each is one step.  A missing result is a kernel panic.  Queues appear as
the sequences that `Queues` refines.
*/
module Processes {
  import opened Options
  import opened QueueSpec
  import opened Types

  const N_PCBS := 25
  const N_PRIOS := 4
  const STD_QUANTUM := 10
  const PRIO_HIGH := 0
  const PID_INIT := 1
  const TIME_RANGE := 0x1_0000_0000
  const CARRIAGE_RETURN := 13
  const LINE_FEED := 10

  // The status of _q_get_by_key
  function Lookup<T>(s: seq<Item<T>>, key: Key): Status {
    if s == [] then EmptyQueue else if Position(s, key).None? then NotFound else Success
  }

  datatype RunState = Free | New | Ready | Running | Sleeping | Blocked | Killed

  // ret is the return value register of the process, info the word behind the info pointer of its last fork or read.
  datatype Pcb = Pcb(pid: nat, ppid: nat, state: RunState, priority: nat, quantum: nat, ret: Status, info: int)

  // PCBs are named by their index in the PCB array.
  type Id = i: nat | i < N_PCBS

  type Time = t: nat | t < TIME_RANGE

  type PcbTable = s: seq<Pcb> | |s| == N_PCBS witness Blanks(N_PCBS)

  type ReadyTable = s: seq<seq<Id>> | |s| == N_PRIOS witness [[], [], [], []]

  const BLANK := Pcb(0, 0, Free, PRIO_HIGH, 0, Success, 0)

  function Blanks(n: nat): (s: seq<Pcb>)
    ensures |s| == n && forall i :: 0 <= i < n ==> s[i] == BLANK
  {
    if n == 0 then [] else Blanks(n - 1) + [BLANK]
  }

  datatype Proc = Proc(pcbs: PcbTable, pool: seq<Id>, ready: ReadyTable, sleeping: seq<Item<Id>>, reading: seq<Id>,
                       current: Id, time: Time, nextPid: nat)

  // ---------------------------------------------------------------- pcbs.c, scheduler.c, system.c

  function SetPcb(p: Proc, i: Id, pcb: Pcb): Proc {
    p.(pcbs := p.pcbs[i := pcb])
  }

  function SetState(p: Proc, i: Id, state: RunState): Proc {
    SetPcb(p, i, p.pcbs[i].(state := state))
  }

  function SetRet(p: Proc, i: Id, ret: Status): Proc {
    SetPcb(p, i, p.pcbs[i].(ret := ret))
  }

  // A result through the info pointer, and SUCCESS
  function Answer(p: Proc, i: Id, word: int): Proc {
    SetPcb(p, i, p.pcbs[i].(ret := Success, info := word))
  }

  function SetReady(p: Proc, q: nat, s: seq<Id>): Proc
    requires q < |p.ready|
  {
    p.(ready := p.ready[q := s])
  }

  // _pcb_dealloc, as _cleanup uses it
  function Cleanup(p: Proc, i: Id): Proc {
    SetState(p, i, Free).(pool := p.pool + [i])
  }

  function SchedStatus(p: Proc, i: Id): Status {
    if p.pcbs[i].priority >= N_PRIOS then BadPrio else Success
  }

  // _sched
  function Sched(p: Proc, i: Id): Proc {
    if p.pcbs[i].priority >= N_PRIOS then p else
    var q := p.pcbs[i].priority;
    SetReady(SetState(p, i, Ready), q, p.ready[q] + [i])
  }

  // _dispatch from ready queue q on
  function DispatchFrom(p: Proc, q: nat): Option<Proc>
    requires q <= N_PRIOS
    decreases N_PRIOS - q, if q < N_PRIOS then |p.ready[q]| else 0
  {
    if q == N_PRIOS then None
    else if p.ready[q] == [] then DispatchFrom(p, q + 1)
    else
      var i := p.ready[q][0];
      var taken := Take(p, q);
      if p.pcbs[i].state == Killed then DispatchFrom(Cleanup(taken, i), q)
      else Some(SetPcb(taken, i, p.pcbs[i].(state := Running, quantum := STD_QUANTUM)))
  }

  // The head of ready queue q becomes the current process.
  function Take(p: Proc, q: nat): Proc
    requires q < |p.ready| && p.ready[q] != []
  {
    SetReady(p, q, p.ready[q][1..]).(current := p.ready[q][0])
  }

  function Dispatch(p: Proc): Option<Proc> {
    DispatchFrom(p, 0)
  }

  // Scheduling one process after another, each with a return value if one is given
  function SchedAll(p: Proc, who: seq<Id>, ret: Option<Status>): Proc
    decreases |who|
  {
    if who == [] then p else SchedAll(SchedOne(p, who[0], ret), who[1..], ret)
  }

  function SchedOne(p: Proc, i: Id, ret: Option<Status>): Proc {
    Sched(if ret.Some? then SetRet(p, i, ret.value) else p, i)
  }

  lemma SchedAllOne(p: Proc, i: Id, ret: Option<Status>)
    ensures SchedAll(p, [i], ret) == SchedOne(p, i, ret)
  {
    assert SchedAll(SchedOne(p, i, ret), [i][1..], ret) == SchedOne(p, i, ret);
  }

  // ---------------------------------------------------------------- syscalls.c

  // The state of _sys_fork when the child has been set up and both have been told the child's pid or 0.
  function Forked(p: Proc): Proc
    requires p.pool != []
  {
    var parent := p.pcbs[p.current];
    SetPcb(SetPcb(p, p.current, parent.(info := p.nextPid)), p.pool[0],
      parent.(pid := p.nextPid, ppid := parent.pid, state := New, info := 0))
      .(pool := p.pool[1..], nextPid := p.nextPid + 1)
  }

  // _sys_fork.  The pool must not be empty: _pcb_alloc would write through a null pointer.
  function Fork(p: Proc): Option<Proc>
    requires p.pool != []
  {
    var child := p.pool[0];
    if p.pcbs[child].state != Free then None else
    var p1 := Forked(p);
    if SchedStatus(p1, child) != Success then Some(Cleanup(SetRet(p1, p1.current, Failure), child))
    else Some(SetRet(SetRet(Sched(p1, child), p1.current, Success), child, Success))
  }

  // _sys_exit
  function Exit(p: Proc): Option<Proc> {
    Dispatch(Cleanup(p, p.current))
  }

  // _sys_read; ch is the next character of the serial line, or negative
  function Read(p: Proc, ch: int): Option<Proc> {
    if ch >= 0 then Some(Answer(p, p.current, ch))
    else
      var p1 := SetState(p, p.current, Blocked).(reading := p.reading + [p.current]);
      Dispatch(p1)
  }

  // The state of _sys_msleep before it dispatches.
  function Slept(p: Proc, ms: Time): Proc {
    SetRet(if ms == 0 then Sched(p, p.current)
           else p.(sleeping := Insert(AscendingUint, p.sleeping, Item((p.time + ms) % TIME_RANGE, p.current))),
           p.current, Success)
  }

  // _sys_msleep
  function Sleep(p: Proc, ms: Time): Option<Proc> {
    if ms == 0 && SchedStatus(p, p.current) != Success then Some(SetRet(p, p.current, Failure))
    else Dispatch(Slept(p, ms))
  }

  // The first PCB with the pid that is not free.
  function Victim(pcbs: seq<Pcb>, pid: nat): Option<nat> {
    First(pcbs, (pcb: Pcb) => pcb.pid == pid && pcb.state != Free)
  }

  lemma VictimIs(pcbs: seq<Pcb>, pid: nat, i: nat)
    requires i < |pcbs| && pcbs[i].pid == pid && pcbs[i].state != Free
    requires forall j :: 0 <= j < i ==> !(pcbs[j].pid == pid && pcbs[j].state != Free)
    ensures Victim(pcbs, pid) == Some(i)
  {
    var v := Victim(pcbs, pid);
    if v.Some? {
      if v.value < i { assert false; }
    }
  }

  lemma VictimIsNone(pcbs: seq<Pcb>, pid: nat)
    requires forall j :: 0 <= j < |pcbs| ==> !(pcbs[j].pid == pid && pcbs[j].state != Free)
    ensures Victim(pcbs, pid) == None
  {
  }

  // _sys_kill
  function Kill(p: Proc, pid: nat): Proc {
    match Victim(p.pcbs, pid)
    case None => SetRet(p, p.current, NotFound)
    case Some(i) => SetRet(SetState(p, i, Killed), p.current, Success)
  }

  // _sys_set_priority; the argument is cut to 8 bits.
  function SetPriority(p: Proc, arg: nat): Proc {
    if arg % 256 < N_PRIOS then SetPcb(p, p.current, p.pcbs[p.current].(priority := arg % 256, ret := Success))
    else SetRet(p, p.current, BadParam)
  }

  // _sys_set_time
  function SetTime(p: Proc, time: Time): Proc {
    SetRet(p, p.current, Success).(time := time)
  }

  // A character arrives on the serial line: the first reader, if any, gets it and is scheduled.
  function SerialInput(p: Proc, ch: nat): Proc {
    if p.reading == [] then p
    else
      var i, word := p.reading[0], (if ch == CARRIAGE_RETURN then LINE_FEED else ch) % 256;
      Sched(Answer(p, i, word).(reading := p.reading[1..]), i)
  }

  // ---------------------------------------------------------------- clock.c

  // The first sleeper leaves the sleep queue and is scheduled.
  function WakeOne(p: Proc): (r: Proc)
    requires p.sleeping != []
    ensures |r.sleeping| < |p.sleeping|
  {
    var i := p.sleeping[0].data;
    var p1 := p.(sleeping := p.sleeping[1..]);
    if SchedStatus(p1, i) == Success then Sched(p1, i) else Cleanup(p1, i)
  }

  // The wake loop of _isr_clock
  function WakeAll(p: Proc): Proc
    decreases |p.sleeping|
  {
    if p.sleeping == [] || p.sleeping[0].key > p.time then p
    else WakeAll(WakeOne(p))
  }

  // The end of _isr_clock: a current process that has used its quantum is scheduled again.
  function Quantum(p: Proc): Option<Proc> {
    if p.pcbs[p.current].quantum < 1 then
        Dispatch(if SchedStatus(p, p.current) == Success then Sched(p, p.current) else Cleanup(p, p.current))
    else Some(SetPcb(p, p.current, p.pcbs[p.current].(quantum := p.pcbs[p.current].quantum - 1)))
  }

  // The state of the clock handler after its wake loop.
  function Awake(p: Proc): Proc {
    WakeAll(p.(time := (p.time + 1) % TIME_RANGE))
  }

  // _isr_clock
  function Tick(p: Proc): Option<Proc> {
    Quantum(Awake(p))
  }

  // ---------------------------------------------------------------- system.c

  // The initial process runs, with state FREE as _init leaves it, and the other PCBs are in the pool.
  ghost predicate Booted(p: Proc) {
    && p.current == 0 && p.sleeping == [] && p.reading == [] && p.time == 0 && p.nextPid == PID_INIT + 1
    && |p.pool| == N_PCBS - 1 && (forall i :: 0 <= i < |p.pool| ==> p.pool[i] == i + 1)
    && (forall q :: 0 <= q < N_PRIOS ==> p.ready[q] == [])
    && (forall i: Id :: p.pcbs[i] == BLANK.(pid := p.pcbs[i].pid, ppid := p.pcbs[i].ppid))
    && p.pcbs[0].pid == p.pcbs[0].ppid == PID_INIT
  }

  // ---------------------------------------------------------------- where the PCBs are

  // How often x occurs in s.
  function Occ(s: seq<nat>, x: nat): nat { multiset(s)[x] }

  function One(b: bool): nat { if b then 1 else 0 }

  lemma OccAppend(s: seq<nat>, i: nat, x: nat)
    ensures Occ(s + [i], x) == Occ(s, x) + One(i == x)
  {
  }

  lemma OccTail(s: seq<nat>, x: nat)
    requires s != []
    ensures Occ(s, x) == Occ(s[1..], x) + One(s[0] == x)
  {
    assert s == [s[0]] + s[1..];
  }

  // The occurrences of x in all of several lists.
  function FlatOcc(lists: seq<seq<nat>>, x: nat): nat {
    if lists == [] then 0 else Occ(lists[0], x) + FlatOcc(lists[1..], x)
  }

  lemma {:induction false} FlatUpdate(lists: seq<seq<nat>>, i: nat, s: seq<nat>, x: nat)
    requires i < |lists|
    ensures FlatOcc(lists[i := s], x) + Occ(lists[i], x) == FlatOcc(lists, x) + Occ(s, x)
  {
    if i > 0 {
      FlatUpdate(lists[1..], i - 1, s, x);
      assert lists[i := s][1..] == lists[1..][i - 1 := s];
    } else {
      assert lists[i := s][1..] == lists[1..];
    }
  }

  lemma {:induction false} FlatHas(lists: seq<seq<nat>>, i: nat, x: nat)
    requires i < |lists|
    ensures Occ(lists[i], x) <= FlatOcc(lists, x)
  {
    if i > 0 { FlatHas(lists[1..], i - 1, x); }
  }

  // The occurrences of x among the data of queued items.
  function DataOcc(s: seq<Item<nat>>, x: nat): nat {
    if s == [] then 0 else One(s[0].data == x) + DataOcc(s[1..], x)
  }

  lemma {:induction false} DataOccConcat(s: seq<Item<nat>>, t: seq<Item<nat>>, x: nat)
    ensures DataOcc(s + t, x) == DataOcc(s, x) + DataOcc(t, x)
  {
    if s == [] {
      assert s + t == t;
    } else {
      assert (s + t)[1..] == s[1..] + t;
      DataOccConcat(s[1..], t, x);
    }
  }

  lemma DataOccInsert(order: Order, s: seq<Item<nat>>, i: Item<nat>, x: nat)
    ensures DataOcc(Insert(order, s, i), x) == DataOcc(s, x) + One(i.data == x)
  {
    var p := if order == Unordered then |s| else Passed(order, s, i.key);
    assert Insert(order, s, i) == s[..p] + ([i] + s[p..]);
    DataOccConcat(s[..p], [i] + s[p..], x);
    DataOccConcat([i], s[p..], x);
    assert s == s[..p] + s[p..];
    DataOccConcat(s[..p], s[p..], x);
  }

  lemma DataOccWithout(s: seq<Item<nat>>, i: nat, x: nat)
    requires i < |s|
    ensures DataOcc(s, x) == DataOcc(Without(s, i), x) + One(s[i].data == x)
  {
    assert s == s[..i] + ([s[i]] + s[i + 1..]);
    DataOccConcat(s[..i], [s[i]] + s[i + 1..], x);
    DataOccConcat([s[i]], s[i + 1..], x);
    DataOccConcat(s[..i], s[i + 1..], x);
  }

  lemma {:induction false} DataHas(s: seq<Item<nat>>, i: nat)
    requires i < |s|
    ensures DataOcc(s, s[i].data) >= 1
  {
    if i > 0 { DataHas(s[1..], i - 1); }
  }

  // How often PCB x is in the pool or on a queue of this module; the current one is counted apart.
  function Queued(p: Proc, x: nat): nat {
    Occ(p.pool, x) + FlatOcc(p.ready, x) + DataOcc(p.sleeping, x) + Occ(p.reading, x)
  }

  function Placed(p: Proc, x: nat): nat { Queued(p, x) + One(p.current == x) }

  lemma SchedMoves(p: Proc, i: Id, x: nat)
    requires SchedStatus(p, i) == Success
    ensures Queued(Sched(p, i), x) == Queued(p, x) + One(i == x)
  {
    var q := p.pcbs[i].priority;
    FlatUpdate(p.ready, q, p.ready[q] + [i], x);
    OccAppend(p.ready[q], i, x);
  }

  lemma CleanupMoves(p: Proc, i: Id, x: nat)
    ensures Queued(Cleanup(p, i), x) == Queued(p, x) + One(i == x)
  {
    OccAppend(p.pool, i, x);
  }

  lemma TakeMoves(p: Proc, q: nat, x: nat)
    requires q < N_PRIOS && p.ready[q] != []
    ensures Placed(Take(p, q), x) == Queued(p, x)
  {
    FlatUpdate(p.ready, q, p.ready[q][1..], x);
    OccTail(p.ready[q], x);
  }
}
