/**
The process globals of the kernel as an object: _pcbs, _pcb_free_queue, _ready, _sleeping, _reading, _current,
_system_time and _next_pid, with the functions of pcbs.c, scheduler.c, syscalls.c and clock.c that update them
in place.  Each is proved to do what `Processes` says.  An `ok` of false is a kernel panic.
*/
module SchedulerState {
  import opened Options
  import opened QueueSpec
  import opened Processes
  import opened Types

  class Scheduler {
    const pcbs: array<Pcb>
    const ready: array<seq<Id>>
    var pool: seq<Id>
    var sleeping: seq<Item<Id>>
    var reading: seq<Id>
    var current: Id
    var time: Time
    var nextPid: nat

    ghost predicate Valid() { pcbs.Length == N_PCBS && ready.Length == N_PRIOS }

    ghost function State(): (p: Proc)
      requires Valid()
      reads this, pcbs, ready
    {
      Proc(pcbs[..], pool, ready[..], sleeping, reading, current, time, nextPid)
    }

    // _pcb_init and _sched_init, and the start of the initial process in _init
    constructor ()
      ensures Valid() && fresh(pcbs) && fresh(ready) && Booted(State())
    {
      var blank := BLANK;
      pcbs := new Pcb[N_PCBS](_ => blank);
      ready := new seq<Id>[N_PRIOS](_ => []);
      pool, sleeping, reading, current, time, nextPid := [], [], [], 0, 0, PID_INIT;
      new;
      var i := 0;
      while i < N_PCBS
        invariant 0 <= i <= N_PCBS && |pool| == i && nextPid == PID_INIT && sleeping == [] && reading == [] && time == 0
        invariant forall j :: 0 <= j < i ==> pool[j] == j
        invariant forall j :: 0 <= j < N_PCBS ==> pcbs[j] == blank
        invariant forall q :: 0 <= q < N_PRIOS ==> ready[q] == []
      {
        PcbDealloc(i);
        i := i + 1;
      }
      var _, first := PcbAlloc();
      pcbs[first] := pcbs[first].(pid := nextPid, ppid := nextPid, priority := PRIO_HIGH);
      nextPid := nextPid + 1;
      current := first;
    }

    // _pcb_alloc, on a pool that is not empty
    method PcbAlloc() returns (ok: bool, pcb: Id)
      requires Valid() && pool != []
      modifies `pool
      ensures pcb == old(pool[0]) && pool == old(pool[1..]) && (ok <==> pcbs[pcb].state == Free)
    {
      pcb, pool := pool[0], pool[1..];
      ok := pcbs[pcb].state == Free;
    }

    // _pcb_dealloc
    method PcbDealloc(pcb: Id)
      requires Valid()
      modifies `pool, pcbs
      ensures State() == Processes.Cleanup(old(State()), pcb)
    {
      pcbs[pcb] := pcbs[pcb].(state := Free);
      pool := pool + [pcb];
    }

    // _cleanup
    method Cleanup(pcb: Id)
      requires Valid()
      modifies `pool, pcbs
      ensures State() == Processes.Cleanup(old(State()), pcb)
    {
      pcbs[pcb] := pcbs[pcb].(state := Free);
      PcbDealloc(pcb);
    }

    // _sched
    method Sched(pcb: Id) returns (status: Status)
      requires Valid()
      modifies pcbs, ready
      ensures State() == Processes.Sched(old(State()), pcb) && status == SchedStatus(old(State()), pcb)
    {
      var p := pcbs[pcb].priority;
      if p >= N_PRIOS { return BadPrio; }
      pcbs[pcb] := pcbs[pcb].(state := Ready);
      ready[p] := ready[p] + [pcb];
      status := Success;
    }

    // _dispatch
    method Dispatch() returns (ok: bool)
      requires Valid()
      modifies `pool, `current, pcbs, ready
      ensures var r := Processes.Dispatch(old(State())); ok == r.Some? && (ok ==> State() == r.value)
    {
      var i := 0;
      while i < N_PRIOS
        invariant 0 <= i <= N_PRIOS && Processes.Dispatch(old(State())) == DispatchFrom(State(), i)
        invariant sleeping == old(sleeping)
      {
        while ready[i] != []
          invariant Processes.Dispatch(old(State())) == DispatchFrom(State(), i)
          decreases |ready[i]|
        {
          ghost var before := State();
          current := ready[i][0];
          ready[i] := ready[i][1..];
          assert State() == Take(before, i);
          if pcbs[current].state == Killed {
            Cleanup(current);
          } else {
            pcbs[current] := pcbs[current].(state := Running, quantum := STD_QUANTUM);
            return true;
          }
        }
        i := i + 1;
      }
      ok := false;
    }

    // The state of a handler's result: a panic promises nothing.
    ghost predicate Is(r: Option<Proc>, ok: bool)
      requires Valid()
      reads this, pcbs, ready
    {
      ok == r.Some? && (ok ==> State() == r.value)
    }

    // RET(pcb) = status
    method Return(pcb: Id, status: Status)
      requires Valid()
      modifies pcbs
      ensures State() == SetRet(old(State()), pcb, status)
    {
      pcbs[pcb] := pcbs[pcb].(ret := status);
    }

    // *ptr = word and RET(pcb) = SUCCESS
    method Tell(pcb: Id, word: int)
      requires Valid()
      modifies pcbs
      ensures State() == Answer(old(State()), pcb, word)
    {
      pcbs[pcb] := pcbs[pcb].(info := word);
      Return(pcb, Success);
    }

    // _sys_fork
    method Fork() returns (ok: bool)
      requires Valid() && pool != []
      modifies `pool, `nextPid, pcbs, ready
      ensures Is(Processes.Fork(old(State())), ok)
    {
      var child;
      ok, child := PcbAlloc();
      if !ok { return; }
      var parent := pcbs[current];
      pcbs[child] := parent;
      pcbs[child] := pcbs[child].(pid := nextPid);
      nextPid := nextPid + 1;
      pcbs[child] := pcbs[child].(ppid := parent.pid);
      pcbs[child] := pcbs[child].(state := New);
      pcbs[current] := pcbs[current].(info := pcbs[child].pid);
      pcbs[child] := pcbs[child].(info := 0);
      assert State() == Forked(old(State()));
      var status := Sched(child);
      if status != Success {
        Return(current, Failure);
        Cleanup(child);
      } else {
        Return(current, Success);
        Return(child, Success);
      }
    }

    // _sys_exit
    method Exit() returns (ok: bool)
      requires Valid()
      modifies `pool, `current, pcbs, ready
      ensures Is(Processes.Exit(old(State())), ok)
    {
      Cleanup(current);
      ok := Dispatch();
    }

    // _sys_read
    method Read(ch: int) returns (ok: bool)
      requires Valid()
      modifies `pool, `current, `reading, pcbs, ready
      ensures Is(Processes.Read(old(State()), ch), ok)
    {
      if ch >= 0 {
        Tell(current, ch);
        return true;
      }
      pcbs[current] := pcbs[current].(state := Blocked);
      reading := reading + [current];
      assert State() == SetState(old(State()), old(current), Blocked).(reading := old(reading) + [old(current)]);
      ok := Dispatch();
    }

    // _sys_msleep
    method Sleep(ms: Time) returns (ok: bool)
      requires Valid()
      modifies `pool, `current, `sleeping, pcbs, ready
      ensures Is(Processes.Sleep(old(State()), ms), ok)
    {
      if ms == 0 {
        var status := Sched(current);
        if status != Success {
          Return(current, Failure);
          return true;
        }
      } else {
        sleeping := Insert(AscendingUint, sleeping, Item((time + ms) % TIME_RANGE, current));
      }
      Return(current, Success);
      assert State() == Slept(old(State()), ms);
      ok := Dispatch();
    }

    // _sys_kill
    method Kill(pid: nat)
      requires Valid()
      modifies pcbs
      ensures State() == Processes.Kill(old(State()), pid)
    {
      var i := 0;
      while i < N_PCBS
        invariant 0 <= i <= N_PCBS && pcbs[..] == old(pcbs[..])
        invariant forall j :: 0 <= j < i ==> !(pcbs[j].pid == pid && pcbs[j].state != Free)
      {
        if pcbs[i].pid == pid && pcbs[i].state != Free {
          VictimIs(pcbs[..], pid, i);
          pcbs[i] := pcbs[i].(state := Killed);
          Return(current, Success);
          return;
        }
        i := i + 1;
      }
      VictimIsNone(pcbs[..], pid);
      Return(current, NotFound);
    }

    // _sys_set_priority
    method SetPriority(arg: nat)
      requires Valid()
      modifies pcbs
      ensures State() == Processes.SetPriority(old(State()), arg)
    {
      var prio := arg % 256;
      if prio < N_PRIOS {
        pcbs[current] := pcbs[current].(priority := prio);
        Return(current, Success);
      } else {
        Return(current, BadParam);
      }
    }

    // _sys_set_time
    method SetTime(arg: Time)
      requires Valid()
      modifies `time, pcbs
      ensures State() == Processes.SetTime(old(State()), arg)
    {
      time := arg;
      Return(current, Success);
    }

    // The receive case of _isr_sio: a waiting reader gets the character.
    method SerialInput(received: nat)
      requires Valid()
      modifies `reading, pcbs, ready
      ensures State() == Processes.SerialInput(old(State()), received)
    {
      var ch := received;
      if ch == CARRIAGE_RETURN { ch := LINE_FEED; }
      if reading != [] {
        var pcb := reading[0];
        reading := reading[1..];
        Tell(pcb, ch % 256);
        var _ := Sched(pcb);
      }
    }

    // The wake loop of _isr_clock
    method WakeSleepers()
      requires Valid()
      modifies `pool, `sleeping, pcbs, ready
      ensures State() == WakeAll(old(State()))
    {
      while sleeping != [] && sleeping[0].key <= time
        invariant WakeAll(old(State())) == WakeAll(State())
        decreases |sleeping|
      {
        ghost var before := State();
        var pcb := sleeping[0].data;
        sleeping := sleeping[1..];
        var status := Sched(pcb);
        if status != Success { Cleanup(pcb); }
        assert State() == WakeOne(before);
      }
    }

    // _isr_clock
    method Clock() returns (ok: bool)
      requires Valid()
      modifies `pool, `current, `sleeping, `time, pcbs, ready
      ensures Is(Tick(old(State())), ok)
    {
      time := (time + 1) % TIME_RANGE;
      WakeSleepers();
      assert State() == Awake(old(State()));
      if pcbs[current].quantum < 1 {
        var status := Sched(current);
        if status != Success { Cleanup(current); }
        ok := Dispatch();
      } else {
        pcbs[current] := pcbs[current].(quantum := pcbs[current].quantum - 1);
        ok := true;
      }
    }
  }
}
