/**
src/kernel/semaphores.c on its own globals: the records, the two lists of them and the counter are updated in
place, as `Semaphores` says.
*/
module SemaphoreTable {
  import opened Options
  import opened QueueSpec
  import opened Processes
  import opened SchedulerState
  import opened Semaphores
  import opened Types

  // _sems, _semaphores, _available_semaphores and _sem_count
  class Table {
    const kernel: Scheduler
    const sems: array<Sem>
    var live: seq<Item<Slot>>
    var available: seq<Slot>
    var count: nat
    ghost var logs: LogTable

    ghost predicate Valid()
      reads kernel
    {
      sems.Length == MAX_SEMAPHORES && kernel.Valid()
    }

    ghost function Sems(): Sems
      requires sems.Length == MAX_SEMAPHORES
      reads this, sems
    {
      Semaphores.Sems.Sems(sems[..], logs, live, available, count)
    }

    ghost function Value(): State
      requires Valid()
      reads this, sems, kernel, kernel.pcbs, kernel.ready
    {
      State(kernel.State(), Sems())
    }

    // _sem_init
    constructor (kernel: Scheduler)
      requires kernel.Valid()
      ensures Valid() && fresh(sems) && this.kernel == kernel && NoneMade(Sems())
    {
      this.kernel := kernel;
      sems := new Sem[MAX_SEMAPHORES](_ => Sem(0, 0, []));
      live, available, count := [], [], 0;
      logs := NoLogs(MAX_SEMAPHORES);
      new;
      var i := 0;
      while i < MAX_SEMAPHORES
        invariant 0 <= i <= MAX_SEMAPHORES && |available| == i && live == [] && count == 0
        invariant forall j :: 0 <= j < i ==> available[j] == j
        invariant forall j :: 0 <= j < MAX_SEMAPHORES ==> sems[j] == Sem(0, 0, [])
      {
        available := available + [i];
        i := i + 1;
      }
    }

    // _sem_new
    method New() returns (id: Key)
      requires sems.Length == MAX_SEMAPHORES && count + 1 < NO_SEMAPHORE
      modifies this, sems
      ensures (Sems(), id) == Semaphores.New(old(Sems()))
    {
      if available == [] { return NO_SEMAPHORE; }
      var slot := available[0];
      available := available[1..];
      count := count + 1;
      sems[slot] := Sem(count, 0, []);
      logs := logs[slot := Log(0, [], [], 0)];
      live := Insert(AscendingUint, live, Item(count, slot));
      id := count;
    }

    // _q_get_by_key on _semaphores
    method Find(id: Key) returns (status: Status, slot: Slot, position: nat)
      requires sems.Length == MAX_SEMAPHORES
      ensures status == Lookup(live, id)
      ensures status == Success ==> slot == Semaphores.Find(Sems(), id) && Position(live, id) == Some(position)
    {
      slot, position := 0, 0;
      if live == [] { return EmptyQueue, 0, 0; }
      while position < |live|
        invariant 0 <= position <= |live| && forall j :: 0 <= j < position ==> live[j].key != id
      {
        if live[position].key == id {
          PositionIs(live, id, position);
          return Success, live[position].data, position;
        }
        position := position + 1;
      }
      status := NotFound;
    }

    // _sem_sched_waiting
    method SchedWaiting(slot: Slot)
      requires Valid()
      modifies sems, `logs, kernel.pcbs, kernel.ready
      ensures Value() == Semaphores.SchedWaiting(old(Value()), slot)
    {
      while sems[slot].value > 0 && sems[slot].waiting != []
        invariant Semaphores.SchedWaiting(old(Value()), slot) == Semaphores.SchedWaiting(Value(), slot)
        decreases |sems[slot].waiting|
      {
        ghost var before := Value();
        var pcb := sems[slot].waiting[0];
        sems[slot] := sems[slot].(waiting := sems[slot].waiting[1..]);
        var _ := kernel.Sched(pcb);
        sems[slot] := sems[slot].(value := sems[slot].value - 1);
        logs := logs[slot := logs[slot].(granted := logs[slot].granted + [pcb])];
        assert Value() == Grant(before, slot);
      }
    }

    // _sem_post
    method Post(id: Key) returns (status: Status)
      requires Valid()
      modifies sems, `logs, kernel.pcbs, kernel.ready
      ensures Value() == Semaphores.Post(old(Value()), id) && status == Lookup(old(live), id)
    {
      var slot, place;
      status, slot, place := Find(id);
      if status == Success {
        logs := logs[slot := PostedLog(sems[slot], logs[slot])];
        sems[slot] := sems[slot].(value := (sems[slot].value + 1) % WORD_RANGE);
        assert Value() == Posted(old(Value()), slot);
        SchedWaiting(slot);
      }
    }

    // _sem_try_wait
    method TryWait(id: Key) returns (status: Status)
      requires Valid()
      modifies sems, `logs
      ensures (Value(), status) == Semaphores.TryWait(old(Value()), id)
    {
      var slot, place;
      status, slot, place := Find(id);
      if status == Success {
        if sems[slot].value > 0 {
          EnterAt(slot);
        } else {
          status := Failure;
        }
      }
    }

    // s->value--, by the calling process
    method EnterAt(slot: Slot)
      requires Valid() && sems[slot].value > 0
      modifies sems, `logs
      ensures Value() == Enter(old(Value()), slot)
    {
      sems[slot] := sems[slot].(value := sems[slot].value - 1);
      ghost var log := logs[slot];
      logs := logs[slot := log.(arrived := log.arrived + [kernel.current], granted := log.granted + [kernel.current])];
    }

    // _sem_wait
    method Wait(id: Key) returns (ok: bool, status: Status)
      requires Valid()
      modifies sems, `logs, kernel`pool, kernel`current, kernel.pcbs, kernel.ready
      ensures var r := Semaphores.Wait(old(Value()), id); ok == r.Some? && (ok ==> Value() == r.value)
      ensures status == Lookup(old(live), id)
    {
      var slot, place;
      ok := true;
      status, slot, place := Find(id);
      if status == Success {
        if sems[slot].value > 0 {
          EnterAt(slot);
        } else {
          sems[slot] := sems[slot].(waiting := sems[slot].waiting + [kernel.current]);
          logs := logs[slot := logs[slot].(arrived := logs[slot].arrived + [kernel.current])];
          assert Sems() == Queue(old(Value()), slot);
          ok := kernel.Dispatch();
        }
      }
    }

    // _sem_destroy
    method Destroy(id: Key) returns (status: Status)
      requires Valid()
      modifies sems, `live, `available, kernel.pcbs, kernel.ready
      ensures Value() == Semaphores.Destroy(old(Value()), id) && status == Lookup(old(live), id)
    {
      var slot, position;
      status, slot, position := Find(id);
      if status == Success {
        while sems[slot].waiting != []
          invariant SchedAll(old(kernel.State()), old(sems[slot]).waiting, Some(Failure))
            == SchedAll(kernel.State(), sems[slot].waiting, Some(Failure))
          invariant sems[..] == old(sems[..])[slot := old(sems[slot]).(waiting := sems[slot].waiting)]
          invariant live == old(live) && available == old(available)
          decreases |sems[slot].waiting|
        {
          var pcb := sems[slot].waiting[0];
          sems[slot] := sems[slot].(waiting := sems[slot].waiting[1..]);
          kernel.Return(pcb, Failure);
          var _ := kernel.Sched(pcb);
        }
        live := Without(live, position);
        available := available + [slot];
      }
    }
  }
}
