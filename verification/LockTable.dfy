/**
src/kernel/locks.c on its own globals, _locks and _lock_count, updated in place as `Locks` says.
*/
module LockTable {
  import opened Options
  import opened QueueSpec
  import opened Processes
  import opened SchedulerState
  import L = Locks
  import opened Types

  class Table {
    const kernel: Scheduler
    var list: seq<Item<L.LockInfo>>
    var count: nat

    ghost predicate Valid()
      reads kernel
    {
      kernel.Valid()
    }

    ghost function Value(): L.State
      requires Valid()
      reads this, kernel, kernel.pcbs, kernel.ready
    {
      L.State(kernel.State(), L.Locks(list, count))
    }

    // _lock_init
    constructor (kernel: Scheduler)
      requires kernel.Valid()
      ensures Valid() && this.kernel == kernel && list == [] && count == 0
    {
      this.kernel := kernel;
      list, count := [], 0;
    }

    // _lock_new
    method New() returns (id: Key)
      requires count + 1 < 0x1_0000_0000
      modifies this
      ensures (L.Locks(list, count), id) == L.New(L.Locks(old(list), old(count)))
    {
      count := count + 1;
      id := count;
      list := Insert(AscendingUint, list, Item(id, L.LockInfo(0, 0, [], false)));
    }

    // _lock_find_by_key
    method Find(id: Key) returns (status: Status, i: nat)
      ensures status == Lookup(list, id) && (status == Success ==> Position(list, id) == Some(i))
    {
      i := 0;
      if list == [] { return EmptyQueue, 0; }
      while i < |list|
        invariant 0 <= i <= |list| && forall j :: 0 <= j < i ==> list[j].key != id
      {
        if list[i].key == id {
          PositionIs(list, id, i);
          return Success, i;
        }
        i := i + 1;
      }
      status := NotFound;
    }

    method Set(i: nat, l: L.LockInfo)
      requires i < |list|
      modifies `list
      ensures list == old(list)[i := old(list)[i].(data := l)]
    {
      list := list[i := list[i].(data := l)];
    }

    // _lock_insert_waiter
    method InsertWaiter(i: nat, mode: L.Mode) returns (ok: bool)
      requires Valid() && i < |list|
      modifies `list, kernel`pool, kernel`current, kernel.pcbs, kernel.ready
      ensures var r := Dispatch(old(kernel.State())); ok == r.Some? && (ok ==> kernel.State() == r.value)
      ensures L.Locks(list, count) ==
        L.SetLock(L.Locks(old(list), count), i, L.InsertWaiter(old(list)[i].data, mode, old(kernel.current)))
    {
      var l := list[i].data;
      Set(i, l.(waiting := Insert(AscendingUint, l.waiting, Item(L.KeyOf(mode), kernel.current))));
      if mode == L.Write {
        Set(i, list[i].data.(writerWaitingCount := L.More(list[i].data.writerWaitingCount)));
      }
      ok := kernel.Dispatch();
    }

    // _lock_lock
    method Lock(id: Key, mode: L.Mode) returns (ok: bool, status: Status)
      requires Valid()
      modifies `list, kernel`pool, kernel`current, kernel.pcbs, kernel.ready
      ensures var r := L.LockLock(old(Value()), id, mode); ok == r.Some? && (ok ==> Value() == r.value)
      ensures status == Lookup(old(list), id)
    {
      var i;
      ok := true;
      status, i := Find(id);
      if status != Success { return; }
      var l := list[i].data;
      if l.hasWriter || l.writerWaitingCount > 0 {
        ok := InsertWaiter(i, mode);
      } else if mode == L.Read {
        Set(i, l.(readerCount := l.readerCount + 1));
      } else if l.readerCount > 0 {
        ok := InsertWaiter(i, mode);
      } else {
        Set(i, l.(hasWriter := true));
      }
    }

    // The loop of _lock_unlock that lets every waiting reader in
    method Flush(i: nat)
      requires Valid() && i < |list|
      modifies `list, kernel.pcbs, kernel.ready
      ensures kernel.State() == SchedAll(old(kernel.State()), L.Who(old(list)[i].data.waiting), None)
      ensures var l := old(list)[i].data;
        list == old(list)[i := old(list)[i].(data := l.(readerCount := l.readerCount + |l.waiting|, waiting := []))]
    {
      ghost var first := list[i].data;
      while list[i].data.waiting != []
        invariant i < |list| == |old(list)|
        invariant SchedAll(old(kernel.State()), L.Who(first.waiting), None) ==
          SchedAll(kernel.State(), L.Who(list[i].data.waiting), None)
        invariant var l := list[i].data;
          l == first.(readerCount := l.readerCount, waiting := l.waiting)
          && l.readerCount + |l.waiting| == first.readerCount + |first.waiting|
        invariant list == old(list)[i := old(list)[i].(data := list[i].data)]
        decreases |list[i].data.waiting|
      {
        var l := list[i].data;
        var waiter := l.waiting[0].data;
        assert L.Who(l.waiting)[0] == waiter && L.Who(l.waiting)[1..] == L.Who(l.waiting[1..]);
        Set(i, l.(waiting := l.waiting[1..], readerCount := l.readerCount + 1));
        var _ := kernel.Sched(waiter);
      }
    }

    // The part of _lock_unlock that takes the first waiter off the queue
    method HandOver(i: nat)
      requires Valid() && i < |list| && list[i].data.waiting != []
      modifies `list, kernel.pcbs, kernel.ready
      ensures var r := L.HandOver(old(list)[i].data);
        list == old(list)[i := old(list)[i].(data := r.lock)]
          && kernel.State() == SchedAll(old(kernel.State()), L.Who(r.woken), None)
    {
      var l := list[i].data;
      var waiter := l.waiting[0];
      Set(i, l.(waiting := l.waiting[1..]));
      var _ := kernel.Sched(waiter.data);
      if waiter.key == L.READER {
        Set(i, list[i].data.(readerCount := list[i].data.readerCount + 1, hasWriter := false));
        assert L.Who(l.waiting)[0] == waiter.data && L.Who(l.waiting)[1..] == L.Who(l.waiting[1..]);
        Flush(i);
      } else {
        assert L.Who([waiter]) == [waiter.data];
        SchedAllOne(old(kernel.State()), waiter.data, None);
        Set(i, list[i].data.(writerWaitingCount := L.Less(list[i].data.writerWaitingCount), hasWriter := true));
      }
    }

    // _lock_unlock
    method Unlock(id: Key, mode: L.Mode) returns (status: Status)
      requires Valid()
      modifies `list, kernel.pcbs, kernel.ready
      ensures (Value(), status) == L.LockUnlock(old(Value()), id, mode)
    {
      var i;
      status, i := Find(id);
      if status != Success { return; }
      if mode == L.Read {
        Set(i, list[i].data.(readerCount := L.Less(list[i].data.readerCount)));
      }
      var l := list[i].data;
      if l.writerWaitingCount > 0 || l.hasWriter {
        if l.waiting != [] {
          HandOver(i);
        } else if mode == L.Write {
          Set(i, l.(hasWriter := false));
        } else {
          status := EmptyQueue;
        }
      }
      assert list == old(list)[i := old(list)[i].(data := L.Release(old(list)[i].data, mode).lock)];
    }

    // _lock_destroy
    method Destroy(id: Key) returns (status: Status)
      ensures status == L.DestroyStatus(L.Locks(list, count), id)
    {
      var i;
      status, i := Find(id);
      if status == Success { status := Failure; }
    }
  }
}
