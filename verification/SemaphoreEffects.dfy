/**
What each function of src/kernel/semaphores.c does to the state, for a semaphore known by its record.
*/
module SemaphoreEffects {
  import opened Options
  import opened QueueSpec
  import opened Processes
  import opened ProcessSafety
  import opened ProcessEffects
  import Dispatching
  import opened S = Semaphores
  import opened Types

  // One record and its log have changed.
  function Changed(s: Sems, slot: Slot, sem: Sem, log: Log): Sems {
    s.(sems := s.sems[slot := sem], logs := s.logs[slot := log])
  }

  // The caller has taken one from the value.
  function Taken(st: State, slot: Slot): State
    requires st.sems.sems[slot].value > 0
  {
    var sem, log, me := st.sems.sems[slot], st.sems.logs[slot], [st.proc.current];
    var entered := log.(arrived := log.arrived + me, granted := log.granted + me);
    st.(sems := Changed(st.sems, slot, sem.(value := sem.value - 1), entered))
  }

  // Two ways to name a live semaphore
  lemma Names(s: Sems, slot: Slot)
    requires SemInv(s) && slot !in s.available
    ensures Lookup(s.live, s.sems[slot].id) == Success && Find(s, s.sems[slot].id) == slot
    ensures exists i: nat ::
      Position(s.live, s.sems[slot].id) == Some(i) && i < |s.live| && s.live[i] == Item(s.sems[slot].id, slot)
  {
    LiveIsFound(s, slot);
    var i := Position(s.live, s.sems[slot].id).value;
    assert s.live[i] == Item(s.sems[slot].id, slot);
  }

  // A wait takes one from a positive value, and the caller goes on.  Otherwise the caller waits behind the others, and
  // the next process is chosen.
  lemma WaitEffect(st: State, slot: Slot)
    requires SemInv(st.sems) && slot !in st.sems.available && Sound(st.proc)
    ensures var sem, log, me := st.sems.sems[slot], st.sems.logs[slot], [st.proc.current];
      if sem.value > 0 then Wait(st, sem.id) == Some(Taken(st, slot))
      else match Wait(st, sem.id)
        case None => MakesWay(st.proc, None)
        case Some(r) =>
          && MakesWay(st.proc, Some(r.proc))
          && r.sems == Changed(st.sems, slot, sem.(waiting := sem.waiting + me), log.(arrived := log.arrived + me))
  {
    Names(st.sems, slot);
    Dispatching.DispatchChooses(st.proc);
  }

  // A try_wait takes one from a positive value, with SUCCESS.  Otherwise it changes nothing, with FAILURE.
  lemma TryWaitEffect(st: State, slot: Slot)
    requires SemInv(st.sems) && slot !in st.sems.available
    ensures var sem := st.sems.sems[slot];
      TryWait(st, sem.id) == if sem.value > 0 then (Taken(st, slot), Success) else (st, Failure)
  {
    Names(st.sems, slot);
  }

  // A post lets the first waiter through, who becomes READY.  Otherwise it adds one to the 32-bit value.
  lemma PostEffect(st: State, slot: Slot)
    requires SemInv(st.sems) && slot !in st.sems.available && Sound(st.proc)
    ensures var sem, log := st.sems.sems[slot], st.sems.logs[slot];
      if sem.waiting == [] then
        var full := sem.value == 0xFFFF_FFFF;
        var entered := log.(posts := log.posts + 1, wraps := if full then log.wraps + 1 else log.wraps);
        Post(st, sem.id) ==
          st.(sems := Changed(st.sems, slot, sem.(value := if full then 0 else sem.value + 1), entered))
      else
        var who := sem.waiting[0];
        && st.proc.pcbs[who].priority < N_PRIOS
        && Post(st, sem.id) == State(Joining(st.proc, who),
                                     Changed(st.sems, slot, sem.(waiting := sem.waiting[1..]),
                                             log.(posts := log.posts + 1, granted := log.granted + [who])))
  {
    Names(st.sems, slot);
    PostIs(st, st.sems.sems[slot].id);
    assert SlotOk(st.sems, slot);
    if st.sems.sems[slot].waiting != [] { PriorityOk(st.proc, st.sems.sems[slot].waiting[0]); }
  }

  // A new semaphore takes the first available record and the next id, with value 0.  Without a record the answer is -1.
  lemma NewEffect(s: Sems)
    requires SemInv(s) && s.count + 1 < NO_SEMAPHORE
    ensures s.available == [] ==> S.New(s) == (s, 0xFFFF_FFFF)
    ensures s.available != [] ==>
      var slot, id := s.available[0], s.count + 1;
      S.New(s) == (Changed(s, slot, Sem(id, 0, []), Log(0, [], [], 0))
                 .(live := s.live + [Item(id, slot)], available := s.available[1..], count := id), id)
  {
    if s.available != [] { NewIs(s); }
  }

  // A destroy makes all waiters READY with FAILURE, in order, and the record available again.
  lemma DestroyEffect(st: State, slot: Slot) returns (i: nat)
    requires SemInv(st.sems) && slot !in st.sems.available && Sound(st.proc)
    ensures i < |st.sems.live| && st.sems.live[i] == Item(st.sems.sems[slot].id, slot)
    ensures var sem := st.sems.sems[slot]; var r := Destroy(st, sem.id);
      && Scheduled(st.proc, sem.waiting, Some(Failure), r.proc)
      && r.sems == Changed(st.sems, slot, sem.(waiting := []), st.sems.logs[slot])
                   .(live := Without(st.sems.live, i), available := st.sems.available + [slot])
  {
    Names(st.sems, slot);
    i :| Position(st.sems.live, st.sems.sems[slot].id) == Some(i) && i < |st.sems.live|
         && st.sems.live[i] == Item(st.sems.sems[slot].id, slot);
    forall x: Id ensures st.proc.pcbs[x].priority < N_PRIOS { PriorityOk(st.proc, x); }
    SchedAllEffect(st.proc, st.sems.sems[slot].waiting, Some(Failure));
  }

  // An id that no live semaphore has changes nothing and is answered so.
  lemma UnknownEffect(st: State, id: Key)
    requires SemInv(st.sems) && forall slot: Slot :: slot !in st.sems.available ==> st.sems.sems[slot].id != id
    ensures Wait(st, id) == Some(st) && Post(st, id) == st && Destroy(st, id) == st
    ensures Lookup(st.sems.live, id) == (if st.sems.live == [] then EmptyQueue else NotFound)
    ensures TryWait(st, id) == (st, Lookup(st.sems.live, id))
  {
    if Lookup(st.sems.live, id) == Success { FindIsLive(st.sems, id); }
  }
}
