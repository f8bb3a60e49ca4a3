/**
Semaphores (src/kernel/semaphores.c).  Next to the ten records, a log of each semaphore's history since it was
made: the posts, the processes that came to wait in order, and those that were let through in order.
*/
module Semaphores {
  import opened Options
  import opened QueueSpec
  import opened Processes
  import opened ProcessSafety
  import opened Fairness
  import opened Types

  const MAX_SEMAPHORES := 10
  const NO_SEMAPHORE: Key := 0xFFFF_FFFF

  // Semaphores are named by their index in the array of records.
  type Slot = i: nat | i < MAX_SEMAPHORES

  // The value is a 32-bit word.
  type Count = v: nat | v < WORD_RANGE

  datatype Sem = Sem(id: Key, value: Count, waiting: seq<Id>)

  // wraps counts the posts at which the value has gone from its greatest word to 0.
  datatype Log = Log(posts: nat, arrived: seq<Id>, granted: seq<Id>, wraps: nat)

  type SemTable = s: seq<Sem> | |s| == MAX_SEMAPHORES witness NoSems(MAX_SEMAPHORES)

  type LogTable = s: seq<Log> | |s| == MAX_SEMAPHORES witness NoLogs(MAX_SEMAPHORES)

  function NoSems(n: nat): (s: seq<Sem>)
    ensures |s| == n && forall i :: 0 <= i < n ==> s[i] == Sem(0, 0, [])
  {
    if n == 0 then [] else NoSems(n - 1) + [Sem(0, 0, [])]
  }

  function NoLogs(n: nat): (s: seq<Log>)
    ensures |s| == n
  {
    if n == 0 then [] else NoLogs(n - 1) + [Log(0, [], [], 0)]
  }

  datatype Sems = Sems(sems: SemTable, logs: LogTable, live: seq<Item<Slot>>, available: seq<Slot>, count: nat)

  datatype State = State(proc: Proc, sems: Sems)

  // ---------------------------------------------------------------- the functions of semaphores.c

  // _q_get_by_key on the list of semaphores
  function Find(s: Sems, id: Key): Slot
    requires Lookup(s.live, id) == Success
  {
    s.live[Position(s.live, id).value].data
  }

  function SetSem(s: Sems, slot: Slot, sem: Sem, log: Log): Sems {
    s.(sems := s.sems[slot := sem], logs := s.logs[slot := log])
  }

  // _sem_new
  function New(s: Sems): (Sems, Key)
    requires s.count + 1 < NO_SEMAPHORE
  {
    if s.available == [] then (s, NO_SEMAPHORE) else
    var slot := s.available[0];
    var id := s.count + 1;
    (SetSem(s, slot, Sem(id, 0, []), Log(0, [], [], 0))
     .(live := Insert(AscendingUint, s.live, Item(id, slot)), available := s.available[1..], count := id), id)
  }

  // The first waiting process is let through.
  function Grant(st: State, slot: Slot): (r: State)
    requires st.sems.sems[slot].waiting != [] && st.sems.sems[slot].value > 0
    ensures r.sems.sems[slot].waiting == st.sems.sems[slot].waiting[1..]
  {
    var sem, log := st.sems.sems[slot], st.sems.logs[slot];
    var i := sem.waiting[0];
    State(Sched(st.proc, i), SetSem(st.sems, slot, sem.(value := sem.value - 1, waiting := sem.waiting[1..]),
                                    log.(granted := log.granted + [i])))
  }

  // _sem_sched_waiting
  function SchedWaiting(st: State, slot: Slot): State
    decreases |st.sems.sems[slot].waiting|
  {
    var sem := st.sems.sems[slot];
    if sem.value > 0 && sem.waiting != [] then SchedWaiting(Grant(st, slot), slot) else st
  }

  // The greatest word goes to 0.
  predicate Full(sem: Sem) { sem.value + 1 == WORD_RANGE }

  function PostedSem(sem: Sem): Sem { sem.(value := if Full(sem) then 0 else sem.value + 1) }

  function PostedLog(sem: Sem, log: Log): Log { log.(posts := log.posts + 1, wraps := log.wraps + One(Full(sem))) }

  function Posted(st: State, slot: Slot): State {
    var sem, log := st.sems.sems[slot], st.sems.logs[slot];
    st.(sems := SetSem(st.sems, slot, PostedSem(sem), PostedLog(sem, log)))
  }

  // _sem_post
  function Post(st: State, id: Key): State {
    if Lookup(st.sems.live, id) != Success then st
    else SchedWaiting(Posted(st, Find(st.sems, id)), Find(st.sems, id))
  }

  // The calling process takes one from the value.
  function Enter(st: State, slot: Slot): State
    requires st.sems.sems[slot].value > 0
  {
    var sem, log, i := st.sems.sems[slot], st.sems.logs[slot], st.proc.current;
    st.(sems := SetSem(st.sems, slot, sem.(value := sem.value - 1),
      log.(arrived := log.arrived + [i], granted := log.granted + [i])))
  }

  // The calling process joins the waiting ones.
  function Queue(st: State, slot: Slot): Sems {
    var sem, log, i := st.sems.sems[slot], st.sems.logs[slot], st.proc.current;
    SetSem(st.sems, slot, sem.(waiting := sem.waiting + [i]), log.(arrived := log.arrived + [i]))
  }

  // _sem_try_wait
  function TryWait(st: State, id: Key): (State, Status) {
    if Lookup(st.sems.live, id) != Success then (st, Lookup(st.sems.live, id))
    else if st.sems.sems[Find(st.sems, id)].value > 0 then (Enter(st, Find(st.sems, id)), Success)
    else (st, Failure)
  }

  // _sem_wait
  function Wait(st: State, id: Key): Option<State> {
    if Lookup(st.sems.live, id) != Success then Some(st)
    else if st.sems.sems[Find(st.sems, id)].value > 0 then Some(Enter(st, Find(st.sems, id)))
    else match Dispatch(st.proc)
      case None => None
      case Some(p) => Some(State(p, Queue(st, Find(st.sems, id))))
  }

  // _sem_destroy
  function Destroy(st: State, id: Key): State {
    if Lookup(st.sems.live, id) != Success then st else
    var slot := Find(st.sems, id);
    State(SchedAll(st.proc, st.sems.sems[slot].waiting, Some(Failure)),
          SetSem(st.sems, slot, st.sems.sems[slot].(waiting := []), st.sems.logs[slot])
          .(live := Without(st.sems.live, Position(st.sems.live, id).value), available := st.sems.available + [slot]))
  }

  // ---------------------------------------------------------------- the invariant

  // The posts are those granted, those in the value, and a whole word for each time it has wrapped.
  ghost predicate Accounts(sem: Sem, log: Log) {
    log.arrived == log.granted + sem.waiting && log.posts == sem.value + |log.granted| + WORD_RANGE * log.wraps
  }

  // The record is either live or available.  A positive value means that nobody waits.  A live semaphore's value
  // and queue account for its history.
  ghost predicate SlotOk(s: Sems, slot: Slot) {
    var sem, log := s.sems[slot], s.logs[slot];
    && DataOcc(s.live, slot) + Occ(s.available, slot) == 1 && (sem.value > 0 ==> sem.waiting == [])
    && if slot in s.available then sem.waiting == []
       else Accounts(sem, log)
  }

  // Live ids are distinct and in order.
  ghost predicate ListsOk(s: Sems) {
    && (forall i :: 0 <= i < |s.live| ==> s.live[i].key == s.sems[s.live[i].data].id <= s.count)
    && forall i, j :: 0 <= i < j < |s.live| ==> s.live[i].key < s.live[j].key
  }

  ghost predicate SemInv(s: Sems) { (forall slot: Slot :: SlotOk(s, slot)) && ListsOk(s) }

  // How often process x waits for a semaphore.
  function SemOcc(sems: seq<Sem>, x: nat): nat {
    if sems == [] then 0 else Occ(sems[0].waiting, x) + SemOcc(sems[1..], x)
  }

  lemma {:induction false} SemOccUpdate(sems: seq<Sem>, i: nat, sem: Sem, x: nat)
    requires i < |sems|
    ensures SemOcc(sems[i := sem], x) + Occ(sems[i].waiting, x) == SemOcc(sems, x) + Occ(sem.waiting, x)
  {
    if i > 0 {
      SemOccUpdate(sems[1..], i - 1, sem, x);
      assert sems[i := sem][1..] == sems[1..][i - 1 := sem];
    } else {
      assert sems[i := sem][1..] == sems[1..];
    }
  }

  lemma {:induction false} SemOccHas(sems: seq<Sem>, i: nat, x: nat)
    requires i < |sems|
    ensures Occ(sems[i].waiting, x) <= SemOcc(sems, x)
  {
    if i > 0 { SemOccHas(sems[1..], i - 1, x); }
  }

  lemma {:induction false} LiveFrom(live: seq<Item<Slot>>, x: nat)
    requires DataOcc(live, x) >= 1
    ensures exists i :: 0 <= i < |live| && live[i].data == x
  {
    if live[0].data != x {
      LiveFrom(live[1..], x);
      var i :| 0 <= i < |live[1..]| && live[1..][i].data == x;
      assert live[i + 1].data == x;
    }
  }

  lemma FindIsLive(s: Sems, id: Key)
    requires SemInv(s) && Lookup(s.live, id) == Success
    ensures Find(s, id) !in s.available && s.sems[Find(s, id)].id == id && SlotOk(s, Find(s, id))
  {
    DataHas(s.live, Position(s.live, id).value);
    assert SlotOk(s, Find(s, id));
  }

  // The id of a semaphore finds it as long as it has not been destroyed.
  lemma LiveIsFound(s: Sems, slot: Slot)
    requires SemInv(s) && slot !in s.available
    ensures Lookup(s.live, s.sems[slot].id) == Success && Find(s, s.sems[slot].id) == slot
  {
    assert SlotOk(s, slot);
    LiveFrom(s.live, slot);
    var i :| 0 <= i < |s.live| && s.live[i].data == slot;
    assert forall j :: 0 <= j < |s.live| && j != i ==> s.live[j].key != s.live[i].key;
    assert Position(s.live, s.sems[slot].id) == Some(i);
  }

  // The arrivals have been let through from the first on, and the others wait, in order.  If the value has never
  // wrapped, and only then, the history decides everything: the first posts-many arrivals have been let through, and
  // the value is what the posts exceed the arrivals by.
  lemma ServiceIsFirstComeFirstServed(s: Sems, slot: Slot)
    requires SemInv(s) && slot !in s.available
    ensures var sem, log := s.sems[slot], s.logs[slot]; log.arrived == log.granted + sem.waiting
    ensures var sem, log := s.sems[slot], s.logs[slot];
      var n := if log.posts < |log.arrived| then log.posts else |log.arrived|;
      log.granted == log.arrived[..n] && sem.waiting == log.arrived[n..] && sem.value == log.posts - n <==>
        log.wraps == 0
  {
    assert SlotOk(s, slot);
  }

  // After _sem_init
  ghost predicate NoneMade(s: Sems) {
    && s.live == [] && s.count == 0 && |s.available| == MAX_SEMAPHORES && (forall i: Slot :: s.available[i] == i)
    && forall i: Slot :: s.sems[i] == Sem(0, 0, [])
  }

  lemma NoneMadeInv(s: Sems)
    requires NoneMade(s)
    ensures SemInv(s) && forall x :: SemOcc(s.sems, x) == 0
  {
    forall i: Slot ensures SlotOk(s, i) { OccOfRange(s.available, 0, i); }
    forall x ensures SemOcc(s.sems, x) == 0 { NobodyWaits(s.sems, x); }
  }

  lemma {:induction false} NobodyWaits(sems: seq<Sem>, x: nat)
    requires forall i :: 0 <= i < |sems| ==> sems[i].waiting == []
    ensures SemOcc(sems, x) == 0
  {
    if sems != [] { NobodyWaits(sems[1..], x); }
  }

  // ---------------------------------------------------------------- each function keeps it

  // A change of one live record that accounts for its history.
  lemma SetSemInv(s: Sems, slot: Slot, sem: Sem, log: Log)
    requires SemInv(s) && slot !in s.available && sem.id == s.sems[slot].id
    requires (sem.value > 0 ==> sem.waiting == []) && Accounts(sem, log)
    ensures SemInv(SetSem(s, slot, sem, log))
  {
    var r := SetSem(s, slot, sem, log);
    forall other: Slot ensures SlotOk(r, other) { assert SlotOk(s, other); }
  }

  lemma NewIs(s: Sems)
    requires SemInv(s) && s.count + 1 < NO_SEMAPHORE && s.available != []
    ensures var r := New(s).0; var slot := s.available[0];
      && r.live == s.live + [Item(s.count + 1, slot)] && s.available == [slot] + r.available
      && s.sems[slot].waiting == [] && forall i :: 0 <= i < |s.live| ==> s.live[i].data != slot
  {
    PassedIs(AscendingUint, s.live, s.count + 1, |s.live|);
    assert SlotOk(s, s.available[0]);
    forall i | 0 <= i < |s.live| ensures s.live[i].data != s.available[0] {
      DataHas(s.live, i);
      assert SlotOk(s, s.live[i].data);
    }
  }

  lemma NewSlot(s: Sems, x: Slot)
    requires SemInv(s) && s.count + 1 < NO_SEMAPHORE && s.available != []
    ensures SlotOk(New(s).0, x)
  {
    var slot, r := s.available[0], New(s).0;
    NewIs(s);
    assert SlotOk(s, x);
    DataOccConcat(s.live, [Item(s.count + 1, slot)], x);
    OccTail(s.available, x);
    if x == slot { DataHas(r.live, |s.live|); }
  }

  // A new semaphore has an id of its own.
  lemma NewKeeps(s: Sems)
    requires SemInv(s) && s.count + 1 < NO_SEMAPHORE
    ensures SemInv(New(s).0) && forall x :: SemOcc(New(s).0.sems, x) == SemOcc(s.sems, x)
    ensures s.available != [] ==> forall i :: 0 <= i < |s.live| ==> s.live[i].key != New(s).1
  {
    if s.available != [] {
      var slot, r := s.available[0], New(s).0;
      NewIs(s);
      forall x: Slot ensures SlotOk(r, x) { NewSlot(s, x); }
      forall x ensures SemOcc(r.sems, x) == SemOcc(s.sems, x) {
        SemOccUpdate(s.sems, slot, Sem(s.count + 1, 0, []), x);
      }
    }
  }

  // Nobody is in two places, counting the waiting lists of semaphores.
  ghost predicate SemSound(st: State) {
    Sound(st.proc) && SemInv(st.sems) && forall x: Id :: Placed(st.proc, x) + SemOcc(st.sems.sems, x) <= 1
  }

  // Everyone stays in as many places, the invariants hold, and ready queues change as `Fairness` says.
  ghost predicate SemKeeps(st: State, r: State) {
    && Sound(r.proc) && SemInv(r.sems) && Moved(st.proc, r.proc)
    && forall x :: Placed(r.proc, x) + SemOcc(r.sems.sems, x) == Placed(st.proc, x) + SemOcc(st.sems.sems, x)
  }

  // The first waiting process is let through by a new post.
  function Woke(st: State, slot: Slot): State
    requires st.sems.sems[slot].waiting != []
  {
    var sem, log := st.sems.sems[slot], st.sems.logs[slot];
    var i := sem.waiting[0];
    State(Sched(st.proc, i), SetSem(st.sems, slot, sem.(waiting := sem.waiting[1..]),
      Log(log.posts + 1, log.arrived, log.granted + [i], log.wraps)))
  }

  // A post wakes the first waiting process, or else is kept in the value.
  lemma PostIs(st: State, id: Key)
    requires SemInv(st.sems) && Lookup(st.sems.live, id) == Success
    ensures var slot := Find(st.sems, id);
      Post(st, id) == if st.sems.sems[slot].waiting == [] then Posted(st, slot) else Woke(st, slot)
  {
    FindIsLive(st.sems, id);
    var slot := Find(st.sems, id);
    var st1 := Posted(st, slot);
    if st.sems.sems[slot].waiting != [] {
      assert SchedWaiting(st1, slot) == SchedWaiting(Grant(st1, slot), slot) == Grant(st1, slot);
      assert Grant(st1, slot).sems.sems == Woke(st, slot).sems.sems;
    }
  }

  lemma PostedKeeps(st: State, slot: Slot)
    requires SemSound(st) && slot !in st.sems.available && st.sems.sems[slot].waiting == []
    ensures SemKeeps(st, Posted(st, slot))
  {
    var sem, log := st.sems.sems[slot], st.sems.logs[slot];
    var r := Posted(st, slot);
    assert SlotOk(st.sems, slot);
    SetSemInv(st.sems, slot, PostedSem(sem), PostedLog(sem, log));
    forall x ensures SemOcc(r.sems.sems, x) == SemOcc(st.sems.sems, x) {
      SemOccUpdate(st.sems.sems, slot, r.sems.sems[slot], x);
    }
  }

  lemma WokeInv(st: State, slot: Slot)
    requires SemInv(st.sems) && slot !in st.sems.available && st.sems.sems[slot].waiting != []
    ensures SemInv(Woke(st, slot).sems)
    ensures forall x ::
      SemOcc(Woke(st, slot).sems.sems, x) + One(st.sems.sems[slot].waiting[0] == x) == SemOcc(st.sems.sems, x)
  {
    var sem, log := st.sems.sems[slot], st.sems.logs[slot];
    var i := sem.waiting[0];
    assert SlotOk(st.sems, slot);
    SetSemInv(st.sems, slot, sem.(waiting := sem.waiting[1..]),
      Log(log.posts + 1, log.arrived, log.granted + [i], log.wraps));
    forall x ensures SemOcc(Woke(st, slot).sems.sems, x) + One(i == x) == SemOcc(st.sems.sems, x) {
      SemOccUpdate(st.sems.sems, slot, sem.(waiting := sem.waiting[1..]), x);
      OccTail(sem.waiting, x);
    }
  }

  lemma WokeKeeps(st: State, slot: Slot)
    requires SemSound(st) && slot !in st.sems.available && st.sems.sems[slot].waiting != []
    ensures SemKeeps(st, Woke(st, slot))
  {
    var i := st.sems.sems[slot].waiting[0];
    WokeInv(st, slot);
    assert SemOcc(Woke(st, slot).sems.sems, i) + One(i == i) == SemOcc(st.sems.sems, i);
    SchedOneSound(st.proc, i, None);
    SchedAllMoves(st.proc, [i], None);
    SchedAllOne(st.proc, i, None);
  }

  lemma PostKeeps(st: State, id: Key)
    requires SemSound(st)
    ensures SemKeeps(st, Post(st, id))
  {
    if Lookup(st.sems.live, id) == Success {
      FindIsLive(st.sems, id);
      PostIs(st, id);
      if st.sems.sems[Find(st.sems, id)].waiting == [] {
        PostedKeeps(st, Find(st.sems, id));
      } else {
        WokeKeeps(st, Find(st.sems, id));
      }
    }
  }

  // A post is lost in a wrap exactly when it finds the semaphore full, which nobody waits for.
  lemma PostWrapsIffFull(st: State, id: Key)
    requires SemInv(st.sems) && Lookup(st.sems.live, id) == Success
    ensures var slot := Find(st.sems, id); var wraps := st.sems.logs[slot].wraps; var r := Post(st, id).sems;
      && r.logs[slot].wraps == wraps + One(Full(st.sems.sems[slot]))
      && (Full(st.sems.sems[slot]) ==> r.sems[slot].value == 0 && r.sems[slot].waiting == [])
      && forall other: Slot :: other != slot ==> r.logs[other] == st.sems.logs[other]
  {
    FindIsLive(st.sems, id);
    PostIs(st, id);
  }

  lemma EnterKeeps(st: State, slot: Slot)
    requires SemSound(st) && slot !in st.sems.available && st.sems.sems[slot].value > 0
    ensures SemKeeps(st, Enter(st, slot))
  {
    var sem, log, i := st.sems.sems[slot], st.sems.logs[slot], st.proc.current;
    assert SlotOk(st.sems, slot);
    SetSemInv(st.sems, slot, sem.(value := sem.value - 1),
      log.(arrived := log.arrived + [i], granted := log.granted + [i]));
    forall x ensures SemOcc(Enter(st, slot).sems.sems, x) == SemOcc(st.sems.sems, x) {
      SemOccUpdate(st.sems.sems, slot, sem.(value := sem.value - 1), x);
    }
  }

  lemma TryWaitKeeps(st: State, id: Key)
    requires SemSound(st)
    ensures SemKeeps(st, TryWait(st, id).0)
  {
    if Lookup(st.sems.live, id) == Success {
      FindIsLive(st.sems, id);
      if st.sems.sems[Find(st.sems, id)].value > 0 { EnterKeeps(st, Find(st.sems, id)); }
    }
  }

  lemma WaitKeeps(st: State, id: Key)
    requires SemSound(st) && Wait(st, id).Some?
    ensures SemKeeps(st, Wait(st, id).value)
  {
    if Lookup(st.sems.live, id) == Success {
      var slot := Find(st.sems, id);
      FindIsLive(st.sems, id);
      if st.sems.sems[slot].value > 0 {
        EnterKeeps(st, slot);
      } else {
        QueueKeeps(st, slot);
        BlockSound(st.proc);
        BlockMoves(st.proc);
      }
    }
  }

  lemma QueueKeeps(st: State, slot: Slot)
    requires SemSound(st) && slot !in st.sems.available && st.sems.sems[slot].value == 0
    ensures SemInv(Queue(st, slot))
    ensures forall x :: SemOcc(Queue(st, slot).sems, x) == SemOcc(st.sems.sems, x) + One(st.proc.current == x)
  {
    var sem, log, i := st.sems.sems[slot], st.sems.logs[slot], st.proc.current;
    assert SlotOk(st.sems, slot);
    SetSemInv(st.sems, slot, sem.(waiting := sem.waiting + [i]), log.(arrived := log.arrived + [i]));
    forall x ensures SemOcc(Queue(st, slot).sems, x) == SemOcc(st.sems.sems, x) + One(i == x) {
      SemOccUpdate(st.sems.sems, slot, sem.(waiting := sem.waiting + [i]), x);
      OccAppend(sem.waiting, i, x);
    }
  }

  // Who waits for a semaphore is nowhere else.
  lemma WaitersApart(st: State, slot: Slot)
    requires SemSound(st)
    ensures forall x: Id :: Placed(st.proc, x) + Occ(st.sems.sems[slot].waiting, x) <= 1
  {
    forall x: Id ensures Placed(st.proc, x) + Occ(st.sems.sems[slot].waiting, x) <= 1 {
      assert Placed(st.proc, x) + SemOcc(st.sems.sems, x) <= 1;
      SemOccHas(st.sems.sems, slot, x);
    }
  }

  // The records after a destroy
  lemma DestroyInv(st: State, id: Key)
    requires SemSound(st) && Lookup(st.sems.live, id) == Success
    ensures SemInv(Destroy(st, id).sems)
  {
    var s, p := st.sems, Position(st.sems.live, id).value;
    FindIsLive(s, id);
    forall x: Slot ensures SlotOk(Retired(s, p), x) { RetiredSlot(s, p, x); }
    RetiredLists(s, p);
    assert Destroy(st, id).sems == Retired(s, p);
  }

  // The live semaphore at position p has gone back to the available ones.
  function Retired(s: Sems, p: nat): Sems
    requires p < |s.live|
  {
    var slot := s.live[p].data;
    SetSem(s, slot, s.sems[slot].(waiting := []), s.logs[slot]).(live := Without(s.live, p),
      available := s.available + [slot])
  }

  lemma RetiredSlot(s: Sems, p: nat, x: Slot)
    requires SemInv(s) && p < |s.live|
    ensures SlotOk(Retired(s, p), x)
  {
    assert SlotOk(s, x);
    DataOccWithout(s.live, p, x);
    OccAppend(s.available, s.live[p].data, x);
  }

  lemma RetiredLists(s: Sems, p: nat)
    requires SemInv(s) && p < |s.live|
    ensures ListsOk(Retired(s, p))
  {
    var r, slot := Retired(s, p), s.live[p].data;
    assert forall i :: 0 <= i < |r.live| ==> r.live[i] == s.live[if i < p then i else i + 1];
    RetiredSlot(s, p, slot);
    forall i | 0 <= i < |r.live| ensures r.live[i].data != slot { DataHas(r.live, i); }
  }

  // Destroying schedules every waiting process, with FAILURE, and the id is gone.
  lemma DestroyKeeps(st: State, id: Key)
    requires SemSound(st)
    ensures SemKeeps(st, Destroy(st, id))
    ensures Lookup(Destroy(st, id).sems.live, id) != Success
  {
    if Lookup(st.sems.live, id) == Success {
      var r, slot := Destroy(st, id), Find(st.sems, id);
      var sem := st.sems.sems[slot];
      DestroyInv(st, id);
      forall x ensures SemOcc(r.sems.sems, x) + Occ(sem.waiting, x) == SemOcc(st.sems.sems, x) {
        SemOccUpdate(st.sems.sems, slot, sem.(waiting := []), x);
      }
      SchedAllSound(st.proc, sem.waiting, Some(Failure));
      SchedAllMoves(st.proc, sem.waiting, Some(Failure));
      DestroyedIsGone(st.sems, id);
    }
  }

  lemma DestroyedIsGone(s: Sems, id: Key)
    requires SemInv(s) && Lookup(s.live, id) == Success
    ensures forall i :: 0 <= i < |s.live| - 1 ==> Without(s.live, Position(s.live, id).value)[i].key != id
  {
    var p := Position(s.live, id).value;
    forall i | 0 <= i < |s.live| - 1 ensures Without(s.live, p)[i].key != id {
      var j := if i < p then i else i + 1;
      assert Without(s.live, p)[i] == s.live[j];
    }
  }
}
