/**
What each function of src/kernel/locks.c does to the state, for the lock at a place in the list.
*/
module LockEffects {
  import opened Options
  import opened QueueSpec
  import opened Processes
  import opened ProcessSafety
  import opened ProcessEffects
  import Dispatching
  import opened L = Locks
  import opened Types

  // One lock of the list has changed.
  function Changed(s: L.Locks, i: nat, l: LockInfo): L.Locks
    requires i < |s.list|
  {
    L.Locks(s.list[i := Item(s.list[i].key, l)], s.count)
  }

  // The lock that an id finds
  ghost predicate Finds(s: L.Locks, id: Key, i: nat) {
    i < |s.list| && s.list[i].key == id && forall j :: 0 <= j < i ==> s.list[j].key != id
  }

  lemma FindsIs(s: L.Locks, id: Key, i: nat)
    requires Finds(s, id, i)
    ensures Lookup(s.list, id) == Success && Position(s.list, id) == Some(i)
  {
    PositionIs(s.list, id, i);
  }

  // A lock that nobody writes to or waits to write to lets readers in, and a writer if it has no readers.  Anyone else
  // waits, readers behind the others, and the next process is chosen.
  lemma LockEffect(st: State, id: Key, mode: Mode, i: nat)
    requires Finds(st.locks, id, i) && Sound(st.proc)
    ensures var l := st.locks.list[i].data; var closed := l.hasWriter || l.writerWaitingCount > 0;
      if !closed && mode == Read then
        LockLock(st, id, mode) == Some(st.(locks := Changed(st.locks, i, l.(readerCount := l.readerCount + 1))))
      else if !closed && l.readerCount == 0 then
        LockLock(st, id, mode) == Some(st.(locks := Changed(st.locks, i, l.(hasWriter := true))))
      else
        Waits(st, i, mode, LockLock(st, id, mode))
  {
    FindsIs(st.locks, id, i);
    Dispatching.DispatchChooses(st.proc);
  }

  // The caller waits, counted exactly if it waits to write, and the result is that of a dispatch.
  ghost predicate Waits(st: State, i: nat, mode: Mode, result: Option<State>)
    requires i < |st.locks.list|
  {
    var l := st.locks.list[i].data;
    var counted := if l.writerWaitingCount == 0xFFFF_FFFF then 0 else l.writerWaitingCount + 1;
    match result
    case None => MakesWay(st.proc, None)
    case Some(r) =>
      && MakesWay(st.proc, Some(r.proc))
      && r.locks == Changed(st.locks, i, l.(
           waiting := Insert(AscendingUint, l.waiting, Item(if mode == Read then 1 else 0, st.proc.current)),
           writerWaitingCount := if mode == Write then counted else l.writerWaitingCount))
  }

  // The processes of some waiters
  function Ids(s: seq<Item<Id>>): (r: seq<Id>)
    ensures |r| == |s| && forall i :: 0 <= i < |s| ==> r[i] == s[i].data
  {
    if s == [] then [] else [s[0].data] + Ids(s[1..])
  }

  lemma {:induction false} WhoIsIds(s: seq<Item<Id>>)
    ensures Who(s) == Ids(s)
  {
    if s != [] { WhoIsIds(s[1..]); }
  }

  // An unlock to read takes one off the readers first.  With no writer, holding or counted as waiting, that is all.
  // Otherwise the first waiter gets the lock, with all others if it is a reader; a writer that finds nobody waiting
  // gives the lock up, and anyone else gets EMPTY_QUEUE.
  ghost predicate Unlocked(l: LockInfo, mode: Mode, r: LockInfo, woken: seq<Item<Id>>, status: Status) {
    var count := if mode != Read then l.readerCount else if l.readerCount == 0 then 0xFFFF_FFFF else l.readerCount - 1;
    var fewer := if l.writerWaitingCount == 0 then 0xFFFF_FFFF else l.writerWaitingCount - 1;
    if !l.hasWriter && l.writerWaitingCount == 0 then
      r == l.(readerCount := count) && woken == [] && status == Success
    else if l.waiting == [] then
      && r == l.(readerCount := count, hasWriter := l.hasWriter && mode != Write)
      && woken == [] && status == if mode == Write then Success else EmptyQueue
    else if l.waiting[0].key == 1 then
      && r == l.(readerCount := count + |l.waiting|, hasWriter := false, waiting := [])
      && woken == l.waiting && status == Success
    else
      && r == l.(readerCount := count, hasWriter := true, writerWaitingCount := fewer, waiting := l.waiting[1..])
      && woken == [l.waiting[0]] && status == Success
  }

  lemma ReleaseEffect(l: LockInfo, mode: Mode)
    ensures Unlocked(l, mode, Release(l, mode).lock, Release(l, mode).woken, Release(l, mode).status)
  {
  }

  // Those who get the lock become READY, in the order in which they waited.
  lemma UnlockEffect(st: State, id: Key, mode: Mode, i: nat) returns (woken: seq<Item<Id>>)
    requires Finds(st.locks, id, i) && Sound(st.proc)
    ensures var (r, status) := LockUnlock(st, id, mode);
      && |r.locks.list| == |st.locks.list|
      && Unlocked(st.locks.list[i].data, mode, r.locks.list[i].data, woken, status)
      && r.locks == Changed(st.locks, i, r.locks.list[i].data) && Scheduled(st.proc, Ids(woken), None, r.proc)
  {
    var l := st.locks.list[i].data;
    FindsIs(st.locks, id, i);
    ReleaseEffect(l, mode);
    woken := Release(l, mode).woken;
    forall x: Id ensures st.proc.pcbs[x].priority < N_PRIOS { PriorityOk(st.proc, x); }
    WhoIsIds(woken);
    SchedAllEffect(st.proc, Ids(woken), None);
  }

  // A new lock goes to the end of the list under the next id, free.
  lemma NewEffect(s: L.Locks)
    requires LocksInv(s) && s.count + 1 < 0x1_0000_0000
    ensures L.New(s) == (L.Locks(s.list + [Item(s.count + 1, LockInfo(0, 0, [], false))], s.count + 1), s.count + 1)
  {
    NewKeeps(s);
  }

  // An id that no lock has changes nothing and is answered so; a lock that is found is not destroyed.
  lemma UnknownEffect(st: State, id: Key, mode: Mode)
    ensures (exists i: nat :: Finds(st.locks, id, i)) ==> DestroyStatus(st.locks, id) == Failure
    ensures (forall i :: 0 <= i < |st.locks.list| ==> st.locks.list[i].key != id) ==>
      var status := if st.locks.list == [] then EmptyQueue else NotFound;
      && LockLock(st, id, mode) == Some(st) && LockUnlock(st, id, mode) == (st, status)
      && DestroyStatus(st.locks, id) == status
  {
    if i: nat :| Finds(st.locks, id, i) { FindsIs(st.locks, id, i); }
  }
}
