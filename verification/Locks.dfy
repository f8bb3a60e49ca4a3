/**
Reader/writer locks (src/kernel/locks.c): one lock as a value with its two operations, when these keep readers
and writers apart, and the list of locks.  The list only grows: _lock_destroy refuses every lock it finds.
*/
module Locks {
  import opened Options
  import opened QueueSpec
  import opened Processes
  import opened ProcessSafety
  import opened Fairness
  import opened Types

  // LOCK_READ, LOCK_WRITE, and any other word: the caller's word is not checked.
  datatype Mode = Read | Write | Other

  // A waiter's key is 1 for a reader and 0 otherwise; its data is the waiting process.
  datatype LockInfo = LockInfo(readerCount: nat, writerWaitingCount: nat, waiting: seq<Item<Id>>, hasWriter: bool)

  const READER: Key := 1
  const WRITER: Key := 0

  function KeyOf(mode: Mode): Key { if mode == Read then READER else WRITER }

  // x-- and x++ on an unsigned 32-bit word
  function Less(x: nat): nat { if x == 0 then 0xFFFF_FFFF else x - 1 }

  function More(x: nat): nat { if x == 0xFFFF_FFFF then 0 else x + 1 }

  // ---------------------------------------------------------------- one lock

  // _lock_insert_waiter, before it dispatches
  function InsertWaiter(l: LockInfo, mode: Mode, who: Id): LockInfo {
    l.(waiting := Insert(AscendingUint, l.waiting, Item(KeyOf(mode), who)),
       writerWaitingCount := if mode == Write then More(l.writerWaitingCount) else l.writerWaitingCount)
  }

  // Whether _lock_lock lets the process in at once
  predicate Admits(l: LockInfo, mode: Mode) {
    !l.hasWriter && l.writerWaitingCount == 0 && (mode == Read || l.readerCount == 0)
  }

  // _lock_lock on the lock found
  function Acquire(l: LockInfo, mode: Mode, who: Id): LockInfo {
    if !Admits(l, mode) then InsertWaiter(l, mode, who)
    else if mode == Read then l.(readerCount := l.readerCount + 1)
    else l.(hasWriter := true)
  }

  // What _lock_unlock does to the lock found, whom it schedules, and what it returns
  datatype Released = Released(lock: LockInfo, woken: seq<Item<Id>>, status: Status)

  // The first waiter gets the lock, and if it is a reader, all who wait behind it do too.
  function HandOver(l: LockInfo): Released
    requires l.waiting != []
  {
    if l.waiting[0].key == READER then
      Released(l.(readerCount := l.readerCount + |l.waiting|, hasWriter := false, waiting := []), l.waiting, Success)
    else
      Released(l.(writerWaitingCount := Less(l.writerWaitingCount), hasWriter := true, waiting := l.waiting[1..]),
               [l.waiting[0]], Success)
  }

  function Release(l: LockInfo, mode: Mode): Released {
    var l1 := if mode == Read then l.(readerCount := Less(l.readerCount)) else l;
    if l1.writerWaitingCount == 0 && !l1.hasWriter then Released(l1, [], Success)
    else if l1.waiting != [] then HandOver(l1)
    else if mode == Write then Released(l1.(hasWriter := false), [], Success)
    else Released(l1, [], EmptyQueue)
  }

  function Writers(s: seq<Item<Id>>): nat {
    if s == [] then 0 else One(s[0].key == WRITER) + Writers(s[1..])
  }

  // What holds of every lock in every run, whoever locks and unlocks with what: readers wait behind the others.
  ghost predicate QueueOk(l: LockInfo) {
    Sorted(AscendingUint, l.waiting) && forall i :: 0 <= i < |l.waiting| ==> l.waiting[i].key <= READER
  }

  // What holds as long as nobody waits with a word that is no mode: the waiting writers are counted, and nobody waits
  // for a lock that would let a reader in.
  ghost predicate LockOk(l: LockInfo) {
    && QueueOk(l) && l.writerWaitingCount == Writers(l.waiting)
    && (l.waiting != [] ==> l.hasWriter || l.writerWaitingCount > 0)
  }

  lemma {:induction false} WritersConcat(s: seq<Item<Id>>, t: seq<Item<Id>>)
    ensures Writers(s + t) == Writers(s) + Writers(t)
  {
    if s == [] {
      assert s + t == t;
    } else {
      assert (s + t)[1..] == s[1..] + t;
      WritersConcat(s[1..], t);
    }
  }

  // Writers wait ahead of readers.
  lemma {:induction false} WritersFirst(s: seq<Item<Id>>)
    requires Sorted(AscendingUint, s) && forall i :: 0 <= i < |s| ==> s[i].key <= READER
    ensures Writers(s) <= |s| && forall i :: 0 <= i < |s| ==> (s[i].key == WRITER <==> i < Writers(s))
  {
    if s != [] {
      WritersFirst(s[1..]);
      assert forall i :: 0 < i < |s| ==> s[i] == s[1..][i - 1] && AtMost(AscendingUint, s[0].key, s[i].key);
      assert s[0].key == READER && |s| > 1 ==> s[1..][0].key == READER;
    }
  }

  lemma InsertWriters(s: seq<Item<Id>>, item: Item<Id>)
    ensures Writers(Insert(AscendingUint, s, item)) == Writers(s) + One(item.key == WRITER)
  {
    var p := Passed(AscendingUint, s, item.key);
    assert Insert(AscendingUint, s, item) == s[..p] + ([item] + s[p..]) && s == s[..p] + s[p..];
    WritersConcat(s[..p], [item] + s[p..]);
    WritersConcat([item], s[p..]);
    WritersConcat(s[..p], s[p..]);
  }

  lemma AcquireKeepsQueue(l: LockInfo, mode: Mode, who: Id)
    requires QueueOk(l)
    ensures QueueOk(Acquire(l, mode, who))
  {
    if !Admits(l, mode) { InsertKeepsSorted(AscendingUint, l.waiting, Item(KeyOf(mode), who)); }
  }

  // Locking keeps this exactly when the process is let in, or waits to read, or waits to write and is counted.
  lemma AcquireKeepsOk(l: LockInfo, mode: Mode, who: Id)
    requires LockOk(l)
    ensures LockOk(Acquire(l, mode, who)) <==>
      Admits(l, mode) || mode == Read || (mode == Write && l.writerWaitingCount != 0xFFFF_FFFF)
  {
    AcquireKeepsQueue(l, mode, who);
    InsertWriters(l.waiting, Item(KeyOf(mode), who));
  }

  lemma ReleaseKeepsQueue(l: LockInfo, mode: Mode)
    requires QueueOk(l)
    ensures QueueOk(Release(l, mode).lock)
  {
  }

  lemma ReleaseKeepsOk(l: LockInfo, mode: Mode)
    requires LockOk(l)
    ensures LockOk(Release(l, mode).lock)
  {
    WritersFirst(l.waiting);
  }

  // Who is woken leaves from the front of the queue.
  lemma WokenFromFront(l: LockInfo, mode: Mode)
    ensures l.waiting == Release(l, mode).woken + Release(l, mode).lock.waiting
  {
  }

  // Readers never pass a waiting writer: none is let in while one waits, and the flush wakes readers only, all of
  // them, while the woken writer is the one that has waited longest.
  lemma ReadersYieldToWriters(l: LockInfo, mode: Mode)
    requires LockOk(l)
    ensures Admits(l, Read) ==> Writers(l.waiting) == 0
    ensures var r := Release(l, mode);
      && l.waiting == r.woken + r.lock.waiting
      && (Writers(l.waiting) > 0 ==> r.woken == [l.waiting[0]] && r.woken[0].key == WRITER)
      && (Writers(l.waiting) == 0 ==> forall i :: 0 <= i < |r.woken| ==> r.woken[i].key == READER)
      && (Writers(l.waiting) == 0 && l.hasWriter ==> r.lock.waiting == [])
  {
    WritersFirst(l.waiting);
  }

  // ---------------------------------------------------------------- exclusion

  // A lock, and how many processes have it for reading and for writing: let in and not yet unlocked.
  datatype Held = Held(lock: LockInfo, readers: int, writers: int)

  datatype Op = Lock(mode: Mode, who: Id) | Unlock(mode: Mode)

  function Next(h: Held, op: Op): Held {
    match op
    case Lock(mode, who) =>
      var granted := Admits(h.lock, mode);
      Held(Acquire(h.lock, mode, who), h.readers + One(granted && mode == Read),
        h.writers + One(granted && mode == Write))
    case Unlock(mode) =>
      var r := Release(h.lock, mode);
      Held(r.lock, h.readers - One(mode == Read) + (|r.woken| - Writers(r.woken)),
        h.writers - One(mode == Write) + Writers(r.woken))
  }

  // A process unlocks only what some process has in that mode, and locks only when it does not wait itself.
  predicate Matched(h: Held, op: Op) {
    match op
    case Lock(mode, _) => mode != Other && |h.lock.waiting| < N_PCBS
    case Unlock(mode) => (mode == Read && h.readers > 0) || (mode == Write && h.writers > 0)
  }

  predicate Exclusive(h: Held) { 0 <= h.writers <= 1 && h.readers >= 0 && (h.writers == 1 ==> h.readers == 0) }

  // The branch of _lock_unlock that lets a writer in does not ask whether other readers remain.
  predicate Hasty(h: Held, op: Op) {
    op == Unlock(Read) && h.lock.writerWaitingCount > 0 && h.lock.readerCount != 1
  }

  // The lock's fields say who has it, and while anyone waits someone has it.
  ghost predicate Agrees(h: Held) {
    && LockOk(h.lock) && Exclusive(h) && h.lock.readerCount == h.readers && (h.lock.hasWriter <==> h.writers == 1)
    && (h.lock.waiting != [] ==> h.readers + h.writers > 0)
  }

  // A matched step keeps readers and writers apart exactly when it is not hasty.
  lemma StepIsExclusive(h: Held, op: Op)
    requires Agrees(h) && Matched(h, op)
    ensures Exclusive(Next(h, op)) <==> !Hasty(h, op)
    ensures !Hasty(h, op) ==> Agrees(Next(h, op))
  {
    WritersFirst(h.lock.waiting);
    if op.Lock? {
      AcquireKeepsOk(h.lock, op.mode, op.who);
    } else {
      ReleaseKeepsOk(h.lock, op.mode);
      WokenWriters(h.lock, op.mode);
    }
  }

  lemma WokenWriters(l: LockInfo, mode: Mode)
    requires LockOk(l)
    ensures var r := Release(l, mode);
      Writers(r.woken) == if l.writerWaitingCount > 0 then 1 else 0
  {
    WritersFirst(l.waiting);
  }

  // The states of a run on one lock.
  ghost predicate Run(states: seq<Held>, ops: seq<Op>) {
    && |states| == |ops| + 1 && states[0] == Held(LockInfo(0, 0, [], false), 0, 0)
    && forall i :: 0 <= i < |ops| ==> states[i + 1] == Next(states[i], ops[i])
  }

  ghost predicate MatchedRun(states: seq<Held>, ops: seq<Op>)
    requires Run(states, ops)
  {
    forall i :: 0 <= i < |ops| ==> Matched(states[i], ops[i])
  }

  ghost predicate Patient(states: seq<Held>, ops: seq<Op>)
    requires Run(states, ops)
  {
    forall i :: 0 <= i < |ops| ==> !Hasty(states[i], ops[i])
  }

  lemma {:induction false} PatientRunAgrees(states: seq<Held>, ops: seq<Op>)
    requires Run(states, ops) && MatchedRun(states, ops) && Patient(states, ops)
    ensures forall i :: 0 <= i < |states| ==> Agrees(states[i])
  {
    if |ops| > 0 {
      var n := |ops| - 1;
      var before := states[..n + 1];
      assert forall i :: 0 <= i < |before| ==> before[i] == states[i];
      assert Run(before, ops[..n]);
      PatientRunAgrees(before, ops[..n]);
      assert Agrees(before[n]);
      StepIsExclusive(states[n], ops[n]);
    }
  }

  // A matched run keeps readers and writers apart throughout exactly when no step of it is hasty.
  lemma {:induction false} ExclusionHoldsIffPatient(states: seq<Held>, ops: seq<Op>)
    requires Run(states, ops) && MatchedRun(states, ops)
    ensures (forall i :: 0 <= i < |states| ==> Exclusive(states[i])) <==> Patient(states, ops)
  {
    if Patient(states, ops) {
      PatientRunAgrees(states, ops);
    } else {
      var i := FirstHasty(states, ops);
      assert forall j :: 0 <= j <= i ==> states[..i + 1][j] == states[j];
      assert Run(states[..i + 1], ops[..i]);
      PatientRunAgrees(states[..i + 1], ops[..i]);
      assert Agrees(states[..i + 1][i]);
      StepIsExclusive(states[i], ops[i]);
      assert !Exclusive(states[i + 1]);
    }
  }

  lemma {:induction false} FirstHasty(states: seq<Held>, ops: seq<Op>) returns (i: nat)
    requires Run(states, ops) && !Patient(states, ops)
    ensures i < |ops| && Hasty(states[i], ops[i]) && forall j :: 0 <= j < i ==> !Hasty(states[j], ops[j])
  {
    i := 0;
    while !Hasty(states[i], ops[i])
      invariant i < |ops| && forall j :: 0 <= j < i ==> !Hasty(states[j], ops[j])
      decreases |ops| - i
    {
      assert exists j :: 0 <= j < |ops| && Hasty(states[j], ops[j]);
      i := i + 1;
    }
  }

  // Two readers and a waiting writer: the first reader to leave lets the writer in with the other.
  lemma ExclusionFails(a: Id, b: Id, c: Id)
    ensures var ops := [Lock(Read, a), Lock(Read, b), Lock(Write, c), Unlock(Read)];
      exists states :: Run(states, ops) && MatchedRun(states, ops) && !Exclusive(states[4])
  {
    var ops := [Lock(Read, a), Lock(Read, b), Lock(Write, c), Unlock(Read)];
    var s0 := Held(LockInfo(0, 0, [], false), 0, 0);
    var s1 := Next(s0, ops[0]);
    var s2 := Next(s1, ops[1]);
    var s3 := Next(s2, ops[2]);
    var s4 := Next(s3, ops[3]);
    var states := [s0, s1, s2, s3, s4];
    assert s3.lock == LockInfo(2, 1, [Item(WRITER, c)], false);
    assert Writers([Item(WRITER, c)]) == 1;
    assert s4.lock == LockInfo(1, 0, [], true) && s4.writers == 1;
    assert Run(states, ops) && MatchedRun(states, ops);
  }

  // A process that waits with a word that is no mode is not counted.  It stays behind when the last reader leaves the
  // lock free.
  lemma OtherModeIsLeftBehind(l: LockInfo, b: Id)
    requires l.readerCount == 1 && !l.hasWriter && l.writerWaitingCount == 0 && l.waiting == []
    ensures var r := Release(Acquire(l, Other, b), Read).lock;
      r.readerCount == 0 && !r.hasWriter && r.writerWaitingCount == 0 && r.waiting == [Item(WRITER, b)]
  {
    InsertAlone(AscendingUint, l.waiting, Item(WRITER, b));
  }

  // When it is let in later, as a writer, the count of waiting writers goes below 0, and no reader gets in any more.
  lemma OtherModeIsCountedOut(l: LockInfo, b: Id, c: Id)
    requires l.readerCount == 0 && !l.hasWriter && l.writerWaitingCount == 0 && l.waiting == [Item(WRITER, b)]
    ensures var r := Release(Acquire(l, Write, c), Write).lock;
      r.writerWaitingCount == 0xFFFF_FFFF && r.hasWriter && r.waiting == [] && !Admits(Release(r, Other).lock, Read)
  {
    assert l.waiting[1..] == [];
  }

  // ---------------------------------------------------------------- the list of locks

  datatype Locks = Locks(list: seq<Item<LockInfo>>, count: nat)

  datatype State = State(proc: Proc, locks: Locks)

  // _lock_new
  function New(s: Locks): (Locks, Key)
    requires s.count + 1 < 0x1_0000_0000
  {
    (Locks(Insert(AscendingUint, s.list, Item(s.count + 1, LockInfo(0, 0, [], false))), s.count + 1), s.count + 1)
  }

  function SetLock(s: Locks, i: nat, l: LockInfo): Locks
    requires i < |s.list|
  {
    s.(list := s.list[i := s.list[i].(data := l)])
  }

  // _lock_lock
  function LockLock(st: State, id: Key, mode: Mode): Option<State> {
    if Lookup(st.locks.list, id) != Success then Some(st) else
    var i := Position(st.locks.list, id).value;
    var l := st.locks.list[i].data;
    var locks := SetLock(st.locks, i, Acquire(l, mode, st.proc.current));
    if Admits(l, mode) then Some(st.(locks := locks)) else
    match Dispatch(st.proc)
    case None => None
    case Some(p) => Some(State(p, locks))
  }

  function Who(s: seq<Item<Id>>): seq<Id> { if s == [] then [] else [s[0].data] + Who(s[1..]) }

  // _lock_unlock
  function LockUnlock(st: State, id: Key, mode: Mode): (State, Status) {
    if Lookup(st.locks.list, id) != Success then (st, Lookup(st.locks.list, id)) else
    var i := Position(st.locks.list, id).value;
    var r := Release(st.locks.list[i].data, mode);
    (State(SchedAll(st.proc, Who(r.woken), None), SetLock(st.locks, i, r.lock)), r.status)
  }

  // _lock_destroy
  function DestroyStatus(s: Locks, id: Key): Status {
    if Lookup(s.list, id) == Success then Failure else Lookup(s.list, id)
  }

  ghost predicate LocksInv(s: Locks) {
    forall i :: 0 <= i < |s.list| ==> QueueOk(s.list[i].data) && s.list[i].key <= s.count
  }

  // How often process x waits for a lock.
  function LockOcc(list: seq<Item<LockInfo>>, x: nat): nat {
    if list == [] then 0 else DataOcc(list[0].data.waiting, x) + LockOcc(list[1..], x)
  }

  lemma {:induction false} LockOccUpdate(list: seq<Item<LockInfo>>, i: nat, l: LockInfo, x: nat)
    requires i < |list|
    ensures LockOcc(list[i := list[i].(data := l)], x) + DataOcc(list[i].data.waiting, x) ==
      LockOcc(list, x) + DataOcc(l.waiting, x)
  {
    if i > 0 {
      LockOccUpdate(list[1..], i - 1, l, x);
      assert list[i := list[i].(data := l)][1..] == list[1..][i - 1 := list[i].(data := l)];
    } else {
      assert list[i := list[i].(data := l)][1..] == list[1..];
    }
  }

  lemma {:induction false} LockOccConcat(s: seq<Item<LockInfo>>, t: seq<Item<LockInfo>>, x: nat)
    ensures LockOcc(s + t, x) == LockOcc(s, x) + LockOcc(t, x)
  {
    if s == [] {
      assert s + t == t;
    } else {
      assert (s + t)[1..] == s[1..] + t;
      LockOccConcat(s[1..], t, x);
    }
  }

  lemma {:induction false} WhoOcc(s: seq<Item<Id>>, x: nat)
    ensures Occ(Who(s), x) == DataOcc(s, x)
  {
    if s != [] {
      WhoOcc(s[1..], x);
      OccTail(Who(s), x);
      assert Who(s)[1..] == Who(s[1..]);
    }
  }

  ghost predicate LockSound(st: State) {
    Sound(st.proc) && LocksInv(st.locks) && forall x: Id :: Placed(st.proc, x) + LockOcc(st.locks.list, x) <= 1
  }

  ghost predicate LockKeeps(st: State, r: State) {
    && Sound(r.proc) && LocksInv(r.locks) && Moved(st.proc, r.proc)
    && forall x :: Placed(r.proc, x) + LockOcc(r.locks.list, x) == Placed(st.proc, x) + LockOcc(st.locks.list, x)
  }

  // A new lock has an id of its own.
  lemma NewKeeps(s: Locks)
    requires LocksInv(s) && s.count + 1 < 0x1_0000_0000
    ensures LocksInv(New(s).0) && forall x :: LockOcc(New(s).0.list, x) == LockOcc(s.list, x)
    ensures New(s).0.list == s.list + [Item(New(s).1, LockInfo(0, 0, [], false))]
    ensures forall i :: 0 <= i < |s.list| ==> s.list[i].key != New(s).1
  {
    PassedIs(AscendingUint, s.list, s.count + 1, |s.list|);
    forall x ensures LockOcc(New(s).0.list, x) == LockOcc(s.list, x) {
      var item := Item(New(s).1, LockInfo(0, 0, [], false));
      assert New(s).0.list == s.list + [item] && [item][1..] == [] && LockOcc([item], x) == 0;
      LockOccConcat(s.list, [item], x);
    }
  }

  lemma AcquireOcc(s: Locks, i: nat, mode: Mode, who: Id, x: nat)
    requires i < |s.list|
    ensures var l := s.list[i].data;
      LockOcc(SetLock(s, i, Acquire(l, mode, who)).list, x) == LockOcc(s.list, x) + One(!Admits(l, mode) && who == x)
  {
    var l := s.list[i].data;
    LockOccUpdate(s.list, i, Acquire(l, mode, who), x);
    DataOccInsert(AscendingUint, l.waiting, Item(KeyOf(mode), who), x);
  }

  lemma AcquiredKeeps(st: State, i: nat, mode: Mode)
    requires LockSound(st) && i < |st.locks.list|
    ensures var l := st.locks.list[i].data; var locks := SetLock(st.locks, i, Acquire(l, mode, st.proc.current));
      && LocksInv(locks)
      && forall x :: LockOcc(locks.list, x) == LockOcc(st.locks.list, x) + One(!Admits(l, mode) && st.proc.current == x)
  {
    var l := st.locks.list[i].data;
    var locks := SetLock(st.locks, i, Acquire(l, mode, st.proc.current));
    AcquireKeepsQueue(l, mode, st.proc.current);
    forall x
      ensures LockOcc(locks.list, x) == LockOcc(st.locks.list, x) + One(!Admits(l, mode) && st.proc.current == x)
    {
      AcquireOcc(st.locks, i, mode, st.proc.current, x);
    }
  }

  lemma LockLockKeeps(st: State, id: Key, mode: Mode)
    requires LockSound(st) && LockLock(st, id, mode).Some?
    ensures LockKeeps(st, LockLock(st, id, mode).value)
  {
    if Lookup(st.locks.list, id) == Success {
      var i := Position(st.locks.list, id).value;
      AcquiredKeeps(st, i, mode);
      if !Admits(st.locks.list[i].data, mode) {
        BlockSound(st.proc);
        BlockMoves(st.proc);
      }
    }
  }

  lemma {:induction false} LockOccHas(list: seq<Item<LockInfo>>, i: nat, x: nat)
    requires i < |list|
    ensures DataOcc(list[i].data.waiting, x) <= LockOcc(list, x)
  {
    if i > 0 { LockOccHas(list[1..], i - 1, x); }
  }

  // Who is woken was waiting.
  lemma WokenCounts(list: seq<Item<LockInfo>>, i: nat, mode: Mode, x: nat)
    requires i < |list|
    ensures Occ(Who(Release(list[i].data, mode).woken), x) <= LockOcc(list, x)
  {
    var r := Release(list[i].data, mode);
    WokenFromFront(list[i].data, mode);
    LockOccHas(list, i, x);
    DataOccConcat(r.woken, r.lock.waiting, x);
    WhoOcc(r.woken, x);
  }

  // Who is woken is nowhere else.
  lemma WokenApart(st: State, i: nat, mode: Mode)
    requires LockSound(st) && i < |st.locks.list|
    ensures forall x: Id :: Placed(st.proc, x) + Occ(Who(Release(st.locks.list[i].data, mode).woken), x) <= 1
  {
    var r := Release(st.locks.list[i].data, mode);
    forall x: Id ensures Placed(st.proc, x) + Occ(Who(r.woken), x) <= 1 {
      assert Placed(st.proc, x) + LockOcc(st.locks.list, x) <= 1;
      WokenCounts(st.locks.list, i, mode, x);
    }
  }

  lemma ReleasedKeeps(st: State, i: nat, mode: Mode)
    requires LockSound(st) && i < |st.locks.list|
    ensures var r := Release(st.locks.list[i].data, mode);
      LockKeeps(st, State(SchedAll(st.proc, Who(r.woken), None), SetLock(st.locks, i, r.lock)))
  {
    var l := st.locks.list[i].data;
    var r := Release(l, mode);
    ReleaseKeepsQueue(l, mode);
    WokenFromFront(l, mode);
    forall x ensures LockOcc(SetLock(st.locks, i, r.lock).list, x) + Occ(Who(r.woken), x) == LockOcc(st.locks.list, x) {
      LockOccUpdate(st.locks.list, i, r.lock, x);
      DataOccConcat(r.woken, r.lock.waiting, x);
      WhoOcc(r.woken, x);
    }
    SchedAllSound(st.proc, Who(r.woken), None);
    SchedAllMoves(st.proc, Who(r.woken), None);
  }

  lemma LockUnlockKeeps(st: State, id: Key, mode: Mode)
    requires LockSound(st)
    ensures LockKeeps(st, LockUnlock(st, id, mode).0)
  {
    if Lookup(st.locks.list, id) == Success { ReleasedKeeps(st, Position(st.locks.list, id).value, mode); }
  }
}
