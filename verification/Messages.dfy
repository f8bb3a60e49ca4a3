/**
Message passing (src/kernel/messages.c): mailboxes by recipient pid and the processes blocked in receive.  The
history records what was sent to each pid and what was received for it, by hand-off or from the mailbox.
*/
module Messages {
  import opened Options
  import opened QueueSpec
  import opened Processes
  import opened ProcessSafety
  import opened Fairness
  import opened Types

  // A process id is a 16-bit word.
  type Pid = k: Key | k < 0x1_0000

  type Byte = b: nat | b < 256

  datatype Message = Message(from: Pid, data: seq<Byte>)

  type Boxes = map<Pid, seq<Message>>

  datatype History = History(sent: Boxes, received: Boxes)

  // given is what the last completed receive of each process has stored through its arguments.
  datatype Mail = Mail(boxes: Boxes, waiting: seq<Item<Id>>, given: map<Id, Message>, history: History)

  datatype State = State(proc: Proc, mail: Mail)

  // A pid without a queue has no messages.
  function In(boxes: Boxes, pid: Pid): seq<Message> { if pid in boxes then boxes[pid] else [] }

  function Add(boxes: Boxes, pid: Pid, m: Message): Boxes { boxes[pid := In(boxes, pid) + [m]] }

  // ---------------------------------------------------------------- the functions of messages.c

  // A blocked process gets the message at once.
  function Hand(st: State, i: nat, to: Pid, m: Message): State
    requires i < |st.mail.waiting|
  {
    var who := st.mail.waiting[i].data;
    State(SchedOne(st.proc, who, Some(Success)),
          Mail(st.mail.boxes, Without(st.mail.waiting, i), st.mail.given[who := m],
               History(Add(st.mail.history.sent, to, m), Add(st.mail.history.received, to, m))))
  }

  function Keep(mail: Mail, to: Pid, m: Message): Mail {
    mail.(boxes := Add(mail.boxes, to, m), history := mail.history.(sent := Add(mail.history.sent, to, m)))
  }

  // _message_send.  It returns no status when the message goes to the mailbox.
  function Send(st: State, to: Pid, m: Message): (State, Option<Status>) {
    match Position(st.mail.waiting, to)
    case Some(i) => (Hand(st, i, to, m), Some(Success))
    case None => (st.(mail := Keep(st.mail, to, m)), None)
  }

  // The oldest message leaves the mailbox for the process that asks.
  function TakeFirst(mail: Mail, pid: Pid, who: Id): Mail
    requires In(mail.boxes, pid) != []
  {
    mail.(boxes := mail.boxes[pid := mail.boxes[pid][1..]], given := mail.given[who := mail.boxes[pid][0]],
          history := mail.history.(received := Add(mail.history.received, pid, mail.boxes[pid][0])))
  }

  function Block(mail: Mail, pid: Pid, who: Id): Mail {
    mail.(waiting := Insert(AscendingUint, mail.waiting, Item(pid, who)))
  }

  // _message_receive, called by the current process with its own pid
  function Receive(st: State, pid: Pid): Option<State> {
    if In(st.mail.boxes, pid) != [] then Some(st.(mail := TakeFirst(st.mail, pid, st.proc.current))) else
    match Dispatch(st.proc)
    case None => None
    case Some(p) => Some(State(p, Block(st.mail, pid, st.proc.current)))
  }

  // _message_try_receive
  function TryReceive(mail: Mail, pid: Pid, who: Id): (Mail, Status) {
    if In(mail.boxes, pid) != [] then (TakeFirst(mail, pid, who), Success) else (mail, NotFound)
  }

  // _message_has_message
  function HasMessage(mail: Mail, pid: Pid): Status { if In(mail.boxes, pid) != [] then Success else NotFound }

  // ---------------------------------------------------------------- the invariant

  // Every message sent has been received or is in the mailbox, each once and in the order of sending.
  ghost predicate DeliveredTo(mail: Mail, pid: Pid) {
    In(mail.history.sent, pid) == In(mail.history.received, pid) + In(mail.boxes, pid)
  }

  ghost predicate Delivered(mail: Mail) { forall pid: Pid :: DeliveredTo(mail, pid) }

  // Nobody waits who has a message.
  ghost predicate Prompt(mail: Mail) {
    forall i :: 0 <= i < |mail.waiting| ==> mail.waiting[i].key < 0x1_0000 && In(mail.boxes, mail.waiting[i].key) == []
  }

  ghost predicate MailInv(mail: Mail) { Delivered(mail) && Prompt(mail) && Sorted(AscendingUint, mail.waiting) }

  // has_message says whether more was sent to the pid than has been received.
  lemma HasMessageIffUndelivered(mail: Mail, pid: Pid)
    requires MailInv(mail)
    ensures HasMessage(mail, pid) == Success <==> |In(mail.history.sent, pid)| > |In(mail.history.received, pid)|
  {
    assert DeliveredTo(mail, pid);
  }

  ghost predicate MailSound(st: State) {
    Sound(st.proc) && MailInv(st.mail) && forall x: Id :: Placed(st.proc, x) + DataOcc(st.mail.waiting, x) <= 1
  }

  ghost predicate MailKeeps(st: State, r: State) {
    && Sound(r.proc) && MailInv(r.mail) && Moved(st.proc, r.proc)
    && forall x :: Placed(r.proc, x) + DataOcc(r.mail.waiting, x) == Placed(st.proc, x) + DataOcc(st.mail.waiting, x)
  }

  lemma WithoutHas(s: seq<Item<Id>>, i: nat)
    requires i < |s|
    ensures forall j :: 0 <= j < |s| - 1 ==> Without(s, i)[j] == s[if j < i then j else j + 1]
  {
  }

  lemma HandInv(st: State, i: nat, to: Pid, m: Message)
    requires MailInv(st.mail) && Position(st.mail.waiting, to) == Some(i)
    ensures MailInv(Hand(st, i, to, m).mail)
  {
    var r := Hand(st, i, to, m).mail;
    WithoutHas(st.mail.waiting, i);
    WithoutKeepsSorted(AscendingUint, st.mail.waiting, i);
    assert st.mail.waiting[i].key == to;
    forall pid: Pid ensures DeliveredTo(r, pid) {
      assert DeliveredTo(st.mail, pid);
      if pid == to {
        assert In(st.mail.boxes, pid) == [] && In(r.boxes, pid) == [];
        assert In(st.mail.history.sent, pid) == In(st.mail.history.received, pid);
      }
    }
  }

  lemma HandMoves(p: Proc, waiting: seq<Item<Id>>, i: nat, ret: Option<Status>)
    requires Sound(p) && i < |waiting| && forall x: Id :: Placed(p, x) + DataOcc(waiting, x) <= 1
    ensures var r := SchedOne(p, waiting[i].data, ret);
      && Sound(r) && Moved(p, r)
      && forall x :: Placed(r, x) + DataOcc(Without(waiting, i), x) == Placed(p, x) + DataOcc(waiting, x)
  {
    var who := waiting[i].data;
    DataHas(waiting, i);
    assert Placed(p, who) + DataOcc(waiting, who) <= 1;
    SchedOneSound(p, who, ret);
    SchedAllOne(p, who, ret);
    SchedAllMoves(p, [who], ret);
    forall x ensures DataOcc(Without(waiting, i), x) + One(who == x) == DataOcc(waiting, x) {
      DataOccWithout(waiting, i, x);
    }
  }

  lemma HandKeeps(st: State, i: nat, to: Pid, m: Message)
    requires MailSound(st) && Position(st.mail.waiting, to) == Some(i)
    ensures MailKeeps(st, Hand(st, i, to, m))
  {
    HandInv(st, i, to, m);
    HandMoves(st.proc, st.mail.waiting, i, Some(Success));
  }

  lemma KeepInv(mail: Mail, to: Pid, m: Message)
    requires MailInv(mail) && Position(mail.waiting, to) == None
    ensures MailInv(Keep(mail, to, m))
  {
    var r := Keep(mail, to, m);
    forall pid: Pid ensures DeliveredTo(r, pid) {
      assert DeliveredTo(mail, pid);
      if pid == to { SameSplit(In(mail.history.sent, pid), In(mail.history.received, pid), In(mail.boxes, pid), m); }
    }
  }

  lemma SameSplit(sent: seq<Message>, received: seq<Message>, queued: seq<Message>, m: Message)
    requires sent == received + queued
    ensures sent + [m] == received + (queued + [m])
  {
  }

  // A message reaches the first process waiting for it, or else the end of the mailbox.
  lemma SendKeeps(st: State, to: Pid, m: Message)
    requires MailSound(st)
    ensures MailKeeps(st, Send(st, to, m).0)
  {
    if Position(st.mail.waiting, to).Some? {
      HandKeeps(st, Position(st.mail.waiting, to).value, to, m);
    } else {
      KeepInv(st.mail, to, m);
    }
  }

  lemma TakeFirstInv(mail: Mail, pid: Pid, who: Id)
    requires MailInv(mail) && In(mail.boxes, pid) != []
    ensures MailInv(TakeFirst(mail, pid, who))
  {
    var r := TakeFirst(mail, pid, who);
    forall other: Pid ensures DeliveredTo(r, other) {
      assert DeliveredTo(mail, other);
      assert other == pid ==> In(mail.boxes, other) == [mail.boxes[pid][0]] + mail.boxes[pid][1..];
    }
  }

  lemma BlockInv(mail: Mail, pid: Pid, who: Id)
    requires MailInv(mail) && In(mail.boxes, pid) == []
    ensures MailInv(Block(mail, pid, who))
    ensures forall x :: DataOcc(Block(mail, pid, who).waiting, x) == DataOcc(mail.waiting, x) + One(who == x)
  {
    InsertKeepsSorted(AscendingUint, mail.waiting, Item(pid, who));
    var p := Passed(AscendingUint, mail.waiting, pid);
    var r := Block(mail, pid, who);
    assert forall i :: 0 <= i < |r.waiting| ==>
      r.waiting[i] == if i < p then mail.waiting[i] else if i == p then Item(pid, who) else mail.waiting[i - 1];
    forall x ensures DataOcc(r.waiting, x) == DataOcc(mail.waiting, x) + One(who == x) {
      DataOccInsert(AscendingUint, mail.waiting, Item(pid, who), x);
    }
    forall other: Pid ensures DeliveredTo(r, other) { assert DeliveredTo(mail, other); }
  }

  lemma ReceiveKeeps(st: State, pid: Pid)
    requires MailSound(st) && Receive(st, pid).Some?
    ensures MailKeeps(st, Receive(st, pid).value)
  {
    if In(st.mail.boxes, pid) != [] {
      TakeFirstInv(st.mail, pid, st.proc.current);
    } else {
      BlockInv(st.mail, pid, st.proc.current);
      BlockSound(st.proc);
      BlockMoves(st.proc);
    }
  }

  lemma TryReceiveKeeps(mail: Mail, pid: Pid, who: Id)
    requires MailInv(mail)
    ensures MailInv(TryReceive(mail, pid, who).0) && TryReceive(mail, pid, who).0.waiting == mail.waiting
  {
    if In(mail.boxes, pid) != [] { TakeFirstInv(mail, pid, who); }
  }

  // ---------------------------------------------------------------- what the receivers hold

  // Process x holds the last message received for its pid.
  ghost predicate HoldsLast(p: Proc, mail: Mail, x: Id) {
    var pid := p.pcbs[x].pid;
    pid < 0x1_0000 && In(mail.history.received, pid) != [] ==>
      x in mail.given && mail.given[x] == In(mail.history.received, pid)[|In(mail.history.received, pid)| - 1]
  }

  // So does every process outside the pool, and nothing has been received for pids to come.
  ghost predicate GivenOk(p: Proc, mail: Mail) {
    && (forall x: Id :: x !in p.pool ==> HoldsLast(p, mail, x))
    && forall pid: Pid :: pid >= p.nextPid ==> In(mail.history.received, pid) == []
  }

  // A message received for process x
  lemma GivenTo(p: Proc, r: Proc, mail: Mail, after: Mail, x: Id, m: Message)
    requires Sound(p) && GivenOk(p, mail) && SamePids(p, r) && x !in p.pool && p.pcbs[x].pid < 0x1_0000
    requires after.given == mail.given[x := m] && after.history.received == Add(mail.history.received, p.pcbs[x].pid, m)
    ensures GivenOk(r, after)
  {
    var own := p.pcbs[x].pid;
    assert PcbOk(p, x);
    forall y: Id | y !in r.pool ensures HoldsLast(r, after, y) {
      assert y !in p.pool && HoldsLast(p, mail, y);
    }
    forall pid: Pid | pid >= r.nextPid ensures In(after.history.received, pid) == [] {
      assert pid != own && In(mail.history.received, pid) == [];
    }
  }

  lemma GivenStays(p: Proc, r: Proc, mail: Mail, after: Mail)
    requires GivenOk(p, mail) && SamePids(p, r) && after.given == mail.given
    requires after.history.received == mail.history.received
    ensures GivenOk(r, after)
  {
    forall y: Id | y !in r.pool ensures HoldsLast(r, after, y) { assert HoldsLast(p, mail, y); }
  }
}
