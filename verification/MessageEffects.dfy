/**
What each function of src/kernel/messages.c does to the state: who is given which message, what stays in the mailboxes,
and what is entered in the history.
*/
module MessageEffects {
  import opened Options
  import opened QueueSpec
  import opened Processes
  import opened ProcessSafety
  import opened ProcessEffects
  import Dispatching
  import opened Messages
  import opened Types

  // The list of one pid has become s, and no other has changed.
  ghost predicate Entered(boxes: Boxes, after: Boxes, pid: Pid, s: seq<Message>) {
    In(after, pid) == s && forall other: Pid :: other != pid ==> In(after, other) == In(boxes, other)
  }

  // i is the first process that waits under the pid.
  ghost predicate FirstWaiter(mail: Mail, pid: Pid, i: nat) {
    i < |mail.waiting| && mail.waiting[i].key == pid && forall j :: 0 <= j < i ==> mail.waiting[j].key != pid
  }

  ghost predicate NobodyWaits(mail: Mail, pid: Pid) {
    forall i :: 0 <= i < |mail.waiting| ==> mail.waiting[i].key != pid
  }

  // With nobody waiting the message goes behind those in the mailbox.
  lemma SendIsKept(st: State, to: Pid, m: Message)
    requires NobodyWaits(st.mail, to)
    ensures var r := Send(st, to, m).0;
      && Entered(st.mail.boxes, r.mail.boxes, to, In(st.mail.boxes, to) + [m])
      && Entered(st.mail.history.sent, r.mail.history.sent, to, In(st.mail.history.sent, to) + [m])
      && r.proc == st.proc && r.mail.waiting == st.mail.waiting && r.mail.given == st.mail.given
      && r.mail.history.received == st.mail.history.received
    ensures Send(st, to, m).1 == None
  {
  }

  // The first process that waits for it is given the message, becomes READY and leaves the waiting ones.
  lemma SendIsHanded(st: State, to: Pid, m: Message, i: nat)
    requires FirstWaiter(st.mail, to, i) && Sound(st.proc)
    ensures var who, r := st.mail.waiting[i].data, Send(st, to, m).0;
      && st.proc.pcbs[who].priority < N_PRIOS
      && r.proc == Joining(With(st.proc, who, st.proc.pcbs[who].(ret := Success)), who)
      && r.mail.given == st.mail.given[who := m] && r.mail.waiting == Without(st.mail.waiting, i)
      && r.mail.boxes == st.mail.boxes
      && Entered(st.mail.history.sent, r.mail.history.sent, to, In(st.mail.history.sent, to) + [m])
      && Entered(st.mail.history.received, r.mail.history.received, to, In(st.mail.history.received, to) + [m])
    ensures Send(st, to, m).1 == Some(Success)
  {
    PositionIs(st.mail.waiting, to, i);
    PriorityOk(st.proc, st.mail.waiting[i].data);
  }

  // The oldest message of the mailbox is given to who, and entered as received.
  ghost predicate TakesOldest(mail: Mail, r: Mail, pid: Pid, who: Id)
    requires In(mail.boxes, pid) != []
  {
    var m := In(mail.boxes, pid)[0];
    && Entered(mail.boxes, r.boxes, pid, In(mail.boxes, pid)[1..]) && r.given == mail.given[who := m]
    && Entered(mail.history.received, r.history.received, pid, In(mail.history.received, pid) + [m])
    && r.waiting == mail.waiting && r.history.sent == mail.history.sent
  }

  // A receive takes the oldest message.  Without one the caller waits under its pid, behind those who wait under the
  // same, and the next process is chosen.
  lemma ReceiveEffect(st: State, pid: Pid)
    requires Sound(st.proc)
    ensures In(st.mail.boxes, pid) != [] ==>
      Receive(st, pid).Some? && Receive(st, pid).value.proc == st.proc
      && TakesOldest(st.mail, Receive(st, pid).value.mail, pid, st.proc.current)
    ensures In(st.mail.boxes, pid) == [] ==>
      match Receive(st, pid)
      case None => MakesWay(st.proc, None)
      case Some(r) =>
        && MakesWay(st.proc, Some(r.proc))
        && r.mail == st.mail.(waiting := Insert(AscendingUint, st.mail.waiting, Item(pid, st.proc.current)))
  {
    Dispatching.DispatchChooses(st.proc);
  }

  // A try_receive takes the oldest message with SUCCESS, or changes nothing and answers NOT_FOUND.
  lemma TryReceiveEffect(mail: Mail, pid: Pid, who: Id)
    ensures In(mail.boxes, pid) == [] ==> TryReceive(mail, pid, who) == (mail, NotFound)
    ensures In(mail.boxes, pid) != [] ==>
      TakesOldest(mail, TryReceive(mail, pid, who).0, pid, who) && TryReceive(mail, pid, who).1 == Success
  {
  }
}
