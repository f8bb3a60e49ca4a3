/**
src/kernel/messages.c on its own globals, _messageQueues and _waitingPcbs, updated in place as `Messages` says.
*/
module MessageTable {
  import opened Options
  import opened QueueSpec
  import opened Processes
  import opened SchedulerState
  import opened M = Messages
  import opened Types

  class Table {
    const kernel: Scheduler
    var boxes: Boxes
    var waiting: seq<Item<Id>>
    var given: map<Id, Message>
    ghost var history: History

    ghost predicate Valid()
      reads kernel
    {
      kernel.Valid()
    }

    ghost function Contents(): Mail
      reads this
    {
      Mail(boxes, waiting, given, history)
    }

    ghost function Value(): State
      requires Valid()
      reads this, kernel, kernel.pcbs, kernel.ready
    {
      State(kernel.State(), Contents())
    }

    // _messages_init
    constructor (kernel: Scheduler)
      requires kernel.Valid()
      ensures Valid() && this.kernel == kernel && Contents() == Mail(map[], [], map[], History(map[], map[]))
    {
      this.kernel := kernel;
      boxes, waiting, given, history := map[], [], map[], History(map[], map[]);
    }

    // _q_remove_by_key on the waiting processes
    method RemoveWaiting(pid: Pid) returns (found: bool, pcb: Id, ghost i: nat)
      modifies `waiting
      ensures found ==>
        Position(old(waiting), pid) == Some(i) && pcb == old(waiting)[i].data && waiting == Without(old(waiting), i)
      ensures !found ==> Position(old(waiting), pid) == None && waiting == old(waiting)
    {
      var j := 0;
      while j < |waiting|
        invariant 0 <= j <= |waiting| && waiting == old(waiting) && forall k :: 0 <= k < j ==> waiting[k].key != pid
      {
        if waiting[j].key == pid {
          PositionIs(waiting, pid, j);
          pcb, i := waiting[j].data, j;
          waiting := Without(waiting, j);
          return true, pcb, i;
        }
        j := j + 1;
      }
      found, pcb, i := false, 0, 0;
    }

    // _message_send
    method Send(to: Pid, m: Message) returns (status: Option<Status>)
      requires Valid()
      modifies this, kernel.pcbs, kernel.ready
      ensures (Value(), status) == M.Send(old(Value()), to, m)
    {
      var found, pcb, i := RemoveWaiting(to);
      history := history.(sent := Add(history.sent, to, m));
      if found {
        given := given[pcb := m];
        history := history.(received := Add(history.received, to, m));
        kernel.Return(pcb, Success);
        var _ := kernel.Sched(pcb);
        return Some(Success);
      }
      if to !in boxes { boxes := boxes[to := []]; }
      boxes := boxes[to := boxes[to] + [m]];
      assert boxes == Add(old(boxes), to, m);
      status := None;
    }

    // The message that both receive functions look for
    method TakeMessage(pid: Pid) returns (m: Option<Message>)
      modifies this
      ensures Contents() == M.TryReceive(old(Contents()), pid, kernel.current).0
      ensures m == if In(old(boxes), pid) == [] then None else Some(old(boxes)[pid][0])
    {
      if pid in boxes && boxes[pid] != [] {
        m := Some(boxes[pid][0]);
        given := given[kernel.current := boxes[pid][0]];
        history := history.(received := Add(history.received, pid, boxes[pid][0]));
        boxes := boxes[pid := boxes[pid][1..]];
      } else {
        m := None;
      }
    }

    // _message_receive
    method Receive(pid: Pid) returns (ok: bool, m: Option<Message>)
      requires Valid()
      modifies this, kernel`pool, kernel`current, kernel.pcbs, kernel.ready
      ensures var r := M.Receive(old(Value()), pid); ok == r.Some? && (ok ==> Value() == r.value)
      ensures m == if In(old(boxes), pid) == [] then None else Some(old(boxes)[pid][0])
    {
      m := TakeMessage(pid);
      ok := true;
      if m == None {
        waiting := Insert(AscendingUint, waiting, Item(pid, kernel.current));
        ok := kernel.Dispatch();
      }
    }

    // _message_try_receive
    method TryReceive(pid: Pid) returns (status: Status, m: Option<Message>)
      modifies this
      ensures (Contents(), status) == M.TryReceive(old(Contents()), pid, kernel.current)
      ensures m == if In(old(boxes), pid) == [] then None else Some(old(boxes)[pid][0])
    {
      m := TakeMessage(pid);
      status := if m == None then NotFound else Success;
    }

    // _message_has_message
    method HasMessage(pid: Pid) returns (status: Status)
      ensures status == Success || status == NotFound
      ensures DeliveredTo(Contents(), pid) ==>
        (status == Success <==> |In(history.sent, pid)| > |In(history.received, pid)|)
      ensures status == M.HasMessage(Contents(), pid)
    {
      status := if pid in boxes && boxes[pid] != [] then Success else NotFound;
    }
  }
}
