/** The system calls on a message queue (ipc/msg.c), as methods that change the queue in place. */
module MessageQueueCalls {
  import opened Lists
  import opened MessageQueue

  datatype SendResult = Sent | SendInvalid | SendAgain | SendAsleep | SendGone

  datatype RecvResult = Received(msg: Msg, copied: nat) | RecvTooBig | NoMessage | RecvAsleep | RecvGone

  datatype WakeResult = Woken(msg: Msg) | WokenTooBig | WokenGone | Interrupted | TryAgain

  class Queue {
    var alive: bool
    var messages: seq<Msg>
    var receivers: seq<Receiver>
    var slots: map<nat, Slot>
    var senders: seq<Sender>
    var cbytes: int
    var qnum: int
    var qbytes: nat
    const maxSize: nat
    ghost var sent: seq<Msg>
    ghost var taken: seq<Delivery>
    ghost var got: seq<Delivery>
    ghost var freed: seq<Msg>

    ghost function Abs(): State
      reads this
    {
      State(alive, messages, receivers, slots, senders, cbytes, qnum, qbytes, sent, taken, got, freed)
    }

    constructor (limit: nat, max: nat)
      ensures Abs() == Init(limit) && Inv(Abs()) && maxSize == max
    {
      alive, messages, receivers, slots, senders := true, [], [], map[], [];
      cbytes, qnum, qbytes, maxSize := 0, 0, limit, max;
      sent, taken, got, freed := [], [], [], [];
      new;
      InitInv(limit);
    }

    /** sys_msgsnd up to where it returns or sleeps; a woken sender calls it again. */
    method Msgsnd(task: nat, m: Msg, nowait: bool) returns (res: SendResult)
      requires Inv(Abs())
      modifies this
      ensures Inv(Abs()) && Next(old(Abs()), Abs())
      ensures res == SendInvalid <==> m.size > maxSize || m.mtype < 1
      ensures res == Sent <==>
              && m.size <= maxSize && m.mtype >= 1 && old(alive)
              && m.size + Bytes(old(messages)) <= old(qbytes) && |old(messages)| + 1 <= old(qbytes)
      ensures res == Sent ==> Abs() == Send(old(Abs()), m)
      ensures res == SendAsleep ==> !nowait && Abs() == old(Abs()).(senders := old(senders) + [Sender(task, m.size)])
      ensures (res == SendAgain ==> nowait) && (res == SendGone ==> !old(alive))
      ensures res in {SendInvalid, SendAgain, SendGone} ==> Abs() == old(Abs())
    {
      hide NoneMissed, InOrder, Sleeping, Delivered, Next, Send, Bytes;
      ghost var s := Abs();
      NextStay(s);
      if m.size > maxSize || m.mtype < 1 {
        return SendInvalid;
      }
      if !alive {
        return SendGone;
      }
      if m.size + cbytes > qbytes || 1 + qnum > qbytes {
        if nowait {
          return SendAgain;
        }
        senders := senders + [Sender(task, m.size)];
        NextWait(s, Sender(task, m.size));
        return SendAsleep;
      }
      Accept(m);
      return Sent;
    }

    /** There is room: hand the message to a sleeping receiver or queue it. */
    method Accept(m: Msg)
      requires Inv(Abs()) && alive && m.mtype >= 1 && !Full(Abs(), m.size)
      modifies this
      ensures Inv(Abs()) && Next(old(Abs()), Abs()) && Abs() == Send(old(Abs()), m)
      ensures alive
    {
      hide NoneMissed, InOrder, Sleeping, Delivered, Next, NoRoom, Pipeline, Refuse, Bytes;
      ghost var s := Abs();
      SendKeeps(s, m);
      NextSend(s, m);
      var h := PipelinedSend(receivers, m);
      receivers := h.asleep;
      slots := Refuse(slots, h.refused);
      match h.winner {
        case Some(winner) =>
          slots := slots[winner := Handed(m)];
          taken := taken + [Delivery(winner, m)];
        case None =>
          messages := messages + [m];
          cbytes := cbytes + m.size;
          qnum := qnum + 1;
      }
      sent := sent + [m];
      assert Abs() == Send(s, m);
    }

    /** sys_msgrcv up to where it returns or sleeps. */
    method Msgrcv(task: nat, size: nat, msgtyp: int, noerror: bool, nowait: bool, except_: bool)
      returns (res: RecvResult, ghost i: nat)
      requires Inv(Abs()) && Idle(Abs(), task)
      modifies this
      ensures Inv(Abs()) && Next(old(Abs()), Abs())
      ensures res == RecvGone <==> !old(alive)
      ensures res in {NoMessage, RecvAsleep} <==>
              old(alive) && (msgtyp == LONG_MIN || forall m :: m in old(messages) ==> !Asked(m, msgtyp, except_))
      ensures res.Received? || res == RecvTooBig ==> Promised(old(messages), msgtyp, except_, i)
      ensures res.Received? ==>
                && res.msg == old(messages)[i] && Abs() == Take(old(Abs()), task, i)
                && res.copied == (if size < res.msg.size then size else res.msg.size)
                && (size < res.msg.size ==> noerror)
      ensures res == RecvTooBig ==> size < old(messages)[i].size && !noerror
      ensures (res == NoMessage ==> nowait) && (res == RecvAsleep ==> !nowait)
      ensures res == RecvAsleep ==> |receivers| > 0 && Abs() == Sleep(old(Abs()), receivers[|receivers| - 1])
      ensures res == RecvAsleep ==> forall m: Msg :: m.mtype >= 1 ==>
                var r := receivers[|receivers| - 1];
                && (Matches(m, r) <==> msgtyp != LONG_MIN && Asked(m, msgtyp, except_))
                && (Fits(m, r) <==> m.size <= size || noerror)
      ensures res in {RecvTooBig, NoMessage, RecvGone} ==> Abs() == old(Abs())
    {
      hide NoneMissed, InOrder, Sleeping, Delivered, NoRoom, Next, Take, Sleep, IsChoice, Promised, AnyMatch;
      NextStay(Abs());
      NoneAsked(messages, msgtyp, except_);
      var (mtype, mode) := ConvertMode(msgtyp, except_);
      i := 0;
      if !alive {
        return RecvGone, i;
      }
      var found := FindMsg(messages, mtype, mode);
      if found.Some? {
        var at := found.value;
        i := at;
        ChoicePromised(messages, msgtyp, except_, at);
        var m := messages[at];
        if size < m.size && !noerror {
          return RecvTooBig, i;
        }
        Dequeue(task, at, mtype, mode);
        return Received(m, if size > m.size then m.size else size), i;
      }
      if nowait {
        return NoMessage, i;
      }
      var r := Receiver(task, mtype, mode, if noerror then None else Some(size));
      Enlist(r);
      forall m: Msg | m.mtype >= 1 ensures Matches(m, r) <==> msgtyp != LONG_MIN && Asked(m, msgtyp, except_) {
        SearchesAsked(m, msgtyp, except_);
      }
      return RecvAsleep, i;
    }

    /** Take the found message off the queue and wake all senders. */
    method Dequeue(task: nat, at: nat, ghost mtype: int, ghost mode: Mode)
      requires Inv(Abs()) && alive && Idle(Abs(), task) && IsChoice(messages, mtype, mode, at)
      modifies this
      ensures Inv(Abs()) && Next(old(Abs()), Abs()) && Abs() == Take(old(Abs()), task, at)
    {
      hide NoneMissed, InOrder, Sleeping, Delivered, NoRoom, Next;
      ghost var s := Abs();
      var m := messages[at];
      messages := messages[..at] + messages[at + 1..];
      qnum := qnum - 1;
      cbytes := cbytes - m.size;
      senders := [];
      taken, got := taken + [Delivery(task, m)], got + [Delivery(task, m)];
      TakeKeeps(s, task, mtype, mode, at);
      NextTake(s, task, mtype, mode, at);
      assert Abs() == Take(s, task, at);
    }

    /** No message waiting: join the receivers that a sender serves. */
    method Enlist(r: Receiver)
      requires Inv(Abs()) && alive && Idle(Abs(), r.task) && !AnyMatch(messages, r.mtype, r.mode)
      modifies this
      ensures Inv(Abs()) && Next(old(Abs()), Abs()) && Abs() == Sleep(old(Abs()), r)
      ensures receivers == old(receivers) + [r]
    {
      hide NoneMissed, InOrder, Sleeping, Delivered, NoRoom, Next;
      ghost var s := Abs();
      receivers := receivers + [r];
      slots := slots[r.task := Pending];
      SleepKeeps(s, r);
      NextSleep(s, r);
      assert Abs() == Sleep(s, r);
    }

    /** A receiver runs again: by a hand-over, an error, a signal or for no reason. */
    method Resume(task: nat, signal: bool) returns (res: WakeResult)
      requires Inv(Abs()) && task in slots
      modifies this
      ensures Inv(Abs()) && Next(old(Abs()), Abs())
      ensures Idle(Abs(), task)
      ensures res.Woken? ==> old(slots)[task] == Handed(res.msg) && Delivery(task, res.msg) in taken
      ensures res.Woken? <==> old(slots)[task].Handed?
      ensures old(slots)[task] == Pending ==> res == (if signal then Interrupted else TryAgain)
      ensures (res == WokenTooBig <==> old(slots)[task] == TooBig) &&
              (res == WokenGone <==> old(slots)[task] == QueueGone)
      ensures Abs() == if old(slots)[task] == Pending then Leave(old(Abs()), task) else Collect(old(Abs()), task)
    {
      hide NoneMissed, InOrder, Delivered, Next, NoRoom, Bytes;
      ghost var s := Abs();
      var slot := slots[task];
      if slot == Pending {
        assert alive by {
          PendingAlive(s, task);
        }
        var rest := Unlink(task);
        receivers, slots := rest, slots - {task};
        LeaveKeeps(s, task);
        NextLeave(s, task);
        assert Abs() == Leave(s, task);
        return if signal then Interrupted else TryAgain;
      }
      if slot.Handed? {
        DeliveryTaken(s, task);
        got := got + [Delivery(task, slot.msg)];
      }
      slots := slots - {task};
      CollectKeeps(s, task);
      NextCollect(s, task);
      assert Abs() == Collect(s, task);
      match slot {
        case Handed(m) => return Woken(m);
        case TooBig => return WokenTooBig;
        case QueueGone => return WokenGone;
      }
    }

    /** list_del of the sleeper's own entry. */
    method Unlink(task: nat) returns (rest: seq<Receiver>)
      ensures rest == WithoutTask(receivers, task)
    {
      rest := [];
      var i := |receivers|;
      while i > 0
        invariant 0 <= i <= |receivers|
        invariant rest == WithoutTask(receivers[i..], task)
      {
        i := i - 1;
        assert receivers[i..][1..] == receivers[i + 1..];
        if receivers[i].task != task {
          rest := [receivers[i]] + rest;
        }
      }
      assert receivers[0..] == receivers;
    }

    /** sys_msgsnd goes on after sleeping: the sender takes itself off the list, to try again or with EINTR. */
    method LeaveSenders(task: nat)
      requires Inv(Abs()) && alive
      modifies this
      ensures Inv(Abs()) && Next(old(Abs()), Abs()) && Abs() == GiveUp(old(Abs()), task)
      ensures forall w :: w in senders <==> w in old(senders) && w.task != task
    {
      ghost var s := Abs();
      var rest: seq<Sender> := [];
      var i := |senders|;
      while i > 0
        invariant 0 <= i <= |senders| && Abs() == s
        invariant rest == WithoutSender(senders[i..], task)
      {
        i := i - 1;
        assert senders[i..][1..] == senders[i + 1..];
        if senders[i].task != task {
          rest := [senders[i]] + rest;
        }
      }
      assert senders[0..] == senders;
      senders := rest;
      assert Abs() == GiveUp(s, task);
      PlainKeeps(s, Abs());
    }

    /** IPC_SET changes the limit and wakes all senders. The receivers are woken too, but what is put into their slots
        is what is there already, so they try again or leave as any sleeper may. */
    method SetLimit(limit: nat)
      requires Inv(Abs()) && alive
      modifies this
      ensures Inv(Abs()) && Next(old(Abs()), Abs()) && Abs() == SetBytes(old(Abs()), limit)
    {
      ghost var s := Abs();
      qbytes, senders := limit, [];
      assert Abs() == SetBytes(s, limit);
      PlainKeeps(s, Abs());
    }

    /** IPC_RMID: freeque. */
    method Remove()
      requires Inv(Abs()) && alive
      modifies this
      ensures Inv(Abs()) && Next(old(Abs()), Abs()) && Abs() == Free(old(Abs()))
    {
      hide NoneMissed, InOrder, Sleeping, Delivered, Next, NoRoom, Bytes;
      ghost var s := Abs();
      NextFree(s);
      freed := messages;
      slots := map t | t in slots :: if slots[t] == Pending then QueueGone else slots[t];
      alive, messages, receivers, senders := false, [], [], [];
      assert Abs() == Free(s);
      FreeKeeps(s);
    }
  }

  /** A dead queue has no sleepers left. */
  lemma PendingAlive(s: State, task: nat)
    requires Inv(s) && task in s.slots && s.slots[task] == Pending
    ensures s.alive
  {
  }

  lemma DeliveryTaken(s: State, task: nat)
    requires Inv(s) && task in s.slots && s.slots[task].Handed?
    ensures Delivery(task, s.slots[task].msg) in s.taken
  {
    var d := Delivery(task, s.slots[task].msg);
    InSlotsIff(s.slots);
    assert d in multiset(InSlots(s.slots));
    assert d in multiset(s.taken);
  }
}
