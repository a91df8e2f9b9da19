/** System V message queues (ipc/msg.c): one queue, its messages, its sleeping receivers and senders.
    Each section under the queue's lock is one step. */
module MessageQueue {
  import opened Lists

  /** long on the 32-bit machine. */
  const LONG_MIN := -0x8000_0000

  /** The id stands for the address of the message; its text is carried along unchanged. */
  datatype Msg = Msg(id: nat, mtype: int, size: nat)

  datatype Mode = SearchAny | SearchEqual | SearchNotEqual | SearchLessEqual

  /** A receiver on q_receivers. */
  datatype Receiver = Receiver(task: nat, mtype: int, mode: Mode, maxsize: Option<nat>)

  /** r_msg: what a task that slept in msgrcv finds when it wakes up. */
  datatype Slot = Pending | Handed(msg: Msg) | TooBig | QueueGone

  predicate TestMsg(m: Msg, mtype: int, mode: Mode) {
    match mode
    case SearchAny => true
    case SearchLessEqual => m.mtype <= mtype
    case SearchEqual => m.mtype == mtype
    case SearchNotEqual => m.mtype != mtype
  }

  predicate Matches(m: Msg, r: Receiver) {
    TestMsg(m, r.mtype, r.mode)
  }

  predicate Fits(m: Msg, r: Receiver) {
    r.maxsize == None || m.size <= r.maxsize.value
  }

  /** The negation of a long wraps at the least long. */
  function Neg(x: int): int {
    if x == LONG_MIN then LONG_MIN else -x
  }

  function ConvertMode(msgtyp: int, except_: bool): (int, Mode) {
    if msgtyp == 0 then (0, SearchAny)
    else if msgtyp < 0 then (Neg(msgtyp), SearchLessEqual)
    else if except_ then (msgtyp, SearchNotEqual)
    else (msgtyp, SearchEqual)
  }

  // ---------------------------------------------------------------- which message is received

  /** messages[i] is what a receiver for (mtype, mode) must get: the earliest match, and for a search
      by bound the earliest among those of least type. */
  predicate IsChoice(messages: seq<Msg>, mtype: int, mode: Mode, i: nat) {
    && i < |messages| && TestMsg(messages[i], mtype, mode)
    && (mode != SearchLessEqual ==> forall j :: 0 <= j < i ==> !TestMsg(messages[j], mtype, mode))
    && (mode == SearchLessEqual ==>
          && (forall j :: 0 <= j < |messages| ==> messages[i].mtype <= messages[j].mtype)
          && (forall j :: 0 <= j < i ==> messages[i].mtype < messages[j].mtype))
  }

  predicate AnyMatch(messages: seq<Msg>, mtype: int, mode: Mode) {
    exists m :: m in messages && TestMsg(m, mtype, mode)
  }

  /** The search loop of sys_msgrcv. Types on the queue start at 1, so the search by bound may stop there. */
  method FindMsg(messages: seq<Msg>, mtype: int, mode: Mode) returns (found: Option<nat>)
    requires forall m :: m in messages ==> m.mtype >= 1
    ensures found == None <==> !AnyMatch(messages, mtype, mode)
    ensures found.Some? ==> IsChoice(messages, mtype, mode, found.value)
  {
    found := None;
    var bound := mtype;
    var i := 0;
    while i < |messages|
      invariant 0 <= i <= |messages|
      invariant found == None ==> bound == mtype && forall j :: 0 <= j < i ==> !TestMsg(messages[j], mtype, mode)
      invariant found.Some? ==> mode == SearchLessEqual && found.value < i && bound == messages[found.value].mtype - 1
      invariant found.Some? ==> messages[found.value].mtype <= mtype
      invariant found.Some? ==> forall j :: 0 <= j < i ==> messages[found.value].mtype <= messages[j].mtype
      invariant found.Some? ==> forall j :: 0 <= j < found.value ==> messages[found.value].mtype < messages[j].mtype
    {
      assert messages[i] in messages;
      if TestMsg(messages[i], bound, mode) {
        found := Some(i);
        if mode == SearchLessEqual && messages[i].mtype != 1 {
          bound := messages[i].mtype - 1;
        } else {
          assert forall j :: 0 <= j < |messages| ==> messages[j] in messages;
          break;
        }
      }
      i := i + 1;
    }
    assert found.Some? ==> messages[found.value] in messages;
  }

  /** The choice is unique, so the conditions above determine the answer. */
  lemma ChoiceUnique(messages: seq<Msg>, mtype: int, mode: Mode, i: nat, j: nat)
    requires IsChoice(messages, mtype, mode, i) && IsChoice(messages, mtype, mode, j)
    ensures i == j
  {
  }

  /** What a call of msgrcv for msgtyp asks for: any message, those of that type, with MSG_EXCEPT those of any other, or
      those of at most the absolute type. */
  predicate Asked(m: Msg, msgtyp: int, except_: bool) {
    && (msgtyp > 0 && !except_ ==> m.mtype == msgtyp) && (msgtyp > 0 && except_ ==> m.mtype != msgtyp)
    && (msgtyp < 0 ==> m.mtype <= -msgtyp)
  }

  /** messages[i] is what msgrcv promises: the first that is asked for, but the first of the least type if msgtyp is
      negative. */
  predicate Promised(messages: seq<Msg>, msgtyp: int, except_: bool, i: nat) {
    && i < |messages| && Asked(messages[i], msgtyp, except_)
    && (msgtyp >= 0 ==> forall j :: 0 <= j < i ==> !Asked(messages[j], msgtyp, except_))
    && (msgtyp < 0 ==>
          && (forall j :: 0 <= j < |messages| ==> messages[i].mtype <= messages[j].mtype)
          && (forall j :: 0 <= j < i ==> messages[i].mtype < messages[j].mtype))
  }

  /** The search is for what is asked for - except for the least long, whose negation wraps, which matches nothing. */
  lemma SearchesAsked(m: Msg, msgtyp: int, except_: bool)
    requires m.mtype >= 1
    ensures TestMsg(m, ConvertMode(msgtyp, except_).0, ConvertMode(msgtyp, except_).1) <==>
            msgtyp != LONG_MIN && Asked(m, msgtyp, except_)
  {
  }

  /** The choice is what was promised. */
  lemma ChoicePromised(messages: seq<Msg>, msgtyp: int, except_: bool, i: nat)
    requires forall m :: m in messages ==> m.mtype >= 1
    ensures IsChoice(messages, ConvertMode(msgtyp, except_).0, ConvertMode(msgtyp, except_).1, i) <==>
            msgtyp != LONG_MIN && Promised(messages, msgtyp, except_, i)
  {
    forall j | 0 <= j < |messages| ensures messages[j].mtype >= 1 { assert messages[j] in messages; }
  }

  /** No message is found exactly when none that is asked for is queued, or msgtyp is the least long. */
  lemma NoneAsked(messages: seq<Msg>, msgtyp: int, except_: bool)
    requires forall m :: m in messages ==> m.mtype >= 1
    ensures !AnyMatch(messages, ConvertMode(msgtyp, except_).0, ConvertMode(msgtyp, except_).1) <==>
            msgtyp == LONG_MIN || forall m :: m in messages ==> !Asked(m, msgtyp, except_)
  {
    forall m | m in messages
      ensures TestMsg(m, ConvertMode(msgtyp, except_).0, ConvertMode(msgtyp, except_).1) <==>
              msgtyp != LONG_MIN && Asked(m, msgtyp, except_)
    {
      SearchesAsked(m, msgtyp, except_);
    }
    hide ConvertMode, TestMsg, Asked;
  }

  // ---------------------------------------------------------------- handing a message to a sleeper

  /** What pipelined_send leaves: the receivers still asleep, those refused for size, and who got the message. */
  datatype Handover = Handover(asleep: seq<Receiver>, refused: seq<nat>, winner: Option<nat>)

  /** The receivers are tried in order; a match too small for the message is woken with an error,
      the first match that can hold it gets it. */
  function Pipeline(receivers: seq<Receiver>, m: Msg): Handover {
    if receivers == [] then Handover([], [], None)
    else
      var r, rest := receivers[0], receivers[1..];
      if !Matches(m, r) then
        var h := Pipeline(rest, m);
        h.(asleep := [r] + h.asleep)
      else if Fits(m, r) then Handover(rest, [], Some(r.task))
      else
        var h := Pipeline(rest, m);
        h.(refused := [r.task] + h.refused)
  }

  /** pipelined_send */
  method PipelinedSend(receivers: seq<Receiver>, m: Msg) returns (h: Handover)
    ensures h == Pipeline(receivers, m)
  {
    var asleep, refused := [], [];
    var i := 0;
    while i < |receivers|
      invariant 0 <= i <= |receivers|
      invariant Pipeline(receivers, m) ==
                (var t := Pipeline(receivers[i..], m); Handover(asleep + t.asleep, refused + t.refused, t.winner))
    {
      var r := receivers[i];
      assert receivers[i..][0] == r && receivers[i..][1..] == receivers[i + 1..];
      ghost var t := Pipeline(receivers[i + 1..], m);
      if Matches(m, r) {
        if Fits(m, r) {
          return Handover(asleep + receivers[i + 1..], refused, Some(r.task));
        }
        assert refused + ([r.task] + t.refused) == refused + [r.task] + t.refused;
        refused := refused + [r.task];
      } else {
        assert asleep + ([r] + t.asleep) == asleep + [r] + t.asleep;
        asleep := asleep + [r];
      }
      i := i + 1;
    }
    h := Handover(asleep, refused, None);
  }

  /** Those of the receivers that do not match m, and the tasks of those that do. */
  function Unmatched(receivers: seq<Receiver>, m: Msg): seq<Receiver> {
    if receivers == [] then []
    else (if Matches(m, receivers[0]) then [] else [receivers[0]]) + Unmatched(receivers[1..], m)
  }

  function MatchedTasks(receivers: seq<Receiver>, m: Msg): seq<nat> {
    if receivers == [] then []
    else (if Matches(m, receivers[0]) then [receivers[0].task] else []) + MatchedTasks(receivers[1..], m)
  }

  lemma {:induction false} BothParts(receivers: seq<Receiver>, m: Msg)
    ensures forall r :: r in Unmatched(receivers, m) <==> r in receivers && !Matches(m, r)
    ensures forall t :: t in MatchedTasks(receivers, m) <==> exists r :: r in receivers && Matches(m, r) && r.task == t
    ensures |Unmatched(receivers, m)| + |MatchedTasks(receivers, m)| == |receivers|
  {
    hide Matches;
    if receivers != [] {
      BothParts(receivers[1..], m);
      assert receivers == [receivers[0]] + receivers[1..];
    }
  }

  /** The first receiver that matches and can hold the message gets it. All that match before it are refused, and all
      behind it are left alone. */
  lemma {:induction false} PipelineExact(receivers: seq<Receiver>, m: Msg, k: nat)
    requires k <= |receivers| && forall j :: 0 <= j < k ==> !(Matches(m, receivers[j]) && Fits(m, receivers[j]))
    requires k < |receivers| ==> Matches(m, receivers[k]) && Fits(m, receivers[k])
    ensures var h := Pipeline(receivers, m);
            && h.winner == (if k < |receivers| then Some(receivers[k].task) else None)
            && h.refused == MatchedTasks(receivers[..k], m)
            && h.asleep == Unmatched(receivers[..k], m) + (if k < |receivers| then receivers[k + 1..] else [])
    decreases k
  {
    hide Matches, Fits, Unmatched, MatchedTasks;
    if k == 0 {
      NoParts(receivers, m);
    } else {
      var rest := receivers[1..];
      PipelineExact(rest, m, k - 1);
      FirstParts(receivers, m, k);
      var u, tail := Unmatched(rest[..k - 1], m), if k < |receivers| then rest[k..] else [];
      assert k < |receivers| ==> receivers[k + 1..] == rest[k..];
      assert [receivers[0]] + (u + tail) == [receivers[0]] + u + tail && [] + u == u;
    }
  }

  lemma NoParts(receivers: seq<Receiver>, m: Msg)
    ensures Unmatched(receivers[..0], m) == [] && MatchedTasks(receivers[..0], m) == []
  {
  }

  lemma FirstParts(receivers: seq<Receiver>, m: Msg, k: nat)
    requires 0 < k <= |receivers|
    ensures var r, rest := receivers[0], receivers[1..][..k - 1];
            && Unmatched(receivers[..k], m) == (if Matches(m, r) then [] else [r]) + Unmatched(rest, m)
            && MatchedTasks(receivers[..k], m) == (if Matches(m, r) then [r.task] else []) + MatchedTasks(rest, m)
  {
    hide Matches;
    assert receivers[..k][1..] == receivers[1..][..k - 1];
  }

  lemma {:induction false} PipelineFrom(receivers: seq<Receiver>, m: Msg)
    ensures forall r :: r in Pipeline(receivers, m).asleep ==> r in receivers
    ensures forall t :: t in Pipeline(receivers, m).refused ==>
              exists r :: r in receivers && r.task == t && Matches(m, r) && !Fits(m, r)
    ensures var w := Pipeline(receivers, m).winner;
            w.Some? ==> exists r :: r in receivers && r.task == w.value && Matches(m, r) && Fits(m, r)
    ensures Pipeline(receivers, m).winner == None ==> forall r :: r in Pipeline(receivers, m).asleep ==> !Matches(m, r)
    ensures Pipeline(receivers, m).winner == None ==> forall r :: r in receivers && Matches(m, r) ==> !Fits(m, r)
  {
    if receivers != [] {
      PipelineFrom(receivers[1..], m);
      assert receivers == [receivers[0]] + receivers[1..];
    }
  }

  // ---------------------------------------------------------------- the state

  /** A task that sleeps in msgsnd until there is room. */
  datatype Sender = Sender(task: nat, size: nat)

  /** Who took which message off the queue, or was handed it. */
  datatype Delivery = Delivery(task: nat, msg: Msg)

  /** One queue. slots holds r_msg of the tasks that sleep or slept in msgrcv and have not resumed;
      senders are those asleep and not yet woken. sent and taken are the history: messages accepted by
      msgsnd, and messages that left, in order; got, those that a task came back with; freed, those that
      went with the queue. */
  datatype State = State(
    alive: bool,
    messages: seq<Msg>,
    receivers: seq<Receiver>,
    slots: map<nat, Slot>,
    senders: seq<Sender>,
    cbytes: int, qnum: int, qbytes: nat,
    sent: seq<Msg>, taken: seq<Delivery>, got: seq<Delivery>, freed: seq<Msg>)

  function Init(qbytes: nat): State {
    State(true, [], [], map[], [], 0, 0, qbytes, [], [], [], [])
  }

  predicate Full(s: State, size: nat) {
    size + s.cbytes > s.qbytes || 1 + s.qnum > s.qbytes
  }

  /** A task that is asleep in, or has not resumed from, a call makes no other call. */
  predicate Idle(s: State, task: nat) {
    task !in s.slots
  }

  function Refuse(slots: map<nat, Slot>, tasks: seq<nat>): map<nat, Slot> {
    if tasks == [] then slots else Refuse(slots, tasks[1..])[tasks[0] := TooBig]
  }

  /** The message is accepted: handed to a sleeping receiver, or put at the end of the queue. */
  function Send(s: State, m: Msg): State {
    var h := Pipeline(s.receivers, m);
    var slots := Refuse(s.slots, h.refused);
    match h.winner
    case Some(task) =>
      s.(receivers := h.asleep, slots := slots[task := Handed(m)],
         sent := s.sent + [m], taken := s.taken + [Delivery(task, m)])
    case None =>
      s.(receivers := h.asleep, slots := slots,
         messages := s.messages + [m], cbytes := s.cbytes + m.size, qnum := s.qnum + 1,
         sent := s.sent + [m])
  }

  /** The message at i is taken off the queue, and all sleeping senders are woken. */
  function Take(s: State, task: nat, i: nat): State
    requires i < |s.messages|
  {
    var m := s.messages[i];
    s.(messages := s.messages[..i] + s.messages[i + 1..],
       cbytes := s.cbytes - m.size, qnum := s.qnum - 1, senders := [],
       taken := s.taken + [Delivery(task, m)], got := s.got + [Delivery(task, m)])
  }

  function Sleep(s: State, r: Receiver): State {
    s.(receivers := s.receivers + [r], slots := s.slots[r.task := Pending])
  }

  function WithoutTask(receivers: seq<Receiver>, task: nat): seq<Receiver> {
    if receivers == [] then []
    else (if receivers[0].task == task then [] else [receivers[0]]) + WithoutTask(receivers[1..], task)
  }

  /** A sleeper that found nothing takes itself off the list, by a signal or to try again. */
  function Leave(s: State, task: nat): State {
    s.(receivers := WithoutTask(s.receivers, task), slots := s.slots - {task})
  }

  /** A sleeper picks up its message or its error. */
  function Collect(s: State, task: nat): State
    requires task in s.slots
  {
    s.(slots := s.slots - {task},
       got := if s.slots[task].Handed? then s.got + [Delivery(task, s.slots[task].msg)] else s.got)
  }

  function WithoutSender(senders: seq<Sender>, task: nat): (r: seq<Sender>)
    ensures forall w :: w in r <==> w in senders && w.task != task
  {
    if senders == [] then []
    else (if senders[0].task == task then [] else [senders[0]]) + WithoutSender(senders[1..], task)
  }

  /** A sleeping sender is interrupted and takes itself off the list. */
  function GiveUp(s: State, task: nat): State {
    s.(senders := WithoutSender(s.senders, task))
  }

  function SetBytes(s: State, qbytes: nat): State {
    s.(qbytes := qbytes, senders := [])
  }

  /** freeque: the sleepers find that the queue is gone. */
  function Free(s: State): State {
    s.(alive := false, messages := [], freed := s.messages, receivers := [], senders := [],
       slots := map t | t in s.slots :: if s.slots[t] == Pending then QueueGone else s.slots[t])
  }

  // ---------------------------------------------------------------- the steps

  ghost predicate Next(s: State, s': State) {
    || s' == s
    || (exists m: Msg :: s.alive && m.mtype >= 1 && !Full(s, m.size) && s' == Send(s, m))
    || (exists w: Sender :: s.alive && Full(s, w.size) && s' == s.(senders := s.senders + [w]))
    || (exists task, mtype, mode, i ::
       s.alive && Idle(s, task) && IsChoice(s.messages, mtype, mode, i) && s' == Take(s, task, i))
    || (exists r: Receiver :: s.alive && Idle(s, r.task) && !AnyMatch(s.messages, r.mtype, r.mode) && s' == Sleep(s, r))
    || (exists task :: s.alive && task in s.slots && s.slots[task] == Pending && s' == Leave(s, task))
    || (exists task :: task in s.slots && s.slots[task] != Pending && s' == Collect(s, task))
    || (exists task :: s.alive && s' == GiveUp(s, task))
    || (exists qbytes :: s.alive && s' == SetBytes(s, qbytes))
    || (s.alive && s' == Free(s))
  }

  // ---------------------------------------------------------------- history by type

  function OfType(ms: seq<Msg>, t: int): seq<Msg> {
    if ms == [] then [] else (if ms[0].mtype == t then [ms[0]] else []) + OfType(ms[1..], t)
  }

  function MsgsOf(ds: seq<Delivery>): seq<Msg> {
    seq(|ds|, i requires 0 <= i < |ds| => ds[i].msg)
  }

  function Bytes(ms: seq<Msg>): nat {
    if ms == [] then 0 else ms[0].size + Bytes(ms[1..])
  }

  lemma {:induction false} OfTypeAppend(a: seq<Msg>, b: seq<Msg>, t: int)
    ensures OfType(a + b, t) == OfType(a, t) + OfType(b, t)
  {
    if a == [] {
      assert a + b == b;
    } else {
      var h := if a[0].mtype == t then [a[0]] else [];
      assert (a + b)[1..] == a[1..] + b && (a + b)[0] == a[0];
      OfTypeAppend(a[1..], b, t);
      assert h + (OfType(a[1..], t) + OfType(b, t)) == h + OfType(a[1..], t) + OfType(b, t);
    }
  }

  lemma {:induction false} BytesAppend(a: seq<Msg>, b: seq<Msg>)
    ensures Bytes(a + b) == Bytes(a) + Bytes(b)
  {
    if a == [] {
      assert a + b == b;
    } else {
      assert (a + b)[1..] == a[1..] + b;
      BytesAppend(a[1..], b);
    }
  }

  lemma {:induction false} OfTypeNone(ms: seq<Msg>, t: int)
    requires forall m :: m in ms ==> m.mtype != t
    ensures OfType(ms, t) == []
  {
    if ms != [] { OfTypeNone(ms[1..], t); }
  }

  lemma {:induction false} OfTypeCount(ms: seq<Msg>, m: Msg)
    ensures multiset(OfType(ms, m.mtype))[m] == multiset(ms)[m]
  {
    if ms != [] {
      OfTypeCount(ms[1..], m);
      assert ms == [ms[0]] + ms[1..];
      var h := if ms[0].mtype == m.mtype then [ms[0]] else [];
      assert multiset(OfType(ms, m.mtype)) == multiset(h) + multiset(OfType(ms[1..], m.mtype));
    }
  }

  /** Sequences that agree type by type hold the same messages. */
  lemma SameTypesSameMessages(a: seq<Msg>, b: seq<Msg>)
    requires forall t :: OfType(a, t) == OfType(b, t)
    ensures multiset(a) == multiset(b)
  {
    forall m ensures multiset(a)[m] == multiset(b)[m] {
      OfTypeCount(a, m);
      OfTypeCount(b, m);
    }
  }

  // ---------------------------------------------------------------- the invariant

  /** No message on the queue matches a receiver that sleeps: nobody sleeps over a message for them. */
  predicate NoneMissed(s: State) {
    forall m, r :: m in s.messages && r in s.receivers ==> !Matches(m, r)
  }

  /** Messages of one type leave in the order sent: those taken, then those still queued. */
  ghost predicate InOrder(s: State) {
    forall t :: OfType(s.sent, t) == OfType(MsgsOf(s.taken), t) + OfType(s.messages + s.freed, t)
  }

  predicate OneTaskEach(receivers: seq<Receiver>) {
    forall i, j :: 0 <= i < j < |receivers| ==> receivers[i].task != receivers[j].task
  }

  predicate Sleeping(s: State) {
    && OneTaskEach(s.receivers)
    && (forall r :: r in s.receivers ==> r.task in s.slots && s.slots[r.task] == Pending)
    && (forall t :: t in s.slots && s.slots[t] == Pending ==> exists r :: r in s.receivers && r.task == t)
  }

  /** Deliveries that wait in a slot. */
  function InSlots(slots: map<nat, Slot>): set<Delivery> {
    set t | t in slots && slots[t].Handed? :: Delivery(t, slots[t].msg)
  }

  lemma InSlotsIff(slots: map<nat, Slot>)
    ensures forall d :: d in InSlots(slots) <==> d.task in slots && slots[d.task] == Handed(d.msg)
  {
    forall d: Delivery | d.task in slots && slots[d.task] == Handed(d.msg) ensures d in InSlots(slots) {
      assert d == Delivery(d.task, slots[d.task].msg);
    }
  }

  /** Each delivery is with its task, or waits in its slot, exactly once. */
  predicate Delivered(s: State) {
    multiset(s.taken) == multiset(s.got) + multiset(InSlots(s.slots))
  }

  predicate Accounted(s: State) {
    && (s.alive ==> s.cbytes == Bytes(s.messages) && s.qnum == |s.messages| && s.freed == [])
    && (!s.alive ==> s.messages == [] && s.receivers == [])
    && (forall m :: m in s.messages ==> m.mtype >= 1)
  }

  /** Every sender still asleep would still find no room. */
  predicate NoRoom(s: State) {
    forall w :: w in s.senders ==> Full(s, w.size)
  }

  ghost predicate Inv(s: State) {
    NoneMissed(s) && InOrder(s) && Sleeping(s) && Delivered(s) && Accounted(s) && NoRoom(s)
  }

  // ---------------------------------------------------------------- sending

  lemma {:induction false} RefuseSlots(slots: map<nat, Slot>, tasks: seq<nat>)
    ensures forall t :: t in Refuse(slots, tasks) <==> t in slots || t in tasks
    ensures forall t :: t in Refuse(slots, tasks) ==>
              Refuse(slots, tasks)[t] == if t in tasks then TooBig else slots[t]
  {
    if tasks != [] {
      RefuseSlots(slots, tasks[1..]);
      assert tasks == [tasks[0]] + tasks[1..];
    }
  }

  /** The receivers still asleep, the refused and the winner are all different tasks and together all receivers. */
  lemma {:induction false} PipelineTasks(receivers: seq<Receiver>, m: Msg)
    requires OneTaskEach(receivers)
    ensures var h := Pipeline(receivers, m);
            && OneTaskEach(h.asleep)
            && (forall r :: r in h.asleep ==> r.task !in h.refused && h.winner != Some(r.task))
            && (h.winner.Some? ==> h.winner.value !in h.refused)
            && (forall r :: r in receivers ==> r in h.asleep || r.task in h.refused || h.winner == Some(r.task))
  {
    if receivers != [] {
      var r, rest := receivers[0], receivers[1..];
      assert receivers == [r] + rest;
      forall i | 0 <= i < |rest| ensures rest[i].task != r.task {
        assert rest[i] == receivers[i + 1];
      }
      PipelineTasks(rest, m);
      PipelineFrom(rest, m);
      hide Fits, Matches;
    }
  }

  lemma SendSleeping(s: State, m: Msg)
    requires Sleeping(s)
    ensures Sleeping(Send(s, m))
  {
    hide Pipeline, Refuse;
    var h := Pipeline(s.receivers, m);
    PipelineFrom(s.receivers, m);
    PipelineTasks(s.receivers, m);
    RefuseSlots(s.slots, h.refused);
  }

  lemma InSlotsRefuse(slots: map<nat, Slot>, tasks: seq<nat>)
    requires forall t :: t in tasks ==> t in slots && slots[t] == Pending
    ensures InSlots(Refuse(slots, tasks)) == InSlots(slots)
  {
    RefuseSlots(slots, tasks);
    InSlotsIff(slots);
    InSlotsIff(Refuse(slots, tasks));
  }

  lemma InSlotsHand(slots: map<nat, Slot>, task: nat, m: Msg)
    requires task in slots && slots[task] == Pending
    ensures Delivery(task, m) !in InSlots(slots)
    ensures InSlots(slots[task := Handed(m)]) == InSlots(slots) + {Delivery(task, m)}
  {
    InSlotsIff(slots);
    InSlotsIff(slots[task := Handed(m)]);
  }

  lemma SendDelivered(s: State, m: Msg)
    requires Sleeping(s) && Delivered(s)
    ensures Delivered(Send(s, m))
  {
    hide Pipeline, InSlots, Refuse;
    var h := Pipeline(s.receivers, m);
    PipelineFrom(s.receivers, m);
    PipelineTasks(s.receivers, m);
    InSlotsRefuse(s.slots, h.refused);
    RefuseSlots(s.slots, h.refused);
    var slots := Refuse(s.slots, h.refused);
    if h.winner.Some? {
      InSlotsHand(slots, h.winner.value, m);
    }
  }

  lemma NoneQueued(s: State, m: Msg, r: Receiver)
    requires NoneMissed(s) && r in s.receivers && Matches(m, r)
    ensures OfType(s.messages, m.mtype) == []
  {
    forall q | q in s.messages ensures q.mtype != m.mtype {
      assert !Matches(q, r);
    }
    OfTypeNone(s.messages, m.mtype);
  }

  /** What the history of one type looks like after a send, if nothing of that type is overtaken. */
  lemma OneMoreOfType(sent: seq<Msg>, taken: seq<Msg>, queued: seq<Msg>, m: Msg, t: int)
    requires OfType(sent, t) == OfType(taken, t) + OfType(queued, t)
    ensures OfType(sent + [m], t) == OfType(taken, t) + OfType(queued + [m], t)
    ensures t != m.mtype || OfType(queued, t) == [] ==>
            OfType(sent + [m], t) == OfType(taken + [m], t) + OfType(queued, t)
  {
    hide OfType;
    OfTypeAppend(sent, [m], t);
    OfTypeAppend(queued, [m], t);
    OfTypeAppend(taken, [m], t);
    var a, b, c := OfType(taken, t), OfType(queued, t), OfType([m], t);
    assert a + b + c == a + (b + c);
    if t != m.mtype {
      OfTypeNone([m], t);
      assert a + b + [] == a + [] + b;
    } else if b == [] {
      assert a + [] + c == a + c + [];
    }
  }

  /** A hand-over cannot overtake: a queued message of the same type would match the receiver too. */
  lemma SendInOrder(s: State, m: Msg)
    requires NoneMissed(s) && InOrder(s) && s.freed == []
    ensures InOrder(Send(s, m))
  {
    var h, s' := Pipeline(s.receivers, m), Send(s, m);
    PipelineFrom(s.receivers, m);
    hide Pipeline, Refuse, OfType, Fits;
    assert s.messages + s.freed == s.messages && s'.messages + s'.freed == s'.messages;
    if h.winner.Some? {
      var r :| r in s.receivers && Matches(m, r);
      NoneQueued(s, m, r);
      assert MsgsOf(s'.taken) == MsgsOf(s.taken) + [m];
    }
    hide NoneMissed, Matches, MsgsOf;
    forall t ensures OfType(s'.sent, t) == OfType(MsgsOf(s'.taken), t) + OfType(s'.messages, t) {
      assert OfType(s.sent, t) == OfType(MsgsOf(s.taken), t) + OfType(s.messages + s.freed, t);
      OneMoreOfType(s.sent, MsgsOf(s.taken), s.messages, m, t);
    }
  }

  lemma SendKeeps(s: State, m: Msg)
    requires Inv(s) && s.alive && m.mtype >= 1
    ensures Inv(Send(s, m))
  {
    SendSleeping(s, m);
    SendDelivered(s, m);
    SendInOrder(s, m);
    hide InOrder, Sleeping, Delivered, Refuse, Pipeline;
    PipelineFrom(s.receivers, m);
    BytesAppend(s.messages, [m]);
  }

  // ---------------------------------------------------------------- receiving

  /** Whatever is chosen is the first of its type. */
  lemma ChoiceIsFirst(messages: seq<Msg>, mtype: int, mode: Mode, i: nat)
    requires IsChoice(messages, mtype, mode, i)
    ensures forall j :: 0 <= j < i ==> messages[j].mtype != messages[i].mtype
  {
  }

  lemma TakeInOrder(s: State, task: nat, i: nat)
    requires InOrder(s) && s.freed == [] && i < |s.messages|
    requires forall j :: 0 <= j < i ==> s.messages[j].mtype != s.messages[i].mtype
    ensures InOrder(Take(s, task, i))
  {
    var s', m := Take(s, task, i), s.messages[i];
    var a, b := s.messages[..i], s.messages[i + 1..];
    assert s.messages == a + ([m] + b);
    assert s.messages + s.freed == s.messages && s'.messages + s'.freed == a + b;
    assert MsgsOf(s'.taken) == MsgsOf(s.taken) + [m];
    forall t ensures OfType(s'.sent, t) == OfType(MsgsOf(s'.taken), t) + OfType(a + b, t) {
      assert OfType(s.sent, t) == OfType(MsgsOf(s.taken), t) + OfType(s.messages + s.freed, t);
      OfTypeAppend(a, [m] + b, t);
      OfTypeAppend([m], b, t);
      OfTypeAppend(a, b, t);
      OfTypeAppend(MsgsOf(s.taken), [m], t);
      if t == m.mtype {
        forall q | q in a ensures q.mtype != t {
          var j :| 0 <= j < i && s.messages[j] == q;
        }
        OfTypeNone(a, t);
      }
    }
  }

  lemma TakeAccounted(s: State, task: nat, i: nat)
    requires Accounted(s) && s.alive && i < |s.messages|
    ensures Accounted(Take(s, task, i))
    ensures forall q :: q in Take(s, task, i).messages ==> q in s.messages
  {
    var a, m, b := s.messages[..i], s.messages[i], s.messages[i + 1..];
    assert s.messages == a + ([m] + b);
    BytesAppend(a, [m] + b);
    BytesAppend([m], b);
    BytesAppend(a, b);
    assert forall q :: q in a + b ==> q in s.messages;
  }

  lemma TakeKeeps(s: State, task: nat, mtype: int, mode: Mode, i: nat)
    requires Inv(s) && s.alive && IsChoice(s.messages, mtype, mode, i)
    ensures Inv(Take(s, task, i))
  {
    hide InOrder, Bytes;
    ChoiceIsFirst(s.messages, mtype, mode, i);
    TakeInOrder(s, task, i);
    TakeAccounted(s, task, i);
    hide Accounted, IsChoice;
  }

  lemma SleepKeeps(s: State, r: Receiver)
    requires Inv(s) && s.alive && Idle(s, r.task) && !AnyMatch(s.messages, r.mtype, r.mode)
    ensures Inv(Sleep(s, r))
  {
    hide InOrder, Bytes;
    SameHistory(s, Sleep(s, r));
    InSlotsIff(s.slots);
    InSlotsIff(Sleep(s, r).slots);
    assert InSlots(Sleep(s, r).slots) == InSlots(s.slots);
    hide InSlots;
    forall i | 0 <= i < |s.receivers| ensures s.receivers[i].task != r.task {
      assert s.receivers[i] in s.receivers;
    }
    var s' := Sleep(s, r);
    forall t | t in s'.slots && s'.slots[t] == Pending ensures exists q :: q in s'.receivers && q.task == t {
      if t == r.task {
        assert r in s'.receivers;
      } else {
        var q :| q in s.receivers && q.task == t;
        assert q in s'.receivers;
      }
    }
  }

  lemma {:induction false} WithoutTaskIn(receivers: seq<Receiver>, task: nat)
    ensures forall r :: r in WithoutTask(receivers, task) <==> r in receivers && r.task != task
    ensures OneTaskEach(receivers) ==> OneTaskEach(WithoutTask(receivers, task))
  {
    if receivers != [] {
      var t := receivers[1..];
      WithoutTaskIn(t, task);
      assert receivers == [receivers[0]] + t;
      if OneTaskEach(receivers) {
        assert OneTaskEach(t) && forall i :: 0 <= i < |t| ==> receivers[0].task != t[i].task;
        var rs := WithoutTask(t, task);
        forall i | 0 <= i < |rs| ensures rs[i].task != receivers[0].task {
          assert rs[i] in rs;
        }
      }
    }
  }

  lemma LeaveKeeps(s: State, task: nat)
    requires Inv(s) && task in s.slots && s.slots[task] == Pending
    ensures Inv(Leave(s, task))
  {
    hide InOrder, InSlots, Bytes;
    WithoutTaskIn(s.receivers, task);
    SameHistory(s, Leave(s, task));
    InSlotsDrop(s.slots, task);
  }

  lemma InSlotsDrop(slots: map<nat, Slot>, task: nat)
    requires task in slots
    ensures slots[task].Handed? ==>
              Delivery(task, slots[task].msg) in InSlots(slots) &&
              InSlots(slots - {task}) == InSlots(slots) - {Delivery(task, slots[task].msg)}
    ensures !slots[task].Handed? ==> InSlots(slots - {task}) == InSlots(slots)
  {
    InSlotsIff(slots);
    InSlotsIff(slots - {task});
  }

  lemma SameHistory(s: State, s': State)
    requires InOrder(s)
    requires s'.sent == s.sent && s'.taken == s.taken && s'.messages + s'.freed == s.messages + s.freed
    ensures InOrder(s')
  {
  }

  lemma CollectKeeps(s: State, task: nat)
    requires Inv(s) && task in s.slots && s.slots[task] != Pending
    ensures Inv(Collect(s, task))
  {
    hide InOrder, InSlots, Bytes;
    SameHistory(s, Collect(s, task));
    InSlotsDrop(s.slots, task);
  }

  lemma FreeKeeps(s: State)
    requires Inv(s) && s.alive
    ensures Inv(Free(s))
  {
    hide InOrder, Bytes;
    var s' := Free(s);
    SameHistory(s, s');
    assert s'.messages + s'.freed == s.messages + s.freed;
    InSlotsIff(s.slots);
    InSlotsIff(s'.slots);
    assert InSlots(s'.slots) == InSlots(s.slots);
    hide InSlots;
  }

  lemma NextStay(s: State)
    ensures Next(s, s)
  {
  }

  lemma NextSend(s: State, m: Msg)
    requires s.alive && m.mtype >= 1 && !Full(s, m.size)
    ensures Next(s, Send(s, m))
  {
    hide Send, Full;
  }

  lemma NextWait(s: State, w: Sender)
    requires Inv(s) && s.alive && Full(s, w.size)
    ensures Next(s, s.(senders := s.senders + [w])) && Inv(s.(senders := s.senders + [w]))
  {
    PlainKeeps(s, s.(senders := s.senders + [w]));
    hide Inv;
  }

  lemma NextTake(s: State, task: nat, mtype: int, mode: Mode, i: nat)
    requires s.alive && Idle(s, task) && IsChoice(s.messages, mtype, mode, i)
    ensures Next(s, Take(s, task, i))
  {
    hide Take;
  }

  lemma NextSleep(s: State, r: Receiver)
    requires s.alive && Idle(s, r.task) && !AnyMatch(s.messages, r.mtype, r.mode)
    ensures Next(s, Sleep(s, r))
  {
    hide Sleep;
  }

  lemma NextLeave(s: State, task: nat)
    requires s.alive && task in s.slots && s.slots[task] == Pending
    ensures Next(s, Leave(s, task))
  {
    hide Leave;
  }

  lemma NextCollect(s: State, task: nat)
    requires task in s.slots && s.slots[task] != Pending
    ensures Next(s, Collect(s, task))
  {
    hide Collect;
  }

  lemma NextFree(s: State)
    requires s.alive
    ensures Next(s, Free(s))
  {
    hide Free;
  }

  lemma NextKeeps(s: State, s': State)
    requires Inv(s) && Next(s, s')
    ensures Inv(s')
  {
    hide NoneMissed, InOrder, Sleeping, Delivered, Send, Take, Sleep, Leave, Collect, Free, AnyMatch;
    if s' == s {
    } else if m: Msg :| s.alive && m.mtype >= 1 && !Full(s, m.size) && s' == Send(s, m) {
      SendKeeps(s, m);
    } else if task, mtype, mode, i :|
        s.alive && Idle(s, task) && IsChoice(s.messages, mtype, mode, i) && s' == Take(s, task, i) {
      TakeKeeps(s, task, mtype, mode, i);
    } else if r: Receiver :| s.alive && Idle(s, r.task) && !AnyMatch(s.messages, r.mtype, r.mode) && s' == Sleep(s, r) {
      SleepKeeps(s, r);
    } else if task :| s.alive && task in s.slots && s.slots[task] == Pending && s' == Leave(s, task) {
      LeaveKeeps(s, task);
    } else if task :| task in s.slots && s.slots[task] != Pending && s' == Collect(s, task) {
      CollectKeeps(s, task);
    } else if s.alive && s' == Free(s) {
      FreeKeeps(s);
    } else {
      PlainKeeps(s, s');
    }
  }

  lemma PlainKeeps(s: State, s': State)
    requires Inv(s) && s.alive
    requires || (exists w: Sender :: Full(s, w.size) && s' == s.(senders := s.senders + [w]))
             || (exists task :: s' == GiveUp(s, task)) || (exists q :: s' == SetBytes(s, q))
    ensures Inv(s')
  {
  }

  // ---------------------------------------------------------------- runs

  ghost predicate Run(run: seq<State>, qbytes: nat) {
    run != [] && run[0] == Init(qbytes) && forall i :: 0 <= i < |run| - 1 ==> Next(run[i], run[i + 1])
  }

  lemma InitInv(qbytes: nat)
    ensures Inv(Init(qbytes))
  {
    var s := Init(qbytes);
    assert MsgsOf(s.taken) == [] && s.messages + s.freed == [];
    assert InSlots(s.slots) == {};
    hide InSlots, MsgsOf;
  }

  lemma {:induction false} RunInv(run: seq<State>, qbytes: nat, i: nat)
    requires Run(run, qbytes) && i < |run|
    ensures Inv(run[i])
  {
    hide Inv, Next;
    if i == 0 {
      InitInv(qbytes);
    } else {
      RunInv(run, qbytes, i - 1);
      assert Next(run[i - 1], run[i - 1 + 1]);
      NextKeeps(run[i - 1], run[i]);
    }
  }

  /** In every state of every run each accepted message is in exactly one place: with the process that
      received it, in the slot of the one receiver it was handed to, on the queue, or freed with the queue. */
  lemma ExactlyOnce(run: seq<State>, qbytes: nat, i: nat)
    requires Run(run, qbytes) && i < |run|
    ensures var s := run[i];
            && multiset(s.sent) == multiset(MsgsOf(s.taken)) + multiset(s.messages) + multiset(s.freed)
            && multiset(s.taken) == multiset(s.got) + multiset(InSlots(s.slots))
  {
    RunInv(run, qbytes, i);
    var s := run[i];
    var all := MsgsOf(s.taken) + (s.messages + s.freed);
    forall t ensures OfType(s.sent, t) == OfType(all, t) {
      OfTypeAppend(MsgsOf(s.taken), s.messages + s.freed, t);
    }
    SameTypesSameMessages(s.sent, all);
  }

  /** In every state of every run the messages of one type that have left are the first ones of that
      type sent, in the same order. */
  lemma TypeOrder(run: seq<State>, qbytes: nat, i: nat, t: int)
    requires Run(run, qbytes) && i < |run|
    ensures OfType(MsgsOf(run[i].taken), t) <= OfType(run[i].sent, t)
  {
    RunInv(run, qbytes, i);
  }

  /** In every state of every run no task sleeps in msgrcv over a queued message for it, and none in
      msgsnd while its message would fit. */
  lemma NobodySleepsInVain(run: seq<State>, qbytes: nat, i: nat)
    requires Run(run, qbytes) && i < |run|
    ensures forall m, r :: m in run[i].messages && r in run[i].receivers ==> !Matches(m, r)
    ensures forall w :: w in run[i].senders && run[i].alive ==>
              w.size + Bytes(run[i].messages) > run[i].qbytes || |run[i].messages| + 1 > run[i].qbytes
    ensures run[i].alive ==> run[i].cbytes == Bytes(run[i].messages) && run[i].qnum == |run[i].messages|
  {
    RunInv(run, qbytes, i);
  }
}
