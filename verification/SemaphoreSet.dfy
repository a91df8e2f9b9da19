/** A semaphore set (ipc/sem.c): its values, the undo records of its users and the queue of sleeping
    operation arrays. */
module SemaphoreSet {
  import opened Lists
  import opened Semaphores

  /** A sem_undo: the adjustments a process has registered. */
  datatype Undo = Undo(proc: nat, adj: seq<int>)

  /** A sem_queue. alter says that the array decreases some value; woken is status == 1. */
  datatype Entry = Entry(proc: nat, ops: seq<Op>, alter: bool, woken: bool)

  datatype State = State(vals: seq<int>, undos: seq<Undo>, pending: seq<Entry>)

  // ---------------------------------------------------------------- well-formed sets

  predicate OneUndoEach(undos: seq<Undo>) {
    forall i, j :: 0 <= i < j < |undos| ==> undos[i].proc != undos[j].proc
  }

  predicate AdjInRange(adj: seq<int>) {
    forall n :: 0 <= n < |adj| ==> -SEMAEM - 1 <= adj[n] <= SEMAEM
  }

  predicate UndosOk(undos: seq<Undo>, size: nat) {
    OneUndoEach(undos) && forall u :: u in undos ==> |u.adj| == size && AdjInRange(u.adj)
  }

  /** The process's record on the set's undo list, or -1. */
  function Find(undos: seq<Undo>, proc: nat): (u: int)
    ensures -1 <= u < |undos|
    ensures u >= 0 ==> undos[u].proc == proc
    ensures u < 0 ==> forall x :: x in undos ==> x.proc != proc
  {
    if undos == [] then -1
    else if undos[0].proc == proc then 0
    else
      var u := Find(undos[1..], proc);
      assert undos == [undos[0]] + undos[1..];
      if u < 0 then -1 else u + 1
  }

  function CoreOf(s: State, proc: nat): Core {
    var u := Find(s.undos, proc);
    Core(s.vals, if u >= 0 then s.undos[u].adj else [])
  }

  function WithCore(s: State, proc: nat, c: Core): State {
    var u := Find(s.undos, proc);
    s.(vals := c.vals, undos := if u >= 0 then s.undos[u := s.undos[u].(adj := c.adj)] else s.undos)
  }

  /** The numbers are in range, and whoever uses SEM_UNDO has an undo record. */
  predicate ArrayOk(s: State, proc: nat, ops: seq<Op>) {
    forall o :: o in ops ==> o.num < |s.vals| && (o.undo ==> Find(s.undos, proc) >= 0)
  }

  /** What update_queue relies on. */
  predicate Ready(s: State) {
    UndosOk(s.undos, |s.vals|) && forall e :: e in s.pending ==> ArrayOk(s, e.proc, e.ops)
  }

  predicate Inv(s: State) {
    Ready(s) && forall n :: 0 <= n < |s.vals| ==> s.vals[n] >= 0
  }

  lemma ArrayFits(s: State, proc: nat, ops: seq<Op>)
    requires UndosOk(s.undos, |s.vals|) && ArrayOk(s, proc, ops)
    ensures OpsFit(CoreOf(s, proc), ops)
  {
    var u := Find(s.undos, proc);
    if u >= 0 { assert s.undos[u] in s.undos; }
  }

  /** The result of an operation array that goes through. */
  function Perform(s: State, proc: nat, ops: seq<Op>): State
    requires UndosOk(s.undos, |s.vals|) && ArrayOk(s, proc, ops)
  {
    ArrayFits(s, proc, ops);
    WithCore(s, proc, Final(CoreOf(s, proc), ops))
  }

  function Decide(s: State, proc: nat, ops: seq<Op>): Result
    requires UndosOk(s.undos, |s.vals|) && ArrayOk(s, proc, ops)
  {
    ArrayFits(s, proc, ops);
    Verdict(CoreOf(s, proc), ops)
  }

  // ---------------------------------------------------------------- records that change in place

  lemma FindSame(undos: seq<Undo>, undos': seq<Undo>, proc: nat)
    requires |undos| == |undos'| && forall i :: 0 <= i < |undos| ==> undos[i].proc == undos'[i].proc
    ensures Find(undos, proc) == Find(undos', proc)
  {
  }

  lemma WithCoreSame(s: State, proc: nat, c: Core)
    requires OneUndoEach(s.undos)
    ensures OneUndoEach(WithCore(s, proc, c).undos)
    ensures forall p :: Find(WithCore(s, proc, c).undos, p) == Find(s.undos, p)
    ensures Find(s.undos, proc) >= 0 || c.adj == [] ==> CoreOf(WithCore(s, proc, c), proc) == c
  {
    var s' := WithCore(s, proc, c);
    forall p ensures Find(s'.undos, p) == Find(s.undos, p) {
      FindSame(s.undos, s'.undos, p);
    }
  }

  lemma PerformReady(s: State, proc: nat, ops: seq<Op>)
    requires Ready(s) && ArrayOk(s, proc, ops) && Decide(s, proc, ops) == Done
    ensures Ready(Perform(s, proc, ops)) && |Perform(s, proc, ops).vals| == |s.vals|
    ensures Perform(s, proc, ops).pending == s.pending
    ensures forall p :: Find(Perform(s, proc, ops).undos, p) == Find(s.undos, p)
  {
    ArrayFits(s, proc, ops);
    var c := CoreOf(s, proc);
    var c' := Final(c, ops);
    DoneInRange(c, ops);
    WithCoreSame(s, proc, c');
    var s', u := Perform(s, proc, ops), Find(s.undos, proc);
    if u >= 0 { assert s.undos[u] in s.undos; }
    forall x | x in s'.undos ensures |x.adj| == |s'.vals| && AdjInRange(x.adj) {
      var i :| 0 <= i < |s'.undos| && s'.undos[i] == x;
      assert s.undos[i] in s.undos;
    }
  }

  /** An array that goes through keeps the set in order. */
  lemma PerformKeeps(s: State, proc: nat, ops: seq<Op>)
    requires Inv(s) && ArrayOk(s, proc, ops) && Decide(s, proc, ops) == Done
    ensures Inv(Perform(s, proc, ops)) && |Perform(s, proc, ops).vals| == |s.vals|
    ensures Perform(s, proc, ops).pending == s.pending
    ensures forall p :: Find(Perform(s, proc, ops).undos, p) == Find(s.undos, p)
  {
    PerformReady(s, proc, ops);
    PerformRange(s, proc, ops);
  }

  lemma PerformRange(s: State, proc: nat, ops: seq<Op>)
    requires UndosOk(s.undos, |s.vals|) && ArrayOk(s, proc, ops) && Decide(s, proc, ops) == Done
    ensures |Perform(s, proc, ops).vals| == |s.vals|
    ensures forall n :: 0 <= n < |s.vals| && s.vals[n] >= 0 ==> Perform(s, proc, ops).vals[n] >= 0
    ensures forall n :: 0 <= n < |s.vals| && s.vals[n] <= SEMVMX ==> Perform(s, proc, ops).vals[n] <= SEMVMX
  {
    ArrayFits(s, proc, ops);
    DoneInRange(CoreOf(s, proc), ops);
  }

  // ---------------------------------------------------------------- the queue of sleeping arrays

  function Drop(pending: seq<Entry>, i: nat): seq<Entry>
    requires i < |pending|
  {
    pending[..i] + pending[i + 1..]
  }

  lemma DropKeeps(s: State, i: nat)
    requires Ready(s) && i < |s.pending|
    ensures Ready(s.(pending := Drop(s.pending, i))) && (Inv(s) ==> Inv(s.(pending := Drop(s.pending, i))))
  {
    assert forall e :: e in Drop(s.pending, i) ==> e in s.pending;
  }

  /** What update_queue does to entry i of the queue. */
  datatype Fate = Stays | Wakes | Leaves(result: Result)

  function FateOf(s: State, e: Entry): Fate
    requires Ready(s) && ArrayOk(s, e.proc, e.ops)
  {
    if e.woken then Stays
    else
      var r := Decide(s, e.proc, e.ops);
      if r == MustSleep then Stays
      else if r == Done && e.alter then Wakes
      else Leaves(r)
  }

  /** An entry that leaves with status 0 has been carried out. */
  function Dequeue(s: State, i: nat, r: Result): State
    requires Ready(s) && i < |s.pending| && ArrayOk(s, s.pending[i].proc, s.pending[i].ops)
  {
    var e := s.pending[i];
    var t := if r == Done then Perform(s, e.proc, e.ops) else s;
    t.(pending := Drop(s.pending, i))
  }

  lemma DequeueKeeps(s: State, i: nat, r: Result)
    requires Ready(s) && i < |s.pending| && ArrayOk(s, s.pending[i].proc, s.pending[i].ops)
    requires r == Decide(s, s.pending[i].proc, s.pending[i].ops)
    ensures Ready(Dequeue(s, i, r)) && (Inv(s) ==> Inv(Dequeue(s, i, r)))
    ensures |Dequeue(s, i, r).pending| == |s.pending| - 1 && |Dequeue(s, i, r).vals| == |s.vals|
  {
    var e := s.pending[i];
    if r == Done {
      PerformReady(s, e.proc, e.ops);
      PerformRange(s, e.proc, e.ops);
      DropKeeps(Perform(s, e.proc, e.ops), i);
    } else {
      DropKeeps(s, i);
    }
  }

  /** The state after update_queue has gone through the queue from entry i on, the arrays it carried out, and those that
      left with an error. */
  datatype Updated = Updated(state: State, log: seq<Entry>, refused: seq<Entry>)

  function Scan(s: State, i: nat): Updated
    requires Ready(s) && i <= |s.pending|
    decreases |s.pending| - i
  {
    if i == |s.pending| then Updated(s, [], [])
    else
      var e := s.pending[i];
      assert e in s.pending;
      match FateOf(s, e)
      case Stays => Scan(s, i + 1)
      case Wakes => Updated(s.(pending := s.pending[i := e.(woken := true)]), [], [])
      case Leaves(r) =>
        DequeueKeeps(s, i, r);
        var t := Scan(Dequeue(s, i, r), i);
        if r == Done then t.(log := [e] + t.log) else t.(refused := [e] + t.refused)
  }

  /** Carrying out the arrays of log one after the other, each of which goes through, leads to these values. */
  ghost predicate Performs(s: State, log: seq<Entry>, vals: seq<int>, undos: seq<Undo>)
    decreases |log|
  {
    if log == [] then vals == s.vals && undos == s.undos
    else
      var e := log[0];
      && UndosOk(s.undos, |s.vals|) && ArrayOk(s, e.proc, e.ops) && Decide(s, e.proc, e.ops) == Done
      && Performs(Perform(s, e.proc, e.ops), log[1..], vals, undos)
  }

  lemma {:induction false} PerformsAnyQueue(s: State, t: State, log: seq<Entry>, vals: seq<int>, undos: seq<Undo>)
    requires s.vals == t.vals && s.undos == t.undos && Performs(s, log, vals, undos)
    ensures Performs(t, log, vals, undos)
    decreases |log|
  {
    if log != [] {
      var e := log[0];
      PerformsAnyQueue(Perform(s, e.proc, e.ops), Perform(t, e.proc, e.ops), log[1..], vals, undos);
    }
  }

  /** update_queue is the same as carrying out, in queue order, exactly the arrays it dequeues with status 0;
      none of them decreases a value, for those are only woken to try themselves. */
  lemma {:induction false} ScanPerforms(s: State, i: nat)
    requires Inv(s) && i <= |s.pending|
    ensures Inv(Scan(s, i).state)
    ensures Performs(s, Scan(s, i).log, Scan(s, i).state.vals, Scan(s, i).state.undos)
    ensures forall e :: e in Scan(s, i).log ==> e in s.pending[i..] && !e.alter && !e.woken
    decreases |s.pending| - i
  {
    hide Ready, Perform, Decide, ArrayOk;
    if i < |s.pending| {
      var e := s.pending[i];
      assert e in s.pending;
      assert ArrayOk(s, e.proc, e.ops) && UndosOk(s.undos, |s.vals|) by { PendingOk(s, e); }
      assert s.pending[i..] == [e] + s.pending[i + 1..];
      match FateOf(s, e)
      case Stays => ScanPerforms(s, i + 1);
      case Wakes => WakeKeeps(s, i);
      case Leaves(r) =>
        DequeueKeeps(s, i, r);
        var t := Dequeue(s, i, r);
        ScanPerforms(t, i);
        assert t.pending[i..] == s.pending[i + 1..];
        var u := Scan(t, i);
        if r == Done {
          assert ([e] + u.log)[1..] == u.log;
          PerformsAnyQueue(t, Perform(s, e.proc, e.ops), u.log, u.state.vals, u.state.undos);
        } else {
          PerformsAnyQueue(t, s, u.log, u.state.vals, u.state.undos);
        }
    }
  }

  // ---------------------------------------------------------------- what becomes of each sleeper

  /** When k of the arrays of log had been carried out, leading to u, the answer for e was r. */
  ghost predicate DecidedAt(s: State, log: seq<Entry>, vals: seq<int>, undos: seq<Undo>, e: Entry, r: Result, k: nat,
                            u: State) {
    && k <= |log| && Performs(s, log[..k], u.vals, u.undos) && Performs(u, log[k..], vals, undos)
    && UndosOk(u.undos, |u.vals|) && ArrayOk(u, e.proc, e.ops) && Decide(u, e.proc, e.ops) == r
  }

  ghost predicate Decided(s: State, log: seq<Entry>, vals: seq<int>, undos: seq<Undo>, e: Entry, r: Result) {
    exists k: nat, u: State :: DecidedAt(s, log, vals, undos, e, r, k, u)
  }

  lemma DecidedNow(s: State, log: seq<Entry>, vals: seq<int>, undos: seq<Undo>, e: Entry)
    requires UndosOk(s.undos, |s.vals|) && ArrayOk(s, e.proc, e.ops) && Performs(s, log, vals, undos)
    ensures Decided(s, log, vals, undos, e, Decide(s, e.proc, e.ops))
  {
    hide Decide, UndosOk, ArrayOk, Perform;
    assert log[..0] == [] && log[0..] == log;
    assert DecidedAt(s, log, vals, undos, e, Decide(s, e.proc, e.ops), 0, s);
  }

  /** What is decided after a has been carried out is decided in the whole pass. */
  lemma DecidedAfter(s: State, a: Entry, t: State, log: seq<Entry>, vals: seq<int>, undos: seq<Undo>, e: Entry,
                     r: Result)
    requires UndosOk(s.undos, |s.vals|) && ArrayOk(s, a.proc, a.ops) && Decide(s, a.proc, a.ops) == Done
    requires t.vals == Perform(s, a.proc, a.ops).vals && t.undos == Perform(s, a.proc, a.ops).undos
    requires Decided(t, log, vals, undos, e, r)
    ensures Decided(s, [a] + log, vals, undos, e, r)
  {
    hide Decide, ArrayOk, Perform, UndosOk;
    var k: nat, u :| DecidedAt(t, log, vals, undos, e, r, k, u);
    var more := [a] + log;
    assert more[..k + 1][1..] == log[..k] && more[k + 1..] == log[k..] && more[..k + 1][0] == a;
    PerformsAnyQueue(t, Perform(s, a.proc, a.ops), log[..k], u.vals, u.undos);
    assert Performs(s, more[..k + 1], u.vals, u.undos);
    hide Performs;
    assert DecidedAt(s, more, vals, undos, e, r, k + 1, u);
  }

  lemma DecidedSame(s: State, t: State, log: seq<Entry>, vals: seq<int>, undos: seq<Undo>, e: Entry, r: Result)
    requires s.vals == t.vals && s.undos == t.undos && Decided(t, log, vals, undos, e, r)
    ensures Decided(s, log, vals, undos, e, r)
  {
    hide Decide, ArrayOk, UndosOk, Performs;
    var k: nat, u :| DecidedAt(t, log, vals, undos, e, r, k, u);
    PerformsAnyQueue(t, s, log[..k], u.vals, u.undos);
    assert DecidedAt(s, log, vals, undos, e, r, k, u);
  }

  /** What is decided after an array has left is decided in the whole pass. */
  lemma DecidedLater(s: State, i: nat, log: seq<Entry>, vals: seq<int>, undos: seq<Undo>, e: Entry, r: Result)
    requires Ready(s) && i < |s.pending| && ArrayOk(s, s.pending[i].proc, s.pending[i].ops)
    requires Decided(Dequeue(s, i, Decide(s, s.pending[i].proc, s.pending[i].ops)), log, vals, undos, e, r)
    ensures Decided(s, if Decide(s, s.pending[i].proc, s.pending[i].ops) == Done then [s.pending[i]] + log else log,
                    vals, undos, e, r)
  {
    hide Decide, ArrayOk, Perform, UndosOk, Decided;
    var a := s.pending[i];
    var d := Decide(s, a.proc, a.ops);
    var t := Dequeue(s, i, d);
    if d == Done {
      DecidedAfter(s, a, t, log, vals, undos, e, r);
    } else {
      DecidedSame(s, t, log, vals, undos, e, r);
    }
  }

  /** Nothing in front of entry i changes. */
  lemma {:induction false} ScanPrefix(s: State, i: nat)
    requires Inv(s) && i <= |s.pending|
    ensures i <= |Scan(s, i).state.pending| && Scan(s, i).state.pending[..i] == s.pending[..i]
    decreases |s.pending| - i
  {
    hide Ready, Perform, Decide, ArrayOk;
    if i < |s.pending| {
      var e := s.pending[i];
      assert e in s.pending;
      assert ArrayOk(s, e.proc, e.ops) && UndosOk(s.undos, |s.vals|) by { PendingOk(s, e); }
      match FateOf(s, e)
      case Stays =>
        ScanPrefix(s, i + 1);
        assert Scan(s, i).state.pending[..i] == Scan(s, i).state.pending[..i + 1][..i];
      case Wakes =>
      case Leaves(r) =>
        DequeueKeeps(s, i, r);
        ScanPrefix(Dequeue(s, i, r), i);
        assert Dequeue(s, i, r).pending[..i] == s.pending[..i];
    }
  }

  /** Entry j was woken, or it was looked at and had to sleep on. */
  ghost predicate SleepsOn(s: State, p: Updated, j: nat) {
    && j < |p.state.pending|
    && (p.state.pending[j].woken || Decided(s, p.log, p.state.vals, p.state.undos, p.state.pending[j], MustSleep))
  }

  /** The pass stopped at this entry: it takes something, could go through, and is woken to try itself. */
  ghost predicate StoppedAt(t: State, j: nat) {
    && j < |t.pending| && t.pending[j].woken && t.pending[j].alter && UndosOk(t.undos, |t.vals|)
    && ArrayOk(t, t.pending[j].proc, t.pending[j].ops) && Decide(t, t.pending[j].proc, t.pending[j].ops) == Done
  }

  /** Whoever update_queue leaves asleep had to sleep when it came by; only behind one that it woke and that could go
      through it did not look. */
  lemma {:induction false} ScanLeavesBlocked(s: State, i: nat) returns (stop: nat)
    requires Inv(s) && i <= |s.pending|
    ensures i <= stop <= |Scan(s, i).state.pending|
    ensures forall j :: i <= j < stop ==> SleepsOn(s, Scan(s, i), j)
    ensures stop == |Scan(s, i).state.pending| || StoppedAt(Scan(s, i).state, stop)
    decreases |s.pending| - i
  {
    hide Ready, Perform, Decide, ArrayOk, UndosOk, Decided, StoppedAt;
    ScanPerforms(s, i);
    if i == |s.pending| {
      stop := i;
    } else {
      var e := s.pending[i];
      assert e in s.pending;
      PendingOk(s, e);
      match FateOf(s, e)
      case Stays =>
        stop := ScanLeavesBlocked(s, i + 1);
        ScanPrefix(s, i + 1);
        assert Scan(s, i).state.pending[i] == Scan(s, i).state.pending[..i + 1][i] == s.pending[..i + 1][i];
        if !e.woken {
          DecidedNow(s, Scan(s, i).log, Scan(s, i).state.vals, Scan(s, i).state.undos, e);
        }
      case Wakes =>
        stop := i;
        WakesStopped(s, i);
      case Leaves(r) =>
        DequeueKeeps(s, i, r);
        var t := Dequeue(s, i, r);
        stop := ScanLeavesBlocked(t, i);
        var p, p' := Scan(s, i), Scan(t, i);
        forall j | i <= j < stop ensures SleepsOn(s, p, j) {
          assert SleepsOn(t, p', j);
          if !p.state.pending[j].woken {
            DecidedLater(s, i, p'.log, p.state.vals, p.state.undos, p.state.pending[j], MustSleep);
          }
        }
    }
  }

  lemma WakesStopped(s: State, i: nat)
    requires Ready(s) && i < |s.pending| && s.pending[i] in s.pending && FateOf(s, s.pending[i]) == Wakes
    ensures StoppedAt(s.(pending := s.pending[i := s.pending[i].(woken := true)]), i)
  {
  }

  lemma {:induction false} ZerosFinal(c: Core, ops: seq<Op>)
    requires OpsFit(c, ops) && forall o :: o in ops ==> o.op == 0
    ensures Final(c, ops) == c
    decreases |ops|
  {
    if ops != [] {
      OpsFitParts(c, ops);
      assert ops[0] in ops;
      assert Bump(c, ops[0]) == c;
      ZerosFinal(c, ops[1..]);
    }
  }

  /** Arrays that only wait for zero change nothing. */
  lemma {:induction false} ZerosPerform(s: State, log: seq<Entry>, vals: seq<int>, undos: seq<Undo>)
    requires Performs(s, log, vals, undos) && forall e, o :: e in log && o in e.ops ==> o.op == 0
    ensures vals == s.vals && undos == s.undos
    decreases |log|
  {
    if log != [] {
      var e := log[0];
      assert e in log;
      ArrayFits(s, e.proc, e.ops);
      ZerosFinal(CoreOf(s, e.proc), e.ops);
      assert WithCore(s, e.proc, CoreOf(s, e.proc)) == s;
      ZerosPerform(s, log[1..], vals, undos);
    }
  }

  /** If the pass carries nothing out but arrays that only wait for zero, those it leaves asleep must still sleep. */
  lemma NobodyOverlooked(s: State, j: nat)
    requires Inv(s) && SleepsOn(s, Scan(s, 0), j) && !Scan(s, 0).state.pending[j].woken
    requires forall e, o :: e in Scan(s, 0).log && o in e.ops ==> o.op == 0
    ensures var t := Scan(s, 0).state; var e := t.pending[j];
            UndosOk(t.undos, |t.vals|) && ArrayOk(t, e.proc, e.ops) && Decide(t, e.proc, e.ops) == MustSleep
  {
    var t, log := Scan(s, 0).state, Scan(s, 0).log;
    hide Scan, Ready;
    var k: nat, u :| DecidedAt(s, log, t.vals, t.undos, t.pending[j], MustSleep, k, u);
    assert forall e :: e in log[k..] ==> e in log;
    ZerosPerform(u, log[k..], t.vals, t.undos);
  }

  /** Nobody gets lost: each sleeper is still there, was carried out, or left with an error. */
  lemma {:induction false} ScanAll(s: State, i: nat)
    requires Inv(s) && i <= |s.pending|
    ensures var p := Scan(s, i);
            && |s.pending| == |p.state.pending| + |p.log| + |p.refused|
            && (forall e :: e in s.pending[i..] ==>
                  e in p.state.pending || e.(woken := true) in p.state.pending || e in p.log || e in p.refused)
    decreases |s.pending| - i
  {
    hide Ready, Perform, Decide, ArrayOk, UndosOk;
    if i < |s.pending| {
      var e := s.pending[i];
      assert e in s.pending;
      PendingOk(s, e);
      assert s.pending[i..] == [e] + s.pending[i + 1..];
      match FateOf(s, e)
      case Stays =>
        ScanAll(s, i + 1);
        ScanPrefix(s, i + 1);
        assert Scan(s, i).state.pending[i] == Scan(s, i).state.pending[..i + 1][i] == s.pending[..i + 1][i];
      case Wakes =>
        var t := s.pending[i := e.(woken := true)];
        assert t[i] == e.(woken := true);
        forall x | x in s.pending[i + 1..] ensures x in t {
          var j :| 0 <= j < |s.pending[i + 1..]| && s.pending[i + 1..][j] == x;
          assert t[i + 1 + j] == x;
        }
      case Leaves(r) =>
        DequeueKeeps(s, i, r);
        ScanAll(Dequeue(s, i, r), i);
        assert Dequeue(s, i, r).pending[i..] == s.pending[i + 1..];
    }
  }

  ghost predicate RefusedIn(s: State, p: Updated, e: Entry) {
    || Decided(s, p.log, p.state.vals, p.state.undos, e, Again)
    || Decided(s, p.log, p.state.vals, p.state.undos, e, OutOfRange)
  }

  /** Who left with an error had it coming. */
  lemma {:induction false} ScanRefused(s: State, i: nat)
    requires Inv(s) && i <= |s.pending|
    ensures forall e :: e in Scan(s, i).refused ==> RefusedIn(s, Scan(s, i), e)
    decreases |s.pending| - i
  {
    hide Ready, Perform, Decide, ArrayOk, UndosOk, RefusedIn, Performs;
    ScanPerforms(s, i);
    if i < |s.pending| {
      var e := s.pending[i];
      assert e in s.pending;
      PendingOk(s, e);
      match FateOf(s, e)
      case Stays => ScanRefused(s, i + 1);
      case Wakes =>
      case Leaves(r) =>
        DequeueKeeps(s, i, r);
        ScanRefused(Dequeue(s, i, r), i);
        RefusedLater(s, i, Scan(s, i), Scan(Dequeue(s, i, r), i));
    }
  }

  lemma RefusedLater(s: State, i: nat, p: Updated, p': Updated)
    requires Ready(s) && i < |s.pending| && ArrayOk(s, s.pending[i].proc, s.pending[i].ops)
    requires var e := s.pending[i]; var d := Decide(s, e.proc, e.ops);
             && d != MustSleep && (forall x :: x in p'.refused ==> RefusedIn(Dequeue(s, i, d), p', x))
             && p == if d == Done then p'.(log := [e] + p'.log) else p'.(refused := [e] + p'.refused)
    requires Performs(s, p.log, p.state.vals, p.state.undos)
    ensures forall x :: x in p.refused ==> RefusedIn(s, p, x)
  {
    hide Decided, Dequeue, ArrayOk, Performs;
    var e := s.pending[i];
    var d := Decide(s, e.proc, e.ops);
    hide Decide;
    forall x | x in p.refused ensures RefusedIn(s, p, x) {
      if x in p'.refused {
        var r := if Decided(Dequeue(s, i, d), p'.log, p.state.vals, p.state.undos, x, Again) then Again else OutOfRange;
        DecidedLater(s, i, p'.log, p.state.vals, p.state.undos, x, r);
      } else {
        DecidedNow(s, p.log, p.state.vals, p.state.undos, e);
      }
    }
  }

  lemma PendingOk(s: State, e: Entry)
    requires Ready(s) && e in s.pending
    ensures ArrayOk(s, e.proc, e.ops) && UndosOk(s.undos, |s.vals|)
  {
  }

  lemma WakeKeeps(s: State, i: nat)
    requires Inv(s) && i < |s.pending|
    ensures Inv(s.(pending := s.pending[i := s.pending[i].(woken := true)]))
  {
    var t := s.(pending := s.pending[i := s.pending[i].(woken := true)]);
    forall e | e in t.pending ensures ArrayOk(t, e.proc, e.ops) {
      var j :| 0 <= j < |t.pending| && t.pending[j] == e;
      assert s.pending[j] in s.pending;
    }
  }

  // ---------------------------------------------------------------- the other operations on a set

  /** alloc_undo: a record of zeros at the head of the list. */
  function AllocUndo(s: State, proc: nat): State {
    s.(undos := [Undo(proc, seq(|s.vals|, n => 0))] + s.undos)
  }

  function ZeroAt(undos: seq<Undo>, n: nat): seq<Undo> {
    seq(|undos|, i requires 0 <= i < |undos| =>
      if n < |undos[i].adj| then undos[i].(adj := undos[i].adj[n := 0]) else undos[i])
  }

  /** SETVAL forgets all adjustments of the semaphore. */
  function SetVal(s: State, n: nat, val: int): State
    requires n < |s.vals|
  {
    s.(vals := s.vals[n := val], undos := ZeroAt(s.undos, n))
  }

  function Zeroed(undos: seq<Undo>): seq<Undo> {
    seq(|undos|, i requires 0 <= i < |undos| => undos[i].(adj := seq(|undos[i].adj|, n => 0)))
  }

  function SetAll(s: State, vals: seq<int>): State {
    s.(vals := vals, undos := Zeroed(s.undos))
  }

  function Clamp(x: int): int { if x < 0 then 0 else x }

  function Adjusted(vals: seq<int>, adj: seq<int>): (r: seq<int>)
    requires |adj| == |vals|
    ensures |r| == |vals| && forall n :: 0 <= n < |r| ==> r[n] == Clamp(vals[n] + adj[n])
  {
    seq(|vals|, n requires 0 <= n < |vals| => Clamp(vals[n] + adj[n]))
  }

  function WithoutProc(pending: seq<Entry>, proc: nat): seq<Entry> {
    if pending == [] then []
    else (if pending[0].proc == proc then [] else [pending[0]]) + WithoutProc(pending[1..], proc)
  }

  /** sem_exit: the process's sleeping array goes, its adjustments are made, its record goes. */
  function Exit(s: State, proc: nat): State
    requires UndosOk(s.undos, |s.vals|)
  {
    var u := Find(s.undos, proc);
    var t := s.(pending := WithoutProc(s.pending, proc));
    if u < 0 then t
    else
      assert s.undos[u] in s.undos;
      t.(vals := Adjusted(s.vals, s.undos[u].adj), undos := s.undos[..u] + s.undos[u + 1..])
  }

  /** Arrays that change a value queue up at the end, others go to the front. */
  function Enqueue(s: State, e: Entry, front: bool): State {
    s.(pending := if front then [e] + s.pending else s.pending + [e])
  }

  function Mark(s: State, i: nat, woken: bool): State
    requires i < |s.pending|
  {
    s.(pending := s.pending[i := s.pending[i].(woken := woken)])
  }

  function Remove(s: State, i: nat): State
    requires i < |s.pending|
  {
    s.(pending := Drop(s.pending, i))
  }

  /** alter tells the arrays that take something. */
  predicate KnownTaker(e: Entry) {
    e.alter <==> exists o :: o in e.ops && o.op < 0
  }

  ghost predicate PerformStep(s: State, s': State, proc: nat, ops: seq<Op>) {
    && UndosOk(s.undos, |s.vals|) && ArrayOk(s, proc, ops)
    && Decide(s, proc, ops) == Done && s' == Perform(s, proc, ops)
  }

  ghost predicate ScanStep(s: State, s': State) {
    Ready(s) && s' == Scan(s, 0).state
  }

  ghost predicate SetValStep(s: State, s': State, n: nat, val: int) {
    n < |s.vals| && 0 <= val <= SEMVMX && s' == SetVal(s, n, val)
  }

  ghost predicate SetAllStep(s: State, s': State, vals: seq<int>) {
    |vals| == |s.vals| && (forall v :: v in vals ==> 0 <= v <= SEMVMX) && s' == SetAll(s, vals)
  }

  ghost predicate ExitStep(s: State, s': State, proc: nat) {
    UndosOk(s.undos, |s.vals|) && s' == Exit(s, proc)
  }

  ghost predicate Next(s: State, s': State) {
    || s' == s
    || (exists proc, ops :: PerformStep(s, s', proc, ops))
    || ScanStep(s, s')
    || (exists e: Entry, front :: ArrayOk(s, e.proc, e.ops) && KnownTaker(e) && s' == Enqueue(s, e, front))
    || (exists i :: 0 <= i < |s.pending| && s' == Remove(s, i))
    || (exists i, b :: 0 <= i < |s.pending| && s' == Mark(s, i, b))
    || (exists proc :: Find(s.undos, proc) < 0 && s' == AllocUndo(s, proc))
    || (exists n, val :: SetValStep(s, s', n, val))
    || (exists vals :: SetAllStep(s, s', vals))
    || (exists proc :: ExitStep(s, s', proc))
  }

  // ---------------------------------------------------------------- every step keeps the set in order

  lemma AllocKeeps(s: State, proc: nat)
    requires Inv(s) && Find(s.undos, proc) < 0
    ensures Inv(AllocUndo(s, proc))
  {
    var t := AllocUndo(s, proc);
    forall i | 0 <= i < |s.undos| ensures s.undos[i].proc != proc {
      assert s.undos[i] in s.undos;
    }
    assert t.undos[1..] == s.undos;
    forall p ensures Find(s.undos, p) >= 0 ==> Find(t.undos, p) >= 0 {}
  }

  lemma SameProcs(s: State, t: State)
    requires Inv(s) && |t.vals| == |s.vals| && (forall n :: 0 <= n < |t.vals| ==> t.vals[n] >= 0)
    requires |t.undos| == |s.undos| && t.pending == s.pending
    requires forall i :: 0 <= i < |s.undos| ==>
             t.undos[i].proc == s.undos[i].proc && |t.undos[i].adj| == |s.vals| && AdjInRange(t.undos[i].adj)
    ensures Inv(t)
  {
    forall p ensures Find(t.undos, p) == Find(s.undos, p) {
      FindSame(s.undos, t.undos, p);
    }
  }

  lemma SetValKeeps(s: State, n: nat, val: int)
    requires Inv(s) && n < |s.vals| && 0 <= val
    ensures Inv(SetVal(s, n, val))
  {
    forall i | 0 <= i < |s.undos| ensures |s.undos[i].adj| == |s.vals| && AdjInRange(s.undos[i].adj) {
      assert s.undos[i] in s.undos;
    }
    SameProcs(s, SetVal(s, n, val));
  }

  lemma SetAllKeeps(s: State, vals: seq<int>)
    requires Inv(s) && |vals| == |s.vals| && forall v :: v in vals ==> 0 <= v
    ensures Inv(SetAll(s, vals))
  {
    forall i | 0 <= i < |s.undos| ensures |s.undos[i].adj| == |s.vals| {
      assert s.undos[i] in s.undos;
    }
    forall n | 0 <= n < |vals| ensures vals[n] >= 0 { assert vals[n] in vals; }
    SameProcs(s, SetAll(s, vals));
  }

  lemma {:induction false} WithoutProcIn(pending: seq<Entry>, proc: nat)
    ensures forall e :: e in WithoutProc(pending, proc) <==> e in pending && e.proc != proc
  {
    if pending != [] {
      WithoutProcIn(pending[1..], proc);
      assert pending == [pending[0]] + pending[1..];
    }
  }

  /** Taking a record out of the list leaves the others findable. */
  lemma FindOthers(undos: seq<Undo>, u: nat, p: nat)
    requires OneUndoEach(undos) && u < |undos| && p != undos[u].proc
    ensures Find(undos, p) >= 0 ==> Find(undos[..u] + undos[u + 1..], p) >= 0
  {
    var i := Find(undos, p);
    var rest := undos[..u] + undos[u + 1..];
    if i >= 0 {
      assert undos[i] == rest[if i < u then i else i - 1];
      assert undos[i] in rest;
    }
  }

  lemma ExitKeeps(s: State, proc: nat)
    requires Inv(s)
    ensures Inv(Exit(s, proc))
  {
    var u, t := Find(s.undos, proc), Exit(s, proc);
    WithoutProcIn(s.pending, proc);
    hide WithoutProc, Find;
    if u >= 0 {
      assert s.undos[u] in s.undos;
      assert UndosOk(t.undos, |t.vals|) by {
        assert forall x :: x in t.undos ==> x in s.undos;
      }
      assert OneUndoEach(s.undos);
      hide UndosOk, AdjInRange, Adjusted;
      forall e | e in t.pending ensures ArrayOk(t, e.proc, e.ops) {
        assert ArrayOk(s, e.proc, e.ops);
        FindOthers(s.undos, u, e.proc);
      }
    }
  }

  lemma EnqueueKeeps(s: State, e: Entry, front: bool)
    requires Inv(s) && ArrayOk(s, e.proc, e.ops)
    ensures Inv(Enqueue(s, e, front))
  {
  }

  lemma MarkKeeps(s: State, i: nat, b: bool)
    requires Inv(s) && i < |s.pending|
    ensures Inv(Mark(s, i, b))
  {
    var t := Mark(s, i, b);
    forall e | e in t.pending ensures ArrayOk(t, e.proc, e.ops) {
      var j :| 0 <= j < |t.pending| && t.pending[j] == e;
      assert s.pending[j] in s.pending;
    }
  }

  lemma NextKeeps(s: State, s': State)
    requires Inv(s) && Next(s, s')
    ensures Inv(s')
  {
    hide Ready, Perform, Decide, ArrayOk, UndosOk, Scan, Exit, AllocUndo, SetVal, SetAll, Drop, Find;
    if s' == s {
    } else if proc: nat, ops :| PerformStep(s, s', proc, ops) {
      PerformKeeps(s, proc, ops);
    } else if ScanStep(s, s') {
      ScanPerforms(s, 0);
    } else if e: Entry, front :| ArrayOk(s, e.proc, e.ops) && KnownTaker(e) && s' == Enqueue(s, e, front) {
      EnqueueKeeps(s, e, front);
    } else if i :| 0 <= i < |s.pending| && s' == Remove(s, i) {
      DropKeeps(s, i);
    } else if i, b :| 0 <= i < |s.pending| && s' == Mark(s, i, b) {
      MarkKeeps(s, i, b);
    } else if proc: nat :| Find(s.undos, proc) < 0 && s' == AllocUndo(s, proc) {
      AllocKeeps(s, proc);
    } else if n: nat, val: int :| SetValStep(s, s', n, val) {
      SetValKeeps(s, n, val);
    } else if vals :| SetAllStep(s, s', vals) {
      SetAllKeeps(s, vals);
    } else {
      var proc: nat :| ExitStep(s, s', proc);
      ExitKeeps(s, proc);
    }
  }

  predicate Decreases(ops: seq<Op>) {
    exists o :: o in ops && o.op < 0
  }

  predicate Alters(ops: seq<Op>) {
    exists o :: o in ops && o.op != 0
  }

  lemma InvUndos(s: State)
    requires Inv(s)
    ensures UndosOk(s.undos, |s.vals|)
  {
  }

  /** What update_queue does for an array that leaves is Dequeue's share of it. */
  lemma PerformPending(s: State, e: Entry, r: Result)
    requires Ready(s) && e in s.pending
    ensures ArrayOk(s, e.proc, e.ops) && UndosOk(s.undos, |s.vals|)
    ensures Perform(s, e.proc, e.ops).pending == s.pending
  {
  }

  // ---------------------------------------------------------------- the set, changed in place

  class SemSet {
    var vals: seq<int>
    var undos: seq<Undo>
    var pending: seq<Entry>

    ghost function Abs(): State
      reads this
    {
      State(vals, undos, pending)
    }

    constructor (size: nat)
      ensures Inv(Abs()) && undos == [] && pending == [] && vals == seq(size, n => 0)
    {
      vals, undos, pending := seq(size, n => 0), [], [];
    }

    /** The fields hold the core c, the undo record of the process being at index u. */
    ghost predicate HoldsCore(s: State, u: int, c: Core)
      reads this
      requires -1 <= u < |s.undos|
    {
      && vals == c.vals && pending == s.pending
      && undos == (if u >= 0 then s.undos[u := s.undos[u].(adj := c.adj)] else s.undos)
      && (u < 0 ==> c.adj == [])
    }

    /** curr->semval += op, and un->semadj -= op if asked for. */
    method Add(o: Op, u: int, ghost s: State, ghost c: Core)
      requires -1 <= u < |s.undos| && HoldsCore(s, u, c) && OpsFit(c, [o]) && (o.undo ==> u >= 0)
      modifies this`vals, this`undos
      ensures HoldsCore(s, u, Bump(c, o))
    {
      assert o in [o];
      vals := vals[o.num := vals[o.num] + o.op];
      if o.undo {
        var adj := undos[u].adj;
        undos := undos[u := undos[u].(adj := adj[o.num := adj[o.num] - o.op])];
      }
    }

    /** The reverse, in the roll-back loop. */
    method Subtract(o: Op, u: int, ghost s: State, ghost c: Core)
      requires -1 <= u < |s.undos| && HoldsCore(s, u, c) && OpsFit(c, [o]) && (o.undo ==> u >= 0)
      modifies this`vals, this`undos
      ensures HoldsCore(s, u, Unbump(c, o))
    {
      assert o in [o];
      vals := vals[o.num := vals[o.num] - o.op];
      if o.undo {
        var adj := undos[u].adj;
        undos := undos[u := undos[u].(adj := adj[o.num := adj[o.num] + o.op])];
      }
    }

    /** One turn of the forward loop. An operation that is stopped has been done in part or in whole
        already; done is the operation with which the roll-back takes exactly that part back. */
    method Turn(o: Op, u: int, ghost s: State, ghost c: Core) returns (done: Op, stop: Check, ghost c': Core)
      requires -1 <= u < |s.undos| && HoldsCore(s, u, c) && OpsFit(c, [o]) && (o.undo ==> u >= 0)
      modifies this`vals, this`undos
      ensures HoldsCore(s, u, c') && stop == CheckOp(c, o)
      ensures stop == Fine ==> done == o && c' == Bump(c, o)
      ensures OpsFit(c', [done]) && Unbump(c', done) == c && done.nowait == o.nowait && (done.undo ==> u >= 0)
    {
      assert o in [o];
      done, c' := o, c;
      if o.op == 0 && vals[o.num] != 0 {
        stop := Block;
        assert Unbump(c, o) == c;
        return;
      }
      if o.undo && !(-SEMAEM - 1 <= undos[u].adj[o.num] - o.op <= SEMAEM) {
        done, stop := o.(undo := false), Range;
        assert done in [done];
        Add(done, u, s, c);
        UnbumpBump(c, done);
        c' := Bump(c, done);
        return;
      }
      Add(o, u, s, c);
      UnbumpBump(c, o);
      c' := Bump(c, o);
      stop := if vals[o.num] < 0 then Block else if vals[o.num] > SEMVMX then Range else Fine;
    }

    /** The first i operations were checked and found fine. */
    ghost predicate FineUpTo(c0: Core, ops: seq<Op>, i: nat)
      requires OpsFit(c0, ops) && i <= |ops|
    {
      forall j :: 0 <= j < i ==> OpsFit(After(c0, ops, j), [ops[j]]) && CheckOp(After(c0, ops, j), ops[j]) == Fine
    }

    /** The forward loop of try_atomic_semop; ops is returned because the code clears a flag in its own copy. */
    method Forward(u: int, ops0: seq<Op>, ghost s: State, ghost c0: Core)
      returns (ops: seq<Op>, i: nat, stop: Check, ghost c: Core)
      requires -1 <= u < |s.undos| && HoldsCore(s, u, c0) && OpsFit(c0, ops0)
      requires forall o :: o in ops0 && o.undo ==> u >= 0
      modifies this`vals, this`undos
      ensures i <= |ops0| && HoldsCore(s, u, c) && FineUpTo(c0, ops0, i)
      ensures stop == Fine <==> i == |ops0|
      ensures i == |ops0| ==> ops == ops0 && c == After(c0, ops0, i)
      ensures i < |ops0| ==>
                && |ops| == |ops0| && ops == ops0[i := ops[i]] && OpsFit(c, [ops[i]]) && ops[i].nowait == ops0[i].nowait
                && (ops[i].undo ==> u >= 0) && Unbump(c, ops[i]) == After(c0, ops0, i)
                && OpsFit(After(c0, ops0, i), [ops0[i]]) && stop == CheckOp(After(c0, ops0, i), ops0[i])
    {
      hide HoldsCore, Bump, Unbump, CheckOp, OpsFit, Final;
      ops, i, c, stop := ops0, 0, c0, Fine;
      assert c0 == After(c0, ops0, 0) by { AfterNone(c0, ops0); }
      while i < |ops0|
        invariant 0 <= i <= |ops0| && ops == ops0 && stop == Fine
        invariant c == After(c0, ops0, i) && HoldsCore(s, u, c) && FineUpTo(c0, ops0, i)
      {
        AfterStep(c0, ops0, i);
        assert ops[i] in ops0;
        var done;
        ghost var before := c;
        done, stop, c := Turn(ops[i], u, s, c);
        if stop != Fine {
          ops := ops[i := done];
          return;
        }
        i := i + 1;
      }
    }

    /** The roll-back loop: from operation i0 down to the first, take back what was done. */
    method Rollback(u: int, ops: seq<Op>, i0: int, ghost s: State, ghost c: Core, ghost c0: Core, ghost ops0: seq<Op>)
      requires -1 <= u < |s.undos| && HoldsCore(s, u, c) && -1 <= i0 < |ops| && |ops| == |ops0|
      requires OpsFit(c0, ops0) && forall o :: o in ops0 && o.undo ==> u >= 0
      requires forall j :: 0 <= j < i0 ==> ops[j] == ops0[j]
      requires i0 < 0 ==> c == c0
      requires i0 >= 0 ==>
               OpsFit(c, [ops[i0]]) && (ops[i0].undo ==> u >= 0) && Unbump(c, ops[i0]) == After(c0, ops0, i0)
      modifies this`vals, this`undos
      ensures HoldsCore(s, u, c0)
    {
      hide HoldsCore, Bump, Unbump, OpsFit, Final, After;
      var i := i0;
      ghost var now := c;
      while i >= 0
        invariant -1 <= i <= i0 && HoldsCore(s, u, now)
        invariant i < 0 ==> now == c0
        invariant i >= 0 ==>
                  OpsFit(now, [ops[i]]) && (ops[i].undo ==> u >= 0) && Unbump(now, ops[i]) == After(c0, ops0, i)
      {
        Subtract(ops[i], u, s, now);
        now := Unbump(now, ops[i]);
        if i > 0 {
          assert ops0[i - 1] in ops0;
          AfterStep(c0, ops0, i - 1);
          UnbumpBump(After(c0, ops0, i - 1), ops0[i - 1]);
        } else {
          AfterNone(c0, ops0);
        }
        i := i - 1;
      }
    }

    /** Forward, then back unless everything went through for real. */
    method TryCore(u: int, ops0: seq<Op>, dry: bool, ghost s: State, ghost c0: Core) returns (r: Result)
      requires -1 <= u < |s.undos| && HoldsCore(s, u, c0) && OpsFit(c0, ops0)
      requires forall o :: o in ops0 && o.undo ==> u >= 0
      modifies this`vals, this`undos
      ensures r == Verdict(c0, ops0)
      ensures HoldsCore(s, u, if r == Done && !dry then Final(c0, ops0) else c0)
    {
      hide HoldsCore, Bump, Unbump, CheckOp, OpsFit, Final, Verdict;
      var ops, i, stop;
      ghost var c;
      ops, i, stop, c := Forward(u, ops0, s, c0);
      if stop == Fine {
        VerdictDone(c0, ops0);
        assert ops0[..|ops0|] == ops0;
        if !dry {
          return Done;
        }
        if |ops| > 0 {
          AfterStep(c0, ops0, |ops| - 1);
          assert ops0[|ops| - 1] in ops0;
          UnbumpBump(After(c0, ops0, |ops| - 1), ops0[|ops| - 1]);
        } else {
          AfterNone(c0, ops0);
        }
        Rollback(u, ops, |ops| - 1, s, c, c0, ops0);
        r := Done;
      } else {
        VerdictAt(c0, ops0, i);
        r := Stopped(stop, ops[i]);
        Rollback(u, ops, i, s, c, c0, ops0);
      }
    }

    /** try_atomic_semop: all operations or none; a dry run decides the same and changes nothing. */
    method TryAtomicSemop(proc: nat, ops0: seq<Op>, dry: bool) returns (r: Result)
      requires Inv(Abs()) && ArrayOk(Abs(), proc, ops0)
      modifies this`vals, this`undos
      ensures r == Decide(old(Abs()), proc, ops0) && Answers(CoreOf(old(Abs()), proc), ops0, r)
      ensures Abs() == if r == Done && !dry then Perform(old(Abs()), proc, ops0) else old(Abs())
    {
      ghost var s := Abs();
      ghost var c0 := CoreOf(s, proc);
      var u := Find(undos, proc);
      ArrayFits(s, proc, ops0);
      assert u >= 0 ==> s.undos[u := s.undos[u].(adj := c0.adj)] == s.undos;
      VerdictAnswers(c0, ops0);
      hide Answers;
      r := TryCore(u, ops0, dry, s, c0);
    }

    /** update_queue: one pass, stopping at the first array that decreases and could go through. */
    method UpdateQueue()
      requires Inv(Abs())
      modifies this
      ensures Inv(Abs()) && Abs() == Scan(old(Abs()), 0).state
    {
      hide Perform, Decide, Ready;
      ghost var s := Abs();
      var i := 0;
      while i < |pending|
        invariant 0 <= i <= |pending| && Inv(Abs())
        invariant Scan(Abs(), i).state == Scan(s, 0).state
        decreases |pending| - i
      {
        var e := pending[i];
        ghost var t := Abs();
        PendingOk(t, e);
        if e.woken {
          i := i + 1;
          continue;
        }
        var r := TryAtomicSemop(e.proc, e.ops, e.alter);
        if r == MustSleep {
          i := i + 1;
          continue;
        }
        if r == Done && e.alter {
          pending := pending[i := e.(woken := true)];
          WakeKeeps(t, i);
          return;
        }
        DequeueKeeps(t, i, r);
        PerformPending(t, e, r);
        pending := Drop(pending, i);
        assert Abs() == Dequeue(t, i, r);
      }
    }

    /** sys_semop up to where it returns or sleeps. */
    method Semop(proc: nat, ops: seq<Op>) returns (r: Result)
      requires Inv(Abs()) && ArrayOk(Abs(), proc, ops)
      modifies this
      ensures Inv(Abs()) && r == Decide(old(Abs()), proc, ops) && Answers(CoreOf(old(Abs()), proc), ops, r)
      ensures r == MustSleep ==>
                && vals == old(vals) && undos == old(undos)
                && var e := Entry(proc, ops, exists o :: o in ops && o.op < 0, false);
                   pending == if forall o :: o in ops ==> o.op == 0 then [e] + old(pending) else old(pending) + [e]
      ensures r != MustSleep ==>
                var t := if r == Done then Perform(old(Abs()), proc, ops) else old(Abs());
                Inv(t) && Abs() == if exists o :: o in ops && o.op != 0 then Scan(t, 0).state else t
    {
      hide Perform, Decide, Inv, Scan, Answers;
      ghost var s := Abs();
      assert UndosOk(s.undos, |s.vals|) by { InvUndos(s); }
      r := TryAtomicSemop(proc, ops, false);
      if r != MustSleep {
        if r == Done { PerformKeeps(s, proc, ops); }
        if Alters(ops) {
          UpdateQueue();
        }
        return;
      }
      var e := Entry(proc, ops, Decreases(ops), false);
      EnqueueKeeps(s, e, !Alters(ops));
      if Alters(ops) {
        pending := pending + [e];
      } else {
        pending := [e] + pending;
      }
    }

    /** sys_semop goes on after sleeping, with its array still on the queue at i: a woken one tries again, and sleeps on
        if it still must; one that was not woken is interrupted, which None stands for. */
    method Resume(i: nat) returns (r: Option<Result>)
      requires Inv(Abs()) && i < |pending|
      modifies this
      ensures Inv(Abs()) && (r.Some? <==> old(pending)[i].woken)
      ensures r.Some? ==> Answers(CoreOf(old(Abs()), old(pending)[i].proc), old(pending)[i].ops, r.value)
      ensures r == Some(MustSleep) ==> Abs() == Mark(old(Abs()), i, false)
      ensures r != Some(MustSleep) ==>
                && Ready(old(Abs())) && ArrayOk(old(Abs()), old(pending)[i].proc, old(pending)[i].ops)
                && var t := Dequeue(old(Abs()), i, if r.Some? then r.value else Again);
                   Inv(t) && Abs() == if exists o :: o in old(pending)[i].ops && o.op != 0 then Scan(t, 0).state else t
    {
      hide Perform, Decide, Scan, Answers, Ready;
      ghost var s := Abs();
      var e := pending[i];
      PendingOk(s, e);
      if e.woken {
        var answer := TryAtomicSemop(e.proc, e.ops, false);
        r := Some(answer);
        if answer == MustSleep {
          MarkKeeps(s, i, false);
          pending := pending[i := e.(woken := false)];
          return;
        }
        DequeueKeeps(s, i, answer);
        PerformPending(s, e, answer);
      } else {
        r := None;
        DropKeeps(s, i);
      }
      pending := Drop(pending, i);
      assert Abs() == Dequeue(s, i, if r.Some? then r.value else Again);
      if Alters(e.ops) {
        UpdateQueue();
      }
    }

    /** alloc_undo */
    method NewUndo(proc: nat)
      requires Inv(Abs()) && Find(undos, proc) < 0
      modifies this`undos
      ensures Inv(Abs()) && Abs() == AllocUndo(old(Abs()), proc)
    {
      AllocKeeps(Abs(), proc);
      undos := [Undo(proc, seq(|vals|, n => 0))] + undos;
    }

    /** sem_exit for one set: make the registered adjustments one by one, then look at the queue. */
    method SemExit(proc: nat)
      requires Inv(Abs())
      modifies this
      ensures Inv(Abs()) && Inv(Exit(old(Abs()), proc))
      ensures Abs() == if Find(old(undos), proc) >= 0 then Scan(Exit(old(Abs()), proc), 0).state
              else Exit(old(Abs()), proc)
    {
      ghost var s := Abs();
      ExitKeeps(s, proc);
      var rest := Unlink(proc);
      pending := rest;
      var u := Find(undos, proc);
      if u < 0 {
        return;
      }
      var adj := undos[u].adj;
      assert undos[u] in undos;
      undos := undos[..u] + undos[u + 1..];
      var n := 0;
      while n < |vals|
        invariant 0 <= n <= |vals| == |s.vals| == |adj|
        invariant pending == rest && undos == s.undos[..u] + s.undos[u + 1..]
        invariant forall k :: 0 <= k < n ==> vals[k] == Clamp(s.vals[k] + adj[k])
        invariant forall k :: n <= k < |vals| ==> vals[k] == s.vals[k]
      {
        vals := vals[n := vals[n] + adj[n]];
        if vals[n] < 0 {
          vals := vals[n := 0];
        }
        n := n + 1;
      }
      assert vals == Adjusted(s.vals, adj);
      assert Abs() == Exit(s, proc);
      UpdateQueue();
    }

    /** remove_from_queue for the entry of an exiting process. */
    method Unlink(proc: nat) returns (rest: seq<Entry>)
      ensures rest == WithoutProc(pending, proc)
    {
      rest := [];
      var i := |pending|;
      while i > 0
        invariant 0 <= i <= |pending|
        invariant rest == WithoutProc(pending[i..], proc)
      {
        i := i - 1;
        assert pending[i..][1..] == pending[i + 1..];
        if pending[i].proc != proc {
          rest := [pending[i]] + rest;
        }
      }
      assert pending[0..] == pending;
    }

    /** SETALL, with as many values as there are semaphores: false stands for -ERANGE. */
    method SetValues(all: seq<nat>) returns (ok: bool)
      requires Inv(Abs()) && |all| == |vals|
      modifies this
      ensures Inv(Abs()) && (ok <==> forall v :: v in all ==> v <= SEMVMX)
      ensures ok ==> Inv(SetAll(old(Abs()), all)) && Abs() == Scan(SetAll(old(Abs()), all), 0).state
      ensures !ok ==> Abs() == old(Abs())
    {
      ghost var s := Abs();
      for i := 0 to |all|
        invariant forall k :: 0 <= k < i ==> all[k] <= SEMVMX
      {
        if all[i] > SEMVMX {
          assert all[i] in all;
          return false;
        }
      }
      SetAllKeeps(s, all);
      vals := all;
      var i := 0;
      while i < |undos|
        invariant 0 <= i <= |undos| == |s.undos| && vals == all && pending == s.pending
        invariant forall k :: 0 <= k < i ==> undos[k] == s.undos[k].(adj := seq(|s.undos[k].adj|, n => 0))
        invariant forall k :: i <= k < |undos| ==> undos[k] == s.undos[k]
      {
        undos := undos[i := undos[i].(adj := seq(|undos[i].adj|, n => 0))];
        i := i + 1;
      }
      assert undos == Zeroed(s.undos);
      UpdateQueue();
      return true;
    }

    /** SETVAL: false stands for -ERANGE. */
    method SetValue(n: nat, val: int) returns (ok: bool)
      requires Inv(Abs()) && n < |vals|
      modifies this
      ensures Inv(Abs()) && ok == (0 <= val <= SEMVMX)
      ensures Inv(SetVal(old(Abs()), n, Clamp(val)))
      ensures Abs() == if ok then Scan(SetVal(old(Abs()), n, val), 0).state else old(Abs())
    {
      ghost var s := Abs();
      SetValKeeps(s, n, Clamp(val));
      if val > SEMVMX || val < 0 {
        return false;
      }
      forall i | 0 <= i < |undos| ensures |undos[i].adj| == |vals| { assert undos[i] in undos; }
      var i := 0;
      while i < |undos|
        invariant 0 <= i <= |undos| == |s.undos| && vals == s.vals && pending == s.pending
        invariant forall k :: 0 <= k < i ==> undos[k] == s.undos[k].(adj := s.undos[k].adj[n := 0])
        invariant forall k :: i <= k < |undos| ==> undos[k] == s.undos[k]
      {
        undos := undos[i := undos[i].(adj := undos[i].adj[n := 0])];
        i := i + 1;
      }
      vals := vals[n := val];
      assert undos == ZeroAt(s.undos, n);
      UpdateQueue();
      return true;
    }
  }
}
