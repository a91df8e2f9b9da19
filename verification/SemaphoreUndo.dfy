/** What SEM_UNDO is for: a value plus the adjustments registered for it is conserved, so that a set
    is as it was once the processes that used it are gone. */
module SemaphoreUndo {
  import opened Semaphores
  import opened SemaphoreSet

  function SumAdj(undos: seq<Undo>, n: nat): int {
    if undos == [] then 0
    else (if n < |undos[0].adj| then undos[0].adj[n] else 0) + SumAdj(undos[1..], n)
  }

  /** A value together with all adjustments registered for it. */
  function Total(s: State, n: nat): int
    requires n < |s.vals|
  {
    s.vals[n] + SumAdj(s.undos, n)
  }

  /** The operations on n without SEM_UNDO. */
  function Plain(ops: seq<Op>, n: nat): int {
    Sum(ops, n, false) - Sum(ops, n, true)
  }

  function PlainLog(log: seq<Entry>, n: nat): int {
    if log == [] then 0 else Plain(log[0].ops, n) + PlainLog(log[1..], n)
  }

  lemma {:induction false} SumAdjAppend(a: seq<Undo>, b: seq<Undo>, n: nat)
    ensures SumAdj(a + b, n) == SumAdj(a, n) + SumAdj(b, n)
  {
    if a == [] {
      assert a + b == b;
    } else {
      assert (a + b)[1..] == a[1..] + b;
      SumAdjAppend(a[1..], b, n);
    }
  }

  lemma SumAdjAt(undos: seq<Undo>, u: nat, n: nat)
    requires u < |undos| && n < |undos[u].adj|
    ensures SumAdj(undos, n) == SumAdj(undos[..u], n) + undos[u].adj[n] + SumAdj(undos[u + 1..], n)
  {
    assert undos == undos[..u] + ([undos[u]] + undos[u + 1..]);
    SumAdjAppend(undos[..u], [undos[u]] + undos[u + 1..], n);
    SumAdjAppend([undos[u]], undos[u + 1..], n);
    assert SumAdj([undos[u]], n) == undos[u].adj[n] + SumAdj([], n);
  }

  lemma SumAdjUpdate(undos: seq<Undo>, u: nat, adj: seq<int>, n: nat)
    requires u < |undos| && n < |undos[u].adj| == |adj|
    ensures SumAdj(undos[u := undos[u].(adj := adj)], n) == SumAdj(undos, n) - undos[u].adj[n] + adj[n]
  {
    var undos' := undos[u := undos[u].(adj := adj)];
    SumAdjAt(undos, u, n);
    SumAdjAt(undos', u, n);
    assert undos'[..u] == undos[..u] && undos'[u + 1..] == undos[u + 1..];
  }

  lemma {:induction false} NoUndoSum(ops: seq<Op>, n: nat)
    requires forall o :: o in ops ==> !o.undo
    ensures Sum(ops, n, true) == 0
  {
    if ops != [] {
      assert ops[0] in ops;
      NoUndoSum(ops[1..], n);
    }
  }

  /** A semop changes the total only by its operations without SEM_UNDO. */
  lemma PerformTotal(s: State, proc: nat, ops: seq<Op>, n: nat)
    requires UndosOk(s.undos, |s.vals|) && ArrayOk(s, proc, ops) && n < |s.vals|
    ensures |Perform(s, proc, ops).vals| == |s.vals|
    ensures Total(Perform(s, proc, ops), n) == Total(s, n) + Plain(ops, n)
  {
    ArrayFits(s, proc, ops);
    var c, u := CoreOf(s, proc), Find(s.undos, proc);
    FinalSums(c, ops, n);
    if u >= 0 {
      assert s.undos[u] in s.undos;
      SumAdjUpdate(s.undos, u, Final(c, ops).adj, n);
    } else {
      NoUndoSum(ops, n);
    }
  }

  lemma {:induction false} PerformsTotal(s: State, log: seq<Entry>, vals: seq<int>, undos: seq<Undo>, n: nat)
    requires Performs(s, log, vals, undos) && n < |s.vals|
    ensures |vals| == |s.vals| && vals[n] + SumAdj(undos, n) == Total(s, n) + PlainLog(log, n)
    decreases |log|
  {
    if log != [] {
      var e := log[0];
      PerformTotal(s, e.proc, e.ops, n);
      PerformsTotal(Perform(s, e.proc, e.ops), log[1..], vals, undos, n);
    }
  }

  /** update_queue changes the total only by the operations without SEM_UNDO of the arrays it carries out. */
  lemma ScanTotal(s: State, n: nat)
    requires Inv(s) && n < |s.vals|
    ensures |Scan(s, 0).state.vals| == |s.vals|
    ensures Total(Scan(s, 0).state, n) == Total(s, n) + PlainLog(Scan(s, 0).log, n)
  {
    ScanPerforms(s, 0);
    PerformsTotal(s, Scan(s, 0).log, Scan(s, 0).state.vals, Scan(s, 0).state.undos, n);
  }

  lemma AllocTotal(s: State, proc: nat, n: nat)
    requires n < |s.vals|
    ensures Total(AllocUndo(s, proc), n) == Total(s, n)
  {
    var z := Undo(proc, seq(|s.vals|, i => 0));
    assert ([z] + s.undos)[1..] == s.undos;
  }

  lemma {:induction false} SumAdjZero(undos: seq<Undo>, n: nat)
    requires forall i :: 0 <= i < |undos| && n < |undos[i].adj| ==> undos[i].adj[n] == 0
    ensures SumAdj(undos, n) == 0
  {
    if undos != [] {
      SumAdjZero(undos[1..], n);
    }
  }

  lemma {:induction false} SumAdjSame(undos: seq<Undo>, undos': seq<Undo>, n: nat)
    requires |undos| == |undos'|
    requires forall i :: 0 <= i < |undos| ==>
               |undos'[i].adj| == |undos[i].adj| && (n < |undos[i].adj| ==> undos'[i].adj[n] == undos[i].adj[n])
    ensures SumAdj(undos', n) == SumAdj(undos, n)
  {
    if undos != [] {
      SumAdjSame(undos[1..], undos'[1..], n);
    }
  }

  /** After SETVAL nothing is owed to that semaphore and everything as before to the others; after SETALL nothing to
      any. */
  lemma SetTotals(s: State, n: nat, val: int, all: seq<int>, m: nat)
    requires n < |s.vals| && m < |s.vals| == |all|
    ensures SetVal(s, n, val).vals[m] == (if m == n then val else s.vals[m])
    ensures Total(SetVal(s, n, val), m) == if m == n then val else Total(s, m)
    ensures SetAll(s, all).vals[m] == Total(SetAll(s, all), m) == all[m]
  {
    SumAdjZero(SetAll(s, all).undos, m);
    if m == n {
      SumAdjZero(SetVal(s, n, val).undos, m);
    } else {
      SumAdjSame(s.undos, SetVal(s, n, val).undos, m);
    }
  }

  /** The value that an exit would give to n before it is clamped. */
  function Due(s: State, proc: nat, n: nat): int
    requires UndosOk(s.undos, |s.vals|) && n < |s.vals|
  {
    var u := Find(s.undos, proc);
    if u < 0 then s.vals[n]
    else
      assert s.undos[u] in s.undos;
      s.vals[n] + s.undos[u].adj[n]
  }

  /** An exit keeps the total exactly when the clamp does not fire. */
  lemma ExitTotal(s: State, proc: nat, n: nat)
    requires Inv(s) && n < |s.vals|
    ensures |Exit(s, proc).vals| == |s.vals|
    ensures Exit(s, proc).vals[n] == if Due(s, proc, n) < 0 then 0 else Due(s, proc, n)
    ensures Total(Exit(s, proc), n) == Total(s, n) <==> Due(s, proc, n) >= 0
    ensures Exit(s, proc).vals[n] <= SEMVMX <==> Due(s, proc, n) <= SEMVMX
  {
    var u, t := Find(s.undos, proc), Exit(s, proc);
    if u >= 0 {
      assert s.undos[u] in s.undos;
      SumAdjAt(s.undos, u, n);
      SumAdjAppend(s.undos[..u], s.undos[u + 1..], n);
    }
  }

  // ---------------------------------------------------------------- runs with SEM_UNDO only

  predicate OnlyUndo(ops: seq<Op>) {
    forall o :: o in ops ==> o.undo || o.op == 0
  }

  lemma {:induction false} OnlyUndoPlain(ops: seq<Op>, n: nat)
    requires OnlyUndo(ops)
    ensures Plain(ops, n) == 0
  {
    if ops != [] {
      assert ops[0] in ops && forall o :: o in ops[1..] ==> o in ops;
      OnlyUndoPlain(ops[1..], n);
    }
  }

  lemma {:induction false} OnlyUndoLog(log: seq<Entry>, n: nat)
    requires forall e :: e in log ==> OnlyUndo(e.ops)
    ensures PlainLog(log, n) == 0
  {
    if log != [] {
      assert log[0] in log;
      OnlyUndoPlain(log[0].ops, n);
      OnlyUndoLog(log[1..], n);
    }
  }

  predicate QueueOnlyUndo(s: State) {
    forall e :: e in s.pending ==> OnlyUndo(e.ops)
  }

  /** An exit that is not clamped. */
  ghost predicate ExactExit(s: State, s': State, proc: nat) {
    ExitStep(s, s', proc) && forall n :: 0 <= n < |s.vals| ==> Due(s, proc, n) >= 0
  }

  /** A step in which values move only by operations with SEM_UNDO and by exits that are not clamped. */
  ghost predicate UndoNext(s: State, s': State) {
    || s' == s
    || (exists proc, ops :: PerformStep(s, s', proc, ops) && OnlyUndo(ops))
    || ScanStep(s, s')
    || (exists e: Entry, front :: ArrayOk(s, e.proc, e.ops) && OnlyUndo(e.ops) && s' == Enqueue(s, e, front))
    || (exists i :: 0 <= i < |s.pending| && s' == Remove(s, i))
    || (exists i, b :: 0 <= i < |s.pending| && s' == Mark(s, i, b))
    || (exists proc :: Find(s.undos, proc) < 0 && s' == AllocUndo(s, proc))
    || (exists proc :: ExactExit(s, s', proc))
  }

  ghost predicate Good(s: State, start: State) {
    && Inv(s) && QueueOnlyUndo(s) && |s.vals| == |start.vals|
    && forall n :: 0 <= n < |s.vals| ==> Total(s, n) == Total(start, n)
  }

  lemma {:induction false} ScanQueue(s: State, i: nat)
    requires Inv(s) && QueueOnlyUndo(s) && i <= |s.pending|
    ensures QueueOnlyUndo(Scan(s, i).state)
    decreases |s.pending| - i
  {
    hide Ready, Perform, Decide, ArrayOk;
    if i < |s.pending| {
      var e := s.pending[i];
      assert e in s.pending;
      assert ArrayOk(s, e.proc, e.ops) && UndosOk(s.undos, |s.vals|) by { PendingOk(s, e); }
      match FateOf(s, e)
      case Stays => ScanQueue(s, i + 1);
      case Wakes =>
        var t := s.pending[i := e.(woken := true)];
        assert forall x :: x in t ==> x == e.(woken := true) || x in s.pending;
      case Leaves(r) =>
        DequeueKeeps(s, i, r);
        var t := Dequeue(s, i, r);
        assert forall x :: x in t.pending ==> x in s.pending;
        ScanQueue(t, i);
    }
  }

  lemma PerformGood(s: State, start: State, proc: nat, ops: seq<Op>)
    requires Good(s, start) && ArrayOk(s, proc, ops) && OnlyUndo(ops) && Decide(s, proc, ops) == Done
    ensures Good(Perform(s, proc, ops), start)
  {
    var t := Perform(s, proc, ops);
    PerformKeeps(s, proc, ops);
    forall n | 0 <= n < |t.vals| ensures Total(t, n) == Total(start, n) {
      PerformTotal(s, proc, ops, n);
      OnlyUndoPlain(ops, n);
    }
  }

  lemma ScanGood(s: State, start: State)
    requires Good(s, start)
    ensures Good(Scan(s, 0).state, start)
  {
    hide Scan, Total, Ready, Performs;
    var t := Scan(s, 0).state;
    ScanPerforms(s, 0);
    ScanQueue(s, 0);
    ScanSize(s, 0);
    assert s.pending[0..] == s.pending;
    forall n | 0 <= n < |t.vals| ensures Total(t, n) == Total(start, n) {
      ScanTotal(s, n);
      OnlyUndoLog(Scan(s, 0).log, n);
    }
  }

  lemma {:induction false} ScanSize(s: State, i: nat)
    requires Inv(s) && i <= |s.pending|
    ensures |Scan(s, i).state.vals| == |s.vals|
    decreases |s.pending| - i
  {
    hide Ready, Decide, ArrayOk, Perform;
    if i < |s.pending| {
      var e := s.pending[i];
      assert e in s.pending;
      assert ArrayOk(s, e.proc, e.ops) && UndosOk(s.undos, |s.vals|) by { PendingOk(s, e); }
      match FateOf(s, e)
      case Stays => ScanSize(s, i + 1);
      case Wakes =>
      case Leaves(r) =>
        DequeueKeeps(s, i, r);
        if r == Done { PerformKeeps(s, e.proc, e.ops); }
        ScanSize(Dequeue(s, i, r), i);
    }
  }

  lemma ExitGood(s: State, start: State, proc: nat)
    requires Good(s, start) && forall n :: 0 <= n < |s.vals| ==> Due(s, proc, n) >= 0
    ensures Good(Exit(s, proc), start)
  {
    var t := Exit(s, proc);
    ExitKeeps(s, proc);
    WithoutProcIn(s.pending, proc);
    forall n | 0 <= n < |t.vals| ensures Total(t, n) == Total(start, n) {
      ExitTotal(s, proc, n);
    }
  }

  lemma QueueGood(s: State, t: State, start: State)
    requires Good(s, start) && t.vals == s.vals && t.undos == s.undos && Inv(t) && QueueOnlyUndo(t)
    ensures Good(t, start)
  {
  }

  lemma EnqueueGood(s: State, start: State, e: Entry, front: bool)
    requires Good(s, start) && ArrayOk(s, e.proc, e.ops) && OnlyUndo(e.ops)
    ensures Good(Enqueue(s, e, front), start)
  {
    EnqueueKeeps(s, e, front);
    QueueGood(s, Enqueue(s, e, front), start);
  }

  lemma RemoveGood(s: State, start: State, i: nat)
    requires Good(s, start) && i < |s.pending|
    ensures Good(Remove(s, i), start)
  {
    DropKeeps(s, i);
    assert forall e :: e in Remove(s, i).pending ==> e in s.pending;
    QueueGood(s, Remove(s, i), start);
  }

  lemma MarkGood(s: State, start: State, i: nat, b: bool)
    requires Good(s, start) && i < |s.pending|
    ensures Good(Mark(s, i, b), start)
  {
    var t := Mark(s, i, b);
    MarkKeeps(s, i, b);
    forall e | e in t.pending ensures OnlyUndo(e.ops) {
      var j :| 0 <= j < |t.pending| && t.pending[j] == e;
      assert s.pending[j] in s.pending;
    }
    QueueGood(s, t, start);
  }

  lemma AllocGood(s: State, start: State, proc: nat)
    requires Good(s, start) && Find(s.undos, proc) < 0
    ensures Good(AllocUndo(s, proc), start)
  {
    AllocKeeps(s, proc);
    forall n | 0 <= n < |s.vals| ensures Total(AllocUndo(s, proc), n) == Total(start, n) {
      AllocTotal(s, proc, n);
    }
  }

  lemma UndoNextGood(s: State, s': State, start: State)
    requires Good(s, start) && UndoNext(s, s')
    ensures Good(s', start)
  {
    hide Good, Ready, Perform, Decide, ArrayOk, UndosOk, Scan, Exit, AllocUndo, Find, Due, Total, OnlyUndo, Enqueue,
      Remove, Mark;
    GoodInv(s, start);
    if s' == s {
    } else if proc: nat, ops :| PerformStep(s, s', proc, ops) && OnlyUndo(ops) {
      PerformGood(s, start, proc, ops);
    } else if ScanStep(s, s') {
      ScanGood(s, start);
    } else if e: Entry, front :| ArrayOk(s, e.proc, e.ops) && OnlyUndo(e.ops) && s' == Enqueue(s, e, front) {
      EnqueueGood(s, start, e, front);
    } else if i :| 0 <= i < |s.pending| && s' == Remove(s, i) {
      RemoveGood(s, start, i);
    } else if i, b :| 0 <= i < |s.pending| && s' == Mark(s, i, b) {
      MarkGood(s, start, i, b);
    } else if proc: nat :| Find(s.undos, proc) < 0 && s' == AllocUndo(s, proc) {
      AllocGood(s, start, proc);
    } else {
      var proc: nat :| ExactExit(s, s', proc);
      ExitGood(s, start, proc);
    }
  }

  lemma GoodInv(s: State, start: State)
    requires Good(s, start)
    ensures Inv(s)
  {
  }

  ghost predicate UndoRun(run: seq<State>) {
    && run != [] && Inv(run[0]) && run[0].undos == [] && run[0].pending == []
    && forall i :: 0 <= i < |run| - 1 ==> UndoNext(run[i], run[i + 1])
  }

  lemma {:induction false} UndoRunGood(run: seq<State>, i: nat)
    requires UndoRun(run) && i < |run|
    ensures Good(run[i], run[0])
  {
    if i > 0 {
      UndoRunGood(run, i - 1);
      assert UndoNext(run[i - 1], run[i - 1 + 1]);
      UndoNextGood(run[i - 1], run[i], run[0]);
    }
  }

  /** In every run with SEM_UNDO operations only and no clamped exit: whenever no process has a record any
      more, every semaphore has the value it started with. */
  lemma UndoRunRestores(run: seq<State>, i: nat)
    requires UndoRun(run) && i < |run| && run[i].undos == []
    ensures run[i].vals == run[0].vals
  {
    UndoRunGood(run, i);
    forall n | 0 <= n < |run[0].vals| ensures run[i].vals[n] == run[0].vals[n] {
      assert Total(run[i], n) == Total(run[0], n);
    }
  }

  // ---------------------------------------------------------------- all runs

  ghost predicate Run(run: seq<State>) {
    && run != [] && Inv(run[0])
    && forall i :: 0 <= i < |run| - 1 ==> Next(run[i], run[i + 1])
  }

  /** In every run no value is ever negative, and every adjustment stays a short. */
  lemma {:induction false} RunNonNegative(run: seq<State>, i: nat)
    requires Run(run) && i < |run|
    ensures Inv(run[i])
    ensures forall n :: 0 <= n < |run[i].vals| ==> run[i].vals[n] >= 0
    ensures forall u, n :: u in run[i].undos && 0 <= n < |u.adj| ==> -SEMAEM - 1 <= u.adj[n] <= SEMAEM
  {
    if i > 0 {
      RunNonNegative(run, i - 1);
      assert Next(run[i - 1], run[i - 1 + 1]);
      NextKeeps(run[i - 1], run[i]);
    }
  }

  // ---------------------------------------------------------------- the maximum

  predicate Bounded(s: State) {
    forall n :: 0 <= n < |s.vals| ==> s.vals[n] <= SEMVMX
  }

  /** update_queue keeps the values within the maximum. */
  lemma {:induction false} ScanBounded(s: State, i: nat)
    requires Ready(s) && i <= |s.pending| && Bounded(s)
    ensures Bounded(Scan(s, i).state)
    decreases |s.pending| - i
  {
    hide Ready, Decide, ArrayOk, Perform;
    if i < |s.pending| {
      var e := s.pending[i];
      assert e in s.pending;
      assert ArrayOk(s, e.proc, e.ops) && UndosOk(s.undos, |s.vals|) by { PendingOk(s, e); }
      match FateOf(s, e)
      case Stays => ScanBounded(s, i + 1);
      case Wakes =>
      case Leaves(r) =>
        DequeueKeeps(s, i, r);
        if r == Done { PerformRange(s, e.proc, e.ops); }
        ScanBounded(Dequeue(s, i, r), i);
    }
  }

  /** The step is an exit that puts a value above the maximum. */
  ghost predicate Overflows(s: State, s': State) {
    exists proc: nat, n: nat :: OverflowAt(s, s', proc, n)
  }

  ghost predicate OverflowAt(s: State, s': State, proc: nat, n: nat) {
    ExitStep(s, s', proc) && n < |s.vals| && Due(s, proc, n) > SEMVMX
  }

  lemma ExitBounded(s: State, s': State, proc: nat)
    requires ExitStep(s, s', proc) && Bounded(s)
    ensures Bounded(s') <==> forall n :: 0 <= n < |s.vals| ==> Due(s, proc, n) <= SEMVMX
  {
    var u := Find(s.undos, proc);
    if u >= 0 {
      assert s.undos[u] in s.undos;
    }
    assert |s'.vals| == |s.vals| && forall n :: 0 <= n < |s.vals| ==>
        (s'.vals[n] <= SEMVMX <==> Due(s, proc, n) <= SEMVMX);
  }

  /** Every other step keeps the values within the maximum; an exit does exactly when no value due is above it. */
  lemma NextBounded(s: State, s': State)
    requires Bounded(s) && Next(s, s')
    ensures Bounded(s') <==> !Overflows(s, s')
  {
    hide Bounded, PerformStep, ScanStep, SetValStep, SetAllStep, UndosOk, Exit, Due, Find, ArrayOk;
    if proc: nat, n: nat :| OverflowAt(s, s', proc, n) {
      ExitBounded(s, s', proc);
    } else if s' == s {
    } else if proc: nat, ops :| PerformStep(s, s', proc, ops) {
      PerformBounded(s, s', proc, ops);
    } else if ScanStep(s, s') {
      ScanStepBounded(s, s');
    } else if proc: nat :| ExitStep(s, s', proc) {
      forall n | 0 <= n < |s.vals| ensures Due(s, proc, n) <= SEMVMX {
        assert !OverflowAt(s, s', proc, n);
      }
      ExitBounded(s, s', proc);
    } else {
      OthersBounded(s, s');
    }
  }

  lemma PerformBounded(s: State, s': State, proc: nat, ops: seq<Op>)
    requires PerformStep(s, s', proc, ops) && Bounded(s)
    ensures Bounded(s')
  {
    PerformRange(s, proc, ops);
  }

  lemma ScanStepBounded(s: State, s': State)
    requires ScanStep(s, s') && Bounded(s)
    ensures Bounded(s')
  {
    ScanBounded(s, 0);
  }

  /** The steps that move no value, SETVAL and SETALL. */
  lemma OthersBounded(s: State, s': State)
    requires Bounded(s)
    requires || s'.vals == s.vals || (exists n, val :: SetValStep(s, s', n, val)) ||
             (exists vals :: SetAllStep(s, s', vals))
    ensures Bounded(s')
  {
    if vals :| SetAllStep(s, s', vals) {
      forall n | 0 <= n < |s'.vals| ensures s'.vals[n] <= SEMVMX {
        assert s'.vals[n] in vals;
      }
    }
  }

  /** In every run: the values stay within the maximum up to some state exactly when no exit before it puts one
      above. */
  lemma {:induction false} RunBounded(run: seq<State>, k: nat)
    requires Run(run) && k < |run| && Bounded(run[0])
    ensures (forall i :: 0 <= i <= k ==> Bounded(run[i])) <==>
            (forall i :: 0 <= i < k ==> !Overflows(run[i], run[i + 1]))
  {
    hide Bounded, Overflows, Next;
    if k > 0 {
      RunBounded(run, k - 1);
      assert Next(run[k - 1], run[k - 1 + 1]);
      if Bounded(run[k - 1]) {
        NextBounded(run[k - 1], run[k]);
      }
      assert !Overflows(run[k - 1], run[k - 1 + 1]) || Overflows(run[k - 1], run[k - 1 + 1]);
    }
  }

  // ---------------------------------------------------------------- where it fails

  const RAISE := [Op(0, 5, true, false)]
  const LOWER := [Op(0, -5, true, false)]
  const TAKE := [Op(0, -1, true, false)]
  const GIVE := [Op(0, 1, false, false)]

  /** A set of one semaphore and the adjustments processes 1 and 2 have registered for it. */
  function One(val: int, adj1: int, adj2: int): State {
    State([val], [Undo(2, [adj2]), Undo(1, [adj1])], [])
  }

  function Single(val: int): State {
    State([val], [], [])
  }

  /** Process 1 gets a record, and then process 2. */
  lemma Records(val: int)
    requires val >= 0
    ensures var s0, s1, s2 := Single(val), State([val], [Undo(1, [0])], []), One(val, 0, 0);
            Inv(s0) && UndoNext(s0, s1) && UndoNext(s1, s2) && Next(s0, s1) && Next(s1, s2)
  {
    var s0, s1, s2 := Single(val), State([val], [Undo(1, [0])], []), One(val, 0, 0);
    assert AllocUndo(s0, 1).undos[0].adj == [0] && AllocUndo(s1, 2).undos[0].adj == [0];
    assert AllocUndo(s0, 1) == s1 && AllocUndo(s1, 2) == s2;
    assert Find(s0.undos, 1) < 0 && Find(s1.undos, 2) < 0;
  }

  lemma FindBoth(val: int, adj1: int, adj2: int)
    ensures Find(One(val, adj1, adj2).undos, 2) == 0 && Find(One(val, adj1, adj2).undos, 1) == 1
  {
    var undos := One(val, adj1, adj2).undos;
    assert undos[1..] == [Undo(1, [adj1])];
  }

  /** One operation of process 1 or 2 that is not stopped. */
  lemma OneOp(val: int, adj1: int, adj2: int, proc: nat, o: Op)
    requires (proc == 1 || proc == 2) && o.num == 0 && AdjInRange([adj1]) && AdjInRange([adj2])
    requires CheckOp(Core([val], [if proc == 1 then adj1 else adj2]), o) == Fine
    ensures var by_ := if o.undo then o.op else 0;
            var t := if proc == 1 then One(val + o.op, adj1 - by_, adj2) else One(val + o.op, adj1, adj2 - by_);
            PerformStep(One(val, adj1, adj2), t, proc, [o])
  {
    var s, c := One(val, adj1, adj2), Core([val], [if proc == 1 then adj1 else adj2]);
    FindBoth(val, adj1, adj2);
    assert UndosOk(s.undos, 1);
    hide Find;
    assert ArrayOk(s, proc, [o]) && CoreOf(s, proc) == c && OpsFit(c, [o]);
    assert [o][1..] == [];
    assert Final(Bump(c, o), []) == Bump(c, o) && Verdict(Bump(c, o), []) == Done;
    assert Final(c, [o]) == Bump(c, o) && Verdict(c, [o]) == Done;
    var by_ := if o.undo then o.op else 0;
    assert Bump(c, o).vals == [val + o.op] && Bump(c, o).adj == [(if proc == 1 then adj1 else adj2) - by_];
    var t := if proc == 1 then One(val + o.op, adj1 - by_, adj2) else One(val + o.op, adj1, adj2 - by_);
    assert WithCore(s, proc, Bump(c, o)).undos == t.undos;
  }

  /** The clamp can fire although nobody did anything but SEM_UNDO operations: one process raised a value,
      another took it down, and now the first one exits. */
  lemma ClampExample()
    ensures exists run, proc :: UndoRun(run) && ClampsAtEnd(run, proc)
  {
    hide UndoNext, Perform, Decide, Inv, Find, Due;
    Records(0);
    OneOp(0, 0, 0, 1, RAISE[0]);
    OneOp(5, -5, 0, 2, LOWER[0]);
    OnlyUndoStep(One(0, 0, 0), One(5, -5, 0), 1, RAISE);
    OnlyUndoStep(One(5, -5, 0), One(0, -5, 5), 2, LOWER);
    var run := [Single(0), State([0], [Undo(1, [0])], []), One(0, 0, 0), One(5, -5, 0), One(0, -5, 5)];
    DueOne(0, -5, 5);
    assert UndoRun(run) && ClampsAtEnd(run, 1);
  }

  lemma OnlyUndoStep(s: State, s': State, proc: nat, ops: seq<Op>)
    requires PerformStep(s, s', proc, ops) && OnlyUndo(ops)
    ensures UndoNext(s, s')
  {
  }

  /** At the end of the run an exit would give a semaphore a value below zero. */
  ghost predicate ClampsAtEnd(run: seq<State>, proc: nat) {
    && run != [] && var s := run[|run| - 1];
    && UndosOk(s.undos, |s.vals|) && |s.vals| > 0 && Due(s, proc, 0) < 0
  }

  lemma DueOne(val: int, adj1: int, adj2: int)
    requires AdjInRange([adj1]) && AdjInRange([adj2])
    ensures UndosOk(One(val, adj1, adj2).undos, 1) && Due(One(val, adj1, adj2), 1, 0) == val + adj1
  {
    FindBoth(val, adj1, adj2);
  }

  /** A run without records and within the maximum at first, whose step k is an exit that puts a value above. */
  ghost predicate OverflowRun(run: seq<State>, k: nat) {
    Run(run) && run[0].undos == [] && Bounded(run[0]) && k + 1 < |run| && Overflows(run[k], run[k + 1])
  }

  /** An exit may also leave a value above the maximum: somebody took one with SEM_UNDO, another one gave one without,
      and now the first one exits. */
  lemma AboveMaximumExample()
    ensures exists run, k :: OverflowRun(run, k)
  {
    hide Next, Perform, Decide, Inv, Find, Due, UndoNext;
    Records(SEMVMX);
    OneOp(SEMVMX, 0, 0, 1, TAKE[0]);
    OneOp(SEMVMX - 1, 1, 0, 2, GIVE[0]);
    var s0, s1, s2, s3, s4 := Single(SEMVMX), State([SEMVMX], [Undo(1, [0])], []), One(SEMVMX, 0, 0),
        One(SEMVMX - 1, 1, 0), One(SEMVMX, 1, 0);
    DueOne(SEMVMX, 1, 0);
    var s5 := Exit(s4, 1);
    StepIsNext(s2, s3, 1, TAKE);
    StepIsNext(s3, s4, 2, GIVE);
    ExitIsNext(s4, s5, 1);
    var run := [s0, s1, s2, s3, s4, s5];
    assert OverflowAt(s4, s5, 1, 0);
    assert OverflowRun(run, 4);
  }

  lemma StepIsNext(s: State, s': State, proc: nat, ops: seq<Op>)
    requires PerformStep(s, s', proc, ops)
    ensures Next(s, s')
  {
  }

  lemma ExitIsNext(s: State, s': State, proc: nat)
    requires ExitStep(s, s', proc)
    ensures Next(s, s')
  {
  }
}
