/** The pass of update_queue over the sleeping arrays of a semaphore set (ipc/sem.c): it takes nothing itself, and it
    does not come back to those it has passed. */
module SemaphoreQueue {
  import opened Semaphores
  import opened SemaphoreSet
  import opened SemaphoreUndo

  // ---------------------------------------------------------------- who takes, takes itself

  predicate TakersKnown(s: State) {
    forall e :: e in s.pending ==> KnownTaker(e)
  }

  lemma {:induction false} SumGives(ops: seq<Op>, n: nat)
    requires forall o :: o in ops ==> o.op >= 0
    ensures Sum(ops, n, false) >= 0
  {
    if ops != [] {
      assert ops[0] in ops;
      SumGives(ops[1..], n);
    }
  }

  lemma {:induction false} PerformsRaises(s: State, log: seq<Entry>, vals: seq<int>, undos: seq<Undo>, n: nat)
    requires Performs(s, log, vals, undos) && n < |s.vals|
    requires forall e, o :: e in log && o in e.ops ==> o.op >= 0
    ensures |vals| == |s.vals| && vals[n] >= s.vals[n]
    decreases |log|
  {
    if log != [] {
      var e := log[0];
      assert e in log;
      ArrayFits(s, e.proc, e.ops);
      FinalSums(CoreOf(s, e.proc), e.ops, n);
      SumGives(e.ops, n);
      PerformsRaises(Perform(s, e.proc, e.ops), log[1..], vals, undos, n);
    }
  }

  /** update_queue takes nothing: whoever wants to take is woken to do it. */
  lemma ScanRaises(s: State, n: nat)
    requires Inv(s) && TakersKnown(s) && n < |s.vals|
    ensures |Scan(s, 0).state.vals| == |s.vals| && Scan(s, 0).state.vals[n] >= s.vals[n]
  {
    ScanPerforms(s, 0);
    var p := Scan(s, 0);
    hide Scan, Ready, Performs;
    forall e, o | e in p.log && o in e.ops ensures o.op >= 0 {
      assert e in s.pending[0..];
      assert e in s.pending;
    }
    PerformsRaises(s, p.log, p.state.vals, p.state.undos, n);
  }

  lemma {:induction false} ScanTakers(s: State, i: nat)
    requires Inv(s) && TakersKnown(s) && i <= |s.pending|
    ensures TakersKnown(Scan(s, i).state)
    decreases |s.pending| - i
  {
    hide Ready, Perform, Decide, ArrayOk;
    if i < |s.pending| {
      var e := s.pending[i];
      assert e in s.pending;
      assert ArrayOk(s, e.proc, e.ops) && UndosOk(s.undos, |s.vals|) by { PendingOk(s, e); }
      match FateOf(s, e)
      case Stays => ScanTakers(s, i + 1);
      case Wakes =>
        var t := s.pending[i := e.(woken := true)];
        assert forall x :: x in t ==> x == e.(woken := true) || x in s.pending;
      case Leaves(r) =>
        DequeueKeeps(s, i, r);
        var t := Dequeue(s, i, r);
        assert forall x :: x in t.pending ==> x in s.pending;
        ScanTakers(t, i);
    }
  }

  lemma NextTakers(s: State, s': State)
    requires Inv(s) && TakersKnown(s) && Next(s, s')
    ensures TakersKnown(s')
  {
    if ScanStep(s, s') {
      ScanTakers(s, 0);
    } else if proc: nat :| ExitStep(s, s', proc) {
      hide KnownTaker, Scan;
      WithoutProcIn(s.pending, proc);
    } else {
      hide Scan, Exit, Decide, ArrayOk, KnownTaker, UndosOk;
      TakersStay(s, s');
    }
  }

  lemma TakersStay(s: State, s': State)
    requires TakersKnown(s) && Next(s, s') && !ScanStep(s, s') && !exists proc :: ExitStep(s, s', proc)
    ensures TakersKnown(s')
  {
    hide Ready, Scan, Decide, ArrayOk, UndosOk, ExitStep, ScanStep, Find, Final, CoreOf;
    if i, b :| 0 <= i < |s.pending| && s' == Mark(s, i, b) {
      forall e | e in s'.pending ensures KnownTaker(e) {
        var j :| 0 <= j < |s'.pending| && s'.pending[j] == e;
        assert s.pending[j] in s.pending;
      }
    } else {
      assert forall e :: e in s'.pending ==> e in s.pending || KnownTaker(e);
    }
  }

  lemma {:induction false} RunTakersKnown(run: seq<State>, i: nat)
    requires Run(run) && i < |run| && run[0].pending == []
    ensures TakersKnown(run[i])
  {
    hide Next;
    if i > 0 {
      RunTakersKnown(run, i - 1);
      RunNonNegative(run, i - 1);
      assert Next(run[i - 1], run[i - 1 + 1]);
      NextTakers(run[i - 1], run[i]);
    }
  }

  /** In every run no pass over the queue lowers a value. */
  lemma RunScanRaises(run: seq<State>, i: nat, n: nat)
    requires Run(run) && i + 1 < |run| && run[0].pending == [] && ScanStep(run[i], run[i + 1]) && n < |run[i].vals|
    ensures n < |run[i + 1].vals| && run[i + 1].vals[n] >= run[i].vals[n]
  {
    RunTakersKnown(run, i);
    RunNonNegative(run, i);
    hide Run, Scan, Ready;
    ScanRaises(run[i], n);
  }

  // ---------------------------------------------------------------- who is passed by

  const WANTS := [Op(0, -1, false, false)]
  const GIVES := [Op(1, 0, false, false), Op(0, 1, false, false)]
  const FREES := [Op(1, -1, false, false)]

  const TAKER := Entry(1, WANTS, true, false)
  const GIVER := Entry(2, GIVES, false, false)

  /** Two semaphores without undo records. */
  function Two(a: int, b: int, pending: seq<Entry>): State {
    State([a, b], [], pending)
  }

  lemma TwoOk(a: int, b: int, pending: seq<Entry>)
    requires a >= 0 && b >= 0 && forall e :: e in pending ==> e == TAKER || e == GIVER
    ensures Inv(Two(a, b, pending))
    ensures forall ops, proc :: ops == WANTS || ops == GIVES || ops == FREES ==> ArrayOk(Two(a, b, pending), proc, ops)
  {
  }

  /** What an array does to two semaphores, if one or two operations go through. */
  lemma TwoDecide(a: int, b: int, pending: seq<Entry>, proc: nat)
    requires 0 <= a < SEMVMX && 0 <= b <= SEMVMX && forall e :: e in pending ==> e == TAKER || e == GIVER
    ensures var s := Two(a, b, pending);
            && UndosOk(s.undos, |s.vals|)
            && ArrayOk(s, proc, WANTS) && ArrayOk(s, proc, GIVES) && ArrayOk(s, proc, FREES)
            && Decide(s, proc, WANTS) == (if a > 0 then Done else MustSleep)
            && (b == 0 ==> Decide(s, proc, GIVES) == Done && Perform(s, proc, GIVES) == Two(a + 1, 0, pending))
            && (b > 0 ==> Decide(s, proc, FREES) == Done && Perform(s, proc, FREES) == Two(a, b - 1, pending))
  {
    var s := Two(a, b, pending);
    TwoOk(a, b, pending);
    var c := CoreOf(s, proc);
    ArrayFits(s, proc, WANTS);
    ArrayFits(s, proc, GIVES);
    ArrayFits(s, proc, FREES);
    assert c == Core([a, b], []);
    assert WANTS[1..] == [] && FREES[1..] == [] && GIVES[1..] == [Op(0, 1, false, false)];
    assert [Op(0, 1, false, false)][1..] == [];
    var c1 := Bump(c, GIVES[0]);
    if b == 0 {
      assert c1 == c;
      assert Bump(c1, Op(0, 1, false, false)) == Core([a + 1, 0], []);
    } else {
      assert Bump(c, FREES[0]) == Core([a, b - 1], []);
    }
  }

  /** After the pass an array that is not woken could go through. */
  ghost predicate Overlooks(s: State, s': State, j: nat) {
    && ScanStep(s, s') && j < |s'.pending| && !s'.pending[j].woken && UndosOk(s'.undos, |s'.vals|)
    && ArrayOk(s', s'.pending[j].proc, s'.pending[j].ops)
    && Decide(s', s'.pending[j].proc, s'.pending[j].ops) == Done
  }

  lemma PassesTaker()
    ensures Ready(Two(0, 0, [TAKER, GIVER])) && Scan(Two(0, 0, [TAKER, GIVER]), 0).state == Two(1, 0, [TAKER])
  {
    var s := Two(0, 0, [TAKER, GIVER]);
    TwoOk(0, 0, [TAKER, GIVER]);
    TwoDecide(0, 0, [TAKER, GIVER], 1);
    TwoDecide(0, 0, [TAKER, GIVER], 2);
    hide Decide, Perform, ArrayOk, UndosOk;
    assert s.pending[0] in s.pending && s.pending[1] in s.pending;
    assert FateOf(s, TAKER) == Stays && FateOf(s, GIVER) == Leaves(Done);
    DequeueKeeps(s, 1, Done);
    var t := Dequeue(s, 1, Done);
    assert Drop(s.pending, 1) == [TAKER];
    assert t == Two(1, 0, [TAKER]);
    assert Scan(t, 1).state == t;
    assert Scan(s, 1).state == t;
    assert Scan(s, 0) == Scan(s, 1);
  }

  /** A run at whose end the pass carries out an array that gives what one in front of it waits for; that one is not
      woken. */
  ghost predicate OverlookRun(run: seq<State>, j: nat) {
    Run(run) && run[0].pending == [] && |run| > 1 && Overlooks(run[|run| - 2], run[|run| - 1], j)
  }

  lemma OverlookedExample()
    ensures exists run, j :: OverlookRun(run, j)
  {
    hide Next, Inv, Overlooks;
    var s0, s1, s2 := Two(0, 1, []), Two(0, 1, [TAKER]), Two(0, 1, [TAKER, GIVER]);
    var s3, s4 := Two(0, 0, [TAKER, GIVER]), Two(1, 0, [TAKER]);
    TwoOk(0, 1, []);
    Queued();
    Freed();
    Overlooked();
    var run := [s0, s1, s2, s3, s4];
    assert OverlookRun(run, 0);
  }

  lemma Queued()
    ensures Next(Two(0, 1, []), Two(0, 1, [TAKER])) && Next(Two(0, 1, [TAKER]), Two(0, 1, [TAKER, GIVER]))
  {
    hide Next, Decide, UndosOk, ArrayOk;
    TwoDecide(0, 1, [], 1);
    TwoDecide(0, 1, [TAKER], 2);
    Queues(Two(0, 1, []), TAKER);
    Queues(Two(0, 1, [TAKER]), GIVER);
    assert [] + [TAKER] == [TAKER] && [TAKER] + [GIVER] == [TAKER, GIVER];
  }

  lemma Freed()
    ensures Next(Two(0, 1, [TAKER, GIVER]), Two(0, 0, [TAKER, GIVER]))
  {
    hide Next, Decide, UndosOk, ArrayOk, Perform;
    TwoDecide(0, 1, [TAKER, GIVER], 3);
    StepIsNext(Two(0, 1, [TAKER, GIVER]), Two(0, 0, [TAKER, GIVER]), 3, FREES);
  }

  lemma Overlooked()
    ensures Next(Two(0, 0, [TAKER, GIVER]), Two(1, 0, [TAKER]))
    ensures Overlooks(Two(0, 0, [TAKER, GIVER]), Two(1, 0, [TAKER]), 0)
  {
    hide Decide, UndosOk, ArrayOk, Perform, Scan, Ready;
    TwoDecide(1, 0, [TAKER], 1);
    PassesTaker();
    assert ScanStep(Two(0, 0, [TAKER, GIVER]), Two(1, 0, [TAKER]));
  }

  lemma Queues(s: State, e: Entry)
    requires ArrayOk(s, e.proc, e.ops) && (e == TAKER || e == GIVER)
    ensures Next(s, s.(pending := s.pending + [e]))
  {
    hide ArrayOk;
    assert WANTS[0] in WANTS;
    assert KnownTaker(e);
    assert s.(pending := s.pending + [e]) == Enqueue(s, e, false);
  }
}
