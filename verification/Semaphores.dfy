/** System V semaphore operations (ipc/sem.c): what an array of operations does to the values and to
    the caller's undo record, all at once or not at all. */
module Semaphores {

  const SEMVMX := 32767
  const SEMAEM := SEMVMX

  datatype Op = Op(num: nat, op: int, undo: bool, nowait: bool)

  /** The values of the set and the adjustments of one undo record (none if the caller has none). */
  datatype Core = Core(vals: seq<int>, adj: seq<int>)

  /** 0, 1 for "must sleep", -EAGAIN, -ERANGE. */
  datatype Result = Done | MustSleep | Again | OutOfRange

  predicate OpsFit(c: Core, ops: seq<Op>) {
    forall o :: o in ops ==> o.num < |c.vals| && (o.undo ==> |c.adj| == |c.vals|)
  }

  // ---------------------------------------------------------------- one operation

  function Bump(c: Core, o: Op): Core
    requires OpsFit(c, [o])
  {
    assert o in [o];
    Core(c.vals[o.num := c.vals[o.num] + o.op],
         if o.undo then c.adj[o.num := c.adj[o.num] - o.op] else c.adj)
  }

  function Unbump(c: Core, o: Op): Core
    requires OpsFit(c, [o])
  {
    assert o in [o];
    Core(c.vals[o.num := c.vals[o.num] - o.op],
         if o.undo then c.adj[o.num := c.adj[o.num] + o.op] else c.adj)
  }

  datatype Check = Fine | Block | Range

  /** What stops an operation, in the order in which the code looks. */
  function CheckOp(c: Core, o: Op): Check
    requires OpsFit(c, [o])
  {
    assert o in [o];
    if o.op == 0 && c.vals[o.num] != 0 then Block
    else if o.undo && !(-SEMAEM - 1 <= c.adj[o.num] - o.op <= SEMAEM) then Range
    else if c.vals[o.num] + o.op < 0 then Block
    else if c.vals[o.num] + o.op > SEMVMX then Range
    else Fine
  }

  function Stopped(k: Check, o: Op): Result
    requires k != Fine
  {
    if k == Range then OutOfRange else if o.nowait then Again else MustSleep
  }

  // ---------------------------------------------------------------- an array of operations

  lemma OpsFitParts(c: Core, ops: seq<Op>)
    requires OpsFit(c, ops) && ops != []
    ensures OpsFit(c, [ops[0]]) && OpsFit(Bump(c, ops[0]), ops[1..])
  {
    assert ops[0] in ops;
    assert forall o :: o in ops[1..] ==> o in ops;
  }

  /** All operations in order. */
  function Final(c: Core, ops: seq<Op>): (r: Core)
    requires OpsFit(c, ops)
    ensures |r.vals| == |c.vals| && |r.adj| == |c.adj|
    decreases |ops|
  {
    if ops == [] then c else
      OpsFitParts(c, ops);
      Final(Bump(c, ops[0]), ops[1..])
  }

  /** The first operation that is stopped decides. */
  function Verdict(c: Core, ops: seq<Op>): Result
    requires OpsFit(c, ops)
    decreases |ops|
  {
    if ops == [] then Done else
      OpsFitParts(c, ops);
      var k := CheckOp(c, ops[0]);
      if k == Fine then Verdict(Bump(c, ops[0]), ops[1..]) else Stopped(k, ops[0])
  }

  lemma OpsFitPrefix(c: Core, ops: seq<Op>, n: nat)
    requires OpsFit(c, ops) && n <= |ops|
    ensures OpsFit(c, ops[..n])
  {
    assert forall o :: o in ops[..n] ==> o in ops;
  }

  /** The state after the first n operations. */
  function After(c: Core, ops: seq<Op>, n: nat): (r: Core)
    requires OpsFit(c, ops) && n <= |ops|
    ensures |r.vals| == |c.vals| && |r.adj| == |c.adj|
  {
    OpsFitPrefix(c, ops, n);
    Final(c, ops[..n])
  }

  lemma AfterNone(c: Core, ops: seq<Op>)
    requires OpsFit(c, ops)
    ensures After(c, ops, 0) == c
  {
  }

  lemma {:induction false} AfterStep(c: Core, ops: seq<Op>, n: nat)
    requires OpsFit(c, ops) && n < |ops|
    ensures OpsFit(After(c, ops, n), [ops[n]])
    ensures After(c, ops, n + 1) == Bump(After(c, ops, n), ops[n])
    decreases n
  {
    assert ops[n] in ops;
    OpsFitParts(c, ops);
    if n == 0 {
      assert ops[..1] == [ops[0]] && ops[..1][1..] == [];
      assert Final(Bump(c, ops[0]), []) == Bump(c, ops[0]);
    } else {
      AfterStep(Bump(c, ops[0]), ops[1..], n - 1);
      assert ops[..n][1..] == ops[1..][..n - 1] && ops[..n + 1][1..] == ops[1..][..n];
    }
  }

  lemma {:induction false} VerdictAt(c: Core, ops: seq<Op>, n: nat)
    requires OpsFit(c, ops) && n < |ops|
    requires forall i :: 0 <= i < n ==> OpsFit(After(c, ops, i), [ops[i]]) && CheckOp(After(c, ops, i), ops[i]) == Fine
    ensures OpsFit(After(c, ops, n), [ops[n]])
    ensures CheckOp(After(c, ops, n), ops[n]) != Fine ==>
            Verdict(c, ops) == Stopped(CheckOp(After(c, ops, n), ops[n]), ops[n])
    decreases n
  {
    AfterStep(c, ops, n);
    OpsFitParts(c, ops);
    assert After(c, ops, 0) == c;
    if n > 0 {
      var c', t := Bump(c, ops[0]), ops[1..];
      forall i | 0 <= i < n ensures After(c', t, i) == After(c, ops, i + 1) {
        assert ops[..i + 1][1..] == t[..i];
      }
      forall i | 0 <= i < n - 1 ensures OpsFit(After(c', t, i), [t[i]]) && CheckOp(After(c', t, i), t[i]) == Fine {
        assert t[i] == ops[i + 1];
        AfterStep(c', t, i);
      }
      assert t[n - 1] == ops[n];
      VerdictAt(c', t, n - 1);
      assert CheckOp(After(c, ops, 0), ops[0]) == Fine;
    }
  }

  lemma {:induction false} VerdictDone(c: Core, ops: seq<Op>)
    requires OpsFit(c, ops)
    requires forall i :: 0 <= i < |ops| ==>
             OpsFit(After(c, ops, i), [ops[i]]) && CheckOp(After(c, ops, i), ops[i]) == Fine
    ensures Verdict(c, ops) == Done
    decreases |ops|
  {
    if ops != [] {
      OpsFitParts(c, ops);
      assert After(c, ops, 0) == c;
      var c', t := Bump(c, ops[0]), ops[1..];
      forall i | 0 <= i < |t| ensures OpsFit(After(c', t, i), [t[i]]) && CheckOp(After(c', t, i), t[i]) == Fine {
        assert ops[..i + 1][1..] == t[..i];
        assert After(c', t, i) == After(c, ops, i + 1);
        assert t[i] == ops[i + 1];
      }
      assert CheckOp(After(c, ops, 0), ops[0]) == Fine;
      VerdictDone(c', t);
    }
  }

  /** Undoing an operation is exact, whatever else has been done to the same semaphore. */
  lemma UnbumpBump(c: Core, o: Op)
    requires OpsFit(c, [o])
    ensures OpsFit(Bump(c, o), [o]) && Unbump(Bump(c, o), o) == c
  {
    assert o in [o];
  }

  // ---------------------------------------------------------------- what the array adds up to

  /** The sum of the operations on semaphore n: all, or those with SEM_UNDO. */
  function Sum(ops: seq<Op>, n: nat, undoOnly: bool): int {
    if ops == [] then 0
    else (if ops[0].num == n && (undoOnly ==> ops[0].undo) then ops[0].op else 0) + Sum(ops[1..], n, undoOnly)
  }

  lemma {:induction false} FinalSums(c: Core, ops: seq<Op>, n: nat)
    requires OpsFit(c, ops) && n < |c.vals|
    ensures Final(c, ops).vals[n] == c.vals[n] + Sum(ops, n, false)
    ensures n < |c.adj| ==> Final(c, ops).adj[n] == c.adj[n] - Sum(ops, n, true)
    decreases |ops|
  {
    if ops != [] {
      OpsFitParts(c, ops);
      FinalSums(Bump(c, ops[0]), ops[1..], n);
    }
  }

  lemma {:induction false} SumAppend(ops: seq<Op>, o: Op, n: nat, undoOnly: bool)
    ensures Sum(ops + [o], n, undoOnly) ==
            Sum(ops, n, undoOnly) + if o.num == n && (undoOnly ==> o.undo) then o.op else 0
  {
    if ops == [] {
      assert ops + [o] == [o] && [o][1..] == [];
    } else {
      assert (ops + [o])[1..] == ops[1..] + [o];
      SumAppend(ops[1..], o, n, undoOnly);
    }
  }

  // ---------------------------------------------------------------- what is decided, in numbers

  /** The value that operation i finds: the first one, and what the operations before it add. */
  function Finds(c: Core, ops: seq<Op>, i: nat): int
    requires OpsFit(c, ops) && i < |ops|
  {
    assert ops[i] in ops;
    c.vals[ops[i].num] + Sum(ops[..i], ops[i].num, false)
  }

  /** The adjustment that operation i leaves, if it asks for one, is a short. */
  predicate LeavesShort(c: Core, ops: seq<Op>, i: nat)
    requires OpsFit(c, ops) && i < |ops|
  {
    assert ops[i] in ops;
    ops[i].undo ==> -0x8000 <= c.adj[ops[i].num] - Sum(ops[..i + 1], ops[i].num, true) <= 0x7fff
  }

  /** Operation i can be done: whoever waits for zero finds it, and value and adjustment stay in range. */
  predicate GoesOn(c: Core, ops: seq<Op>, i: nat)
    requires OpsFit(c, ops) && i < |ops|
  {
    && (ops[i].op == 0 ==> Finds(c, ops, i) == 0) && 0 <= Finds(c, ops, i) + ops[i].op <= 0x7fff
    && LeavesShort(c, ops, i)
  }

  /** Operation i must wait: for zero, or because less is there than it takes. */
  predicate Waits(c: Core, ops: seq<Op>, i: nat)
    requires OpsFit(c, ops) && i < |ops|
  {
    if ops[i].op == 0 then Finds(c, ops, i) != 0 else Finds(c, ops, i) + ops[i].op < 0 && LeavesShort(c, ops, i)
  }

  /** Operation k is the first that cannot be done. */
  predicate HeldAt(c: Core, ops: seq<Op>, k: nat)
    requires OpsFit(c, ops)
  {
    k < |ops| && !GoesOn(c, ops, k) && forall i :: 0 <= i < k ==> GoesOn(c, ops, i)
  }

  /** r is the right answer: success if all operations can be done; otherwise the first one that cannot decides whether
      the caller sleeps, is told to try again, or asked for too much. */
  ghost predicate Answers(c: Core, ops: seq<Op>, r: Result) {
    && OpsFit(c, ops)
    && (r == Done <==> forall i :: 0 <= i < |ops| ==> GoesOn(c, ops, i))
    && (r == MustSleep <==> exists k: nat :: HeldAt(c, ops, k) && Waits(c, ops, k) && !ops[k].nowait)
    && (r == Again <==> exists k: nat :: HeldAt(c, ops, k) && Waits(c, ops, k) && ops[k].nowait)
    && (r == OutOfRange <==> exists k: nat :: HeldAt(c, ops, k) && !Waits(c, ops, k))
  }

  lemma CheckMeans(c: Core, ops: seq<Op>, i: nat)
    requires OpsFit(c, ops) && i < |ops|
    ensures OpsFit(After(c, ops, i), [ops[i]])
    ensures CheckOp(After(c, ops, i), ops[i]) == Fine <==> GoesOn(c, ops, i)
    ensures CheckOp(After(c, ops, i), ops[i]) == Block <==> Waits(c, ops, i)
  {
    AfterStep(c, ops, i);
    assert ops[i] in ops;
    OpsFitPrefix(c, ops, i);
    FinalSums(c, ops[..i], ops[i].num);
    assert ops[..i + 1] == ops[..i] + [ops[i]];
    SumAppend(ops[..i], ops[i], ops[i].num, true);
    hide Sum, Final;
  }

  /** The first operation that cannot be done, if there is one from k on. */
  lemma {:induction false} SomeHeld(c: Core, ops: seq<Op>, k: nat) returns (n: nat)
    requires OpsFit(c, ops) && k <= |ops| && forall i :: 0 <= i < k ==> GoesOn(c, ops, i)
    ensures n <= |ops| && (forall i :: 0 <= i < n ==> GoesOn(c, ops, i)) && (n < |ops| ==> HeldAt(c, ops, n))
    decreases |ops| - k
  {
    hide GoesOn;
    if k < |ops| && GoesOn(c, ops, k) {
      n := SomeHeld(c, ops, k + 1);
    } else {
      n := k;
    }
  }

  lemma HeldAnswers(c: Core, ops: seq<Op>, n: nat, r: Result)
    requires OpsFit(c, ops) && HeldAt(c, ops, n)
    requires r == if !Waits(c, ops, n) then OutOfRange else if ops[n].nowait then Again else MustSleep
    ensures Answers(c, ops, r)
  {
    hide GoesOn, Waits, OpsFit;
    assert forall k: nat :: HeldAt(c, ops, k) ==> k == n;
  }

  lemma DoneAnswers(c: Core, ops: seq<Op>)
    requires OpsFit(c, ops) && forall i :: 0 <= i < |ops| ==> GoesOn(c, ops, i)
    ensures Answers(c, ops, Done)
  {
    hide GoesOn, Waits, OpsFit;
    assert forall k: nat :: !HeldAt(c, ops, k);
  }

  /** try_atomic_semop gives the right answer. */
  lemma VerdictAnswers(c: Core, ops: seq<Op>)
    requires OpsFit(c, ops)
    ensures Answers(c, ops, Verdict(c, ops))
  {
    hide GoesOn, Waits, CheckOp, After, Verdict, Answers;
    var n := SomeHeld(c, ops, 0);
    forall i | 0 <= i < n
      ensures OpsFit(After(c, ops, i), [ops[i]]) && CheckOp(After(c, ops, i), ops[i]) == Fine
    {
      CheckMeans(c, ops, i);
    }
    if n < |ops| {
      CheckMeans(c, ops, n);
      VerdictAt(c, ops, n);
      HeldAnswers(c, ops, n, Verdict(c, ops));
    } else {
      VerdictDone(c, ops);
      DoneAnswers(c, ops);
    }
  }

  /** An array that goes through keeps values and adjustments in range. */
  lemma {:induction false} DoneInRange(c: Core, ops: seq<Op>)
    requires OpsFit(c, ops) && Verdict(c, ops) == Done
    ensures forall n :: 0 <= n < |c.vals| && c.vals[n] >= 0 ==> Final(c, ops).vals[n] >= 0
    ensures forall n :: 0 <= n < |c.vals| && c.vals[n] <= SEMVMX ==> Final(c, ops).vals[n] <= SEMVMX
    ensures forall n :: 0 <= n < |c.adj| && -SEMAEM - 1 <= c.adj[n] <= SEMAEM ==>
              -SEMAEM - 1 <= Final(c, ops).adj[n] <= SEMAEM
    decreases |ops|
  {
    if ops != [] {
      OpsFitParts(c, ops);
      DoneInRange(Bump(c, ops[0]), ops[1..]);
    }
  }
}
