/** The blocked_list of fs/locks.c as a wait-for graph between owners, and the deadlock test. */
module WaitGraph {
  import opened Lists
  import opened PosixLockList

  /** A request asleep on blocked_list. blocker and holder are the lock that fl_next points at and
      that lock's owner, which never changes while the lock is allocated. */
  datatype Waiter = Waiter(file: nat, req: Request, blocker: nat, holder: Owner)

  /** A task sleeps on at most one lock. */
  predicate OnePerOwner(blocked: seq<Waiter>) {
    forall i, j :: 0 <= i < j < |blocked| ==> blocked[i].req.owner != blocked[j].req.owner
  }

  predicate IsBlocked(blocked: seq<Waiter>, o: Owner) {
    exists w :: w in blocked && w.req.owner == o
  }

  /** Whom o waits for: the first entry of o on the list decides. */
  function WaitsFor(blocked: seq<Waiter>, o: Owner): Option<Owner> {
    if blocked == [] then None
    else if blocked[0].req.owner == o then Some(blocked[0].holder)
    else WaitsFor(blocked[1..], o)
  }

  /** The owner reached from o by n steps of waiting. */
  function Hops(blocked: seq<Waiter>, o: Owner, n: nat): Option<Owner>
    decreases n
  {
    if n == 0 then Some(o)
    else match WaitsFor(blocked, o)
         case None => None
         case Some(p) => Hops(blocked, p, n - 1)
  }

  ghost predicate Reaches(blocked: seq<Waiter>, a: Owner, b: Owner) {
    exists n: nat :: Hops(blocked, a, n) == Some(b)
  }

  ghost predicate NoCycle(blocked: seq<Waiter>) {
    forall o, n: nat :: n > 0 ==> Hops(blocked, o, n) != Some(o)
  }

  /** rank falls along every edge. */
  ghost predicate RankedBy(blocked: seq<Waiter>, rank: Owner -> nat) {
    forall w :: w in blocked ==> rank(w.holder) < rank(w.req.owner)
  }

  ghost predicate Ranked(blocked: seq<Waiter>) {
    exists rank: Owner -> nat :: RankedBy(blocked, rank)
  }

  lemma {:induction false} WaitsForIn(blocked: seq<Waiter>, o: Owner)
    ensures WaitsFor(blocked, o) == None <==> !IsBlocked(blocked, o)
    ensures WaitsFor(blocked, o).Some? ==>
              exists w :: w in blocked && w.req.owner == o && w.holder == WaitsFor(blocked, o).value
  {
    if blocked != [] {
      WaitsForIn(blocked[1..], o);
      assert blocked == [blocked[0]] + blocked[1..];
      assert blocked[0] in blocked;
    }
  }

  lemma {:induction false} WaitsForOnly(blocked: seq<Waiter>, w: Waiter)
    requires OnePerOwner(blocked) && w in blocked
    ensures WaitsFor(blocked, w.req.owner) == Some(w.holder)
  {
    assert blocked == [blocked[0]] + blocked[1..];
    if blocked[0].req.owner == w.req.owner {
      var i :| 0 <= i < |blocked| && blocked[i] == w;
      assert i == 0;
    } else {
      WaitsForOnly(blocked[1..], w);
    }
  }

  // ---------------------------------------------------------------- ranked means acyclic

  lemma {:induction false} HopsFall(blocked: seq<Waiter>, rank: Owner -> nat, o: Owner, n: nat)
    requires RankedBy(blocked, rank) && n > 0 && Hops(blocked, o, n).Some?
    ensures rank(Hops(blocked, o, n).value) < rank(o)
    decreases n
  {
    WaitsForIn(blocked, o);
    var p := WaitsFor(blocked, o).value;
    if n > 1 {
      HopsFall(blocked, rank, p, n - 1);
    }
  }

  lemma RankedNoCycle(blocked: seq<Waiter>)
    requires Ranked(blocked)
    ensures NoCycle(blocked)
  {
    var rank :| RankedBy(blocked, rank);
    forall o, n: nat | n > 0 ensures Hops(blocked, o, n) != Some(o) {
      if Hops(blocked, o, n) == Some(o) {
        HopsFall(blocked, rank, o, n);
      }
    }
  }

  /** Every chain of waiting ends at an owner that does not wait. */
  lemma {:induction false} ChainEnds(blocked: seq<Waiter>, rank: Owner -> nat, o: Owner) returns (n: nat, last: Owner)
    requires RankedBy(blocked, rank)
    ensures Hops(blocked, o, n) == Some(last) && !IsBlocked(blocked, last)
    ensures IsBlocked(blocked, o) ==> n > 0
    decreases rank(o)
  {
    WaitsForIn(blocked, o);
    match WaitsFor(blocked, o)
    case None => n, last := 0, o;
    case Some(p) =>
      n, last := ChainEnds(blocked, rank, p);
      n := n + 1;
  }

  /** The last step of a chain enters its end from a waiter. */
  lemma {:induction false} LastHop(blocked: seq<Waiter>, o: Owner, n: nat, last: Owner)
    requires n > 0 && Hops(blocked, o, n) == Some(last)
    ensures exists w :: w in blocked && w.holder == last
    decreases n
  {
    WaitsForIn(blocked, o);
    var p := WaitsFor(blocked, o).value;
    if n > 1 {
      LastHop(blocked, p, n - 1, last);
    }
  }

  // ---------------------------------------------------------------- the deadlock test

  /** posix_locks_deadlock: follow the owners that wait for each other, without recursion. */
  method Deadlock(blocked: seq<Waiter>, caller: Owner, holder: Owner) returns (deadlock: bool)
    requires Ranked(blocked)
    ensures deadlock <==> Reaches(blocked, holder, caller)
  {
    ghost var rank :| RankedBy(blocked, rank);
    var current := holder;
    ghost var n: nat := 0;
    while true
      invariant Hops(blocked, holder, n) == Some(current)
      invariant forall m: nat :: m < n ==> Hops(blocked, holder, m) != Some(caller)
      decreases rank(current)
    {
      if caller == current {
        return true;
      }
      var i := 0;
      while i < |blocked| && blocked[i].req.owner != current
        invariant 0 <= i <= |blocked|
        invariant WaitsFor(blocked, current) == WaitsFor(blocked[i..], current)
      {
        i := i + 1;
      }
      HopsStep(blocked, holder, n, current);
      if i == |blocked| {
        forall m: nat ensures Hops(blocked, holder, m) != Some(caller) {
          if m > n { HopsDead(blocked, holder, n, m); }
        }
        return false;
      }
      assert blocked[i] in blocked;
      current, n := blocked[i].holder, n + 1;
    }
  }

  lemma {:induction false} HopsStep(blocked: seq<Waiter>, o: Owner, n: nat, p: Owner)
    requires Hops(blocked, o, n) == Some(p)
    ensures Hops(blocked, o, n + 1) == WaitsFor(blocked, p)
    decreases n
  {
    if n > 0 {
      HopsStep(blocked, WaitsFor(blocked, o).value, n - 1, p);
    } else {
      match WaitsFor(blocked, o)
      case None =>
      case Some(q) => assert Hops(blocked, q, 0) == Some(q);
    }
  }

  lemma {:induction false} HopsDead(blocked: seq<Waiter>, o: Owner, n: nat, m: nat)
    requires n < m && Hops(blocked, o, n + 1) == None
    ensures Hops(blocked, o, m) == None
    decreases m
  {
    match WaitsFor(blocked, o)
    case None =>
    case Some(p) =>
      if n > 0 {
        HopsDead(blocked, p, n - 1, m - 1);
      }
  }

  // ---------------------------------------------------------------- a new waiter

  lemma ReachesStep(blocked: seq<Waiter>, w: Waiter, c: Owner)
    requires OnePerOwner(blocked) && w in blocked && w.req.owner != c
    ensures Reaches(blocked, w.req.owner, c) <==> Reaches(blocked, w.holder, c)
  {
    WaitsForOnly(blocked, w);
    if n: nat :| Hops(blocked, w.req.owner, n) == Some(c) {
      assert Hops(blocked, w.holder, n - 1) == Some(c);
    }
    if n: nat :| Hops(blocked, w.holder, n) == Some(c) {
      assert Hops(blocked, w.req.owner, n + 1) == Some(c);
    }
  }

  /** A wait that the deadlock test lets through keeps the graph acyclic. */
  lemma BlockKeepsRanked(blocked: seq<Waiter>, w: Waiter)
    requires Ranked(blocked) && OnePerOwner(blocked) && !IsBlocked(blocked, w.req.owner)
    requires !Reaches(blocked, w.holder, w.req.owner)
    ensures Ranked([w] + blocked)
  {
    var rank :| RankedBy(blocked, rank);
    var c := w.req.owner;
    var lift := rank(w.holder) + 1;
    var rank' := (o: Owner) => if Reaches(blocked, o, c) then rank(o) + lift else rank(o);
    assert Reaches(blocked, c, c) by {
      assert Hops(blocked, c, 0) == Some(c);
    }
    forall v | v in [w] + blocked ensures rank'(v.holder) < rank'(v.req.owner) {
      if v in blocked {
        ReachesStep(blocked, v, c);
      }
    }
    assert RankedBy([w] + blocked, rank');
  }

  lemma {:induction false} HopsBefore(blocked: seq<Waiter>, w: Waiter, o: Owner, n: nat)
    requires !IsBlocked(blocked, w.req.owner) && Hops(blocked, o, n).Some?
    ensures Hops([w] + blocked, o, n) == Hops(blocked, o, n)
    decreases n
  {
    if n > 0 {
      WaitsForIn(blocked, o);
      assert ([w] + blocked)[1..] == blocked;
      HopsBefore(blocked, w, WaitsFor(blocked, o).value, n - 1);
    }
  }

  /** The test is exact: it refuses a wait exactly when that wait would close a cycle. */
  lemma DeadlockIsCycle(blocked: seq<Waiter>, w: Waiter)
    requires Ranked(blocked) && OnePerOwner(blocked) && !IsBlocked(blocked, w.req.owner)
    ensures Reaches(blocked, w.holder, w.req.owner) <==> !NoCycle([w] + blocked)
  {
    if Reaches(blocked, w.holder, w.req.owner) {
      var n: nat :| Hops(blocked, w.holder, n) == Some(w.req.owner);
      HopsBefore(blocked, w, w.holder, n);
      assert Hops([w] + blocked, w.req.owner, n + 1) == Some(w.req.owner);
    } else {
      BlockKeepsRanked(blocked, w);
      RankedNoCycle([w] + blocked);
    }
  }
}
