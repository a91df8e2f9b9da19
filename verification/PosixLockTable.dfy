/** All POSIX locks and all sleeping requests together: every call under the big kernel lock is one
    step, a sleeping request is a step boundary, and the invariants hold over every run. */
module PosixLockTable {
  import opened Lists
  import opened PosixLockList
  import opened PosixLockWalk
  import opened PosixLockFile
  import opened PosixLockRemove
  import opened WaitGraph

  /** files maps an inode to its i_flock; blocked is blocked_list; nextId stands for fresh addresses. */
  datatype State = State(files: map<nat, seq<FileLock>>, blocked: seq<Waiter>, nextId: nat)

  function Locks(s: State, file: nat): seq<FileLock> {
    if file in s.files then s.files[file] else []
  }

  // ---------------------------------------------------------------- the invariant

  /** No byte is written by one owner and held by another. */
  ghost predicate Exclusive(list: seq<FileLock>) {
    forall o1, o2, b, k :: Holds(list, o1, b, WrLck) && Holds(list, o2, b, k) ==> o1 == o2
  }

  ghost predicate ListOk(list: seq<FileLock>, nextId: nat) {
    Bounded(list) && UniqueIds(list) && Exclusive(list) && forall f :: f in list ==> f.id < nextId
  }

  /** A sleeping request sleeps on a live lock, and that lock still stands in its way. */
  predicate StillBlocked(list: seq<FileLock>, w: Waiter) {
    && ValidRequest(w.req) && w.req.kind != UnLck
    && exists g :: g in list && g.id == w.blocker && g.owner == w.holder && Conflict(w.req, g)
  }

  ghost predicate Inv(s: State) {
    && (forall file :: ListOk(Locks(s, file), s.nextId))
    && (forall w :: w in s.blocked ==> StillBlocked(Locks(s, w.file), w))
    && OnePerOwner(s.blocked)
    && Ranked(s.blocked)
  }

  // ---------------------------------------------------------------- the steps

  /** locks_wake_up_blocks on the locks in woken: their waiters leave the blocked list. */
  function Awake(blocked: seq<Waiter>, file: nat, woken: set<nat>): seq<Waiter> {
    if blocked == [] then []
    else
      (if blocked[0].file == file && blocked[0].blocker in woken then [] else [blocked[0]])
      + Awake(blocked[1..], file, woken)
  }

  function WithoutOwner(blocked: seq<Waiter>, o: Owner): seq<Waiter> {
    if blocked == [] then []
    else (if blocked[0].req.owner == o then [] else [blocked[0]]) + WithoutOwner(blocked[1..], o)
  }

  predicate MayRequest(s: State, r: Request) {
    ValidRequest(r) && !IsBlocked(s.blocked, r.owner)
  }

  predicate Unopposed(list: seq<FileLock>, r: Request) {
    r.kind == UnLck || forall f :: f in list ==> !Conflict(r, f)
  }

  /** A request is granted: the inode's list is updated and the waiters of changed locks are woken. */
  ghost predicate Grants(s: State, s': State, file: nat, r: Request) {
    && MayRequest(s, r) && Unopposed(Locks(s, file), r)
    && s'.nextId == s.nextId + 2 && file in s'.files && s'.files == s.files[file := s'.files[file]]
    && (WellFormed(Locks(s, file)) ==> Verdict(Locks(s, file), s'.files[file], r))
    && exists woken ::
         && SafeStep(Locks(s, file), s'.files[file], r, woken, {s.nextId, s.nextId + 1})
         && s'.blocked == Awake(s.blocked, file, woken)
  }

  /** A request is put to sleep on the first lock in its way. */
  ghost predicate Blocks(s: State, s': State, w: Waiter) {
    && MayRequest(s, w.req) && StillBlocked(Locks(s, w.file), w)
    && !Reaches(s.blocked, w.holder, w.req.owner)
    && s' == s.(blocked := [w] + s.blocked)
  }

  ghost predicate Removes(s: State, s': State, file: nat, table: nat) {
    var list := Locks(s, file);
    && s'.nextId == s.nextId && s'.files == s.files[file := Without(list, table)]
    && s'.blocked == Awake(s.blocked, file, set f | f in list && f.owner.files == table :: f.id)
  }

  /** A signal takes a request off the blocked list. */
  predicate Interrupts(s: State, s': State, o: Owner) {
    s' == s.(blocked := WithoutOwner(s.blocked, o))
  }

  ghost predicate Next(s: State, s': State) {
    || s' == s
    || (exists file, r :: Grants(s, s', file, r))
    || (exists w :: Blocks(s, s', w))
    || (exists file, table :: Removes(s, s', file, table))
    || (exists o :: Interrupts(s, s', o))
  }

  predicate Init(s: State) {
    s.files == map[] && s.blocked == []
  }

  // ---------------------------------------------------------------- every step keeps the invariant

  lemma {:induction false} AwakeIn(blocked: seq<Waiter>, file: nat, woken: set<nat>)
    ensures forall w :: w in Awake(blocked, file, woken) <==> w in blocked && !(w.file == file && w.blocker in woken)
    ensures OnePerOwner(blocked) ==> OnePerOwner(Awake(blocked, file, woken))
  {
    if blocked != [] {
      var t := blocked[1..];
      AwakeIn(t, file, woken);
      assert blocked == [blocked[0]] + t;
      if OnePerOwner(blocked) {
        assert OnePerOwner(t) && forall i :: 0 <= i < |t| ==> blocked[0].req.owner != t[i].req.owner;
        var rs := Awake(t, file, woken);
        forall i | 0 <= i < |rs| ensures rs[i].req.owner != blocked[0].req.owner {
          assert rs[i] in rs;
        }
      }
    }
  }

  lemma {:induction false} WithoutOwnerIn(blocked: seq<Waiter>, o: Owner)
    ensures forall w :: w in WithoutOwner(blocked, o) <==> w in blocked && w.req.owner != o
    ensures OnePerOwner(blocked) ==> OnePerOwner(WithoutOwner(blocked, o))
  {
    if blocked != [] {
      var t := blocked[1..];
      WithoutOwnerIn(t, o);
      assert blocked == [blocked[0]] + t;
      if OnePerOwner(blocked) {
        assert OnePerOwner(t) && forall i :: 0 <= i < |t| ==> blocked[0].req.owner != t[i].req.owner;
        var rs := WithoutOwner(t, o);
        forall i | 0 <= i < |rs| ensures rs[i].req.owner != blocked[0].req.owner {
          assert rs[i] in rs;
        }
      }
    }
  }

  lemma FewerRanked(blocked: seq<Waiter>, blocked': seq<Waiter>)
    requires Ranked(blocked) && forall w :: w in blocked' ==> w in blocked
    ensures Ranked(blocked')
  {
    var rank :| RankedBy(blocked, rank);
    assert RankedBy(blocked', rank);
  }

  /** A grant cannot make two owners clash. */
  lemma GrantExclusive(list: seq<FileLock>, list': seq<FileLock>, r: Request)
    requires Exclusive(list) && Bounded(list') && NothingExtra(list, list', r) && Unopposed(list, r)
    ensures Exclusive(list')
  {
    forall o1, o2, b, k | Holds(list', o1, b, WrLck) && Holds(list', o2, b, k) ensures o1 == o2 {
      assert Holds(list, o1, b, WrLck) || (o1 == r.owner && InRequest(r, b) && WrLck == r.kind);
      assert Holds(list, o2, b, k) || (o2 == r.owner && InRequest(r, b) && k == r.kind);
      if o1 != o2 && Holds(list, o1, b, WrLck) && !Holds(list, o2, b, k) {
        var f :| f in list && f.owner == o1 && f.kind == WrLck && Covers(f, b);
        assert Conflict(r, f);
      } else if o1 != o2 && Holds(list, o2, b, k) && !Holds(list, o1, b, WrLck) {
        var f :| f in list && f.owner == o2 && f.kind == k && Covers(f, b);
        assert Conflict(r, f);
      }
    }
  }

  /** Wherever a lock stopped covering what it covered, its waiters were woken; so nobody sleeps in vain. */
  lemma StillBlockedKept(list: seq<FileLock>, list': seq<FileLock>, w: Waiter, woken: set<nat>)
    requires StillBlocked(list, w) && Kept(list, list', woken) && w.blocker !in woken
    ensures StillBlocked(list', w)
  {
    var g :| g in list && g.id == w.blocker && g.owner == w.holder && Conflict(w.req, g);
    var f :| f in list' && Grows(g, f);
    assert Conflict(w.req, f);
  }

  lemma WaitersKept(s: State, s': State, file: nat, woken: set<nat>)
    requires forall w :: w in s.blocked ==> StillBlocked(Locks(s, w.file), w)
    requires OnePerOwner(s.blocked) && Ranked(s.blocked)
    requires forall n :: n != file ==> Locks(s', n) == Locks(s, n)
    requires Kept(Locks(s, file), Locks(s', file), woken)
    requires s'.blocked == Awake(s.blocked, file, woken)
    ensures forall w :: w in s'.blocked ==> StillBlocked(Locks(s', w.file), w)
    ensures OnePerOwner(s'.blocked) && Ranked(s'.blocked)
  {
    AwakeIn(s.blocked, file, woken);
    FewerRanked(s.blocked, s'.blocked);
    forall w | w in s'.blocked ensures StillBlocked(Locks(s', w.file), w) {
      if w.file == file {
        StillBlockedKept(Locks(s, file), Locks(s', file), w, woken);
      }
    }
  }

  lemma GrantKeeps(s: State, s': State, file: nat, r: Request)
    requires Inv(s) && Grants(s, s', file, r)
    ensures Inv(s')
  {
    hide Kept, Others, NothingExtra, Exclusive, Bounded, UniqueIds, StillBlocked, OnePerOwner, Ranked, Awake, Verdict,
      WellFormed, Unopposed;
    var list, list' := Locks(s, file), s'.files[file];
    var woken :| SafeStep(list, list', r, woken, {s.nextId, s.nextId + 1}) &&
        s'.blocked == Awake(s.blocked, file, woken);
    assert ListOk(list, s.nextId);
    assert Locks(s', file) == list' && forall n :: n != file ==> Locks(s', n) == Locks(s, n);
    GrantExclusive(list, list', r);
    forall f | f in list' ensures f.id < s'.nextId {
      assert f.id in Ids(list');
    }
    WaitersKept(s, s', file, woken);
    forall n ensures ListOk(Locks(s', n), s'.nextId) {
      assert ListOk(Locks(s, n), s.nextId);
    }
  }

  lemma BlockKeeps(s: State, s': State, w: Waiter)
    requires Inv(s) && Blocks(s, s', w)
    ensures Inv(s')
  {
    BlockKeepsRanked(s.blocked, w);
    assert forall n :: Locks(s', n) == Locks(s, n);
    forall n ensures ListOk(Locks(s', n), s'.nextId) {
      assert ListOk(Locks(s, n), s.nextId);
    }
    forall v | v in s'.blocked ensures StillBlocked(Locks(s', v.file), v) {
      assert v == w || v in s.blocked;
    }
    forall i | 0 <= i < |s.blocked| ensures s.blocked[i].req.owner != w.req.owner {
      assert s.blocked[i] in s.blocked;
    }
  }

  lemma RemoveListOk(list: seq<FileLock>, table: nat, nextId: nat)
    requires ListOk(list, nextId)
    ensures ListOk(Without(list, table), nextId)
  {
    WithoutIn(list, table);
    WithoutUnique(list, table);
    forall o, b, k | Holds(Without(list, table), o, b, k) ensures Holds(list, o, b, k) {
    }
  }

  lemma RemoveKeeps(s: State, s': State, file: nat, table: nat)
    requires Inv(s) && Removes(s, s', file, table)
    ensures Inv(s')
  {
    var list := Locks(s, file);
    var woken := set f | f in list && f.owner.files == table :: f.id;
    assert ListOk(list, s.nextId);
    RemoveListOk(list, table, s.nextId);
    WithoutKept(list, table, woken);
    assert Locks(s', file) == Without(list, table) && forall n :: n != file ==> Locks(s', n) == Locks(s, n);
    WaitersKept(s, s', file, woken);
    forall n ensures ListOk(Locks(s', n), s'.nextId) {
      assert ListOk(Locks(s, n), s.nextId);
    }
  }

  lemma InterruptKeeps(s: State, s': State, o: Owner)
    requires Inv(s) && Interrupts(s, s', o)
    ensures Inv(s')
  {
    WithoutOwnerIn(s.blocked, o);
    FewerRanked(s.blocked, s'.blocked);
    assert forall n :: Locks(s', n) == Locks(s, n);
    forall n ensures ListOk(Locks(s', n), s'.nextId) {
      assert ListOk(Locks(s, n), s.nextId);
    }
  }

  lemma NextKeeps(s: State, s': State)
    requires Inv(s) && Next(s, s')
    ensures Inv(s')
  {
    hide Inv, Grants, Blocks, Removes, Interrupts;
    if s' == s {
    } else if file, r :| Grants(s, s', file, r) {
      GrantKeeps(s, s', file, r);
    } else if w :| Blocks(s, s', w) {
      BlockKeeps(s, s', w);
    } else if file, table :| Removes(s, s', file, table) {
      RemoveKeeps(s, s', file, table);
    } else {
      var o :| Interrupts(s, s', o);
      InterruptKeeps(s, s', o);
    }
  }

  // ---------------------------------------------------------------- runs

  ghost predicate Run(run: seq<State>) {
    run != [] && Init(run[0]) && forall i :: 0 <= i < |run| - 1 ==> Next(run[i], run[i + 1])
  }

  lemma InitInv(s: State)
    requires Init(s)
    ensures Inv(s)
  {
    var rank := (o: Owner) => 0;
    assert RankedBy(s.blocked, rank);
    assert forall file :: Locks(s, file) == [];
  }

  lemma {:induction false} RunInv(run: seq<State>, i: nat)
    requires Run(run) && i < |run|
    ensures Inv(run[i])
  {
    if i == 0 {
      InitInv(run[0]);
    } else {
      RunInv(run, i - 1);
      assert Next(run[i - 1], run[i - 1 + 1]);
      NextKeeps(run[i - 1], run[i]);
    }
  }

  /** In every state of every run: no byte is written by one owner and held by another, every
      sleeping request still conflicts with the live lock it sleeps on, and no owners wait in a cycle. */
  lemma RunSafe(run: seq<State>, i: nat)
    requires Run(run) && i < |run|
    ensures forall file :: Exclusive(Locks(run[i], file))
    ensures forall w :: w in run[i].blocked ==> StillBlocked(Locks(run[i], w.file), w)
    ensures NoCycle(run[i].blocked)
  {
    RunInv(run, i);
    RankedNoCycle(run[i].blocked);
    forall file ensures Exclusive(Locks(run[i], file)) {
      assert ListOk(Locks(run[i], file), run[i].nextId);
    }
  }

  /** Whoever sleeps waits, over some owners, for one that does not sleep and holds a lock. */
  lemma RunChainEnds(run: seq<State>, i: nat, w: Waiter) returns (n: nat, last: Owner, file: nat)
    requires Run(run) && i < |run| && w in run[i].blocked
    ensures n > 0 && Hops(run[i].blocked, w.req.owner, n) == Some(last)
    ensures !IsBlocked(run[i].blocked, last)
    ensures exists g :: g in Locks(run[i], file) && g.owner == last
  {
    RunInv(run, i);
    var s := run[i];
    var rank :| RankedBy(s.blocked, rank);
    n, last := ChainEnds(s.blocked, rank, w.req.owner);
    LastHop(s.blocked, w.req.owner, n, last);
    var v :| v in s.blocked && v.holder == last;
    file := v.file;
    assert StillBlocked(Locks(s, v.file), v);
  }

  // ---------------------------------------------------------------- runs without the wrapped comparison

  ghost predicate AllWellFormed(s: State) {
    forall file :: WellFormed(Locks(s, file))
  }

  /** As Next, but no granted request runs to the end of file onto a lock of its own type and owner. */
  ghost predicate TidyNext(s: State, s': State) {
    || s' == s
    || (exists file, r :: Grants(s, s', file, r) && !WrapsOnto(Locks(s, file), r))
    || (exists w :: Blocks(s, s', w))
    || (exists file, table :: Removes(s, s', file, table))
    || (exists o :: Interrupts(s, s', o))
  }

  ghost predicate TidyRun(run: seq<State>) {
    run != [] && Init(run[0]) && forall i :: 0 <= i < |run| - 1 ==> TidyNext(run[i], run[i + 1])
  }

  /** Such a grant is exactly the requested update, on this inode only, and leaves its list well formed. */
  lemma GrantExact(s: State, s': State, file: nat, r: Request)
    requires AllWellFormed(s) && Grants(s, s', file, r) && !WrapsOnto(Locks(s, file), r)
    ensures AllWellFormed(s') && ExactUpdate(Locks(s, file), Locks(s', file), r)
    ensures forall n :: n != file ==> Locks(s', n) == Locks(s, n)
  {
    hide SafeStep, WellFormed, ExactUpdate;
    assert WellFormed(Locks(s, file));
    assert WrapHides(Locks(s, file), r) ==> WrapsOnto(Locks(s, file), r);
    forall n ensures WellFormed(Locks(s', n)) {
      assert n != file ==> Locks(s', n) == Locks(s, n);
    }
  }

  lemma TidyNextKeeps(s: State, s': State)
    requires AllWellFormed(s) && TidyNext(s, s')
    ensures AllWellFormed(s')
  {
    hide WellFormed, Grants, WrapsOnto, StillBlocked;
    if s' == s {
    } else if file, r :| Grants(s, s', file, r) && !WrapsOnto(Locks(s, file), r) {
      GrantExact(s, s', file, r);
    } else if w :| Blocks(s, s', w) {
      assert forall n :: Locks(s', n) == Locks(s, n);
    } else if file, table :| Removes(s, s', file, table) {
      assert WellFormed(Locks(s, file));
      WithoutWellFormed(Locks(s, file), table);
      assert forall n :: Locks(s', n) == if n == file then Without(Locks(s, file), table) else Locks(s, n);
    } else {
      assert forall n :: Locks(s', n) == Locks(s, n);
    }
  }

  /** Over every such run the locks of an owner stand together on each inode, sorted, pairwise
      disjoint, and no two of one type touch. */
  lemma {:induction false} RunWellFormed(run: seq<State>, i: nat)
    requires TidyRun(run) && i < |run|
    ensures AllWellFormed(run[i])
  {
    if i == 0 {
      assert forall file :: Locks(run[0], file) == [];
    } else {
      RunWellFormed(run, i - 1);
      assert TidyNext(run[i - 1], run[i - 1 + 1]);
      TidyNextKeeps(run[i - 1], run[i]);
    }
  }

  /** The condition is needed: on this well-formed list a request to the end of file leaves byte 20 with both types. */
  method WrapExample() returns (list: seq<FileLock>, r: Request, after: seq<FileLock>)
    ensures WellFormed(list) && ValidRequest(r) && !ExactUpdate(list, after, r) && !WellFormed(after)
    ensures Holds(after, r.owner, 20, RdLck) && Holds(after, r.owner, 20, WrLck)
  {
    var o := Owner(1, 1);
    list := [FileLock(0, o, WrLck, 5, 9), FileLock(1, o, RdLck, 20, 20)];
    r := Request(o, WrLck, 0, OFFSET_MAX);
    assert list[0] in list && list[0].kind == r.kind && list[1].kind != r.kind;
    assert WellFormed(list) && WrapsOnto(list, r) && WrapHides(list, r);
    assert forall id :: id in Ids(list) ==> id == 0 || id == 1;
    ghost var woken;
    after, woken := Apply(list, r, 2, 3);
    hide WellFormed, WrapsOnto, WrapHides, Kept, UniqueIds, Bounded, Ids, Others;
    assert InRequest(r, 20);
    TypeLeft(list, after, r);
  }

  /** If the update is not exact although all that was asked for is held, a byte of another type is left. */
  lemma TypeLeft(list: seq<FileLock>, after: seq<FileLock>, r: Request)
    requires list == [FileLock(0, r.owner, WrLck, 5, 9), FileLock(1, r.owner, RdLck, 20, 20)]
    requires r.kind == WrLck && r.start == 0 && r.end == OFFSET_MAX
    requires NothingExtra(list, after, r) && HoldsAll(after, r) && !ExactUpdate(list, after, r)
    ensures Holds(after, r.owner, 20, RdLck)
  {
    var o, b, k :|
      !(Holds(after, o, b, k) <==>
        if o == r.owner && InRequest(r, b) then k == r.kind && k != UnLck else Holds(list, o, b, k));
    hide HoldsAll, NothingExtra;
    assert Holds(after, o, b, k) ==> Holds(list, o, b, k) || (o == r.owner && InRequest(r, b) && k == r.kind);
  }

  // ---------------------------------------------------------------- the calls

  datatype Outcome = Granted | Again | WouldDeadlock | Asleep

  class LockTable {
    var files: map<nat, seq<FileLock>>
    var blocked: seq<Waiter>
    var nextId: nat

    ghost function Abs(): State
      reads this
    {
      State(files, blocked, nextId)
    }

    constructor ()
      ensures Init(Abs()) && Inv(Abs())
    {
      files, blocked, nextId := map[], [], 0;
      new;
      InitInv(Abs());
    }

    /** i_flock of an inode. */
    function List(file: nat): seq<FileLock>
      reads this
    {
      if file in files then files[file] else []
    }

    /** posix_lock_file up to where it returns or goes to sleep. A task that wakes up calls it again. */
    method SetLock(file: nat, r: Request, wait: bool) returns (res: Outcome)
      requires Inv(Abs()) && MayRequest(Abs(), r)
      modifies this
      ensures Inv(Abs()) && Next(old(Abs()), Abs())
      ensures res == Granted <==> Unopposed(old(List(file)), r)
      ensures res == Granted ==> Grants(old(Abs()), Abs(), file, r)
      ensures res == Again ==> !wait && Abs() == old(Abs())
      ensures res == WouldDeadlock ==> wait && Abs() == old(Abs())
      ensures res == Asleep ==> wait && blocked != [] && blocked[0].req == r && Blocks(old(Abs()), Abs(), blocked[0])
      ensures res == WouldDeadlock ==>
                exists f :: f in List(file) && Conflict(r, f) && !NoCycle([Waiter(file, r, f.id, f.owner)] + blocked)
    {
      ghost var s := Abs();
      var list := List(file);
      assert list == Locks(s, file) && ListOk(list, nextId);
      if r.kind != UnLck {
        var at := FindConflict(list, r);
        if at < |list| {
          assert list[at] in list;
          if !wait {
            return Again;
          }
          var w := Waiter(file, r, list[at].id, list[at].owner);
          var deadlock := Deadlock(blocked, r.owner, list[at].owner);
          if deadlock {
            DeadlockIsCycle(blocked, w);
            return WouldDeadlock;
          }
          assert StillBlocked(list, w);
          blocked := [w] + blocked;
          assert Blocks(s, Abs(), w);
          BlockKeeps(s, Abs(), w);
          return Asleep;
        }
      }
      Update(file, r);
      return Granted;
    }

    /** The part that cannot sleep. */
    method Update(file: nat, r: Request)
      requires Inv(Abs()) && MayRequest(Abs(), r) && Unopposed(List(file), r)
      modifies this
      ensures Inv(Abs()) && Grants(old(Abs()), Abs(), file, r)
    {
      ghost var s := Abs();
      var list := List(file);
      assert list == Locks(s, file) && ListOk(list, nextId);
      assert nextId !in Ids(list) && nextId + 1 !in Ids(list);
      var after, woken := Apply(list, r, nextId, nextId + 1);
      var awake := WakeUp(file, woken);
      files, blocked, nextId := files[file := after], awake, nextId + 2;
      assert Grants(s, Abs(), file, r);
      GrantKeeps(s, Abs(), file, r);
    }

    /** locks_wake_up_blocks with wait == 0: take the waiters of the woken locks off the blocked list. */
    method WakeUp(file: nat, woken: set<nat>) returns (rest: seq<Waiter>)
      ensures rest == Awake(blocked, file, woken)
      ensures forall w :: w in rest <==> w in blocked && !(w.file == file && w.blocker in woken)
    {
      AwakeIn(blocked, file, woken);
      rest := [];
      var i := |blocked|;
      while i > 0
        invariant 0 <= i <= |blocked|
        invariant rest == Awake(blocked[i..], file, woken)
      {
        i := i - 1;
        assert blocked[i..][1..] == blocked[i + 1..];
        if !(blocked[i].file == file && blocked[i].blocker in woken) {
          rest := [blocked[i]] + rest;
        }
      }
      assert blocked[0..] == blocked;
    }

    /** locks_remove_posix */
    method RemoveAll(file: nat, table: nat)
      requires Inv(Abs())
      modifies this
      ensures Inv(Abs()) && Removes(old(Abs()), Abs(), file, table)
    {
      ghost var s := Abs();
      var list := List(file);
      var after, woken := RemovePosix(list, table);
      var awake := WakeUp(file, woken);
      files, blocked := files[file := after], awake;
      RemoveKeeps(s, Abs(), file, table);
    }

    /** A signal ends the sleep in locks_block_on: the request leaves the blocked list, ungranted. */
    method Interrupt(o: Owner)
      requires Inv(Abs())
      modifies this
      ensures Inv(Abs()) && Interrupts(old(Abs()), Abs(), o) && !IsBlocked(blocked, o)
    {
      ghost var s := Abs();
      var rest: seq<Waiter> := [];
      var i := |blocked|;
      while i > 0
        invariant 0 <= i <= |blocked| && Abs() == s
        invariant rest == WithoutOwner(blocked[i..], o)
      {
        i := i - 1;
        assert blocked[i..][1..] == blocked[i + 1..];
        if blocked[i].req.owner != o {
          rest := [blocked[i]] + rest;
        }
      }
      assert blocked[0..] == blocked;
      blocked := rest;
      WithoutOwnerIn(s.blocked, o);
      InterruptKeeps(s, Abs(), o);
    }

    /** F_GETLK: the answer is "free" exactly when the same request without waiting would be granted; to ask about
        unlocking is refused. */
    method GetLock(file: nat, r: Request) returns (answer: Answer)
      requires Inv(Abs())
      ensures answer == Invalid <==> r.kind == UnLck
      ensures answer == Free <==> r.kind != UnLck && Unopposed(List(file), r)
      ensures answer.Blocker? ==> answer.lock in List(file) && Conflict(r, answer.lock)
    {
      if r.kind == UnLck {
        return Invalid;
      }
      var list := List(file);
      assert list == Locks(Abs(), file) && ListOk(list, nextId);
      assert forall f :: f in list ==> (Conflict(r, f) <==> ConflictSwapped(f, r));
      var at := TestLock(list, r);
      if at < |list| {
        return Blocker(list[at]);
      }
      return Free;
    }
  }

  /** -EINVAL, or what F_GETLK reports. */
  datatype Answer = Invalid | Free | Blocker(lock: FileLock)
}
