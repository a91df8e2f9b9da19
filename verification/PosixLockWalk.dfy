/** The list surgery of posix_lock_file (fs/locks.c, from "Find the first old lock" on), and what
    it does to any list at all, well formed or not. */
module PosixLockWalk {
  import opened PosixLockList

  /** The walk's variables. The list is done + rest, and the pointer `before` points at the head of
      rest. caller and left are indices into the list, -1 for "still the request" and NULL. */
  datatype Cursor = Cursor(
    done: seq<FileLock>,
    rest: seq<FileLock>,
    start: int, end: int,
    caller: int,
    left: int,
    added: bool,
    woken: set<nat>)

  function Begin(list: seq<FileLock>, r: Request): Cursor {
    Cursor([], list, r.start, r.end, -1, -1, false, {})
  }

  /** before = &fl->fl_next */
  function Advance(c: Cursor): Cursor
    requires c.rest != []
  {
    c.(done := c.done + [c.rest[0]], rest := c.rest[1..])
  }

  /** locks_delete_lock(before, 0): unlink the lock and wake its waiters. */
  function Delete(c: Cursor): Cursor
    requires c.rest != []
  {
    c.(rest := c.rest[1..], woken := c.woken + {c.rest[0].id})
  }

  /** Both ranges become their union; the lock at the cursor becomes the caller. */
  function MergeHere(c: Cursor): Cursor
    requires c.rest != []
  {
    var fl := c.rest[0];
    var s, e := Min(fl.start, c.start), Max(fl.end, c.end);
    c.(done := c.done + [fl.(start := s, end := e)], rest := c.rest[1..],
       start := s, end := e, caller := |c.done|, added := true)
  }

  function Grow(c: Cursor, s: int, e: int): Cursor
    requires 0 <= c.caller < |c.done|
  {
    c.(done := c.done[c.caller := c.done[c.caller].(start := s, end := e)], start := s, end := e)
  }

  /** The same when the caller already is on the list: it takes the union, the lock at the cursor goes. */
  function MergeDelete(c: Cursor): Cursor
    requires c.rest != [] && 0 <= c.caller < |c.done|
  {
    var fl := c.rest[0];
    Delete(Grow(c, Min(fl.start, c.start), Max(fl.end, c.end)))
  }

  /** The lock at the cursor takes the caller's range and type, and its waiters are woken. */
  function ReplaceHere(c: Cursor, kind: Kind): Cursor
    requires c.rest != []
  {
    var fl := c.rest[0];
    c.(done := c.done + [fl.(start := c.start, end := c.end, kind := kind)], rest := c.rest[1..],
       caller := |c.done|, added := true, woken := c.woken + {fl.id})
  }

  // ---------------------------------------------------------------- what the walk keeps, on any list

  /** Every byte of f was held with f's type already, or was requested. */
  ghost predicate Accounted(list: seq<FileLock>, r: Request, f: FileLock) {
    f.owner == r.owner && f.kind != UnLck && 0 <= f.start && f.end <= OFFSET_MAX &&
    forall b :: Covers(f, b) ==> Holds(list, r.owner, b, f.kind) || (f.kind == r.kind && InRequest(r, b))
  }

  /** g is still there as f: the same lock, possibly wider. */
  predicate Grows(g: FileLock, f: FileLock) {
    f.id == g.id && f.owner == g.owner && f.kind == g.kind && f.start <= g.start && g.end <= f.end
  }

  /** Every lock is still there, or its waiters were woken. */
  ghost predicate Kept(before: seq<FileLock>, after: seq<FileLock>, woken: set<nat>) {
    forall g :: g in before && g.id !in woken ==> exists f :: f in after && Grows(g, f)
  }

  ghost predicate RangeAccounted(list: seq<FileLock>, r: Request, c: Cursor) {
    0 <= c.start <= r.start && r.end <= c.end <= OFFSET_MAX &&
    forall b :: c.start <= b <= c.end ==> InRequest(r, b) || Holds(list, r.owner, b, r.kind)
  }

  ghost predicate Pointers(r: Request, lo: nat, c: Cursor) {
    && -1 <= c.caller < |c.done| && -1 <= c.left < |c.done|
    && (c.caller >= 0 ==>
          lo <= c.caller && c.added && r.kind != UnLck &&
          Is(c.done[c.caller], r, c.start, c.end))
    && (c.left >= 0 ==> lo <= c.left && c.done[c.left].kind != r.kind && c.done[c.left].end >= c.start)
    && (c.added && r.kind != UnLck ==> c.caller >= 0)
  }

  /** f is the caller's lock over s..e. */
  predicate Is(f: FileLock, r: Request, s: int, e: int) {
    f.owner == r.owner && f.kind == r.kind && f.start == s && f.end == e
  }

  ghost predicate IdsFrom(list: seq<FileLock>, done: seq<FileLock>) {
    UniqueIds(done) && forall i :: 0 <= i < |done| ==> done[i].id in Ids(list)
  }

  ghost predicate Walked(list: seq<FileLock>, r: Request, lo: nat, j: nat, c: Cursor) {
    && lo <= j <= |list| && lo <= |c.done|
    && c.done[..lo] == list[..lo] && c.rest == list[j..]
    && (forall i :: lo <= i < j ==> list[i].owner == r.owner)
    && (forall f :: f in c.done[lo..] ==> Accounted(list, r, f))
    && RangeAccounted(list, r, c)
    && Pointers(r, lo, c)
    && Kept(list[lo..j], c.done[lo..], c.woken)
    && IdsFrom(list[..j], c.done)
  }

  lemma FirstId(list: seq<FileLock>, j: nat, c: Cursor)
    requires j < |list| && UniqueIds(list) && IdsFrom(list[..j], c.done)
    ensures forall f: FileLock :: f.id == list[j].id ==> IdsFrom(list[..j + 1], c.done + [f])
    ensures IdsFrom(list[..j + 1], c.done)
  {
    assert list[..j + 1] == list[..j] + [list[j]];
    assert list[j] in list[..j + 1];
    forall i | 0 <= i < |c.done| ensures c.done[i].id != list[j].id && c.done[i].id in Ids(list[..j + 1]) {
      var g :| g in list[..j] && g.id == c.done[i].id;
      assert g in list[..j + 1];
    }
  }

  lemma SelfAccounted(list: seq<FileLock>, r: Request, f: FileLock)
    requires f in list && f.owner == r.owner && Bounded(list)
    ensures Accounted(list, r, f)
  {
  }

  lemma KeptStep(list: seq<FileLock>, lo: nat, j: nat, d: seq<FileLock>, f: FileLock, woken: set<nat>, woken': set<nat>)
    requires lo <= j < |list| && Kept(list[lo..j], d, woken) && woken <= woken'
    requires list[j].id in woken' || Grows(list[j], f)
    ensures Kept(list[lo..j + 1], d + [f], woken')
  {
    assert list[lo..j + 1] == list[lo..j] + [list[j]];
    forall g | g in list[lo..j + 1] && g.id !in woken' ensures exists h :: h in d + [f] && Grows(g, h) {
      if g in list[lo..j] {
        var h :| h in d && Grows(g, h);
        assert h in d + [f];
      } else {
        assert f in d + [f];
      }
    }
  }

  lemma AdvanceWalked(list: seq<FileLock>, r: Request, lo: nat, j: nat, c: Cursor)
    requires Walked(list, r, lo, j, c) && Bounded(list) && UniqueIds(list)
    requires j < |list| && list[j].owner == r.owner
    ensures Walked(list, r, lo, j + 1, Advance(c))
  {
    hide Kept, IdsFrom, Bounded, UniqueIds, Accounted;
    var c' := Advance(c);
    FirstId(list, j, c);
    SelfAccounted(list, r, list[j]);
    assert c'.done[lo..] == c.done[lo..] + [list[j]];
    KeptStep(list, lo, j, c.done[lo..], list[j], c.woken, c.woken);
    assert c'.done[..lo] == c.done[..lo];
  }

  lemma DeleteWalked(list: seq<FileLock>, r: Request, lo: nat, j: nat, c: Cursor)
    requires Walked(list, r, lo, j, c) && UniqueIds(list)
    requires j < |list| && list[j].owner == r.owner
    ensures Walked(list, r, lo, j + 1, Delete(c))
  {
    FirstId(list, j, c);
    assert list[lo..j + 1] == list[lo..j] + [list[j]];
  }

  lemma MergeAccounted(list: seq<FileLock>, r: Request, lo: nat, j: nat, c: Cursor)
    requires Walked(list, r, lo, j, c) && Bounded(list)
    requires j < |list| && list[j].owner == r.owner && list[j].kind == r.kind
    requires list[j].end >= c.start - 1 && list[j].start <= c.end + 1
    ensures var s, e := Min(list[j].start, c.start), Max(list[j].end, c.end);
            && 0 <= s && e <= OFFSET_MAX
            && forall b :: s <= b <= e ==> InRequest(r, b) || Holds(list, r.owner, b, r.kind)
  {
    var s, e := Min(list[j].start, c.start), Max(list[j].end, c.end);
    forall b | s <= b <= e ensures InRequest(r, b) || Holds(list, r.owner, b, r.kind) {
      if !(c.start <= b <= c.end) {
        assert Covers(list[j], b);
      }
    }
  }

  lemma MergeHereWalked(list: seq<FileLock>, r: Request, lo: nat, j: nat, c: Cursor)
    requires Walked(list, r, lo, j, c) && Bounded(list) && UniqueIds(list) && !c.added
    requires j < |list| && list[j].owner == r.owner && list[j].kind == r.kind
    requires list[j].end >= c.start - 1 && list[j].start <= c.end + 1
    ensures Walked(list, r, lo, j + 1, MergeHere(c))
  {
    hide Kept, IdsFrom, UniqueIds;
    var c' := MergeHere(c);
    MergeAccounted(list, r, lo, j, c);
    FirstId(list, j, c);
    var f := c'.done[|c.done|];
    assert c'.done[lo..] == c.done[lo..] + [f];
    KeptStep(list, lo, j, c.done[lo..], f, c.woken, c.woken);
    assert c'.done[..lo] == c.done[..lo];
    assert list[j] in list;
  }

  lemma KeptUpdate(before: seq<FileLock>, d: seq<FileLock>, i: nat, f: FileLock, woken: set<nat>)
    requires Kept(before, d, woken) && i < |d| && Grows(d[i], f)
    ensures Kept(before, d[i := f], woken)
  {
    var d' := d[i := f];
    forall g | g in before && g.id !in woken ensures exists h :: h in d' && Grows(g, h) {
      var h :| h in d && Grows(g, h);
      var n :| 0 <= n < |d| && d[n] == h;
      assert d'[n] in d' && Grows(g, d'[n]);
    }
  }

  lemma IdsUpdate(list: seq<FileLock>, d: seq<FileLock>, i: nat, f: FileLock)
    requires IdsFrom(list, d) && i < |d| && f.id == d[i].id
    ensures IdsFrom(list, d[i := f])
  {
  }

  lemma AccountedUpdate(list: seq<FileLock>, r: Request, d: seq<FileLock>, i: nat, f: FileLock)
    requires i < |d| && Accounted(list, r, f) && forall g :: g in d ==> Accounted(list, r, g)
    ensures forall g :: g in d[i := f] ==> Accounted(list, r, g)
  {
  }

  /** Widening the caller's own lock keeps everything the walk keeps. */
  lemma GrowWalked(list: seq<FileLock>, r: Request, lo: nat, j: nat, c: Cursor, s: int, e: int)
    requires Walked(list, r, lo, j, c) && c.caller >= 0
    requires 0 <= s <= c.start && c.end <= e <= OFFSET_MAX
    requires forall b :: s <= b <= e ==> InRequest(r, b) || Holds(list, r.owner, b, r.kind)
    ensures Walked(list, r, lo, j, Grow(c, s, e))
  {
    hide Kept, IdsFrom, Bounded, UniqueIds, Grows;
    var c' := Grow(c, s, e);
    var d, d', i := c.done[lo..], c'.done[lo..], c.caller - lo;
    var h' := c'.done[c.caller];
    assert d' == d[i := h'];
    assert c'.done[..lo] == c.done[..lo];
    assert d[i] in d;
    AccountedUpdate(list, r, d, i, h');
    KeptUpdate(list[lo..j], d, i, h', c.woken);
    IdsUpdate(list[..j], c.done, c.caller, h');
  }

  lemma MergeDeleteWalked(list: seq<FileLock>, r: Request, lo: nat, j: nat, c: Cursor)
    requires Walked(list, r, lo, j, c) && Bounded(list) && UniqueIds(list) && c.caller >= 0
    requires j < |list| && list[j].owner == r.owner && list[j].kind == r.kind
    requires list[j].end >= c.start - 1 && list[j].start <= c.end + 1
    ensures Walked(list, r, lo, j + 1, MergeDelete(c))
  {
    var s, e := Min(list[j].start, c.start), Max(list[j].end, c.end);
    MergeAccounted(list, r, lo, j, c);
    GrowWalked(list, r, lo, j, c, s, e);
    DeleteWalked(list, r, lo, j, Grow(c, s, e));
  }

  lemma ReplaceWalked(list: seq<FileLock>, r: Request, lo: nat, j: nat, c: Cursor)
    requires Walked(list, r, lo, j, c) && Bounded(list) && UniqueIds(list) && !c.added && r.kind != UnLck
    requires j < |list| && list[j].owner == r.owner
    ensures Walked(list, r, lo, j + 1, ReplaceHere(c, r.kind))
  {
    hide Kept, IdsFrom, Bounded, UniqueIds, Grows;
    var c' := ReplaceHere(c, r.kind);
    FirstId(list, j, c);
    var f := c'.done[|c.done|];
    assert c'.done[lo..] == c.done[lo..] + [f];
    KeptStep(list, lo, j, c.done[lo..], f, c.woken, c'.woken);
    assert c'.done[..lo] == c.done[..lo];
    assert list[j] in list;
  }

  // ---------------------------------------------------------------- after the walk

  /** Where the walk stopped: right is the lock at the cursor if it reaches past the caller's end,
      and split says that it also starts before the caller. */
  datatype Stop = Stop(right: bool, split: bool)

  predicate StopOk(r: Request, c: Cursor, st: Stop) {
    && (st.split ==> st.right)
    && (st.right ==>
          c.rest != [] && c.rest[0].owner == r.owner && c.rest[0].kind != r.kind &&
          c.rest[0].start <= c.end < c.rest[0].end && c.rest[0].end >= c.start)
    && (st.right && r.kind == UnLck ==> c.added)
    && (c.left >= 0 && r.kind == UnLck ==> c.added)
    && (st.split <==> st.right && c.rest[0].start < c.start)
  }

  /** The locks up to the cursor, the left remnant cut back. */
  function Trimmed(c: Cursor, st: Stop): seq<FileLock>
    requires c.left < |c.done|
  {
    if c.left >= 0 && !st.split then c.done[c.left := c.done[c.left].(end := c.start - 1)] else c.done
  }

  /** The locks that are linked in at the cursor: the second half of a split lock, and the new lock. */
  function Inserted(r: Request, c: Cursor, st: Stop, id1: nat, id2: nat): seq<FileLock>
    requires st.split ==> c.rest != []
  {
    (if st.split then [c.rest[0].(id := id2, end := c.start - 1)] else []) +
    (if c.added || r.kind == UnLck then [] else [FileLock(id1, r.owner, r.kind, c.start, c.end)])
  }

  function CutRight(c: Cursor, st: Stop): seq<FileLock>
    requires st.right ==> c.rest != []
  {
    if st.right then [c.rest[0].(start := c.end + 1)] else []
  }

  function Untouched(c: Cursor, st: Stop): seq<FileLock>
    requires st.right ==> c.rest != []
  {
    if st.right then c.rest[1..] else c.rest
  }

  function Finished(r: Request, c: Cursor, st: Stop, id1: nat, id2: nat): seq<FileLock>
    requires StopOk(r, c, st) && c.left < |c.done|
  {
    Trimmed(c, st) + Inserted(r, c, st, id1, id2) + CutRight(c, st) + Untouched(c, st)
  }

  function FinallyWoken(c: Cursor, st: Stop): set<nat>
    requires c.left < |c.done| && (st.right ==> c.rest != [])
  {
    c.woken + (if st.right then {c.rest[0].id} else {}) +
    (if c.left >= 0 && !st.split then {c.done[c.left].id} else {})
  }

  lemma OthersAppend(a: seq<FileLock>, b: seq<FileLock>, o: Owner)
    ensures Others(a + b, o) == Others(a, o) + Others(b, o)
  {
    if a == [] {
      assert a + b == b;
    } else {
      assert (a + b)[1..] == a[1..] + b;
      OthersAppend(a[1..], b, o);
    }
  }

  lemma OthersOwn(a: seq<FileLock>, o: Owner)
    requires forall f :: f in a ==> f.owner == o
    ensures Others(a, o) == []
  {
  }

  /** What one call keeps on any list: who holds what can only change by the request, the other
      owners' locks stay as they are, and a lock that no longer covers what it did had its waiters woken. */
  ghost predicate SafeStep(list: seq<FileLock>, list': seq<FileLock>, r: Request, woken: set<nat>, fresh_: set<nat>) {
    && Bounded(list') && UniqueIds(list') && Ids(list') <= Ids(list) + fresh_
    && NothingExtra(list, list', r)
    && Kept(list, list', woken)
    && Others(list', r.owner) == Others(list, r.owner)
  }

  /** The owner holds the requested type on all the requested bytes. */
  ghost predicate HoldsAll(list: seq<FileLock>, r: Request) {
    forall b {:trigger InRequest(r, b)} :: InRequest(r, b) ==> Holds(list, r.owner, b, r.kind)
  }

  /** Whatever the list looked like, what is asked for is held afterwards. */
  lemma FinishedGrants(list: seq<FileLock>, r: Request, lo: nat, j: nat, c: Cursor, st: Stop, id1: nat, id2: nat)
    requires Walked(list, r, lo, j, c) && StopOk(r, c, st) && r.kind != UnLck
    ensures HoldsAll(Finished(r, c, st, id1, id2), r)
  {
    hide Kept, IdsFrom, Accounted;
    var after := Finished(r, c, st, id1, id2);
    var mine := if c.added then c.done[c.caller] else FileLock(id1, r.owner, r.kind, c.start, c.end);
    if c.added {
      assert Trimmed(c, st)[c.caller] == mine;
      assert after[c.caller] == mine;
    } else {
      assert mine in Inserted(r, c, st, id1, id2);
    }
    assert mine in after && Is(mine, r, c.start, c.end);
    forall b | InRequest(r, b) ensures Holds(after, r.owner, b, r.kind) {
      assert Covers(mine, b);
    }
  }

  /** The middle of the finished list. */
  function Middle(r: Request, c: Cursor, st: Stop, lo: nat, id1: nat, id2: nat): seq<FileLock>
    requires StopOk(r, c, st) && c.left < |c.done| && lo <= |c.done|
  {
    Trimmed(c, st)[lo..] + Inserted(r, c, st, id1, id2) + CutRight(c, st)
  }

  lemma KeptDrop(before: seq<FileLock>, d: seq<FileLock>, i: nat, f: FileLock, woken: set<nat>)
    requires Kept(before, d, woken) && i < |d|
    ensures Kept(before, d[i := f], woken + {d[i].id})
  {
    var d' := d[i := f];
    forall g | g in before && g.id !in woken + {d[i].id} ensures exists h :: h in d' && Grows(g, h) {
      var h :| h in d && Grows(g, h);
      var n :| 0 <= n < |d| && d[n] == h;
      assert d'[n] in d';
    }
  }

  lemma KeptMore(before: seq<FileLock>, d: seq<FileLock>, woken: set<nat>, woken': set<nat>)
    requires Kept(before, d, woken) && woken <= woken'
    ensures Kept(before, d, woken')
  {
  }

  lemma TrimmedAccounted(list: seq<FileLock>, r: Request, lo: nat, j: nat, c: Cursor, st: Stop)
    requires Walked(list, r, lo, j, c) && StopOk(r, c, st)
    ensures forall f :: f in Trimmed(c, st)[lo..] ==> Accounted(list, r, f)
    ensures Trimmed(c, st)[..lo] == list[..lo]
    ensures Kept(list[lo..j], Trimmed(c, st)[lo..], FinallyWoken(c, st))
    ensures IdsFrom(list[..j], Trimmed(c, st))
  {
    hide Kept, IdsFrom, RangeAccounted, UniqueIds;
    if c.left >= 0 && !st.split {
      var d, i := c.done[lo..], c.left - lo;
      var f := c.done[c.left].(end := c.start - 1);
      assert d[i] in d;
      assert Trimmed(c, st)[lo..] == d[i := f];
      assert Accounted(list, r, d[i]);
      AccountedUpdate(list, r, d, i, f);
      IdsUpdate(list[..j], c.done, c.left, f);
      KeptDrop(list[lo..j], d, i, f, c.woken);
      KeptMore(list[lo..j], d[i := f], c.woken + {d[i].id}, FinallyWoken(c, st));
    } else {
      KeptMore(list[lo..j], c.done[lo..], c.woken, FinallyWoken(c, st));
    }
  }

  lemma MiddleAccounted(list: seq<FileLock>, r: Request, lo: nat, j: nat, c: Cursor, st: Stop, id1: nat, id2: nat)
    requires Walked(list, r, lo, j, c) && StopOk(r, c, st) && Bounded(list)
    ensures forall f :: f in Middle(r, c, st, lo, id1, id2) ==> Accounted(list, r, f)
  {
    hide Kept, IdsFrom, UniqueIds;
    TrimmedAccounted(list, r, lo, j, c, st);
    if st.right {
      assert c.rest[0] == list[j] && list[j] in list;
      SelfAccounted(list, r, list[j]);
    }
    assert forall f :: f in Inserted(r, c, st, id1, id2) ==> Accounted(list, r, f);
    assert forall f :: f in CutRight(c, st) ==> Accounted(list, r, f);
  }

  /** The finished list is the old one with a stretch of the caller's own locks exchanged. */
  lemma FinishedShape(list: seq<FileLock>, r: Request, lo: nat, j: nat, c: Cursor, st: Stop, id1: nat, id2: nat)
    requires lo <= j <= |list| && lo <= |c.done| && c.left < |c.done| && c.rest == list[j..]
    requires Trimmed(c, st)[..lo] == list[..lo] && StopOk(r, c, st)
    ensures var j' := if st.right then j + 1 else j;
            && lo <= j' <= |list|
            && Finished(r, c, st, id1, id2) == list[..lo] + Middle(r, c, st, lo, id1, id2) + list[j'..]
  {
    assert Trimmed(c, st) == list[..lo] + Trimmed(c, st)[lo..];
    assert st.right ==> c.rest[1..] == list[j + 1..];
  }

  lemma KeptSplice(list: seq<FileLock>, lo: nat, j: nat, j': nat, m: seq<FileLock>, woken: set<nat>)
    requires lo <= j <= j' <= |list| && Kept(list[lo..j], m, woken)
    requires forall i :: j <= i < j' ==> list[i].id in woken
    ensures Kept(list, list[..lo] + m + list[j'..], woken)
  {
    var after := list[..lo] + m + list[j'..];
    forall g | g in list && g.id !in woken ensures exists f :: f in after && Grows(g, f) {
      var i :| 0 <= i < |list| && list[i] == g;
      if lo <= i < j {
        assert list[lo..j][i - lo] == g;
        var f :| f in m && Grows(g, f);
        assert f in after;
      } else {
        assert i < lo ==> g in list[..lo];
        assert i >= j' ==> g == list[j'..][i - j'];
        assert g in after && Grows(g, g);
      }
    }
  }

  lemma KeptAppend(before: seq<FileLock>, d: seq<FileLock>, m: seq<FileLock>, woken: set<nat>)
    requires Kept(before, d, woken)
    ensures Kept(before, d + m, woken)
  {
    forall g | g in before && g.id !in woken ensures exists h :: h in d + m && Grows(g, h) {
      var h :| h in d && Grows(g, h);
      assert h in d + m;
    }
  }

  lemma FinishedKept(list: seq<FileLock>, r: Request, lo: nat, j: nat, c: Cursor, st: Stop, id1: nat, id2: nat)
    requires Walked(list, r, lo, j, c) && StopOk(r, c, st)
    ensures Kept(list, Finished(r, c, st, id1, id2), FinallyWoken(c, st))
  {
    hide Kept, IdsFrom, RangeAccounted, Accounted, Finished;
    TrimmedAccounted(list, r, lo, j, c, st);
    FinishedShape(list, r, lo, j, c, st, id1, id2);
    var j', woken := if st.right then j + 1 else j, FinallyWoken(c, st);
    var d, m := Trimmed(c, st)[lo..], Inserted(r, c, st, id1, id2) + CutRight(c, st);
    assert st.right ==> list[j].id in woken;
    hide Trimmed, Inserted, CutRight, FinallyWoken;
    KeptAppend(list[lo..j], d, m, woken);
    assert Middle(r, c, st, lo, id1, id2) == d + m;
    KeptSplice(list, lo, j, j', d + m, woken);
  }

  lemma UniqueAppend(a: seq<FileLock>, b: seq<FileLock>)
    requires UniqueIds(a) && UniqueIds(b) && Ids(a) !! Ids(b)
    ensures UniqueIds(a + b) && Ids(a + b) == Ids(a) + Ids(b)
  {
    forall i, k | 0 <= i < |a| && 0 <= k < |b| ensures a[i].id != b[k].id {
      assert a[i].id in Ids(a) && b[k].id in Ids(b);
    }
    forall id | id in Ids(a) + Ids(b) ensures id in Ids(a + b) {
      var f :| f in a + b && f.id == id;
    }
  }

  lemma UniqueSplit(list: seq<FileLock>, j: nat)
    requires UniqueIds(list) && j <= |list|
    ensures UniqueIds(list[j..]) && Ids(list[j..]) <= Ids(list) && Ids(list[..j]) <= Ids(list)
    ensures Ids(list[j..]) !! Ids(list[..j])
  {
    forall f, g | f in list[..j] && g in list[j..] ensures f.id != g.id {
      var i :| 0 <= i < j && list[i] == f;
      var k :| 0 <= k < |list| - j && list[j..][k] == g;
    }
  }

  lemma SameIds(a: seq<FileLock>, b: seq<FileLock>)
    requires |a| == |b| && forall i :: 0 <= i < |a| ==> a[i].id == b[i].id
    ensures Ids(a) == Ids(b) && (UniqueIds(a) ==> UniqueIds(b))
  {
    forall id ensures id in Ids(a) <==> id in Ids(b) {
      if f :| f in a && f.id == id {
        var i :| 0 <= i < |a| && a[i] == f;
        assert b[i] in b;
      }
      if f :| f in b && f.id == id {
        var i :| 0 <= i < |b| && b[i] == f;
        assert a[i] in a;
      }
    }
  }

  lemma IdsFromSubset(list: seq<FileLock>, d: seq<FileLock>)
    requires IdsFrom(list, d)
    ensures Ids(d) <= Ids(list)
  {
    forall id | id in Ids(d) ensures id in Ids(list) {
      var f :| f in d && f.id == id;
      var i :| 0 <= i < |d| && d[i] == f;
    }
  }

  lemma InsertedIds(r: Request, c: Cursor, st: Stop, id1: nat, id2: nat)
    requires id1 != id2 && (st.split ==> c.rest != [])
    ensures Ids(Inserted(r, c, st, id1, id2)) <= {id1, id2} && UniqueIds(Inserted(r, c, st, id1, id2))
  {
  }

  lemma FinishedIds(list: seq<FileLock>, r: Request, lo: nat, j: nat, c: Cursor, st: Stop, id1: nat, id2: nat)
    requires Walked(list, r, lo, j, c) && StopOk(r, c, st) && UniqueIds(list)
    requires id1 != id2 && id1 !in Ids(list) && id2 !in Ids(list)
    ensures UniqueIds(Finished(r, c, st, id1, id2)) && Ids(Finished(r, c, st, id1, id2)) <= Ids(list) + {id1, id2}
  {
    hide Kept, Accounted, RangeAccounted, Ids;
    TrimmedAccounted(list, r, lo, j, c, st);
    UniqueSplit(list, j);
    SameIds(list[j..], CutRight(c, st) + Untouched(c, st));
    var d, m, n := Trimmed(c, st), Inserted(r, c, st, id1, id2), CutRight(c, st) + Untouched(c, st);
    assert Finished(r, c, st, id1, id2) == (d + m) + n;
    IdsFromSubset(list[..j], d);
    InsertedIds(r, c, st, id1, id2);
    assert UniqueIds(d);
    hide UniqueIds;
    UniqueAppend(d, m);
    UniqueAppend(d + m, n);
  }

  /** The walk and its finish are safe on any list. */
  lemma FinishedSafe(list: seq<FileLock>, r: Request, lo: nat, j: nat, c: Cursor, st: Stop, id1: nat, id2: nat)
    requires Walked(list, r, lo, j, c) && StopOk(r, c, st) && Bounded(list) && UniqueIds(list)
    requires id1 != id2 && id1 !in Ids(list) && id2 !in Ids(list)
    ensures SafeStep(list, Finished(r, c, st, id1, id2), r, FinallyWoken(c, st), {id1, id2})
  {
    var m := Middle(r, c, st, lo, id1, id2);
    var j' := if st.right then j + 1 else j;
    TrimmedAccounted(list, r, lo, j, c, st);
    FinishedShape(list, r, lo, j, c, st, id1, id2);
    MiddleAccounted(list, r, lo, j, c, st, id1, id2);
    FinishedKept(list, r, lo, j, c, st, id1, id2);
    FinishedIds(list, r, lo, j, c, st, id1, id2);
    hide Kept, IdsFrom, Ids, UniqueIds, RangeAccounted, Finished, FinallyWoken, Middle, Trimmed, Holds, Others;
    OthersSplice(list, r.owner, lo, j', m);
    NothingExtraSplice(list, r, lo, j', m);
  }

  lemma NothingExtraSplice(list: seq<FileLock>, r: Request, lo: nat, j: nat, m: seq<FileLock>)
    requires lo <= j <= |list| && Bounded(list)
    requires forall f :: f in m ==> Accounted(list, r, f)
    ensures Bounded(list[..lo] + m + list[j..])
    ensures NothingExtra(list, list[..lo] + m + list[j..], r)
  {
    var after := list[..lo] + m + list[j..];
    assert forall f :: f in after ==> f in list || f in m;
    forall o, b, k | Holds(after, o, b, k)
      ensures Holds(list, o, b, k) || (o == r.owner && InRequest(r, b) && k == r.kind)
    {
      var f :| f in after && f.owner == o && f.kind == k && Covers(f, b);
    }
  }

  lemma OthersSplice(list: seq<FileLock>, o: Owner, lo: nat, j: nat, m: seq<FileLock>)
    requires lo <= j <= |list|
    requires forall i :: lo <= i < j ==> list[i].owner == o
    requires forall f :: f in m ==> f.owner == o
    ensures Others(list[..lo] + m + list[j..], o) == Others(list, o)
  {
    var a, g, z := list[..lo], list[lo..j], list[j..];
    assert list == a + g + z;
    OthersAppend(a + m, z, o); OthersAppend(a, m, o); OthersOwn(m, o);
    OthersAppend(a + g, z, o); OthersAppend(a, g, o); OthersOwn(g, o);
  }
}
