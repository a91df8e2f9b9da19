/** posix_lock_file, from the walk to the finished list: on every list it is safe, and on a
    well-formed list it is exactly the fcntl() update unless the addition of one to the request's end wraps. */
module PosixLockFile {
  import opened PosixLockList
  import opened PosixLockWalk
  import opened PosixLockSplice

  // ---------------------------------------------------------------- the walk on a well-formed list

  /** The locks before the caller's range, and the one that becomes the left remnant. */
  ghost predicate Passed(list: seq<FileLock>, r: Request, lo: nat, k: nat, c: Cursor)
    requires lo <= k <= |list|
  {
    && (forall i :: lo <= i < k && i != c.left ==>
          list[i].end < c.start && (list[i].kind == r.kind ==> list[i].end + 1 < c.start))
    && (c.left >= 0 ==>
          && c.left == k - 1 && lo < k && c.start == r.start && list[k - 1].kind != r.kind
          && list[k - 1].start < r.start <= list[k - 1].end <= r.end
          && (r.kind == UnLck ==> c.added))
  }

  /** The locks that the caller has swallowed so far. */
  ghost predicate Swallowed(list: seq<FileLock>, r: Request, k: nat, j: nat, c: Cursor)
    requires k <= j <= |list|
  {
    && (forall i :: k <= i < j ==>
          && c.start <= list[i].start && list[i].end <= c.end
          && (list[i].kind != r.kind ==> r.start <= list[i].start && list[i].end <= r.end))
    && (c.caller >= 0 ==> k < j && r.start - 1 <= list[k].end)
    && (c.end > r.end ==> k < j && list[j - 1].end == c.end && list[j - 1].kind == r.kind)
  }

  ghost predicate Tidy(list: seq<FileLock>, r: Request, lo: nat, k: nat, j: nat, c: Cursor) {
    && lo <= k <= j <= |list| && c.rest == list[j..]
    && c.start <= r.start && r.end <= c.end
    && (forall i :: 0 <= i < lo ==> list[i].owner != r.owner)
    && (forall i :: lo <= i < j ==> list[i].owner == r.owner)
    && (lo < |list| ==> list[lo].owner == r.owner)
    && |c.done| == (if c.caller >= 0 then k + 1 else k) && c.done[..k] == list[..k]
    && (c.caller >= 0 ==> c.caller == k)
    && (!c.added ==> k == j && c.caller < 0)
    && (c.caller < 0 ==> c.start == r.start && c.end == r.end)
    && (r.kind == UnLck ==> c.caller < 0)
    && Passed(list, r, lo, k, c)
    && Swallowed(list, r, k, j, c)
    && (r.end == OFFSET_MAX ==>
          c.start == r.start && forall i :: lo <= i < j && list[i].kind == r.kind ==> list[i].end < r.start - 1)
  }

  /** A lock that starts below the caller's range is met before anything is taken or cut. */
  lemma NothingYet(list: seq<FileLock>, r: Request, lo: nat, k: nat, j: nat, c: Cursor)
    requires Ordered(list) && AllProper(list) && ValidRequest(r) && Tidy(list, r, lo, k, j, c)
    requires j < |list| && list[j].owner == r.owner && list[j].start < c.start
    ensures k == j && c.left < 0
  {
    assert forall i :: lo <= i < j ==> Before(list[i], list[j]) && Proper(list[i]);
  }

  lemma AdvanceTidy(list: seq<FileLock>, r: Request, lo: nat, k: nat, j: nat, c: Cursor)
    requires Ordered(list) && AllProper(list) && ValidRequest(r) && Tidy(list, r, lo, k, j, c)
    requires j < |list| && list[j].owner == r.owner
    requires list[j].end < c.start && (list[j].kind == r.kind ==> list[j].end < c.start - 1)
    ensures Tidy(list, r, lo, k + 1, j + 1, Advance(c))
  {
    assert Proper(list[j]);
    NothingYet(list, r, lo, k, j, c);
    hide Ordered, AllProper;
    assert list[j..][1..] == list[j + 1..];
    assert (c.done + [list[j]])[..k + 1] == list[..k + 1];
  }

  lemma LeftTidy(list: seq<FileLock>, r: Request, lo: nat, k: nat, j: nat, c: Cursor)
    requires Ordered(list) && AllProper(list) && ValidRequest(r) && Tidy(list, r, lo, k, j, c)
    requires j < |list| && list[j].owner == r.owner && list[j].kind != r.kind
    requires list[j].start < c.start <= list[j].end <= c.end && (r.kind == UnLck ==> c.added)
    ensures Tidy(list, r, lo, k + 1, j + 1, Advance(c.(left := |c.done|)))
  {
    NothingYet(list, r, lo, k, j, c);
    assert forall i :: lo <= i < j ==> Before(list[i], list[j]);
    hide Ordered, AllProper;
    assert list[j..][1..] == list[j + 1..];
    assert (c.done + [list[j]])[..k + 1] == list[..k + 1];
  }

  lemma MergeHereTidy(list: seq<FileLock>, r: Request, lo: nat, k: nat, j: nat, c: Cursor)
    requires Ordered(list) && AllProper(list) && ValidRequest(r) && Tidy(list, r, lo, k, j, c) && !c.added
    requires j < |list| && list[j].owner == r.owner && list[j].kind == r.kind && r.end < OFFSET_MAX
    requires c.start - 1 <= list[j].end && list[j].start <= c.end + 1
    ensures Tidy(list, r, lo, k, j + 1, MergeHere(c))
  {
    assert list[j..][1..] == list[j + 1..];
    assert Proper(list[j]);
    assert MergeHere(c).done[..k] == c.done[..k];
    forall i | lo <= i < k ensures Before(list[i], list[j]) {}
  }

  lemma MergeDeleteTidy(list: seq<FileLock>, r: Request, lo: nat, k: nat, j: nat, c: Cursor)
    requires Ordered(list) && AllProper(list) && ValidRequest(r) && Tidy(list, r, lo, k, j, c) && c.caller >= 0
    requires j < |list| && list[j].owner == r.owner && list[j].kind == r.kind && r.end < OFFSET_MAX
    requires c.start - 1 <= list[j].end && list[j].start <= c.end + 1
    ensures Tidy(list, r, lo, k, j + 1, MergeDelete(c))
  {
    assert list[j..][1..] == list[j + 1..];
    assert Before(list[k], list[j]) && Proper(list[k]) && Proper(list[j]);
    assert Before(list[j - 1], list[j]);
    assert MergeDelete(c).done[..k] == c.done[..k];
    assert MergeDelete(c).start == c.start;
  }

  lemma DeleteTidy(list: seq<FileLock>, r: Request, lo: nat, k: nat, j: nat, c: Cursor)
    requires Ordered(list) && AllProper(list) && ValidRequest(r) && Tidy(list, r, lo, k, j, c)
    requires c.added
    requires j < |list| && list[j].owner == r.owner && list[j].kind != r.kind
    requires c.start <= list[j].start && list[j].end <= c.end
    ensures Tidy(list, r, lo, k, j + 1, Delete(c))
  {
    assert list[j..][1..] == list[j + 1..];
    assert Proper(list[j]);
    if k < j {
      assert Before(list[k], list[j]) && Before(list[j - 1], list[j]);
    }
  }

  lemma ReplaceTidy(list: seq<FileLock>, r: Request, lo: nat, k: nat, j: nat, c: Cursor)
    requires Ordered(list) && AllProper(list) && ValidRequest(r) && Tidy(list, r, lo, k, j, c)
    requires !c.added && r.kind != UnLck
    requires j < |list| && list[j].owner == r.owner && list[j].kind != r.kind
    requires c.start <= list[j].start && list[j].end <= c.end
    ensures Tidy(list, r, lo, k, j + 1, ReplaceHere(c, r.kind))
  {
    assert list[j..][1..] == list[j + 1..];
    assert Proper(list[j]);
    assert ReplaceHere(c, r.kind).done[..k] == c.done[..k];
  }

  // ---------------------------------------------------------------- where the walk stops

  /** The locks the walk has not reached lie clear of the caller's range, but for the lock at the cursor when it is
      cut. */
  predicate StopsClear(list: seq<FileLock>, r: Request, j: nat, c: Cursor, st: Stop)
    requires j <= |list|
  {
    if st.right then true
    else j < |list| && list[j].owner == r.owner ==>
      c.end < list[j].start && (list[j].kind == r.kind ==> c.end + 1 < list[j].start)
  }

  /** The request runs to the end of file and reaches or touches a lock of its own type and owner:
      the case in which the test at the cursor compares with a wrapped number. */
  ghost predicate WrapsOnto(list: seq<FileLock>, r: Request) {
    r.end == OFFSET_MAX && exists f :: f in list && f.owner == r.owner && f.kind == r.kind && r.start - 1 <= f.end
  }

  /** ... and the owner holds a lock of the other type behind it. */
  ghost predicate WrapHides(list: seq<FileLock>, r: Request) {
    r.end == OFFSET_MAX && r.kind != UnLck &&
    exists i, n :: 0 <= i < n < |list| && list[i].owner == r.owner && list[n].owner == r.owner &&
                   list[i].kind == r.kind && r.start - 1 <= list[i].end && list[n].kind != r.kind
  }

  function SpliceOf(list: seq<FileLock>, r: Request, lo: nat, k: nat, j: nat, c: Cursor, st: Stop, id1: nat,
                    id2: nat): Splice
    requires k <= |list| && (c.left >= 0 ==> 0 < k) && (c.caller >= 0 ==> k < |c.done|)
    requires st.right || st.split ==> c.rest != []
  {
    Splice(
      lo,
      if c.left >= 0 then k - 1 else k,
      if st.right then j + 1 else j,
      c.start, c.end,
      if c.left >= 0 then [list[k - 1].(end := c.start - 1)]
      else if st.split then [c.rest[0].(id := id2, end := c.start - 1)] else [],
      if r.kind == UnLck then []
      else if c.caller >= 0 then [c.done[k]] else [FileLock(id1, r.owner, r.kind, c.start, c.end)],
      CutRight(c, st))
  }

  /** A lock cut on the right is the only other overlap, and it cannot also be cut on the left twice. */
  lemma SplitAlone(list: seq<FileLock>, r: Request, lo: nat, k: nat, j: nat, c: Cursor, st: Stop)
    requires Ordered(list) && AllProper(list) && ValidRequest(r) && Tidy(list, r, lo, k, j, c) && StopOk(r, c, st)
    ensures st.split ==> c.left < 0 && c.caller < 0 && k == j
    ensures st.right ==> c.end == r.end && c.rest[0] == list[j]
  {
    if st.right {
      assert c.rest[0] == list[j] && Proper(list[j]);
      assert k < j ==> Before(list[k], list[j]) && Before(list[j - 1], list[j]) && Proper(list[k]);
      assert c.left >= 0 ==> Before(list[k - 1], list[j]);
    }
  }

  lemma TrimmedLeft(list: seq<FileLock>, k: nat, c: Cursor, st: Stop)
    requires 0 < k <= |list| && c.left == k - 1 && !st.split
    requires |c.done| == (if c.caller >= 0 then k + 1 else k) && c.done[..k] == list[..k]
    ensures Trimmed(c, st) ==
            list[..k - 1] + [list[k - 1].(end := c.start - 1)] + (if c.caller >= 0 then [c.done[k]] else [])
  {
    assert c.done[k - 1] == list[..k][k - 1];
    assert c.done[..k - 1] == list[..k][..k - 1];
  }

  lemma HeadIsSplice(list: seq<FileLock>, r: Request, k: nat, c: Cursor, st: Stop, id1: nat, id2: nat)
    requires k <= |list| && c.left < |c.done| && (st.split ==> c.rest != [])
    requires |c.done| == (if c.caller >= 0 then k + 1 else k) && c.done[..k] == list[..k]
    requires c.caller >= 0 ==> c.added && r.kind != UnLck
    requires c.added && r.kind != UnLck ==> c.caller >= 0
    requires c.left >= 0 ==> c.left == k - 1 && !st.split
    requires st.split ==> c.caller < 0
    ensures var s := SpliceOf(list, r, 0, k, k, c, Stop(false, st.split), id1, id2);
            Trimmed(c, st) + Inserted(r, c, st, id1, id2) == list[..s.k] + s.left + s.mine
  {
    assert c.done == list[..k] + (if c.caller >= 0 then [c.done[k]] else []);
    if c.left >= 0 {
      TrimmedLeft(list, k, c, st);
    }
  }

  lemma FinishedIsSplice(list: seq<FileLock>, r: Request, lo: nat, k: nat, j: nat, c: Cursor, st: Stop, id1: nat,
                         id2: nat)
    requires Ordered(list) && AllProper(list) && ValidRequest(r)
    requires Tidy(list, r, lo, k, j, c) && Pointers(r, lo, c) && StopOk(r, c, st)
    ensures SpliceOf(list, r, lo, k, j, c, st, id1, id2).j <= |list|
    ensures Finished(r, c, st, id1, id2) == Result(list, SpliceOf(list, r, lo, k, j, c, st, id1, id2))
  {
    SplitAlone(list, r, lo, k, j, c, st);
    HeadIsSplice(list, r, k, c, st, id1, id2);
    var s := SpliceOf(list, r, lo, k, j, c, st, id1, id2);
    assert Untouched(c, st) == list[s.j..];
  }

  lemma ClearSplice(list: seq<FileLock>, r: Request, lo: nat, k: nat, j: nat, c: Cursor, st: Stop, id1: nat, id2: nat)
    requires Ordered(list) && AllProper(list) && ValidRequest(r)
    requires Tidy(list, r, lo, k, j, c) && Walked(list, r, lo, j, c) && StopOk(r, c, st)
    requires StopsClear(list, r, j, c, st)
    requires forall i :: j <= i < |list| && list[i].owner == r.owner ==> list[j].owner == r.owner
    ensures var s := SpliceOf(list, r, lo, k, j, c, st, id1, id2); Bounds(list, r, s) && Clear(list, r, s)
  {
    SplitAlone(list, r, lo, k, j, c, st);
    var s := SpliceOf(list, r, lo, k, j, c, st, id1, id2);
    forall i | s.j <= i < |list| && list[i].owner == r.owner
      ensures s.end < list[i].start && (list[i].kind == r.kind ==> s.end + 1 < list[i].start)
    {
      assert i > j ==> Before(list[j], list[i]);
      assert Proper(list[j]);
    }
  }

  lemma PiecesSplice(list: seq<FileLock>, r: Request, lo: nat, k: nat, j: nat, c: Cursor, st: Stop, id1: nat, id2: nat)
    requires Ordered(list) && AllProper(list) && ValidRequest(r)
    requires Tidy(list, r, lo, k, j, c) && Pointers(r, lo, c) && StopOk(r, c, st)
    requires Bounds(list, r, SpliceOf(list, r, lo, k, j, c, st, id1, id2))
    ensures Pieces(list, r, SpliceOf(list, r, lo, k, j, c, st, id1, id2))
  {
    SplitAlone(list, r, lo, k, j, c, st);
  }

  lemma ConsumedSplice(list: seq<FileLock>, r: Request, lo: nat, k: nat, j: nat, c: Cursor, st: Stop, id1: nat,
                       id2: nat)
    requires Ordered(list) && AllProper(list) && ValidRequest(r)
    requires Tidy(list, r, lo, k, j, c) && StopOk(r, c, st)
    requires Bounds(list, r, SpliceOf(list, r, lo, k, j, c, st, id1, id2))
    ensures Consumed(list, r, SpliceOf(list, r, lo, k, j, c, st, id1, id2))
  {
    SplitAlone(list, r, lo, k, j, c, st);
    if st.right && !st.split {
      assert k < j ==> Before(list[k], list[j]);
      assert c.left >= 0 ==> Before(list[k - 1], list[j]);
    }
  }

  /** Where the walk stops clear, the finished list is a good exchange. */
  lemma FinishedGood(list: seq<FileLock>, r: Request, lo: nat, k: nat, j: nat, c: Cursor, st: Stop, id1: nat, id2: nat)
    requires Ordered(list) && AllProper(list) && ValidRequest(r)
    requires Tidy(list, r, lo, k, j, c) && Walked(list, r, lo, j, c) && StopOk(r, c, st)
    requires StopsClear(list, r, j, c, st)
    requires forall i :: j <= i < |list| && list[i].owner == r.owner ==> list[j].owner == r.owner
    ensures GoodSplice(list, r, SpliceOf(list, r, lo, k, j, c, st, id1, id2))
  {
    ClearSplice(list, r, lo, k, j, c, st, id1, id2);
    PiecesSplice(list, r, lo, k, j, c, st, id1, id2);
    ConsumedSplice(list, r, lo, k, j, c, st, id1, id2);
  }

  // ---------------------------------------------------------------- the wrapped comparison

  /** The walk has met a lock of the request's own type that it should have merged with. */
  ghost predicate StopsWrapped(list: seq<FileLock>, r: Request, lo: nat, k: nat, j: nat, c: Cursor) {
    && Tidy(list, r, lo, k, j, c) && Pointers(r, lo, c)
    && r.end == OFFSET_MAX && r.kind != UnLck
    && j < |list| && list[j].owner == r.owner && list[j].kind == r.kind && c.start - 1 <= list[j].end
  }

  lemma WrappedUnordered(list: seq<FileLock>, r: Request, lo: nat, k: nat, j: nat, c: Cursor, id1: nat, id2: nat)
    requires Ordered(list) && AllProper(list) && ValidRequest(r) && StopsWrapped(list, r, lo, k, j, c)
    ensures !Ordered(Finished(r, c, Stop(false, false), id1, id2))
    ensures WrapsOnto(list, r)
  {
    var st := Stop(false, false);
    FinishedIsSplice(list, r, lo, k, j, c, st, id1, id2);
    var s := SpliceOf(list, r, lo, k, j, c, st, id1, id2);
    var after, i := Result(list, s), s.k + |s.left|;
    assert after[i] == s.mine[0] && after[i + 1] == list[j];
    assert Proper(list[j]);
    assert !Before(after[i], after[i + 1]);
    assert list[j] in list;
  }

  /** What the owner has behind the cursor decides whether the wrap does harm. */
  lemma HidesBehind(list: seq<FileLock>, r: Request, lo: nat, k: nat, j: nat, c: Cursor)
    requires Ordered(list) && AllProper(list) && ValidRequest(r) && StopsWrapped(list, r, lo, k, j, c)
    ensures WrapHides(list, r) <==> exists n :: j < n < |list| && list[n].owner == r.owner && list[n].kind != r.kind
  {
    if n :| j < n < |list| && list[n].owner == r.owner && list[n].kind != r.kind {
      assert list[j].kind == r.kind;
    }
  }

  lemma WrappedHiding(list: seq<FileLock>, r: Request, lo: nat, k: nat, j: nat, c: Cursor, id1: nat, id2: nat, n: nat)
    requires Ordered(list) && AllProper(list) && ValidRequest(r) && StopsWrapped(list, r, lo, k, j, c)
    requires j < n < |list| && list[n].owner == r.owner && list[n].kind != r.kind
    ensures !ExactUpdate(list, Finished(r, c, Stop(false, false), id1, id2), r)
  {
    var after := Finished(r, c, Stop(false, false), id1, id2);
    assert Before(list[j], list[n]) && Proper(list[n]);
    assert list[n] == list[j..][n - j];
    assert list[n] in after && Covers(list[n], list[n].start);
    assert Holds(after, r.owner, list[n].start, list[n].kind);
  }

  lemma WrappedOnlyAdds(list: seq<FileLock>, r: Request, lo: nat, k: nat, j: nat, c: Cursor, id1: nat, id2: nat,
                        f: FileLock, b: int)
    requires Ordered(list) && AllProper(list) && ValidRequest(r) && StopsWrapped(list, r, lo, k, j, c)
    requires forall n :: j < n < |list| && list[n].owner == r.owner ==> list[n].kind == r.kind
    requires f in Finished(r, c, Stop(false, false), id1, id2) && Covers(f, b)
    ensures if f.owner == r.owner && InRequest(r, b) then f.kind == r.kind && f.kind != UnLck
            else Holds(list, f.owner, b, f.kind)
  {
    var st := Stop(false, false);
    FinishedIsSplice(list, r, lo, k, j, c, st, id1, id2);
    var s := SpliceOf(list, r, lo, k, j, c, st, id1, id2);
    if f in list[..s.k] {
      var i :| 0 <= i < s.k && list[i] == f;
      HoldsAt(list, i, b);
    } else if f in list[j..] {
      var i :| j <= i < |list| && list[i] == f;
      HoldsAt(list, i, b);
    } else if f in s.left {
      HoldsAt(list, s.k, b);
    }
  }

  lemma WrappedKeeps(list: seq<FileLock>, r: Request, lo: nat, k: nat, j: nat, c: Cursor, id1: nat, id2: nat, i: nat,
                     b: int)
    requires Ordered(list) && AllProper(list) && ValidRequest(r) && StopsWrapped(list, r, lo, k, j, c)
    requires i < |list| && Covers(list[i], b) && !(list[i].owner == r.owner && InRequest(r, b))
    ensures Holds(Finished(r, c, Stop(false, false), id1, id2), list[i].owner, b, list[i].kind)
  {
    var st := Stop(false, false);
    FinishedIsSplice(list, r, lo, k, j, c, st, id1, id2);
    var s := SpliceOf(list, r, lo, k, j, c, st, id1, id2);
    var after := Result(list, s);
    if i < s.k {
      assert list[i] in list[..s.k] && list[i] in after;
    } else if i >= j {
      assert list[i] == list[j..][i - j] && list[i] in after;
    } else {
      assert c.left >= 0 && i == s.k;
      assert s.left[0] in after && Covers(s.left[0], b);
    }
  }

  lemma WrappedHarmless(list: seq<FileLock>, r: Request, lo: nat, k: nat, j: nat, c: Cursor, id1: nat, id2: nat)
    requires Ordered(list) && AllProper(list) && ValidRequest(r) && StopsWrapped(list, r, lo, k, j, c)
    requires forall n :: j < n < |list| && list[n].owner == r.owner ==> list[n].kind == r.kind
    ensures ExactUpdate(list, Finished(r, c, Stop(false, false), id1, id2), r)
  {
    var st := Stop(false, false);
    FinishedIsSplice(list, r, lo, k, j, c, st, id1, id2);
    var s := SpliceOf(list, r, lo, k, j, c, st, id1, id2);
    var after := Result(list, s);
    forall o, b, t
      ensures Holds(after, o, b, t) <==>
              if o == r.owner && InRequest(r, b) then t == r.kind && t != UnLck else Holds(list, o, b, t)
    {
      if Holds(after, o, b, t) {
        var f :| f in after && f.owner == o && f.kind == t && Covers(f, b);
        WrappedOnlyAdds(list, r, lo, k, j, c, id1, id2, f, b);
      } else if o == r.owner && InRequest(r, b) {
        assert s.mine[0] in after && Covers(s.mine[0], b);
      } else if Holds(list, o, b, t) {
        var f :| f in list && f.owner == o && f.kind == t && Covers(f, b);
        var i :| 0 <= i < |list| && list[i] == f;
        WrappedKeeps(list, r, lo, k, j, c, id1, id2, i, b);
      }
    }
  }

  // ---------------------------------------------------------------- the theorem

  /** The walk cannot stop clear when the wrap bites. */
  lemma ClearNotWrapped(list: seq<FileLock>, r: Request, lo: nat, k: nat, j: nat, c: Cursor, st: Stop)
    requires WellFormed(list) && ValidRequest(r) && Tidy(list, r, lo, k, j, c)
    requires StopOk(r, c, st) && StopsClear(list, r, j, c, st)
    ensures !WrapsOnto(list, r) && !WrapHides(list, r)
    ensures forall i :: j <= i < |list| && list[i].owner == r.owner ==> list[j].owner == r.owner
  {
    forall i | j <= i < |list| && list[i].owner == r.owner ensures list[j].owner == r.owner {
      assert list[lo].owner == r.owner;
    }
    if r.end == OFFSET_MAX {
      assert j < |list| ==> Proper(list[j]);
      assert !st.right;
      forall f | f in list && f.owner == r.owner && f.kind == r.kind ensures f.end < r.start - 1 {
        var i :| 0 <= i < |list| && list[i] == f;
      }
    }
  }

  ghost predicate Verdict(list: seq<FileLock>, after: seq<FileLock>, r: Request) {
    && (WellFormed(after) <==> !WrapsOnto(list, r))
    && (ExactUpdate(list, after, r) <==> !WrapHides(list, r))
  }

  lemma ClearVerdict(list: seq<FileLock>, r: Request, lo: nat, k: nat, j: nat, c: Cursor, st: Stop, id1: nat, id2: nat)
    requires WellFormed(list) && ValidRequest(r)
    requires Tidy(list, r, lo, k, j, c) && Walked(list, r, lo, j, c)
    requires StopOk(r, c, st) && StopsClear(list, r, j, c, st)
    ensures Verdict(list, Finished(r, c, st, id1, id2), r)
  {
    hide Ordered, Grouped, AllProper, WrapsOnto, WrapHides, ExactUpdate, Passed, Swallowed, Kept, Accounted, IdsFrom,
      RangeAccounted, StopsClear, GoodSplice, Finished, SpliceOf, Result;
    ClearNotWrapped(list, r, lo, k, j, c, st);
    FinishedGood(list, r, lo, k, j, c, st, id1, id2);
    FinishedIsSplice(list, r, lo, k, j, c, st, id1, id2);
    var s := SpliceOf(list, r, lo, k, j, c, st, id1, id2);
    ResultWellFormed(list, r, s);
    ResultExact(list, r, s);
  }

  lemma WrappedVerdict(list: seq<FileLock>, r: Request, lo: nat, k: nat, j: nat, c: Cursor, id1: nat, id2: nat)
    requires WellFormed(list) && ValidRequest(r) && StopsWrapped(list, r, lo, k, j, c)
    ensures Verdict(list, Finished(r, c, Stop(false, false), id1, id2), r)
  {
    WrappedUnordered(list, r, lo, k, j, c, id1, id2);
    HidesBehind(list, r, lo, k, j, c);
    if n :| j < n < |list| && list[n].owner == r.owner && list[n].kind != r.kind {
      WrappedHiding(list, r, lo, k, j, c, id1, id2, n);
    } else {
      WrappedHarmless(list, r, lo, k, j, c, id1, id2);
    }
  }

  /** Where the walk may stop, in the walk's own terms. */
  ghost predicate Halts(list: seq<FileLock>, r: Request, j: nat, c: Cursor, right: bool)
    requires j <= |list|
  {
    if right then
      j < |list| && list[j].owner == r.owner && list[j].kind != r.kind &&
      c.start <= list[j].end && list[j].start <= c.end < list[j].end && (r.kind == UnLck ==> c.added)
    else
      || j == |list| || list[j].owner != r.owner
      || (list[j].kind == r.kind && list[j].end >= c.start - 1 && list[j].start > Inc(c.end))
      || (list[j].kind != r.kind && list[j].start > c.end)
  }

  function StopAt(r: Request, c: Cursor, right: bool): Stop
    requires right ==> c.rest != []
  {
    Stop(right, right && c.rest[0].start < c.start)
  }

  lemma HaltsVerdict(list: seq<FileLock>, r: Request, lo: nat, k: nat, j: nat, c: Cursor, right: bool, id1: nat,
                     id2: nat)
    requires WellFormed(list) && ValidRequest(r)
    requires Tidy(list, r, lo, k, j, c) && Walked(list, r, lo, j, c) && Halts(list, r, j, c, right)
    requires c.left >= 0 && r.kind == UnLck ==> c.added
    ensures Verdict(list, Finished(r, c, StopAt(r, c, right), id1, id2), r)
  {
    var st := StopAt(r, c, right);
    assert j < |list| ==> c.rest[0] == list[j] && Proper(list[j]);
    if StopsClear(list, r, j, c, st) {
      ClearVerdict(list, r, lo, k, j, c, st, id1, id2);
    } else {
      assert j > 0 ==> Before(list[j - 1], list[j]);
      assert c.end == OFFSET_MAX;
      WrappedVerdict(list, r, lo, k, j, c, id1, id2);
    }
  }

  /** The loop invariant: what holds on any list, and what holds besides on a well-formed one. */
  ghost predicate LoopInv(list: seq<FileLock>, r: Request, wf: bool, lo: nat, k: nat, j: nat, c: Cursor) {
    && Walked(list, r, lo, j, c)
    && (wf ==> Tidy(list, r, lo, k, j, c))
    && (r.kind == UnLck && c.left >= 0 ==> c.added)
  }

  /** The lock at the cursor is the caller's. */
  ghost predicate AtOwn(list: seq<FileLock>, r: Request, wf: bool, lo: nat, k: nat, j: nat, c: Cursor) {
    && Bounded(list) && UniqueIds(list) && ValidRequest(r)
    && (wf ==> Ordered(list) && AllProper(list))
    && LoopInv(list, r, wf, lo, k, j, c)
    && j < |list| && list[j].owner == r.owner
  }

  lemma AdvanceStep(list: seq<FileLock>, r: Request, wf: bool, lo: nat, k: nat, j: nat, c: Cursor)
    requires AtOwn(list, r, wf, lo, k, j, c)
    requires list[j].end < c.start && (list[j].kind == r.kind ==> list[j].end < c.start - 1)
    ensures LoopInv(list, r, wf, lo, k + 1, j + 1, Advance(c))
  {
    AdvanceWalked(list, r, lo, j, c);
    if wf { AdvanceTidy(list, r, lo, k, j, c); }
  }

  lemma MergeStep(list: seq<FileLock>, r: Request, wf: bool, lo: nat, k: nat, j: nat, c: Cursor)
    requires AtOwn(list, r, wf, lo, k, j, c) && list[j].kind == r.kind
    requires list[j].end >= c.start - 1 && list[j].start <= Inc(c.end)
    ensures LoopInv(list, r, wf, lo, k, j + 1, if c.added then MergeDelete(c) else MergeHere(c))
  {
    assert list[j] in list;
    if c.added {
      MergeDeleteWalked(list, r, lo, j, c);
      if wf { MergeDeleteTidy(list, r, lo, k, j, c); }
    } else {
      MergeHereWalked(list, r, lo, j, c);
      if wf { MergeHereTidy(list, r, lo, k, j, c); }
    }
  }

  lemma MarkStep(list: seq<FileLock>, r: Request, wf: bool, lo: nat, k: nat, j: nat, c: Cursor)
    requires AtOwn(list, r, wf, lo, k, j, c) && r.kind == UnLck
    ensures AtOwn(list, r, wf, lo, k, j, c.(added := true))
  {
  }

  lemma CoverStep(list: seq<FileLock>, r: Request, wf: bool, lo: nat, k: nat, j: nat, c: Cursor)
    requires AtOwn(list, r, wf, lo, k, j, c) && list[j].kind != r.kind && (r.kind == UnLck ==> c.added)
    requires c.start <= list[j].start && list[j].end <= c.end
    ensures LoopInv(list, r, wf, lo, k, j + 1, if c.added then Delete(c) else ReplaceHere(c, r.kind))
  {
    if c.added {
      DeleteWalked(list, r, lo, j, c);
      if wf { DeleteTidy(list, r, lo, k, j, c); }
    } else {
      ReplaceWalked(list, r, lo, j, c);
      if wf { ReplaceTidy(list, r, lo, k, j, c); }
    }
  }

  lemma LeftStep(list: seq<FileLock>, r: Request, wf: bool, lo: nat, k: nat, j: nat, c: Cursor)
    requires AtOwn(list, r, wf, lo, k, j, c) && list[j].kind != r.kind && (r.kind == UnLck ==> c.added)
    requires list[j].start < c.start <= list[j].end <= c.end
    ensures LoopInv(list, r, wf, lo, k + 1, j + 1, Advance(c.(left := |c.done|)))
  {
    hide Kept, IdsFrom, Accounted, Tidy, Ordered, AllProper, Bounded, UniqueIds;
    AdvanceWalked(list, r, lo, j, c);
    if wf { LeftTidy(list, r, lo, k, j, c); }
  }

  /** The cursor once the other owners' locks are skipped. */
  function Skipped(list: seq<FileLock>, r: Request, lo: nat): Cursor
    requires lo <= |list|
  {
    Begin(list, r).(done := list[..lo], rest := list[lo..])
  }

  /** The locks before the caller's first one are passed. */
  method Skip(list: seq<FileLock>, r: Request) returns (c: Cursor)
    ensures |c.done| <= |list| && c == Skipped(list, r, |c.done|)
    ensures forall i :: 0 <= i < |c.done| ==> list[i].owner != r.owner
    ensures |c.done| < |list| ==> list[|c.done|].owner == r.owner
  {
    c := Begin(list, r);
    while c.rest != [] && c.rest[0].owner != r.owner
      invariant |c.done| <= |list| && c == Skipped(list, r, |c.done|)
      invariant forall i :: 0 <= i < |c.done| ==> list[i].owner != r.owner
      decreases |c.rest|
    {
      assert list[..|c.done| + 1] == c.done + [c.rest[0]];
      c := Advance(c);
    }
  }

  lemma SkippedInv(list: seq<FileLock>, r: Request, wf: bool, lo: nat)
    requires lo <= |list| && UniqueIds(list) && ValidRequest(r)
    requires forall i :: 0 <= i < lo ==> list[i].owner != r.owner
    requires lo < |list| ==> list[lo].owner == r.owner
    ensures LoopInv(list, r, wf, lo, lo, lo, Skipped(list, r, lo))
  {
    forall i | 0 <= i < lo ensures list[..lo][i].id in Ids(list[..lo]) {
      assert list[..lo][i] in list[..lo];
    }
  }

  /** One turn of the loop at a lock of the caller's type: pass it, stop, or merge. */
  method TurnSame(list: seq<FileLock>, r: Request, c: Cursor, ghost wf: bool, ghost lo: nat, ghost k: nat, ghost j: nat)
    returns (c': Cursor, halt: bool, ghost k': nat)
    requires AtOwn(list, r, wf, lo, k, j, c) && list[j].kind == r.kind
    ensures halt ==> c' == c && Halts(list, r, j, c, false)
    ensures !halt ==> c'.left == c.left
    ensures halt ==> k' == k
    ensures !halt ==> LoopInv(list, r, wf, lo, k', j + 1, c')
  {
    var fl := c.rest[0];
    c', halt, k' := c, false, k;
    if fl.end < c.start - 1 {
      AdvanceStep(list, r, wf, lo, k, j, c);
      c', k' := Advance(c), k + 1;
    } else if fl.start > Inc(c.end) {
      halt := true;
    } else {
      MergeStep(list, r, wf, lo, k, j, c);
      c' := if c.added then MergeDelete(c) else MergeHere(c);
    }
  }

  /** One turn at a lock of another type: pass it, stop, cut it, delete it or take it over. */
  method TurnOther(list: seq<FileLock>, r: Request, start: Cursor, ghost wf: bool, ghost lo: nat, ghost k: nat,
                   ghost j: nat)
    returns (c: Cursor, left: int, right: bool, halt: bool, ghost k': nat)
    requires AtOwn(list, r, wf, lo, k, j, start) && list[j].kind != r.kind
    ensures halt ==>
            LoopInv(list, r, wf, lo, k', j, c) && Halts(list, r, j, c, right) && c.done == start.done &&
                c.rest == start.rest
    ensures halt ==> left == (if right && c.rest[0].start < c.start then |c.done| else c.left)
    ensures !halt ==> LoopInv(list, r, wf, lo, k', j + 1, c) && c.left == left && !right
    ensures r.kind == UnLck && left >= 0 ==> c.added
  {
    c, left, right, halt, k' := start, start.left, false, false, k;
    var fl := c.rest[0];
    if fl.end < c.start {
      AdvanceStep(list, r, wf, lo, k, j, c);
      c, k' := Advance(c), k + 1;
    } else if fl.start > c.end {
      halt := true;
    } else {
      if r.kind == UnLck {
        MarkStep(list, r, wf, lo, k, j, c);
        c := c.(added := true);
      }
      if fl.start < c.start {
        left := |c.done|;
      }
      if fl.end > c.end {
        right, halt := true, true;
      } else if fl.start >= c.start {
        CoverStep(list, r, wf, lo, k, j, c);
        c := if c.added then Delete(c) else ReplaceHere(c, r.kind);
      } else {
        LeftStep(list, r, wf, lo, k, j, c);
        c, k' := Advance(c.(left := left)), k + 1;
      }
    }
  }

  /** The loop over the caller's own locks. */
  method Walk(list: seq<FileLock>, r: Request, start: Cursor, ghost wf: bool)
    returns (c: Cursor, left: int, right: bool, ghost k: nat, ghost j: nat)
    requires Bounded(list) && UniqueIds(list) && ValidRequest(r)
    requires wf ==> Ordered(list) && AllProper(list)
    requires LoopInv(list, r, wf, |start.done|, |start.done|, |start.done|, start)
    requires start.left == -1
    ensures LoopInv(list, r, wf, |start.done|, k, j, c)
    ensures Halts(list, r, j, c, right)
    ensures left == (if right && c.rest[0].start < c.start then |c.done| else c.left)
    ensures r.kind == UnLck && left >= 0 ==> c.added
  {
    hide Tidy, Kept, Accounted, IdsFrom;
    c := start;
    ghost var lo := |c.done|;
    k, j := lo, lo;
    left, right := -1, false;
    while c.rest != [] && c.rest[0].owner == r.owner
      invariant LoopInv(list, r, wf, lo, k, j, c)
      invariant c.left == left && !right
      decreases |c.rest|
    {
      var halt;
      if r.kind == c.rest[0].kind {
        c, halt, k := TurnSame(list, r, c, wf, lo, k, j);
      } else {
        c, left, right, halt, k := TurnOther(list, r, c, wf, lo, k, j);
      }
      if halt { break; }
      j := j + 1;
    }
  }

  /** The tail of posix_lock_file: link in what is new, cut the right and the left remnant. */
  method Finish(r: Request, c: Cursor, left: int, right: bool, id1: nat, id2: nat)
    returns (after: seq<FileLock>, woken: set<nat>)
    requires -1 <= c.left < |c.done| && StopOk(r, c, Stop(right, right && left == |c.done|))
    requires (left == |c.done| && right) || left == c.left
    requires r.kind == UnLck && left >= 0 ==> c.added
    ensures after == Finished(r, c, Stop(right, right && left == |c.done|), id1, id2)
    ensures woken == FinallyWoken(c, Stop(right, right && left == |c.done|))
  {
    var done, mid, rest := c.done, [], c.rest;
    woken := c.woken;
    if !c.added {
      if r.kind == UnLck {
        return done + rest, woken;
      }
      mid := [FileLock(id1, r.owner, r.kind, c.start, c.end)];
    }
    if right {
      if left == |done| {
        mid := [rest[0].(id := id2, end := c.start - 1)] + mid;
      }
      woken := woken + {rest[0].id};
      rest := [rest[0].(start := c.end + 1)] + rest[1..];
    }
    if 0 <= left < |done| {
      woken := woken + {done[left].id};
      done := done[left := done[left].(end := c.start - 1)];
    }
    after := done + mid + rest;
  }

  lemma Conclude(list: seq<FileLock>, r: Request, lo: nat, k: nat, j: nat, c: Cursor, right: bool, id1: nat, id2: nat)
    requires Bounded(list) && UniqueIds(list) && ValidRequest(r)
    requires id1 != id2 && id1 !in Ids(list) && id2 !in Ids(list)
    requires LoopInv(list, r, WellFormed(list), lo, k, j, c) && Halts(list, r, j, c, right)
    ensures StopOk(r, c, StopAt(r, c, right)) && -1 <= c.left < |c.done|
    ensures SafeStep(list, Finished(r, c, StopAt(r, c, right), id1, id2), r, FinallyWoken(c, StopAt(r, c, right)),
            {id1, id2})
    ensures WellFormed(list) ==> Verdict(list, Finished(r, c, StopAt(r, c, right), id1, id2), r)
    ensures r.kind != UnLck ==> HoldsAll(Finished(r, c, StopAt(r, c, right), id1, id2), r)
  {
    hide HoldsAll;
    if r.kind != UnLck {
      FinishedGrants(list, r, lo, j, c, StopAt(r, c, right), id1, id2);
    }
    FinishedSafe(list, r, lo, j, c, StopAt(r, c, right), id1, id2);
    if WellFormed(list) {
      HaltsVerdict(list, r, lo, k, j, c, right, id1, id2);
    }
  }

  /** The part of posix_lock_file that no longer blocks: merge, replace, split or remove the caller's
      locks in place. id1 and id2 name the two locks allocated in advance. */
  method Apply(list: seq<FileLock>, r: Request, id1: nat, id2: nat) returns (after: seq<FileLock>, woken: set<nat>)
    requires Bounded(list) && UniqueIds(list) && ValidRequest(r)
    requires id1 != id2 && id1 !in Ids(list) && id2 !in Ids(list)
    ensures SafeStep(list, after, r, woken, {id1, id2})
    ensures WellFormed(list) ==> (WellFormed(after) <==> !WrapsOnto(list, r))
    ensures WellFormed(list) ==> (ExactUpdate(list, after, r) <==> !WrapHides(list, r))
    ensures r.kind != UnLck ==> HoldsAll(after, r)
  {
    hide LoopInv, Halts, SafeStep, HoldsAll, Finished, FinallyWoken, Ids, ExactUpdate, WrapsOnto, WrapHides, StopOk;
    var c := Skip(list, r);
    ghost var lo := |c.done|;
    ghost var wf := WellFormed(list);
    SkippedInv(list, r, wf, lo);
    var left, right;
    ghost var k, j;
    c, left, right, k, j := Walk(list, r, c, wf);
    Conclude(list, r, lo, k, j, c, right, id1, id2);
    after, woken := Finish(r, c, left, right, id1, id2);
  }
}
