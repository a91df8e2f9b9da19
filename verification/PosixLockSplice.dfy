/** On a well-formed list the walk of posix_lock_file exchanges one stretch of the caller's locks for
    at most three. Here: such an exchange keeps the list well formed and is exactly the requested update. */
module PosixLockSplice {
  import opened PosixLockList

  /** list[k..j] is exchanged for left + mine + right; the new lock spans start..end. */
  datatype Splice = Splice(
    lo: nat, k: nat, j: nat,
    start: int, end: int,
    left: seq<FileLock>, mine: seq<FileLock>, right: seq<FileLock>)

  function Result(list: seq<FileLock>, s: Splice): seq<FileLock>
    requires s.k <= s.j <= |list|
  {
    list[..s.k] + s.left + s.mine + s.right + list[s.j..]
  }

  predicate Bounds(list: seq<FileLock>, r: Request, s: Splice) {
    && s.lo <= s.k <= s.j <= |list|
    && (forall i :: 0 <= i < s.lo ==> list[i].owner != r.owner)
    && (forall i :: s.lo <= i < s.j ==> list[i].owner == r.owner)
    && (s.lo < |list| ==> list[s.lo].owner == r.owner)
  }

  predicate Clear(list: seq<FileLock>, r: Request, s: Splice)
    requires Bounds(list, r, s)
  {
    && (forall i :: s.lo <= i < s.k ==> list[i].end < s.start && (list[i].kind == r.kind ==> list[i].end + 1 < s.start))
    && (forall i :: s.j <= i < |list| && list[i].owner == r.owner ==>
          s.end < list[i].start && (list[i].kind == r.kind ==> s.end + 1 < list[i].start))
  }

  /** x is what is left of f below the request. */
  predicate LeftOf(r: Request, f: FileLock, x: FileLock) {
    f.kind == x.kind && f.start == x.start && r.start <= f.end
  }

  /** x is what is left of f above the request. */
  predicate RightOf(r: Request, f: FileLock, x: FileLock) {
    f.kind == x.kind && f.end == x.end && f.start <= r.end
  }

  predicate Pieces(list: seq<FileLock>, r: Request, s: Splice)
    requires Bounds(list, r, s)
  {
    && |s.left| <= 1 && |s.mine| == (if r.kind == UnLck then 0 else 1) && |s.right| <= 1
    && (s.left != [] ==>
          && s.left[0].owner == r.owner && s.left[0].kind != r.kind
          && s.start == r.start && s.left[0].end == r.start - 1 && s.left[0].start < r.start
          && s.k < s.j && LeftOf(r, list[s.k], s.left[0]))
    && (s.mine != [] ==>
          s.mine[0].owner == r.owner && s.mine[0].kind == r.kind && s.mine[0].start == s.start &&
              s.mine[0].end == s.end)
    && (s.right != [] ==>
          && s.right[0].owner == r.owner && s.right[0].kind != r.kind
          && s.end == r.end && s.right[0].start == r.end + 1 && r.end < s.right[0].end
          && s.k < s.j && RightOf(r, list[s.j - 1], s.right[0]))
  }

  /** Every exchanged lock lies under the new one, except for what left and right keep of it. */
  predicate Consumed(list: seq<FileLock>, r: Request, s: Splice)
    requires Bounds(list, r, s)
  {
    forall i :: s.k <= i < s.j ==>
      if list[i].kind == r.kind then s.start <= list[i].start && list[i].end <= s.end
      else
        && (r.start <= list[i].start ||
            (s.left != [] && s.left[0].kind == list[i].kind && s.left[0].start == list[i].start))
        && (list[i].end <= r.end ||
            (s.right != [] && s.right[0].kind == list[i].kind && s.right[0].end == list[i].end))
  }

  ghost predicate Span(list: seq<FileLock>, r: Request, s: Splice) {
    && 0 <= s.start <= r.start && r.end <= s.end <= OFFSET_MAX
    && (forall b :: s.start <= b <= s.end ==> InRequest(r, b) || Holds(list, r.owner, b, r.kind))
    && (r.kind == UnLck ==> s.start == r.start && s.end == r.end)
  }

  ghost predicate GoodSplice(list: seq<FileLock>, r: Request, s: Splice) {
    Bounds(list, r, s) && Clear(list, r, s) && Pieces(list, r, s) && Consumed(list, r, s) && Span(list, r, s)
  }

  // ---------------------------------------------------------------- well formed

  lemma OrderedAppend(a: seq<FileLock>, b: seq<FileLock>)
    requires Ordered(a) && Ordered(b) && forall f, g :: f in a && g in b ==> Before(f, g)
    ensures Ordered(a + b)
  {
    forall i, j | 0 <= i < j < |a + b| ensures Before((a + b)[i], (a + b)[j]) {
      if i < |a| <= j {
        assert a[i] in a && b[j - |a|] in b;
      }
    }
  }

  lemma LeftBefore(list: seq<FileLock>, r: Request, s: Splice)
    requires Ordered(list) && AllProper(list) && ValidRequest(r) && GoodSplice(list, r, s)
    ensures forall f, g :: f in list[..s.k] && g in s.left ==> Before(f, g)
    ensures forall f, g :: f in s.left && g in s.mine + s.right + list[s.j..] ==> Before(f, g)
  {
    if s.left != [] {
      var x := s.left[0];
      var i := s.k;
      forall f | f in list[..s.k] ensures Before(f, x) {
        var n :| 0 <= n < s.k && list[n] == f;
        assert Before(list[n], list[i]);
      }
      forall g | g in list[s.j..] ensures Before(x, g) {
        var n :| s.j <= n < |list| && list[n] == g;
        assert Before(list[i], list[n]);
      }
    }
  }

  lemma MineBefore(list: seq<FileLock>, r: Request, s: Splice)
    requires Ordered(list) && AllProper(list) && ValidRequest(r) && GoodSplice(list, r, s)
    ensures forall f, g :: f in list[..s.k] && g in s.mine ==> Before(f, g)
    ensures forall f, g :: f in s.mine && g in s.right + list[s.j..] ==> Before(f, g)
  {
  }

  lemma RightBefore(list: seq<FileLock>, r: Request, s: Splice)
    requires Ordered(list) && AllProper(list) && ValidRequest(r) && GoodSplice(list, r, s)
    ensures forall f, g :: f in list[..s.k] && g in s.right + list[s.j..] ==> Before(f, g)
    ensures forall f, g :: f in s.right && g in list[s.j..] ==> Before(f, g)
  {
    if s.right != [] {
      var x := s.right[0];
      var i := s.j - 1;
      forall f | f in list[..s.k] ensures Before(f, x) {
        var n :| 0 <= n < s.k && list[n] == f;
      }
      forall g | g in list[s.j..] ensures Before(x, g) {
        var n :| s.j <= n < |list| && list[n] == g;
        assert Before(list[i], list[n]);
      }
    }
  }

  lemma OrderedFive(a: seq<FileLock>, b: seq<FileLock>, c: seq<FileLock>, d: seq<FileLock>, e: seq<FileLock>)
    requires Ordered(a) && Ordered(b) && Ordered(c) && Ordered(d) && Ordered(e)
    requires forall f, g :: f in a && g in b ==> Before(f, g)
    requires forall f, g :: f in a && g in c ==> Before(f, g)
    requires forall f, g :: f in a && g in d + e ==> Before(f, g)
    requires forall f, g :: f in b && g in c + d + e ==> Before(f, g)
    requires forall f, g :: f in c && g in d + e ==> Before(f, g)
    requires forall f, g :: f in d && g in e ==> Before(f, g)
    ensures Ordered(a + b + c + d + e)
  {
    hide Ordered, Before;
    OrderedAppend(d, e);
    OrderedAppend(c, d + e);
    assert c + d + e == c + (d + e);
    OrderedAppend(b, c + d + e);
    OrderedAppend(a, b + (c + d + e));
    assert a + b + c + d + e == a + (b + (c + d + e));
  }

  lemma OrderedParts(list: seq<FileLock>, s: Splice)
    requires Ordered(list) && s.k <= s.j <= |list| && |s.left| <= 1 && |s.mine| <= 1 && |s.right| <= 1
    ensures Ordered(list[..s.k]) && Ordered(s.left) && Ordered(s.mine) && Ordered(s.right) && Ordered(list[s.j..])
  {
  }

  lemma ResultOrdered(list: seq<FileLock>, r: Request, s: Splice)
    requires Ordered(list) && AllProper(list) && ValidRequest(r) && GoodSplice(list, r, s)
    ensures Ordered(Result(list, s))
  {
    hide Ordered, AllProper, Before, Clear, Consumed, Span;
    LeftBefore(list, r, s);
    MineBefore(list, r, s);
    RightBefore(list, r, s);
    OrderedParts(list, s);
    OrderedFive(list[..s.k], s.left, s.mine, s.right, list[s.j..]);
  }

  lemma PieceProper(list: seq<FileLock>, r: Request, s: Splice, f: FileLock)
    requires AllProper(list) && ValidRequest(r) && GoodSplice(list, r, s)
    requires f in list[..s.k] || f in s.left || f in s.mine || f in s.right || f in list[s.j..]
    ensures Proper(f)
  {
    hide Clear, Consumed;
    if f in list[..s.k] || f in list[s.j..] {
      assert f in list;
    } else if f in s.left {
      assert Proper(list[s.k]);
    } else if f in s.right {
      assert Proper(list[s.j - 1]);
    }
  }

  lemma ResultProper(list: seq<FileLock>, r: Request, s: Splice)
    requires AllProper(list) && ValidRequest(r) && GoodSplice(list, r, s)
    ensures AllProper(Result(list, s))
  {
    hide Clear, Pieces, Consumed, Span, Proper;
    forall f | f in Result(list, s) ensures Proper(f) {
      PieceProper(list, r, s, f);
    }
  }

  /** Exchanging a stretch of one owner's locks for others of that owner leaves the owners together. */
  lemma GroupedSplice(list: seq<FileLock>, o: Owner, lo: nat, j: nat, m: seq<FileLock>)
    requires Grouped(list) && lo <= j <= |list|
    requires forall i :: 0 <= i < lo ==> list[i].owner != o
    requires forall i :: lo <= i < j ==> list[i].owner == o
    requires lo < |list| ==> list[lo].owner == o
    requires forall f :: f in m ==> f.owner == o
    ensures Grouped(list[..lo] + m + list[j..])
  {
    var after := list[..lo] + m + list[j..];
    var d := lo + |m| - j;
    forall x, y, z | 0 <= x < y < z < |after| && after[x].owner == after[z].owner
        ensures after[y].owner == after[x].owner {
      assert forall i :: lo <= i < lo + |m| ==> after[i] in m;
      assert forall i :: lo + |m| <= i < |after| ==> after[i] == list[i - d];
      if x < lo {
      } else if z >= lo + |m| && y >= lo + |m| {
        if x < lo + |m| && lo < y - d {
          assert list[lo].owner == list[z - d].owner;
        }
      }
    }
  }

  lemma ResultGrouped(list: seq<FileLock>, r: Request, s: Splice)
    requires Grouped(list) && Bounds(list, r, s)
    requires forall f :: f in s.left + s.mine + s.right ==> f.owner == r.owner
    ensures Grouped(Result(list, s))
  {
    hide Grouped;
    var p := s.left + s.mine + s.right;
    var m := list[s.lo..s.k] + p;
    GroupedSplice(list, r.owner, s.lo, s.j, m);
    assert Result(list, s) == list[..s.lo] + m + list[s.j..];
  }

  lemma ResultWellFormed(list: seq<FileLock>, r: Request, s: Splice)
    requires WellFormed(list) && ValidRequest(r) && GoodSplice(list, r, s)
    ensures WellFormed(Result(list, s))
  {
    hide Ordered, AllProper, Grouped, Clear, Consumed, Span, Result;
    ResultOrdered(list, r, s);
    ResultProper(list, r, s);
    ResultGrouped(list, r, s);
  }

  // ---------------------------------------------------------------- exactly the update

  lemma HoldsAt(list: seq<FileLock>, i: nat, b: int)
    requires i < |list| && Covers(list[i], b)
    ensures Holds(list, list[i].owner, b, list[i].kind)
  {
    assert list[i] in list;
  }

  /** A lock that the splice leaves alone does not reach into the request. */
  lemma UntouchedOutside(list: seq<FileLock>, r: Request, s: Splice, f: FileLock, b: int)
    requires ValidRequest(r) && GoodSplice(list, r, s)
    requires f in list[..s.k] || f in list[s.j..]
    requires Covers(f, b)
    ensures Holds(list, f.owner, b, f.kind)
    ensures f.owner == r.owner ==> !InRequest(r, b)
  {
    if f in list[..s.k] {
      var i :| 0 <= i < s.k && list[i] == f;
      HoldsAt(list, i, b);
    } else {
      var i :| s.j <= i < |list| && list[i] == f;
      HoldsAt(list, i, b);
    }
  }

  /** What one lock of the result accounts for. */
  lemma PieceOnlyAdds(list: seq<FileLock>, r: Request, s: Splice, f: FileLock, b: int)
    requires AllProper(list) && ValidRequest(r) && GoodSplice(list, r, s)
    requires f in s.left || f in s.mine || f in s.right || f in list[..s.k] || f in list[s.j..]
    requires Covers(f, b)
    ensures if f.owner == r.owner && InRequest(r, b) then f.kind == r.kind && f.kind != UnLck
            else Holds(list, f.owner, b, f.kind)
  {
    if f in list[..s.k] || f in list[s.j..] {
      UntouchedOutside(list, r, s, f, b);
    } else if f in s.left {
      HoldsAt(list, s.k, b);
    } else if f in s.right {
      HoldsAt(list, s.j - 1, b);
    } else {
      assert InRequest(r, b) || Holds(list, r.owner, b, r.kind);
    }
  }

  lemma ResultOnlyAdds(list: seq<FileLock>, r: Request, s: Splice, o: Owner, b: int, k: Kind)
    requires AllProper(list) && ValidRequest(r) && GoodSplice(list, r, s)
    requires Holds(Result(list, s), o, b, k)
    ensures if o == r.owner && InRequest(r, b) then k == r.kind && k != UnLck else Holds(list, o, b, k)
  {
    var f :| f in Result(list, s) && f.owner == o && f.kind == k && Covers(f, b);
    PieceOnlyAdds(list, r, s, f, b);
  }

  lemma ResultKeeps(list: seq<FileLock>, r: Request, s: Splice, o: Owner, b: int, k: Kind)
    requires Ordered(list) && AllProper(list) && ValidRequest(r) && GoodSplice(list, r, s)
    requires if o == r.owner && InRequest(r, b) then k == r.kind && k != UnLck else Holds(list, o, b, k)
    ensures Holds(Result(list, s), o, b, k)
  {
    var after := Result(list, s);
    if o == r.owner && InRequest(r, b) {
      assert s.mine[0] in after && Covers(s.mine[0], b);
    } else {
      var f :| f in list && f.owner == o && f.kind == k && Covers(f, b);
      var i :| 0 <= i < |list| && list[i] == f;
      if i < s.k {
        assert f in list[..s.k] && f in after;
      } else if i >= s.j {
        assert f == list[s.j..][i - s.j] && f in after;
      } else if k == r.kind {
        assert s.mine[0] in after && Covers(s.mine[0], b);
      } else if b < r.start {
        assert s.left[0] in after && Covers(s.left[0], b);
      } else {
        assert s.right[0] in after && Covers(s.right[0], b);
      }
    }
  }

  lemma ResultExact(list: seq<FileLock>, r: Request, s: Splice)
    requires Ordered(list) && AllProper(list) && ValidRequest(r) && GoodSplice(list, r, s)
    ensures ExactUpdate(list, Result(list, s), r)
  {
    forall o, b, k
      ensures Holds(Result(list, s), o, b, k) <==>
              if o == r.owner && InRequest(r, b) then k == r.kind && k != UnLck else Holds(list, o, b, k)
    {
      if Holds(Result(list, s), o, b, k) {
        ResultOnlyAdds(list, r, s, o, b, k);
      } else if if o == r.owner && InRequest(r, b) then k == r.kind && k != UnLck else Holds(list, o, b, k) {
        ResultKeeps(list, r, s, o, b, k);
      }
    }
  }
}
