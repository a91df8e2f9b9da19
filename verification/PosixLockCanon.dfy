/** A well-formed list is the only one for what it says: the locks of an owner are determined by
    which bytes the owner holds. */
module PosixLockCanon {
  import opened PosixLockList

  datatype Range = Range(kind: Kind, start: int, end: int)

  /** The locks of one owner, without their addresses. */
  function Own(list: seq<FileLock>, o: Owner): (rs: seq<Range>) {
    if list == [] then []
    else (if list[0].owner == o then [Range(list[0].kind, list[0].start, list[0].end)] else []) + Own(list[1..], o)
  }

  predicate In(rs: seq<Range>, b: int, k: Kind) {
    exists i :: 0 <= i < |rs| && rs[i].kind == k && rs[i].start <= b <= rs[i].end
  }

  predicate Apart(x: Range, y: Range) {
    x.end < y.start && (x.kind == y.kind ==> x.end + 1 < y.start)
  }

  predicate Canonical(rs: seq<Range>) {
    && (forall i :: 0 <= i < |rs| ==> rs[i].start <= rs[i].end)
    && (forall i, j :: 0 <= i < j < |rs| ==> Apart(rs[i], rs[j]))
  }

  lemma InAppend(a: seq<Range>, c: seq<Range>, b: int, k: Kind)
    ensures In(a + c, b, k) <==> In(a, b, k) || In(c, b, k)
  {
    if In(a, b, k) {
      var i :| 0 <= i < |a| && a[i].kind == k && a[i].start <= b <= a[i].end;
      assert (a + c)[i] == a[i];
    }
    if In(c, b, k) {
      var i :| 0 <= i < |c| && c[i].kind == k && c[i].start <= b <= c[i].end;
      assert (a + c)[|a| + i] == c[i];
    }
  }

  /** The projection says of the owner what the list says. */
  lemma {:induction false} OwnHolds(list: seq<FileLock>, o: Owner, b: int, k: Kind)
    ensures In(Own(list, o), b, k) <==> Holds(list, o, b, k)
  {
    if list != [] {
      var f, t := list[0], list[1..];
      OwnHolds(t, o, b, k);
      assert list == [f] + t;
      var h := if f.owner == o then [Range(f.kind, f.start, f.end)] else [];
      InAppend(h, Own(t, o), b, k);
      assert In(h, b, k) <==> f.owner == o && f.kind == k && Covers(f, b) by {
        if f.owner == o { assert h[0] == Range(f.kind, f.start, f.end); }
      }
      assert Holds(list, o, b, k) <==> (f.owner == o && f.kind == k && Covers(f, b)) || Holds(t, o, b, k);
    }
  }

  lemma {:induction false} OwnFrom(list: seq<FileLock>, o: Owner)
    ensures forall x :: x in Own(list, o) ==>
              exists f :: f in list && f.owner == o && x == Range(f.kind, f.start, f.end)
  {
    if list != [] {
      OwnFrom(list[1..], o);
      assert list == [list[0]] + list[1..];
    }
  }

  lemma {:induction false} OwnCanonical(list: seq<FileLock>, o: Owner)
    requires Ordered(list) && AllProper(list)
    ensures Canonical(Own(list, o))
  {
    if list != [] {
      var f, t := list[0], list[1..];
      assert forall i :: 0 <= i < |t| ==> Before(f, t[i]);
      assert Ordered(t) && AllProper(t);
      OwnCanonical(t, o);
      OwnFrom(t, o);
      var rs := Own(t, o);
      if f.owner == o {
        var h := Range(f.kind, f.start, f.end);
        assert Proper(f);
        forall j | 0 <= j < |rs| ensures Apart(h, rs[j]) {
          assert rs[j] in rs;
        }
      }
    }
  }

  lemma InFirst(a: seq<Range>, c: seq<Range>)
    requires Canonical(a) && Canonical(c) && a != [] && c != []
    requires forall b, k :: In(a, b, k) ==> In(c, b, k)
    ensures c[0].start <= a[0].start
  {
    assert In(a, a[0].start, a[0].kind);
    var i :| 0 <= i < |c| && c[i].kind == a[0].kind && c[i].start <= a[0].start <= c[i].end;
    assert i > 0 ==> Apart(c[0], c[i]);
  }

  /** The first range ends where its run of bytes of one type ends. */
  lemma InEnd(a: seq<Range>, c: seq<Range>)
    requires Canonical(a) && Canonical(c) && a != [] && c != []
    requires forall b, k :: In(c, b, k) ==> In(a, b, k)
    requires a[0].start == c[0].start && a[0].kind == c[0].kind
    ensures c[0].end <= a[0].end
  {
    if a[0].end < c[0].end {
      assert In(c, a[0].end + 1, c[0].kind);
    }
  }

  lemma InTail(a: seq<Range>, b: int, k: Kind)
    requires Canonical(a) && a != []
    ensures In(a[1..], b, k) <==> In(a, b, k) && !(a[0].start <= b <= a[0].end)
  {
    assert a == [a[0]] + a[1..];
    InAppend([a[0]], a[1..], b, k);
    if In(a[1..], b, k) {
      var i :| 0 <= i < |a[1..]| && a[1..][i].kind == k && a[1..][i].start <= b <= a[1..][i].end;
      assert Apart(a[0], a[i + 1]);
    }
    if In([a[0]], b, k) {
      assert [a[0]][0] == a[0];
    }
  }

  lemma {:induction false} CanonicalUnique(a: seq<Range>, c: seq<Range>)
    requires Canonical(a) && Canonical(c)
    requires forall b, k :: In(a, b, k) <==> In(c, b, k)
    ensures a == c
    decreases |a|
  {
    if a == [] || c == [] {
      if a != [] { assert In(a, a[0].start, a[0].kind); }
      if c != [] { assert In(c, c[0].start, c[0].kind); }
    } else {
      InFirst(a, c);
      InFirst(c, a);
      assert In(a, a[0].start, a[0].kind);
      var i :| 0 <= i < |c| && c[i].kind == a[0].kind && c[i].start <= a[0].start <= c[i].end;
      assert i > 0 ==> Apart(c[0], c[i]);
      InEnd(a, c);
      InEnd(c, a);
      assert a[0] == c[0];
      forall b, k ensures In(a[1..], b, k) <==> In(c[1..], b, k) {
        InTail(a, b, k);
        InTail(c, b, k);
      }
      CanonicalUnique(a[1..], c[1..]);
      assert a == [a[0]] + a[1..] && c == [c[0]] + c[1..];
    }
  }

  /** Two well-formed lists on which an owner holds the same bytes have the same locks of that owner. */
  lemma SameHoldsSameLocks(l1: seq<FileLock>, l2: seq<FileLock>, o: Owner)
    requires WellFormed(l1) && WellFormed(l2)
    requires forall b, k :: Holds(l1, o, b, k) <==> Holds(l2, o, b, k)
    ensures Own(l1, o) == Own(l2, o)
  {
    OwnCanonical(l1, o);
    OwnCanonical(l2, o);
    forall b, k ensures In(Own(l1, o), b, k) <==> In(Own(l2, o), b, k) {
      OwnHolds(l1, o, b, k);
      OwnHolds(l2, o, b, k);
    }
    CanonicalUnique(Own(l1, o), Own(l2, o));
  }

  /** Locking bytes that the owner did not hold and unlocking them again restores every owner's locks. */
  lemma LockUnlockRestores(l0: seq<FileLock>, l1: seq<FileLock>, l2: seq<FileLock>, r: Request, o: Owner)
    requires WellFormed(l0) && WellFormed(l2)
    requires r.kind != UnLck && forall b, k :: InRequest(r, b) ==> !Holds(l0, r.owner, b, k)
    requires ExactUpdate(l0, l1, r) && ExactUpdate(l1, l2, r.(kind := UnLck))
    ensures Own(l2, o) == Own(l0, o)
  {
    forall b, k ensures Holds(l2, o, b, k) <==> Holds(l0, o, b, k) {
      assert Holds(l1, o, b, k) || !Holds(l1, o, b, k);
    }
    SameHoldsSameLocks(l2, l0, o);
  }

  /** Requests that do not meet, or are of different owners, may be granted in either order. */
  lemma RequestsCommute(l0: seq<FileLock>, l1: seq<FileLock>, l12: seq<FileLock>, l2: seq<FileLock>, l21: seq<FileLock>,
                        r1: Request, r2: Request, o: Owner)
    requires WellFormed(l12) && WellFormed(l21)
    requires r1.owner != r2.owner || r1.end < r2.start || r2.end < r1.start || r1.kind == r2.kind
    requires ExactUpdate(l0, l1, r1) && ExactUpdate(l1, l12, r2)
    requires ExactUpdate(l0, l2, r2) && ExactUpdate(l2, l21, r1)
    ensures Own(l12, o) == Own(l21, o)
  {
    forall b, k ensures Holds(l12, o, b, k) <==> Holds(l21, o, b, k) {
      assert Holds(l1, o, b, k) || !Holds(l1, o, b, k);
      assert Holds(l2, o, b, k) || !Holds(l2, o, b, k);
    }
    SameHoldsSameLocks(l12, l21, o);
  }
}
