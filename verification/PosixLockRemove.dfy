/** locks_remove_posix: closing a file drops all locks of a file table on it. */
module PosixLockRemove {
  import opened PosixLockList
  import opened PosixLockWalk

  /** The locks that do not belong to the file table. */
  function Without(list: seq<FileLock>, files: nat): seq<FileLock> {
    if list == [] then []
    else (if list[0].owner.files == files then [] else [list[0]]) + Without(list[1..], files)
  }

  lemma {:induction false} WithoutAppend(a: seq<FileLock>, b: seq<FileLock>, files: nat)
    ensures Without(a + b, files) == Without(a, files) + Without(b, files)
  {
    if a == [] {
      assert a + b == b;
    } else {
      assert (a + b)[1..] == a[1..] + b;
      WithoutAppend(a[1..], b, files);
    }
  }

  lemma {:induction false} WithoutAll(a: seq<FileLock>, files: nat)
    requires forall f :: f in a ==> f.owner.files != files
    ensures Without(a, files) == a
  {
    if a != [] {
      WithoutAll(a[1..], files);
    }
  }

  lemma {:induction false} WithoutIn(list: seq<FileLock>, files: nat)
    ensures forall f :: f in Without(list, files) <==> f in list && f.owner.files != files
  {
    if list != [] {
      WithoutIn(list[1..], files);
      assert list == [list[0]] + list[1..];
    }
  }

  lemma WithoutDrop(a: seq<FileLock>, f: FileLock, b: seq<FileLock>, files: nat)
    requires f.owner.files == files
    ensures Without(a + [f] + b, files) == Without(a + b, files)
  {
    WithoutAppend(a + [f], b, files);
    WithoutAppend(a, [f], files);
    WithoutAppend(a, b, files);
  }

  /** After each deletion the scan starts again at the head of the list. */
  method RemovePosix(list: seq<FileLock>, files: nat) returns (after: seq<FileLock>, woken: set<nat>)
    ensures after == Without(list, files)
    ensures woken == set f | f in list && f.owner.files == files :: f.id
  {
    hide Without;
    after, woken := list, {};
    var at := 0;
    while at < |after|
      invariant 0 <= at <= |after|
      invariant Without(after, files) == Without(list, files)
      invariant forall i :: 0 <= i < at ==> after[i].owner.files != files
      invariant forall f :: f in list && f !in after ==> f.owner.files == files && f.id in woken
      invariant forall f :: f in after ==> f in list
      invariant woken <= set f | f in list && f.owner.files == files :: f.id
      decreases |after|, |after| - at
    {
      if after[at].owner.files == files {
        var f := after[at];
        assert after == after[..at] + [f] + after[at + 1..];
        assert f in list;
        WithoutDrop(after[..at], f, after[at + 1..], files);
        woken := woken + {f.id};
        after := after[..at] + after[at + 1..];
        at := 0;
      } else {
        at := at + 1;
      }
    }
    WithoutAll(after, files);
  }

  // ---------------------------------------------------------------- what the removal keeps

  lemma {:induction false} WithoutOrdered(list: seq<FileLock>, files: nat)
    requires Ordered(list)
    ensures Ordered(Without(list, files))
  {
    if list != [] {
      var t := list[1..];
      assert Ordered(t) && forall i :: 0 <= i < |t| ==> Before(list[0], t[i]);
      WithoutOrdered(t, files);
      WithoutIn(t, files);
      var rs := Without(t, files);
      forall j | 0 <= j < |rs| ensures Before(list[0], rs[j]) {
        assert rs[j] in rs;
      }
    }
  }

  lemma {:induction false} WithoutUnique(list: seq<FileLock>, files: nat)
    requires UniqueIds(list)
    ensures UniqueIds(Without(list, files)) && Ids(Without(list, files)) <= Ids(list)
  {
    WithoutIn(list, files);
    if list != [] {
      var t := list[1..];
      assert UniqueIds(t) && forall i :: 0 <= i < |t| ==> list[0].id != t[i].id;
      WithoutUnique(t, files);
      WithoutIn(t, files);
      var rs := Without(t, files);
      forall j | 0 <= j < |rs| ensures list[0].id != rs[j].id {
        assert rs[j] in rs;
      }
    }
  }

  /** The locks of o come first. */
  predicate Leads(list: seq<FileLock>, o: Owner) {
    forall j, k :: 0 <= j < k < |list| && list[k].owner == o ==> list[j].owner == o
  }

  lemma {:induction false} WithoutLeads(list: seq<FileLock>, o: Owner, files: nat)
    requires Leads(list, o) && o.files != files
    ensures Leads(Without(list, files), o)
  {
    if list != [] {
      var t := list[1..];
      assert Leads(t, o);
      WithoutLeads(t, o, files);
      WithoutIn(t, files);
      var rs := Without(t, files);
      if list[0].owner != o {
        forall k | 0 <= k < |rs| ensures rs[k].owner != o {
          assert rs[k] in rs;
        }
      }
    }
  }

  lemma {:induction false} WithoutGrouped(list: seq<FileLock>, files: nat)
    requires Grouped(list)
    ensures Grouped(Without(list, files))
  {
    if list != [] {
      var t, o := list[1..], list[0].owner;
      assert Grouped(t) && Leads(t, o);
      WithoutGrouped(t, files);
      if o.files != files {
        WithoutLeads(t, o, files);
      }
    }
  }

  /** A removal keeps the list well formed, takes exactly the table's locks and leaves the rest as it is. */
  lemma WithoutWellFormed(list: seq<FileLock>, files: nat)
    requires WellFormed(list)
    ensures WellFormed(Without(list, files))
    ensures forall o, b, k ::
              Holds(Without(list, files), o, b, k) <==> o.files != files && Holds(list, o, b, k)
  {
    WithoutOrdered(list, files);
    WithoutGrouped(list, files);
    WithoutIn(list, files);
  }

  lemma WithoutKept(list: seq<FileLock>, files: nat, woken: set<nat>)
    requires woken == set f | f in list && f.owner.files == files :: f.id
    ensures Kept(list, Without(list, files), woken)
  {
    WithoutIn(list, files);
    forall g | g in list && g.id !in woken ensures exists f :: f in Without(list, files) && Grows(g, f) {
      assert g in Without(list, files) && Grows(g, g);
    }
  }
}
