/** The calls on disk quota (fs/dquot.c): dquot_alloc_block, dquot_alloc_inode, dquot_free_block, dquot_free_inode and
    dquot_transfer. */
module QuotaCalls {
  import opened Lists
  import opened QuotaUsage

  class Quotas {
    var q: seq<Quota>
    var iblocks: seq<nat>
    var counted: seq<bool>
    var slot: seq<seq<Option<nat>>>
    ghost var disk: seq<Quota>

    ghost function Abs(): State
      reads this
    {
      State(q, disk, iblocks, counted, slot)
    }

    ghost predicate Valid()
      reads this
    {
      Inv(Abs())
    }

    constructor (q: seq<Quota>, iblocks: seq<nat>, counted: seq<bool>)
      requires AllRead(q) && |iblocks| == |counted|
      ensures Valid() && Abs() == Fresh(q, iblocks, counted)
    {
      FreshInv(q, iblocks, counted);
      hide Inv;
      this.q, this.iblocks, this.counted, slot := q, iblocks, counted, seq(|iblocks|, _ => [None, None]);
      disk := q;
    }

    /** The checks of a call, up to the first that fails. */
    method CheckAll(who: seq<Option<nat>>, d: Demand, terms: Terms) returns (ok: bool)
      requires SlotsOk(q, who) && TermsOk(terms)
      modifies `q
      ensures q == Tried(old(q), who, d, terms) && (ok <==> Passes(old(q), who, d, terms))
    {
      hide Check;
      ghost var q0 := q;
      var c := 0;
      while c < MAXQUOTAS
        invariant 0 <= c <= MAXQUOTAS && |q| == |q0| && c <= Stop(q0, who, d, terms, 0)
        invariant forall x {:trigger q[x]} :: 0 <= x < |q| ==>
                    q[x] == if In(who, q0[x], x) && q0[x].kind < c then Check(q0[x], d, terms).1 else q0[x]
      {
        if who[c].Some? {
          var x := who[c].value;
          var r := Check(q[x], d, terms);
          q := q[x := r.1];
          if !r.0 {
            assert Stop(q0, who, d, terms, 0) == c;
            assert q == Tried(q0, who, d, terms);
            return false;
          }
        }
        StopLater(q0, who, d, terms, c);
        c := c + 1;
      }
      assert q == Tried(q0, who, d, terms);
      return true;
    }

    /** The charges of a call. */
    method ChargeAll(who: seq<Option<nat>>, d: Demand)
      requires SlotsOk(q, who)
      modifies `q
      ensures q == Each(old(q), who, p => Add(p, d))
    {
      var c := 0;
      while c < MAXQUOTAS
        invariant 0 <= c <= MAXQUOTAS && |q| == |old(q)|
        invariant forall x {:trigger q[x]} :: 0 <= x < |q| ==>
                    q[x] == if In(who, old(q)[x], x) && old(q)[x].kind < c then Add(old(q)[x], d) else old(q)[x]
      {
        if who[c].Some? {
          var x := who[c].value;
          q := q[x := Add(q[x], d)];
        }
        c := c + 1;
      }
    }

    /** The releases of a call. */
    method ReleaseAll(who: seq<Option<nat>>, d: Demand)
      requires SlotsOk(q, who)
      modifies `q
      ensures q == Each(old(q), who, p => Take(p, d))
    {
      var c := 0;
      while c < MAXQUOTAS
        invariant 0 <= c <= MAXQUOTAS && |q| == |old(q)|
        invariant forall x {:trigger q[x]} :: 0 <= x < |q| ==>
                    q[x] == if In(who, old(q)[x], x) && old(q)[x].kind < c then Take(old(q)[x], d) else old(q)[x]
      {
        if who[c].Some? {
          var x := who[c].value;
          q := q[x := Take(q[x], d)];
        }
        c := c + 1;
      }
    }

    /** dquot_alloc_block: all the inode's dquots are charged, or none. */
    method AllocBlock(i: nat, n: nat, prealloc: bool, terms: Terms) returns (ok: bool)
      requires Valid() && i < |slot| && TermsOk(terms)
      modifies this
      ensures Valid() && (ok <==> GrantedBy(old(q), old(slot)[i], Blocks(n, prealloc), terms))
      ensures ok ==> AllocStep(old(Abs()), Abs(), i, Blocks(n, prealloc), terms)
      ensures !ok ==> Refused(old(Abs()), Abs(), old(slot)[i], Blocks(n, prealloc), terms)
      ensures Next(old(Abs()), Abs(), terms)
    {
      ghost var s := Abs();
      SlotsNow(s, i);
      PassesGranted(q, slot[i], Blocks(n, prealloc), terms);
      hide Inv, Next, Tried, Each, SlotsOk, GrantedBy;
      ok := CheckAll(slot[i], Blocks(n, prealloc), terms);
      if ok {
        TriedSlots(s.q, slot[i], slot[i], Blocks(n, prealloc), terms);
        ChargeAll(slot[i], Blocks(n, prealloc));
        iblocks := iblocks[i := iblocks[i] + 2 * n];
        assert Abs() == Allocated(s, i, Blocks(n, prealloc), terms);
        AllocatedKeeps(s, i, Blocks(n, prealloc), terms);
        NextAlloc(s, Abs(), i, Blocks(n, prealloc), terms);
      } else {
        RefusedKeeps(s, Abs(), slot[i], Blocks(n, prealloc), terms);
        NextRefused(s, Abs(), slot[i], Blocks(n, prealloc), terms);
      }
    }

    /** dquot_alloc_inode, for one inode. */
    method AllocInode(i: nat, terms: Terms) returns (ok: bool)
      requires Valid() && i < |slot| && TermsOk(terms) && !counted[i]
      modifies this
      ensures Valid() && (ok <==> GrantedBy(old(q), old(slot)[i], Inode, terms))
      ensures ok ==> AllocStep(old(Abs()), Abs(), i, Inode, terms)
      ensures !ok ==> Refused(old(Abs()), Abs(), old(slot)[i], Inode, terms)
      ensures Next(old(Abs()), Abs(), terms)
    {
      ghost var s := Abs();
      SlotsNow(s, i);
      PassesGranted(q, slot[i], Inode, terms);
      hide Inv, Next, Tried, Each, SlotsOk, GrantedBy;
      ok := CheckAll(slot[i], Inode, terms);
      if ok {
        TriedSlots(s.q, slot[i], slot[i], Inode, terms);
        ChargeAll(slot[i], Inode);
        counted := counted[i := true];
        assert Abs() == Allocated(s, i, Inode, terms);
        AllocatedKeeps(s, i, Inode, terms);
        NextAlloc(s, Abs(), i, Inode, terms);
      } else {
        RefusedKeeps(s, Abs(), slot[i], Inode, terms);
        NextRefused(s, Abs(), slot[i], Inode, terms);
      }
    }

    /** dquot_free_block */
    method FreeBlock(i: nat, n: nat)
      requires Valid() && i < |slot| && 2 * n <= iblocks[i]
      modifies this
      ensures Valid() && FreeStep(old(Abs()), Abs(), i, Blocks(n, false))
    {
      ghost var s := Abs();
      assert SlotsOk(q, slot[i]);
      FreedKeeps(s, i, Blocks(n, false));
      ReleaseAll(slot[i], Blocks(n, false));
      iblocks := iblocks[i := iblocks[i] - 2 * n];
      assert Abs() == Freed(s, i, Blocks(n, false));
    }

    /** dquot_free_inode, for one inode. */
    method FreeInode(i: nat)
      requires Valid() && i < |slot| && counted[i]
      modifies this
      ensures Valid() && FreeStep(old(Abs()), Abs(), i, Inode)
    {
      ghost var s := Abs();
      assert SlotsOk(q, slot[i]);
      FreedKeeps(s, i, Inode);
      ReleaseAll(slot[i], Inode);
      counted := counted[i := false];
      assert Abs() == Freed(s, i, Inode);
    }

    /** The second loop of dquot_transfer. */
    method MoveAll(from: seq<Option<nat>>, to: seq<Option<nat>>, n: nat) returns (slots: seq<Option<nat>>)
      requires SlotsOk(q, from) && SlotsOk(q, to)
      modifies `q
      ensures q == MovedAll(old(q), from, to, n) && slots == NewSlots(from, to)
    {
      hide Take, Add;
      var c := 0;
      slots := from;
      while c < MAXQUOTAS
        invariant 0 <= c <= MAXQUOTAS && |q| == |old(q)| && |slots| == MAXQUOTAS
        invariant forall k {:trigger slots[k]} :: 0 <= k < MAXQUOTAS ==>
                    slots[k] == if k < c && from[k].Some? && to[k].Some? then to[k] else from[k]
        invariant forall x {:trigger q[x]} :: 0 <= x < |q| ==>
                    q[x] == if old(q)[x].kind < c then Moved(old(q)[x], x, from[old(q)[x].kind], to[old(q)[x].kind], n)
                            else old(q)[x]
      {
        if from[c].Some? && to[c].Some? {
          var a, b := from[c].value, to[c].value;
          q := q[a := Take(q[a], Both(n))];
          q := q[b := Add(q[b], Both(n))];
          slots := slots[c := to[c]];
        }
        c := c + 1;
      }
      assert slots == NewSlots(from, to);
    }

    /** dquot_transfer; to holds the dquots of the new owners, where they change and quota is on. What is promised of
        the counts is for an inode that is allocated. */
    method TransferInode(i: nat, to: seq<Option<nat>>, terms: Terms) returns (ok: bool)
      requires Valid() && i < |slot| && SlotsOk(q, to) && TermsOk(terms)
      modifies this
      ensures |old(slot)[i]| == |to| == MAXQUOTAS && |old(iblocks)| == |old(slot)|
      ensures ok <==> GrantedBy(old(q), Targets(old(slot)[i], to), Both(old(iblocks)[i] / 2), terms)
      ensures ok ==> MayTransfer(old(Abs()), i, to, terms) && Abs() == Transferred(old(Abs()), i, to, terms)
      ensures !ok ==> Refused(old(Abs()), Abs(), Targets(old(slot)[i], to), Both(old(iblocks)[i] / 2), terms)
      ensures !ok || old(counted)[i] ==> Valid()
      ensures !ok || (old(counted)[i] && OwnerChanges(old(slot)[i], to)) ==> Next(old(Abs()), Abs(), terms)
    {
      ghost var s := Abs();
      var n, from := iblocks[i] / 2, slot[i];
      SlotsNow(s, i);
      hide Inv, Next, Tried, MovedAll, NewSlots, Covered, Saved, SlotsOk, GrantedBy;
      var who := Targets(from, to);
      assert SlotsOk(q, who) by { TargetsOk(q, from, to); }
      PassesGranted(q, who, Both(n), terms);
      ok := CheckAll(who, Both(n), terms);
      if ok {
        TriedSlots(s.q, who, from, Both(n), terms);
        TriedSlots(s.q, who, to, Both(n), terms);
        var slots := MoveAll(from, to, n);
        slot := slot[i := slots];
        assert Abs() == Transferred(s, i, to, terms);
        if counted[i] {
          TransferKeeps(s, i, to, terms);
          NextTransfer(s, Abs(), i, to, terms);
        }
      } else {
        RefusedKeeps(s, Abs(), who, Both(n), terms);
        NextRefused(s, Abs(), who, Both(n), terms);
      }
    }
  }

  lemma TargetsOk(q: seq<Quota>, from: seq<Option<nat>>, to: seq<Option<nat>>)
    requires SlotsOk(q, from) && SlotsOk(q, to)
    ensures SlotsOk(q, Targets(from, to))
  {
  }

  lemma SlotsNow(s: State, i: nat)
    requires Inv(s) && i < |s.slot|
    ensures Shaped(s) && SlotsOk(s.q, s.slot[i])
  {
  }

  lemma NextAlloc(s: State, s': State, i: nat, d: Demand, terms: Terms)
    requires Shaped(s) && TermsOk(terms) && AllocStep(s, s', i, d, terms)
    ensures Next(s, s', terms)
  {
    hide AllocStep;
  }

  lemma NextRefused(s: State, s': State, who: seq<Option<nat>>, d: Demand, terms: Terms)
    requires Shaped(s) && TermsOk(terms) && Refused(s, s', who, d, terms)
    ensures Next(s, s', terms)
  {
    hide Refused;
  }

  lemma NextTransfer(s: State, s': State, i: nat, to: seq<Option<nat>>, terms: Terms)
    requires Shaped(s) && TermsOk(terms) && MayTransfer(s, i, to, terms) && s' == Transferred(s, i, to, terms)
    requires s.counted[i]
    ensures OwnerChanges(s.slot[i], to) ==> Next(s, s', terms)
  {
    hide Transferred;
    assert OwnerChanges(s.slot[i], to) ==> TransferStep(s, s', i, to, terms);
  }

  /** If kind c passes, the first refusal comes later. */
  lemma StopLater(q: seq<Quota>, who: seq<Option<nat>>, d: Demand, terms: Terms, c: nat)
    requires SlotsOk(q, who) && TermsOk(terms) && c < MAXQUOTAS && c <= Stop(q, who, d, terms, 0)
    requires who[c].Some? ==> Check(q[who[c].value], d, terms).0
    ensures c + 1 <= Stop(q, who, d, terms, 0)
  {
  }

  /** The checks change no kinds. */
  lemma TriedSlots(q: seq<Quota>, who: seq<Option<nat>>, slots: seq<Option<nat>>, d: Demand, terms: Terms)
    requires SlotsOk(q, who) && TermsOk(terms) && SlotsOk(q, slots)
    ensures SlotsOk(Tried(q, who, d, terms), slots)
  {
  }

  /** A transfer of an inode that nobody counts makes one: the condition of QuotaUsage.TransferConserves is needed. */
  method InodeFromNowhere() returns (q: seq<Quota>, q': seq<Quota>)
    ensures |q| == |q'| == 2 && TotalInodes(q, 0, 2) == 0 && TotalInodes(q', 0, 2) == 1
  {
    hide Inv, GrantedBy, MayTransfer, Transferred, Next, Refused, OwnerChanges;
    var nothing := Quota(0, 0, 0, 0, 0, 0, 0, 0, 0, true, false);
    var terms := Terms(1, [false, false], [1, 1], [1, 1]);
    var o := new Quotas([nothing, nothing], [0], [false]);
    o.slot := [[Some(0), None]];
    ghost var s := o.Abs();
    q := o.q;
    OwnedInv(s, nothing);
    FakeGrants(s.q, Targets(s.slot[0], [Some(1), None]), Both(0), terms);
    var ok := o.TransferInode(0, [Some(1), None], terms);
    q' := o.q;
    MovedFromNowhere(s, terms);
  }

  lemma MovedFromNowhere(s: State, terms: Terms)
    requires Inv(s) && TermsOk(terms) && MayTransfer(s, 0, [Some(1), None], terms)
    requires |s.q| == 2 && s.slot[0] == [Some(0), None]
    requires s.q[0].kind == s.q[1].kind == s.q[0].inodes == s.q[1].inodes == 0
    ensures var q' := Transferred(s, 0, [Some(1), None], terms).q;
            |q'| == 2 && TotalInodes(s.q, 0, 2) == 0 && TotalInodes(q', 0, 2) == 1
  {
    TransferShifts(s, 0, [Some(1), None], terms, 0, 0);
    TransferShifts(s, 0, [Some(1), None], terms, 0, 1);
    hide Inv, MayTransfer, Transferred;
    TwoInodes(s.q);
    TwoInodes(Transferred(s, 0, [Some(1), None], terms).q);
  }

  /** A dquot without limits grants everything. */
  lemma FakeGrants(q: seq<Quota>, who: seq<Option<nat>>, d: Demand, terms: Terms)
    requires TermsOk(terms) && forall x :: 0 <= x < |q| ==> q[x].fake && q[x].kind < MAXQUOTAS
    ensures GrantedBy(q, who, d, terms)
  {
  }

  lemma OwnedInv(s: State, nothing: Quota)
    requires nothing == Quota(0, 0, 0, 0, 0, 0, 0, 0, 0, true, false)
    requires s == State([nothing, nothing], [nothing, nothing], [0], [false], [[Some(0), None]])
    ensures Inv(s)
  {
    assert s.slot[0][0] == Some(0) && s.slot[0][1] == None;
    assert SlotsOk(s.q, s.slot[0]);
    forall x: nat
        ensures Owed(s.slot, BlockLoad(s.iblocks), 0, x, 1) == 0 && Owed(s.slot, InodeLoad(s.counted), 0, x, 1) == 0 {
      assert Owed(s.slot, BlockLoad(s.iblocks), 0, x, 0) == 0 && Owed(s.slot, InodeLoad(s.counted), 0, x, 0) == 0;
    }
  }

  lemma TwoInodes(q: seq<Quota>)
    requires |q| == 2 && q[0].kind == 0 && q[1].kind == 0
    ensures TotalInodes(q, 0, 2) == q[0].inodes + q[1].inodes
  {
    assert TotalInodes(q, 0, 1) == q[0].inodes;
  }
}
