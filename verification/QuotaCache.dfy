/** The calls on the cache of dquots (fs/dquot.c): dqget, dqput, write_dquot, read_dquot, prune_dqcache. */
module QuotaCache {
  import opened Lists
  import opened QuotaReferences

  /** How a call of dqput goes on: it is done, or the dquot has to be written first and dqput starts over. */
  datatype Put = Done | Write

  /** How a call of dqget goes on from where it may have slept: quotas are off; the dquot was found; the empty one was
      taken for it, and has to be read; or it starts over, with an empty one if there was memory. */
  datatype Turn = Off | Found(x: nat) | Claimed(x: nat) | Again(empty: Option<nat>)

  class DquotCache {
    const h: Hash
    var q: seq<Dquot>
    var alive: seq<bool>
    var free: seq<nat>
    var nfree: int
    var hash: seq<seq<nat>>
    var slots: seq<Option<nat>>
    var writing: map<nat, Block>
    var file: map<Key, Block>
    ghost var flight: seq<nat>
    ghost var truth: map<Key, Block>
    ghost var silent: set<nat>
    ghost var lost: set<Key>

    ghost function Abs(): Cache
      reads this
    {
      Cache(q, alive, free, nfree, hash, slots, flight, writing, file, truth, silent, lost)
    }

    ghost predicate Valid()
      reads this
    {
      Inv(h, Abs())
    }

    constructor (h: Hash, buckets: nat, inodes: nat, file: map<Key, Block>)
      requires InRange(h, buckets)
      ensures Valid() && this.h == h && Abs() == Initial(buckets, inodes, file)
    {
      InitialInv(h, buckets, inodes, file);
      hide Inv;
      this.h, this.file := h, file;
      q, alive, free, nfree, flight, writing, truth, silent, lost := [], [], [], 0, [], map[], file, {}, {};
      hash, slots := seq(buckets, _ => []), seq(inodes, _ => None);
    }

    /** find_dquot */
    method FindDquot(k: Key) returns (r: Option<nat>)
      requires Valid()
      ensures r.Some? ==> Keyed(Abs(), r.value, k)
      ensures r.None? ==> forall x :: !Keyed(Abs(), x, k)
    {
      assert HashOk(h, Abs());
      hide CountOk, FreeOk, UniqueOk, BusyOk, TruthOk;
      var chain := hash[h(k)];
      var i := 0;
      while i < |chain|
        invariant i <= |chain| && forall j :: 0 <= j < i ==> !Keyed(Abs(), chain[j], k)
      {
        assert chain[i] in chain;
        if q[chain[i]].key == Some(k) {
          return Some(chain[i]);
        }
        i := i + 1;
      }
      forall x: nat ensures !Keyed(Abs(), x, k) {
        NoneHashed(h, Abs(), k, x);
      }
      return None;
    }

    /** get_empty_dquot */
    method GetEmpty() returns (x: nat)
      requires Valid()
      modifies this
      ensures Valid() && Empty(old(Abs()), Abs()) && x == |old(q)| && HasRef(Abs(), x) && q[x].key.None? && alive[x]
    {
      assert Sized(Abs()) && |q| !in writing;
      hide Inv;
      ghost var s := Abs();
      x := |q|;
      q, alive, flight := q + [Dquot(1, false, false, None, ZERO)], alive + [true], flight + [1];
      EmptyKeeps(h, s, Abs());
    }

    /** The hit of dqget: one reference more, off the free list with the first. */
    method Take(x: nat, ghost k: Key)
      requires Valid() && Keyed(Abs(), x, k)
      modifies this
      ensures Valid() && Get(old(Abs()), Abs(), x)
      ensures x < |q| && q[x].count == old(q)[x].count + 1 && x !in free
    {
      hide Inv;
      SizedNow(h, Abs());
      ghost var s := Abs();
      if q[x].count == 0 {
        free := Minus(free, x);
        nfree := nfree - 1;
      }
      q := q[x := q[x].(count := q[x].count + 1)];
      flight := flight[x := flight[x] + 1];
      RaiseKeeps(h, s, Abs(), x);
      CountedOff(h, Abs(), x);
    }

    /** dqget, from where it may have slept up to where it may sleep again. enabled is whether the quota is on, memory
        whether there is some for a dquot. What was found may have to be waited for, until it is read;
        an empty dquot that is not taken is put. */
    method DqgetTurn(k: Key, empty: Option<nat>, enabled: bool, memory: bool) returns (r: Turn)
      requires Valid() && (empty.Some? ==> empty.value < |q| && empty.value < |alive| && alive[empty.value]
                                           && HasRef(Abs(), empty.value) && q[empty.value].key.None?)
      modifies this
      ensures Valid()
      ensures r.Off? <==> !enabled
      ensures r.Found? ==> Keyed(old(Abs()), r.x, k) && Get(old(Abs()), Abs(), r.x)
      ensures r.Claimed? ==> empty == Some(r.x) && Claim(h, old(Abs()), Abs(), r.x, k)
      ensures r.Again? ==> empty.None? && r.empty == if memory then Some(|old(q)|) else None
      ensures r.Claimed? || r.Again? ==> forall x :: !Keyed(old(Abs()), x, k)
      ensures r == Again(Some(|old(q)|)) ==> Empty(old(Abs()), Abs())
      ensures r == Off || r == Again(None) ==> Abs() == old(Abs())
    {
      hide Inv;
      if !enabled {
        return Off;
      }
      var found := FindDquot(k);
      if found.Some? {
        Take(found.value, k);
        return Found(found.value);
      }
      if empty.Some? {
        Adopt(empty.value, k);
        return Claimed(empty.value);
      }
      if memory {
        var x := GetEmpty();
        return Again(Some(x));
      }
      return Again(None);
    }

    /** The empty dquot becomes that of k. */
    method Adopt(x: nat, k: Key)
      requires Valid() && x < |q| && x < |alive| && alive[x] && HasRef(Abs(), x) && q[x].key.None?
      requires forall y :: !Keyed(Abs(), y, k)
      modifies this
      ensures Valid() && Claim(h, old(Abs()), Abs(), x, k)
    {
      assert Sized(Abs()) && InRange(h, |hash|);
      hide Inv;
      ghost var s := Abs();
      q := q[x := q[x].(key := Some(k), locked := true)];
      hash := hash[h(k) := [x] + hash[h(k)]];
      assert Claim(h, s, Abs(), x, k);
      ClaimKeeps(h, s, Abs(), x, k);
    }

    /** read_dquot, from where the record is there: it says what was last put into that quota, unless that was lost. */
    method ReadDone(x: nat)
      requires Valid() && x < |q| && q[x].locked && q[x].key.Some?
      modifies this
      ensures Valid() && ReadEnd(old(Abs()), Abs(), x) && !q[x].locked
      ensures q[x].use == Record(truth, q[x].key.value) <==> q[x].key.value !in lost
    {
      assert Sized(Abs());
      hide Inv;
      ghost var s := Abs();
      q := q[x := q[x].(use := Record(file, q[x].key.value), locked := false)];
      ReadKeeps(h, s, Abs(), x);
    }

    /** dqput, up to where it returns or write_dquot begins. */
    method Dqput(x: nat) returns (r: Put)
      requires Valid() && HasRef(Abs(), x)
      modifies this
      ensures Valid()
      ensures old(q)[x].count > 1 ==> r == Done && PutShared(old(Abs()), Abs(), x)
      ensures old(q)[x].count == 1 && old(q)[x].mod ==> r == Write && Abs() == old(Abs())
      ensures old(q)[x].count == 1 && !old(q)[x].mod ==> r == Done && PutLast(old(Abs()), Abs(), x)
      ensures old(q)[x].count >= 1
      ensures r == Done ==> x < |q| && q[x].count == old(q)[x].count - 1
      ensures free == if old(q)[x].count == 1 && !old(q)[x].mod then old(free) + [x] else old(free)
    {
      hide Inv, PutShared, PutLast;
      RefCounts(h, Abs(), x);
      ghost var s := Abs();
      if q[x].count > 1 {
        q := q[x := q[x].(count := q[x].count - 1)];
        flight := flight[x := flight[x] - 1];
        PutIs(s, Abs(), x);
        PutKeeps(h, s, Abs(), x);
        return Done;
      }
      if q[x].mod {
        return Write;
      }
      q := q[x := q[x].(count := q[x].count - 1)];
      flight := flight[x := flight[x] - 1];
      free := free + [x];
      nfree := nfree + 1;
      PutIs(s, Abs(), x);
      PutKeeps(h, s, Abs(), x);
      return Done;
    }

    /** write_dquot, behind down(dqio_sem). */
    method WriteStart(x: nat)
      requires Valid() && HasRef(Abs(), x) && q[x].key.Some? && !q[x].locked && FileIdle(Abs(), q[x].key.value.sb)
      modifies this
      ensures Valid() && WriteBegin(old(Abs()), Abs(), x)
      ensures x < |q| && !q[x].mod && q[x].use == old(q)[x].use && writing == old(writing)[x := q[x].use]
    {
      assert Sized(Abs());
      hide Inv;
      ghost var s := Abs();
      writing := writing[x := q[x].use];
      q := q[x := q[x].(mod := false)];
      silent := silent - {x};
      WriteBeginKeeps(h, s, Abs(), x);
    }

    /** write_dquot, from where the record is written. */
    method WriteDone(x: nat)
      requires Valid() && x in writing
      modifies this
      ensures Valid() && WriteEnd(old(Abs()), Abs(), x)
      ensures x < |q| && q[x].key.Some? && (!q[x].mod && x !in silent ==> Record(file, q[x].key.value) == q[x].use)
    {
      WritingNow(h, Abs(), x);
      hide Inv;
      ghost var s := Abs();
      file := file[q[x].key.value := writing[x]];
      writing := writing - {x};
      WriteEndKeeps(h, s, Abs(), x);
    }

    /** One turn of prune_dqcache. */
    method PruneOne() returns (x: nat)
      requires Valid() && free != []
      modifies `alive, `free, `nfree, `hash, `silent, `lost
      ensures Valid() && x == old(free)[|old(free)| - 1] && Prune(h, old(Abs()), Abs(), x)
      ensures Unused(old(Abs()), x) && (OnDisk(old(Abs()), x) <==> x !in old(silent))
    {
      hide Inv, Unused, OnDisk, Unhashed, Prune;
      ghost var s := Abs();
      x := free[|free| - 1];
      PruneReady(h, s, x);
      var chains := Unlink(x);
      hash := chains;
      lost, silent := LostWith(s, x), silent - {x};
      alive, free, nfree := alive[x := false], free[..|free| - 1], nfree - 1;
      PruneIs(h, s, Abs(), x);
      PruneKeeps(h, s, Abs(), x);
    }

    /** remove_dquot_hash */
    method Unlink(x: nat) returns (chains: seq<seq<nat>>)
      requires x < |q| && (q[x].key.Some? ==> h(q[x].key.value) < |hash|)
      ensures chains == Unhashed(h, Abs(), x)
    {
      if q[x].key.None? {
        return hash;
      }
      var b := h(q[x].key.value);
      return hash[b := Minus(hash[b], x)];
    }

    /** prune_dqcache */
    method PruneDqcache(count: int)
      requires Valid()
      modifies `alive, `free, `nfree, `hash, `silent, `lost
      ensures Valid() && |alive| == |old(alive)|
      ensures |free| == if 0 <= count < |old(free)| then |old(free)| - count else 0
      ensures free == old(free)[..|free|]
      ensures forall x {:trigger alive[x]} :: 0 <= x < |alive| && old(alive)[x] && !alive[x] ==> Given(old(Abs()), x)
    {
      hide Inv, Given, Unhashed, Unused, OnDisk;
      var n := count;
      while free != [] && n != 0
        invariant Valid() && |alive| == |old(alive)| && n <= count && |free| <= |old(free)|
        invariant free == old(free)[..|free|]
        invariant |old(free)| - |free| == count - n && (count >= 0 ==> n >= 0)
        invariant forall x {:trigger alive[x]} :: 0 <= x < |alive| && alive[x] ==> (x in silent <==> x in old(silent))
        invariant forall x {:trigger alive[x]} :: 0 <= x < |alive| && old(alive)[x] && !alive[x] ==>
                  Given(old(Abs()), x)
        decreases |free|
      {
        ghost var s := Abs();
        FreeAlive(h, s);
        var x := PruneOne();
        GivenSame(s, old(Abs()), x);
        n := n - 1;
      }
    }
  }

  /** Nobody refers to x, and all it says is on disk exactly when it was not changed silently. */
  predicate Given(s: Cache, x: nat) {
    Unused(s, x) && (OnDisk(s, x) <==> x !in s.silent)
  }

  lemma GivenSame(s: Cache, s0: Cache, x: nat)
    requires Unused(s, x) && (OnDisk(s, x) <==> x !in s.silent)
    requires s.q == s0.q && s.flight == s0.flight && s.writing == s0.writing && s.slots == s0.slots
    requires s.file == s0.file && (x in s.silent <==> x in s0.silent)
    ensures Given(s0, x)
  {
  }

  lemma PruneReady(h: Hash, s: Cache, x: nat)
    requires Inv(h, s) && s.free != [] && x == s.free[|s.free| - 1]
    ensures Sized(s) && x < |s.q| && (s.q[x].key.Some? ==> h(s.q[x].key.value) < |s.hash|)
    ensures Unused(s, x) && (OnDisk(s, x) <==> x !in s.silent)
  {
    assert x in s.free;
    PrunedIsClean(h, s, x);
  }

  lemma PruneIs(h: Hash, s: Cache, s': Cache, x: nat)
    requires Sized(s) && s.free != [] && x == s.free[|s.free| - 1] && x < |s.q|
    requires s.q[x].key.Some? ==> h(s.q[x].key.value) < |s.hash|
    requires s' == s.(alive := s.alive[x := false], free := s.free[..|s.free| - 1], nfree := s.nfree - 1,
                      hash := Unhashed(h, s, x), silent := s.silent - {x}, lost := LostWith(s, x))
    ensures Prune(h, s, s', x)
  {
  }

  lemma FreeAlive(h: Hash, s: Cache)
    requires Inv(h, s) && s.free != []
    ensures s.free[|s.free| - 1] < |s.alive| && s.alive[s.free[|s.free| - 1]]
  {
    assert s.free[|s.free| - 1] in s.free;
  }

  lemma WritingNow(h: Hash, s: Cache, x: nat)
    requires Inv(h, s) && x in s.writing
    ensures Sized(s) && x < |s.q| && s.q[x].key.Some? && (!s.q[x].mod && x !in s.silent ==> s.writing[x] == s.q[x].use)
  {
    assert ValueAt(s, x);
  }

  lemma CountedOff(h: Hash, s: Cache, x: nat)
    requires Inv(h, s) && x < |s.q| && x < |s.flight| && s.flight[x] > 0
    ensures x !in s.free
  {
  }

  lemma SizedNow(h: Hash, s: Cache)
    requires Inv(h, s)
    ensures Sized(s)
  {
  }

  lemma RefCounts(h: Hash, s: Cache, x: nat)
    requires Inv(h, s) && HasRef(s, x)
    ensures Sized(s) && s.q[x].count >= 1
  {
  }

  lemma PutIs(s: Cache, s': Cache, x: nat)
    requires Sized(s) && HasRef(s, x) && s.q[x].count >= 1
    ensures s.q[x].count > 1 && s' == s.(q := Counted(s, x, -1), flight := s.flight[x := s.flight[x] - 1]) ==>
            PutShared(s, s', x)
    ensures s.q[x].count == 1 && !s.q[x].mod
            && s' == s.(q := Counted(s, x, -1), flight := s.flight[x := s.flight[x] - 1], free := s.free + [x],
               nfree := s.nfree + 1)
            ==> PutLast(s, s', x)
  {
  }
}
