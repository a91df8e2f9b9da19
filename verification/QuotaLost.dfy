/** A deadline that the cache of dquots loses (fs/dquot.c). A call of dquot_transfer takes the new owner's dquot,
    check_idq or check_bdq starts a grace time in it, a later check refuses, and dqput puts the dquot on the free
    list. It is not marked, so it is not written before prune_dqcache gives it back to memory. */
module QuotaLost {
  import opened Lists
  import opened QuotaReferences

  const SOMEBODY := Key(0, 0, 7)
  const DEADLINE := Block(0, 9, 0)

  /** A cache with one dquot, which is all that matters of it. */
  predicate One(s: Cache, q: Dquot, alive: bool, free: bool, flight: nat, silent: bool) {
    && s.q == [q] && s.alive == [alive] && s.free == (if free then [0] else []) && s.flight == [flight]
    && s.slots == [] && s.writing == map[] && s.file == map[] && s.silent == (if silent then {0} else {})
  }

  function Chains(h: Hash, buckets: nat): seq<seq<nat>>
    requires h(SOMEBODY) < buckets
  {
    seq(buckets, _ => [])[h(SOMEBODY) := [0]]
  }

  lemma Made(buckets: nat) returns (s: Cache)
    ensures Empty(Initial(buckets, 0, map[]), s) && One(s, Dquot(1, false, false, None, ZERO), true, false, 1, false)
    ensures s.hash == seq(buckets, _ => [])
  {
    var s0 := Initial(buckets, 0, map[]);
    assert s0.slots == [];
    s := s0.(q := s0.q + [Dquot(1, false, false, None, ZERO)], alive := s0.alive + [true], flight := s0.flight + [1]);
  }

  lemma Claimed(h: Hash, buckets: nat, s: Cache) returns (s': Cache)
    requires One(s, Dquot(1, false, false, None, ZERO), true, false, 1, false) && h(SOMEBODY) < buckets
    requires s.hash == seq(buckets, _ => [])
    ensures Claim(h, s, s', 0, SOMEBODY) && One(s', Dquot(1, false, true, Some(SOMEBODY), ZERO), true, false, 1, false)
    ensures s'.hash == Chains(h, buckets)
  {
    var b := h(SOMEBODY);
    assert s.hash[b] == [] && [0] + s.hash[b] == [0];
    s' := s.(q := s.q[0 := s.q[0].(key := Some(SOMEBODY), locked := true)], hash := s.hash[b := [0] + s.hash[b]]);
  }

  lemma Readied(s: Cache) returns (s': Cache)
    requires One(s, Dquot(1, false, true, Some(SOMEBODY), ZERO), true, false, 1, false)
    ensures ReadEnd(s, s', 0) && One(s', Dquot(1, false, false, Some(SOMEBODY), ZERO), true, false, 1, false)
    ensures s'.hash == s.hash
  {
    s' := s.(q := s.q[0 := s.q[0].(use := Record(s.file, SOMEBODY), locked := false)]);
  }

  lemma Refused(s: Cache) returns (s': Cache)
    requires One(s, Dquot(1, false, false, Some(SOMEBODY), ZERO), true, false, 1, false)
    ensures StartGrace(s, s', 0, DEADLINE)
    ensures One(s', Dquot(1, false, false, Some(SOMEBODY), DEADLINE), true, false, 1, true)
    ensures s'.hash == s.hash
  {
    s' := s.(q := s.q[0 := s.q[0].(use := DEADLINE)], truth := s.truth[SOMEBODY := DEADLINE], silent := s.silent + {0},
             lost := s.lost - {SOMEBODY});
  }

  lemma Released(s: Cache) returns (s': Cache)
    requires One(s, Dquot(1, false, false, Some(SOMEBODY), DEADLINE), true, false, 1, true)
    ensures PutLast(s, s', 0) && One(s', Dquot(0, false, false, Some(SOMEBODY), DEADLINE), true, true, 0, true)
    ensures s'.hash == s.hash
  {
    s' := s.(q := Counted(s, 0, -1), flight := s.flight[0 := 0], free := s.free + [0], nfree := s.nfree + 1);
  }

  lemma Pruned(h: Hash, buckets: nat, s: Cache) returns (s': Cache)
    requires One(s, Dquot(0, false, false, Some(SOMEBODY), DEADLINE), true, true, 0, true)
    requires h(SOMEBODY) < buckets && s.hash == Chains(h, buckets)
    ensures Prune(h, s, s', 0) && s'.lost == s.lost + {SOMEBODY}
  {
    s' := s.(alive := s.alive[0 := false], free := s.free[..|s.free| - 1], nfree := s.nfree - 1,
             hash := Unhashed(h, s, 0), silent := s.silent - {0}, lost := LostWith(s, 0));
  }

  /** A run that ends with a dquot given back to memory whose running grace time is not on disk. */
  ghost predicate LosesDeadline(h: Hash, states: seq<Cache>, buckets: nat, x: nat) {
    && Run(h, states, buckets, 0, map[]) && |states| > 1
    && var s, s' := states[|states| - 2], states[|states| - 1];
    && Prune(h, s, s', x) && s.q[x].key.Some?
    && s.q[x].use.btime != 0 && Record(s.file, s.q[x].key.value).btime == 0
  }

  /** Whatever the hash function, there is such a run from the empty cache. */
  lemma LostDeadlineExample(h: Hash, buckets: nat)
    requires InRange(h, buckets)
    ensures exists states, x :: LosesDeadline(h, states, buckets, x)
  {
    assert h(SOMEBODY) < buckets;
    hide Claim, Empty, ReadEnd, StartGrace, PutLast, Prune, One, InRange, Chains, Next, Run, LosesDeadline;
    var run, s := FirstHalf(h, buckets);
    var s4 := Refused(s);
    var s5 := Released(s4);
    var s6 := Pruned(h, buckets, s5);
    NextLast(h, s, s4, s5, s6);
    Ends(s5);
    RunMore(h, run, buckets, s4);
    RunMore(h, run + [s4], buckets, s5);
    RunMore(h, run + [s4] + [s5], buckets, s6);
    Concludes(h, run + [s4] + [s5] + [s6], buckets);
  }

  /** A run in which somebody's dquot is made and read. */
  lemma FirstHalf(h: Hash, buckets: nat) returns (run: seq<Cache>, s: Cache)
    requires InRange(h, buckets) && h(SOMEBODY) < buckets
    ensures Run(h, run, buckets, 0, map[]) && run != [] && s == run[|run| - 1] && s.hash == Chains(h, buckets)
    ensures One(s, Dquot(1, false, false, Some(SOMEBODY), ZERO), true, false, 1, false)
  {
    var s0 := Initial(buckets, 0, map[]);
    assert Run(h, [s0], buckets, 0, map[]);
    hide Claim, Empty, ReadEnd, One, InRange, Chains, Next, Run;
    var s1 := Made(buckets);
    var s2 := Claimed(h, buckets, s1);
    var s3 := Readied(s2);
    NextFirst(h, s0, s1, s2, s3);
    RunMore(h, [s0], buckets, s1);
    RunMore(h, [s0] + [s1], buckets, s2);
    RunMore(h, [s0] + [s1] + [s2], buckets, s3);
    return [s0] + [s1] + [s2] + [s3], s3;
  }

  lemma RunMore(h: Hash, run: seq<Cache>, buckets: nat, s': Cache)
    requires Run(h, run, buckets, 0, map[]) && run != [] && Next(h, run[|run| - 1], s')
    ensures Run(h, run + [s'], buckets, 0, map[]) && run + [s'] != []
  {
    hide Next, Initial;
    var more := run + [s'];
    forall i | 0 <= i < |more| - 1 ensures Next(h, more[i], more[i + 1]) {
      if i < |run| - 1 {
        assert Next(h, run[i], run[i + 1]);
      }
    }
  }

  lemma Concludes(h: Hash, states: seq<Cache>, buckets: nat)
    requires Run(h, states, buckets, 0, map[]) && |states| > 1
    requires var s := states[|states| - 2];
             && |s.q| == 1 && s.q[0].key == Some(SOMEBODY) && s.q[0].use.btime != 0 &&
                Record(s.file, SOMEBODY).btime == 0
             && Prune(h, s, states[|states| - 1], 0)
    ensures LosesDeadline(h, states, buckets, 0)
  {
    hide Run, Prune;
  }

  lemma Ends(s: Cache)
    requires One(s, Dquot(0, false, false, Some(SOMEBODY), DEADLINE), true, true, 0, true)
    ensures |s.q| == 1 && s.q[0].key == Some(SOMEBODY) && s.q[0].use.btime != 0 && Record(s.file, SOMEBODY).btime == 0
  {
  }

  lemma NextFirst(h: Hash, s0: Cache, s1: Cache, s2: Cache, s3: Cache)
    requires Empty(s0, s1) && Claim(h, s1, s2, 0, SOMEBODY) && ReadEnd(s2, s3, 0)
    ensures Next(h, s0, s1) && Next(h, s1, s2) && Next(h, s2, s3)
  {
    hide Claim, Empty, ReadEnd;
  }

  lemma NextLast(h: Hash, s3: Cache, s4: Cache, s5: Cache, s6: Cache)
    requires StartGrace(s3, s4, 0, DEADLINE) && PutLast(s4, s5, 0) && Prune(h, s5, s6, 0)
    ensures Next(h, s3, s4) && Next(h, s4, s5) && Next(h, s5, s6)
  {
    hide StartGrace, PutLast, Prune;
  }
}
