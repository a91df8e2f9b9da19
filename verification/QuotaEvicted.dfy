/** A deadline that is lost although the usage never falls below the soft limit (fs/dquot.c). A user has as many
    blocks as the soft limit, the group as many as its hard limit. dquot_alloc_block starts the user's grace time and
    is then refused for the group. The user's dquot is not marked, so its record is not written before it goes out of
    memory. */
module QuotaEvicted {
  import opened Lists
  import opened QuotaGrace
  import opened QuotaUsage

  const USER := Quota(0, 0, 1, 0, 0, 0, 0, 1, 1, false, false)
  const GROUP := Quota(1, 1, 0, 0, 0, 0, 0, 1, 1, false, false)
  const TERMS := Terms(1, [false, false], [8, 8], [8, 8])

  /** One inode of one block, with these slots, and the user's grace time. */
  function Made(user: Option<nat>, group: Option<nat>, btime: int): State {
    State([USER.(btime := btime), GROUP], [USER, GROUP], [2], [true], [[user, group]])
  }

  lemma MadeShaped(user: bool, group: bool, btime: int) returns (s: State)
    ensures s == Made(if user then Some(0) else None, if group then Some(1) else None, btime) && Shaped(s)
    ensures SlotsOk(s.q, s.slot[0]) && s.slot[0][0] == (if user then Some(0) else None)
    ensures s.slot[0][1] == (if group then Some(1) else None)
    ensures forall c, x ::
            OwedBlocks(s, c, x) == (if (user && c == 0 && x == 0) || (group && c == 1 && x == 1) then 1 else 0)
    ensures forall c, x ::
            OwedInodes(s, c, x) == (if (user && c == 0 && x == 0) || (group && c == 1 && x == 1) then 1 else 0)
  {
    s := Made(if user then Some(0) else None, if group then Some(1) else None, btime);
    assert s.slot[0][0] == (if user then Some(0) else None) && s.slot[0][1] == (if group then Some(1) else None);
    assert SlotsOk(s.q, s.slot[0]);
    forall c, x
        ensures OwedBlocks(s, c, x) == Share(s.slot[0], 1, c, x) && OwedInodes(s, c, x) == Share(s.slot[0], 1, c, x) {
      assert Owed(s.slot, BlockLoad(s.iblocks), c, x, 0) == 0 && Owed(s.slot, InodeLoad(s.counted), c, x, 0) == 0;
    }
  }

  lemma Attached()
    ensures RunStep(Made(None, None, 0), Made(Some(0), None, 0), TERMS)
    ensures RunStep(Made(Some(0), None, 0), Made(Some(0), Some(1), 0), TERMS)
  {
    var s0 := MadeShaped(false, false, 0);
    var s1 := MadeShaped(true, false, 0);
    var s2 := MadeShaped(true, true, 0);
    hide OwedBlocks, OwedInodes;
    assert s0.slot[0][0 := Some(0)] == s1.slot[0] && s1.slot[0][1 := Some(1)] == s2.slot[0];
    assert s1.slot == s0.slot[0 := s0.slot[0][0 := Some(0)]] && s2.slot == s1.slot[0 := s1.slot[0][1 := Some(1)]];
    assert Attach(s0, s1, 0, 0, 0) && Attach(s1, s2, 0, 1, 1);
  }

  lemma IsRefused()
    ensures RunStep(Made(Some(0), Some(1), 0), Made(Some(0), Some(1), 9), TERMS)
  {
    var s := MadeShaped(true, true, 0);
    var s' := MadeShaped(true, true, 9);
    hide OwedBlocks, OwedInodes;
    var d := Blocks(1, false);
    assert Check(USER, d, TERMS) == (true, USER.(btime := 9)) && !Check(GROUP, d, TERMS).0 &&
        Check(GROUP, d, TERMS).1 == GROUP;
    assert s.q[0] == USER && s.q[1] == GROUP;
    assert Stop(s.q, s.slot[0], d, TERMS, 0) == 1;
    assert Tried(s.q, s.slot[0], d, TERMS) == s'.q;
    assert Refused(s, s', s.slot[0], d, TERMS);
  }

  lemma IsLost()
    ensures RunStep(Made(Some(0), Some(1), 9), Made(None, None, 9), TERMS)
    ensures RunStep(Made(None, None, 9), Made(None, None, 0), TERMS)
    ensures Loses(Made(None, None, 9), Made(None, None, 0), 0, OfBlocks)
  {
    var s := MadeShaped(true, true, 9);
    var s1 := MadeShaped(false, false, 9);
    var s2 := MadeShaped(false, false, 0);
    hide OwedBlocks, OwedInodes;
    assert Detach(s, s1, 0);
    assert s1.q[0 := AsRead(s1.disk[0])] == s2.q;
    assert Reread(s1, s2, 0);
  }

  /** A run with a clock in which x is never below its soft limit. */
  ghost predicate Steady(states: seq<State>, terms: seq<Terms>, x: nat) {
    TickingRun(states, terms) && NeverBelow(states, 0, |states| - 1, x, OfBlocks)
  }

  lemma SteadyMore(states: seq<State>, terms: seq<Terms>, x: nat, s': State)
    requires states != [] && Steady(states, terms, x) && RunStep(states[|states| - 1], s', TERMS) && Ticking(TERMS)
    requires x < |s'.q| && s'.q[x].blocks >= s'.q[x].bsoft
    ensures Steady(states + [s'], terms + [TERMS], x)
  {
    hide RunStep, IsFresh, Ticking, Graced;
    var more, times := states + [s'], terms + [TERMS];
    forall i | 0 <= i < |times| ensures RunStep(more[i], more[i + 1], times[i]) {
      if i < |terms| {
        assert RunStep(states[i], states[i + 1], terms[i]);
      }
    }
    assert more[0] == states[0];
    forall m | 0 <= m < |more| ensures x < |more[m].q| && more[m].q[x].blocks >= more[m].q[x].bsoft {
      if m < |states| {
        assert states[m] == more[m];
      }
    }
    assert Run(more, times);
  }

  /** A run whose last step loses the deadline of x, which was never below its soft limit. */
  ghost predicate LosesDeadline(states: seq<State>, terms: seq<Terms>, x: nat) {
    && Steady(states, terms, x) && |states| > 1
    && Loses(states[|states| - 2], states[|states| - 1], x, OfBlocks) && states[|states| - 2].q[x].btime != 0
  }

  lemma LostDeadlineExample()
    ensures exists states, terms, x :: LosesDeadline(states, terms, x)
  {
    Attached();
    IsRefused();
    IsLost();
    StartsFresh();
    hide RunStep, Loses, Ticking, Steady;
    var s0, s4 := Made(None, None, 0), Made(None, None, 9);
    var states, terms := [s0], [];
    SteadyMore(states, terms, 0, Made(Some(0), None, 0));
    states, terms := states + [Made(Some(0), None, 0)], terms + [TERMS];
    SteadyMore(states, terms, 0, Made(Some(0), Some(1), 0));
    states, terms := states + [Made(Some(0), Some(1), 0)], terms + [TERMS];
    SteadyMore(states, terms, 0, Made(Some(0), Some(1), 9));
    states, terms := states + [Made(Some(0), Some(1), 9)], terms + [TERMS];
    SteadyMore(states, terms, 0, s4);
    states, terms := states + [s4], terms + [TERMS];
    SteadyMore(states, terms, 0, s0);
    states, terms := states + [s0], terms + [TERMS];
    assert states[|states| - 2] == s4 && states[|states| - 1] == s0;
    assert LosesDeadline(states, terms, 0);
  }

  lemma StartsFresh()
    ensures Ticking(TERMS) && Steady([Made(None, None, 0)], [], 0)
  {
    var s := Made(None, None, 0);
    assert s.slot == Fresh(s.q, s.iblocks, s.counted).slot;
    assert IsFresh(s);
    assert Run([s], []);
  }
}
