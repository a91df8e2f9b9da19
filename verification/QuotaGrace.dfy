/** The grace times of disk quota (fs/dquot.c), for blocks and for inodes: who is over a soft limit has a deadline, when
    it is kept, and what may be charged until then. */
module QuotaGrace {
  import opened Lists
  import opened QuotaUsage

  predicate Over(q: Quota, r: Resource) {
    !q.fake && Soft(q, r) != 0 && Usage(q, r) > Soft(q, r)
  }

  /** Whoever is over the soft limit has a deadline. */
  predicate Graced(q: Quota, r: Resource) {
    Over(q, r) ==> Deadline(q, r) != 0
  }

  /** In memory and in the file. */
  predicate GracedAt(s: State, x: nat, r: Resource) {
    x < |s.q| == |s.disk| && Graced(s.q[x], r) && Graced(s.disk[x], r)
  }

  /** How long a grace time is. */
  function Grace(terms: Terms, kind: nat, r: Resource): int
    requires TermsOk(terms) && kind < MAXQUOTAS
  {
    if r.OfBlocks? then terms.bexpire[kind] else terms.iexpire[kind]
  }

  /** The clock plus a grace time is never zero, which would mean that no grace time runs. */
  predicate Ticking(terms: Terms) {
    && TermsOk(terms)
    && forall c {:trigger terms.bexpire[c]} {:trigger terms.iexpire[c]} :: 0 <= c < MAXQUOTAS ==>
         terms.now + terms.bexpire[c] != 0 && terms.now + terms.iexpire[c] != 0
  }

  // ---------------------------------------------------------------- one dquot

  predicate SameLimit(q: Quota, q': Quota, r: Resource) {
    Soft(q', r) == Soft(q, r) && q'.fake == q.fake && q'.kind == q.kind
  }

  /** From q to q' the limit stays, a deadline is kept while the usage does not fall below it, and there is one if need
      be. */
  predicate Fair(q: Quota, q': Quota, r: Resource) {
    && SameLimit(q, q', r)
    && (Deadline(q, r) != 0 && Usage(q', r) >= Soft(q, r) ==> Deadline(q', r) == Deadline(q, r))
    && (Graced(q, r) ==> Graced(q', r))
  }

  /** A deadline that begins is a grace time from now. */
  predicate StartsRight(q: Quota, q': Quota, r: Resource, terms: Terms)
    requires TermsOk(terms) && q.kind < MAXQUOTAS
  {
    Deadline(q, r) == 0 && Deadline(q', r) != 0 ==> Deadline(q', r) == terms.now + Grace(terms, q.kind, r)
  }

  lemma CheckStartsRight(q: Quota, d: Demand, terms: Terms, r: Resource)
    requires TermsOk(terms) && q.kind < MAXQUOTAS
    ensures StartsRight(q, Check(q, d, terms).1, r, terms)
  {
  }

  lemma AddFair(q: Quota, d: Demand, terms: Terms, r: Resource)
    requires Ticking(terms) && q.kind < MAXQUOTAS && Check(q, d, terms).0
    ensures Fair(q, Add(Check(q, d, terms).1, d), r) && StartsRight(q, Add(Check(q, d, terms).1, d), r, terms)
    ensures Deadline(Add(Check(q, d, terms).1, d), r) == Deadline(Check(q, d, terms).1, r)
  {
    assert terms.now + terms.bexpire[q.kind] != 0 && terms.now + terms.iexpire[q.kind] != 0;
  }

  /** A release ends the grace time exactly when the usage falls below the soft limit. */
  lemma TakeFair(q: Quota, d: Demand, r: Resource)
    ensures Fair(q, Take(q, d), r)
    ensures Deadline(Take(q, d), r) == Deadline(q, r) || Deadline(Take(q, d), r) == 0
    ensures Amount(d, r) > 0 ==>
            Deadline(Take(q, d), r) == if Usage(Take(q, d), r) < Soft(q, r) then 0 else Deadline(q, r)
  {
  }

  // ---------------------------------------------------------------- one step

  /** What a step that only charges, releases or checks does to x. */
  predicate Charged(s: State, s': State, x: nat, r: Resource, terms: Terms)
    requires TermsOk(terms) && x < |s.q| && s.q[x].kind < MAXQUOTAS
  {
    && x < |s'.q| && Fair(s.q[x], s'.q[x], r) && StartsRight(s.q[x], s'.q[x], r, terms) && s'.disk == s.disk
    && (s'.q[x] == s.q[x] || s'.q[x].mod || Started(s.q[x], s'.q[x]))
  }

  lemma AllocFair(s: State, s': State, i: nat, d: Demand, terms: Terms, x: nat, r: Resource)
    requires Shaped(s) && Ticking(terms) && AllocStep(s, s', i, d, terms) && x < |s.q|
    ensures Charged(s, s', x, r, terms)
  {
    AllocatedAt(s, i, d, terms, x);
    if In(s.slot[i], s.q[x], x) {
      assert s.slot[i][s.q[x].kind].Some?;
      AddFair(s.q[x], d, terms, r);
    }
  }

  lemma FreeFair(s: State, s': State, i: nat, d: Demand, terms: Terms, x: nat, r: Resource)
    requires TermsOk(terms) && FreeStep(s, s', i, d) && x < |s.q| && s.q[x].kind < MAXQUOTAS
    ensures Charged(s, s', x, r, terms)
  {
    TakeFair(s.q[x], d, r);
  }

  lemma TransferFair(s: State, s': State, i: nat, to: seq<Option<nat>>, terms: Terms, x: nat, r: Resource)
    requires Shaped(s) && Ticking(terms) && TransferStep(s, s', i, to, terms) && x < |s.q|
    ensures Charged(s, s', x, r, terms)
  {
    TransferredAt(s, i, to, terms, x);
    var c, n := s.q[x].kind, s.iblocks[i] / 2;
    assert s.slot[i][c].Some? && to[c].Some? ==> s.slot[i][c] != to[c];
    if s.slot[i][c].Some? && to[c] == Some(x) {
      assert Targets(s.slot[i], to)[c] == Some(x);
      AddFair(s.q[x], Both(n), terms, r);
    } else {
      TakeFair(s.q[x], Both(n), r);
    }
  }

  lemma RefusedFair(s: State, s': State, who: seq<Option<nat>>, d: Demand, terms: Terms, x: nat, r: Resource)
    requires Shaped(s) && Ticking(terms) && x < |s.q| && Refused(s, s', who, d, terms)
    ensures Charged(s, s', x, r, terms)
  {
    CheckStartsRight(s.q[x], d, terms, r);
    hide Check, Passes;
  }

  /** The step takes an unmarked dquot out of memory whose deadline is not the one in the file. */
  ghost predicate Loses(s: State, s': State, x: nat, r: Resource) {
    Reread(s, s', x) && Deadline(s.disk[x], r) != Deadline(s.q[x], r)
  }

  /** Whose deadline no step can lose. */
  predicate Kept(q: Quota, disk: Quota, r: Resource) {
    q.mod || Deadline(disk, r) == Deadline(q, r)
  }

  /** A step keeps a deadline, unless the usage falls below the limit, exactly when it does not lose it. */
  predicate StepFair(s: State, s': State, x: nat, r: Resource)
    requires x < |s.q| == |s.disk|
  {
    && x < |s'.q| == |s'.disk| && SameLimit(s.q[x], s'.q[x], r) && GracedAt(s', x, r)
    && (Deadline(s.q[x], r) != 0 && Usage(s'.q[x], r) >= Soft(s.q[x], r) && Kept(s.q[x], s.disk[x], r) ==>
          Deadline(s'.q[x], r) == Deadline(s.q[x], r) && Kept(s'.q[x], s'.disk[x], r))
  }

  /** The deadline that runs stays exactly when it is not lost, and one that begins is right or comes from the file. */
  ghost predicate StepKeeps(s: State, s': State, x: nat, r: Resource, terms: Terms)
    requires TermsOk(terms) && x < |s.q| && x < |s'.q| && s.q[x].kind < MAXQUOTAS
  {
    && (Deadline(s.q[x], r) != 0 && Usage(s'.q[x], r) >= Soft(s.q[x], r) ==>
          (Deadline(s'.q[x], r) == Deadline(s.q[x], r) <==> !Loses(s, s', x, r)))
    && (StartsRight(s.q[x], s'.q[x], r, terms) || Reread(s, s', x))
  }

  lemma ChangeFair(s: State, s': State, x: nat, r: Resource, terms: Terms)
    requires GracedAt(s, x, r) && |s'.q| == |s.q| && TermsOk(terms) && s.q[x].kind < MAXQUOTAS
    requires Charged(s, s', x, r, terms)
    ensures StepFair(s, s', x, r) && StepKeeps(s, s', x, r, terms)
  {
  }

  lemma RereadFair(s: State, s': State, x: nat, y: nat, r: Resource, terms: Terms)
    requires Inv(s) && GracedAt(s, x, r) && (WriteBack(s, s', y) || Reread(s, s', y)) && TermsOk(terms)
    ensures StepFair(s, s', x, r) && StepKeeps(s, s', x, r, terms)
  {
    assert SavedAt(s.q[x], s.disk[x]);
  }

  lemma SameFair(s: State, s': State, x: nat, r: Resource, terms: Terms)
    requires GracedAt(s, x, r) && s'.q == s.q && s'.disk == s.disk && TermsOk(terms) && s.q[x].kind < MAXQUOTAS
    ensures StepFair(s, s', x, r) && StepKeeps(s, s', x, r, terms)
  {
  }

  lemma NextFair(s: State, s': State, terms: Terms, x: nat, r: Resource)
    requires Inv(s) && Ticking(terms) && Next(s, s', terms) && GracedAt(s, x, r)
    ensures s.q[x].kind < MAXQUOTAS && StepFair(s, s', x, r) && StepKeeps(s, s', x, r, terms)
  {
    NextSize(s, s', terms);
    KindOk(s, x);
    hide AllocStep, FreeStep, TransferStep, Refused, WriteBack, Reread, Inv, Shaped, StepFair, StepKeeps, Charged,
      Graced;
    if i: nat, d :| AllocStep(s, s', i, d, terms) {
      AllocFair(s, s', i, d, terms, x, r);
      ChangeFair(s, s', x, r, terms);
    } else if i: nat, d :| FreeStep(s, s', i, d) {
      FreeFair(s, s', i, d, terms, x, r);
      ChangeFair(s, s', x, r, terms);
    } else if i: nat, to :| TransferStep(s, s', i, to, terms) {
      TransferFair(s, s', i, to, terms, x, r);
      ChangeFair(s, s', x, r, terms);
    } else if i: nat, c: nat, y: nat :| Attach(s, s', i, c, y) {
      SameFair(s, s', x, r, terms);
    } else if i: nat :| Detach(s, s', i) {
      SameFair(s, s', x, r, terms);
    } else if y: nat :| WriteBack(s, s', y) || Reread(s, s', y) {
      RereadFair(s, s', x, y, r, terms);
    } else {
      var who, d :| Refused(s, s', who, d, terms);
      RefusedFair(s, s', who, d, terms, x, r);
      ChangeFair(s, s', x, r, terms);
    }
  }

  lemma KindOk(s: State, x: nat)
    requires Shaped(s) && x < |s.q|
    ensures s.q[x].kind < MAXQUOTAS
  {
  }

  lemma NextSize(s: State, s': State, terms: Terms)
    requires Inv(s) && TermsOk(terms) && Next(s, s', terms)
    ensures |s'.q| == |s.q| == |s'.disk| && Shaped(s)
  {
    hide Covered, Saved, SlotsOk, MayAlloc, MayFree, MayTransfer, Passes, Tried, Each, MovedAll, OwedBlocks, OwedInodes;
  }

  // ---------------------------------------------------------------- past the deadline

  /** x is not below its soft limit, and its deadline has passed for this caller. */
  predicate Expired(q: Quota, r: Resource, terms: Terms)
    requires TermsOk(terms) && q.kind < MAXQUOTAS
  {
    && !q.fake && Soft(q, r) != 0 && Usage(q, r) >= Soft(q, r) && Deadline(q, r) != 0
    && terms.now >= Deadline(q, r) && !terms.exempt[q.kind]
  }

  /** Past the deadline nothing is charged any more. */
  lemma NextStops(s: State, s': State, terms: Terms, x: nat, r: Resource)
    requires Inv(s) && TermsOk(terms) && Next(s, s', terms) && x < |s.q| && s.q[x].kind < MAXQUOTAS
    requires Expired(s.q[x], r, terms)
    ensures x < |s'.q| && Usage(s'.q[x], r) <= Usage(s.q[x], r)
  {
    NextSize(s, s', terms);
    hide AllocStep, FreeStep, TransferStep, Refused, Inv, Shaped, Expired;
    if i: nat, d :| AllocStep(s, s', i, d, terms) {
      AllocStops(s, s', i, d, terms, x, r);
    } else if i: nat, d :| FreeStep(s, s', i, d) {
      FreeStops(s, s', i, d, x, r);
    } else if i: nat, to :| TransferStep(s, s', i, to, terms) {
      TransferStops(s, s', i, to, terms, x, r);
    } else if who, d :| Refused(s, s', who, d, terms) {
      RefusedStops(s, s', who, d, terms, x, r);
    } else {
      OthersStop(s, s', x, r);
    }
  }

  /** A dquot that is past its deadline passes no check for more. */
  lemma PastDeadline(q: Quota, d: Demand, terms: Terms, r: Resource)
    requires TermsOk(terms) && q.kind < MAXQUOTAS && Expired(q, r, terms)
    ensures Check(q, d, terms).0 ==> Usage(Add(Check(q, d, terms).1, d), r) == Usage(q, r)
  {
  }

  lemma AllocStops(s: State, s': State, i: nat, d: Demand, terms: Terms, x: nat, r: Resource)
    requires Shaped(s) && TermsOk(terms) && AllocStep(s, s', i, d, terms) && x < |s.q| && Expired(s.q[x], r, terms)
    ensures x < |s'.q| && Usage(s'.q[x], r) <= Usage(s.q[x], r)
  {
    AllocatedAt(s, i, d, terms, x);
    if In(s.slot[i], s.q[x], x) {
      assert s.slot[i][s.q[x].kind].Some?;
      PastDeadline(s.q[x], d, terms, r);
    }
  }

  lemma FreeStops(s: State, s': State, i: nat, d: Demand, x: nat, r: Resource)
    requires FreeStep(s, s', i, d) && x < |s.q|
    ensures x < |s'.q| && Usage(s'.q[x], r) <= Usage(s.q[x], r)
  {
  }

  lemma TransferStops(s: State, s': State, i: nat, to: seq<Option<nat>>, terms: Terms, x: nat, r: Resource)
    requires Shaped(s) && TermsOk(terms) && TransferStep(s, s', i, to, terms) && x < |s.q| && Expired(s.q[x], r, terms)
    ensures x < |s'.q| && Usage(s'.q[x], r) <= Usage(s.q[x], r)
  {
    TransferredAt(s, i, to, terms, x);
    var c, n := s.q[x].kind, s.iblocks[i] / 2;
    assert s.slot[i][c].Some? && to[c].Some? ==> s.slot[i][c] != to[c];
    if s.slot[i][c].Some? && to[c] == Some(x) {
      assert Targets(s.slot[i], to)[c] == Some(x);
      PastDeadline(s.q[x], Both(n), terms, r);
    }
  }

  lemma RefusedStops(s: State, s': State, who: seq<Option<nat>>, d: Demand, terms: Terms, x: nat, r: Resource)
    requires Shaped(s) && TermsOk(terms) && Refused(s, s', who, d, terms) && x < |s.q|
    ensures x < |s'.q| && Usage(s'.q[x], r) == Usage(s.q[x], r)
  {
  }

  lemma OthersStop(s: State, s': State, x: nat, r: Resource)
    requires Inv(s) && x < |s.q| == |s'.q|
    requires s'.q == s.q || (exists y :: WriteBack(s, s', y) || Reread(s, s', y))
    ensures Usage(s'.q[x], r) == Usage(s.q[x], r)
  {
    assert SavedAt(s.q[x], s.disk[x]);
  }

  // ---------------------------------------------------------------- runs

  ghost predicate TickingRun(states: seq<State>, terms: seq<Terms>) {
    && Run(states, terms)
    && (forall x, r {:trigger Graced(states[0].q[x], r)} :: 0 <= x < |states[0].q| ==> Graced(states[0].q[x], r))
    && forall i {:trigger terms[i]} :: 0 <= i < |terms| ==> Ticking(terms[i])
  }

  lemma RunFairStep(states: seq<State>, terms: seq<Terms>, k: nat, x: nat, r: Resource)
    requires TickingRun(states, terms) && 0 < k < |states| && GracedAt(states[k - 1], x, r)
    ensures StepFair(states[k - 1], states[k], x, r) && TermsOk(terms[k - 1]) && x < |states[k].q|
    ensures states[k - 1].q[x].kind < MAXQUOTAS && StepKeeps(states[k - 1], states[k], x, r, terms[k - 1])
  {
    hide Inv, Next, GracedAt, Ticking, StepKeeps;
    RunCovered(states, terms, k - 1);
    assert RunStep(states[k - 1], states[k - 1 + 1], terms[k - 1]) && Ticking(terms[k - 1]);
    NextFair(states[k - 1], states[k], terms[k - 1], x, r);
  }

  /** In every run whoever is over a soft limit has a deadline, in memory and in the file. */
  lemma {:induction false} RunFair(states: seq<State>, terms: seq<Terms>, k: nat, x: nat, r: Resource)
    requires TickingRun(states, terms) && k < |states| && x < |states[0].q|
    ensures GracedAt(states[k], x, r)
  {
    hide Next, StepKeeps, Ticking;
    if k > 0 {
      RunFair(states, terms, k - 1, x, r);
      RunFairStep(states, terms, k, x, r);
    } else {
      assert Graced(states[0].q[x], r);
    }
  }

  /** In every run a deadline that begins in a step is that step's time plus the grace time, unless the dquot is read
      from the file. */
  lemma RunStarts(states: seq<State>, terms: seq<Terms>, k: nat, x: nat, r: Resource)
    requires TickingRun(states, terms) && k < |terms| && x < |states[0].q|
    ensures TermsOk(terms[k]) && x < |states[k].q| && x < |states[k + 1].q| && states[k].q[x].kind < MAXQUOTAS
    ensures Reread(states[k], states[k + 1], x) || StartsRight(states[k].q[x], states[k + 1].q[x], r, terms[k])
  {
    hide RunStep, IsFresh, Reread, StartsRight;
    RunFair(states, terms, k, x, r);
    RunFairStep(states, terms, k + 1, x, r);
  }

  /** x is not below its soft limit in any state from j to k. */
  predicate NeverBelow(states: seq<State>, j: nat, k: nat, x: nat, r: Resource) {
    forall m {:trigger states[m]} :: j <= m <= k < |states| ==>
      x < |states[m].q| && Usage(states[m].q[x], r) >= Soft(states[m].q[x], r)
  }

  /** x has the deadline of state j in all states up to k. */
  predicate SameDeadline(states: seq<State>, j: nat, k: nat, x: nat, r: Resource)
    requires j <= k < |states| && x < |states[j].q|
  {
    forall m {:trigger states[m]} :: j <= m <= k ==>
      x < |states[m].q| && Deadline(states[m].q[x], r) == Deadline(states[j].q[x], r)
  }

  /** No step from j to k loses the deadline of x. */
  ghost predicate NothingLost(states: seq<State>, j: nat, k: nat, x: nat, r: Resource)
    requires j <= k < |states|
  {
    forall m :: j <= m < k ==> !Loses(states[m], states[m + 1], x, r)
  }

  /** In every run a deadline stays as it is, as long as the usage does not fall below the soft limit, exactly when it
      is not lost with an unmarked dquot. */
  lemma {:induction false} RunDeadline(states: seq<State>, terms: seq<Terms>, j: nat, k: nat, x: nat, r: Resource)
    requires TickingRun(states, terms) && j <= k < |states| && x < |states[0].q| && NeverBelow(states, j, k, x, r)
    requires x < |states[j].q| && Deadline(states[j].q[x], r) != 0
    ensures SameDeadline(states, j, k, x, r) <==> NothingLost(states, j, k, x, r)
  {
    hide RunStep, IsFresh, Loses, Usage, Soft, Deadline, Graced, Kept, StepFair;
    if j < k {
      RunDeadline(states, terms, j, k - 1, x, r);
      RunFair(states, terms, k - 1, x, r);
      RunFairStep(states, terms, k, x, r);
      DeadlineStep(states, j, k, x, r, terms[k - 1]);
    }
  }

  lemma DeadlineStep(states: seq<State>, j: nat, k: nat, x: nat, r: Resource, terms: Terms)
    requires j < k < |states| && x < |states[j].q| && Deadline(states[j].q[x], r) != 0
    requires NeverBelow(states, j, k, x, r) && TermsOk(terms)
    requires SameDeadline(states, j, k - 1, x, r) <==> NothingLost(states, j, k - 1, x, r)
    requires x < |states[k - 1].q| == |states[k - 1].disk| && StepFair(states[k - 1], states[k], x, r)
    requires states[k - 1].q[x].kind < MAXQUOTAS && StepKeeps(states[k - 1], states[k], x, r, terms)
    ensures SameDeadline(states, j, k, x, r) <==> NothingLost(states, j, k, x, r)
  {
    hide Loses, GracedAt, Kept, Usage, Soft, Deadline, StartsRight;
    assert Usage(states[k].q[x], r) >= Soft(states[k].q[x], r);
    if SameDeadline(states, j, k, x, r) {
      assert SameDeadline(states, j, k - 1, x, r);
      assert Deadline(states[k - 1].q[x], r) == Deadline(states[j].q[x], r) == Deadline(states[k].q[x], r);
    }
    if NothingLost(states, j, k, x, r) {
      assert !Loses(states[k - 1], states[k - 1 + 1], x, r);
      assert SameDeadline(states, j, k - 1, x, r);
      assert Deadline(states[k - 1].q[x], r) == Deadline(states[j].q[x], r);
    }
  }

  /** A deadline that is marked or in the file cannot be lost. */
  lemma {:induction false} RunKept(states: seq<State>, terms: seq<Terms>, j: nat, k: nat, x: nat, r: Resource)
    requires TickingRun(states, terms) && j <= k < |states| && x < |states[0].q| && NeverBelow(states, j, k, x, r)
    requires x < |states[j].q| == |states[j].disk| && Deadline(states[j].q[x], r) != 0
    requires Kept(states[j].q[x], states[j].disk[x], r)
    ensures x < |states[k].q| == |states[k].disk| && Deadline(states[k].q[x], r) == Deadline(states[j].q[x], r)
    ensures Kept(states[k].q[x], states[k].disk[x], r) && SameLimit(states[j].q[x], states[k].q[x], r)
  {
    hide Run, Loses, Usage, Soft, Deadline, GracedAt, Kept, StepKeeps;
    if j < k {
      RunKept(states, terms, j, k - 1, x, r);
      RunFair(states, terms, k - 1, x, r);
      RunFairStep(states, terms, k, x, r);
      assert Usage(states[k].q[x], r) >= Soft(states[k].q[x], r);
    }
  }

  /** The deadline of whoever is over the soft limit is marked or in the file. */
  lemma OverKept(s: State, x: nat, r: Resource)
    requires Inv(s) && GracedAt(s, x, r) && Over(s.q[x], r)
    ensures Deadline(s.q[x], r) != 0 && Kept(s.q[x], s.disk[x], r)
  {
    assert SavedAt(s.q[x], s.disk[x]);
  }

  /** Who is over the soft limit at some time of a run, and does not get below it, has the deadline of that time. */
  lemma RunOver(states: seq<State>, terms: seq<Terms>, j: nat, k: nat, x: nat, r: Resource)
    requires TickingRun(states, terms) && j <= k < |states| && x < |states[0].q| && NeverBelow(states, j, k, x, r)
    requires x < |states[j].q| && Over(states[j].q[x], r)
    ensures x < |states[k].q| && Deadline(states[k].q[x], r) == Deadline(states[j].q[x], r) != 0
    ensures SameLimit(states[j].q[x], states[k].q[x], r) && Usage(states[k].q[x], r) >= Soft(states[k].q[x], r)
    ensures Inv(states[k]) && states[k].q[x].kind < MAXQUOTAS
  {
    hide Inv, Next, Graced, Deadline;
    RunFair(states, terms, j, x, r);
    RunCovered(states, terms, j);
    RunCovered(states, terms, k);
    OverKept(states[j], x, r);
    RunKept(states, terms, j, k, x, r);
    KindNow(states[k], x);
    assert Usage(states[k].q[x], r) >= Soft(states[k].q[x], r);
  }

  lemma KindNow(s: State, x: nat)
    requires Inv(s) && x < |s.q|
    ensures s.q[x].kind < MAXQUOTAS
  {
  }

  /** In every run: who is over the soft limit at some time, and does not get below it, has a deadline; past it, no step
      of a caller who is not exempt charges any more, for an allocation or in a transfer. */
  lemma RunGraceEnds(states: seq<State>, terms: seq<Terms>, j: nat, k: nat, x: nat, r: Resource)
    requires TickingRun(states, terms) && j <= k < |terms| && x < |states[0].q| && NeverBelow(states, j, k, x, r)
    requires x < |states[j].q| && Over(states[j].q[x], r)
    requires states[j].q[x].kind < |terms[k].exempt| && !terms[k].exempt[states[j].q[x].kind]
    ensures Deadline(states[j].q[x], r) != 0
    ensures terms[k].now >= Deadline(states[j].q[x], r) ==>
              && x < |states[k].q| && x < |states[k + 1].q|
              && Usage(states[k + 1].q[x], r) <= Usage(states[k].q[x], r)
  {
    RunOver(states, terms, j, k, x, r);
    assert RunStep(states[k], states[k + 1], terms[k]);
    hide Inv, Next, Run, Deadline, Usage, Soft;
    if terms[k].now >= Deadline(states[j].q[x], r) {
      NextStops(states[k], states[k + 1], terms[k], x, r);
    }
  }

  /** In every run: who is over the soft limit at some time, and does not get below it, is granted what a caller who is
      not exempt asks for exactly as long as the deadline of that time has not come and the hard limit is kept. */
  lemma RunGraceLasts(states: seq<State>, terms: seq<Terms>, j: nat, k: nat, x: nat, r: Resource, n: nat,
                      prealloc: bool)
    requires TickingRun(states, terms) && j <= k < |terms| && x < |states[0].q| && NeverBelow(states, j, k, x, r)
    requires x < |states[j].q| && Over(states[j].q[x], r) && n > 0
    requires states[j].q[x].kind < |terms[k].exempt| && !terms[k].exempt[states[j].q[x].kind]
    ensures x < |states[k].q| && TermsOk(terms[k]) && states[k].q[x].kind < MAXQUOTAS
    ensures Grants(states[k].q[x], r, n, prealloc, terms[k]) <==>
            && terms[k].now < Deadline(states[j].q[x], r)
            && (Hard(states[k].q[x], r) == 0 || Usage(states[k].q[x], r) + n <= Hard(states[k].q[x], r))
  {
    RunOver(states, terms, j, k, x, r);
    assert RunStep(states[k], states[k + 1], terms[k]);
    hide Inv, Next, Run, Deadline, Usage, Soft;
  }

  /** In every run an allocation, or a transfer, goes through exactly when every dquot that is to be charged grants
      it. */
  lemma RunGranted(states: seq<State>, terms: seq<Terms>, k: nat, i: nat, d: Demand, to: seq<Option<nat>>)
    requires Run(states, terms) && k < |terms| && i < |states[k].slot| && |to| == MAXQUOTAS
    ensures TermsOk(terms[k]) && |states[k].slot[i]| == MAXQUOTAS && |states[k].iblocks| == |states[k].slot|
    ensures |states[k].counted| == |states[k].slot|
    ensures d.Blocks? || (d.Inode? && !states[k].counted[i]) ==>
            (MayAlloc(states[k], i, d, terms[k]) <==> GrantedBy(states[k].q, states[k].slot[i], d, terms[k]))
    ensures SlotsOk(states[k].q, to) ==>
            (MayTransfer(states[k], i, to, terms[k]) <==>
             GrantedBy(states[k].q, Targets(states[k].slot[i], to), Both(states[k].iblocks[i] / 2), terms[k]))
  {
    RunCovered(states, terms, k);
    assert RunStep(states[k], states[k + 1], terms[k]);
    var s := states[k];
    hide Next, Run, GrantedBy, Covered, Saved;
    PassesGranted(s.q, s.slot[i], d, terms[k]);
    if SlotsOk(s.q, to) {
      PassesGranted(s.q, Targets(s.slot[i], to), Both(s.iblocks[i] / 2), terms[k]);
    }
  }

  /** In every run: a request for blocks that keeps every dquot of the inode within its hard limit is granted, if each
      of them stays within its soft limit, or is before its deadline, or has none yet and nothing is preallocated. */
  lemma RunMustGrant(states: seq<State>, terms: seq<Terms>, k: nat, i: nat, n: nat, prealloc: bool)
    requires Run(states, terms) && k < |terms| && i < |states[k].slot|
    requires forall x :: 0 <= x < |states[k].q| && Some(x) in states[k].slot[i] ==>
               var q := states[k].q[x];
               && (q.bhard == 0 || q.blocks + n <= q.bhard)
               && (q.bsoft == 0 || q.blocks + n <= q.bsoft ||
                   (if q.btime == 0 then !prealloc else terms[k].now < q.btime))
    ensures TermsOk(terms[k]) && MayAlloc(states[k], i, Blocks(n, prealloc), terms[k])
  {
    RunGranted(states, terms, k, i, Blocks(n, prealloc), [None, None]);
    KindsNow(states, terms, k);
    hide Run, MayAlloc, MayTransfer;
  }

  /** n blocks more exceed the soft limit, and no grace time runs. */
  predicate Ungraced(q: Quota, n: nat) {
    !q.fake && q.bsoft != 0 && q.blocks + n > q.bsoft && q.btime == 0
  }

  /** In every run an exempt caller is refused blocks only for a preallocation that exceeds a soft limit while no grace
      time runs, and then always. */
  lemma RunExempt(states: seq<State>, terms: seq<Terms>, k: nat, i: nat, n: nat, prealloc: bool)
    requires Run(states, terms) && k < |terms| && i < |states[k].slot| && terms[k].exempt == [true, true]
    ensures TermsOk(terms[k])
    ensures !MayAlloc(states[k], i, Blocks(n, prealloc), terms[k]) <==>
            && prealloc && n > 0
            && exists x :: 0 <= x < |states[k].q| && Some(x) in states[k].slot[i] && Ungraced(states[k].q[x], n)
  {
    RunGranted(states, terms, k, i, Blocks(n, prealloc), [None, None]);
    KindsNow(states, terms, k);
    hide Run, MayAlloc, MayTransfer;
  }

  lemma KindsNow(states: seq<State>, terms: seq<Terms>, k: nat)
    requires Run(states, terms) && k < |states|
    ensures forall x {:trigger states[k].q[x]} :: 0 <= x < |states[k].q| ==> states[k].q[x].kind < MAXQUOTAS
  {
    RunCovered(states, terms, k);
  }
}
