/** Disk quota (fs/dquot.c): what allocation, release and transfer do to the usage of users and groups, in memory and in
    the quota files. */
module QuotaUsage {
  import opened Lists

  const MAXQUOTAS := 2

  /** A dquot: limits, grace times, usage in blocks of 1024 bytes and in inodes; fake and mod are DQ_FAKE and DQ_MOD. */
  datatype Quota = Quota(kind: nat, bhard: nat, bsoft: nat, btime: int, ihard: nat, isoft: nat, itime: int,
                         blocks: nat, inodes: nat, fake: bool, mod: bool)

  /** q are the dquots, one for each user and group, and disk what the quota files say of them; iblocks[i] is i_blocks
      of an inode, in sectors of 512 bytes; counted tells which inodes are allocated; slot[i] is i_dquot. */
  datatype State = State(q: seq<Quota>, disk: seq<Quota>, iblocks: seq<nat>, counted: seq<bool>,
      slot: seq<seq<Option<nat>>>)

  /** What the checks ask of the caller and the superblock, per kind of quota. */
  datatype Terms = Terms(now: int, exempt: seq<bool>, bexpire: seq<int>, iexpire: seq<int>)

  /** What a call wants to charge: blocks, an inode, or, in a transfer, an inode with its blocks. */
  datatype Demand = Blocks(n: nat, prealloc: bool) | Inode | Both(n: nat)

  /** What is limited, and the fields of a dquot for it. */
  datatype Resource = OfBlocks | OfInodes

  function Usage(q: Quota, r: Resource): nat { if r.OfBlocks? then q.blocks else q.inodes }

  function Hard(q: Quota, r: Resource): nat { if r.OfBlocks? then q.bhard else q.ihard }

  function Soft(q: Quota, r: Resource): nat { if r.OfBlocks? then q.bsoft else q.isoft }

  function Deadline(q: Quota, r: Resource): int { if r.OfBlocks? then q.btime else q.itime }

  /** How much of it a call wants. */
  function Amount(d: Demand, r: Resource): nat {
    match d
    case Blocks(n, _) => if r.OfBlocks? then n else 0
    case Inode => if r.OfBlocks? then 0 else 1
    case Both(n) => if r.OfBlocks? then n else 1
  }

  predicate TermsOk(c: Terms) {
    |c.exempt| == |c.bexpire| == |c.iexpire| == MAXQUOTAS
  }

  // ---------------------------------------------------------------- the limits

  /** check_bdq: whether n blocks more may be charged, and the dquot with its grace time started if need be. */
  function BlockCheck(q: Quota, n: nat, prealloc: bool, c: Terms): (r: (bool, Quota))
    requires TermsOk(c) && q.kind < MAXQUOTAS
    ensures Started(q, r.1)
  {
    if n == 0 || q.fake then (true, q)
    else if q.bhard != 0 && q.blocks + n > q.bhard && !c.exempt[q.kind] then (false, q)
    else if q.bsoft != 0 && q.blocks + n > q.bsoft && q.btime != 0 && c.now >= q.btime && !c.exempt[q.kind] then
      (false, q)
    else if q.bsoft != 0 && q.blocks + n > q.bsoft && q.btime == 0 then
      if prealloc then (false, q) else (true, q.(btime := c.now + c.bexpire[q.kind]))
    else (true, q)
  }

  /** check_idq */
  function InodeCheck(q: Quota, n: nat, c: Terms): (r: (bool, Quota))
    requires TermsOk(c) && q.kind < MAXQUOTAS
    ensures Started(q, r.1)
  {
    if n == 0 || q.fake then (true, q)
    else if q.ihard != 0 && q.inodes + n > q.ihard && !c.exempt[q.kind] then (false, q)
    else if q.isoft != 0 && q.inodes + n > q.isoft && q.itime != 0 && c.now >= q.itime && !c.exempt[q.kind] then
      (false, q)
    else if q.isoft != 0 && q.inodes + n > q.isoft && q.itime == 0 then (true, q.(itime := c.now + c.iexpire[q.kind]))
    else (true, q)
  }

  /** The checks of one dquot in a call. */
  function Check(q: Quota, d: Demand, c: Terms): (r: (bool, Quota))
    requires TermsOk(c) && q.kind < MAXQUOTAS
    ensures Started(q, r.1)
  {
    match d
    case Blocks(n, prealloc) => BlockCheck(q, n, prealloc, c)
    case Inode => InodeCheck(q, 1, c)
    case Both(n) =>
      var r := InodeCheck(q, 1, c);
      if r.0 then BlockCheck(r.1, n, false, c) else r
  }

  /** When n more may be charged. An exempt caller is refused only a preallocation above the soft limit while no grace
      time runs; anybody else must stay within the hard limit and, above the soft limit, be before the deadline, or have
      none yet and not preallocate. */
  predicate Grants(q: Quota, r: Resource, n: nat, prealloc: bool, c: Terms)
    requires TermsOk(c) && q.kind < MAXQUOTAS
  {
    var over := Soft(q, r) != 0 && Usage(q, r) + n > Soft(q, r);
    || n == 0 || q.fake
    || (c.exempt[q.kind] && !(over && prealloc && Deadline(q, r) == 0))
    || (!c.exempt[q.kind] && (Hard(q, r) == 0 || Usage(q, r) + n <= Hard(q, r)) &&
        (over ==> if Deadline(q, r) == 0 then !prealloc else c.now < Deadline(q, r)))
  }

  predicate GrantsAll(q: Quota, d: Demand, c: Terms)
    requires TermsOk(c) && q.kind < MAXQUOTAS
  {
    && Grants(q, OfInodes, Amount(d, OfInodes), false, c)
    && Grants(q, OfBlocks, Amount(d, OfBlocks), d.Blocks? && d.prealloc, c)
  }

  lemma CheckGrants(q: Quota, d: Demand, c: Terms)
    requires TermsOk(c) && q.kind < MAXQUOTAS
    ensures Check(q, d, c).0 <==> GrantsAll(q, d, c)
  {
  }

  /** The same but for grace times that were not running. */
  predicate Started(a: Quota, b: Quota) {
    && b == a.(btime := b.btime, itime := b.itime)
    && (a.btime != 0 ==> b.btime == a.btime) && (a.itime != 0 ==> b.itime == a.itime)
  }

  // ---------------------------------------------------------------- what is charged

  /** Each slot is empty or holds a dquot of its kind. */
  predicate SlotsOk(q: seq<Quota>, slots: seq<Option<nat>>) {
    && |slots| == MAXQUOTAS
    && forall c {:trigger slots[c]} :: 0 <= c < MAXQUOTAS && slots[c].Some? ==>
         slots[c].value < |q| && q[slots[c].value].kind == c
  }

  predicate Shaped(s: State) {
    && |s.slot| == |s.iblocks| == |s.counted| && |s.disk| == |s.q|
    && (forall x {:trigger s.q[x]} :: 0 <= x < |s.q| ==> s.q[x].kind < MAXQUOTAS)
    && (forall i {:trigger s.slot[i]} :: 0 <= i < |s.slot| ==> SlotsOk(s.q, s.slot[i]))
  }

  /** x is the dquot of its kind in these slots. */
  predicate In(slots: seq<Option<nat>>, q: Quota, x: nat) {
    q.kind < |slots| && slots[q.kind] == Some(x)
  }

  /** What an inode with these slots and that load has charged to x, a dquot of kind c. */
  function Share(slots: seq<Option<nat>>, load: nat, c: nat, x: nat): nat {
    if c < |slots| && slots[c] == Some(x) then load else 0
  }

  /** What the first k inodes have charged to x. */
  function Owed(slot: seq<seq<Option<nat>>>, load: seq<nat>, c: nat, x: nat, k: nat): nat
    requires k <= |slot| == |load|
  {
    if k == 0 then 0 else Owed(slot, load, c, x, k - 1) + Share(slot[k - 1], load[k - 1], c, x)
  }

  function BlockLoad(iblocks: seq<nat>): (r: seq<nat>)
    ensures |r| == |iblocks| && forall i :: 0 <= i < |r| ==> r[i] == iblocks[i] / 2
  {
    seq(|iblocks|, i requires 0 <= i < |iblocks| => iblocks[i] / 2)
  }

  function InodeLoad(counted: seq<bool>): (r: seq<nat>)
    ensures |r| == |counted| && forall i :: 0 <= i < |r| ==> r[i] == if counted[i] then 1 else 0
  {
    seq(|counted|, i requires 0 <= i < |counted| => if counted[i] then 1 else 0)
  }

  function OwedBlocks(s: State, c: nat, x: nat): nat
    requires Shaped(s)
  {
    Owed(s.slot, BlockLoad(s.iblocks), c, x, |s.slot|)
  }

  function OwedInodes(s: State, c: nat, x: nat): nat
    requires Shaped(s)
  {
    Owed(s.slot, InodeLoad(s.counted), c, x, |s.slot|)
  }

  /** x counts at least what its inodes have. */
  predicate CoveredAt(s: State, x: nat)
    requires Shaped(s) && x < |s.q|
  {
    s.q[x].blocks >= OwedBlocks(s, s.q[x].kind, x) && s.q[x].inodes >= OwedInodes(s, s.q[x].kind, x)
  }

  predicate Covered(s: State)
    requires Shaped(s)
  {
    forall x {:trigger s.q[x]} :: 0 <= x < |s.q| ==> CoveredAt(s, x)
  }

  predicate NoLimits(q: Quota) {
    q.bhard == 0 && q.bsoft == 0 && q.ihard == 0 && q.isoft == 0
  }

  /** The limits stay, and what is not marked is on disk, but for grace times. */
  predicate SavedAt(q: Quota, disk: Quota) {
    && q.fake == disk.fake == NoLimits(q) && !disk.mod && q.kind == disk.kind
    && q.bhard == disk.bhard && q.bsoft == disk.bsoft && q.ihard == disk.ihard && q.isoft == disk.isoft
    && (!q.mod ==> Started(disk, q))
  }

  predicate Saved(s: State) {
    |s.disk| == |s.q| && forall x {:trigger s.q[x]} :: 0 <= x < |s.q| ==> SavedAt(s.q[x], s.disk[x])
  }

  ghost predicate Inv(s: State) {
    Shaped(s) && Covered(s) && Saved(s)
  }

  /** Only inode i differs. */
  predicate OnlyAt(slot: seq<seq<Option<nat>>>, load: seq<nat>, slot': seq<seq<Option<nat>>>, load': seq<nat>, i: nat) {
    && |slot| == |load| == |slot'| == |load'|
    && forall j {:trigger slot'[j]} {:trigger load'[j]} :: 0 <= j < |slot| && j != i ==>
         slot'[j] == slot[j] && load'[j] == load[j]
  }

  /** Changing one inode changes its share only. */
  lemma {:induction false} OwedChange(slot: seq<seq<Option<nat>>>, load: seq<nat>, slot': seq<seq<Option<nat>>>,
                                      load': seq<nat>, i: nat, c: nat, x: nat, k: nat)
    requires OnlyAt(slot, load, slot', load', i) && i < |slot| && k <= |slot|
    ensures Owed(slot', load', c, x, k) ==
            Owed(slot, load, c, x, k) + if i < k then Share(slot'[i], load'[i], c, x) - Share(slot[i], load[i], c, x)
                else 0
  {
    if k > 0 {
      OwedChange(slot, load, slot', load', i, c, x, k - 1);
    }
  }

  /** One inode's share is part of the whole. */
  lemma {:induction false} ShareWithin(slot: seq<seq<Option<nat>>>, load: seq<nat>, i: nat, c: nat, x: nat, k: nat)
    requires i < k <= |slot| == |load|
    ensures Share(slot[i], load[i], c, x) <= Owed(slot, load, c, x, k)
  {
    if i < k - 1 {
      ShareWithin(slot, load, i, c, x, k - 1);
    }
  }

  /** What an inode has charged, its dquots count. */
  lemma CoversInode(s: State, i: nat, x: nat)
    requires Shaped(s) && i < |s.slot| && x < |s.q| && CoveredAt(s, x) && In(s.slot[i], s.q[x], x)
    ensures s.q[x].blocks >= s.iblocks[i] / 2 && (s.counted[i] ==> s.q[x].inodes > 0)
  {
    ShareWithin(s.slot, BlockLoad(s.iblocks), i, s.q[x].kind, x, |s.slot|);
    ShareWithin(s.slot, InodeLoad(s.counted), i, s.q[x].kind, x, |s.slot|);
  }

  /** Coverage after a step that touches inode i only. */
  lemma OwedAfter(s: State, s': State, i: nat, c: nat, x: nat)
    requires Shaped(s) && Shaped(s') && i < |s.slot| == |s'.slot|
    requires forall j {:trigger s'.slot[j]} {:trigger s'.iblocks[j]} {:trigger s'.counted[j]} ::
             0 <= j < |s.slot| && j != i ==>
               s'.slot[j] == s.slot[j] && s'.iblocks[j] == s.iblocks[j] && s'.counted[j] == s.counted[j]
    ensures OwedBlocks(s', c, x) ==
            OwedBlocks(s, c, x) + Share(s'.slot[i], s'.iblocks[i] / 2, c, x) - Share(s.slot[i], s.iblocks[i] / 2, c, x)
    ensures OwedInodes(s', c, x) ==
            OwedInodes(s, c, x) + Share(s'.slot[i], if s'.counted[i] then 1 else 0, c, x)
            - Share(s.slot[i], if s.counted[i] then 1 else 0, c, x)
  {
    OwedChange(s.slot, BlockLoad(s.iblocks), s'.slot, BlockLoad(s'.iblocks), i, c, x, |s.slot|);
    OwedChange(s.slot, InodeLoad(s.counted), s'.slot, InodeLoad(s'.counted), i, c, x, |s.slot|);
  }

  // ---------------------------------------------------------------- charging and releasing

  function Charge(q: Quota, n: nat): Quota {
    q.(blocks := q.blocks + n, mod := true)
  }

  function ChargeInodes(q: Quota, n: nat): Quota {
    q.(inodes := q.inodes + n, mod := true)
  }

  /** dquot_decr_blocks: the count stops at zero. */
  function Release(q: Quota, n: nat): Quota {
    var left := if q.blocks > n then q.blocks - n else 0;
    q.(blocks := left, btime := if left < q.bsoft then 0 else q.btime, mod := true)
  }

  function ReleaseInodes(q: Quota, n: nat): Quota {
    var left := if q.inodes > n then q.inodes - n else 0;
    q.(inodes := left, itime := if left < q.isoft then 0 else q.itime, mod := true)
  }

  function Add(q: Quota, d: Demand): Quota {
    match d
    case Blocks(n, _) => Charge(q, n)
    case Inode => ChargeInodes(q, 1)
    case Both(n) => Charge(ChargeInodes(q, 1), n)
  }

  function Take(q: Quota, d: Demand): Quota {
    match d
    case Blocks(n, _) => Release(q, n)
    case Inode => ReleaseInodes(q, 1)
    case Both(n) => Release(ReleaseInodes(q, 1), n)
  }

  /** Every dquot in who passes. */
  predicate Passes(q: seq<Quota>, who: seq<Option<nat>>, d: Demand, terms: Terms)
    requires SlotsOk(q, who) && TermsOk(terms)
  {
    forall c {:trigger who[c]} :: 0 <= c < MAXQUOTAS && who[c].Some? ==> Check(q[who[c].value], d, terms).0
  }

  /** The first kind from c on whose dquot is refused; MAXQUOTAS if there is none. */
  function Stop(q: seq<Quota>, who: seq<Option<nat>>, d: Demand, terms: Terms, c: nat): (r: nat)
    requires SlotsOk(q, who) && TermsOk(terms) && c <= MAXQUOTAS
    ensures c <= r <= MAXQUOTAS
    ensures r < MAXQUOTAS ==> who[r].Some? && !Check(q[who[r].value], d, terms).0
    ensures forall k {:trigger who[k]} :: c <= k < r && who[k].Some? ==> Check(q[who[k].value], d, terms).0
    decreases MAXQUOTAS - c
  {
    if c == MAXQUOTAS || (who[c].Some? && !Check(q[who[c].value], d, terms).0) then c else Stop(q, who, d, terms, c + 1)
  }

  /** The dquots after the checks of a call, which end with the first that is refused. */
  function Tried(q: seq<Quota>, who: seq<Option<nat>>, d: Demand, terms: Terms): (r: seq<Quota>)
    requires SlotsOk(q, who) && TermsOk(terms)
    ensures |r| == |q|
    ensures forall x {:trigger r[x]} :: 0 <= x < |q| ==>
              r[x] == if In(who, q[x], x) && q[x].kind <= Stop(q, who, d, terms, 0) then Check(q[x], d, terms).1
                  else q[x]
  {
    var stop := Stop(q, who, d, terms, 0);
    seq(|q|, x requires 0 <= x < |q| => if In(who, q[x], x) && q[x].kind <= stop then Check(q[x], d, terms).1 else q[x])
  }

  /** The dquots in who are changed by f. */
  function Each(q: seq<Quota>, who: seq<Option<nat>>, f: Quota -> Quota): (r: seq<Quota>)
    ensures |r| == |q| && forall x {:trigger r[x]} :: 0 <= x < |q| ==>
            r[x] == if In(who, q[x], x) then f(q[x]) else q[x]
  {
    seq(|q|, x requires 0 <= x < |q| => if In(who, q[x], x) then f(q[x]) else q[x])
  }

  function Grown(iblocks: seq<nat>, i: nat, d: Demand): seq<nat>
    requires i < |iblocks|
  {
    if d.Blocks? then iblocks[i := iblocks[i] + 2 * d.n] else iblocks
  }

  /** The call goes through: the dquots of inode i have been checked, and are charged. */
  function Allocated(s: State, i: nat, d: Demand, terms: Terms): State
    requires Shaped(s) && i < |s.slot| && SlotsOk(s.q, s.slot[i]) && TermsOk(terms)
  {
    State(Each(Tried(s.q, s.slot[i], d, terms), s.slot[i], q => Add(q, d)), s.disk, Grown(s.iblocks, i, d),
          if d.Inode? then s.counted[i := true] else s.counted, s.slot)
  }

  /** dquot_alloc_block, dquot_alloc_inode */
  predicate MayAlloc(s: State, i: nat, d: Demand, terms: Terms)
    requires TermsOk(terms)
  {
    && i < |s.slot| == |s.counted| && SlotsOk(s.q, s.slot[i]) && Passes(s.q, s.slot[i], d, terms)
    && (d.Blocks? || (d.Inode? && !s.counted[i]))
  }

  /** A call goes through exactly when every dquot in who grants it. */
  lemma PassesGranted(q: seq<Quota>, who: seq<Option<nat>>, d: Demand, terms: Terms)
    requires SlotsOk(q, who) && TermsOk(terms)
    ensures Passes(q, who, d, terms) <==> GrantedBy(q, who, d, terms)
  {
    forall x | 0 <= x < |q| && Some(x) in who ensures q[x].kind < MAXQUOTAS && who[q[x].kind] == Some(x) {
      var c :| 0 <= c < MAXQUOTAS && who[c] == Some(x);
    }
    forall x | 0 <= x < |q| && q[x].kind < MAXQUOTAS ensures Check(q[x], d, terms).0 <==> GrantsAll(q[x], d, terms) {
      CheckGrants(q[x], d, terms);
    }
    hide Check, GrantsAll;
  }

  predicate GrantedBy(q: seq<Quota>, who: seq<Option<nat>>, d: Demand, terms: Terms)
    requires TermsOk(terms)
  {
    forall x :: 0 <= x < |q| && Some(x) in who ==> q[x].kind < MAXQUOTAS && GrantsAll(q[x], d, terms)
  }

  /** One dquot after a call that goes through. */
  lemma AllocatedAt(s: State, i: nat, d: Demand, terms: Terms, x: nat)
    requires Shaped(s) && TermsOk(terms) && MayAlloc(s, i, d, terms) && x < |s.q|
    ensures |Allocated(s, i, d, terms).q| == |s.q|
    ensures Allocated(s, i, d, terms).q[x] ==
            if In(s.slot[i], s.q[x], x) then Add(Check(s.q[x], d, terms).1, d) else s.q[x]
  {
    var t := Tried(s.q, s.slot[i], d, terms);
    assert Stop(s.q, s.slot[i], d, terms, 0) == MAXQUOTAS;
    assert t[x].kind == s.q[x].kind;
  }

  lemma AllocatedKeeps(s: State, i: nat, d: Demand, terms: Terms)
    requires Inv(s) && TermsOk(terms) && MayAlloc(s, i, d, terms)
    ensures Inv(Allocated(s, i, d, terms))
  {
    var s' := Allocated(s, i, d, terms);
    forall x | 0 <= x < |s.q| ensures s'.q[x].kind == s.q[x].kind && SavedAt(s'.q[x], s'.disk[x]) {
      AllocatedAt(s, i, d, terms, x);
    }
    KindsShaped(s, s');
    forall x | 0 <= x < |s'.q| ensures CoveredAt(s', x) {
      AllocatedAt(s, i, d, terms, x);
      OwedAfter(s, s', i, s.q[x].kind, x);
      assert (s.iblocks[i] + 2 * if d.Blocks? then d.n else 0) / 2 == s.iblocks[i] / 2 + if d.Blocks? then d.n else 0;
    }
  }

  /** The shape depends on the kinds only. */
  lemma KindsShaped(s: State, s': State)
    requires Shaped(s) && |s'.q| == |s.q| == |s'.disk| && |s'.slot| == |s'.iblocks| == |s'.counted| == |s.slot|
    requires forall x {:trigger s'.q[x]} :: 0 <= x < |s.q| ==> s'.q[x].kind == s.q[x].kind
    requires forall j {:trigger s'.slot[j]} :: 0 <= j < |s.slot| ==> SlotsOk(s.q, s'.slot[j])
    ensures Shaped(s')
  {
  }

  // ---------------------------------------------------------------- releasing

  /** dquot_free_block, dquot_free_inode */
  predicate MayFree(s: State, i: nat, d: Demand) {
    && i < |s.slot| == |s.iblocks| == |s.counted|
    && (if d.Blocks? then 2 * d.n <= s.iblocks[i] else d.Inode? && s.counted[i])
  }

  function Freed(s: State, i: nat, d: Demand): State
    requires MayFree(s, i, d)
  {
    State(Each(s.q, s.slot[i], q => Take(q, d)), s.disk,
        if d.Blocks? then s.iblocks[i := s.iblocks[i] - 2 * d.n] else s.iblocks,
          if d.Inode? then s.counted[i := false] else s.counted, s.slot)
  }

  /** Release never stops at zero: what is subtracted was counted. */
  lemma FreeIsExact(s: State, i: nat, d: Demand, x: nat)
    requires Inv(s) && MayFree(s, i, d) && x < |s.q|
    ensures var in_ := In(s.slot[i], s.q[x], x);
            && Freed(s, i, d).q[x].blocks == s.q[x].blocks - (if in_ && d.Blocks? then d.n else 0)
            && Freed(s, i, d).q[x].inodes == s.q[x].inodes - (if in_ && d.Inode? then 1 else 0)
            && Freed(s, i, d).q[x].kind == s.q[x].kind
  {
    if In(s.slot[i], s.q[x], x) {
      CoversInode(s, i, x);
    }
  }

  lemma FreedKeeps(s: State, i: nat, d: Demand)
    requires Inv(s) && MayFree(s, i, d)
    ensures Inv(Freed(s, i, d))
  {
    var s' := Freed(s, i, d);
    forall x {:trigger s'.q[x]} | 0 <= x < |s.q| ensures s'.q[x].kind == s.q[x].kind && SavedAt(s'.q[x], s'.disk[x]) {}
    KindsShaped(s, s');
    forall x | 0 <= x < |s'.q| ensures CoveredAt(s', x) {
      FreeIsExact(s, i, d, x);
      OwedAfter(s, s', i, s.q[x].kind, x);
      assert d.Blocks? ==> (s.iblocks[i] - 2 * d.n) / 2 == s.iblocks[i] / 2 - d.n;
    }
  }

  /** Releasing what was just allocated restores the usage. */
  lemma FreeUndoesAllocate(s: State, i: nat, d: Demand, terms: Terms, x: nat)
    requires Inv(s) && TermsOk(terms) && MayAlloc(s, i, d, terms) && x < |s.q|
    ensures var s' := Allocated(s, i, d, terms);
            && MayFree(s', i, d) && Freed(s', i, d).iblocks == s.iblocks && Freed(s', i, d).counted == s.counted
            && Freed(s', i, d).q[x].blocks == s.q[x].blocks && Freed(s', i, d).q[x].inodes == s.q[x].inodes
  {
    AllocatedKeeps(s, i, d, terms);
    AllocatedAt(s, i, d, terms, x);
    FreeIsExact(Allocated(s, i, d, terms), i, d, x);
  }

  // ---------------------------------------------------------------- transfer

  /** The dquots that are to have more: the new owners', where the old ones had one too. */
  function Targets(slots: seq<Option<nat>>, to: seq<Option<nat>>): (r: seq<Option<nat>>)
    requires |slots| == |to| == MAXQUOTAS
    ensures |r| == MAXQUOTAS && forall c :: 0 <= c < MAXQUOTAS ==> r[c] == if slots[c].Some? then to[c] else None
  {
    seq(MAXQUOTAS, c requires 0 <= c < MAXQUOTAS => if slots[c].Some? then to[c] else None)
  }

  /** The slots afterwards: to, where a dquot was there before and is given. */
  function NewSlots(slots: seq<Option<nat>>, to: seq<Option<nat>>): (r: seq<Option<nat>>)
    requires |slots| == |to| == MAXQUOTAS
    ensures |r| == MAXQUOTAS
    ensures forall c :: 0 <= c < MAXQUOTAS ==> r[c] == if slots[c].Some? && to[c].Some? then to[c] else slots[c]
  {
    seq(MAXQUOTAS, c requires 0 <= c < MAXQUOTAS => if slots[c].Some? && to[c].Some? then to[c] else slots[c])
  }

  /** n blocks and one inode go from a to b. */
  function Moved(q: Quota, x: nat, a: Option<nat>, b: Option<nat>, n: nat): Quota {
    if a.None? || b.None? then q
    else
      var q1 := if a.value == x then Take(q, Both(n)) else q;
      if b.value == x then Add(q1, Both(n)) else q1
  }

  /** The same for every dquot. */
  function MovedAll(q: seq<Quota>, from: seq<Option<nat>>, to: seq<Option<nat>>, n: nat): (r: seq<Quota>)
    requires |from| == |to| == MAXQUOTAS
    ensures |r| == |q|
    ensures forall x {:trigger r[x]} :: 0 <= x < |q| ==>
              r[x] == if q[x].kind < MAXQUOTAS then Moved(q[x], x, from[q[x].kind], to[q[x].kind], n) else q[x]
  {
    seq(|q|, x requires 0 <= x < |q| =>
      if q[x].kind < MAXQUOTAS then Moved(q[x], x, from[q[x].kind], to[q[x].kind], n) else q[x])
  }

  /** Inode i with its usage now belongs to the dquots in to. */
  function Transferred(s: State, i: nat, to: seq<Option<nat>>, terms: Terms): State
    requires Shaped(s) && i < |s.slot| && SlotsOk(s.q, s.slot[i]) && SlotsOk(s.q, to) && TermsOk(terms)
  {
    var n := s.iblocks[i] / 2;
    var q := Tried(s.q, Targets(s.slot[i], to), Both(n), terms);
    s.(q := MovedAll(q, s.slot[i], to, n), slot := s.slot[i := NewSlots(s.slot[i], to)])
  }

  /** The checks of dquot_transfer. */
  predicate MayTransfer(s: State, i: nat, to: seq<Option<nat>>, terms: Terms)
    requires TermsOk(terms)
  {
    && i < |s.slot| == |s.iblocks| && SlotsOk(s.q, s.slot[i]) && SlotsOk(s.q, to)
    && Passes(s.q, Targets(s.slot[i], to), Both(s.iblocks[i] / 2), terms)
  }

  /** One dquot after a transfer. */
  lemma TransferredAt(s: State, i: nat, to: seq<Option<nat>>, terms: Terms, x: nat)
    requires Shaped(s) && TermsOk(terms) && MayTransfer(s, i, to, terms) && x < |s.q|
    ensures var c, n := s.q[x].kind, s.iblocks[i] / 2;
            var a, b := s.slot[i][c], to[c];
            var q := if a.Some? && b == Some(x) then Check(s.q[x], Both(n), terms).1 else s.q[x];
            Transferred(s, i, to, terms).q[x] == Moved(q, x, a, b, n)
  {
    var who := Targets(s.slot[i], to);
    assert Stop(s.q, who, Both(s.iblocks[i] / 2), terms, 0) == MAXQUOTAS;
    assert who[s.q[x].kind] == if s.slot[i][s.q[x].kind].Some? then to[s.q[x].kind] else None;
  }

  /** The usage of one dquot before and after. */
  lemma TransferUsage(s: State, i: nat, to: seq<Option<nat>>, terms: Terms, x: nat)
    requires Inv(s) && TermsOk(terms) && MayTransfer(s, i, to, terms) && x < |s.q|
    ensures var c, n, q' := s.q[x].kind, s.iblocks[i] / 2, Transferred(s, i, to, terms).q[x];
            var both := s.slot[i][c].Some? && to[c].Some?;
            && SavedAt(q', s.disk[x])
            && q'.blocks == s.q[x].blocks + (if both && to[c].value == x then n else 0)
                            - (if both && s.slot[i][c].value == x then n else 0)
            && q'.inodes == s.q[x].inodes + (if both && to[c].value == x then 1 else 0)
                            - (if both && s.slot[i][c].value == x && s.q[x].inodes > 0 then 1 else 0)
  {
    TransferredAt(s, i, to, terms, x);
    if In(s.slot[i], s.q[x], x) {
      CoversInode(s, i, x);
    }
  }

  lemma TransferKeeps(s: State, i: nat, to: seq<Option<nat>>, terms: Terms)
    requires Inv(s) && TermsOk(terms) && MayTransfer(s, i, to, terms) && s.counted[i]
    ensures Inv(Transferred(s, i, to, terms))
  {
    var s' := Transferred(s, i, to, terms);
    forall x | 0 <= x < |s.q| ensures s'.q[x].kind == s.q[x].kind && SavedAt(s'.q[x], s'.disk[x]) {
      TransferUsage(s, i, to, terms, x);
    }
    KindsShaped(s, s');
    forall x | 0 <= x < |s'.q| ensures CoveredAt(s', x) {
      TransferUsage(s, i, to, terms, x);
      OwedAfter(s, s', i, s.q[x].kind, x);
      if In(s.slot[i], s.q[x], x) {
        CoversInode(s, i, x);
      }
    }
  }

  // ---------------------------------------------------------------- conservation

  /** The blocks, or the inodes, of all the dquots of a kind among the first k. */
  function TotalBlocks(q: seq<Quota>, c: nat, k: nat): nat
    requires k <= |q|
  {
    if k == 0 then 0 else TotalBlocks(q, c, k - 1) + if q[k - 1].kind == c then q[k - 1].blocks else 0
  }

  function TotalInodes(q: seq<Quota>, c: nat, k: nat): nat
    requires k <= |q|
  {
    if k == 0 then 0 else TotalInodes(q, c, k - 1) + if q[k - 1].kind == c then q[k - 1].inodes else 0
  }

  /** Within kind c, n blocks and one inode went from a to b; an inode that a did not count came from nowhere. */
  predicate Shifted(q: seq<Quota>, q': seq<Quota>, c: nat, a: nat, b: nat, n: nat) {
    |q'| == |q| && forall x {:trigger q'[x]} :: 0 <= x < |q| ==> ShiftedAt(q[x], q'[x], c, a == x, b == x, n)
  }

  predicate ShiftedAt(q: Quota, q': Quota, c: nat, from: bool, to: bool, n: nat) {
    && q'.kind == q.kind
    && (q.kind == c ==>
          && q'.blocks == q.blocks + (if to then n else 0) - (if from then n else 0)
          && q'.inodes == q.inodes + (if to then 1 else 0) - (if from && q.inodes > 0 then 1 else 0))
  }

  lemma {:induction false} ShiftedTotals(q: seq<Quota>, q': seq<Quota>, c: nat, a: nat, b: nat, n: nat, k: nat)
    requires Shifted(q, q', c, a, b, n) && k <= |q| && a < |q| && b < |q| && q[a].kind == q[b].kind == c
    ensures TotalBlocks(q', c, k) == TotalBlocks(q, c, k) + (if b < k then n else 0) - (if a < k then n else 0)
    ensures TotalInodes(q', c, k) ==
            TotalInodes(q, c, k) + (if b < k then 1 else 0) - (if a < k && q[a].inodes > 0 then 1 else 0)
  {
    if k > 0 {
      ShiftedTotals(q, q', c, a, b, n, k - 1);
      assert q'[k - 1].kind == q[k - 1].kind;
    }
  }

  lemma {:induction false} SameTotals(q: seq<Quota>, q': seq<Quota>, c: nat, k: nat)
    requires |q'| == |q| && k <= |q|
    requires forall x {:trigger q'[x]} :: 0 <= x < |q| ==> ShiftedAt(q[x], q'[x], c, false, false, 0)
    ensures TotalBlocks(q', c, k) == TotalBlocks(q, c, k) && TotalInodes(q', c, k) == TotalInodes(q, c, k)
  {
    if k > 0 {
      SameTotals(q, q', c, k - 1);
      assert q'[k - 1].kind == q[k - 1].kind;
    }
  }

  lemma TransferShifts(s: State, i: nat, to: seq<Option<nat>>, terms: Terms, c: nat, x: nat)
    requires Inv(s) && TermsOk(terms) && MayTransfer(s, i, to, terms) && c < MAXQUOTAS && x < |s.q|
    ensures var a, b, n, q' := s.slot[i][c], to[c], s.iblocks[i] / 2, Transferred(s, i, to, terms).q;
            && |q'| == |s.q|
            && if a.Some? && b.Some? then ShiftedAt(s.q[x], q'[x], c, a.value == x, b.value == x, n)
               else ShiftedAt(s.q[x], q'[x], c, false, false, 0)
  {
    TransferUsage(s, i, to, terms, x);
  }

  /** A transfer conserves the blocks of each kind, and the inodes exactly when the old dquot counted one at all. */
  lemma TransferConserves(s: State, i: nat, to: seq<Option<nat>>, terms: Terms, c: nat)
    requires Inv(s) && TermsOk(terms) && MayTransfer(s, i, to, terms) && c < MAXQUOTAS
    ensures var s' := Transferred(s, i, to, terms);
            && TotalBlocks(s'.q, c, |s.q|) == TotalBlocks(s.q, c, |s.q|)
            && (TotalInodes(s'.q, c, |s.q|) == TotalInodes(s.q, c, |s.q|) <==>
                s.slot[i][c].None? || to[c].None? || s.q[s.slot[i][c].value].inodes > 0)
  {
    var a, b, n := s.slot[i][c], to[c], s.iblocks[i] / 2;
    var s' := Transferred(s, i, to, terms);
    assert |s'.q| == |s.q|;
    assert a.Some? ==> a.value < |s.q| && s.q[a.value].kind == c;
    assert b.Some? ==> b.value < |s.q| && s.q[b.value].kind == c;
    hide Inv, Transferred, ShiftedAt, MayTransfer, Shaped, SlotsOk;
    forall x {:trigger s'.q[x]} | 0 <= x < |s.q|
      ensures if a.Some? && b.Some? then ShiftedAt(s.q[x], s'.q[x], c, a.value == x, b.value == x, n)
              else ShiftedAt(s.q[x], s'.q[x], c, false, false, 0)
    {
      TransferShifts(s, i, to, terms, c, x);
    }
    if a.Some? && b.Some? {
      ShiftedTotals(s.q, s'.q, c, a.value, b.value, n, |s.q|);
    } else {
      SameTotals(s.q, s'.q, c, |s.q|);
    }
  }

  /** An inode that is allocated is counted by its dquots, so its transfer conserves inodes too. */
  lemma TransferConservesInodes(s: State, i: nat, to: seq<Option<nat>>, terms: Terms, c: nat)
    requires Inv(s) && TermsOk(terms) && MayTransfer(s, i, to, terms) && c < MAXQUOTAS && s.counted[i]
    ensures TotalInodes(Transferred(s, i, to, terms).q, c, |s.q|) == TotalInodes(s.q, c, |s.q|)
  {
    TransferConserves(s, i, to, terms, c);
    if s.slot[i][c].Some? {
      CoversInode(s, i, s.slot[i][c].value);
    }
  }

  // ---------------------------------------------------------------- attaching, writing, and reading again

  /** dquot_initialize fills an empty slot; the dquot already counts the inode and its blocks, as the quota file
      says. */
  predicate Attach(s: State, s': State, i: nat, c: nat, x: nat)
    requires Shaped(s)
  {
    && i < |s.slot| && c < MAXQUOTAS && s.slot[i][c].None? && x < |s.q| && s.q[x].kind == c
    && s.q[x].blocks >= OwedBlocks(s, c, x) + s.iblocks[i] / 2
    && s.q[x].inodes >= OwedInodes(s, c, x) + (if s.counted[i] then 1 else 0)
    && s' == s.(slot := s.slot[i := s.slot[i][c := Some(x)]])
  }

  /** dquot_drop */
  predicate Detach(s: State, s': State, i: nat) {
    i < |s.slot| && s' == s.(slot := s.slot[i := [None, None]])
  }

  lemma AttachKeeps(s: State, s': State, i: nat, c: nat, x: nat)
    requires Inv(s) && Attach(s, s', i, c, x)
    ensures Inv(s')
  {
    KindsShaped(s, s');
    forall y | 0 <= y < |s'.q| ensures CoveredAt(s', y) {
      OwedAfter(s, s', i, s.q[y].kind, y);
    }
  }

  lemma DetachKeeps(s: State, s': State, i: nat)
    requires Inv(s) && Detach(s, s', i)
    ensures Inv(s')
  {
    KindsShaped(s, s');
    forall y | 0 <= y < |s'.q| ensures CoveredAt(s', y) {
      OwedAfter(s, s', i, s.q[y].kind, y);
    }
  }

  /** A dquot is written. */
  predicate WriteBack(s: State, s': State, x: nat) {
    && x < |s.q| == |s.disk|
    && s' == s.(q := s.q[x := s.q[x].(mod := false)], disk := s.disk[x := s.q[x].(mod := false)])
  }

  /** What read_dquot makes of a record. */
  function AsRead(q: Quota): Quota {
    q.(fake := NoLimits(q), mod := false)
  }

  predicate Unattached(s: State, x: nat) {
    forall i, c {:trigger s.slot[i][c]} :: 0 <= i < |s.slot| && 0 <= c < |s.slot[i]| ==> s.slot[i][c] != Some(x)
  }

  /** A dquot that is in no inode and not marked goes out of memory, and is read again. */
  predicate Reread(s: State, s': State, x: nat) {
    && x < |s.q| == |s.disk| && !s.q[x].mod && Unattached(s, x)
    && s' == s.(q := s.q[x := AsRead(s.disk[x])])
  }

  /** A call is refused, after the checks up to the one that failed. */
  predicate Refused(s: State, s': State, who: seq<Option<nat>>, d: Demand, terms: Terms)
    requires TermsOk(terms)
  {
    SlotsOk(s.q, who) && !Passes(s.q, who, d, terms) && s' == s.(q := Tried(s.q, who, d, terms))
  }

  /** The usage is the same, and what is saved too. */
  lemma UsageKeeps(s: State, s': State)
    requires Inv(s) && s' == s.(q := s'.q, disk := s'.disk) && |s'.q| == |s.q|
    requires Saved(s') && forall x {:trigger s'.q[x]} :: 0 <= x < |s.q| ==>
               s'.q[x].kind == s.q[x].kind && s'.q[x].blocks == s.q[x].blocks && s'.q[x].inodes == s.q[x].inodes
    ensures Inv(s')
  {
    KindsShaped(s, s');
    forall x | 0 <= x < |s'.q| ensures CoveredAt(s', x) {
      assert CoveredAt(s, x);
    }
  }

  lemma SavingKeeps(s: State, s': State, x: nat)
    requires Inv(s) && (WriteBack(s, s', x) || Reread(s, s', x))
    ensures Inv(s')
  {
    assert SavedAt(s.q[x], s.disk[x]);
    UsageKeeps(s, s');
  }

  lemma RefusedKeeps(s: State, s': State, who: seq<Option<nat>>, d: Demand, terms: Terms)
    requires Inv(s) && TermsOk(terms) && Refused(s, s', who, d, terms)
    ensures Inv(s')
  {
    forall x {:trigger s'.q[x]} | 0 <= x < |s.q| ensures Started(s.q[x], s'.q[x]) && SavedAt(s'.q[x], s'.disk[x]) {
      assert SavedAt(s.q[x], s.disk[x]);
    }
    UsageKeeps(s, s');
  }

  // ---------------------------------------------------------------- what a refused call leaves behind

  /** The check starts the grace time for blocks. */
  predicate StartsBlocks(q: Quota, n: nat, prealloc: bool, c: Terms)
    requires TermsOk(c) && q.kind < MAXQUOTAS
  {
    && n > 0 && !q.fake && !prealloc && q.bsoft != 0 && q.blocks + n > q.bsoft && q.btime == 0
    && (q.bhard == 0 || q.blocks + n <= q.bhard || c.exempt[q.kind]) && c.now + c.bexpire[q.kind] != 0
  }

  /** The check starts the grace time for inodes. */
  predicate StartsInodes(q: Quota, c: Terms)
    requires TermsOk(c) && q.kind < MAXQUOTAS
  {
    && !q.fake && q.isoft != 0 && q.inodes + 1 > q.isoft && q.itime == 0
    && (q.ihard == 0 || q.inodes + 1 <= q.ihard || c.exempt[q.kind]) && c.now + c.iexpire[q.kind] != 0
  }

  predicate Starts(q: Quota, d: Demand, c: Terms)
    requires TermsOk(c) && q.kind < MAXQUOTAS
  {
    match d
    case Blocks(n, prealloc) => StartsBlocks(q, n, prealloc, c)
    case Inode => StartsInodes(q, c)
    case Both(n) => StartsInodes(q, c) || (InodeCheck(q, 1, c).0 && StartsBlocks(q, n, false, c))
  }

  /** A refused call changes x exactly when x passes and its grace time is started, before a later kind is refused, or
      when in a transfer x itself is refused the blocks after its grace time for inodes was started. It does not mark
      x. */
  lemma RefusedStarts(q: seq<Quota>, who: seq<Option<nat>>, d: Demand, terms: Terms, x: nat)
    requires SlotsOk(q, who) && TermsOk(terms) && !Passes(q, who, d, terms) && x < |q| && q[x].kind < MAXQUOTAS
    ensures Tried(q, who, d, terms)[x].mod == q[x].mod
    ensures var stop := Stop(q, who, d, terms, 0);
            Tried(q, who, d, terms)[x] != q[x] <==>
            && In(who, q[x], x)
            && ((q[x].kind < stop && Starts(q[x], d, terms)) ||
               (q[x].kind == stop && d.Both? && StartsInodes(q[x], terms)))
  {
    var stop := Stop(q, who, d, terms, 0);
    assert stop < MAXQUOTAS;
    if In(who, q[x], x) && q[x].kind <= stop {
      assert who[q[x].kind].Some?;
      CheckStarts(q[x], d, terms);
    }
  }

  lemma CheckStarts(q: Quota, d: Demand, terms: Terms)
    requires TermsOk(terms) && q.kind < MAXQUOTAS
    ensures Check(q, d, terms).0 ==> (Check(q, d, terms).1 != q <==> Starts(q, d, terms))
    ensures !Check(q, d, terms).0 ==> (Check(q, d, terms).1 != q <==> d.Both? && StartsInodes(q, terms))
  {
  }

  // ---------------------------------------------------------------- runs

  ghost predicate AllocStep(s: State, s': State, i: nat, d: Demand, terms: Terms)
    requires Shaped(s) && TermsOk(terms)
  {
    MayAlloc(s, i, d, terms) && s' == Allocated(s, i, d, terms)
  }

  ghost predicate FreeStep(s: State, s': State, i: nat, d: Demand) {
    MayFree(s, i, d) && s' == Freed(s, i, d)
  }

  /** The owner changes, so the dquots are different ones. */
  predicate OwnerChanges(slots: seq<Option<nat>>, to: seq<Option<nat>>) {
    |slots| == |to| && forall c {:trigger to[c]} :: 0 <= c < |to| && slots[c].Some? && to[c].Some? ==> slots[c] != to[c]
  }

  /** The inode is one that is allocated. */
  ghost predicate TransferStep(s: State, s': State, i: nat, to: seq<Option<nat>>, terms: Terms)
    requires Shaped(s) && TermsOk(terms)
  {
    && MayTransfer(s, i, to, terms) && OwnerChanges(s.slot[i], to) && i < |s.counted| && s.counted[i]
    && s' == Transferred(s, i, to, terms)
  }

  /** terms are the time, the grace times and the caller's rights at that step. */
  ghost predicate Next(s: State, s': State, terms: Terms)
    requires Shaped(s) && TermsOk(terms)
  {
    || (exists i, d :: AllocStep(s, s', i, d, terms))
    || (exists i, d :: FreeStep(s, s', i, d))
    || (exists i, to :: TransferStep(s, s', i, to, terms))
    || (exists i, c, x :: Attach(s, s', i, c, x))
    || (exists i :: Detach(s, s', i))
    || (exists x :: WriteBack(s, s', x) || Reread(s, s', x))
    || (exists who, d :: Refused(s, s', who, d, terms))
  }

  lemma NextKeeps(s: State, s': State, terms: Terms)
    requires Inv(s) && TermsOk(terms) && Next(s, s', terms)
    ensures Inv(s')
  {
    hide Covered, Saved, Allocated, Transferred, Freed, SlotsOk, MayAlloc, MayTransfer, MayFree, Attach, Detach,
      WriteBack, Reread, Refused;
    if i: nat, d :| AllocStep(s, s', i, d, terms) {
      AllocatedKeeps(s, i, d, terms);
    } else if i: nat, d :| FreeStep(s, s', i, d) {
      FreedKeeps(s, i, d);
    } else if i: nat, to :| TransferStep(s, s', i, to, terms) {
      TransferKeeps(s, i, to, terms);
    } else if i: nat, c: nat, x: nat :| Attach(s, s', i, c, x) {
      AttachKeeps(s, s', i, c, x);
    } else if i: nat :| Detach(s, s', i) {
      DetachKeeps(s, s', i);
    } else if x: nat :| WriteBack(s, s', x) || Reread(s, s', x) {
      SavingKeeps(s, s', x);
    } else {
      var who, d :| Refused(s, s', who, d, terms);
      RefusedKeeps(s, s', who, d, terms);
    }
  }

  /** The dquots as they are read, and inodes that are not attached to any yet. */
  function Fresh(q: seq<Quota>, iblocks: seq<nat>, counted: seq<bool>): State
    requires |iblocks| == |counted|
  {
    State(q, q, iblocks, counted, seq(|iblocks|, _ => [None, None]))
  }

  predicate AllRead(q: seq<Quota>) {
    forall x {:trigger q[x]} :: 0 <= x < |q| ==> q[x].kind < MAXQUOTAS && q[x] == AsRead(q[x])
  }

  lemma {:induction false} NothingOwed(slot: seq<seq<Option<nat>>>, load: seq<nat>, c: nat, x: nat, k: nat)
    requires k <= |slot| == |load| && forall i {:trigger slot[i]} :: 0 <= i < |slot| ==> slot[i] == [None, None]
    ensures Owed(slot, load, c, x, k) == 0
  {
    if k > 0 {
      NothingOwed(slot, load, c, x, k - 1);
    }
  }

  lemma FreshInv(q: seq<Quota>, iblocks: seq<nat>, counted: seq<bool>)
    requires AllRead(q) && |iblocks| == |counted|
    ensures Inv(Fresh(q, iblocks, counted))
  {
    var s := Fresh(q, iblocks, counted);
    assert Shaped(s);
    forall x | 0 <= x < |s.q| ensures CoveredAt(s, x) {
      NothingOwed(s.slot, BlockLoad(s.iblocks), s.q[x].kind, x, |s.slot|);
      NothingOwed(s.slot, InodeLoad(s.counted), s.q[x].kind, x, |s.slot|);
    }
  }

  /** A run; terms[i] are those of step i. */
  ghost predicate Run(states: seq<State>, terms: seq<Terms>) {
    && states != [] && |terms| + 1 == |states| && IsFresh(states[0])
    && forall i :: 0 <= i < |terms| ==> RunStep(states[i], states[i + 1], terms[i])
  }

  ghost predicate IsFresh(s: State) {
    AllRead(s.q) && |s.iblocks| == |s.counted| && s == Fresh(s.q, s.iblocks, s.counted)
  }

  ghost predicate RunStep(s: State, s': State, terms: Terms) {
    Shaped(s) && TermsOk(terms) && Next(s, s', terms)
  }

  /** In every run the dquots count at least what their inodes have, so no release stops at zero; and what is not marked
      is in the quota files, but for grace times. */
  lemma {:induction false} RunCovered(states: seq<State>, terms: seq<Terms>, k: nat)
    requires Run(states, terms) && k < |states|
    ensures Inv(states[k])
  {
    hide Inv, Next, Fresh;
    if k == 0 {
      FreshInv(states[0].q, states[0].iblocks, states[0].counted);
    } else {
      RunCovered(states, terms, k - 1);
      assert RunStep(states[k - 1], states[k - 1 + 1], terms[k - 1]);
      NextKeeps(states[k - 1], states[k], terms[k - 1]);
    }
  }

  /** In every run a transfer conserves the blocks and the inodes of each kind. */
  lemma RunTransferConserves(states: seq<State>, terms: seq<Terms>, k: nat, i: nat, to: seq<Option<nat>>, c: nat)
    requires Run(states, terms) && k < |terms| && Shaped(states[k]) && TermsOk(terms[k]) && c < MAXQUOTAS
    requires TransferStep(states[k], states[k + 1], i, to, terms[k])
    ensures var q, q' := states[k].q, states[k + 1].q;
            && TotalBlocks(q', c, |q'|) == TotalBlocks(q, c, |q|) && TotalInodes(q', c, |q'|) == TotalInodes(q, c, |q|)
  {
    RunCovered(states, terms, k);
    hide Run, Inv;
    TransferConserves(states[k], i, to, terms[k], c);
    TransferConservesInodes(states[k], i, to, terms[k], c);
  }

  // ---------------------------------------------------------------- the hard limits

  /** Unless the caller is exempt, a charge that is allowed stays within a hard limit. */
  lemma WithinLimit(q: Quota, d: Demand, terms: Terms)
    requires TermsOk(terms) && q.kind < MAXQUOTAS && Check(q, d, terms).0 && !terms.exempt[q.kind] && !q.fake
    ensures var q' := Add(Check(q, d, terms).1, d);
            && (q.bhard != 0 && q.blocks <= q.bhard ==> q'.blocks <= q'.bhard)
            && (q.ihard != 0 && q.inodes <= q.ihard ==> q'.inodes <= q'.ihard)
  {
  }

  predicate Within(q: Quota) {
    !q.fake ==> (q.bhard != 0 ==> q.blocks <= q.bhard) && (q.ihard != 0 ==> q.inodes <= q.ihard)
  }

  lemma AllocWithinLimit(s: State, i: nat, d: Demand, terms: Terms, x: nat)
    requires Shaped(s) && TermsOk(terms) && MayAlloc(s, i, d, terms) && x < |s.q|
    requires !terms.exempt[s.q[x].kind] && Within(s.q[x])
    ensures Within(Allocated(s, i, d, terms).q[x])
  {
    AllocatedAt(s, i, d, terms, x);
    if In(s.slot[i], s.q[x], x) && !s.q[x].fake {
      WithinLimit(s.q[x], d, terms);
    }
  }

  lemma TransferWithinLimit(s: State, i: nat, to: seq<Option<nat>>, terms: Terms, x: nat)
    requires Inv(s) && TermsOk(terms) && MayTransfer(s, i, to, terms) && x < |s.q|
    requires !terms.exempt[s.q[x].kind] && Within(s.q[x])
    ensures Within(Transferred(s, i, to, terms).q[x])
  {
    var c, n := s.q[x].kind, s.iblocks[i] / 2;
    TransferUsage(s, i, to, terms, x);
    assert SavedAt(s.q[x], s.disk[x]);
    if s.slot[i][c].Some? && to[c] == Some(x) && !s.q[x].fake {
      assert Targets(s.slot[i], to)[c] == Some(x);
      WithinLimit(s.q[x], Both(n), terms);
    }
  }
}
