/** Unique names in the directory cache (fs/dcache.c), over every run: what whoever calls d_rehash must see to. */
module DentryNames {
  import opened Dentries
  import opened DentryMove
  import opened DentryRuns
  import opened DentryShrink
  import opened Lists

  /** d_rehash of x. */
  ghost predicate Rehashes(h: Hash, w: World, w': World, x: nat) {
    Fit(h, w, x) && w.s.alive[x] && !Hashed(h, w.s, x) && w' == World(Rehashed(h, w.s, x), w.held)
  }

  /** The step hashes a dentry only where nothing hashed has its name. */
  ghost predicate Careful(h: Hash, w: World, w': World) {
    forall x {:trigger Rehashes(h, w, w', x)} :: Rehashes(h, w, w', x) ==> HashOk(h, w.s) && Vacant(h, w.s, x)
  }

  ghost predicate Unique(h: Hash, w: World) {
    HashOk(h, w.s) && Twinless(h, w.s)
  }

  lemma GoodHash(h: Hash, w: World)
    requires Good(h, w)
    ensures HashOk(h, w.s)
  {
    var d, top :| InOrder(h, w, d, top);
  }

  // ---------------------------------------------------------------- steps that make nothing known

  /** Nothing is known in s' that was not known in s. */
  ghost predicate Fewer(h: Hash, s: Dcache, s': Dcache) {
    HashOk(h, s) && HashOk(h, s') && forall y, p, q :: Known(h, s', y, p, q) ==> Known(h, s, y, p, q)
  }

  lemma GoneFewer(h: Hash, s: Dcache, x: nat)
    requires HashOk(h, s) && x < |s.name| && HashOk(h, Gone(h, s, x))
    ensures Fewer(h, s, Gone(h, s, x))
  {
  }

  lemma SameFewer(h: Hash, s: Dcache, s': Dcache)
    requires HashOk(h, s) && HashOk(h, s') && s'.t == s.t && s'.name == s.name && s'.hash == s.hash
    ensures Fewer(h, s, s')
  {
  }

  lemma AllocFewer(h: Hash, s: Dcache, p: nat, name: Name)
    requires HashOk(h, s) && p < |s.name| && HashOk(h, Alloced(s, p, name))
    ensures Fewer(h, s, Alloced(s, p, name))
  {
  }

  lemma AllocRootFewer(h: Hash, s: Dcache, name: Name)
    requires HashOk(h, s) && HashOk(h, AllocedRoot(s, name))
    ensures Fewer(h, s, AllocedRoot(s, name))
  {
  }

  lemma DropFewer(h: Hash, s: Dcache, x: nat)
    requires HashOk(h, s) && x < |s.name| && HashOk(h, Dropped(h, s, x))
    ensures Fewer(h, s, Dropped(h, s, x))
  {
  }

  /** The step is neither d_rehash nor d_move. */
  lemma OthersFewer(h: Hash, w: World, w': World)
    requires Good(h, w) && Good(h, w') && Next(h, w, w')
    requires !(exists x :: Rehashes(h, w, w', x)) && !(exists d, top, x, y :: Moves(h, w, w', d, top, x, y))
    ensures Fewer(h, w.s, w'.s)
  {
    GoodHash(h, w);
    GoodHash(h, w');
    hide HashOk, Hashed, Gone, GoneHeld, Alloced, AllocedRoot, Dropped, Rehashed, Moves, Good, Fewer, Stays, ToEnd,
      NameOk, Rehashes;
    if x: nat, unwanted :| Puts(h, w, w', x, unwanted) {
      if w.s.count[x] <= 1 && !Stays(h, w.s, unwanted, x) {
        GoneFewer(h, w.s, x);
      } else {
        SameFewer(h, w.s, w'.s);
      }
    } else if x: nat :| Gets(h, w, w', x) {
      SameFewer(h, w.s, w'.s);
    } else if p: nat, name :| Allocs(h, w, w', p, name) {
      AllocFewer(h, w.s, p, name);
    } else if name :| AllocsRoot(h, w, w', name) {
      AllocRootFewer(h, w.s, name);
    } else if x: nat :| Hashes(h, w, w', x) {
      NotRehashed(h, w, w', x);
      DropFewer(h, w.s, x);
    } else if x: nat :| Selects(h, w, w', x) {
      SameFewer(h, w.s, w'.s);
    } else {
      var x: nat :| Prunes(h, w, w', x);
      if w.s.used[x] {
        SameFewer(h, w.s, w'.s);
      } else {
        GoneFewer(h, w.s, x);
      }
    }
  }

  lemma NotRehashed(h: Hash, w: World, w': World, x: nat)
    requires Hashes(h, w, w', x) && !Rehashes(h, w, w', x)
    ensures w' == World(Dropped(h, w.s, x), w.held)
  {
  }

  // ---------------------------------------------------------------- runs

  /** A step keeps names unique exactly when it hashes nothing whose name is taken. */
  lemma NextUnique(h: Hash, w: World, w': World)
    requires Good(h, w) && Unique(h, w) && Next(h, w, w')
    ensures Good(h, w') && (Unique(h, w') <==> Careful(h, w, w'))
  {
    NextKeeps(h, w, w');
    GoodHash(h, w');
    hide HashOk, Next, Good, Twinless, Vacant;
    if x: nat :| Rehashes(h, w, w', x) {
      forall y: nat | Rehashes(h, w, w', y) ensures Twinless(h, w'.s) <==> Vacant(h, w.s, y) {
        RehashTwinless(h, w.s, y);
      }
    } else if d, top, x: nat, y: nat :| Moves(h, w, w', d, top, x, y) {
      MovedTwinless(h, w.s, x, y);
    } else {
      OthersFewer(h, w, w');
      FewerKeeps(h, w.s, w'.s);
    }
  }

  lemma FewerKeeps(h: Hash, s: Dcache, s': Dcache)
    requires Fewer(h, s, s') && Twinless(h, s)
    ensures Twinless(h, s')
  {
    FewerTwinless(h, s, s');
  }

  /** In every run: names are unique in all states up to some one exactly when no d_rehash before it hashes a dentry
      whose name a hashed one has. */
  lemma {:induction false} RunUnique(h: Hash, run: seq<World>, buckets: nat, k: nat)
    requires Run(h, run, buckets) && k < |run|
    ensures (forall i :: 0 <= i <= k ==> Unique(h, run[i])) <==>
            (forall i :: 0 <= i < k ==> Careful(h, run[i], run[i + 1]))
  {
    hide Unique, Careful, Next, Good;
    if k == 0 {
      EmptyUnique(h, buckets);
    } else {
      RunUnique(h, run, buckets, k - 1);
      RunGood(h, run, buckets, k - 1);
      assert Next(h, run[k - 1], run[k - 1 + 1]);
      if Unique(h, run[k - 1]) {
        NextUnique(h, run[k - 1], run[k]);
      }
      assert Careful(h, run[k - 1], run[k - 1 + 1]) || !Careful(h, run[k - 1], run[k - 1 + 1]);
    }
  }

  lemma EmptyUnique(h: Hash, buckets: nat)
    requires InRange(h, buckets)
    ensures Unique(h, World(Empty(buckets), []))
  {
    EmptyHash(h, buckets);
  }

  /** In every such run, after d_move lookup finds the dentry where the target was, nothing where it was itself, and
      everywhere else what it found before. */
  lemma RunMovedFound(h: Hash, run: seq<World>, buckets: nat, k: nat, d: seq<nat>, top: nat, x: nat, y: nat, p: nat,
                      q: Qstr)
    requires Run(h, run, buckets) && k + 1 < |run| && (forall i :: 0 <= i < k ==> Careful(h, run[i], run[i + 1]))
    requires Moves(h, run[k], run[k + 1], d, top, x, y)
    ensures var s, s' := run[k].s, run[k + 1].s;
            && HashOk(h, s) && HashOk(h, s')
            && Found(h, s', p, q) ==
               if Known(h, s, y, p, q) then Some(x) else if Known(h, s, x, p, q) then None else Found(h, s, p, q)
  {
    RunUnique(h, run, buckets, k);
    RunGood(h, run, buckets, k + 1);
    GoodHash(h, run[k + 1]);
    hide Run, HashOk, Careful, Known, Found;
    assert Unique(h, run[k]);
    MovedFound(h, run[k].s, x, y, p, q);
  }
}
