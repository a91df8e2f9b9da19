/** How a dentry leaves the directory cache (fs/dcache.c), over every run: the last dput of one that is on no hash chain
    or unwanted frees it, and otherwise only pruning does. */
module DentryLeaves {
  import opened Dentries
  import opened DentryMove
  import opened DentryRuns
  import opened DentryShrink
  import opened TreeWalk

  /** The last reference to x is dropped, and x is on no hash chain or unwanted. */
  ghost predicate PutAway(h: Hash, w: World, w': World, x: nat, unwanted: set<nat>) {
    Puts(h, w, w', x, unwanted) && w.s.count[x] == 1 && (!OnChain(w.s, x) || x in unwanted)
  }

  /** x is the last of the unused dentries and was not used lately, and is thrown away. */
  ghost predicate ThrownAway(h: Hash, w: World, w': World, x: nat) {
    Prunes(h, w, w', x) && w.s.lru != [] && x == w.s.lru[|w.s.lru| - 1] && !w.s.used[x]
  }

  ghost predicate Leaves(h: Hash, w: World, w': World, x: nat) {
    (exists unwanted :: PutAway(h, w, w', x, unwanted)) || ThrownAway(h, w, w', x)
  }

  /** The filesystem wants x deleted when its last reference is dropped. */
  ghost predicate Condemned(h: Hash, w: World, w': World, x: nat) {
    exists unwanted: set<nat> :: x in unwanted && Puts(h, w, w', x, unwanted)
  }

  predicate Alive(w: World, x: nat) {
    x < |w.s.alive| && w.s.alive[x]
  }

  lemma FreesOnly(h: Hash, w: World, w': World, y: nat, x: nat)
    requires Fit(h, w, y) && w' == Frees(h, w, y) && Alive(w, x)
    ensures Alive(w', x) <==> x != y
  {
  }

  /** A dentry whose last reference is dropped stays, as the first of the unused ones, exactly when it is on a hash
      chain and not unwanted; nothing else changes then. */
  lemma LastPut(h: Hash, w: World, w': World, x: nat, unwanted: set<nat>)
    requires Good(h, w) && Puts(h, w, w', x, unwanted) && w.s.count[x] == 1
    ensures Alive(w', x) <==> OnChain(w.s, x) && x !in unwanted
    ensures Alive(w', x) ==> w'.s == w.s.(count := w.s.count[x := 0], lru := [x] + w.s.lru, unused := w.s.unused + 1)
  {
    var d, top :| InOrder(h, w, d, top);
    ChainKnown(h, w.s, x);
    assert w.s.alive[x];
    hide HashOk, OnChain, Tree, CountOk, LruOk;
  }

  lemma PutsLeaves(h: Hash, w: World, w': World, y: nat, unwanted: set<nat>, x: nat)
    requires Good(h, w) && Puts(h, w, w', y, unwanted) && Alive(w, x)
    ensures Alive(w', x) <==> !(x == y && PutAway(h, w, w', x, unwanted))
  {
    var d, top :| InOrder(h, w, d, top);
    PutCases(h, w.s, w.held, unwanted, d, top, y);
    ChainKnown(h, w.s, y);
    hide HashOk, OnChain, Tree, CountOk, LruOk, InOrder, Put;
    if w.s.count[y] <= 1 && !Stays(h, w.s, unwanted, y) {
      FreesOnly(h, w, w', y, x);
    }
  }

  lemma PrunesLeaves(h: Hash, w: World, w': World, y: nat, x: nat)
    requires Prunes(h, w, w', y) && Alive(w, x)
    ensures Alive(w', x) <==> !(x == y && ThrownAway(h, w, w', x))
  {
    if !w.s.used[y] {
      FreesOnly(h, w, w', y, x);
    }
  }

  /** The other steps free nothing. */
  lemma OthersStay(h: Hash, w: World, w': World, x: nat)
    requires Next(h, w, w') && Alive(w, x)
    requires !(exists y, unwanted :: Puts(h, w, w', y, unwanted)) && !(exists y :: Prunes(h, w, w', y))
    ensures Alive(w', x)
  {
    hide Puts, Prunes, CanMove, Hashed, Below, Tree, NameOk, Text;
    if y: nat :| Gets(h, w, w', y) {
    } else if p: nat, name :| Allocs(h, w, w', p, name) {
    } else if name :| AllocsRoot(h, w, w', name) {
    } else if y: nat :| Hashes(h, w, w', y) {
    } else if d, top, y: nat, z: nat :| Moves(h, w, w', d, top, y, z) {
    } else {
      var y: nat :| Selects(h, w, w', y);
    }
  }

  /** A step frees x exactly when it drops the last reference to it while it is on no hash chain or unwanted, or throws
      it away as the last of the unused ones. */
  lemma NextLeaves(h: Hash, w: World, w': World, x: nat)
    requires Good(h, w) && Next(h, w, w') && Alive(w, x)
    ensures Alive(w', x) <==> !Leaves(h, w, w', x)
  {
    hide Puts, Prunes, Good, Next, Alive;
    if unwanted :| PutAway(h, w, w', x, unwanted) {
      PutsLeaves(h, w, w', x, unwanted, x);
    } else if ThrownAway(h, w, w', x) {
      PrunesLeaves(h, w, w', x, x);
    } else if y: nat, unwanted :| Puts(h, w, w', y, unwanted) {
      PutsLeaves(h, w, w', y, unwanted, x);
    } else if y: nat :| Prunes(h, w, w', y) {
      PrunesLeaves(h, w, w', y, x);
    } else {
      OthersStay(h, w, w', x);
    }
  }

  /** In every run a dentry that is freed between two states is freed by one step of those, and by no other way. */
  lemma {:induction false} RunLeaves(h: Hash, run: seq<World>, buckets: nat, i: nat, k: nat, x: nat)
    requires Run(h, run, buckets) && i <= k < |run| && Alive(run[i], x)
    ensures Alive(run[k], x) || exists j :: i <= j < k && Alive(run[j], x) && Leaves(h, run[j], run[j + 1], x)
    decreases k - i
  {
    hide Next, Leaves, Alive;
    if i < k {
      assert Next(h, run[i], run[i + 1]);
      RunGood(h, run, buckets, i);
      NextLeaves(h, run[i], run[i + 1], x);
      if Alive(run[i + 1], x) {
        RunLeaves(h, run, buckets, i + 1, k, x);
      }
    }
  }

  predicate Used(w: World, x: nat) {
    x < |w.s.used| && w.s.used[x]
  }

  /** prune_dcache comes by x, which was used lately, and spares it. */
  ghost predicate Spared(h: Hash, w: World, w': World, x: nat) {
    && Prunes(h, w, w', x) && Used(w, x) && Alive(w, x) && Alive(w', x) && !Used(w', x)
    && w.s.lru != [] && x == w.s.lru[|w.s.lru| - 1] && w'.s.lru != [] && w'.s.lru[0] == x
  }

  /** Only being spared takes the mark from a dentry. */
  lemma NextUsed(h: Hash, w: World, w': World, x: nat)
    requires Good(h, w) && Next(h, w, w') && Used(w, x) && Alive(w, x)
    ensures Used(w', x) || Spared(h, w, w', x)
  {
    hide Puts, Prunes, Good, Gets, Allocs, AllocsRoot, Hashes, Moves, Selects;
    if y: nat :| Prunes(h, w, w', y) {
      PrunesUsed(h, w, w', y, x);
    } else {
      OthersUsed(h, w, w', x);
    }
  }

  lemma PrunesUsed(h: Hash, w: World, w': World, y: nat, x: nat)
    requires Prunes(h, w, w', y) && Used(w, x) && Alive(w, x)
    ensures Used(w', x) || Spared(h, w, w', x)
  {
  }

  lemma OthersUsed(h: Hash, w: World, w': World, x: nat)
    requires Next(h, w, w') && Used(w, x) && !exists y :: Prunes(h, w, w', y)
    ensures Used(w', x)
  {
    hide Prunes, CanMove, Hashed, Below, Tree, NameOk, Text;
    if y: nat, unwanted :| Puts(h, w, w', y, unwanted) {
    } else if y: nat :| Gets(h, w, w', y) {
    } else if p: nat, name :| Allocs(h, w, w', p, name) {
    } else if name :| AllocsRoot(h, w, w', name) {
    } else if y: nat :| Hashes(h, w, w', y) {
    } else if d, top, y: nat, z: nat :| Moves(h, w, w', d, top, y, z) {
    } else {
      var y: nat :| Selects(h, w, w', y);
    }
  }

  /** In every run a dentry with the mark of a lookup is not thrown away before it has been spared once. */
  lemma {:induction false} RunSpared(h: Hash, run: seq<World>, buckets: nat, i: nat, k: nat, x: nat)
    requires Run(h, run, buckets) && i <= k && k + 1 < |run| && Used(run[i], x)
    requires (forall j :: i <= j <= k ==> Alive(run[j], x)) && ThrownAway(h, run[k], run[k + 1], x)
    ensures exists j :: i <= j < k && Spared(h, run[j], run[j + 1], x)
    decreases k - i
  {
    hide Next, Spared, Alive, Prunes, Run;
    RunStepAt(h, run, buckets, i);
    RunGood(h, run, buckets, i);
    assert i < k;
    assert Alive(run[i], x);
    NextUsed(h, run[i], run[i + 1], x);
    if Used(run[i + 1], x) {
      RunSpared(h, run, buckets, i + 1, k, x);
    }
  }

  lemma RunStepAt(h: Hash, run: seq<World>, buckets: nat, i: nat)
    requires Run(h, run, buckets) && i + 1 < |run|
    ensures Next(h, run[i], run[i + 1])
  {
  }

  lemma KeptLeaves(h: Hash, w: World, w': World, x: nat)
    requires Leaves(h, w, w', x) && OnChain(w.s, x) && !Condemned(h, w, w', x)
    ensures ThrownAway(h, w, w', x)
  {
    hide OnChain, Puts, ThrownAway;
    forall unwanted: set<nat> | x in unwanted ensures !PutAway(h, w, w', x, unwanted) {
      assert !Puts(h, w, w', x, unwanted);
    }
  }

  /** In every run: a dentry that is on a hash chain all the time, and that its filesystem never wants deleted, leaves
      the cache by pruning only, as the last of the unused ones and not used lately. */
  lemma RunPruned(h: Hash, run: seq<World>, buckets: nat, i: nat, k: nat, x: nat)
    requires Run(h, run, buckets) && i <= k < |run| && Alive(run[i], x) && !Alive(run[k], x)
    requires forall j :: i <= j < k && Alive(run[j], x) ==>
               OnChain(run[j].s, x) && !Condemned(h, run[j], run[j + 1], x)
    ensures exists j :: i <= j < k && Alive(run[j], x) && ThrownAway(h, run[j], run[j + 1], x)
  {
    hide Run, Alive, OnChain, Leaves, Condemned, ThrownAway;
    RunLeaves(h, run, buckets, i, k, x);
    var j :| i <= j < k && Alive(run[j], x) && Leaves(h, run[j], run[j + 1], x);
    KeptLeaves(h, run[j], run[j + 1], x);
  }
}
