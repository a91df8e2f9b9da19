/** Every run of the directory cache (fs/dcache.c): whatever the holders of references do, in any order. What happens
    while dcache_lock is held is one step; freeing a dentry gives the lock up before its parent is put. */
module DentryRuns {
  import opened Dentries
  import opened DentryMove
  import opened DentryShrink
  import opened TreeWalk

  /** The cache, and how many references to each dentry are held outside of it. */
  datatype World = World(s: Dcache, held: seq<nat>)

  ghost predicate InOrder(h: Hash, w: World, d: seq<nat>, top: nat) {
    Inv(h, w.s, w.held, d, top)
  }

  ghost predicate Good(h: Hash, w: World) {
    exists d, top :: InOrder(h, w, d, top)
  }

  /** The ranges that every step relies on. */
  ghost predicate Fit(h: Hash, w: World, x: nat) {
    Sized(w.s) && InRange(h, |w.s.hash|) && |w.held| == |w.s.name| && x < |w.s.name|
  }

  // ---------------------------------------------------------------- the steps

  /** A dentry is freed, and the reference it had to its parent is in the hands of whoever freed it. */
  function Frees(h: Hash, w: World, x: nat): World
    requires Sized(w.s) && x < |w.s.name| == |w.held| && Chain(h, w.s, x) < |w.s.hash|
  {
    World(Gone(h, w.s, x), GoneHeld(w.s, w.held, x))
  }

  /** One round of dput: one reference less, and at zero the dentry goes to the unused ones or is freed. */
  function Round(h: Hash, w: World, x: nat, unwanted: set<nat>): World
    requires Sized(w.s) && x < |w.s.name| == |w.held| && Chain(h, w.s, x) < |w.s.hash| && w.held[x] > 0
  {
    var s, held := w.s, w.held[x := w.held[x] - 1];
    if s.count[x] > 1 then World(s.(count := s.count[x := s.count[x] - 1]), held)
    else if Stays(h, s, unwanted, x) then World(s.(count := s.count[x := 0], lru := [x] + s.lru,
        unused := s.unused + 1), held)
    else Frees(h, w, x)
  }

  ghost predicate Puts(h: Hash, w: World, w': World, x: nat, unwanted: set<nat>) {
    Fit(h, w, x) && w.held[x] > 0 && w' == Round(h, w, x, unwanted)
  }

  /** d_lookup of a hashed dentry; dget_locked. */
  ghost predicate Gets(h: Hash, w: World, w': World, x: nat) {
    && Fit(h, w, x) && w.s.alive[x]
    && (w' == World(Touched(w.s, x), w.held[x := w.held[x] + 1]) ||
       w' == World(Got(w.s, x), w.held[x := w.held[x] + 1]))
  }

  /** d_alloc. */
  ghost predicate Allocs(h: Hash, w: World, w': World, p: nat, name: Name) {
    Fit(h, w, p) && NameOk(name) && w.held[p] > 0 && w' == World(Alloced(w.s, p, name), w.held + [1])
  }

  ghost predicate AllocsRoot(h: Hash, w: World, w': World, name: Name) {
    Sized(w.s) && NameOk(name) && w' == World(AllocedRoot(w.s, name), w.held + [1])
  }

  /** d_rehash and d_drop. */
  ghost predicate Hashes(h: Hash, w: World, w': World, x: nat) {
    && Fit(h, w, x)
    && (|| (w.s.alive[x] && !Hashed(h, w.s, x) && w' == World(Rehashed(h, w.s, x), w.held))
        || w' == World(Dropped(h, w.s, x), w.held))
  }

  /** d_move behind the guards of rename: neither dentry is an ancestor of the other. */
  ghost predicate Moves(h: Hash, w: World, w': World, d: seq<nat>, top: nat, x: nat, y: nat) {
    && Tree(w.s.t, d, top) && CanMove(h, w.s, x, y) && !Below(w.s.t, d, top, x, y) && !Below(w.s.t, d, top, y, x)
    && w' == World(Moved(h, w.s, x, y), w.held)
  }

  /** select_parent moves an unused child to the end of the list of unused dentries. */
  ghost predicate Selects(h: Hash, w: World, w': World, x: nat) {
    Fit(h, w, x) && w.s.t.parent[x] != x && w.s.count[x] == 0 && w' == World(w.s.(lru := ToEnd(w.s.lru, x)), w.held)
  }

  /** prune_dcache looks at the last of the unused dentries: it is spared, or freed. */
  ghost predicate Prunes(h: Hash, w: World, w': World, x: nat) {
    && Fit(h, w, x) && w.s.lru != [] && x == w.s.lru[|w.s.lru| - 1]
    && w' == if w.s.used[x] then World(Rotated(w.s), w.held) else Frees(h, w, x)
  }

  ghost predicate Next(h: Hash, w: World, w': World) {
    || (exists x, unwanted :: Puts(h, w, w', x, unwanted))
    || (exists x :: Gets(h, w, w', x))
    || (exists p, name :: Allocs(h, w, w', p, name))
    || (exists name :: AllocsRoot(h, w, w', name))
    || (exists x :: Hashes(h, w, w', x))
    || (exists d, top, x, y :: Moves(h, w, w', d, top, x, y))
    || (exists x :: Selects(h, w, w', x))
    || (exists x :: Prunes(h, w, w', x))
  }

  // ---------------------------------------------------------------- every step keeps the cache in order

  lemma PutsKeeps(h: Hash, w: World, w': World, d: seq<nat>, top: nat, x: nat, unwanted: set<nat>)
    requires InOrder(h, w, d, top) && Puts(h, w, w', x, unwanted)
    ensures InOrder(h, w', d, top)
  {
    hide Tree, HashOk, CountOk, LruOk, Gone, GoneHeld;
    PutCases(h, w.s, w.held, unwanted, d, top, x);
    if w.s.count[x] > 1 || Stays(h, w.s, unwanted, x) {
      PutStops(h, w.s, w.held, unwanted, d, top, x);
    } else {
      GoneKeeps(h, w.s, w.held, d, top, x);
    }
  }

  lemma GetsKeeps(h: Hash, w: World, w': World, d: seq<nat>, top: nat, x: nat)
    requires InOrder(h, w, d, top) && Gets(h, w, w', x)
    ensures InOrder(h, w', d, top)
  {
    hide Tree, HashOk, CountOk, LruOk, Got, Touched;
    GotKeeps(h, w.s, w.held, d, top, x);
    TouchKeeps(h, w.s, w.held, d, top, x);
  }

  lemma AllocsKeeps(h: Hash, w: World, w': World, d: seq<nat>, top: nat, p: nat, name: Name)
    requires InOrder(h, w, d, top) && Allocs(h, w, w', p, name)
    ensures Good(h, w')
  {
    hide Tree, HashOk, CountOk, LruOk, Alloced;
    Ranges(h, w.s, w.held, d, top, p);
    AllocKeeps(h, w.s, w.held, d, top, p, name);
    assert InOrder(h, w', d + [d[p] + 1], top + 1);
  }

  lemma AllocsRootKeeps(h: Hash, w: World, w': World, d: seq<nat>, top: nat, name: Name)
    requires InOrder(h, w, d, top) && AllocsRoot(h, w, w', name)
    ensures Good(h, w')
  {
    hide Tree, HashOk, CountOk, LruOk, AllocedRoot;
    AllocRootKeeps(h, w.s, w.held, d, top, name);
    assert InOrder(h, w', d + [0], top);
  }

  lemma HashesKeeps(h: Hash, w: World, w': World, d: seq<nat>, top: nat, x: nat)
    requires InOrder(h, w, d, top) && Hashes(h, w, w', x)
    ensures InOrder(h, w', d, top)
  {
    hide Tree, HashOk, CountOk, LruOk, Hashed, Dropped, Rehashed;
    if w' == World(Dropped(h, w.s, x), w.held) {
      DropKeeps(h, w.s, w.held, d, top, x);
    } else {
      RehashKeeps(h, w.s, w.held, d, top, x);
    }
  }

  lemma MovesKeeps(h: Hash, w: World, w': World, d0: seq<nat>, top0: nat, d: seq<nat>, top: nat, x: nat, y: nat)
    requires InOrder(h, w, d0, top0) && Moves(h, w, w', d, top, x, y)
    ensures Good(h, w')
  {
    hide Tree, HashOk, CountOk, LruOk, Moved, Below;
    assert InOrder(h, w, d, top);
    MovedKeeps(h, w.s, w.held, d, top, x, y);
    var d', top' :| Inv(h, Moved(h, w.s, x, y), w.held, d', top');
    assert InOrder(h, w', d', top');
  }

  lemma SelectsKeeps(h: Hash, w: World, w': World, d: seq<nat>, top: nat, x: nat)
    requires InOrder(h, w, d, top) && Selects(h, w, w', x)
    ensures InOrder(h, w', d, top)
  {
    hide Tree, HashOk, CountOk, LruOk, ToEnd;
    ReorderKeeps(h, w.s, w.held, d, top, x);
  }

  lemma PrunesKeeps(h: Hash, w: World, w': World, d: seq<nat>, top: nat, x: nat)
    requires InOrder(h, w, d, top) && Prunes(h, w, w', x)
    ensures InOrder(h, w', d, top)
  {
    hide Tree, HashOk, CountOk, LruOk, Rotated, Gone, GoneHeld;
    LastUnused(h, w.s, w.held, d, top);
    if w.s.used[x] {
      RotateKeeps(h, w.s, w.held, d, top);
    } else {
      GoneKeeps(h, w.s, w.held, d, top, x);
    }
  }

  lemma NextKeeps(h: Hash, w: World, w': World)
    requires Good(h, w) && Next(h, w, w')
    ensures Good(h, w')
  {
    hide InOrder, Puts, Gets, Allocs, AllocsRoot, Hashes, Moves, Selects, Prunes;
    var d, top :| InOrder(h, w, d, top);
    if x, unwanted :| Puts(h, w, w', x, unwanted) {
      PutsKeeps(h, w, w', d, top, x, unwanted);
    } else if x :| Gets(h, w, w', x) {
      GetsKeeps(h, w, w', d, top, x);
    } else if p, name :| Allocs(h, w, w', p, name) {
      AllocsKeeps(h, w, w', d, top, p, name);
    } else if name :| AllocsRoot(h, w, w', name) {
      AllocsRootKeeps(h, w, w', d, top, name);
    } else if x :| Hashes(h, w, w', x) {
      HashesKeeps(h, w, w', d, top, x);
    } else if d', top', x, y :| Moves(h, w, w', d', top', x, y) {
      MovesKeeps(h, w, w', d, top, d', top', x, y);
    } else if x :| Selects(h, w, w', x) {
      SelectsKeeps(h, w, w', d, top, x);
    } else {
      var x :| Prunes(h, w, w', x);
      PrunesKeeps(h, w, w', d, top, x);
    }
  }

  // ---------------------------------------------------------------- what the calls do is a step

  lemma PutStep(h: Hash, w: World, d: seq<nat>, top: nat, x: nat, unwanted: set<nat>)
    requires InOrder(h, w, d, top) && x < |w.s.name| && w.held[x] > 0
    ensures Fit(h, w, x) && Next(h, w, Round(h, w, x, unwanted))
  {
    hide Gone, Stays;
    assert Puts(h, w, Round(h, w, x, unwanted), x, unwanted);
  }

  lemma RoundFits(h: Hash, w: World, d: seq<nat>, top: nat, x: nat, unwanted: set<nat>)
    requires InOrder(h, w, d, top) && x < |w.s.name| && w.held[x] > 0
    ensures Fit(h, w, x) && Tree(w.s.t, d, top) && InOrder(h, Round(h, w, x, unwanted), d, top)
    ensures var s' := Round(h, w, x, unwanted).s;
            |s'.name| == |w.s.name| && |s'.hash| == |w.s.hash| && Sized(s') && Tree(s'.t, d, top)
  {
    PutStep(h, w, d, top, x, unwanted);
    var w' := Round(h, w, x, unwanted);
    PutsKeeps(h, w, w', d, top, x, unwanted);
    GoneNames(h, w.s, x);
    hide Tree, Stays, Gone, InRange;
  }

  /** A round of dput, and the rounds that are still to come. */
  lemma RoundPuts(h: Hash, w: World, d: seq<nat>, top: nat, x: nat, unwanted: set<nat>)
    requires InOrder(h, w, d, top) && x < |w.s.name| && w.held[x] > 0
    ensures Fit(h, w, x) && Tree(w.s.t, d, top) && InOrder(h, Round(h, w, x, unwanted), d, top)
    ensures var w', p := Round(h, w, x, unwanted), w.s.t.parent[x];
            var freed := w.s.count[x] <= 1 && !Stays(h, w.s, unwanted, x);
            && |w'.s.name| == |w.s.name| && |w'.s.hash| == |w.s.hash| && Sized(w'.s) && Tree(w'.s.t, d, top)
            && (!freed || p == x ==>
                  w'.s == Put(h, w.s, unwanted, d, top, x) && w'.held == w.held[x := w.held[x] - 1])
            && (freed && p != x ==>
                  && p < |w.s.name| == |w'.held| && d[p] < d[x] && w'.held[p] > 0
                  && Put(h, w'.s, unwanted, d, top, p) == Put(h, w.s, unwanted, d, top, x)
                  && w'.held[p := w'.held[p] - 1] == w.held[x := w.held[x] - 1])
  {
    RoundFits(h, w, d, top, x, unwanted);
    PutCases(h, w.s, w.held, unwanted, d, top, x);
    Ranges(h, w.s, w.held, d, top, x);
    hide Put, Inv, Tree, Stays, Gone, InRange, Sized;
    if w.s.count[x] <= 1 && !Stays(h, w.s, unwanted, x) {
      var held, p := w.held, w.s.t.parent[x];
      assert p != x ==> held[x := 0][p := held[p] + 1][p := held[p]] == held[x := 0];
    }
  }

  lemma GoneNames(h: Hash, s: Dcache, x: nat)
    requires Sized(s) && x < |s.name| && Chain(h, s, x) < |s.hash|
    ensures |Gone(h, s, x).name| == |s.name| && |Gone(h, s, x).hash| == |s.hash|
  {
  }

  lemma GetStep(h: Hash, w: World, d: seq<nat>, top: nat, x: nat)
    requires InOrder(h, w, d, top) && x < |w.s.name| && w.s.alive[x]
    ensures Fit(h, w, x) && Next(h, w, World(Got(w.s, x), w.held[x := w.held[x] + 1]))
    ensures Next(h, w, World(Touched(w.s, x), w.held[x := w.held[x] + 1]))
  {
    hide Got, Touched;
    assert Gets(h, w, World(Got(w.s, x), w.held[x := w.held[x] + 1]), x);
    assert Gets(h, w, World(Touched(w.s, x), w.held[x := w.held[x] + 1]), x);
  }

  lemma AllocStep(h: Hash, w: World, d: seq<nat>, top: nat, p: nat, name: Name)
    requires InOrder(h, w, d, top) && p < |w.s.name| && NameOk(name) && w.held[p] > 0
    ensures Fit(h, w, p) && Next(h, w, World(Alloced(w.s, p, name), w.held + [1]))
  {
    hide NameOk, Alloced;
    assert Allocs(h, w, World(Alloced(w.s, p, name), w.held + [1]), p, name);
  }

  lemma AllocRootStep(h: Hash, w: World, name: Name)
    requires Sized(w.s) && NameOk(name)
    ensures Next(h, w, World(AllocedRoot(w.s, name), w.held + [1]))
  {
    hide NameOk, AllocedRoot;
    assert AllocsRoot(h, w, World(AllocedRoot(w.s, name), w.held + [1]), name);
  }

  lemma RehashStep(h: Hash, w: World, d: seq<nat>, top: nat, x: nat)
    requires InOrder(h, w, d, top) && x < |w.s.name| && w.s.alive[x] && !Hashed(h, w.s, x)
    ensures Next(h, w, World(Rehashed(h, w.s, x), w.held))
  {
    hide Hashed, Rehashed;
    assert Hashes(h, w, World(Rehashed(h, w.s, x), w.held), x);
  }

  lemma DropStep(h: Hash, w: World, d: seq<nat>, top: nat, x: nat)
    requires InOrder(h, w, d, top) && x < |w.s.name|
    ensures Next(h, w, World(Dropped(h, w.s, x), w.held))
  {
    hide Hashed, Dropped;
    assert Hashes(h, w, World(Dropped(h, w.s, x), w.held), x);
  }

  lemma MoveStep(h: Hash, w: World, d: seq<nat>, top: nat, x: nat, y: nat)
    requires InOrder(h, w, d, top) && CanMove(h, w.s, x, y) && !Below(w.s.t, d, top, x, y)
    requires !Below(w.s.t, d, top, y, x)
    ensures Next(h, w, World(Moved(h, w.s, x, y), w.held))
  {
    hide Tree, CanMove, Below, Moved;
    assert Moves(h, w, World(Moved(h, w.s, x, y), w.held), d, top, x, y);
  }

  lemma SelectStep(h: Hash, w: World, d: seq<nat>, top: nat, x: nat)
    requires InOrder(h, w, d, top) && x < |w.s.name| && w.s.t.parent[x] != x && w.s.count[x] == 0
    ensures Next(h, w, World(w.s.(lru := ToEnd(w.s.lru, x)), w.held))
  {
    hide ToEnd;
    assert Selects(h, w, World(w.s.(lru := ToEnd(w.s.lru, x)), w.held), x);
  }

  lemma PruneStep(h: Hash, w: World, d: seq<nat>, top: nat)
    requires InOrder(h, w, d, top) && w.s.lru != []
    ensures var x := w.s.lru[|w.s.lru| - 1];
            Fit(h, w, x) && Next(h, w, if w.s.used[x] then World(Rotated(w.s), w.held) else Frees(h, w, x))
  {
    hide Gone, Rotated;
    var x := w.s.lru[|w.s.lru| - 1];
    assert x in w.s.lru;
    assert Prunes(h, w, if w.s.used[x] then World(Rotated(w.s), w.held) else Frees(h, w, x), x);
  }

  // ---------------------------------------------------------------- runs

  /** From an empty cache. */
  ghost predicate Run(h: Hash, run: seq<World>, buckets: nat) {
    && run != [] && InRange(h, buckets) && run[0] == World(Empty(buckets), [])
    && forall i :: 0 <= i < |run| - 1 ==> Next(h, run[i], run[i + 1])
  }

  lemma EmptyGood(h: Hash, buckets: nat)
    requires InRange(h, buckets)
    ensures Good(h, World(Empty(buckets), []))
  {
    hide Tree, HashOk, CountOk, LruOk;
    EmptyHash(h, buckets);
    EmptyTree(buckets);
    EmptyCounts(buckets);
    EmptyLru(buckets);
    assert InOrder(h, World(Empty(buckets), []), [], 0);
  }

  lemma {:induction false} RunGood(h: Hash, run: seq<World>, buckets: nat, i: nat)
    requires Run(h, run, buckets) && i < |run|
    ensures Good(h, run[i])
  {
    if i == 0 {
      EmptyGood(h, buckets);
    } else {
      RunGood(h, run, buckets, i - 1);
      assert Next(h, run[i - 1], run[i - 1 + 1]);
      NextKeeps(h, run[i - 1], run[i]);
    }
  }

  /** What the invariant says of one dentry. */
  predicate Exact(w: World, x: nat) {
    && x < |w.s.count| == |w.held| == |w.s.t.kids| == |w.s.alive|
    && w.s.count[x] == w.held[x] + |w.s.t.kids[x]|
    && (x in w.s.lru <==> w.s.alive[x] && w.s.count[x] == 0)
    && (x in w.s.lru ==> w.s.t.kids[x] == [] && w.held[x] == 0)
    && (w.held[x] > 0 || w.s.t.kids[x] != [] ==> w.s.alive[x])
  }

  /** In every state of every run: d_count is the holders and the children, the unused list holds exactly the live
      dentries without references, all of them leaves, nr_unused is its length, and nothing is freed that is held or
      has children. */
  lemma RunExact(h: Hash, run: seq<World>, buckets: nat, i: nat, x: nat)
    requires Run(h, run, buckets) && i < |run| && x < |run[i].s.name|
    ensures Exact(run[i], x) && run[i].s.unused == |run[i].s.lru|
  {
    RunGood(h, run, buckets, i);
    var d, top :| InOrder(h, run[i], d, top);
    ExactNow(h, run[i], d, top, x);
  }

  lemma ExactNow(h: Hash, w: World, d: seq<nat>, top: nat, x: nat)
    requires InOrder(h, w, d, top) && x < |w.s.name|
    ensures Exact(w, x) && w.s.unused == |w.s.lru|
  {
    assert w.s.count[x] == w.held[x] + |w.s.t.kids[x]|;
    assert !w.s.alive[x] ==> w.held[x] == 0 && w.s.t.kids[x] == [];
  }
}
