/** Shrinking the directory cache (fs/dcache.c): the list of unused dentries, the walk that selects from it, and what
    freeing dentries leaves alone. */
module DentryShrink {
  import opened Dentries
  import opened Lists
  import opened TreeMoves
  import opened TreeWalk

  // ---------------------------------------------------------------- lists

  function Trues(s: seq<bool>): nat {
    if s == [] then 0 else (if s[0] then 1 else 0) + Trues(s[1..])
  }

  lemma {:induction false} TruesLess(s: seq<bool>, s': seq<bool>)
    requires |s| == |s'| && forall i :: 0 <= i < |s| && s'[i] ==> s[i]
    ensures Trues(s') <= Trues(s)
    ensures (exists i :: 0 <= i < |s| && s[i] && !s'[i]) ==> Trues(s') < Trues(s)
  {
    if s != [] {
      TruesLess(s[1..], s'[1..]);
      if i :| 0 <= i < |s| && s[i] && !s'[i] {
        assert i > 0 ==> s[1..][i - 1] && !s'[1..][i - 1];
      }
    }
  }

  /** x goes to the end of the list it is in. */
  function ToEnd(s: seq<nat>, x: nat): seq<nat> {
    Minus(s, x) + [x]
  }

  lemma ToEndSame(s: seq<nat>, x: nat)
    requires NoDup(s) && x in s
    ensures NoDup(ToEnd(s, x)) && |ToEnd(s, x)| == |s|
    ensures forall y :: y in ToEnd(s, x) <==> y in s
  {
    MinusNoDup(s, x);
    MinusLength(s, x);
    NoDupAppend(Minus(s, x), [x]);
  }

  function Set(s: seq<nat>): set<nat> {
    set x | x in s
  }

  /** The selected go to the end, in the order of selection. */
  function Selected(lru: seq<nat>, sel: seq<nat>): seq<nat> {
    Keep(lru, Set(sel)) + sel
  }

  lemma SelectMore(lru: seq<nat>, sel: seq<nat>, x: nat)
    requires x !in sel
    ensures ToEnd(Selected(lru, sel), x) == Selected(lru, sel + [x])
  {
    MinusAppend(Keep(lru, Set(sel)), sel, x);
    MinusAbsent(sel, x);
    KeepMinus(lru, Set(sel), x);
    assert Set(sel + [x]) == Set(sel) + {x};
    var a := Minus(Keep(lru, Set(sel)), x);
    assert (a + sel) + [x] == a + (sel + [x]);
  }

  // ---------------------------------------------------------------- what a shrinking cache keeps

  /** Some dentries are freed. The others are where they were, under their names, hashed or not as before. */
  ghost predicate Shrunk(h: Hash, s: Dcache, s': Dcache) {
    && HashOk(h, s) && HashOk(h, s') && |s'.name| == |s.name| && s'.name == s.name
    && (forall x {:trigger s'.alive[x]} :: 0 <= x < |s.name| && s'.alive[x] ==>
          s.alive[x] && s'.t.parent[x] == s.t.parent[x] && (Hashed(h, s', x) <==> Hashed(h, s, x)))
  }

  lemma ShrunkTwice(h: Hash, s: Dcache, s1: Dcache, s2: Dcache)
    requires Shrunk(h, s, s1) && Shrunk(h, s1, s2)
    ensures Shrunk(h, s, s2)
  {
    forall x {:trigger s2.alive[x]} | 0 <= x < |s.name| && s2.alive[x]
      ensures s.alive[x] && s2.t.parent[x] == s.t.parent[x] && (Hashed(h, s2, x) <==> Hashed(h, s, x))
    {
      assert s1.alive[x];
    }
  }

  lemma GoneShrinks(h: Hash, s: Dcache, x: nat)
    requires HashOk(h, s) && x < |s.name|
    ensures Shrunk(h, s, Gone(h, s, x))
  {
    GoneHash(h, s, x);
  }

  lemma {:induction false} PutShrinks(h: Hash, s: Dcache, unwanted: set<nat>, d: seq<nat>, top: nat, x: nat)
    requires Tree(s.t, d, top) && HashOk(h, s) && x < |s.name|
    ensures Shrunk(h, s, Put(h, s, unwanted, d, top, x)) && Put(h, s, unwanted, d, top, x).used == s.used
    decreases d[x]
  {
    if s.count[x] <= 1 && !Stays(h, s, unwanted, x) {
      GoneShrinks(h, s, x);
      if s.t.parent[x] != x {
        var s1, p := Gone(h, s, x), s.t.parent[x];
        DetachKeepsTree(s.t, d, top, x);
        PutShrinks(h, s1, unwanted, d, top, p);
        ShrunkTwice(h, s, s1, Put(h, s1, unwanted, d, top, p));
      }
    }
  }

  lemma ShrunkLess(h: Hash, s: Dcache, s': Dcache, x: nat)
    requires Shrunk(h, s, s') && x < |s.name| && s.alive[x] && !s'.alive[x]
    ensures Trues(s'.alive) < Trues(s.alive)
  {
    assert forall i :: 0 <= i < |s.alive| && s'.alive[i] ==> s.alive[i];
    TruesLess(s.alive, s'.alive);
  }

  /** A dentry that is not on the list of unused ones is freed without touching that list. */
  lemma GoneOffList(h: Hash, s: Dcache, x: nat)
    requires Sized(s) && x < |s.name| && Chain(h, s, x) < |s.hash| && x !in s.lru
    ensures Gone(h, s, x).lru == s.lru && Gone(h, s, x).unused == s.unused
  {
    MinusAbsent(s.lru, x);
  }

  // ---------------------------------------------------------------- selecting and pruning

  /** The dentries of a list that nobody refers to. */
  function Idle(count: seq<int>, list: seq<nat>): seq<nat> {
    if list == [] then []
    else if list[0] < |count| && count[list[0]] == 0 then [list[0]] + Idle(count, list[1..]) else Idle(count, list[1..])
  }

  lemma {:induction false} IdleAppend(count: seq<int>, list: seq<nat>, x: nat)
    ensures Idle(count, list + [x]) ==
            if x < |count| && count[x] == 0 then Idle(count, list) + [x] else Idle(count, list)
  {
    if list != [] {
      IdleAppend(count, list[1..], x);
      assert (list + [x])[1..] == list[1..] + [x];
    }
  }

  lemma {:induction false} IdleIn(count: seq<int>, list: seq<nat>, x: nat)
    ensures x in Idle(count, list) <==> x in list && x < |count| && count[x] == 0
  {
    if list != [] {
      IdleIn(count, list[1..], x);
    }
  }

  /** The strict descendants of a dentry, in the order of the walk. */
  ghost function Descendants(t: Forest, d: seq<nat>, top: nat, p: nat): seq<nat>
    requires Tree(t, d, top) && p < |t.parent|
  {
    Rest(t, d, top, p, 0, p)
  }

  lemma DescendantsAre(t: Forest, d: seq<nat>, top: nat, p: nat)
    requires Tree(t, d, top) && p < |t.parent|
    ensures NoDup(Descendants(t, d, top, p))
    ensures forall x :: x in Descendants(t, d, top, p) <==> Below(t, d, top, x, p) && x != p
    ensures Below(t, d, top, p, p)
  {
    RestStart(t, d, top, p);
    WalkIsPreorder(t, d, top, p);
    assert Below(t, d, top, p, p);
    var r := Descendants(t, d, top, p);
    assert Pre(t, d, top, p) == [p] + r;
    hide Pre, Rest, Below, Tree;
    forall i, j | 0 <= i < j < |r| ensures r[i] != r[j] {
      assert r[i] == ([p] + r)[i + 1] && r[j] == ([p] + r)[j + 1];
    }
    forall i | 0 <= i < |r| ensures r[i] != p {
      assert r[i] == ([p] + r)[i + 1] && ([p] + r)[0] == p;
    }
  }

  lemma NothingSelected(lru: seq<nat>, count: seq<int>)
    ensures Idle(count, []) == [] && Selected(lru, []) == lru
  {
    KeepNone(lru, Set([]));
  }

  lemma OnceOnly(all: seq<nat>, seen: seq<nat>, k: nat, rest: seq<nat>)
    requires NoDup(all) && all == (seen + [k]) + rest
    ensures k !in seen
  {
    forall i | 0 <= i < |seen| ensures seen[i] != k {
      assert all[i] == seen[i] && all[|seen|] == k;
    }
  }

  /** The walk visits the i-th child of x next. */
  lemma StepDown(t: Forest, d: seq<nat>, top: nat, p: nat, x: nat, i: nat, all: seq<nat>, seen: seq<nat>)
    requires Tree(t, d, top) && Below(t, d, top, x, p) && i < |t.kids[x]| && NoDup(all)
    requires all == seen + Rest(t, d, top, x, i, p)
    ensures var k := t.kids[x][i];
            && k < |t.parent| && t.parent[k] == x != k && k !in seen && Below(t, d, top, k, p)
            && all == (seen + [k]) + Rest(t, d, top, k, 0, p)
            && |Rest(t, d, top, k, 0, p)| < |Rest(t, d, top, x, i, p)|
            && (t.kids[k] == [] ==> Rest(t, d, top, k, 0, p) == Rest(t, d, top, x, i + 1, p))
  {
    var k := t.kids[x][i];
    ChildOfOther(t, d, top, x, i);
    hide Rest, Below, Tree, NoDup;
    RestVisit(t, d, top, x, i, p);
    var rest := Rest(t, d, top, k, 0, p);
    assert all == (seen + [k]) + rest;
    OnceOnly(all, seen, k, rest);
  }

  /** Nothing is mounted on any of the dentries in list. */
  predicate Bare(list: seq<nat>, mounted: seq<nat>) {
    forall y :: y in list ==> y < |mounted| && mounted[y] == 0
  }

  lemma BareNone(mounted: seq<nat>)
    ensures Bare([], mounted)
  {
  }

  lemma BareStep(all: seq<nat>, seen: seq<nat>, k: nat, mounted: seq<nat>)
    requires Bare(seen, mounted) && k < |mounted|
    ensures mounted[k] == 0 ==> Bare(seen + [k], mounted)
    ensures mounted[k] != 0 && k in all ==> !Bare(all, mounted)
  {
  }

  lemma BareMeans(t: Forest, d: seq<nat>, top: nat, p: nat, mounted: seq<nat>)
    requires Tree(t, d, top) && p < |t.parent| == |mounted|
    ensures (exists x: nat :: Below(t, d, top, x, p) && mounted[x] != 0) <==>
            mounted[p] != 0 || !Bare(Descendants(t, d, top, p), mounted)
  {
    DescendantsAre(t, d, top, p);
    hide Tree, Descendants, Up;
    if !Bare(Descendants(t, d, top, p), mounted) {
      var y :| y in Descendants(t, d, top, p) && (y >= |mounted| || mounted[y] != 0);
      assert Below(t, d, top, y, p);
    }
  }

  lemma ChildOfOther(t: Forest, d: seq<nat>, top: nat, x: nat, i: nat)
    requires Tree(t, d, top) && x < |t.parent| && i < |t.kids[x]|
    ensures t.kids[x][i] < |t.parent| && t.parent[t.kids[x][i]] == x != t.kids[x][i]
  {
    assert t.kids[x][i] in t.kids[x];
  }

  /** Reordering the unused dentries leaves the cache in order. */
  lemma ReorderKeeps(h: Hash, s: Dcache, held: seq<nat>, d: seq<nat>, top: nat, x: nat)
    requires Inv(h, s, held, d, top) && x < |s.name| && s.t.parent[x] != x && s.count[x] == 0
    ensures Inv(h, s.(lru := ToEnd(s.lru, x)), held, d, top)
  {
    assert x in s.lru;
    ToEndSame(s.lru, x);
  }

  /** prune_one_dentry, for the last of the unused dentries. */
  ghost function Pruned(h: Hash, s: Dcache, unwanted: set<nat>, d: seq<nat>, top: nat, x: nat): Dcache
    requires Tree(s.t, d, top) && Sized(s) && InRange(h, |s.hash|) && x < |s.name|
  {
    var s1, p := Gone(h, s, x), s.t.parent[x];
    if p == x then s1
    else
      DetachKeepsTree(s.t, d, top, x);
      Put(h, s1, unwanted, d, top, p)
  }

  lemma LastUnused(h: Hash, s: Dcache, held: seq<nat>, d: seq<nat>, top: nat)
    requires Inv(h, s, held, d, top) && s.lru != []
    ensures var x := s.lru[|s.lru| - 1];
            && x < |s.name| == |s.used| && s.alive[x] && s.count[x] == 0 && s.t.kids[x] == [] && held[x] == 0
            && Gone(h, s, x).lru == s.lru[..|s.lru| - 1] && Gone(h, s, x).unused == s.unused - 1
  {
    var x := s.lru[|s.lru| - 1];
    assert x in s.lru;
    MinusLast(s.lru);
  }

  /** What freeing the last unused dentry changes. */
  lemma GoneLast(h: Hash, s: Dcache, x: nat, f: Forest)
    requires Sized(s) && x < |s.name| && Chain(h, s, x) < |s.hash| && s.lru != [] && s.count[x] == 0
    requires Gone(h, s, x).lru == s.lru[..|s.lru| - 1] && Gone(h, s, x).unused == s.unused - 1
    requires f == if s.t.parent[x] == x then s.t else DetachTree(s.t, x)
    ensures var b := Chain(h, s, x);
            Gone(h, s, x) == Dcache(f, s.alive[x := false], s.name, s.hash[b := Minus(s.hash[b], x)], s.count,
                                    s.lru[..|s.lru| - 1], s.unused - 1, s.used)
  {
    assert s.count[x := 0] == s.count;
  }

  /** Throwing away an unused dentry leaves the cache in order, and smaller, and frees nothing that is held. */
  lemma PruneKeeps(h: Hash, s: Dcache, held: seq<nat>, unwanted: set<nat>, d: seq<nat>, top: nat, x: nat)
    requires Inv(h, s, held, d, top) && x < |s.name| && s.alive[x] && s.t.kids[x] == [] && held[x] == 0
    ensures Inv(h, Pruned(h, s, unwanted, d, top, x), held, d, top)
    ensures Shrunk(h, s, Pruned(h, s, unwanted, d, top, x)) && Pruned(h, s, unwanted, d, top, x).used == s.used
    ensures Trues(Pruned(h, s, unwanted, d, top, x).alive) < Trues(s.alive)
  {
    var s1, held1, p := Gone(h, s, x), GoneHeld(s, held, x), s.t.parent[x];
    GoneKeeps(h, s, held, d, top, x);
    GoneShrinks(h, s, x);
    Ranges(h, s, held, d, top, x);
    hide Tree, HashOk, CountOk, LruOk, Put, Shrunk;
    if p == x {
      assert held[x := 0] == held;
      ShrunkLess(h, s, s1, x);
    } else {
      PutKeeps(h, s1, held1, unwanted, d, top, p);
      assert held1[p := held1[p] - 1] == held;
      var s2 := Put(h, s1, unwanted, d, top, p);
      PutShrinks(h, s1, unwanted, d, top, p);
      ShrunkTwice(h, s, s1, s2);
      StaysFreed(h, s1, s2, x);
      ShrunkLess(h, s, s2, x);
    }
  }

  /** In a shrunken cache nothing is below anything new. */
  lemma {:induction false} ShrunkBelow(h: Hash, s0: Dcache, s: Dcache, held: seq<nat>, d: seq<nat>, top: nat, x: nat,
                                       y: nat)
    requires Shrunk(h, s0, s) && Inv(h, s, held, d, top) && Tree(s0.t, d, top)
    requires Below(s.t, d, top, x, y) && s.alive[x]
    ensures Below(s0.t, d, top, x, y)
    decreases d[x]
  {
    ShrunkAt(h, s0, s, x);
    if x == y {
      BelowSelf(s0.t, d, top, x, y);
    } else {
      var p := s.t.parent[x];
      ParentBelow(s.t, d, top, x, y);
      ParentAlive(h, s, held, d, top, x);
      ShrunkBelow(h, s0, s, held, d, top, p, y);
      hide Below;
      BelowStep(s0.t, d, top, x, y);
    }
  }

  lemma ShrunkAt(h: Hash, s0: Dcache, s: Dcache, x: nat)
    requires Shrunk(h, s0, s) && x < |s.alive| && s.alive[x]
    ensures |s0.t.parent| == |s.t.parent| == |s.alive| == |s0.alive| && s.t.parent[x] == s0.t.parent[x]
  {
  }

  lemma ParentAlive(h: Hash, s: Dcache, held: seq<nat>, d: seq<nat>, top: nat, x: nat)
    requires Inv(h, s, held, d, top) && x < |s.alive| && s.alive[x] && s.t.parent[x] != x
    ensures s.t.parent[x] < |s.alive| && s.alive[s.t.parent[x]]
  {
    assert x in s.t.kids[s.t.parent[x]];
  }

  /** Whatever went from s to s' is one of the thrown dentries or above one. */
  ghost predicate GoneWith(s: Dcache, s': Dcache, d: seq<nat>, top: nat, thrown: seq<nat>)
    requires Tree(s.t, d, top)
  {
    && |s'.alive| == |s.alive|
    && forall y :: 0 <= y < |s.alive| && s.alive[y] && !s'.alive[y] ==>
         exists x :: x in thrown && Below(s.t, d, top, x, y)
  }

  lemma PrunedWith(h: Hash, s: Dcache, held: seq<nat>, unwanted: set<nat>, d: seq<nat>, top: nat, x: nat)
    requires Inv(h, s, held, d, top) && x < |s.name| && s.alive[x] && s.t.kids[x] == [] && held[x] == 0
    ensures Tree(s.t, d, top) && GoneWith(s, Pruned(h, s, unwanted, d, top, x), d, top, [x])
    ensures |Pruned(h, s, unwanted, d, top, x).alive| == |s.alive| && !Pruned(h, s, unwanted, d, top, x).alive[x]
  {
    var s1, p, s2 := Gone(h, s, x), s.t.parent[x], Pruned(h, s, unwanted, d, top, x);
    FreedNow(h, s, x);
    BelowSelf(s.t, d, top, x, x);
    if p != x {
      GoneHash(h, s, x);
      DetachKeepsTree(s.t, d, top, x);
      forall y | 0 <= y < |s.alive|
        ensures |s2.alive| == |s.alive| && (s2.alive[y] ==> s1.alive[y])
        ensures s.alive[y] && !s2.alive[y] ==> Below(s.t, d, top, x, y)
      {
        PutFreesDoomed(h, s1, unwanted, d, top, p, y);
        if s.alive[y] && !s2.alive[y] && y != x {
          assert Below(s1.t, d, top, p, y);
          UnderDetached(s.t, d, top, x, y);
        }
      }
    }
    hide Below;
    assert x in [x];
  }

  lemma UnderDetached(t: Forest, d: seq<nat>, top: nat, x: nat, y: nat)
    requires Tree(t, d, top) && x < |t.parent| && t.parent[x] != x && Tree(DetachTree(t, x), d, top)
    requires Below(DetachTree(t, x), d, top, t.parent[x], y)
    ensures Below(t, d, top, x, y)
  {
    DetachShrinks(t, d, top, x, t.parent[x], y);
    if x != y {
      BelowStep(t, d, top, x, y);
    } else {
      BelowSelf(t, d, top, x, x);
    }
  }

  lemma GoneMore(h: Hash, s0: Dcache, s: Dcache, held: seq<nat>, s': Dcache, d: seq<nat>, top: nat, thrown: seq<nat>,
                 x: nat)
    requires Shrunk(h, s0, s) && Inv(h, s, held, d, top) && Tree(s0.t, d, top) && Tree(s.t, d, top)
    requires GoneWith(s0, s, d, top, thrown) && GoneWith(s, s', d, top, [x]) && x < |s.alive| && s.alive[x]
    ensures GoneWith(s0, s', d, top, thrown + [x])
  {
    forall y | 0 <= y < |s0.alive| && s0.alive[y] && !s'.alive[y]
      ensures exists z :: z in thrown + [x] && Below(s0.t, d, top, z, y)
    {
      if s.alive[y] {
        assert Below(s.t, d, top, x, y);
        ShrunkBelow(h, s0, s, held, d, top, x, y);
        assert x in thrown + [x];
      } else {
        var z :| z in thrown && Below(s0.t, d, top, z, y);
        assert z in thrown + [x];
      }
    }
  }

  /** What prune_dcache has thrown away so far. */
  ghost predicate Thrown(s0: Dcache, s: Dcache, d: seq<nat>, top: nat, thrown: seq<nat>) {
    && Tree(s0.t, d, top) && GoneWith(s0, s, d, top, thrown) && NoDup(thrown) && |s.alive| == |s0.alive|
    && forall x :: x in thrown ==> x < |s.alive| && s0.alive[x] && !s.alive[x]
  }

  lemma ThrownSame(s0: Dcache, s: Dcache, s': Dcache, d: seq<nat>, top: nat, thrown: seq<nat>)
    requires Thrown(s0, s, d, top, thrown) && s'.alive == s.alive
    ensures Thrown(s0, s', d, top, thrown)
  {
  }

  lemma ThrownMore(h: Hash, s0: Dcache, s: Dcache, held: seq<nat>, s': Dcache, d: seq<nat>, top: nat,
                   thrown: seq<nat>, x: nat)
    requires Shrunk(h, s0, s) && Inv(h, s, held, d, top) && Thrown(s0, s, d, top, thrown) && Shrunk(h, s, s')
    requires Tree(s.t, d, top) && GoneWith(s, s', d, top, [x])
    requires x < |s.alive| == |s'.alive| && s.alive[x] && !s'.alive[x]
    ensures Thrown(s0, s', d, top, thrown + [x])
  {
    GoneMore(h, s0, s, held, s', d, top, thrown, x);
    assert x !in thrown;
    NoDupAppend(thrown, [x]);
    forall y | y in thrown + [x] ensures y < |s'.alive| && s0.alive[y] && !s'.alive[y] {
      if y != x {
        StaysFreed(h, s, s', y);
      }
    }
  }

  lemma ReorderNow(h: Hash, s: Dcache, held: seq<nat>, d: seq<nat>, top: nat)
    requires Inv(h, s, held, d, top)
    ensures Shrunk(h, s, s) && Thrown(s, s, d, top, [])
  {
    ReorderShrinks(h, s, s);
  }

  lemma StaysFreed(h: Hash, s: Dcache, s': Dcache, x: nat)
    requires Shrunk(h, s, s') && x < |s.name| && !s.alive[x]
    ensures !s'.alive[x]
  {
  }

  /** A dentry that was used lately goes to the front of the list and loses its mark. */
  function Rotated(s: Dcache): Dcache
    requires s.lru != [] && s.lru[|s.lru| - 1] < |s.used|
  {
    var x := s.lru[|s.lru| - 1];
    s.(used := s.used[x := false], lru := [x] + s.lru[..|s.lru| - 1])
  }

  lemma RotateKeeps(h: Hash, s: Dcache, held: seq<nat>, d: seq<nat>, top: nat)
    requires Inv(h, s, held, d, top) && s.lru != [] && s.lru[|s.lru| - 1] < |s.used|
    ensures Inv(h, Rotated(s), held, d, top) && Shrunk(h, s, Rotated(s))
    ensures s.used[s.lru[|s.lru| - 1]] ==> Trues(Rotated(s).used) < Trues(s.used)
  {
    var x, rest := s.lru[|s.lru| - 1], s.lru[..|s.lru| - 1];
    MinusLast(s.lru);
    MinusNoDup(s.lru, x);
    PushNoDup(rest, x);
    forall y {:trigger y in Rotated(s).lru} | y in Rotated(s).lru ensures y in s.lru {}
    TruesLess(s.used, Rotated(s).used);
  }

  /** d_lookup leaves the cache in order and finds what is known. */
  lemma LookupKeeps(h: Hash, s: Dcache, held: seq<nat>, d: seq<nat>, top: nat, p: nat, q: Qstr)
    requires Inv(h, s, held, d, top)
    ensures HashOk(h, s) && |s.used| == |s.count| == |s.name| == |held|
    ensures Found(h, s, p, q).None? ==> forall x :: !Known(h, s, x, p, q)
    ensures Found(h, s, p, q).Some? ==>
              var x := Found(h, s, p, q).value;
              && x < |s.name| && s.alive[x] && Inv(h, Touched(s, x), held[x := held[x] + 1], d, top)
              && HashOk(h, Touched(s, x)) && Known(h, Touched(s, x), x, p, q)
  {
    FoundIsKnown(h, s, p, q);
    var r := Found(h, s, p, q);
    if r.Some? {
      TouchKeeps(h, s, held, d, top, r.value);
      TouchKnown(h, s, r.value, r.value, p, q);
    }
  }

  lemma SameNames(h: Hash, s: Dcache, s': Dcache)
    requires Shrunk(h, s, s')
    ensures |s'.name| == |s.name|
  {
  }

  lemma ReorderShrinks(h: Hash, s: Dcache, s': Dcache)
    requires HashOk(h, s) && s' == s.(lru := s'.lru)
    ensures Shrunk(h, s, s')
  {
  }

  lemma NoneIdle(h: Hash, s: Dcache, held: seq<nat>, d: seq<nat>, top: nat, p: nat)
    requires Inv(h, s, held, d, top) && p < |s.name| && |Idle(s.count, Descendants(s.t, d, top, p))| == 0
    ensures |s.name| == |s.count|
    ensures forall x: nat :: Below(s.t, d, top, x, p) && x != p ==> x < |s.count| && s.count[x] > 0
  {
    DescendantsAre(s.t, d, top, p);
    forall x: nat | Below(s.t, d, top, x, p) && x != p ensures s.count[x] > 0 {
      IdleIn(s.count, Descendants(s.t, d, top, p), x);
      assert s.count[x] >= 0;
    }
  }
}
