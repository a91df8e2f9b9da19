/** The directory cache (fs/dcache.c): the tree of dentries, their names and hash chains, their counts and the
    list of unused ones. */
module Dentries {
  import opened Lists
  import opened TreeMoves
  import opened TreeWalk

  type Hash = (nat, nat) -> nat

  const DNAME_INLINE_LEN := 16

  /** d_name and d_iname: the text is in the dentry itself or, if ext is given, in a buffer of its own. */
  datatype Name = Name(inline: string, ext: Option<string>, len: nat, hash: nat)

  /** A name as a caller gives it. */
  datatype Qstr = Qstr(text: string, hash: nat)

  predicate NameOk(n: Name) {
    |n.inline| == DNAME_INLINE_LEN && if n.ext.Some? then n.len <= |n.ext.value| else n.len < DNAME_INLINE_LEN
  }

  function Text(n: Name): string
    requires NameOk(n)
  {
    if n.ext.Some? then n.ext.value[..n.len] else n.inline[..n.len]
  }

  /** The name d_alloc gives: inline if it fits. */
  function NewName(text: string, nameHash: nat): (n: Name)
    ensures NameOk(n) && Text(n) == text && n.hash == nameHash && (n.ext.None? <==> |text| < DNAME_INLINE_LEN)
  {
    if |text| > DNAME_INLINE_LEN - 1 then Name(seq(DNAME_INLINE_LEN, _ => '\0'), Some(text), |text|, nameHash)
    else Name(text + seq(DNAME_INLINE_LEN - |text|, _ => '\0'), None, |text|, nameHash)
  }

  /** alive tells which dentries are not freed; used is DCACHE_REFERENCED; lru and unused are dentry_unused and
      nr_unused. */
  datatype Dcache = Dcache(t: Forest, alive: seq<bool>, name: seq<Name>, hash: seq<seq<nat>>, count: seq<int>,
                           lru: seq<nat>, unused: int, used: seq<bool>)

  predicate Sized(s: Dcache) {
    && |s.t.parent| == |s.t.kids| == |s.alive| == |s.name| == |s.count| == |s.used|
    && (forall x {:trigger s.t.parent[x]} :: 0 <= x < |s.t.parent| ==> s.t.parent[x] < |s.t.parent|)
    && (forall x {:trigger s.name[x]} :: 0 <= x < |s.name| ==> NameOk(s.name[x]))
  }

  ghost predicate InRange(h: Hash, size: nat) {
    forall p, n :: h(p, n) < size
  }

  /** The chain a dentry belongs to. */
  function Chain(h: Hash, s: Dcache, x: nat): nat
    requires Sized(s) && x < |s.name|
  {
    h(s.t.parent[x], s.name[x].hash)
  }

  predicate Hashed(h: Hash, s: Dcache, x: nat)
    requires Sized(s) && x < |s.name| && Chain(h, s, x) < |s.hash|
  {
    x in s.hash[Chain(h, s, x)]
  }

  /** A dentry is in the chain of its parent and name hash or in none. */
  ghost predicate HashOk(h: Hash, s: Dcache) {
    && Sized(s) && InRange(h, |s.hash|)
    && (forall b {:trigger s.hash[b]} :: 0 <= b < |s.hash| ==> NoDup(s.hash[b]))
    && (forall b, x {:trigger x in s.hash[b]} :: 0 <= b < |s.hash| && x in s.hash[b] ==>
          x < |s.name| && s.alive[x] && Chain(h, s, x) == b)
  }

  /** held[x] counts the references from outside; the children of x have one each. */
  predicate CountOk(s: Dcache, held: seq<nat>) {
    && Sized(s) && |held| == |s.count|
    && (forall x {:trigger s.count[x]} :: 0 <= x < |s.count| ==> s.count[x] == held[x] + |s.t.kids[x]|)
    && (forall x {:trigger s.alive[x]} :: 0 <= x < |s.alive| && !s.alive[x] ==>
          held[x] == 0 && s.t.kids[x] == [] && s.t.parent[x] == x)
  }

  /** dentry_unused lists exactly the live dentries nobody refers to, and nr_unused says how many. */
  predicate LruOk(s: Dcache) {
    && Sized(s) && NoDup(s.lru) && s.unused == |s.lru|
    && (forall x {:trigger x in s.lru} :: x in s.lru ==> x < |s.count| && s.alive[x] && s.count[x] == 0)
    && (forall x {:trigger s.count[x]} :: 0 <= x < |s.count| && s.alive[x] && s.count[x] == 0 ==> x in s.lru)
  }

  ghost predicate Inv(h: Hash, s: Dcache, held: seq<nat>, d: seq<nat>, top: nat) {
    Tree(s.t, d, top) && HashOk(h, s) && CountOk(s, held) && LruOk(s)
  }

  function Empty(buckets: nat): Dcache {
    Dcache(Forest([], []), [], [], seq(buckets, _ => []), [], [], 0, [])
  }

  lemma EmptyHash(h: Hash, buckets: nat)
    requires InRange(h, buckets)
    ensures HashOk(h, Empty(buckets))
  {
    EmptyChains(buckets);
  }

  lemma EmptyTree(buckets: nat)
    ensures Tree(Empty(buckets).t, [], 0)
  {
  }

  lemma EmptyCounts(buckets: nat)
    ensures CountOk(Empty(buckets), [])
  {
  }

  lemma EmptyLru(buckets: nat)
    ensures LruOk(Empty(buckets))
  {
  }

  lemma EmptyChains(buckets: nat)
    ensures |Empty(buckets).hash| == buckets && Sized(Empty(buckets))
    ensures forall b {:trigger Empty(buckets).hash[b]} :: 0 <= b < buckets ==> Empty(buckets).hash[b] == []
  {
  }

  /** The ranges, for one dentry. */
  lemma Ranges(h: Hash, s: Dcache, held: seq<nat>, d: seq<nat>, top: nat, x: nat)
    requires Inv(h, s, held, d, top) && x < |s.name|
    ensures Sized(s) && |s.t.parent| == |s.t.kids| == |s.name| == |s.count| == |s.alive| == |s.used| == |held| == |d|
    ensures s.t.parent[x] < |s.name| && Chain(h, s, x) < |s.hash|
    ensures s.t.parent[x] != x ==> d[s.t.parent[x]] < d[x]
    ensures held[x] > 0 ==> s.alive[x] && s.count[x] > 0
  {
  }

  lemma TreeNow(h: Hash, s: Dcache, held: seq<nat>, d: seq<nat>, top: nat, p: nat)
    requires Inv(h, s, held, d, top) && p < |s.name|
    ensures Tree(s.t, d, top) && p < |s.t.parent| == |s.t.kids| == |s.name| == |d|
  {
  }

  /** What is held is not freed, and neither is anything above it. */
  lemma {:induction false} HeldAlive(h: Hash, s: Dcache, held: seq<nat>, d: seq<nat>, top: nat, x: nat, y: nat)
    requires Inv(h, s, held, d, top) && x < |held| && held[x] > 0 && Below(s.t, d, top, x, y)
    ensures s.alive[y]
  {
    AliveAbove(h, s, held, d, top, x, y);
  }

  lemma {:induction false} AliveAbove(h: Hash, s: Dcache, held: seq<nat>, d: seq<nat>, top: nat, x: nat, y: nat)
    requires Inv(h, s, held, d, top) && x < |s.alive| && s.alive[x] && Below(s.t, d, top, x, y)
    ensures s.alive[y]
    decreases d[x]
  {
    if x != y {
      var p := s.t.parent[x];
      assert x in s.t.kids[p];
      AliveAbove(h, s, held, d, top, p, y);
    }
  }

  // ---------------------------------------------------------------- freeing a dentry

  /** The dentry is taken off its chain, off its parent's list and off the list of unused ones. */
  function Gone(h: Hash, s: Dcache, x: nat): Dcache
    requires Sized(s) && x < |s.name| && Chain(h, s, x) < |s.hash|
  {
    var b := Chain(h, s, x);
    Dcache(if s.t.parent[x] == x then s.t else DetachTree(s.t, x), s.alive[x := false], s.name,
           s.hash[b := Minus(s.hash[b], x)], s.count[x := 0], Minus(s.lru, x),
           s.unused - (if x in s.lru then 1 else 0), s.used)
  }

  /** The reference the dentry had to its parent is now somebody else's to drop. */
  function GoneHeld(s: Dcache, held: seq<nat>, x: nat): seq<nat>
    requires Sized(s) && x < |held| == |s.count|
  {
    var p := s.t.parent[x];
    if p == x then held[x := 0] else held[x := 0][p := held[p] + 1]
  }

  lemma GoneHash(h: Hash, s: Dcache, x: nat)
    requires HashOk(h, s) && x < |s.name|
    ensures HashOk(h, Gone(h, s, x))
  {
    var s' := Gone(h, s, x);
    var b := Chain(h, s, x);
    MinusNoDup(s.hash[b], x);
    forall c, y {:trigger y in s'.hash[c]} | 0 <= c < |s'.hash| && y in s'.hash[c]
      ensures y < |s'.name| && s'.alive[y] && Chain(h, s', y) == c
    {
      assert y in s.hash[c];
    }
  }

  lemma GoneCount(h: Hash, s: Dcache, held: seq<nat>, d: seq<nat>, top: nat, x: nat)
    requires Tree(s.t, d, top) && CountOk(s, held) && x < |s.name| && Chain(h, s, x) < |s.hash| && s.alive[x]
    requires s.t.kids[x] == []
    ensures CountOk(Gone(h, s, x), GoneHeld(s, held, x))
  {
    var p := s.t.parent[x];
    if p != x {
      assert x in s.t.kids[p];
      MinusLength(s.t.kids[p], x);
    }
  }

  lemma GoneLru(h: Hash, s: Dcache, x: nat)
    requires LruOk(s) && x < |s.name| && Chain(h, s, x) < |s.hash|
    ensures LruOk(Gone(h, s, x))
  {
    MinusNoDup(s.lru, x);
    MinusLength(s.lru, x);
  }

  lemma GoneKeeps(h: Hash, s: Dcache, held: seq<nat>, d: seq<nat>, top: nat, x: nat)
    requires Inv(h, s, held, d, top) && x < |s.name| && s.alive[x] && s.t.kids[x] == []
    ensures Inv(h, Gone(h, s, x), GoneHeld(s, held, x), d, top)
  {
    GoneHash(h, s, x);
    GoneCount(h, s, held, d, top, x);
    GoneLru(h, s, x);
    if s.t.parent[x] != x {
      DetachKeepsTree(s.t, d, top, x);
    }
    hide Tree, HashOk, CountOk, LruOk;
  }

  // ---------------------------------------------------------------- dput

  /** Whether a dentry without references stays: it is hashed and its filesystem does not want it deleted. */
  predicate Stays(h: Hash, s: Dcache, unwanted: set<nat>, x: nat)
    requires Sized(s) && x < |s.name| && Chain(h, s, x) < |s.hash|
  {
    Hashed(h, s, x) && x !in unwanted
  }

  /** One reference to x less. */
  ghost function Put(h: Hash, s: Dcache, unwanted: set<nat>, d: seq<nat>, top: nat, x: nat): (r: Dcache)
    requires Tree(s.t, d, top) && Sized(s) && InRange(h, |s.hash|) && x < |s.name|
    decreases d[x]
  {
    if s.count[x] > 1 then s.(count := s.count[x := s.count[x] - 1])
    else if Stays(h, s, unwanted, x) then s.(count := s.count[x := 0], lru := [x] + s.lru, unused := s.unused + 1)
    else if s.t.parent[x] == x then Gone(h, s, x)
    else
      DetachKeepsTree(s.t, d, top, x);
      Put(h, Gone(h, s, x), unwanted, d, top, s.t.parent[x])
  }

  /** The three ways a call of dput can go on. */
  lemma PutCases(h: Hash, s: Dcache, held: seq<nat>, unwanted: set<nat>, d: seq<nat>, top: nat, x: nat)
    requires Inv(h, s, held, d, top) && x < |s.name| && held[x] > 0
    ensures s.count[x] > 1 ==> Put(h, s, unwanted, d, top, x) == s.(count := s.count[x := s.count[x] - 1])
    ensures s.count[x] <= 1 ==> s.alive[x] && x !in s.lru && s.t.kids[x] == [] && s.count[x] == 1 == held[x]
    ensures s.count[x] <= 1 && Stays(h, s, unwanted, x) ==>
              Put(h, s, unwanted, d, top, x) == s.(count := s.count[x := 0], lru := [x] + s.lru, unused := s.unused + 1)
    ensures s.count[x] <= 1 && !Stays(h, s, unwanted, x) && s.t.parent[x] == x ==>
              Put(h, s, unwanted, d, top, x) == Gone(h, s, x)
    ensures s.count[x] <= 1 && !Stays(h, s, unwanted, x) && s.t.parent[x] != x ==>
              && Tree(Gone(h, s, x).t, d, top)
              && Put(h, s, unwanted, d, top, x) == Put(h, Gone(h, s, x), unwanted, d, top, s.t.parent[x])
  {
    if s.t.parent[x] != x {
      DetachKeepsTree(s.t, d, top, x);
    }
  }

  lemma {:induction false} PutKeeps(h: Hash, s: Dcache, held: seq<nat>, unwanted: set<nat>, d: seq<nat>, top: nat,
                                    x: nat)
    requires Inv(h, s, held, d, top) && x < |s.name| && held[x] > 0
    ensures Inv(h, Put(h, s, unwanted, d, top, x), held[x := held[x] - 1], d, top)
    decreases d[x]
  {
    PutCases(h, s, held, unwanted, d, top, x);
    if s.count[x] > 1 || Stays(h, s, unwanted, x) {
      PutStops(h, s, held, unwanted, d, top, x);
    } else {
      Ranges(h, s, held, d, top, x);
      hide Put, Tree, HashOk, CountOk, LruOk, Stays;
      GoneKeeps(h, s, held, d, top, x);
      if s.t.parent[x] != x {
        var s1, held1, p := Gone(h, s, x), GoneHeld(s, held, x), s.t.parent[x];
        PutKeeps(h, s1, held1, unwanted, d, top, p);
        assert held1[p := held1[p] - 1] == held[x := 0];
      }
    }
  }

  lemma PutStops(h: Hash, s: Dcache, held: seq<nat>, unwanted: set<nat>, d: seq<nat>, top: nat, x: nat)
    requires Inv(h, s, held, d, top) && x < |s.name| && held[x] > 0
    requires s.count[x] > 1 || Stays(h, s, unwanted, x)
    ensures Inv(h, Put(h, s, unwanted, d, top, x), held[x := held[x] - 1], d, top)
  {
    assert s.alive[x] && s.count[x] > 0;
    if s.count[x] <= 1 {
      PushNoDup(s.lru, x);
    }
  }

  /** The dentries dput frees: x, if this was its last reference and it does not stay, and then upwards. */
  ghost function Falling(h: Hash, s: Dcache, unwanted: set<nat>, d: seq<nat>, top: nat, x: nat): seq<nat>
    requires Tree(s.t, d, top) && Sized(s) && InRange(h, |s.hash|) && x < |s.name|
    decreases d[x]
  {
    if s.count[x] > 1 || Stays(h, s, unwanted, x) then []
    else [x] + if s.t.parent[x] == x then [] else Falling(h, s, unwanted, d, top, s.t.parent[x])
  }

  /** Nothing that decides about a dentry differs for those that are not deeper than bound. */
  predicate SameUpTo(h: Hash, s: Dcache, s': Dcache, unwanted: set<nat>, d: seq<nat>, bound: nat)
    requires Sized(s) && Sized(s') && |s'.name| == |s.name| == |d|
  {
    forall y {:trigger d[y]} :: 0 <= y < |s.name| && d[y] <= bound ==> SameAt(h, s, s', unwanted, y)
  }

  predicate SameAt(h: Hash, s: Dcache, s': Dcache, unwanted: set<nat>, y: nat)
    requires Sized(s) && Sized(s') && y < |s'.name| == |s.name|
  {
    && Chain(h, s, y) < |s.hash| && Chain(h, s', y) < |s'.hash|
    && s'.t.parent[y] == s.t.parent[y] && s'.count[y] == s.count[y]
    && (Stays(h, s', unwanted, y) <==> Stays(h, s, unwanted, y))
  }

  /** The fate of x is decided by what is above it. */
  lemma {:induction false} FallingSame(h: Hash, s: Dcache, s': Dcache, unwanted: set<nat>, d: seq<nat>, top: nat,
                                       x: nat)
    requires Tree(s.t, d, top) && Sized(s) && InRange(h, |s.hash|) && x < |s.name|
    requires Tree(s'.t, d, top) && Sized(s') && InRange(h, |s'.hash|) && |s'.name| == |s.name|
    requires SameUpTo(h, s, s', unwanted, d, d[x])
    ensures Falling(h, s', unwanted, d, top, x) == Falling(h, s, unwanted, d, top, x)
    decreases d[x]
  {
    assert SameAt(h, s, s', unwanted, x);
    if s.t.parent[x] != x {
      FallingSame(h, s, s', unwanted, d, top, s.t.parent[x]);
    }
  }

  /** dput frees exactly those. */
  lemma {:induction false} PutFrees(h: Hash, s: Dcache, unwanted: set<nat>, d: seq<nat>, top: nat, x: nat, y: nat)
    requires Tree(s.t, d, top) && Sized(s) && InRange(h, |s.hash|) && x < |s.name| && y < |s.name|
    ensures |Put(h, s, unwanted, d, top, x).alive| == |s.alive|
    ensures Put(h, s, unwanted, d, top, x).alive[y] <==> s.alive[y] && y !in Falling(h, s, unwanted, d, top, x)
    decreases d[x]
  {
    if s.count[x] <= 1 && !Stays(h, s, unwanted, x) && s.t.parent[x] != x {
      var s1, p := Gone(h, s, x), s.t.parent[x];
      DetachKeepsTree(s.t, d, top, x);
      PutFrees(h, s1, unwanted, d, top, p, y);
      FallingSame(h, s, s1, unwanted, d, top, p);
    }
  }

  // ---------------------------------------------------------------- who is freed

  /** x is on some hash chain. */
  predicate OnChain(s: Dcache, x: nat) {
    exists b :: 0 <= b < |s.hash| && x in s.hash[b]
  }

  lemma ChainKnown(h: Hash, s: Dcache, x: nat)
    requires HashOk(h, s) && x < |s.name|
    ensures Hashed(h, s, x) <==> OnChain(s, x)
  {
  }

  /** With one reference less nothing keeps z: it has no other, and it is on no hash chain or unwanted. */
  predicate Doomed(s: Dcache, unwanted: set<nat>, z: nat)
    requires z < |s.count|
  {
    s.count[z] <= 1 && (!OnChain(s, z) || z in unwanted)
  }

  /** y is x or above it, and nothing keeps any of the dentries from x up to y. */
  ghost predicate DoomedUpTo(s: Dcache, unwanted: set<nat>, d: seq<nat>, top: nat, x: nat, y: nat)
    requires Tree(s.t, d, top) && Sized(s)
  {
    && Below(s.t, d, top, x, y)
    && forall z :: Below(s.t, d, top, x, z) && Below(s.t, d, top, z, y) ==> Doomed(s, unwanted, z)
  }

  lemma BelowSelf(t: Forest, d: seq<nat>, top: nat, x: nat, y: nat)
    requires Tree(t, d, top) && x < |t.parent|
    ensures Below(t, d, top, x, x)
    ensures Below(t, d, top, x, y) && Below(t, d, top, y, x) ==> x == y
    ensures Below(t, d, top, x, y) && t.parent[x] == x ==> x == y
  {
  }

  lemma {:induction false} FallingDoomed(h: Hash, s: Dcache, unwanted: set<nat>, d: seq<nat>, top: nat, x: nat, y: nat)
    requires Tree(s.t, d, top) && HashOk(h, s) && x < |s.name|
    ensures y in Falling(h, s, unwanted, d, top, x) <==> DoomedUpTo(s, unwanted, d, top, x, y)
    decreases d[x]
  {
    ChainKnown(h, s, x);
    assert Doomed(s, unwanted, x) <==> s.count[x] <= 1 && !Stays(h, s, unwanted, x);
    BelowSelf(s.t, d, top, x, y);
    hide HashOk, Doomed, Hashed, Below, Tree;
    if Doomed(s, unwanted, x) && s.t.parent[x] != x {
      var p := s.t.parent[x];
      FallingDoomed(h, s, unwanted, d, top, p, y);
      DoomedStep(s, unwanted, d, top, x, y);
    } else if Doomed(s, unwanted, x) {
      forall z: nat | Below(s.t, d, top, x, z) && Below(s.t, d, top, z, x) ensures z == x {
        BelowSelf(s.t, d, top, x, z);
      }
    }
  }

  lemma DoomedStep(s: Dcache, unwanted: set<nat>, d: seq<nat>, top: nat, x: nat, y: nat)
    requires Tree(s.t, d, top) && Sized(s) && x < |s.name| && Doomed(s, unwanted, x) && s.t.parent[x] != x
    ensures DoomedUpTo(s, unwanted, d, top, x, y) <==> y == x || DoomedUpTo(s, unwanted, d, top, s.t.parent[x], y)
  {
    var p := s.t.parent[x];
    forall z: nat ensures Below(s.t, d, top, x, z) <==> z == x || Below(s.t, d, top, p, z) {
      BelowSelf(s.t, d, top, x, z);
      if z != x && z < |s.t.parent| {
        BelowStep(s.t, d, top, x, z);
      }
    }
    forall z: nat ensures Below(s.t, d, top, x, z) && Below(s.t, d, top, z, x) ==> z == x {
      BelowSelf(s.t, d, top, x, z);
    }
    BelowSelf(s.t, d, top, p, x);
    assert d[p] < d[x] && !Below(s.t, d, top, p, x);
    hide Below, Doomed, Tree;
  }

  /** dput of x frees y exactly when it is x or above it and nothing keeps any of the dentries from x up to y; with a
      single reference left, x stays exactly when it is on a hash chain and not unwanted. */
  lemma PutFreesDoomed(h: Hash, s: Dcache, unwanted: set<nat>, d: seq<nat>, top: nat, x: nat, y: nat)
    requires Tree(s.t, d, top) && HashOk(h, s) && x < |s.name| && y < |s.name|
    ensures |Put(h, s, unwanted, d, top, x).alive| == |s.alive|
    ensures Put(h, s, unwanted, d, top, x).alive[y] <==> s.alive[y] && !DoomedUpTo(s, unwanted, d, top, x, y)
    ensures s.alive[x] && s.count[x] == 1 ==>
            (Put(h, s, unwanted, d, top, x).alive[x] <==> OnChain(s, x) && x !in unwanted)
  {
    assert Sized(s) && InRange(h, |s.hash|);
    hide HashOk, Put, Falling, Tree, Below, InRange;
    PutFrees(h, s, unwanted, d, top, x, y);
    FallingDoomed(h, s, unwanted, d, top, x, y);
    PutFrees(h, s, unwanted, d, top, x, x);
    FallingDoomed(h, s, unwanted, d, top, x, x);
    DoomedSelf(s, unwanted, d, top, x);
  }

  /** The same for all dentries. */
  lemma PutFreesAll(h: Hash, s: Dcache, unwanted: set<nat>, held: seq<nat>, d: seq<nat>, top: nat, x: nat)
    requires Inv(h, s, held, d, top) && x < |s.name|
    ensures Tree(s.t, d, top) && Sized(s) && |Put(h, s, unwanted, d, top, x).alive| == |s.alive|
    ensures forall y :: 0 <= y < |s.alive| ==>
              (Put(h, s, unwanted, d, top, x).alive[y] <==> s.alive[y] && !DoomedUpTo(s, unwanted, d, top, x, y))
  {
    hide Put, DoomedUpTo;
    PutFreesDoomed(h, s, unwanted, d, top, x, x);
    forall y | 0 <= y < |s.alive|
      ensures Put(h, s, unwanted, d, top, x).alive[y] <==> s.alive[y] && !DoomedUpTo(s, unwanted, d, top, x, y)
    {
      PutFreesDoomed(h, s, unwanted, d, top, x, y);
    }
  }

  /** What a chain tells about the dentry. */
  lemma OnChainNow(h: Hash, s: Dcache, held: seq<nat>, d: seq<nat>, top: nat, x: nat)
    requires Inv(h, s, held, d, top) && x < |s.name|
    ensures Sized(s) && Chain(h, s, x) < |s.hash| && (x in s.hash[Chain(h, s, x)] <==> OnChain(s, x))
  {
    ChainKnown(h, s, x);
  }

  lemma FreedNow(h: Hash, s: Dcache, x: nat)
    requires Sized(s) && x < |s.name| && Chain(h, s, x) < |s.hash|
    ensures |Gone(h, s, x).alive| == |s.alive| && !Gone(h, s, x).alive[x] && Gone(h, s, x).name == s.name
  {
  }

  lemma DoomedSelf(s: Dcache, unwanted: set<nat>, d: seq<nat>, top: nat, x: nat)
    requires Tree(s.t, d, top) && Sized(s) && x < |s.name|
    ensures DoomedUpTo(s, unwanted, d, top, x, x) <==> Doomed(s, unwanted, x)
  {
    hide Doomed, Below, Tree;
    BelowSelf(s.t, d, top, x, x);
    forall z: nat | Below(s.t, d, top, x, z) && Below(s.t, d, top, z, x) ensures z == x {
      BelowSelf(s.t, d, top, x, z);
    }
  }

  // ---------------------------------------------------------------- taking a reference, making a dentry

  /** __dget_locked */
  function Got(s: Dcache, x: nat): Dcache
    requires x < |s.count|
  {
    if s.count[x] == 0 then s.(count := s.count[x := 1], lru := Minus(s.lru, x), unused := s.unused - 1)
    else s.(count := s.count[x := s.count[x] + 1])
  }

  lemma GotKeeps(h: Hash, s: Dcache, held: seq<nat>, d: seq<nat>, top: nat, x: nat)
    requires Inv(h, s, held, d, top) && x < |s.count| && s.alive[x]
    ensures Inv(h, Got(s, x), held[x := held[x] + 1], d, top)
  {
    if s.count[x] == 0 {
      MinusNoDup(s.lru, x);
      MinusLength(s.lru, x);
    }
  }

  /** Dropping the reference just taken restores everything but, for an unused dentry, its place among the unused. */
  lemma PutUndoesGot(h: Hash, s: Dcache, held: seq<nat>, unwanted: set<nat>, d: seq<nat>, top: nat, x: nat)
    requires Inv(h, s, held, d, top) && x < |s.count| && s.alive[x] && (s.count[x] > 0 || Stays(h, s, unwanted, x))
    ensures Put(h, Got(s, x), unwanted, d, top, x) == if s.count[x] > 0 then s else s.(lru := [x] + Minus(s.lru, x))
  {
    var s1 := Got(s, x);
    assert s1.count[x] == s.count[x] + 1 && s.count[x] >= 0;
    if s.count[x] > 0 {
      assert s1.count[x := s1.count[x] - 1] == s.count;
    } else {
      assert s1.count[x := 0] == s.count;
    }
  }

  /** A new node at the head of p's children. */
  function WithChild(t: Forest, p: nat): Forest
    requires p < |t.kids|
  {
    Forest(t.parent + [p], t.kids[p := [|t.parent|] + t.kids[p]] + [[]])
  }

  /** d_alloc with a parent. */
  function Alloced(s: Dcache, p: nat, name: Name): Dcache
    requires Sized(s) && p < |s.count|
  {
    Dcache(WithChild(s.t, p), s.alive + [true], s.name + [name], s.hash,
           s.count[p := s.count[p] + 1] + [1], s.lru, s.unused, s.used + [false])
  }

  lemma AllocedIs(s: Dcache, p: nat, name: Name)
    requires Sized(s) && p < |s.count|
    ensures var s', x := Alloced(s, p, name), |s.name|;
            && s'.t.parent == s.t.parent + [p] && |s'.t.kids| == x + 1 == |s'.count|
            && s'.t.kids[p] == [x] + s.t.kids[p] && s'.t.kids[x] == [] && s'.count[x] == 1
            && s'.count[p] == s.count[p] + 1
  {
  }

  lemma AllocTree(s: Dcache, d: seq<nat>, top: nat, p: nat, name: Name)
    requires Tree(s.t, d, top) && Sized(s) && p < |s.count| && NameOk(name)
    ensures Tree(Alloced(s, p, name).t, d + [d[p] + 1], top + 1) && Sized(Alloced(s, p, name))
  {
    var t := Alloced(s, p, name).t;
    var n := |s.count|;
    assert n !in s.t.kids[p];
    PushNoDup(s.t.kids[p], n);
  }

  lemma AllocKeeps(h: Hash, s: Dcache, held: seq<nat>, d: seq<nat>, top: nat, p: nat, name: Name)
    requires Inv(h, s, held, d, top) && p < |s.count| && s.alive[p] && s.count[p] > 0 && NameOk(name)
    ensures Inv(h, Alloced(s, p, name), held + [1], d + [d[p] + 1], top + 1)
  {
    AllocTree(s, d, top, p, name);
    var s' := Alloced(s, p, name);
    hide Tree;
    forall b, x {:trigger x in s'.hash[b]} | 0 <= b < |s'.hash| && x in s'.hash[b]
      ensures x < |s'.name| && s'.alive[x] && Chain(h, s', x) == b
    {
      assert x in s.hash[b];
    }
  }

  /** d_alloc_root */
  function AllocedRoot(s: Dcache, name: Name): Dcache
    requires Sized(s)
  {
    var n := |s.count|;
    Dcache(Forest(s.t.parent + [n], s.t.kids + [[]]), s.alive + [true], s.name + [name], s.hash, s.count + [1],
           s.lru, s.unused, s.used + [false])
  }

  lemma AllocRootKeeps(h: Hash, s: Dcache, held: seq<nat>, d: seq<nat>, top: nat, name: Name)
    requires Inv(h, s, held, d, top) && NameOk(name)
    ensures Inv(h, AllocedRoot(s, name), held + [1], d + [0], top)
  {
    var s' := AllocedRoot(s, name);
    forall b, x {:trigger x in s'.hash[b]} | 0 <= b < |s'.hash| && x in s'.hash[b]
      ensures x < |s'.name| && s'.alive[x] && Chain(h, s', x) == b
    {
      assert x in s.hash[b];
    }
  }

  // ---------------------------------------------------------------- hashing

  /** d_rehash */
  function Rehashed(h: Hash, s: Dcache, x: nat): Dcache
    requires Sized(s) && x < |s.name| && Chain(h, s, x) < |s.hash|
  {
    s.(hash := s.hash[Chain(h, s, x) := [x] + s.hash[Chain(h, s, x)]])
  }

  /** d_drop */
  function Dropped(h: Hash, s: Dcache, x: nat): Dcache
    requires Sized(s) && x < |s.name| && Chain(h, s, x) < |s.hash|
  {
    s.(hash := s.hash[Chain(h, s, x) := Minus(s.hash[Chain(h, s, x)], x)])
  }

  lemma RehashKeeps(h: Hash, s: Dcache, held: seq<nat>, d: seq<nat>, top: nat, x: nat)
    requires Inv(h, s, held, d, top) && x < |s.name| && s.alive[x] && !Hashed(h, s, x)
    ensures Inv(h, Rehashed(h, s, x), held, d, top)
  {
    PushNoDup(s.hash[Chain(h, s, x)], x);
  }

  lemma DropKeeps(h: Hash, s: Dcache, held: seq<nat>, d: seq<nat>, top: nat, x: nat)
    requires Inv(h, s, held, d, top) && x < |s.name|
    ensures Inv(h, Dropped(h, s, x), held, d, top)
  {
    MinusNoDup(s.hash[Chain(h, s, x)], x);
  }

  // ---------------------------------------------------------------- d_lookup

  predicate Matches(s: Dcache, x: nat, p: nat, q: Qstr)
    requires Sized(s)
  {
    x < |s.name| && s.t.parent[x] == p && s.name[x].hash == q.hash && Text(s.name[x]) == q.text
  }

  /** The first dentry of a chain that matches. */
  function First(s: Dcache, chain: seq<nat>, p: nat, q: Qstr): Option<nat>
    requires Sized(s)
  {
    if chain == [] then None
    else if Matches(s, chain[0], p, q) then Some(chain[0]) else First(s, chain[1..], p, q)
  }

  lemma {:induction false} FirstIs(s: Dcache, chain: seq<nat>, p: nat, q: Qstr)
    requires Sized(s)
    ensures First(s, chain, p, q).None? <==> forall x :: x in chain ==> !Matches(s, x, p, q)
    ensures First(s, chain, p, q).Some? ==>
            First(s, chain, p, q).value in chain && Matches(s, First(s, chain, p, q).value, p, q)
  {
    if chain != [] {
      FirstIs(s, chain[1..], p, q);
      assert chain == [chain[0]] + chain[1..];
    }
  }

  ghost function Found(h: Hash, s: Dcache, p: nat, q: Qstr): Option<nat>
    requires HashOk(h, s)
  {
    First(s, s.hash[h(p, q.hash)], p, q)
  }

  /** x is a hashed child of p with that name. */
  ghost predicate Known(h: Hash, s: Dcache, x: nat, p: nat, q: Qstr)
    requires HashOk(h, s)
  {
    Matches(s, x, p, q) && Hashed(h, s, x)
  }

  /** d_lookup finds a hashed child with the name whenever there is one. */
  lemma FoundIsKnown(h: Hash, s: Dcache, p: nat, q: Qstr)
    requires HashOk(h, s)
    ensures Found(h, s, p, q).Some? ==> Known(h, s, Found(h, s, p, q).value, p, q)
    ensures Found(h, s, p, q).None? ==> forall x :: !Known(h, s, x, p, q)
  {
    FirstIs(s, s.hash[h(p, q.hash)], p, q);
  }

  /** No two hashed dentries have the same parent and name. */
  ghost predicate Twinless(h: Hash, s: Dcache)
    requires HashOk(h, s)
  {
    forall x, y, p, q :: Known(h, s, x, p, q) && Known(h, s, y, p, q) ==> x == y
  }

  /** What d_lookup would be asked for to find x. */
  function NameOf(s: Dcache, x: nat): Qstr
    requires Sized(s) && x < |s.name|
  {
    Qstr(Text(s.name[x]), s.name[x].hash)
  }

  /** No hashed dentry has the place and name of x. */
  ghost predicate Vacant(h: Hash, s: Dcache, x: nat)
    requires HashOk(h, s) && x < |s.name|
  {
    forall y :: !Known(h, s, y, s.t.parent[x], NameOf(s, x))
  }

  lemma RehashKnown(h: Hash, s: Dcache, x: nat, y: nat, p: nat, q: Qstr)
    requires HashOk(h, s) && x < |s.name| && HashOk(h, Rehashed(h, s, x))
    ensures Known(h, Rehashed(h, s, x), y, p, q) <==>
            Known(h, s, y, p, q) || (y == x && p == s.t.parent[x] && q == NameOf(s, x))
  {
  }

  /** After d_rehash lookup of its name finds the dentry itself, whoever else has that name. */
  lemma RehashFound(h: Hash, s: Dcache, x: nat)
    requires HashOk(h, s) && x < |s.name| && HashOk(h, Rehashed(h, s, x))
    ensures Found(h, Rehashed(h, s, x), s.t.parent[x], NameOf(s, x)) == Some(x)
  {
    var s' := Rehashed(h, s, x);
    assert s'.hash[h(s.t.parent[x], s.name[x].hash)][0] == x && Matches(s', x, s.t.parent[x], NameOf(s, x));
  }

  /** d_rehash keeps names unique exactly when the name was not taken. */
  lemma RehashTwinless(h: Hash, s: Dcache, x: nat)
    requires HashOk(h, s) && x < |s.name| && !Hashed(h, s, x) && HashOk(h, Rehashed(h, s, x)) && Twinless(h, s)
    ensures Twinless(h, Rehashed(h, s, x)) <==> Vacant(h, s, x)
  {
    var s' := Rehashed(h, s, x);
    var p, q := s.t.parent[x], NameOf(s, x);
    assert forall p, q :: !Known(h, s, x, p, q);
    hide HashOk, Known, Rehashed;
    if Vacant(h, s, x) {
      forall a: nat, b: nat, p: nat, q | Known(h, s', a, p, q) && Known(h, s', b, p, q) ensures a == b {
        RehashKnown(h, s, x, a, p, q);
        RehashKnown(h, s, x, b, p, q);
      }
    } else {
      var y: nat :| Known(h, s, y, p, q);
      RehashKnown(h, s, x, x, p, q);
      RehashKnown(h, s, x, y, p, q);
    }
  }

  /** A step that makes nothing known keeps names unique. */
  lemma FewerTwinless(h: Hash, s: Dcache, s': Dcache)
    requires HashOk(h, s) && HashOk(h, s') && Twinless(h, s)
    requires forall y, p, q :: Known(h, s', y, p, q) ==> Known(h, s, y, p, q)
    ensures Twinless(h, s')
  {
    hide HashOk, Known;
  }

  lemma FoundUnique(h: Hash, s: Dcache, p: nat, q: Qstr, r: Option<nat>)
    requires HashOk(h, s) && Twinless(h, s)
    requires r.Some? ==> Known(h, s, r.value, p, q)
    requires r.None? ==> forall x :: !Known(h, s, x, p, q)
    ensures Found(h, s, p, q) == r
  {
    FoundIsKnown(h, s, p, q);
  }

  /** What d_lookup does to the dentry it returns. */
  function Touched(s: Dcache, x: nat): Dcache
    requires x < |s.count| == |s.used|
  {
    Got(s, x).(used := s.used[x := true])
  }

  lemma TouchKeeps(h: Hash, s: Dcache, held: seq<nat>, d: seq<nat>, top: nat, x: nat)
    requires Inv(h, s, held, d, top) && x < |s.count| && s.alive[x]
    ensures Inv(h, Touched(s, x), held[x := held[x] + 1], d, top)
  {
    GotKeeps(h, s, held, d, top, x);
  }

  lemma TouchKnown(h: Hash, s: Dcache, x: nat, y: nat, p: nat, q: Qstr)
    requires HashOk(h, s) && x < |s.count| && HashOk(h, Touched(s, x))
    ensures Known(h, Touched(s, x), y, p, q) <==> Known(h, s, y, p, q)
  {
  }
}
