/** d_move (fs/dcache.c): a dentry takes the place of another one, in the tree, in the hash and by name. */
module DentryMove {
  import opened Dentries
  import opened Lists
  import opened TreeMoves
  import opened TreeWalk

  /** switch_names and the switches of length and hash, for the dentry. */
  function Taken(x: Name, y: Name): Name {
    Name(y.inline, y.ext, y.len, y.hash)
  }

  /** The same for the target, which keeps its own inline buffer. */
  function Left(x: Name, y: Name): Name {
    Name(y.inline, x.ext, x.len, x.hash)
  }

  /** The dentry gets the target's name. The target gets the dentry's, exactly when that one was not inline or
      the target's buffer happens to start with it; length and hash are always right. */
  lemma SwitchNames(x: Name, y: Name)
    requires NameOk(x) && NameOk(y)
    ensures NameOk(Taken(x, y)) && Text(Taken(x, y)) == Text(y) && Taken(x, y).hash == y.hash
    ensures NameOk(Left(x, y)) && |Text(Left(x, y))| == |Text(x)| && Left(x, y).hash == x.hash
    ensures Text(Left(x, y)) == Text(x) <==> x.ext.Some? || y.inline[..x.len] == x.inline[..x.len]
  {
  }

  /** So "a" moved over "b" leaves the target with the text "b". */
  lemma WrongNameExample(xHash: nat, yHash: nat)
    ensures Text(Left(NewName("a", xHash), NewName("b", yHash))) == "b" != Text(NewName("a", xHash))
  {
    var x, y := NewName("a", xHash), NewName("b", yHash);
    assert y.inline[..1] == "b" && x.len == 1;
  }

  /** In a chain, y gives its position to x. */
  function Replace(chain: seq<nat>, y: nat, x: nat): (r: seq<nat>)
    ensures |r| == |chain| && forall i :: 0 <= i < |chain| ==> r[i] == if chain[i] == y then x else chain[i]
  {
    if chain == [] then [] else [if chain[0] == y then x else chain[0]] + Replace(chain[1..], y, x)
  }

  lemma ReplaceIn(chain: seq<nat>, y: nat, x: nat)
    requires NoDup(chain) && x !in chain
    ensures NoDup(Replace(chain, y, x))
    ensures forall z :: z in Replace(chain, y, x) <==> (z in chain && z != y) || (z == x && y in chain)
  {
    var r := Replace(chain, y, x);
    forall z | z in chain && z != y ensures z in r {
      var i :| 0 <= i < |chain| && chain[i] == z;
      assert r[i] == z;
    }
    if y in chain {
      var i :| 0 <= i < |chain| && chain[i] == y;
      assert r[i] == x;
    }
  }

  /** x leaves its chain and takes the position of y in the other, if y is in it. */
  function MovedHash(hash: seq<seq<nat>>, xb: nat, yb: nat, x: nat, y: nat): seq<seq<nat>>
    requires xb < |hash| && yb < |hash|
  {
    var hash1 := hash[xb := Minus(hash[xb], x)];
    hash1[yb := Replace(hash1[yb], y, x)]
  }

  predicate CanMove(h: Hash, s: Dcache, x: nat, y: nat) {
    && Sized(s) && x < |s.name| && y < |s.name| && x != y && s.alive[x] && s.alive[y]
    && s.t.parent[x] != x && s.t.parent[y] != y && Chain(h, s, x) < |s.hash| && Chain(h, s, y) < |s.hash|
  }

  /** d_move(x, y) */
  function Moved(h: Hash, s: Dcache, x: nat, y: nat): Dcache
    requires CanMove(h, s, x, y)
  {
    s.(t := SwapTree(s.t, x, y), name := s.name[x := Taken(s.name[x], s.name[y])][y := Left(s.name[x], s.name[y])],
       hash := MovedHash(s.hash, Chain(h, s, x), Chain(h, s, y), x, y))
  }

  lemma MovedParents(t: Forest, x: nat, y: nat)
    requires x < |t.parent| && y < |t.parent| && |t.kids| == |t.parent| && x != y
    requires t.parent[x] < |t.kids| && t.parent[y] < |t.kids|
    ensures |SwapTree(t, x, y).kids| == |t.kids|
    ensures SwapTree(t, x, y).parent == t.parent[x := t.parent[y]][y := t.parent[x]]
  {
  }

  lemma MovedSized(h: Hash, s: Dcache, x: nat, y: nat)
    requires CanMove(h, s, x, y)
    ensures Sized(Moved(h, s, x, y))
    ensures Moved(h, s, x, y).t.parent == s.t.parent[x := s.t.parent[y]][y := s.t.parent[x]]
    ensures Chain(h, Moved(h, s, x, y), x) == Chain(h, s, y) && Chain(h, Moved(h, s, x, y), y) == Chain(h, s, x)
  {
    MovedParents(s.t, x, y);
    SwitchNames(s.name[x], s.name[y]);
  }

  /** Who is in which chain after the move. */
  lemma MovedChains(h: Hash, s: Dcache, x: nat, y: nat, b: nat, z: nat)
    requires CanMove(h, s, x, y) && HashOk(h, s) && b < |s.hash|
    ensures |Moved(h, s, x, y).hash| == |s.hash| && NoDup(Moved(h, s, x, y).hash[b])
    ensures z in Moved(h, s, x, y).hash[b] <==>
            if z == x then b == Chain(h, s, y) && y in s.hash[b] else z != y && z in s.hash[b]
  {
    var xb, yb := Chain(h, s, x), Chain(h, s, y);
    var hash1 := s.hash[xb := Minus(s.hash[xb], x)];
    MinusNoDup(s.hash[xb], x);
    assert x !in hash1[yb];
    ReplaceIn(hash1[yb], y, x);
  }

  lemma MovedKeepsHash(h: Hash, s: Dcache, x: nat, y: nat)
    requires CanMove(h, s, x, y) && HashOk(h, s)
    ensures HashOk(h, Moved(h, s, x, y))
  {
    var s' := Moved(h, s, x, y);
    MovedSized(h, s, x, y);
    forall b {:trigger s'.hash[b]} | 0 <= b < |s'.hash| ensures NoDup(s'.hash[b]) {
      MovedChains(h, s, x, y, b, x);
    }
    forall b, z {:trigger z in s'.hash[b]} | 0 <= b < |s'.hash| && z in s'.hash[b]
      ensures z < |s'.name| && s'.alive[z] && Chain(h, s', z) == b
    {
      MovedChains(h, s, x, y, b, z);
    }
  }

  /** Every child list keeps its length. */
  lemma MovedKidCounts(t: Forest, d: seq<nat>, top: nat, x: nat, y: nat, p: nat)
    requires Tree(t, d, top) && x < |t.parent| && y < |t.parent| && x != y && t.parent[x] != x && t.parent[y] != y
    requires p < |t.kids|
    ensures |SwapTree(t, x, y).kids| == |t.kids| && |SwapTree(t, x, y).kids[p]| == |t.kids[p]|
    ensures p != t.parent[x] && p != t.parent[y] ==> SwapTree(t, x, y).kids[p] == t.kids[p]
  {
    var px, py := t.parent[x], t.parent[y];
    MinusLength(t.kids[px], x);
    MinusNoDup(t.kids[px], x);
    var kids1 := t.kids[px := Minus(t.kids[px], x)];
    MinusLength(kids1[py], y);
  }

  lemma MovedKeepsCount(h: Hash, s: Dcache, held: seq<nat>, d: seq<nat>, top: nat, x: nat, y: nat)
    requires CanMove(h, s, x, y) && Tree(s.t, d, top) && CountOk(s, held)
    ensures CountOk(Moved(h, s, x, y), held)
  {
    var s' := Moved(h, s, x, y);
    MovedSized(h, s, x, y);
    forall p | 0 <= p < |s.count| ensures |s'.t.kids[p]| == |s.t.kids[p]| {
      MovedKidCounts(s.t, d, top, x, y, p);
    }
  }

  /** Whether d_move leaves the cache in order is decided by the tree alone. */
  lemma MovedKeeps(h: Hash, s: Dcache, held: seq<nat>, d: seq<nat>, top: nat, x: nat, y: nat)
    requires Inv(h, s, held, d, top) && CanMove(h, s, x, y)
    ensures (exists d', top' :: Inv(h, Moved(h, s, x, y), held, d', top')) <==>
            !Below(s.t, d, top, x, y) && !Below(s.t, d, top, y, x)
  {
    var s' := Moved(h, s, x, y);
    MovedKeepsHash(h, s, x, y);
    MovedKeepsCount(h, s, held, d, top, x, y);
    SwapKeepsTree(s.t, d, top, x, y);
    assert LruOk(s');
    hide HashOk, CountOk, LruOk, Below, Moved;
    if IsTree(s'.t) {
      var d', top' :| Tree(s'.t, d', top');
      assert Inv(h, s', held, d', top');
    }
  }

  // ---------------------------------------------------------------- what d_lookup finds

  /** After the move x is known where y was, y nowhere, and the others where they were. */
  lemma MovedKnown(h: Hash, s: Dcache, x: nat, y: nat, z: nat, p: nat, q: Qstr)
    requires CanMove(h, s, x, y) && HashOk(h, s) && HashOk(h, Moved(h, s, x, y))
    ensures Known(h, Moved(h, s, x, y), z, p, q) <==>
            if z == x then Known(h, s, y, p, q) else z != y && Known(h, s, z, p, q)
  {
    var s' := Moved(h, s, x, y);
    MovedSized(h, s, x, y);
    SwitchNames(s.name[x], s.name[y]);
    if z < |s.name| {
      MovedChains(h, s, x, y, Chain(h, s', z), z);
    }
  }

  lemma MovedTwinless(h: Hash, s: Dcache, x: nat, y: nat)
    requires CanMove(h, s, x, y) && HashOk(h, s) && HashOk(h, Moved(h, s, x, y)) && Twinless(h, s)
    ensures Twinless(h, Moved(h, s, x, y))
  {
    var s' := Moved(h, s, x, y);
    hide HashOk, Moved, Known;
    forall a: nat, b: nat, p: nat, q | Known(h, s', a, p, q) && Known(h, s', b, p, q) ensures a == b {
      MovedKnown(h, s, x, y, a, p, q);
      MovedKnown(h, s, x, y, b, p, q);
    }
  }

  /** With unique names, d_lookup afterwards: x at the place of a hashed y, nothing at the old place of x, and
      everywhere else what it found before. */
  lemma MovedFound(h: Hash, s: Dcache, x: nat, y: nat, p: nat, q: Qstr)
    requires CanMove(h, s, x, y) && HashOk(h, s) && HashOk(h, Moved(h, s, x, y)) && Twinless(h, s)
    ensures Found(h, Moved(h, s, x, y), p, q) ==
            if Known(h, s, y, p, q) then Some(x) else if Known(h, s, x, p, q) then None else Found(h, s, p, q)
  {
    var s' := Moved(h, s, x, y);
    var before := Found(h, s, p, q);
    FoundIsKnown(h, s, p, q);
    MovedTwinless(h, s, x, y);
    hide HashOk, Moved, Known, Found;
    var r := if Known(h, s, y, p, q) then Some(x) else if Known(h, s, x, p, q) then None else before;
    forall z: nat
        ensures Known(h, s', z, p, q) <==> if z == x then Known(h, s, y, p, q) else z != y && Known(h, s, z, p, q) {
      MovedKnown(h, s, x, y, z, p, q);
    }
    FoundUnique(h, s', p, q, r);
  }
}
