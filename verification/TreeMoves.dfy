/** Taking a node of a forest from its parent and hanging it below another. */
module TreeMoves {
  import opened Lists
  import opened TreeWalk

  // ---------------------------------------------------------------- detach and attach

  function DetachTree(t: Forest, m: nat): Forest
    requires m < |t.parent| && t.parent[m] < |t.kids|
  {
    var p := t.parent[m];
    Forest(t.parent[m := m], t.kids[p := Minus(t.kids[p], m)])
  }

  function AttachTree(t: Forest, m: nat, p: nat): Forest
    requires m < |t.parent| && p < |t.kids|
  {
    Forest(t.parent[m := p], t.kids[p := [m] + t.kids[p]])
  }

  // ---------------------------------------------------------------- the tree

  lemma DetachKeepsTree(t: Forest, d: seq<nat>, top: nat, m: nat)
    requires Tree(t, d, top) && m < |t.parent| && t.parent[m] != m
    ensures Tree(DetachTree(t, m), d, top)
  {
    MinusNoDup(t.kids[t.parent[m]], m);
  }

  /** Below is closed along the edges of the tree, except at its root m. */
  lemma BelowStep(t: Forest, d: seq<nat>, top: nat, x: nat, m: nat)
    requires Tree(t, d, top) && x < |t.parent| && m < |t.parent| && x != m && t.parent[x] != x
    ensures Below(t, d, top, x, m) <==> Below(t, d, top, t.parent[x], m)
  {
  }

  /** The depths after a tree is hung below p: its own grow, the others stay. */
  ghost function Sunk(t: Forest, d: seq<nat>, top: nat, m: nat, p: nat): (r: seq<nat>)
    requires Tree(t, d, top) && m < |t.parent| && p < |t.parent|
    ensures |r| == |d|
    ensures forall x :: 0 <= x < |d| ==> r[x] == SunkAt(t, d, top, m, p, x)
  {
    seq(|d|, x requires 0 <= x < |d| => SunkAt(t, d, top, m, p, x))
  }

  ghost function SunkAt(t: Forest, d: seq<nat>, top: nat, m: nat, p: nat, x: nat): nat
    requires Tree(t, d, top) && m < |t.parent| && p < |t.parent| && x < |d|
  {
    if Below(t, d, top, x, m) then d[x] - d[m] + d[p] + 1 else d[x]
  }

  lemma AttachKeepsTree(t: Forest, d: seq<nat>, top: nat, m: nat, p: nat)
    requires Tree(t, d, top) && m < |t.parent| && p < |t.parent| && t.parent[m] == m && !Below(t, d, top, p, m)
    ensures Tree(AttachTree(t, m, p), Sunk(t, d, top, m, p), 2 * top + 1)
  {
    var t', d' := AttachTree(t, m, p), Sunk(t, d, top, m, p);
    assert m !in t.kids[p];
    PushNoDup(t.kids[p], m);
    hide Up;
    forall c {:trigger t'.parent[c]} | 0 <= c < |t'.parent| && t'.parent[c] != c
      ensures c in t'.kids[t'.parent[c]] && d'[c] == d'[t'.parent[c]] + 1
    {
      AttachEdge(t, d, top, m, p, c);
    }
  }

  lemma AttachEdge(t: Forest, d: seq<nat>, top: nat, m: nat, p: nat, c: nat)
    requires Tree(t, d, top) && m < |t.parent| && p < |t.parent| && t.parent[m] == m && !Below(t, d, top, p, m)
    requires c < |t.parent| && AttachTree(t, m, p).parent[c] != c
    ensures var q := AttachTree(t, m, p).parent[c];
            c in AttachTree(t, m, p).kids[q] && SunkAt(t, d, top, m, p, c) == SunkAt(t, d, top, m, p, q) + 1
  {
    if c != m {
      BelowStep(t, d, top, c, m);
    }
  }

  /** t' has the parents of t at every node but m that is less deep than bound. */
  predicate SameAbove(t: Forest, d: seq<nat>, m: nat, t': Forest, bound: nat)
    requires |t.parent| == |d|
  {
    && |t'.parent| == |t.parent|
    && forall x {:trigger t'.parent[x]} :: 0 <= x < |t.parent| && x != m && d[x] < bound ==> t'.parent[x] == t.parent[x]
  }

  /** Where the parents are the same, relative depths are. */
  lemma {:induction false} ChainDepth(t: Forest, d: seq<nat>, top: nat, m: nat, t': Forest, d': seq<nat>, top': nat,
                                      x: nat)
    requires Tree(t, d, top) && m < |t.parent| && Below(t, d, top, x, m)
    requires Tree(t', d', top') && SameAbove(t, d, m, t', d[x] + 1)
    ensures d'[x] == d'[m] + d[x] - d[m]
    decreases d[x]
  {
    if x != m {
      ChainDepth(t, d, top, m, t', d', top', t.parent[x]);
      assert t'.parent[x] == t.parent[x];
    }
  }

  /** What is below m does not depend on what m is attached to. */
  lemma {:induction false} DetachBelow(t: Forest, d: seq<nat>, top: nat, m: nat, x: nat)
    requires Tree(t, d, top) && m < |t.parent| && x < |t.parent| && t.parent[m] != m && Tree(DetachTree(t, m), d, top)
    ensures Below(DetachTree(t, m), d, top, x, m) <==> Below(t, d, top, x, m)
    decreases d[x]
  {
    if d[x] > d[m] && t.parent[x] != x {
      DetachBelow(t, d, top, m, t.parent[x]);
    }
  }

  ghost predicate IsTree(t: Forest) {
    exists d, top :: Tree(t, d, top)
  }

  /** Moving m to p leaves a tree exactly when p is not in the subtree of m. */
  lemma MoveKeepsTree(t: Forest, d: seq<nat>, top: nat, m: nat, p: nat)
    requires Tree(t, d, top) && m < |t.parent| && p < |t.parent| && t.parent[m] != m
    ensures IsTree(AttachTree(DetachTree(t, m), m, p)) <==> !Below(t, d, top, p, m)
  {
    var t1 := DetachTree(t, m);
    DetachKeepsTree(t, d, top, m);
    DetachBelow(t, d, top, m, p);
    var t2 := AttachTree(t1, m, p);
    if !Below(t, d, top, p, m) {
      AttachKeepsTree(t1, d, top, m, p);
    } else if IsTree(t2) {
      var d', top' :| Tree(t2, d', top');
      assert t2.parent == t.parent[m := p];
      LoopNoTree(t, d, top, m, p, t2, d', top');
    }
  }

  /** A node that hangs below one of its own descendants is in no tree. */
  lemma LoopNoTree(t: Forest, d: seq<nat>, top: nat, m: nat, p: nat, t': Forest, d': seq<nat>, top': nat)
    requires Tree(t, d, top) && m < |t.parent| && Below(t, d, top, p, m) && SameAbove(t, d, m, t', d[p] + 1)
    requires |t'.kids| == |t.kids| && m in t'.kids[p] && t'.parent[m] == p
    ensures !Tree(t', d', top')
  {
    if Tree(t', d', top') {
      ChainDepth(t, d, top, m, t', d', top', p);
    }
  }

  // ---------------------------------------------------------------- two nodes trade places

  /** x and y trade parents; both become first children. */
  function SwapTree(t: Forest, x: nat, y: nat): Forest
    requires x < |t.parent| && y < |t.parent| && |t.kids| == |t.parent| && x != y
    requires t.parent[x] < |t.kids| && t.parent[y] < |t.kids|
  {
    AttachTree(AttachTree(DetachTree(DetachTree(t, x), y), y, t.parent[x]), x, t.parent[y])
  }

  lemma {:induction false} DetachShrinks(t: Forest, d: seq<nat>, top: nat, x: nat, z: nat, y: nat)
    requires Tree(t, d, top) && x < |t.parent| && t.parent[x] != x && Tree(DetachTree(t, x), d, top)
    requires Below(DetachTree(t, x), d, top, z, y)
    ensures Below(t, d, top, z, y)
    decreases d[z]
  {
    var t' := DetachTree(t, x);
    if z != y {
      assert t'.parent[z] != z;
      DetachShrinks(t, d, top, x, t.parent[z], y);
    }
  }

  /** What is not below y keeps its ancestors when y is hung somewhere. */
  lemma {:induction false} AttachElsewhere(t: Forest, d: seq<nat>, top: nat, y: nat, p: nat, z: nat, x: nat)
    requires Tree(t, d, top) && y < |t.parent| && p < |t.parent| && t.parent[y] == y && !Below(t, d, top, p, y)
    requires z < |t.parent| && x < |t.parent| && !Below(t, d, top, z, y) && !Below(t, d, top, x, y)
    requires Tree(AttachTree(t, y, p), Sunk(t, d, top, y, p), 2 * top + 1)
    requires Below(AttachTree(t, y, p), Sunk(t, d, top, y, p), 2 * top + 1, z, x)
    ensures Below(t, d, top, z, x)
    decreases d[z]
  {
    if z != x {
      var t', d' := AttachTree(t, y, p), Sunk(t, d, top, y, p);
      assert d'[z] == d[z] && d'[x] == d[x] && t'.parent[z] == t.parent[z];
      BelowStep(t, d, top, z, y);
      AttachElsewhere(t, d, top, y, p, t.parent[z], x);
    }
  }

  lemma SwapApart(t: Forest, d: seq<nat>, top: nat, x: nat, y: nat)
    requires Tree(t, d, top) && x < |t.parent| && y < |t.parent| && x != y && t.parent[x] != x && t.parent[y] != y
    requires !Below(t, d, top, x, y) && !Below(t, d, top, y, x)
    ensures IsTree(SwapTree(t, x, y))
  {
    var px, py := t.parent[x], t.parent[y];
    BelowStep(t, d, top, x, y);
    BelowStep(t, d, top, y, x);
    var t1 := DetachTree(t, x);
    DetachKeepsTree(t, d, top, x);
    var t2 := DetachTree(t1, y);
    DetachKeepsTree(t1, d, top, y);
    hide Up;
    if Below(t2, d, top, px, y) {
      DetachShrinks(t1, d, top, y, px, y);
      DetachShrinks(t, d, top, x, px, y);
    }
    AttachKeepsTree(t2, d, top, y, px);
    var t3, d3 := AttachTree(t2, y, px), Sunk(t2, d, top, y, px);
    hide Tree, Below;
    if Below(t3, d3, 2 * top + 1, py, x) {
      SwapSecond(t, d, top, x, y);
    }
    assert t3.parent[x] == x;
    AttachKeepsTree(t3, d3, 2 * top + 1, x, py);
  }

  lemma SwapSecond(t: Forest, d: seq<nat>, top: nat, x: nat, y: nat)
    requires Tree(t, d, top) && x < |t.parent| && y < |t.parent| && x != y && t.parent[x] != x && t.parent[y] != y
    requires !Below(t, d, top, t.parent[y], x)
    requires Tree(DetachTree(t, x), d, top) && Tree(DetachTree(DetachTree(t, x), y), d, top)
    requires var t2 := DetachTree(DetachTree(t, x), y);
             && !Below(t2, d, top, t.parent[x], y)
             && Tree(AttachTree(t2, y, t.parent[x]), Sunk(t2, d, top, y, t.parent[x]), 2 * top + 1)
    ensures var t2 := DetachTree(DetachTree(t, x), y);
            !Below(AttachTree(t2, y, t.parent[x]), Sunk(t2, d, top, y, t.parent[x]), 2 * top + 1, t.parent[y], x)
  {
    var px, py := t.parent[x], t.parent[y];
    var t1 := DetachTree(t, x);
    var t2 := DetachTree(t1, y);
    assert t2.parent[x] == x;
    assert !Below(t2, d, top, py, y);
    assert !Below(t2, d, top, x, y);
    hide Up, Below;
    if Below(AttachTree(t2, y, px), Sunk(t2, d, top, y, px), 2 * top + 1, py, x) {
      AttachElsewhere(t2, d, top, y, px, py, x);
      DetachShrinks(t1, d, top, y, py, x);
      DetachShrinks(t, d, top, x, py, x);
    }
  }

  /** If y is an ancestor of x, trading places makes a loop. */
  lemma SwapLoop(t: Forest, d: seq<nat>, top: nat, x: nat, y: nat, t': Forest)
    requires Tree(t, d, top) && x < |t.parent| && y < |t.parent| && x != y && t.parent[x] != x && t.parent[y] != y
    requires Below(t, d, top, x, y) && |t'.kids| == |t.kids|
    requires t'.parent == t.parent[x := t.parent[y]][y := t.parent[x]] && y in t'.kids[t.parent[x]]
    ensures !IsTree(t')
  {
    BelowStep(t, d, top, x, y);
    forall d', top' ensures !Tree(t', d', top') {
      LoopNoTree(t, d, top, y, t.parent[x], t', d', top');
    }
  }

  /** Trading places leaves a tree exactly when neither node is an ancestor of the other. */
  lemma SwapKeepsTree(t: Forest, d: seq<nat>, top: nat, x: nat, y: nat)
    requires Tree(t, d, top) && x < |t.parent| && y < |t.parent| && x != y && t.parent[x] != x && t.parent[y] != y
    ensures IsTree(SwapTree(t, x, y)) <==> !Below(t, d, top, x, y) && !Below(t, d, top, y, x)
  {
    var t' := SwapTree(t, x, y);
    if Below(t, d, top, x, y) {
      SwapLoop(t, d, top, x, y, t');
    } else if Below(t, d, top, y, x) {
      SwapLoop(t, d, top, y, x, t');
    } else {
      SwapApart(t, d, top, x, y);
    }
  }

  /** A childless node is nobody's ancestor. */
  lemma ChildlessApart(t: Forest, d: seq<nat>, top: nat, x: nat, y: nat)
    requires Tree(t, d, top) && x < |t.parent| && y < |t.parent| && x != y && t.kids[y] == []
    ensures !Below(t, d, top, x, y)
  {
    if Below(t, d, top, x, y) {
      var j := BelowChild(t, d, top, x, y);
    }
  }
}
