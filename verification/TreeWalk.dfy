/** Parent pointers with ordered child lists, as of mounts (fs/namespace.c) and of dentries (fs/dcache.c),
    and the walk through a subtree that next_mnt makes. */
module TreeWalk {
  import opened Lists

  /** The parent and the children of every node; nodes are numbered. The root of a tree is its own parent. */
  datatype Forest = Forest(parent: seq<nat>, kids: seq<seq<nat>>)

  /** The child lists are the inverse of the parent pointers, and a depth rises along them. */
  predicate Tree(t: Forest, d: seq<nat>, top: nat) {
    && |t.parent| == |t.kids| == |d|
    && (forall m {:trigger t.parent[m]} :: 0 <= m < |t.parent| ==> t.parent[m] < |t.parent|)
    && (forall m {:trigger d[m]} :: 0 <= m < |d| ==> d[m] <= top)
    && (forall m {:trigger t.kids[m]} :: 0 <= m < |t.kids| ==> NoDup(t.kids[m]))
    && (forall m, c {:trigger c in t.kids[m]} :: 0 <= m < |t.kids| && c in t.kids[m] ==>
       c < |t.parent| && t.parent[c] == m && c != m)
    && (forall c {:trigger t.parent[c]} :: 0 <= c < |t.parent| && t.parent[c] != c ==>
          c in t.kids[t.parent[c]] && d[c] == d[t.parent[c]] + 1)
  }

  // ---------------------------------------------------------------- the subtree, in preorder

  function Pre(t: Forest, d: seq<nat>, top: nat, m: nat): seq<nat>
    requires Tree(t, d, top) && m < |t.parent|
    decreases top - d[m], |t.kids[m]| + 1
  {
    [m] + PreKids(t, d, top, m, 0)
  }

  /** The subtrees of the children from the j-th on. */
  function PreKids(t: Forest, d: seq<nat>, top: nat, m: nat, j: nat): seq<nat>
    requires Tree(t, d, top) && m < |t.parent| && j <= |t.kids[m]|
    decreases top - d[m], |t.kids[m]| - j
  {
    if j == |t.kids[m]| then []
    else
      assert t.kids[m][j] in t.kids[m];
      Pre(t, d, top, t.kids[m][j]) + PreKids(t, d, top, m, j + 1)
  }

  /** The ancestor of x at a level, or x itself if it is not deeper. */
  function Up(t: Forest, d: seq<nat>, top: nat, x: nat, level: nat): nat
    requires Tree(t, d, top) && x < |t.parent|
    decreases d[x]
  {
    if d[x] <= level || t.parent[x] == x then x else Up(t, d, top, t.parent[x], level)
  }

  predicate Below(t: Forest, d: seq<nat>, top: nat, x: nat, m: nat)
    requires Tree(t, d, top)
  {
    x < |t.parent| && m < |t.parent| && d[x] >= d[m] && Up(t, d, top, x, d[m]) == m
  }

  /** Whoever is below a child is below its parent. */
  lemma {:induction false} BelowParent(t: Forest, d: seq<nat>, top: nat, x: nat, k: nat)
    requires Tree(t, d, top) && Below(t, d, top, x, k) && t.parent[k] != k
    ensures Below(t, d, top, x, t.parent[k])
    decreases d[x]
  {
    var m := t.parent[k];
    if x == k {
      assert Up(t, d, top, k, d[m]) == Up(t, d, top, m, d[m]);
    } else {
      BelowParent(t, d, top, t.parent[x], k);
    }
  }

  /** Whoever is strictly below m is below one of its children. */
  lemma {:induction false} BelowChild(t: Forest, d: seq<nat>, top: nat, x: nat, m: nat) returns (j: nat)
    requires Tree(t, d, top) && Below(t, d, top, x, m) && x != m
    ensures j < |t.kids[m]| && Below(t, d, top, x, t.kids[m][j])
    decreases d[x]
  {
    var p := t.parent[x];
    if p == m {
      j :| 0 <= j < |t.kids[m]| && t.kids[m][j] == x;
    } else {
      j := BelowChild(t, d, top, p, m);
      var k := t.kids[m][j];
      assert k in t.kids[m];
    }
  }

  lemma {:induction false} PreKidsMember(t: Forest, d: seq<nat>, top: nat, m: nat, j: nat, x: nat)
    requires Tree(t, d, top) && m < |t.parent| && j <= |t.kids[m]|
    ensures x in PreKids(t, d, top, m, j) <==> exists i :: j <= i < |t.kids[m]| && Below(t, d, top, x, t.kids[m][i])
    decreases top - d[m], |t.kids[m]| - j
  {
    if j < |t.kids[m]| {
      var k := t.kids[m][j];
      assert k in t.kids[m];
      PreMember(t, d, top, k, x);
      PreKidsMember(t, d, top, m, j + 1, x);
      var rest := PreKids(t, d, top, m, j + 1);
      assert PreKids(t, d, top, m, j) == Pre(t, d, top, k) + rest;
      hide Pre, PreKids, Up, Below;
      assert x in PreKids(t, d, top, m, j) <==> Below(t, d, top, x, k) || x in rest;
    }
  }

  /** The preorder of m holds exactly the mounts below it. */
  lemma {:induction false} PreMember(t: Forest, d: seq<nat>, top: nat, m: nat, x: nat)
    requires Tree(t, d, top) && m < |t.parent|
    ensures x in Pre(t, d, top, m) <==> Below(t, d, top, x, m)
    decreases top - d[m], |t.kids[m]| + 1
  {
    PreKidsMember(t, d, top, m, 0, x);
    if x in PreKids(t, d, top, m, 0) {
      var i :| 0 <= i < |t.kids[m]| && Below(t, d, top, x, t.kids[m][i]);
      assert t.kids[m][i] in t.kids[m];
      BelowParent(t, d, top, x, t.kids[m][i]);
    }
    if Below(t, d, top, x, m) && x != m {
      var j := BelowChild(t, d, top, x, m);
    }
  }

  /** Subtrees of different children are disjoint. */
  lemma ChildrenDisjoint(t: Forest, d: seq<nat>, top: nat, m: nat, i: nat, j: nat, x: nat)
    requires Tree(t, d, top) && m < |t.parent| && i < |t.kids[m]| && j < |t.kids[m]|
    requires Below(t, d, top, x, t.kids[m][i]) && Below(t, d, top, x, t.kids[m][j])
    ensures i == j
  {
    hide Up;
    assert t.kids[m][i] in t.kids[m] && t.kids[m][j] in t.kids[m];
  }

  lemma {:induction false} PreKidsNoDup(t: Forest, d: seq<nat>, top: nat, m: nat, j: nat)
    requires Tree(t, d, top) && m < |t.parent| && j <= |t.kids[m]|
    ensures NoDup(PreKids(t, d, top, m, j))
    decreases top - d[m], |t.kids[m]| - j
  {
    if j < |t.kids[m]| {
      var k := t.kids[m][j];
      assert k in t.kids[m];
      PreNoDup(t, d, top, k);
      PreKidsNoDup(t, d, top, m, j + 1);
      var a, b := Pre(t, d, top, k), PreKids(t, d, top, m, j + 1);
      forall x | x in a ensures x !in b {
        PreMember(t, d, top, k, x);
        PreKidsMember(t, d, top, m, j + 1, x);
        if i :| j + 1 <= i < |t.kids[m]| && Below(t, d, top, x, t.kids[m][i]) {
          ChildrenDisjoint(t, d, top, m, i, j, x);
        }
      }
      NoDupAppend(a, b);
    }
  }

  lemma {:induction false} PreNoDup(t: Forest, d: seq<nat>, top: nat, m: nat)
    requires Tree(t, d, top) && m < |t.parent|
    ensures NoDup(Pre(t, d, top, m))
    decreases top - d[m], |t.kids[m]| + 1
  {
    PreKidsNoDup(t, d, top, m, 0);
    RootOnce(t, d, top, m);
    NoDupAppend([m], PreKids(t, d, top, m, 0));
  }

  // ---------------------------------------------------------------- the walk

  /** The next sibling of the nearest ancestor-or-self that has one, not going above root. */
  function Climb(t: Forest, d: seq<nat>, top: nat, x: nat, root: nat): Option<nat>
    requires Tree(t, d, top) && x < |t.parent|
    decreases d[x]
  {
    if x == root || t.parent[x] == x then None
    else
      var p := t.parent[x];
      var i := IndexOf(t.kids[p], x);
      if i + 1 < |t.kids[p]| then Some(t.kids[p][i + 1]) else Climb(t, d, top, p, root)
  }

  function After(t: Forest, d: seq<nat>, top: nat, x: nat, root: nat): Option<nat>
    requires Tree(t, d, top) && x < |t.parent|
  {
    if t.kids[x] != [] then Some(t.kids[x][0]) else Climb(t, d, top, x, root)
  }

  /** next_mnt: the mount after p in the tree of root. */
  method NextMnt(t: Forest, ghost d: seq<nat>, ghost top: nat, p0: nat, root: nat) returns (next: Option<nat>)
    requires Tree(t, d, top) && Below(t, d, top, p0, root)
    ensures next == After(t, d, top, p0, root)
  {
    var p := p0;
    if t.kids[p] != [] {
      return Some(t.kids[p][0]);
    }
    while true
      invariant Below(t, d, top, p, root)
      invariant Climb(t, d, top, p, root) == Climb(t, d, top, p0, root)
      decreases d[p]
    {
      if p == root {
        return None;
      }
      var siblings := t.kids[t.parent[p]];
      var i := IndexOf(siblings, p);
      if i + 1 < |siblings| {
        return Some(siblings[i + 1]);
      }
      p := t.parent[p];
    }
  }

  lemma ClimbChild(t: Forest, d: seq<nat>, top: nat, m: nat, j: nat, root: nat)
    requires Tree(t, d, top) && m < |t.parent| && j < |t.kids[m]| && t.kids[m][j] != root
    ensures t.kids[m][j] < |t.parent|
    ensures Climb(t, d, top, t.kids[m][j], root) ==
            if j + 1 < |t.kids[m]| then Some(t.kids[m][j + 1]) else Climb(t, d, top, m, root)
  {
    var k := t.kids[m][j];
    assert k in t.kids[m];
    assert IndexOf(t.kids[m], k) == j;
  }

  lemma RootOnce(t: Forest, d: seq<nat>, top: nat, m: nat)
    requires Tree(t, d, top) && m < |t.parent|
    ensures m !in PreKids(t, d, top, m, 0)
  {
    PreKidsMember(t, d, top, m, 0, m);
    forall i | 0 <= i < |t.kids[m]| ensures !Below(t, d, top, m, t.kids[m][i]) {
      assert t.kids[m][i] in t.kids[m];
    }
  }

  /** The walk goes through the children's subtrees in order and then leaves towards the right of m. */
  lemma {:induction false} AfterKids(t: Forest, d: seq<nat>, top: nat, m: nat, j: nat, root: nat, i: nat)
    requires Tree(t, d, top) && m < |t.parent| && j <= |t.kids[m]|
    requires root !in PreKids(t, d, top, m, j) && i < |PreKids(t, d, top, m, j)|
    ensures PreKids(t, d, top, m, j)[i] < |t.parent|
    ensures var s := PreKids(t, d, top, m, j);
            After(t, d, top, s[i], root) == if i + 1 < |s| then Some(s[i + 1]) else Climb(t, d, top, m, root)
    decreases top - d[m], |t.kids[m]| - j
  {
    hide Up, Below, IndexOf, NoDup;
    var k := t.kids[m][j];
    assert k in t.kids[m];
    var a, b := Pre(t, d, top, k), PreKids(t, d, top, m, j + 1);
    assert PreKids(t, d, top, m, j) == a + b;
    assert a[0] == k;
    if i < |a| {
      AfterIn(t, d, top, k, root, i);
      ClimbChild(t, d, top, m, j, root);
      if j + 1 < |t.kids[m]| {
        assert t.kids[m][j + 1] in t.kids[m];
        assert b == Pre(t, d, top, t.kids[m][j + 1]) + PreKids(t, d, top, m, j + 2);
        assert b[0] == t.kids[m][j + 1];
      }
    } else {
      AfterKids(t, d, top, m, j + 1, root, i - |a|);
    }
  }

  /** next_mnt goes from each mount of a subtree to the next one in preorder, and from the last one out of it. */
  lemma {:induction false} AfterIn(t: Forest, d: seq<nat>, top: nat, m: nat, root: nat, i: nat)
    requires Tree(t, d, top) && m < |t.parent|
    requires root == m || root !in Pre(t, d, top, m)
    requires i < |Pre(t, d, top, m)|
    ensures Pre(t, d, top, m)[i] < |t.parent|
    ensures var s := Pre(t, d, top, m);
            After(t, d, top, s[i], root) == if i + 1 < |s| then Some(s[i + 1]) else Climb(t, d, top, m, root)
    decreases top - d[m], |t.kids[m]| + 1
  {
    hide Up, Below, IndexOf, NoDup;
    var rest := PreKids(t, d, top, m, 0);
    assert Pre(t, d, top, m) == [m] + rest;
    if root == m {
      RootOnce(t, d, top, m);
    }
    if i > 0 {
      AfterKids(t, d, top, m, 0, root, i - 1);
    } else if t.kids[m] != [] {
      assert t.kids[m][0] in t.kids[m];
      assert rest == Pre(t, d, top, t.kids[m][0]) + PreKids(t, d, top, m, 1);
      assert rest[0] == t.kids[m][0];
    }
  }

  /** next_mnt leads from the i-th of s to the one behind it, or ends there. */
  predicate Leads(t: Forest, d: seq<nat>, top: nat, s: seq<nat>, root: nat, i: nat)
    requires Tree(t, d, top) && i < |s|
  {
    s[i] < |t.parent| && After(t, d, top, s[i], root) == if i + 1 < |s| then Some(s[i + 1]) else None
  }

  /** Started at the root, next_mnt enumerates exactly the mounts below it, once each, parents first. */
  lemma WalkIsPreorder(t: Forest, d: seq<nat>, top: nat, root: nat)
    requires Tree(t, d, top) && root < |t.parent|
    ensures var s := Pre(t, d, top, root);
            && s[0] == root && NoDup(s)
            && (forall x :: x in s <==> Below(t, d, top, x, root))
            && (forall i :: 0 <= i < |s| ==> Leads(t, d, top, s, root, i))
  {
    PreNoDup(t, d, top, root);
    var s := Pre(t, d, top, root);
    forall x ensures x in s <==> Below(t, d, top, x, root) {
      PreMember(t, d, top, root, x);
    }
    forall i | 0 <= i < |s| ensures Leads(t, d, top, s, root, i) {
      AfterIn(t, d, top, root, root, i);
    }
  }

  // ---------------------------------------------------------------- parents first

  lemma {:induction false} KidsParentFirst(t: Forest, d: seq<nat>, top: nat, m: nat, j: nat, i: nat)
    requires Tree(t, d, top) && m < |t.parent| && j <= |t.kids[m]| && i < |PreKids(t, d, top, m, j)|
    ensures PreKids(t, d, top, m, j)[i] < |t.parent|
    ensures var s := PreKids(t, d, top, m, j); t.parent[s[i]] == m || t.parent[s[i]] in s[..i]
    decreases top - d[m], |t.kids[m]| - j
  {
    var k := t.kids[m][j];
    assert k in t.kids[m];
    var a, b := Pre(t, d, top, k), PreKids(t, d, top, m, j + 1);
    var s := PreKids(t, d, top, m, j);
    assert s == a + b && a[0] == k;
    hide Tree;
    if i >= |a| {
      KidsParentFirst(t, d, top, m, j + 1, i - |a|);
      assert s[..i] == a + b[..i - |a|];
    } else if i > 0 {
      ParentFirst(t, d, top, k, i);
      assert s[..i] == a[..i];
    }
  }

  /** In preorder a mount comes behind its parent. */
  lemma {:induction false} ParentFirst(t: Forest, d: seq<nat>, top: nat, m: nat, i: nat)
    requires Tree(t, d, top) && m < |t.parent| && 0 < i < |Pre(t, d, top, m)|
    ensures Pre(t, d, top, m)[i] < |t.parent|
    ensures t.parent[Pre(t, d, top, m)[i]] in Pre(t, d, top, m)[..i]
    decreases top - d[m], |t.kids[m]| + 1
  {
    var rest := PreKids(t, d, top, m, 0);
    assert Pre(t, d, top, m) == [m] + rest;
    hide Tree;
    KidsParentFirst(t, d, top, m, 0, i - 1);
    assert Pre(t, d, top, m)[..i] == [m] + rest[..i - 1];
  }

  // ---------------------------------------------------------------- the walk of fs/dcache.c

  /** What is to the right of x below root, in preorder. */
  function Right(t: Forest, d: seq<nat>, top: nat, x: nat, root: nat): seq<nat>
    requires Tree(t, d, top) && x < |t.parent|
    decreases d[x]
  {
    if x == root || t.parent[x] == x then []
    else
      var p := t.parent[x];
      PreKids(t, d, top, p, IndexOf(t.kids[p], x) + 1) + Right(t, d, top, p, root)
  }

  /** What is still to visit when the walk stands before the i-th child of x. */
  function Rest(t: Forest, d: seq<nat>, top: nat, x: nat, i: nat, root: nat): seq<nat>
    requires Tree(t, d, top) && x < |t.parent| && i <= |t.kids[x]|
  {
    PreKids(t, d, top, x, i) + Right(t, d, top, x, root)
  }

  /** The child itself comes next; then its children or, if it has none, the following sibling. */
  lemma RestVisit(t: Forest, d: seq<nat>, top: nat, x: nat, i: nat, root: nat)
    requires Tree(t, d, top) && Below(t, d, top, x, root) && i < |t.kids[x]|
    ensures var k := t.kids[x][i];
            && k < |t.parent| && Below(t, d, top, k, root)
            && Rest(t, d, top, x, i, root) == [k] + Rest(t, d, top, k, 0, root)
            && (t.kids[k] == [] ==> Rest(t, d, top, k, 0, root) == Rest(t, d, top, x, i + 1, root))
  {
    var k := t.kids[x][i];
    assert k in t.kids[x];
    assert IndexOf(t.kids[x], k) == i;
    assert k != root;
    var a, b, c := PreKids(t, d, top, k, 0), PreKids(t, d, top, x, i + 1), Right(t, d, top, x, root);
    assert PreKids(t, d, top, x, i) == ([k] + a) + b;
    assert Right(t, d, top, k, root) == b + c;
    assert (([k] + a) + b) + c == [k] + (a + (b + c));
  }

  /** After the last child the walk goes on behind x. */
  lemma RestAscend(t: Forest, d: seq<nat>, top: nat, x: nat, root: nat)
    requires Tree(t, d, top) && Below(t, d, top, x, root) && x != root
    ensures var p := t.parent[x];
            && p < |t.parent| && p != x && d[p] < d[x] && Below(t, d, top, p, root) && x in t.kids[p]
            && Rest(t, d, top, x, |t.kids[x]|, root) == Rest(t, d, top, p, IndexOf(t.kids[p], x) + 1, root)
  {
    hide Tree, Below, Rest, Right, Pre, PreKids, IndexOf;
    ParentBelow(t, d, top, x, root);
    NoKidsLeft(t, d, top, x);
    RightStep(t, d, top, x, root);
  }

  lemma RightStep(t: Forest, d: seq<nat>, top: nat, x: nat, root: nat)
    requires Tree(t, d, top) && x < |t.parent| && x != root && t.parent[x] != x
    ensures t.parent[x] < |t.kids| && x in t.kids[t.parent[x]]
    ensures Right(t, d, top, x, root) == Rest(t, d, top, t.parent[x], IndexOf(t.kids[t.parent[x]], x) + 1, root)
    ensures PreKids(t, d, top, x, |t.kids[x]|) == [] ==>
            Rest(t, d, top, x, |t.kids[x]|, root) == Right(t, d, top, x, root)
  {
    var right := Right(t, d, top, x, root);
    assert [] + right == right;
  }

  lemma ParentBelow(t: Forest, d: seq<nat>, top: nat, x: nat, root: nat)
    requires Tree(t, d, top) && Below(t, d, top, x, root) && x != root
    ensures x < |t.parent| == |t.kids| == |d|
    ensures var p := t.parent[x]; p < |t.parent| && p != x && d[p] < d[x] && Below(t, d, top, p, root) && x in t.kids[p]
  {
  }

  lemma NoKidsLeft(t: Forest, d: seq<nat>, top: nat, x: nat)
    requires Tree(t, d, top) && x < |t.parent|
    ensures PreKids(t, d, top, x, |t.kids[x]|) == []
  {
  }

  lemma RestStart(t: Forest, d: seq<nat>, top: nat, root: nat)
    requires Tree(t, d, top) && root < |t.parent|
    ensures Pre(t, d, top, root) == [root] + Rest(t, d, top, root, 0, root)
    ensures Rest(t, d, top, root, |t.kids[root]|, root) == []
  {
  }
}
