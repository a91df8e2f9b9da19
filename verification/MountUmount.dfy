/** What umount_tree (fs/namespace.c) leaves of a mount table, and how it undoes an unfinished copy_tree. */
module MountUmount {
  import opened Lists
  import opened MountCopy
  import opened MountTable
  import opened TreeMoves
  import opened TreeWalk

  /** The mounts in gone stand alone, the others are as before, but without the children that are gone. */
  predicate Umounted(s: Table, s': Table, gone: set<nat>)
    requires Sized(s)
  {
    && Sized(s') && |s'.t.parent| == |s.t.parent| && s'.root == s.root && |s'.mounted| == |s.mounted| &&
       |s'.hash| == |s.hash|
    && (forall x {:trigger s'.t.parent[x]} {:trigger s'.point[x]} {:trigger s'.t.kids[x]} :: 0 <= x < |s.t.parent| ==>
          UmountedAt(s, s', gone, x))
    && (forall b {:trigger s'.hash[b]} :: 0 <= b < |s.hash| ==> s'.hash[b] == Keep(s.hash[b], gone))
  }

  predicate UmountedAt(s: Table, s': Table, gone: set<nat>, x: nat)
    requires Sized(s) && Sized(s') && |s'.t.parent| == |s.t.parent| && x < |s.t.parent|
  {
    if x in gone then
      s'.t.parent[x] == x && s'.t.kids[x] == [] && s'.point[x] == if s.t.parent[x] == x then s.point[x] else s.root[x]
    else
      s'.t.parent[x] == s.t.parent[x] && s'.point[x] == s.point[x] && s'.t.kids[x] == Keep(s.t.kids[x], gone)
  }

  lemma UmountedStart(s: Table)
    requires Sized(s)
    ensures Umounted(s, s, {})
  {
    forall x | 0 <= x < |s.t.parent| ensures UmountedAt(s, s, {}, x) {
      KeepNone(s.t.kids[x], {});
    }
    forall b | 0 <= b < |s.hash| ensures s.hash[b] == Keep(s.hash[b], {}) {
      KeepNone(s.hash[b], {});
    }
  }

  /** One more mount gone, all of whose children are. */
  lemma UmountedStep(h: Hash, s: Table, d: seq<nat>, top: nat, s1: Table, gone: set<nat>, m: nat)
    requires Sized(s) && Umounted(s, s1, gone) && Inv(h, s1, d, top) && m < |s.t.parent| && m !in gone
    requires Tree(s.t, d, top)
    requires forall c :: c in s.t.kids[m] ==> c in gone
    requires s.t.parent[m] != m ==> s.t.parent[m] !in gone
    ensures s1.t.kids[m] == []
    ensures s.t.parent[m] != m ==> Attached(s1, m) && Umounted(s, Detached(h, s1, m), gone + {m})
    ensures s.t.parent[m] == m ==> s1.t.parent[m] == m && Umounted(s, s1, gone + {m})
  {
    hide Tree, HashOk, CountOk, Sized, UmountedAt, Keep;
    StepRanges(h, s, d, top, s1, gone, m);
    var s2 := Detached1(h, s1, m);
    DetachSized(h, s1, m);
    UmountedHere(s, s1, gone, m);
    forall x | 0 <= x < |s.t.parent| ensures UmountedAt(s, s2, gone + {m}, x) {
      UmountedHere(s, s1, gone, x);
      UmountedStepAt(h, s, d, top, s1, gone, m, x);
    }
    forall b | 0 <= b < |s.hash| ensures s2.hash[b] == Keep(s.hash[b], gone + {m}) {
      UmountedChain(h, s, d, top, s1, gone, m, b);
    }
  }

  lemma UmountedHere(s: Table, s1: Table, gone: set<nat>, x: nat)
    requires Sized(s) && Umounted(s, s1, gone) && x < |s.t.parent|
    ensures UmountedAt(s, s1, gone, x)
  {
  }

  lemma StepRanges(h: Hash, s: Table, d: seq<nat>, top: nat, s1: Table, gone: set<nat>, m: nat)
    requires Sized(s) && Umounted(s, s1, gone) && Inv(h, s1, d, top) && m < |s.t.parent| && m !in gone
    requires forall c :: c in s.t.kids[m] ==> c in gone
    ensures |s.t.kids| == |s.root| == |s.point| == |s.t.parent| == |s1.t.kids| == |s1.root| == |s1.point|
    ensures s1.t.kids[m] == [] && s1.t.parent[m] == s.t.parent[m]
    ensures s1.t.parent[m] < |s1.t.kids| && InRange(h, |s1.hash|) && s1.point[m] < |s1.mounted|
  {
    assert UmountedAt(s, s1, gone, m);
    KeepNone(s.t.kids[m], gone);
  }

  lemma DetachSized(h: Hash, s1: Table, m: nat)
    requires Sized(s1) && m < |s1.t.parent| && s1.t.parent[m] < |s1.t.kids|
    requires h(s1.t.parent[m], s1.point[m]) < |s1.hash|
    ensures Sized(Detached1(h, s1, m))
    ensures Attached(s1, m) ==> Sized(Detached(h, s1, m))
  {
  }

  /** m is detached if it is attached. */
  function Detached1(h: Hash, s: Table, m: nat): Table
    requires Sized(s) && m < |s.t.parent| && s.t.parent[m] < |s.t.kids| && h(s.t.parent[m], s.point[m]) < |s.hash|
  {
    if s.t.parent[m] != m then Detached(h, s, m) else s
  }

  lemma UmountedStepAt(h: Hash, s: Table, d: seq<nat>, top: nat, s1: Table, gone: set<nat>, m: nat, x: nat)
    requires Sized(s) && Sized(s1) && |s1.t.parent| == |s.t.parent| && s1.root == s.root && Tree(s.t, d, top)
    requires x < |s.t.parent| && m < |s.t.parent| && m !in gone && UmountedAt(s, s1, gone, x)
    requires UmountedAt(s, s1, gone, m)
    requires s1.t.kids[m] == [] && s1.t.parent[m] < |s1.t.kids| && h(s1.t.parent[m], s1.point[m]) < |s1.hash|
    requires s.t.parent[m] != m ==> s.t.parent[m] !in gone
    ensures Sized(Detached1(h, s1, m)) && UmountedAt(s, Detached1(h, s1, m), gone + {m}, x)
  {
    DetachSized(h, s1, m);
    KeepMinus(s.t.kids[x], gone, m);
    if x != s.t.parent[m] || x == m {
      NotAChild(s, d, top, gone, m, x);
    }
    hide Tree, Keep, Minus;
  }

  lemma UmountedChain(h: Hash, s: Table, d: seq<nat>, top: nat, s1: Table, gone: set<nat>, m: nat, b: nat)
    requires Sized(s) && Umounted(s, s1, gone) && Inv(h, s1, d, top) && m < |s.t.parent| && b < |s.hash|
    requires h(s1.t.parent[m], s1.point[m]) < |s1.hash|
    ensures |Detached1(h, s1, m).hash| == |s.hash| && Detached1(h, s1, m).hash[b] == Keep(s.hash[b], gone + {m})
  {
    KeepMinus(s.hash[b], gone, m);
    if s1.t.parent[m] == m || b != h(s1.t.parent[m], s1.point[m]) {
      assert m !in s1.hash[b];
      MinusAbsent(s1.hash[b], m);
    }
  }

  lemma NotAChild(s: Table, d: seq<nat>, top: nat, gone: set<nat>, m: nat, x: nat)
    requires Tree(s.t, d, top) && m < |s.t.parent| && x < |s.t.parent| && (x != s.t.parent[m] || x == m)
    ensures Minus(Keep(s.t.kids[x], gone), m) == Keep(s.t.kids[x], gone)
  {
    assert m !in s.t.kids[x];
    KeepMember(s.t.kids[x], gone, m);
    MinusAbsent(Keep(s.t.kids[x], gone), m);
  }

  /** In the walk of next_mnt no mount comes before one it is below of. */
  lemma {:induction false} DescendantsLater(t: Forest, d: seq<nat>, top: nat, mnt: nat, i: nat, j: nat)
    requires Tree(t, d, top) && mnt < |t.parent| && i < j < |Pre(t, d, top, mnt)|
    ensures !Below(t, d, top, Pre(t, d, top, mnt)[i], Pre(t, d, top, mnt)[j])
  {
    var walk := Pre(t, d, top, mnt);
    WalkFacts1(t, d, top, mnt, i);
    WalkFacts1(t, d, top, mnt, j);
    hide Pre, Up, Below, Tree;
    if Below(t, d, top, walk[i], walk[j]) {
      if i > 0 {
        ParentFirst(t, d, top, mnt, i);
        BelowStep(t, d, top, walk[i], walk[j]);
        var k :| 0 <= k < i && walk[k] == t.parent[walk[i]];
        DescendantsLater(t, d, top, mnt, k, j);
      } else {
        RootAbove(t, d, top, mnt, walk[j]);
      }
    }
  }

  lemma WalkFacts1(t: Forest, d: seq<nat>, top: nat, mnt: nat, i: nat)
    requires Tree(t, d, top) && mnt < |t.parent| && i < |Pre(t, d, top, mnt)|
    ensures var walk := Pre(t, d, top, mnt);
            && NoDup(walk) && walk[0] == mnt && walk[i] < |t.parent| && Below(t, d, top, walk[i], mnt)
            && (i > 0 ==> t.parent[walk[i]] != walk[i])
  {
    WalkIsPreorder(t, d, top, mnt);
    assert Pre(t, d, top, mnt)[i] in Pre(t, d, top, mnt);
  }

  lemma RootAbove(t: Forest, d: seq<nat>, top: nat, mnt: nat, x: nat)
    requires Tree(t, d, top) && Below(t, d, top, x, mnt) && Below(t, d, top, mnt, x)
    ensures x == mnt
  {
  }

  function GoneFrom(walk: seq<nat>, v: nat): set<nat>
    requires v <= |walk|
  {
    set x | x in walk[v..]
  }

  /** What the last step of umount_tree's second loop finds. */
  lemma GoneStep(t: Forest, d: seq<nat>, top: nat, mnt: nat, v: nat)
    requires Tree(t, d, top) && mnt < |t.parent| && 0 < v <= |Pre(t, d, top, mnt)|
    ensures var walk := Pre(t, d, top, mnt);
            var m := walk[v - 1];
            && m < |t.parent| && m !in GoneFrom(walk, v) && GoneFrom(walk, v - 1) == GoneFrom(walk, v) + {m}
            && (forall c :: c in t.kids[m] ==> c in GoneFrom(walk, v))
            && (t.parent[m] != m ==> t.parent[m] !in GoneFrom(walk, v))
  {
    var walk := Pre(t, d, top, mnt);
    var m := walk[v - 1];
    WalkFacts1(t, d, top, mnt, v - 1);
    assert walk[v - 1..] == [m] + walk[v..];
    forall c | c in t.kids[m] ensures c in GoneFrom(walk, v) {
      KidLater(t, d, top, mnt, v, c);
    }
    if t.parent[m] != m {
      ParentEarlier(t, d, top, mnt, v);
    }
  }

  lemma KidLater(t: Forest, d: seq<nat>, top: nat, mnt: nat, v: nat, c: nat)
    requires Tree(t, d, top) && mnt < |t.parent| && 0 < v <= |Pre(t, d, top, mnt)|
    requires Pre(t, d, top, mnt)[v - 1] < |t.kids| && c in t.kids[Pre(t, d, top, mnt)[v - 1]]
    ensures c in Pre(t, d, top, mnt)[v..]
  {
    var walk := Pre(t, d, top, mnt);
    var m := walk[v - 1];
    WalkFacts1(t, d, top, mnt, v - 1);
    BelowKid(t, d, top, m, c, mnt);
    BelowKid(t, d, top, m, c, m);
    PreMember(t, d, top, mnt, c);
    hide Pre, Up, Below, NoDup;
    var i :| 0 <= i < |walk| && walk[i] == c;
    if i < v - 1 {
      DescendantsLater(t, d, top, mnt, i, v - 1);
    }
    assert c != m;
    assert walk[v..][i - v] == c;
  }

  lemma ParentEarlier(t: Forest, d: seq<nat>, top: nat, mnt: nat, v: nat)
    requires Tree(t, d, top) && mnt < |t.parent| && 0 < v <= |Pre(t, d, top, mnt)|
    requires Pre(t, d, top, mnt)[v - 1] < |t.parent|
    requires t.parent[Pre(t, d, top, mnt)[v - 1]] != Pre(t, d, top, mnt)[v - 1]
    ensures t.parent[Pre(t, d, top, mnt)[v - 1]] !in Pre(t, d, top, mnt)[v..]
  {
    var walk := Pre(t, d, top, mnt);
    var m := walk[v - 1];
    forall j | v <= j < |walk| ensures walk[j] != t.parent[m] {
      DescendantsLater(t, d, top, mnt, v - 1, j);
      BelowParent(t, d, top, m, m);
    }
  }

  lemma NoneGone(walk: seq<nat>)
    ensures GoneFrom(walk, |walk|) == {}
  {
  }

  lemma AllGone(walk: seq<nat>, v: nat)
    requires v <= |walk| && Rev(walk[..v]) == []
    ensures v == 0
  {
  }

  lemma UmountedRange(s: Table, s1: Table, gone: set<nat>)
    requires Sized(s) && Umounted(s, s1, gone)
    ensures |s1.t.parent| == |s.t.parent| == |s1.t.kids|
  {
  }

  /** A mount without children can be attached anywhere. */
  lemma LeafApart(h: Hash, s: Table, d: seq<nat>, top: nat, p: nat, m: nat)
    requires Inv(h, s, d, top) && p < |s.t.parent| && m < |s.t.kids| && p != m && s.t.kids[m] == []
    ensures Tree(s.t, d, top) && !Below(s.t, d, top, p, m)
  {
    ChildlessApart(s.t, d, top, p, m);
  }

  /** A clone of m attached to b, in the table and as copy_tree sees it. */
  lemma AddAttach(h: Hash, s: Table, m: nat, b: nat, sb: seq<nat>, fs: nat)
    requires Sized(s) && InRange(h, |s.hash|) && m < |s.t.parent| && b < |s.t.parent|
    ensures Sized(Added(s, s.root[m])) && b < |Added(s, s.root[m]).t.kids|
    ensures var s' := AttachedTo(h, Added(s, s.root[m]), |s.t.parent|, b, s.point[m]);
            var c := h(b, s.point[m]);
            && s'.hash == s.hash[c := [|s.t.parent|] + s.hash[c]] && |s'.mounted| == |s.mounted|
            && Space(s'.t, s'.root, s'.point, sb + [fs]) ==
               MountCopy.Attach(Space(s.t, s.root, s.point, sb), b, s.root[m], s.point[m], fs)
  {
    var s' := AttachedTo(h, Added(s, s.root[m]), |s.t.parent|, b, s.point[m]);
    assert s'.t.parent == s.t.parent + [b];
    assert s'.t.kids == s.t.kids[b := [|s.t.parent|] + s.t.kids[b]] + [[]];
    assert s'.point == s.point + [s.point[m]];
  }

  // ---------------------------------------------------------------- an unfinished copy is taken back

  /** The mounts from n up to m. */
  function Clones(n: nat, m: nat): (r: set<nat>)
    ensures forall x: nat :: x in r <==> n <= x < m
  {
    if m <= n then {} else Clones(n, m - 1) + {m - 1}
  }

  /** Without the clones the chains are what they were. */
  predicate Kept(hash: seq<seq<nat>>, hash0: seq<seq<nat>>, n: nat, m: nat) {
    |hash| == |hash0| && forall b {:trigger hash[b]} :: 0 <= b < |hash0| ==> Keep(hash[b], Clones(n, m)) == hash0[b]
  }

  lemma KeptStart(hash: seq<seq<nat>>, n: nat)
    requires forall b, x {:trigger x in hash[b]} :: 0 <= b < |hash| && x in hash[b] ==> x < n
    ensures Kept(hash, hash, n, n + 1)
  {
    forall b | 0 <= b < |hash| ensures Keep(hash[b], Clones(n, n + 1)) == hash[b] {
      KeepNone(hash[b], Clones(n, n + 1));
    }
  }

  lemma KeptPush(hash: seq<seq<nat>>, hash0: seq<seq<nat>>, n: nat, m: nat, c: nat)
    requires Kept(hash, hash0, n, m) && n <= m && c < |hash|
    requires forall b, x {:trigger x in hash0[b]} :: 0 <= b < |hash0| && x in hash0[b] ==> x < n
    ensures Kept(hash[c := [m] + hash[c]], hash0, n, m + 1)
  {
    var hash' := hash[c := [m] + hash[c]];
    assert Clones(n, m + 1) == Clones(n, m) + {m};
    forall b | 0 <= b < |hash0| ensures Keep(hash'[b], Clones(n, m + 1)) == hash0[b] {
      KeepMinus(hash[b], Clones(n, m), m);
      assert m !in hash0[b];
      MinusAbsent(hash0[b], m);
      assert ([m] + hash[c])[1..] == hash[c];
    }
  }

  /** The clones stand alone, and all the rest is as it was. */
  predicate Undone(s: Table, s': Table) {
    var n := |s.t.parent|;
    && |s'.t.parent| == |s'.t.kids| == |s'.root| == |s'.point| >= n
    && s'.t.parent[..n] == s.t.parent && s'.t.kids[..n] == s.t.kids && s'.root[..n] == s.root &&
       s'.point[..n] == s.point
    && s'.hash == s.hash && s'.mounted == s.mounted
    && forall x {:trigger s'.t.parent[x]} :: n <= x < |s'.t.parent| ==> s'.t.parent[x] == x && s'.t.kids[x] == []
  }

  /** What an unfinished copy of s looks like. */
  ghost predicate Unfinished(s: Table, now: Table) {
    var n := |s.t.parent|;
    && OwnTree(now.t, n) && |now.t.parent| == |now.t.kids| == |now.root| == |now.point| && |now.mounted| == |s.mounted|
    && |s.t.kids| == |s.root| == |s.point| == n
    && now.t.parent[..n] == s.t.parent && now.t.kids[..n] == s.t.kids && now.root[..n] == s.root &&
       now.point[..n] == s.point
    && Kept(now.hash, s.hash, n, |now.t.parent|)
  }

  lemma {:induction false} CountSame(parent: seq<nat>, point: seq<nat>, parent': seq<nat>, point': seq<nat>, e: nat,
                                     k: nat)
    requires |parent| == |point| <= |parent'| == |point'| && k <= |parent'|
    requires parent'[..|parent|] == parent && point'[..|parent|] == point
    requires forall x {:trigger parent'[x]} :: |parent| <= x < |parent'| ==> parent'[x] == x
    ensures CountAt(parent', point', e, k) == CountAt(parent, point, e, if k < |parent| then k else |parent|)
  {
    if k > 0 {
      CountSame(parent, point, parent', point', e, k - 1);
      assert k <= |parent| ==>
          parent'[k - 1] == parent'[..|parent|][k - 1] && point'[k - 1] == point'[..|parent|][k - 1];
    }
  }

  /** umount_tree of the root of an unfinished copy takes exactly the clones out. */
  lemma GoneAre(t: Forest, d: seq<nat>, top: nat, n: nat)
    requires Tree(t, d, top) && OwnTree(t, n)
    ensures GoneFrom(Pre(t, d, top, n), 0) == Clones(n, |t.parent|)
  {
    var walk := Pre(t, d, top, n);
    assert walk[0..] == walk;
    hide Pre, Tree, Below, Up, OwnTree;
    forall x: nat ensures x in walk <==> x in Clones(n, |t.parent|) {
      PreMember(t, d, top, n, x);
      BelowRange(t, d, top, n, x);
      if x < |t.parent| {
        OwnBelow(t, d, top, n, x);
      }
    }
  }

  lemma BelowRange(t: Forest, d: seq<nat>, top: nat, n: nat, x: nat)
    requires Tree(t, d, top)
    ensures Below(t, d, top, x, n) ==> x < |t.parent|
  {
  }

  lemma UmountUndoes(h: Hash, s: Table, d0: seq<nat>, top0: nat, now: Table, d: seq<nat>, top: nat, s': Table)
    requires Inv(h, s, d0, top0) && Inv(h, now, d, top) && Unfinished(s, now) && CountOk(s')
    requires Umounted(now, s', GoneFrom(Pre(now.t, d, top, |s.t.parent|), 0))
    ensures Undone(s, s')
  {
    var n := |s.t.parent|;
    GoneAre(now.t, d, top, n);
    hide Pre, GoneFrom, HashOk;
    forall x | 0 <= x < |now.t.parent| ensures UndoneAt(s, s', x) {
      assert UmountedAt(now, s', Clones(n, |now.t.parent|), x);
      UndoneHere(s, d0, top0, now, s', x);
    }
    UndoneAll(s, s');
    hide Tree;
    forall e | 0 <= e < |s.mounted| ensures s'.mounted[e] == s.mounted[e] {
      CountSame(s.t.parent, s.point, s'.t.parent, s'.point, e, |s'.point|);
    }
    assert s'.hash == s.hash;
  }

  predicate UndoneAt(s: Table, s': Table, x: nat) {
    && |s.t.parent| == |s.t.kids| == |s.root| == |s.point| &&
       x < |s'.t.parent| == |s'.t.kids| == |s'.root| == |s'.point|
    && if x < |s.t.parent| then
         s'.t.parent[x] == s.t.parent[x] && s'.t.kids[x] == s.t.kids[x] && s'.point[x] == s.point[x] &&
             s'.root[x] == s.root[x]
       else
         s'.t.parent[x] == x && s'.t.kids[x] == []
  }

  lemma UndoneAll(s: Table, s': Table)
    requires |s.t.parent| <= |s'.t.parent| && forall x :: 0 <= x < |s'.t.parent| ==> UndoneAt(s, s', x)
    requires |s.t.parent| == |s.t.kids| == |s.root| == |s.point|
    requires |s'.t.parent| == |s'.t.kids| == |s'.root| == |s'.point|
    ensures var n := |s.t.parent|;
            s'.t.parent[..n] == s.t.parent && s'.t.kids[..n] == s.t.kids && s'.root[..n] == s.root &&
                s'.point[..n] == s.point
    ensures forall x {:trigger s'.t.parent[x]} :: |s.t.parent| <= x < |s'.t.parent| ==>
            s'.t.parent[x] == x && s'.t.kids[x] == []
  {
    var n := |s.t.parent|;
    forall x | 0 <= x < n
        ensures s'.t.parent[x] == s.t.parent[x] && s'.t.kids[x] == s.t.kids[x] && s'.point[x] == s.point[x]
        ensures s'.root[x] == s.root[x] {
      assert UndoneAt(s, s', x);
    }
    forall x {:trigger s'.t.parent[x]} | n <= x < |s'.t.parent| ensures s'.t.parent[x] == x && s'.t.kids[x] == [] {
      assert UndoneAt(s, s', x);
    }
  }

  lemma UndoneHere(s: Table, d0: seq<nat>, top0: nat, now: Table, s': Table, x: nat)
    requires Tree(s.t, d0, top0) && Unfinished(s, now) && Sized(now) && Sized(s') && |s'.t.parent| == |now.t.parent|
    requires s'.root == now.root
    requires x < |now.t.parent| && UmountedAt(now, s', Clones(|s.t.parent|, |now.t.parent|), x)
    ensures UndoneAt(s, s', x)
  {
    var n := |s.t.parent|;
    if x < n {
      assert now.t.parent[..n][x] == now.t.parent[x] && now.t.kids[..n][x] == now.t.kids[x];
      assert now.root[..n][x] == now.root[x] && now.point[..n][x] == now.point[x];
      KeepNone(now.t.kids[x], Clones(n, |now.t.parent|));
    }
  }

  lemma CopyStarts(h: Hash, s: Table, d: seq<nat>, top: nat)
    requires Inv(h, s, d, top)
    ensures Kept(s.hash, s.hash, |s.t.parent|, |s.t.parent| + 1)
    ensures forall b, x {:trigger x in s.hash[b]} :: 0 <= b < |s.hash| && x in s.hash[b] ==> x < |s.t.parent|
  {
    KeptStart(s.hash, |s.t.parent|);
  }

  /** While copy_tree is at work the copy so far is a tree of its own. */
  lemma CopyUnfinished(s0: Table, s: Space, d: seq<nat>, top: nat, mnt: nat, dentry: nat, now: Table, sb: seq<nat>,
                       v: nat, cnt: seq<nat>)
    requires SpaceOk(s, d, top) && s == Space(s0.t, s0.root, s0.point, s.sb) && |now.mounted| == |s0.mounted|
    requires Ready(s, d, top, mnt, dentry, Space(now.t, now.root, now.point, sb), v, cnt)
    requires Kept(now.hash, s0.hash, |s0.t.parent|, |s0.t.parent| + v)
    ensures Unfinished(s0, now)
  {
    hide Pre, Kept, Copied, Tree, OwnTree;
    ReadyOwnTree(s, d, top, mnt, dentry, Space(now.t, now.root, now.point, sb), v, cnt);
  }

  lemma ReadyOwnTree(s: Space, d: seq<nat>, top: nat, mnt: nat, dentry: nat, now: Space, v: nat, cnt: seq<nat>)
    requires Ready(s, d, top, mnt, dentry, now, v, cnt)
    ensures OwnTree(now.t, |s.t.parent|)
  {
    hide Pre, Copied, NoDup;
    var walk, n := Pre(s.t, d, top, mnt), |s.t.parent|;
    WalkFacts(s, d, top, mnt);
    forall x | 0 <= x < n ensures now.t.parent[x] < n {
      assert now.t.parent[x] == now.t.parent[..n][x];
    }
    forall x | n < x < |now.t.parent| ensures n <= now.t.parent[x] < x {
      assert Copied(s, walk, now, v, x - n, cnt[x - n]);
      EarlierParent(s, walk, now, v, x - n, cnt[x - n]);
    }
  }

  lemma EarlierParent(s: Space, walk: seq<nat>, now: Space, v: nat, k: nat, c: nat)
    requires |s.t.parent| == |s.t.kids| == |s.root| == |s.point| == |s.sb|
    requires |now.t.parent| == |now.t.kids| == |now.root| == |now.point| == |now.sb| == |s.t.parent| + v
    requires 0 < k < v <= |walk| && NoDup(walk) && Copied(s, walk, now, v, k, c)
    ensures |s.t.parent| <= now.t.parent[|s.t.parent| + k] < |s.t.parent| + k
  {
    hide IndexOf;
    var i :| 0 <= i < k && walk[i] == s.t.parent[walk[k]];
    IndexOnly(walk, i);
  }
}
