/** Attaching and detaching mounts (fs/namespace.c): the tree, the hash of lookup_mnt and the count d_mounted. */
module MountTable {
  import opened Lists
  import opened TreeMoves
  import opened TreeWalk

  /** Where a mount and a directory are hashed. */
  type Hash = (nat, nat) -> nat

  /** root and point are mnt_root and mnt_mountpoint; hash is mount_hashtable; mounted is d_mounted of each
      directory. */
  datatype Table = Table(t: Forest, root: seq<nat>, point: seq<nat>, hash: seq<seq<nat>>, mounted: seq<int>)

  predicate Attached(s: Table, m: nat) {
    m < |s.t.parent| && s.t.parent[m] != m
  }

  /** m is mounted on directory e of mount p. */
  predicate MountedAt(s: Table, m: nat, p: nat, e: nat) {
    Attached(s, m) && m < |s.point| && s.t.parent[m] == p && s.point[m] == e
  }

  predicate Sized(s: Table) {
    && |s.t.parent| == |s.t.kids| == |s.root| == |s.point|
    && (forall m {:trigger s.point[m]} :: 0 <= m < |s.point| ==> s.point[m] < |s.mounted|)
    && (forall m {:trigger s.root[m]} :: 0 <= m < |s.root| ==> s.root[m] < |s.mounted|)
  }

  ghost predicate InRange(h: Hash, size: nat) {
    forall p, e :: h(p, e) < size
  }

  /** The hash chains hold exactly the attached mounts, each once and in the chain of its parent and mountpoint. */
  ghost predicate HashOk(h: Hash, s: Table) {
    && InRange(h, |s.hash|) && Sized(s)
    && (forall b {:trigger s.hash[b]} :: 0 <= b < |s.hash| ==> NoDup(s.hash[b]))
    && (forall b, m {:trigger m in s.hash[b]} :: 0 <= b < |s.hash| && m in s.hash[b] ==>
          m < |s.t.parent| && s.t.parent[m] != m && h(s.t.parent[m], s.point[m]) == b)
    && (forall m {:trigger s.t.parent[m]} :: 0 <= m < |s.t.parent| && s.t.parent[m] != m ==>
          m in s.hash[h(s.t.parent[m], s.point[m])])
  }

  /** How many of the first k mounts are attached to directory e. */
  function CountAt(parent: seq<nat>, point: seq<nat>, e: nat, k: nat): nat
    requires k <= |parent| && k <= |point|
  {
    if k == 0 then 0
    else CountAt(parent, point, e, k - 1) + if parent[k - 1] != k - 1 && point[k - 1] == e then 1 else 0
  }

  predicate CountOk(s: Table) {
    && Sized(s)
    && forall e {:trigger s.mounted[e]} :: 0 <= e < |s.mounted| ==>
       s.mounted[e] == CountAt(s.t.parent, s.point, e, |s.point|)
  }

  ghost predicate Inv(h: Hash, s: Table, d: seq<nat>, top: nat) {
    Tree(s.t, d, top) && Sized(s) && HashOk(h, s) && CountOk(s)
  }

  // ---------------------------------------------------------------- the two operations

  /** detach_mnt */
  function Detached(h: Hash, s: Table, m: nat): Table
    requires Sized(s) && Attached(s, m) && s.t.parent[m] < |s.t.kids| && h(s.t.parent[m], s.point[m]) < |s.hash|
  {
    var b, e := h(s.t.parent[m], s.point[m]), s.point[m];
    Table(DetachTree(s.t, m), s.root, s.point[m := s.root[m]], s.hash[b := Minus(s.hash[b], m)],
          s.mounted[e := s.mounted[e] - 1])
  }

  /** attach_mnt */
  function AttachedTo(h: Hash, s: Table, m: nat, p: nat, e: nat): Table
    requires Sized(s) && m < |s.t.parent| && p < |s.t.kids| && e < |s.mounted| && h(p, e) < |s.hash|
  {
    Table(AttachTree(s.t, m, p), s.root, s.point[m := e], s.hash[h(p, e) := [m] + s.hash[h(p, e)]],
          s.mounted[e := s.mounted[e] + 1])
  }

  /** A mount that is not attached anywhere, and has nothing mounted on it. */
  function Added(s: Table, root: nat): Table {
    var n := |s.t.parent|;
    Table(Forest(s.t.parent + [n], s.t.kids + [[]]), s.root + [root], s.point + [root], s.hash, s.mounted)
  }

  /** A mount that is not attached notes where it would be, as the root of a copy does. */
  function Noted(s: Table, m: nat, e: nat): Table
    requires m < |s.point|
  {
    s.(point := s.point[m := e])
  }

  // ---------------------------------------------------------------- the hash and the counts

  lemma DetachKeepsHash(h: Hash, s: Table, d: seq<nat>, top: nat, m: nat)
    requires Tree(s.t, d, top) && HashOk(h, s) && Attached(s, m)
    ensures HashOk(h, Detached(h, s, m))
  {
    var b := h(s.t.parent[m], s.point[m]);
    MinusNoDup(s.hash[b], m);
  }

  lemma AttachKeepsHash(h: Hash, s: Table, m: nat, p: nat, e: nat)
    requires HashOk(h, s) && m < |s.t.parent| && s.t.parent[m] == m && p < |s.t.parent| && e < |s.mounted| && p != m
    ensures HashOk(h, AttachedTo(h, s, m, p, e))
  {
    var b := h(p, e);
    assert m !in s.hash[b];
    PushNoDup(s.hash[b], m);
  }

  /** Two tables of mounts that differ at m only count alike but for m. */
  lemma {:induction false} CountChange(parent: seq<nat>, point: seq<nat>, m: nat, p: nat, q: nat, e: nat, k: nat)
    requires |parent| == |point| && k <= |point| && m < |point|
    ensures CountAt(parent[m := p], point[m := q], e, k) ==
            CountAt(parent, point, e, k)
            + (if m < k && p != m && q == e then 1 else 0) - (if m < k && parent[m] != m && point[m] == e then 1 else 0)
  {
    if k > 0 {
      CountChange(parent, point, m, p, q, e, k - 1);
    }
  }

  lemma DetachKeepsCount(h: Hash, s: Table, m: nat)
    requires CountOk(s) && Attached(s, m) && s.t.parent[m] < |s.t.kids| && h(s.t.parent[m], s.point[m]) < |s.hash|
    ensures CountOk(Detached(h, s, m))
  {
    var s' := Detached(h, s, m);
    forall e {:trigger s'.mounted[e]} | 0 <= e < |s'.mounted|
        ensures s'.mounted[e] == CountAt(s'.t.parent, s'.point, e, |s'.point|) {
      CountChange(s.t.parent, s.point, m, m, s.root[m], e, |s.point|);
    }
  }

  lemma AttachKeepsCount(h: Hash, s: Table, m: nat, p: nat, e: nat)
    requires CountOk(s) && m < |s.t.parent| && s.t.parent[m] == m && p < |s.t.parent| && e < |s.mounted| && p != m
    requires h(p, e) < |s.hash|
    ensures CountOk(AttachedTo(h, s, m, p, e))
  {
    var s' := AttachedTo(h, s, m, p, e);
    forall f {:trigger s'.mounted[f]} | 0 <= f < |s'.mounted|
        ensures s'.mounted[f] == CountAt(s'.t.parent, s'.point, f, |s'.point|) {
      CountChange(s.t.parent, s.point, m, p, e, f, |s.point|);
    }
  }

  lemma {:induction false} CountAppend(parent: seq<nat>, point: seq<nat>, p: nat, q: nat, e: nat, k: nat)
    requires |parent| == |point| && k <= |point|
    ensures CountAt(parent + [p], point + [q], e, k) == CountAt(parent, point, e, k)
  {
    if k > 0 {
      CountAppend(parent, point, p, q, e, k - 1);
    }
  }

  /** d_mounted is not zero exactly when something is mounted on the directory. */
  lemma {:induction false} CountPositive(parent: seq<nat>, point: seq<nat>, e: nat, k: nat)
    requires |parent| == |point| && k <= |point|
    ensures CountAt(parent, point, e, k) > 0 <==> exists m :: 0 <= m < k && parent[m] != m && point[m] == e
  {
    if k > 0 {
      CountPositive(parent, point, e, k - 1);
    }
  }

  // ---------------------------------------------------------------- the invariant

  lemma DetachKeeps(h: Hash, s: Table, d: seq<nat>, top: nat, m: nat)
    requires Inv(h, s, d, top) && Attached(s, m)
    ensures Inv(h, Detached(h, s, m), d, top)
  {
    DetachKeepsTree(s.t, d, top, m);
    DetachKeepsHash(h, s, d, top, m);
    DetachKeepsCount(h, s, m);
    hide Tree, HashOk, CountOk;
  }

  lemma AttachKeeps(h: Hash, s: Table, d: seq<nat>, top: nat, m: nat, p: nat, e: nat)
    requires Inv(h, s, d, top) && m < |s.t.parent| && s.t.parent[m] == m && p < |s.t.parent| && e < |s.mounted|
    requires !Below(s.t, d, top, p, m)
    ensures Inv(h, AttachedTo(h, s, m, p, e), Sunk(s.t, d, top, m, p), 2 * top + 1)
  {
    AttachKeepsTree(s.t, d, top, m, p);
    AttachKeepsHash(h, s, m, p, e);
    AttachKeepsCount(h, s, m, p, e);
    hide Tree, HashOk, CountOk;
  }

  lemma AddKeeps(h: Hash, s: Table, d: seq<nat>, top: nat, root: nat)
    requires Inv(h, s, d, top) && root < |s.mounted|
    ensures Inv(h, Added(s, root), d + [0], top)
  {
    var s' := Added(s, root);
    forall e {:trigger s'.mounted[e]} | 0 <= e < |s'.mounted|
        ensures s'.mounted[e] == CountAt(s'.t.parent, s'.point, e, |s'.point|) {
      CountAppend(s.t.parent, s.point, |s.t.parent|, root, e, |s.point|);
    }
  }

  lemma NoteKeeps(h: Hash, s: Table, d: seq<nat>, top: nat, m: nat, e: nat)
    requires Inv(h, s, d, top) && m < |s.t.parent| && s.t.parent[m] == m && e < |s.mounted|
    ensures Inv(h, Noted(s, m, e), d, top)
  {
    var s' := Noted(s, m, e);
    assert s.t.parent[m := m] == s.t.parent;
    forall f {:trigger s'.mounted[f]} | 0 <= f < |s'.mounted|
        ensures s'.mounted[f] == CountAt(s'.t.parent, s'.point, f, |s'.point|) {
      CountChange(s.t.parent, s.point, m, m, e, f, |s.point|);
    }
  }

  function Empty(buckets: nat, directories: nat): Table {
    Table(Forest([], []), [], [], seq(buckets, _ => []), seq(directories, _ => 0))
  }

  lemma EmptyInv(h: Hash, buckets: nat, directories: nat)
    requires InRange(h, buckets)
    ensures Inv(h, Empty(buckets, directories), [], 0)
  {
    var s := Empty(buckets, directories);
    assert forall b {:trigger s.hash[b]} :: 0 <= b < |s.hash| ==> s.hash[b] == [];
  }

  // ---------------------------------------------------------------- runs

  ghost predicate Good(h: Hash, s: Table) {
    exists d, top :: Inv(h, s, d, top)
  }

  /** The ranges that every step relies on. */
  ghost predicate GoodSizes(h: Hash, s: Table) {
    Sized(s) && InRange(h, |s.hash|)
  }

  ghost predicate DetachStep(h: Hash, s: Table, s': Table, m: nat) {
    GoodSizes(h, s) && Attached(s, m) && s.t.parent[m] < |s.t.kids| && s' == Detached(h, s, m)
  }

  /** m is the root of a tree that p is not in. */
  ghost predicate Apart(s: Table, m: nat, p: nat) {
    exists d, top :: ApartBy(s, d, top, m, p)
  }

  ghost predicate ApartBy(s: Table, d: seq<nat>, top: nat, m: nat, p: nat) {
    Tree(s.t, d, top) && m < |s.t.parent| && p < |s.t.parent| && !Below(s.t, d, top, p, m)
  }

  ghost predicate AttachStep(h: Hash, s: Table, s': Table, m: nat, p: nat, e: nat) {
    && GoodSizes(h, s) && Apart(s, m, p) && m < |s.t.parent| && s.t.parent[m] == m && p < |s.t.kids| && e < |s.mounted|
    && s' == AttachedTo(h, s, m, p, e)
  }

  ghost predicate AddStep(s: Table, s': Table, root: nat) {
    root < |s.mounted| && s' == Added(s, root)
  }

  ghost predicate NoteStep(s: Table, s': Table, m: nat, e: nat) {
    Sized(s) && m < |s.t.parent| && s.t.parent[m] == m && e < |s.mounted| && s' == Noted(s, m, e)
  }

  ghost predicate Next(h: Hash, s: Table, s': Table) {
    || (exists m :: DetachStep(h, s, s', m))
    || (exists m, p, e :: AttachStep(h, s, s', m, p, e))
    || (exists root :: AddStep(s, s', root))
    || (exists m, e :: NoteStep(s, s', m, e))
  }

  lemma NextKeeps(h: Hash, s: Table, s': Table)
    requires Good(h, s) && Next(h, s, s')
    ensures Good(h, s')
  {
    hide Tree, Below, Detached, AttachedTo, Added, Noted, Sized, HashOk, CountOk;
    var d, top :| Inv(h, s, d, top);
    if m: nat :| DetachStep(h, s, s', m) {
      DetachKeeps(h, s, d, top, m);
    } else if m: nat, p: nat, e: nat :| AttachStep(h, s, s', m, p, e) {
      var d1, top1 :| ApartBy(s, d1, top1, m, p);
      assert Inv(h, s, d1, top1);
      AttachKeeps(h, s, d1, top1, m, p, e);
    } else if root: nat :| AddStep(s, s', root) {
      AddKeeps(h, s, d, top, root);
    } else {
      var m: nat, e: nat :| NoteStep(s, s', m, e);
      NoteKeeps(h, s, d, top, m, e);
    }
  }

  ghost predicate Run(h: Hash, states: seq<Table>) {
    forall i :: 0 <= i < |states| - 1 ==> Next(h, states[i], states[i + 1])
  }

  /** In every run the parents stay a tree, the hash holds the attached mounts and d_mounted counts them. */
  lemma {:induction false} RunGood(h: Hash, states: seq<Table>, i: nat)
    requires Run(h, states) && i < |states| && Good(h, states[0])
    ensures Good(h, states[i])
  {
    if i > 0 {
      RunGood(h, states, i - 1);
      assert Next(h, states[i - 1], states[i - 1 + 1]);
      NextKeeps(h, states[i - 1], states[i]);
    }
  }

  /** Detaching undoes attaching, down to the order in the child lists and in the hash chains. */
  lemma DetachUndoesAttach(h: Hash, s: Table, d: seq<nat>, top: nat, m: nat, p: nat, e: nat)
    requires Inv(h, s, d, top) && m < |s.t.parent| && s.t.parent[m] == m && p < |s.t.parent| && e < |s.mounted|
    requires p != m
    requires s.point[m] == s.root[m]
    ensures Detached(h, AttachedTo(h, s, m, p, e), m) == s
  {
    assert m !in s.t.kids[p] && m !in s.hash[h(p, e)];
    hide Tree, HashOk, CountOk;
    MinusAbsent(s.t.kids[p], m);
    MinusAbsent(s.hash[h(p, e)], m);
    var s1 := AttachedTo(h, s, m, p, e);
    assert ([m] + s.t.kids[p])[1..] == s.t.kids[p];
    assert ([m] + s.hash[h(p, e)])[1..] == s.hash[h(p, e)];
    assert Minus([m] + s.t.kids[p], m) == s.t.kids[p];
    assert Minus([m] + s.hash[h(p, e)], m) == s.hash[h(p, e)];
    var s2 := Detached(h, s1, m);
    assert s2.t.parent == s.t.parent && s2.t.kids == s.t.kids && s2.point == s.point && s2.hash == s.hash;
    assert s2.mounted == s.mounted;
  }
}
