/** The calls on the mount table (fs/namespace.c): lookup_mnt, check_mnt, do_move_mount, graft_tree, umount_tree. */
module MountCalls {
  import opened Lists
  import opened MountCopy
  import opened MountTable
  import opened MountUmount
  import opened TreeMoves
  import opened TreeWalk

  datatype Errno = OK | EINVAL | ENOENT | ENOTDIR | ELOOP

  /** What the calls ask of a directory: removed, not reachable by name any more, a directory at all. */
  datatype Facts = Facts(dead: bool, gone: bool, dir: bool)

  /** The root of the tree m is in. */
  function TopOf(t: Forest, d: seq<nat>, top: nat, m: nat): nat
    requires Tree(t, d, top) && m < |t.parent|
    decreases d[m]
  {
    if t.parent[m] == m then m else TopOf(t, d, top, t.parent[m])
  }

  /** A root has below it exactly the mounts of its own tree. */
  lemma {:induction false} BelowTop(t: Forest, d: seq<nat>, top: nat, x: nat, m: nat)
    requires Tree(t, d, top) && x < |t.parent| && m < |t.parent| && t.parent[m] == m
    ensures Below(t, d, top, x, m) <==> TopOf(t, d, top, x) == m
    decreases d[x]
  {
    if t.parent[x] != x {
      if x != m {
        BelowStep(t, d, top, x, m);
      }
      BelowTop(t, d, top, t.parent[x], m);
    }
  }

  /** The first mount in a chain that is mounted on e of p. */
  function First(s: Table, chain: seq<nat>, p: nat, e: nat): Option<nat> {
    if chain == [] then None
    else if MountedAt(s, chain[0], p, e) then Some(chain[0]) else First(s, chain[1..], p, e)
  }

  lemma {:induction false} FirstIs(s: Table, chain: seq<nat>, p: nat, e: nat)
    ensures First(s, chain, p, e).None? <==> forall m :: m in chain ==> !MountedAt(s, m, p, e)
    ensures First(s, chain, p, e).Some? ==>
            First(s, chain, p, e).value in chain && MountedAt(s, First(s, chain, p, e).value, p, e)
  {
    if chain != [] {
      FirstIs(s, chain[1..], p, e);
      assert chain == [chain[0]] + chain[1..];
    }
  }

  /** What lookup_mnt finds: the mount most recently attached to the place. */
  ghost function Found(h: Hash, s: Table, p: nat, e: nat): Option<nat>
    requires HashOk(h, s)
  {
    First(s, s.hash[h(p, e)], p, e)
  }

  ghost predicate Free(s: Table, p: nat, e: nat) {
    forall m :: !MountedAt(s, m, p, e)
  }

  /** lookup_mnt agrees with the attached mounts. */
  lemma FoundIsMounted(h: Hash, s: Table, p: nat, e: nat)
    requires HashOk(h, s)
    ensures Found(h, s, p, e).None? <==> Free(s, p, e)
    ensures Found(h, s, p, e).Some? ==> MountedAt(s, Found(h, s, p, e).value, p, e)
  {
    FirstIs(s, s.hash[h(p, e)], p, e);
    if Found(h, s, p, e).None? {
      forall m: nat ensures !MountedAt(s, m, p, e) {}
    }
  }

  lemma {:induction false} FirstSame(s: Table, s': Table, chain: seq<nat>, p: nat, e: nat)
    requires forall m :: m in chain ==> (MountedAt(s, m, p, e) <==> MountedAt(s', m, p, e))
    ensures First(s, chain, p, e) == First(s', chain, p, e)
  {
    if chain != [] {
      assert chain[0] in chain;
      FirstSame(s, s', chain[1..], p, e);
    }
  }

  /** Attaching changes what lookup_mnt finds at that place, and nowhere else. */
  lemma FoundAfterAttach(h: Hash, s: Table, m: nat, p: nat, e: nat, q: nat, f: nat)
    requires HashOk(h, s) && m < |s.t.parent| && s.t.parent[m] == m && p < |s.t.parent| && e < |s.mounted| && p != m
    requires HashOk(h, AttachedTo(h, s, m, p, e))
    ensures Found(h, AttachedTo(h, s, m, p, e), q, f) == if q == p && f == e then Some(m) else Found(h, s, q, f)
  {
    var s' := AttachedTo(h, s, m, p, e);
    var chain := s.hash[h(q, f)];
    assert m !in chain;
    assert h(q, f) == h(p, e) ==> s'.hash[h(q, f)] == [m] + chain && ([m] + chain)[1..] == chain;
    hide HashOk;
    if q == p && f == e {
      assert MountedAt(s', m, p, e);
    } else {
      FirstSame(s, s', chain, q, f);
    }
  }

  /** Attaching is a step that keeps the table in order. */
  lemma AttachIsStep(h: Hash, s: Table, d: seq<nat>, top: nat, m: nat, p: nat, e: nat)
    requires Inv(h, s, d, top) && m < |s.t.parent| && s.t.parent[m] == m && p < |s.t.parent| && e < |s.mounted|
    requires !Below(s.t, d, top, p, m)
    ensures Sized(s) && h(p, e) < |s.hash| && |s.root| == |s.point| == |s.t.parent| == |s.t.kids| == |d|
    ensures AttachedTo(h, s, m, p, e).root == s.root && Tree(s.t, d, top)
    ensures Inv(h, AttachedTo(h, s, m, p, e), Sunk(s.t, d, top, m, p), 2 * top + 1)
    ensures Next(h, s, AttachedTo(h, s, m, p, e)) && HashOk(h, AttachedTo(h, s, m, p, e))
    ensures Found(h, AttachedTo(h, s, m, p, e), p, e) == Some(m)
  {
    AttachKeeps(h, s, d, top, m, p, e);
    FoundAfterAttach(h, s, m, p, e, p, e);
    assert ApartBy(s, d, top, m, p);
    assert AttachStep(h, s, AttachedTo(h, s, m, p, e), m, p, e);
    hide Tree, CountOk, Below, Found, AttachStep;
  }

  lemma {:induction false} FirstMinus(s: Table, s': Table, chain: seq<nat>, m: nat, p: nat, e: nat)
    requires forall x :: x in chain && x != m ==> (MountedAt(s, x, p, e) <==> MountedAt(s', x, p, e))
    requires !MountedAt(s, m, p, e)
    ensures First(s', Minus(chain, m), p, e) == First(s, chain, p, e)
  {
    if chain != [] {
      assert chain[0] in chain;
      FirstMinus(s, s', chain[1..], m, p, e);
      assert chain[0] != m ==> ([chain[0]] + Minus(chain[1..], m))[1..] == Minus(chain[1..], m);
    }
  }

  /** Detaching changes what lookup_mnt finds at no other place. */
  lemma FoundAfterDetach(h: Hash, s: Table, d: seq<nat>, top: nat, m: nat, q: nat, f: nat)
    requires Inv(h, s, d, top) && Attached(s, m) && !MountedAt(s, m, q, f) && HashOk(h, Detached(h, s, m))
    ensures Found(h, Detached(h, s, m), q, f) == Found(h, s, q, f)
  {
    var s' := Detached(h, s, m);
    var chain := s.hash[h(q, f)];
    if h(q, f) == h(s.t.parent[m], s.point[m]) {
      FirstMinus(s, s', chain, m, q, f);
    } else {
      assert m !in chain;
      FirstSame(s, s', chain, q, f);
    }
  }

  class MountSpace {
    const h: Hash
    var t: Forest
    var root: seq<nat>
    var point: seq<nat>
    var hash: seq<seq<nat>>
    var mounted: seq<int>
    var sb: seq<nat>
    ghost var d: seq<nat>
    ghost var top: nat

    ghost function Abs(): Table
      reads this
    {
      Table(t, root, point, hash, mounted)
    }

    /** What a copy is a copy of. */
    ghost function View(): Space
      reads this
    {
      Space(t, root, point, sb)
    }

    ghost predicate Valid()
      reads this
    {
      Inv(h, Abs(), d, top) && |sb| == |root|
    }

    constructor (h: Hash, buckets: nat, directories: nat)
      requires InRange(h, buckets)
      ensures Valid() && this.h == h && Abs() == Empty(buckets, directories)
    {
      EmptyInv(h, buckets, directories);
      hide Tree, HashOk, CountOk, Sized;
      var s := Empty(buckets, directories);
      this.h := h;
      t, root, point, hash, mounted := s.t, s.root, s.point, s.hash, s.mounted;
      d, top, sb := [], 0, [];
    }

    /** A mount that is not attached yet, as clone_mnt makes it. */
    method Add(e: nat, fs: nat) returns (m: nat)
      requires Valid() && e < |mounted|
      modifies this
      ensures Valid() && Abs() == Added(old(Abs()), e) && m == old(|t.parent|) && sb == old(sb) + [fs]
      ensures Next(h, old(Abs()), Abs())
    {
      hide Inv;
      m := |t.parent|;
      AddKeeps(h, Abs(), d, top, e);
      assert AddStep(Abs(), Added(Abs(), e), e);
      hide Next;
      t := Forest(t.parent + [m], t.kids + [[]]);
      root, point, sb := root + [e], point + [e], sb + [fs];
      d := d + [0];
    }

    /** The root of a copy notes where the original is mounted. */
    method Note(m: nat, e: nat)
      requires Valid() && m < |t.parent| && t.parent[m] == m && e < |mounted|
      modifies `point
      ensures Valid() && Abs() == Noted(old(Abs()), m, e)
      ensures Next(h, old(Abs()), Abs())
    {
      NoteKeeps(h, Abs(), d, top, m, e);
      assert NoteStep(Abs(), Noted(Abs(), m, e), m, e);
      hide Inv, Next;
      point := point[m := e];
    }

    /** detach_mnt */
    method Detach(m: nat)
      requires Valid() && Attached(Abs(), m)
      modifies this
      ensures Valid() && Abs() == Detached(h, old(Abs()), m) && d == old(d) && top == old(top) && sb == old(sb)
      ensures Next(h, old(Abs()), Abs())
    {
      DetachKeeps(h, Abs(), d, top, m);
      assert DetachStep(h, Abs(), Detached(h, Abs(), m), m);
      hide Tree, HashOk, CountOk, Next;
      var e, p := point[m], t.parent[m];
      var b := h(p, e);
      t := Forest(t.parent[m := m], t.kids[p := Minus(t.kids[p], m)]);
      point := point[m := root[m]];
      hash := hash[b := Minus(hash[b], m)];
      mounted := mounted[e := mounted[e] - 1];
    }

    /** attach_mnt */
    method Attach(m: nat, p: nat, e: nat)
      requires Valid() && m < |t.parent| && t.parent[m] == m && p < |t.parent| && e < |mounted|
      requires !Below(t, d, top, p, m)
      modifies this
      ensures Valid() && Abs() == AttachedTo(h, old(Abs()), m, p, e) && sb == old(sb)
      ensures Next(h, old(Abs()), Abs())
      ensures Found(h, Abs(), p, e) == Some(m)
    {
      hide Inv, HashOk, Next, Below, Found, AttachedTo, Sized;
      AttachIsStep(h, Abs(), d, top, m, p, e);
      hide Tree;
      ghost var d' := Sunk(t, d, top, m, p);
      Link(m, p, e);
      d, top := d', 2 * top + 1;
    }

    /** The fields of m once it is mounted on e of p. */
    method Link(m: nat, p: nat, e: nat)
      requires Sized(Abs()) && m < |t.parent| && p < |t.kids| && e < |mounted| && h(p, e) < |hash|
      modifies `t, `point, `hash, `mounted
      ensures Abs() == AttachedTo(h, old(Abs()), m, p, e)
    {
      t := Forest(t.parent[m := p], t.kids[p := [m] + t.kids[p]]);
      point := point[m := e];
      hash := hash[h(p, e) := [m] + hash[h(p, e)]];
      mounted := mounted[e := mounted[e] + 1];
    }

    /** lookup_mnt */
    method LookupMnt(p: nat, e: nat) returns (r: Option<nat>)
      requires Valid()
      ensures r == Found(h, Abs(), p, e)
    {
      var chain := hash[h(p, e)];
      var i := 0;
      while i < |chain|
        invariant i <= |chain|
        invariant First(Abs(), chain[i..], p, e) == First(Abs(), chain, p, e)
      {
        assert chain[i] in chain;
        if t.parent[chain[i]] == p && point[chain[i]] == e {
          return Some(chain[i]);
        }
        i := i + 1;
      }
      return None;
    }

    /** check_mnt */
    method CheckMnt(m0: nat, namespace: nat) returns (ok: bool)
      requires Valid() && m0 < |t.parent|
      ensures ok <==> TopOf(t, d, top, m0) == namespace
    {
      var m: nat := m0;
      while t.parent[m] != m
        invariant m < |t.parent| && TopOf(t, d, top, m) == TopOf(t, d, top, m0)
        decreases d[m]
      {
        m := t.parent[m];
      }
      return m == namespace;
    }

    /** The loop over follow_down: what is found there is where nothing is mounted. */
    method FollowDown(p0: nat, e0: nat) returns (p: nat, e: nat)
      requires Valid() && p0 < |t.parent| && e0 < |mounted|
      ensures p < |t.parent| && e < |mounted| && Below(t, d, top, p, p0) && Free(Abs(), p, e)
      ensures (p, e) == (p0, e0) || (p != p0 && e == root[p])
    {
      p, e := p0, e0;
      while mounted[e] != 0
        invariant p < |t.parent| && e < |mounted| && Below(t, d, top, p, p0)
        invariant (p, e) == (p0, e0) || (d[p] > d[p0] && e == root[p])
        decreases top - d[p]
      {
        var r := LookupMnt(p, e);
        FoundIsMounted(h, Abs(), p, e);
        if r.None? {
          return;
        }
        BelowStep(t, d, top, r.value, p0);
        p, e := r.value, root[r.value];
      }
      CountPositive(t.parent, point, e, |point|);
    }

    /** The guard of do_move_mount against moving a mount into itself. */
    method Inside(p: nat, m: nat) returns (inside: bool)
      requires Valid() && p < |t.parent| && Attached(Abs(), m)
      ensures inside <==> Below(t, d, top, p, m)
    {
      var q: nat := p;
      while t.parent[q] != q
        invariant q < |t.parent| && (Below(t, d, top, q, m) <==> Below(t, d, top, p, m))
        decreases d[q]
      {
        if q == m {
          return true;
        }
        BelowStep(t, d, top, q, m);
        q := t.parent[q];
      }
      return false;
    }

    /** do_move_mount, from where the names are resolved: old with its directory is moved to a place found from p0,
        e0. */
    method MoveMount(namespace: nat, p0: nat, e0: nat, old_: nat, oldDir: nat, facts: seq<Facts>)
      returns (err: Errno, p: nat, e: nat)
      requires Valid() && p0 < |t.parent| && e0 < |mounted| && old_ < |t.parent| && oldDir < |mounted|
      requires |facts| == |mounted|
      modifies this
      ensures Valid() && p < old(|t.parent|) && e < |mounted| == old(|mounted|) && Free(old(Abs()), p, e)
      ensures (p, e) == (p0, e0) || e == old(root)[p]
      ensures Tree(old(t), old(d), old(top)) && |old(root)| == |old(t.parent)| && err != ENOTDIR
      ensures err == ENOENT <==>
              && TopOf(old(t), old(d), old(top), p) == TopOf(old(t), old(d), old(top), old_) == namespace
              && (facts[e].dead || facts[e].gone)
      ensures err == OK || err == ELOOP <==>
              && TopOf(old(t), old(d), old(top), p) == TopOf(old(t), old(d), old(top), old_) == namespace
              && !facts[e].dead && !facts[e].gone && oldDir == old(root)[old_] && old(t.parent)[old_] != old_
              && facts[e].dir == facts[oldDir].dir
      ensures err == ELOOP ==> !IsTree(AttachTree(DetachTree(old(t), old_), old_, p))
      ensures err == OK ==> IsTree(AttachTree(DetachTree(old(t), old_), old_, p))
      ensures err != OK ==> Abs() == old(Abs())
      ensures err == OK ==>
                && Abs() == AttachedTo(h, Detached(h, old(Abs()), old_), old_, p, e)
                && Found(h, Abs(), p, e) == Some(old_)
    {
      hide IsTree;
      p, e := FollowDown(p0, e0);
      var here := CheckMnt(p, namespace);
      var there := CheckMnt(old_, namespace);
      if !here || !there {
        return EINVAL, p, e;
      }
      if facts[e].dead || facts[e].gone {
        return ENOENT, p, e;
      }
      if oldDir != root[old_] || old_ == t.parent[old_] || facts[e].dir != facts[oldDir].dir {
        return EINVAL, p, e;
      }
      MoveKeepsTree(t, d, top, old_, p);
      var inside := Inside(p, old_);
      if inside {
        return ELOOP, p, e;
      }
      DetachKeepsTree(t, d, top, old_);
      DetachBelow(t, d, top, old_, p);
      Detach(old_);
      Attach(old_, p, e);
      return OK, p, e;
    }

    /** graft_tree: m is the root of a tree of its own, p is in the tree of the namespace. */
    method GraftTree(namespace: nat, m: nat, noUser: bool, p: nat, e: nat, facts: seq<Facts>) returns (err: Errno)
      requires Valid() && m < |t.parent| && p < |t.parent| && e < |mounted| == |facts| && t.parent[m] == m
      requires TopOf(t, d, top, p) == namespace && m != namespace
      modifies this
      ensures Valid()
      ensures err == OK <==>
              !noUser && facts[e].dir == facts[old(root)[m]].dir && !facts[e].dead && !facts[e].gone
      ensures (err == EINVAL <==> noUser) && err != ELOOP
      ensures err == ENOTDIR <==> !noUser && facts[e].dir != facts[old(root)[m]].dir
      ensures err != OK ==> Abs() == old(Abs())
      ensures err == OK ==> Abs() == AttachedTo(h, old(Abs()), m, p, e) && Found(h, Abs(), p, e) == Some(m)
    {
      if noUser {
        return EINVAL;
      }
      if facts[e].dir != facts[root[m]].dir {
        return ENOTDIR;
      }
      if facts[e].dead || facts[e].gone {
        return ENOENT;
      }
      BelowTop(t, d, top, p, m);
      Attach(m, p, e);
      return OK;
    }

    /** The first loop of umount_tree: the subtree is put on a list, last visited first. */
    method KillList(mnt: nat) returns (kill: seq<nat>)
      requires Valid() && mnt < |t.parent|
      ensures kill == Rev(Pre(t, d, top, mnt))
    {
      ghost var walk := Pre(t, d, top, mnt);
      hide Tree, HashOk, CountOk, Pre, Below, Up;
      AtStart(t, d, top, mnt);
      AtStep(t, d, top, mnt, 0);
      var p := mnt;
      kill := [p];
      ghost var v := 1;
      assert walk[..1] == [] + [walk[0]];
      var next := NextMnt(t, d, top, p, mnt);
      while next.Some?
        invariant 0 < v <= |walk| && kill == Rev(walk[..v])
        invariant next == if v < |walk| then Some(walk[v]) else None
        decreases |walk| - v
      {
        p := next.value;
        AtStep(t, d, top, mnt, v);
        RevSnoc(walk[..v], p);
        assert walk[..v + 1] == walk[..v] + [p];
        kill := [p] + kill;
        v := v + 1;
        next := NextMnt(t, d, top, p, mnt);
      }
      assert walk[..v] == walk;
    }

    /** umount_tree: every mount of the subtree is detached, when nothing is mounted on it any more. */
    method UmountTree(mnt: nat)
      requires Valid() && mnt < |t.parent|
      modifies this
      ensures Valid() && sb == old(sb)
      ensures Umounted(old(Abs()), Abs(), GoneFrom(Pre(old(t), old(d), old(top), mnt), 0))
    {
      hide Tree, HashOk, CountOk, Umounted, GoneFrom, Rev, Next, Detached, Pre, Sized;
      ghost var s, walk := Abs(), Pre(t, d, top, mnt);
      ghost var d0, top0 := d, top;
      var kill := KillList(mnt);
      ghost var v: nat := |walk|;
      NoneGone(walk);
      assert walk[..v] == walk;
      UmountedStart(s);
      while kill != []
        invariant v <= |walk| && kill == Rev(walk[..v])
        invariant Valid() && d == d0 && top == top0 && sb == old(sb) && Umounted(s, Abs(), GoneFrom(walk, v))
        decreases v
      {
        v, kill := UmountOne(s, mnt, kill, v);
      }
      AllGone(walk, v);
    }

    /** One turn of umount_tree's second loop. */
    method UmountOne(ghost s: Table, ghost mnt: nat, kill: seq<nat>, ghost v: nat) returns (ghost v': nat,
                     kill': seq<nat>)
      requires Valid() && Tree(s.t, d, top) && Sized(s) && mnt < |s.t.parent|
      requires v <= |Pre(s.t, d, top, mnt)| && kill == Rev(Pre(s.t, d, top, mnt)[..v]) && kill != []
      requires Umounted(s, Abs(), GoneFrom(Pre(s.t, d, top, mnt), v))
      modifies this
      ensures Valid() && d == old(d) && top == old(top) && sb == old(sb) && v' == v - 1
      ensures kill' == Rev(Pre(s.t, d, top, mnt)[..v'])
      ensures Umounted(s, Abs(), GoneFrom(Pre(s.t, d, top, mnt), v'))
    {
      hide Tree, HashOk, CountOk, Umounted, GoneFrom, Next, Detached, Pre, Sized;
      ghost var walk := Pre(s.t, d, top, mnt);
      GoneStep(s.t, d, top, mnt, v);
      assert walk[..v] == walk[..v - 1] + [walk[v - 1]];
      RevSnoc(walk[..v - 1], walk[v - 1]);
      hide Rev;
      var m := kill[0];
      kill' := kill[1..];
      UmountedStep(h, s, d, top, Abs(), GoneFrom(walk, v), m);
      UmountedRange(s, Abs(), GoneFrom(walk, v));
      assert t.kids[m] == [];
      if t.parent[m] != m {
        Detach(m);
      }
      v' := v - 1;
    }

    // ---------------------------------------------------------------- copy_tree

    /** The clone that is the root of the copy. */
    method StartCopy(mnt: nat, dentry: nat) returns (q: nat)
      requires Valid() && mnt < |t.parent| && dentry < |mounted|
      modifies this
      ensures Valid() && q == old(|t.parent|) && hash == old(hash) && mounted == old(mounted)
      ensures mnt < |old(point)| == |old(sb)|
      ensures View() == Space(Forest(old(t).parent + [q], old(t).kids + [[]]), old(root) + [dentry],
                              old(point) + [old(point)[mnt]], old(sb) + [old(sb)[mnt]])
    {
      assert Sized(Abs());
      hide Inv, Next;
      q := Add(dentry, sb[mnt]);
      Note(q, point[mnt]);
    }

    /** One turn of copy_tree's loop: up to the copy of the next mount's parent, and a clone attached to it. s is the
        tree as it was before; it is still there. */
    method CloneNext(s: Space, ghost d0: seq<nat>, ghost top0: nat, ghost mnt: nat, ghost dentry: nat,
                     ghost v: nat, ghost cnt: seq<nat>, p: nat, q: nat, next: nat)
      returns (clone: nat, ghost cnt': seq<nat>)
      requires Valid() && Ready(s, d0, top0, mnt, dentry, View(), v, cnt) && v < |Pre(s.t, d0, top0, mnt)|
      requires p == Pre(s.t, d0, top0, mnt)[v - 1] && q == |s.t.parent| + v - 1 && next == Pre(s.t, d0, top0, mnt)[v]
      modifies this
      ensures Valid() && Ready(s, d0, top0, mnt, dentry, View(), v + 1, cnt')
      ensures clone == |s.t.parent| + v == old(|t.parent|)
      ensures |mounted| == old(|mounted|) && |t.parent| == clone + 1 && exists b ::
              0 <= b < |old(hash)| && hash == old(hash)[b := [clone] + old(hash)[b]]
    {
      hide Pre, Up, Below, Climb, After, Copied, NoDup, MountCopy.Attach, Tree, HashOk, CountOk, Next;
      AtStep(s.t, d0, top0, mnt, v - 1);
      AtStep(s.t, d0, top0, mnt, v);
      ghost var walk := Pre(s.t, d0, top0, mnt);
      var a, b;
      ghost var k;
      a, b, k := Ascend(s, d0, top0, mnt, walk, dentry, Space(t, root, point, sb), v, cnt, p, q, next);
      AttachPartial(s, d0, top0, walk, dentry, View(), v, cnt, k);
      cnt' := cnt[k := cnt[k] + 1] + [0];
      clone := CloneTo(next, b);
    }

    /** clone_mnt of m, and attach_mnt of the clone to b where m is mounted. */
    method CloneTo(m: nat, b: nat) returns (clone: nat)
      requires Valid() && m < |t.parent| && b < |t.parent|
      modifies this
      ensures Valid() && clone == old(|t.parent|) == |t.parent| - 1 && |mounted| == old(|mounted|)
      ensures m < |old(root)| == |old(point)| == |old(sb)|
      ensures b < |old(t).kids| && View() == MountCopy.Attach(old(View()), b, old(root)[m], old(point)[m], old(sb)[m])
      ensures exists c :: 0 <= c < |old(hash)| && hash == old(hash)[c := [clone] + old(hash)[c]]
    {
      assert Sized(Abs()) && |t.kids| == |t.parent| && InRange(h, |hash|) && root[m] < |mounted| &&
          point[m] < |mounted|;
      hide Inv, Next, Sized, InRange;
      AddAttach(h, Abs(), m, b, sb, sb[m]);
      var e := point[m];
      clone := Add(root[m], sb[m]);
      LeafApart(h, Abs(), d, top, b, clone);
      assert e == point[m] && e < |mounted|;
      hide Added, AttachedTo, MountCopy.Attach;
      Attach(clone, b, e);
      assert hash == old(hash)[h(b, e) := [clone] + old(hash)[h(b, e)]];
    }

    /** There is no memory for the next clone. */
    method Abandon(ghost s: Table, ghost d0: seq<nat>, ghost top0: nat, n: nat)
      requires Valid() && Inv(h, s, d0, top0) && Unfinished(s, Abs()) && n == |s.t.parent|
      modifies this
      ensures Valid() && Undone(s, Abs())
    {
      hide Tree, HashOk, CountOk, Umounted, Undone, Sized, Kept, GoneFrom, Pre;
      ghost var now, d1, top1 := Abs(), d, top;
      UmountTree(n);
      UmountUndoes(h, s, d0, top0, now, d1, top1, Abs());
    }

    /** copy_tree: a copy of mnt and of everything mounted below it; memory is how many clones can be had. */
    method CopyTree(mnt: nat, dentry: nat, memory: nat) returns (res: Option<nat>)
      requires Valid() && mnt < |t.parent| && dentry < |mounted|
      modifies this
      ensures Valid()
      ensures res == if memory < |Pre(old(t), old(d), old(top), mnt)| then None else Some(old(|t.parent|))
      ensures res.Some? ==> IsCopy(old(View()), View(), Pre(old(t), old(d), old(top), mnt), dentry)
      ensures res.None? ==> Undone(old(Abs()), Abs())
    {
      hide Tree, HashOk, CountOk, Pre, Up, Below, After, IsCopy, Partial, Ready, Kept, OwnTree, Next, Rev;
      ghost var s0, d0, top0 := Abs(), d, top;
      ghost var walk := Pre(t, d, top, mnt);
      AtStart(t, d, top, mnt);
      if memory == 0 {
        return None;
      }
      var n, s := |t.parent|, Space(t, root, point, sb);
      CopyStarts(h, s0, d0, top0);
      var left := memory - 1;
      var p := mnt;
      var q := StartCopy(mnt, dentry);
      ghost var v: nat, cnt: seq<nat> := 1, [0];
      FirstPartial(s, d0, top0, mnt, dentry);
      AtStep(s.t, d0, top0, mnt, 0);
      var next := NextMnt(s.t, d0, top0, p, mnt);
      while next.Some?
        invariant Valid() && Ready(s, d0, top0, mnt, dentry, View(), v, cnt) && |mounted| == old(|mounted|)
        invariant 0 < v <= |walk| && p == walk[v - 1] && q == n + v - 1 && |t.parent| == n + v
        invariant left == memory - v >= 0
        invariant next == if v < |walk| then Some(walk[v]) else None
        invariant Kept(hash, old(hash), n, n + v)
        decreases |walk| - v
      {
        if left == 0 {
          CopyUnfinished(s0, s, d0, top0, mnt, dentry, Abs(), sb, v, cnt);
          Abandon(s0, d0, top0, n);
          return None;
        }
        left := left - 1;
        ghost var was := hash;
        q, cnt := CloneNext(s, d0, top0, mnt, dentry, v, cnt, p, q, next.value);
        ghost var b :| 0 <= b < |was| && hash == was[b := [q] + was[b]];
        KeptPush(was, old(hash), n, n + v, b);
        p := next.value;
        AtStep(s.t, d0, top0, mnt, v);
        v := v + 1;
        next := NextMnt(s.t, d0, top0, p, mnt);
      }
      PartialDone(s, d0, top0, mnt, dentry, View(), cnt);
      return Some(n);
    }
  }
}
