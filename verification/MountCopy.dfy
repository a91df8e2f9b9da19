/** copy_tree (fs/namespace.c): a subtree of mounts is cloned along the walk of next_mnt. */
module MountCopy {
  import opened Lists
  import opened TreeMoves
  import opened TreeWalk

  /** A mount tree with what else a mount carries: its root, the directory it is mounted on, its superblock. */
  datatype Space = Space(t: Forest, root: seq<nat>, point: seq<nat>, sb: seq<nat>)

  predicate SpaceOk(s: Space, d: seq<nat>, top: nat) {
    Tree(s.t, d, top) && |s.root| == |s.point| == |s.sb| == |s.t.parent|
  }

  function Rev(s: seq<nat>): (r: seq<nat>)
    ensures |r| == |s| && forall i :: 0 <= i < |s| ==> r[i] == s[|s| - 1 - i]
  {
    if s == [] then [] else Rev(s[1..]) + [s[0]]
  }

  /** Where the copies of the mounts in list are, when the copies of walk were numbered from base in order. */
  function Images(walk: seq<nat>, base: nat, list: seq<nat>): (r: seq<nat>)
    requires forall c :: c in list ==> c in walk
    ensures |r| == |list| && forall i :: 0 <= i < |list| ==> list[i] in walk && r[i] == base + IndexOf(walk, list[i])
  {
    seq(|list|, i requires 0 <= i < |list| => assert list[i] in list; base + IndexOf(walk, list[i]))
  }

  lemma IndexOnly(s: seq<nat>, i: nat)
    requires NoDup(s) && i < |s|
    ensures s[i] in s && IndexOf(s, s[i]) == i
  {
  }

  lemma RevSnoc(s: seq<nat>, x: nat)
    ensures Rev(s + [x]) == [x] + Rev(s)
  {
    var a, b := Rev(s + [x]), [x] + Rev(s);
    forall i | 0 <= i < |a| ensures a[i] == b[i] {}
  }

  // ---------------------------------------------------------------- the copy

  /** new is old with a copy of the walk appended: the same parents, mountpoints, roots and superblocks, and
      the children in reverse order. Only the copy's own root has the directory the copy was asked for. */
  predicate IsCopy(old_: Space, new_: Space, walk: seq<nat>, dentry: nat) {
    var n := |old_.t.parent|;
    && |new_.t.parent| == |new_.t.kids| == |new_.root| == |new_.point| == |new_.sb| == n + |walk|
    && |old_.t.kids| == |old_.root| == |old_.point| == |old_.sb| == n
    && new_.t.parent[..n] == old_.t.parent && new_.t.kids[..n] == old_.t.kids
    && new_.root[..n] == old_.root && new_.point[..n] == old_.point && new_.sb[..n] == old_.sb
    && walk != [] && new_.t.parent[n] == n && new_.root[n] == dentry
    && (forall i :: 0 <= i < |walk| ==> CopyAt(old_, new_, walk, i))
  }

  /** The copy of walk[i], which is number n + i. */
  predicate CopyAt(old_: Space, new_: Space, walk: seq<nat>, i: nat)
    requires i < |walk|
    requires |new_.t.parent| == |new_.t.kids| == |new_.root| == |new_.point| == |new_.sb| == |old_.t.parent| + |walk|
    requires |old_.t.kids| == |old_.root| == |old_.point| == |old_.sb| == |old_.t.parent|
  {
    var n := |old_.t.parent|;
    && walk[i] < n
    && new_.point[n + i] == old_.point[walk[i]] && new_.sb[n + i] == old_.sb[walk[i]]
    && (i > 0 ==> new_.root[n + i] == old_.root[walk[i]])
    && (i > 0 ==> old_.t.parent[walk[i]] in walk && new_.t.parent[n + i] == n + IndexOf(walk, old_.t.parent[walk[i]]))
    && (forall c :: c in old_.t.kids[walk[i]] ==> c in walk)
    && new_.t.kids[n + i] == Rev(Images(walk, n, old_.t.kids[walk[i]]))
  }

  // ---------------------------------------------------------------- while copying

  /** The first v mounts of the walk are copied. cnt[k] of the children of walk[k] are among them, from the front. */
  predicate Partial(s: Space, walk: seq<nat>, dentry: nat, now: Space, v: nat, cnt: seq<nat>)
    requires |s.t.parent| == |s.t.kids| == |s.root| == |s.point| == |s.sb|
  {
    var n := |s.t.parent|;
    && 0 < v <= |walk| && |cnt| == v
    && |now.t.parent| == |now.t.kids| == |now.root| == |now.point| == |now.sb| == n + v
    && now.t.parent[..n] == s.t.parent && now.t.kids[..n] == s.t.kids
    && now.root[..n] == s.root && now.point[..n] == s.point && now.sb[..n] == s.sb
    && now.t.parent[n] == n && now.root[n] == dentry
    && (forall i {:trigger cnt[i]} :: 0 <= i < v ==> Copied(s, walk, now, v, i, cnt[i]))
  }

  predicate Copied(s: Space, walk: seq<nat>, now: Space, v: nat, i: nat, c: nat)
    requires |s.t.parent| == |s.t.kids| == |s.root| == |s.point| == |s.sb|
    requires |now.t.parent| == |now.t.kids| == |now.root| == |now.point| == |now.sb| == |s.t.parent| + v
    requires i < v <= |walk|
  {
    var n := |s.t.parent|;
    var x := walk[i];
    && x < n
    && now.point[n + i] == s.point[x] && now.sb[n + i] == s.sb[x]
    && (i > 0 ==> now.root[n + i] == s.root[x])
    && (i > 0 ==>
       s.t.parent[x] in walk[..i] && s.t.parent[x] in walk && now.t.parent[n + i] == n + IndexOf(walk, s.t.parent[x]))
    && c <= |s.t.kids[x]|
    && (forall j :: 0 <= j < c ==> s.t.kids[x][j] in walk[..v])
    && (forall j :: c <= j < |s.t.kids[x]| ==> s.t.kids[x][j] !in walk[..v])
    && (forall y :: y in s.t.kids[x][..c] ==> y in walk)
    && now.t.kids[n + i] == Rev(Images(walk, n, s.t.kids[x][..c]))
  }

  /** Climbing leads to a sibling further up. */
  lemma {:induction false} ClimbUp(t: Forest, d: seq<nat>, top: nat, x: nat, root: nat)
    requires Tree(t, d, top) && x < |t.parent| && Climb(t, d, top, x, root).Some?
    ensures var c := Climb(t, d, top, x, root).value;
            c < |t.parent| && t.parent[c] != c && d[t.parent[c]] < d[x] && x != root && t.parent[x] != x
    decreases d[x]
  {
    var p := t.parent[x];
    var i := IndexOf(t.kids[p], x);
    if i + 1 < |t.kids[p]| {
      assert t.kids[p][i + 1] in t.kids[p];
    } else {
      ClimbUp(t, d, top, p, root);
    }
  }

  /** next is a child of a, and either the first one or the one behind a visited one. */
  predicate NextChild(t: Forest, a: nat, next: nat, visited: seq<nat>)
    requires a < |t.kids|
  {
    next in t.kids[a] && (var j := IndexOf(t.kids[a], next); j == 0 || t.kids[a][j - 1] in visited)
  }

  /** One step up on the way to the parent of the next mount. */
  lemma ClimbOne(t: Forest, d: seq<nat>, top: nat, a: nat, root: nat, next: nat, visited: seq<nat>)
    requires Tree(t, d, top) && a < |t.parent| && a in visited && Climb(t, d, top, a, root) == Some(next)
    ensures a != root && t.parent[a] != a
    ensures NextChild(t, t.parent[a], next, visited) || Climb(t, d, top, t.parent[a], root) == Some(next)
    ensures next < |t.parent| && a != t.parent[next]
  {
    ClimbUp(t, d, top, a, root);
    var b := t.parent[a];
    var i := IndexOf(t.kids[b], a);
    if i + 1 < |t.kids[b]| {
      IndexOnly(t.kids[b], i + 1);
    }
  }

  lemma Start(t: Forest, d: seq<nat>, top: nat, p: nat, root: nat, next: nat, visited: seq<nat>)
    requires Tree(t, d, top) && p < |t.parent| && After(t, d, top, p, root) == Some(next)
    ensures NextChild(t, p, next, visited) || Climb(t, d, top, p, root) == Some(next)
    ensures next < |t.parent|
  {
    if t.kids[p] != [] {
      IndexOnly(t.kids[p], 0);
    } else {
      ClimbUp(t, d, top, p, root);
    }
  }

  // ---------------------------------------------------------------- one clone more

  function Attach(now: Space, parent: nat, root: nat, point: nat, sb: nat): Space
    requires parent < |now.t.kids|
  {
    var q := |now.t.parent|;
    Space(
      Forest(now.t.parent + [parent], now.t.kids[parent := [q] + now.t.kids[parent]] + [[]]),
      now.root + [root], now.point + [point], now.sb + [sb])
  }

  /** A mount whose child the next one is not. */
  lemma CopiedOther(s: Space, d: seq<nat>, top: nat, walk: seq<nat>, now: Space, v: nat, i: nat, c: nat, k: nat)
    requires SpaceOk(s, d, top) && v < |walk| && i < v && k < v && i != k && NoDup(walk)
    requires |now.t.parent| == |now.t.kids| == |now.root| == |now.point| == |now.sb| == |s.t.parent| + v
    requires Copied(s, walk, now, v, i, c) && walk[v] < |s.t.parent| && s.t.parent[walk[v]] == walk[k]
    ensures Copied(s, walk, Attach(now, |s.t.parent| + k, s.root[walk[v]], s.point[walk[v]], s.sb[walk[v]]), v + 1, i,
            c)
  {
    var x, y := walk[i], walk[v];
    assert walk[..v + 1] == walk[..v] + [y];
    forall j | 0 <= j < |s.t.kids[x]| ensures s.t.kids[x][j] != y {
      assert s.t.kids[x][j] in s.t.kids[x];
    }
  }

  lemma ImagesSnoc(walk: seq<nat>, base: nat, list: seq<nat>, x: nat)
    requires (forall c :: c in list ==> c in walk) && x in walk
    ensures (forall c :: c in list + [x] ==> c in walk)
    ensures Images(walk, base, list + [x]) == Images(walk, base, list) + [base + IndexOf(walk, x)]
  {
  }

  /** Which child the next one is: all before it are copied, it and those behind are not. */
  lemma WhichChild(s: Space, d: seq<nat>, top: nat, walk: seq<nat>, now: Space, v: nat, k: nat, c: nat)
    requires SpaceOk(s, d, top) && v < |walk| && k < v && NoDup(walk)
    requires |now.t.parent| == |now.t.kids| == |now.root| == |now.point| == |now.sb| == |s.t.parent| + v
    requires Copied(s, walk, now, v, k, c) && NextChild(s.t, walk[k], walk[v], walk[..v])
    ensures c < |s.t.kids[walk[k]]| && s.t.kids[walk[k]][c] == walk[v]
  {
    var list := s.t.kids[walk[k]];
    var j := IndexOf(list, walk[v]);
    assert walk[v] !in walk[..v];
    assert j >= c;
    assert j > 0 ==> j - 1 < c;
  }

  lemma CopiedParent(s: Space, walk: seq<nat>, now: Space, v: nat, k: nat, c: nat)
    requires |s.t.parent| == |s.t.kids| == |s.root| == |s.point| == |s.sb| && k < v < |walk| && NoDup(walk)
    requires |now.t.parent| == |now.t.kids| == |now.root| == |now.point| == |now.sb| == |s.t.parent| + v
    requires Copied(s, walk, now, v, k, c) && walk[v] < |s.t.parent| && NoDup(s.t.kids[walk[k]])
    requires c < |s.t.kids[walk[k]]| && s.t.kids[walk[k]][c] == walk[v]
    ensures Copied(s, walk, Attach(now, |s.t.parent| + k, s.root[walk[v]], s.point[walk[v]], s.sb[walk[v]]), v + 1, k,
            c + 1)
  {
    var n, list := |s.t.parent|, s.t.kids[walk[k]];
    hide Images, Rev, IndexOf;
    OneImageMore(walk, n, list, v, c);
    OneChildMore(walk, list, v, c);
    hide NoDup;
  }

  lemma OneImageMore(walk: seq<nat>, base: nat, list: seq<nat>, v: nat, c: nat)
    requires v < |walk| && NoDup(walk) && c < |list| && list[c] == walk[v] && (forall y :: y in list[..c] ==> y in walk)
    ensures (forall y :: y in list[..c + 1] ==> y in walk)
    ensures Rev(Images(walk, base, list[..c + 1])) == [base + v] + Rev(Images(walk, base, list[..c]))
  {
    hide Images, Rev, IndexOf;
    IndexOnly(walk, v);
    assert list[..c + 1] == list[..c] + [walk[v]];
    ImagesSnoc(walk, base, list[..c], walk[v]);
    RevSnoc(Images(walk, base, list[..c]), base + v);
  }

  lemma OneChildMore(walk: seq<nat>, list: seq<nat>, v: nat, c: nat)
    requires v < |walk| && NoDup(list) && c < |list| && list[c] == walk[v]
    requires forall j :: 0 <= j < c ==> list[j] in walk[..v]
    requires forall j :: c <= j < |list| ==> list[j] !in walk[..v]
    ensures forall j :: 0 <= j < c + 1 ==> list[j] in walk[..v + 1]
    ensures forall j :: c + 1 <= j < |list| ==> list[j] !in walk[..v + 1]
  {
    assert walk[..v + 1] == walk[..v] + [walk[v]];
    forall j | c + 1 <= j < |list| ensures list[j] !in walk[..v + 1] {
      assert list[j] != list[c];
    }
  }

  lemma CopiedNew(s: Space, d: seq<nat>, top: nat, mnt: nat, walk: seq<nat>, now: Space, v: nat, k: nat, cnt: seq<nat>)
    requires SpaceOk(s, d, top) && 0 < v < |walk| && k < v && NoDup(walk) && |cnt| == v
    requires mnt < |s.t.parent| && walk[0] == mnt && walk[v] < |s.t.parent| && d[walk[v]] >= d[mnt]
    requires |now.t.parent| == |now.t.kids| == |now.root| == |now.point| == |now.sb| == |s.t.parent| + v
    requires forall i {:trigger cnt[i]} :: 0 <= i < v ==> Copied(s, walk, now, v, i, cnt[i])
    requires s.t.parent[walk[v]] == walk[k]
    ensures Copied(s, walk, Attach(now, |s.t.parent| + k, s.root[walk[v]], s.point[walk[v]], s.sb[walk[v]]), v + 1, v,
            0)
  {
    var y := walk[v];
    assert walk[..v][k] == walk[k];
    IndexOnly(walk, k);
    forall j | 0 <= j < |s.t.kids[y]| ensures s.t.kids[y][j] !in walk[..v + 1] {
      var z := s.t.kids[y][j];
      assert z in s.t.kids[y];
      forall i | 0 <= i <= v ensures walk[i] != z {
        if i < v {
          assert Copied(s, walk, now, v, i, cnt[i]);
        }
      }
    }
    assert s.t.kids[y][..0] == [];
  }

  /** A clone changes nothing of the original. */
  lemma AttachShape(s: Space, now: Space, v: nat, parent: nat, root: nat, point: nat, sb: nat)
    requires |now.t.parent| == |now.t.kids| == |now.root| == |now.point| == |now.sb| == |s.t.parent| + v
    requires |s.t.parent| <= parent < |now.t.kids| && v > 0
    requires |s.t.parent| == |s.t.kids| == |s.root| == |s.point| == |s.sb|
    requires now.t.parent[..|s.t.parent|] == s.t.parent && now.t.kids[..|s.t.parent|] == s.t.kids
    requires now.root[..|s.t.parent|] == s.root && now.point[..|s.t.parent|] == s.point
    requires now.sb[..|s.t.parent|] == s.sb
    ensures var t, n := Attach(now, parent, root, point, sb), |s.t.parent|;
            && |t.t.parent| == |t.t.kids| == |t.root| == |t.point| == |t.sb| == n + v + 1
            && t.t.parent[..n] == s.t.parent && t.t.kids[..n] == s.t.kids
            && t.root[..n] == s.root && t.point[..n] == s.point && t.sb[..n] == s.sb
            && t.t.parent[n] == now.t.parent[n] && t.root[n] == now.root[n]
  {
  }

  lemma AttachPartial(s: Space, d: seq<nat>, top: nat, walk: seq<nat>, dentry: nat, now: Space, v: nat, cnt: seq<nat>,
                      k: nat)
    requires SpaceOk(s, d, top) && Partial(s, walk, dentry, now, v, cnt)
    requires v < |walk| && k < v && NoDup(walk) && walk[v] < |s.t.parent| && walk[k] < |s.t.parent|
    requires walk[0] < |s.t.parent| && d[walk[v]] >= d[walk[0]]
    requires NextChild(s.t, walk[k], walk[v], walk[..v])
    ensures |s.t.parent| + k < |now.t.kids|
    ensures Partial(s, walk, dentry, Attach(now, |s.t.parent| + k, s.root[walk[v]], s.point[walk[v]], s.sb[walk[v]]),
            v + 1,
                    cnt[k := cnt[k] + 1] + [0])
  {
    var y := walk[v];
    var now' := Attach(now, |s.t.parent| + k, s.root[y], s.point[y], s.sb[y]);
    var cnt' := cnt[k := cnt[k] + 1] + [0];
    assert s.t.parent[y] == walk[k];
    hide Copied, Attach, Tree, NextChild, NoDup;
    assert Copied(s, walk, now, v, k, cnt[k]);
    WhichChild(s, d, top, walk, now, v, k, cnt[k]);
    AttachShape(s, now, v, |s.t.parent| + k, s.root[y], s.point[y], s.sb[y]);
    forall i | 0 <= i < v + 1 ensures Copied(s, walk, now', v + 1, i, cnt'[i]) {
      AttachCopied(s, d, top, walk, now, v, cnt, k, i);
    }
  }

  lemma AttachCopied(s: Space, d: seq<nat>, top: nat, walk: seq<nat>, now: Space, v: nat, cnt: seq<nat>, k: nat, i: nat)
    requires SpaceOk(s, d, top) && k < v < |walk| && NoDup(walk) && walk[v] < |s.t.parent| && walk[k] < |s.t.parent|
    requires |now.t.parent| == |now.t.kids| == |now.root| == |now.point| == |now.sb| == |s.t.parent| + v && |cnt| == v
    requires forall i {:trigger cnt[i]} :: 0 <= i < v ==> Copied(s, walk, now, v, i, cnt[i])
    requires walk[0] < |s.t.parent| && d[walk[v]] >= d[walk[0]] && s.t.parent[walk[v]] == walk[k]
    requires cnt[k] < |s.t.kids[walk[k]]| && s.t.kids[walk[k]][cnt[k]] == walk[v] && i < v + 1
    ensures Copied(s, walk, Attach(now, |s.t.parent| + k, s.root[walk[v]], s.point[walk[v]], s.sb[walk[v]]), v + 1, i,
                   (cnt[k := cnt[k] + 1] + [0])[i])
  {
    assert |s.t.parent| == |s.t.kids| && NoDup(s.t.kids[walk[k]]);
    hide Copied, Tree, NoDup;
    if i == v {
      CopiedNew(s, d, top, walk[0], walk, now, v, k, cnt);
    } else if i == k {
      assert Copied(s, walk, now, v, k, cnt[k]);
      CopiedParent(s, walk, now, v, k, cnt[k]);
    } else {
      assert Copied(s, walk, now, v, i, cnt[i]);
      CopiedOther(s, d, top, walk, now, v, i, cnt[i], k);
    }
  }

  /** When all are copied, all children of all are. */
  lemma PartialDone(s: Space, d: seq<nat>, top: nat, mnt: nat, dentry: nat, now: Space, cnt: seq<nat>)
    requires SpaceOk(s, d, top) && mnt < |s.t.parent|
    requires Ready(s, d, top, mnt, dentry, now, |Pre(s.t, d, top, mnt)|, cnt)
    ensures IsCopy(s, now, Pre(s.t, d, top, mnt), dentry)
  {
    var walk := Pre(s.t, d, top, mnt);
    hide Pre, Copied, CopyAt, Tree;
    forall i | 0 <= i < |walk| ensures CopyAt(s, now, walk, i) {
      assert Copied(s, walk, now, |walk|, i, cnt[i]);
      CopiedDone(s, d, top, mnt, now, i, cnt[i]);
    }
  }

  lemma CopiedDone(s: Space, d: seq<nat>, top: nat, mnt: nat, now: Space, i: nat, c: nat)
    requires SpaceOk(s, d, top) && mnt < |s.t.parent| && i < |Pre(s.t, d, top, mnt)|
    requires |now.t.parent| == |now.t.kids| == |now.root| == |now.point| == |now.sb| == |s.t.parent| +
             |Pre(s.t, d, top, mnt)|
    requires Copied(s, Pre(s.t, d, top, mnt), now, |Pre(s.t, d, top, mnt)|, i, c)
    ensures CopyAt(s, now, Pre(s.t, d, top, mnt), i)
  {
    var walk := Pre(s.t, d, top, mnt);
    var list := s.t.kids[walk[i]];
    var first := if c < |list| then list[c] else mnt;
    assert c < |list| ==> first in list;
    hide Pre, Up, IndexOf, Rev, Images;
    PreMember(s.t, d, top, mnt, walk[i]);
    forall x | x in list ensures x in walk {
      BelowKid(s.t, d, top, walk[i], x, mnt);
      PreMember(s.t, d, top, mnt, x);
    }
    assert walk[..|walk|] == walk;
    assert list[..c] == list;
  }

  lemma BelowKid(t: Forest, d: seq<nat>, top: nat, x: nat, c: nat, m: nat)
    requires Tree(t, d, top) && Below(t, d, top, x, m) && c in t.kids[x]
    ensures Below(t, d, top, c, m)
  {
  }

  /** So far so good: v mounts are copied. */
  ghost predicate Ready(s: Space, d: seq<nat>, top: nat, mnt: nat, dentry: nat, now: Space, v: nat, cnt: seq<nat>) {
    && SpaceOk(s, d, top) && mnt < |s.t.parent| && 0 < v <= |Pre(s.t, d, top, mnt)|
    && Partial(s, Pre(s.t, d, top, mnt), dentry, now, v, cnt)
  }

  lemma AtStart(t: Forest, d: seq<nat>, top: nat, mnt: nat)
    requires Tree(t, d, top) && mnt < |t.parent|
    ensures |Pre(t, d, top, mnt)| > 0 && |t.parent| == |t.kids| == |d|
  {
  }

  /** Where the walk stands at its v-th mount. */
  lemma AtStep(t: Forest, d: seq<nat>, top: nat, mnt: nat, v: nat)
    requires Tree(t, d, top) && mnt < |t.parent| && v < |Pre(t, d, top, mnt)|
    ensures |t.parent| == |t.kids| == |d|
    ensures var walk := Pre(t, d, top, mnt);
            && walk[0] == mnt && NoDup(walk) && walk[v] < |t.parent| && d[walk[v]] >= d[mnt] &&
               Below(t, d, top, walk[v], mnt)
            && After(t, d, top, walk[v], mnt) == if v + 1 < |walk| then Some(walk[v + 1]) else None
  {
    WalkIsPreorder(t, d, top, mnt);
    var walk := Pre(t, d, top, mnt);
    assert walk[v] in walk && Leads(t, d, top, walk, mnt, v);
  }

  lemma FirstPartial(s: Space, d: seq<nat>, top: nat, mnt: nat, dentry: nat)
    requires SpaceOk(s, d, top) && mnt < |s.t.parent|
    ensures var n := |s.t.parent|;
            Ready(s, d, top, mnt, dentry,
                    Space(Forest(s.t.parent + [n], s.t.kids + [[]]), s.root + [dentry], s.point + [s.point[mnt]],
                        s.sb + [s.sb[mnt]]),
                    1, [0])
  {
    var walk := Pre(s.t, d, top, mnt);
    assert walk[..1] == [mnt];
    forall j | 0 <= j < |s.t.kids[mnt]| ensures s.t.kids[mnt][j] != mnt {
      assert s.t.kids[mnt][j] in s.t.kids[mnt];
    }
    assert s.t.kids[mnt][..0] == [];
  }

  /** A step of that loop stays among the copied mounts and keeps p and q together. */
  lemma Rising(s: Space, d: seq<nat>, top: nat, mnt: nat, walk: seq<nat>, dentry: nat, now: Space, v: nat,
               cnt: seq<nat>, k: nat, next: nat)
    requires SpaceOk(s, d, top) && mnt < |s.t.parent| && Partial(s, walk, dentry, now, v, cnt)
    requires k < v && NoDup(walk) && walk[0] == mnt && walk[k] < |s.t.parent| && next < |s.t.parent|
    requires walk[k] != s.t.parent[next]
    requires NextChild(s.t, walk[k], next, walk[..v]) || Climb(s.t, d, top, walk[k], mnt) == Some(next)
    ensures k > 0 && s.t.parent[walk[k]] in walk && IndexOf(walk, s.t.parent[walk[k]]) < v
    ensures d[s.t.parent[walk[k]]] < d[walk[k]]
    ensures now.t.parent[|s.t.parent| + k] == |s.t.parent| + IndexOf(walk, s.t.parent[walk[k]])
    ensures NextChild(s.t, s.t.parent[walk[k]], next, walk[..v]) ||
            Climb(s.t, d, top, s.t.parent[walk[k]], mnt) == Some(next)
  {
    assert Copied(s, walk, now, v, k, cnt[k]);
    hide Copied, Climb, IndexOf;
    assert walk[..v][k] == walk[k];
    ClimbOne(s.t, d, top, walk[k], mnt, next, walk[..v]);
    ParentCopied(s, walk, now, v, k, cnt[k]);
  }

  lemma ParentCopied(s: Space, walk: seq<nat>, now: Space, v: nat, k: nat, c: nat)
    requires |s.t.parent| == |s.t.kids| == |s.root| == |s.point| == |s.sb|
    requires |now.t.parent| == |now.t.kids| == |now.root| == |now.point| == |now.sb| == |s.t.parent| + v
    requires 0 < k < v <= |walk| && NoDup(walk) && Copied(s, walk, now, v, k, c)
    ensures walk[k] < |s.t.parent| && s.t.parent[walk[k]] in walk && IndexOf(walk, s.t.parent[walk[k]]) < v
    ensures now.t.parent[|s.t.parent| + k] == |s.t.parent| + IndexOf(walk, s.t.parent[walk[k]])
  {
    hide IndexOf;
    var i :| 0 <= i < k && walk[i] == s.t.parent[walk[k]];
    IndexOnly(walk, i);
  }

  lemma Arrived(s: Space, d: seq<nat>, top: nat, mnt: nat, p: nat, next: nat, visited: seq<nat>)
    requires SpaceOk(s, d, top) && p < |s.t.parent| && next < |s.t.parent| && p == s.t.parent[next]
    requires NextChild(s.t, p, next, visited) || Climb(s.t, d, top, p, mnt) == Some(next)
    ensures NextChild(s.t, p, next, visited)
  {
    if Climb(s.t, d, top, p, mnt) == Some(next) {
      ClimbUp(s.t, d, top, p, mnt);
    }
  }

  /** The inner loop of copy_tree: up from the last mount and its copy to the parent of the next one and its copy. */
  method Ascend(s: Space, ghost d: seq<nat>, ghost top: nat, ghost mnt: nat, ghost walk: seq<nat>, ghost dentry: nat,
                now: Space, ghost v: nat, ghost cnt: seq<nat>, p0: nat, q0: nat, next: nat)
    returns (p: nat, q: nat, ghost k: nat)
    requires SpaceOk(s, d, top) && mnt < |s.t.parent| && Partial(s, walk, dentry, now, v, cnt)
    requires v < |walk| && NoDup(walk) && walk[0] == mnt && next == walk[v]
    requires p0 == walk[v - 1] && q0 == |s.t.parent| + v - 1 && p0 < |s.t.parent|
    requires After(s.t, d, top, p0, mnt) == Some(next)
    ensures k < v && p == walk[k] && q == |s.t.parent| + k && p < |s.t.parent|
    ensures NextChild(s.t, p, next, walk[..v])
  {
    p, q, k := p0, q0, v - 1;
    Start(s.t, d, top, p, mnt, next, walk[..v]);
    while p != s.t.parent[next]
      invariant k < v && p == walk[k] && q == |s.t.parent| + k && p < |s.t.parent| && next < |s.t.parent|
      invariant NextChild(s.t, p, next, walk[..v]) || Climb(s.t, d, top, p, mnt) == Some(next)
      decreases d[p]
    {
      Rising(s, d, top, mnt, walk, dentry, now, v, cnt, k, next);
      p := s.t.parent[p];
      q := now.t.parent[q];
      k := IndexOf(walk, p);
    }
    Arrived(s, d, top, mnt, p, next, walk[..v]);
  }

  // ---------------------------------------------------------------- the copy is a tree again

  function CopyDepths(d: seq<nat>, walk: seq<nat>, mnt: nat): seq<nat>
    requires mnt < |d| && forall x :: x in walk ==> x < |d| && d[x] >= d[mnt]
  {
    d + seq(|walk|, i requires 0 <= i < |walk| => assert walk[i] in walk; d[walk[i]] - d[mnt])
  }

  lemma WalkFacts(s: Space, d: seq<nat>, top: nat, mnt: nat)
    requires SpaceOk(s, d, top) && mnt < |s.t.parent|
    ensures var walk := Pre(s.t, d, top, mnt);
            && NoDup(walk) && walk[0] == mnt
            && (forall x :: x in walk ==> x < |s.t.parent| && d[x] >= d[mnt] && (x != mnt ==> s.t.parent[x] != x))
  {
    WalkIsPreorder(s.t, d, top, mnt);
  }

  /** The children of a copy are the copies of the children. */
  lemma KidsOfCopy(s: Space, now: Space, walk: seq<nat>, i: nat, c: nat)
    requires |now.t.parent| == |now.t.kids| == |now.root| == |now.point| == |now.sb| == |s.t.parent| + |walk|
    requires |s.t.kids| == |s.root| == |s.point| == |s.sb| == |s.t.parent|
    requires i < |walk| && CopyAt(s, now, walk, i) && NoDup(walk) && c < |walk|
    ensures |s.t.parent| + c in now.t.kids[|s.t.parent| + i] <==> walk[c] in s.t.kids[walk[i]]
  {
    var n, list := |s.t.parent|, s.t.kids[walk[i]];
    var r := now.t.kids[n + i];
    hide CopyAt;
    ReversedHolds(walk, n, list, r, c);
  }

  lemma ReversedHolds(walk: seq<nat>, base: nat, list: seq<nat>, r: seq<nat>, c: nat)
    requires (forall c :: c in list ==> c in walk) && r == Rev(Images(walk, base, list)) && NoDup(walk) && c < |walk|
    ensures base + c in r <==> walk[c] in list
  {
    IndexOnly(walk, c);
    hide Rev, Images, NoDup, IndexOf;
    if base + c in r {
      var j :| 0 <= j < |r| && r[j] == base + c;
      ReversedAt(walk, base, list, r, j);
      IndexSays(walk, list[|list| - 1 - j]);
    }
    if walk[c] in list {
      var j :| 0 <= j < |list| && list[j] == walk[c];
      ReversedAt(walk, base, list, r, |list| - 1 - j);
    }
  }

  lemma IndexSays(s: seq<nat>, x: nat)
    requires x in s
    ensures IndexOf(s, x) < |s| && s[IndexOf(s, x)] == x
  {
  }

  lemma KidsInCopy(s: Space, now: Space, walk: seq<nat>, i: nat, m: nat)
    requires |now.t.parent| == |now.t.kids| == |now.root| == |now.point| == |now.sb| == |s.t.parent| + |walk|
    requires |s.t.kids| == |s.root| == |s.point| == |s.sb| == |s.t.parent|
    requires i < |walk| && CopyAt(s, now, walk, i) && NoDup(walk) && NoDup(s.t.kids[walk[i]]) && m == |s.t.parent| + i
    ensures NoDup(now.t.kids[m])
    ensures forall c :: c in now.t.kids[m] ==> |s.t.parent| <= c < |s.t.parent| + |walk|
  {
    var n, list := |s.t.parent|, s.t.kids[walk[i]];
    var im := Images(walk, n, list);
    var r := Rev(im);
    forall a, b | 0 <= a < b < |r| ensures r[a] != r[b] {
      assert list[|r| - 1 - a] != list[|r| - 1 - b];
    }
  }

  /** What copy_tree makes is a tree, rooted at the copy of mnt, and the original is still one. */
  lemma CopyIsTree(s: Space, d: seq<nat>, top: nat, mnt: nat, dentry: nat, now: Space)
    requires SpaceOk(s, d, top) && mnt < |s.t.parent|
    requires IsCopy(s, now, Pre(s.t, d, top, mnt), dentry)
    ensures (forall x :: x in Pre(s.t, d, top, mnt) ==> x < |d| && d[x] >= d[mnt])
    ensures SpaceOk(now, CopyDepths(d, Pre(s.t, d, top, mnt), mnt), top)
  {
    var walk, n := Pre(s.t, d, top, mnt), |s.t.parent|;
    WalkFacts(s, d, top, mnt);
    var d' := CopyDepths(d, walk, mnt);
    hide Pre, Rev, Images;
    forall m | 0 <= m < |now.t.kids| ensures NoDup(now.t.kids[m]) {
      CopyTreeKids(s, d, top, walk, now, dentry, m);
    }
    forall m, c {:trigger c in now.t.kids[m]} | 0 <= m < |now.t.kids| && c in now.t.kids[m]
      ensures c < |now.t.parent| && now.t.parent[c] == m && c != m
    {
      CopyTreeChild(s, d, top, mnt, walk, now, dentry, m, c);
    }
    forall c {:trigger now.t.parent[c]} | 0 <= c < |now.t.parent|
      ensures now.t.parent[c] < |now.t.parent|
      ensures now.t.parent[c] != c ==> c in now.t.kids[now.t.parent[c]] && d'[c] == d'[now.t.parent[c]] + 1
    {
      CopyTreeParent(s, d, top, mnt, walk, now, dentry, c);
    }
  }

  lemma CopyTreeKids(s: Space, d: seq<nat>, top: nat, walk: seq<nat>, now: Space, dentry: nat, m: nat)
    requires SpaceOk(s, d, top) && IsCopy(s, now, walk, dentry) && NoDup(walk) && m < |now.t.kids|
    ensures NoDup(now.t.kids[m])
  {
    var n := |s.t.parent|;
    if m < n {
      assert now.t.kids[m] == now.t.kids[..n][m];
    } else {
      assert CopyAt(s, now, walk, m - n);
      KidsInCopy(s, now, walk, m - n, m);
    }
  }

  lemma CopyTreeChild(s: Space, d: seq<nat>, top: nat, mnt: nat, walk: seq<nat>, now: Space, dentry: nat, m: nat,
                      c: nat)
    requires SpaceOk(s, d, top) && IsCopy(s, now, walk, dentry) && NoDup(walk) && walk[0] == mnt && mnt < |s.t.parent|
    requires forall x :: x in walk ==> x < |s.t.parent| && d[x] >= d[mnt]
    requires m < |now.t.kids| && c in now.t.kids[m]
    ensures c < |now.t.parent| && now.t.parent[c] == m && c != m
  {
    var n := |s.t.parent|;
    if m < n {
      assert now.t.kids[m] == now.t.kids[..n][m];
      assert now.t.parent[c] == now.t.parent[..n][c];
    } else {
      CopyChild(s, d, top, mnt, walk, now, dentry, m - n, c);
    }
  }

  lemma CopyChild(s: Space, d: seq<nat>, top: nat, mnt: nat, walk: seq<nat>, now: Space, dentry: nat, i: nat, c: nat)
    requires SpaceOk(s, d, top) && IsCopy(s, now, walk, dentry) && NoDup(walk) && walk[0] == mnt && mnt < |s.t.parent|
    requires forall x :: x in walk ==> x < |s.t.parent| && d[x] >= d[mnt]
    requires i < |walk| && c in now.t.kids[|s.t.parent| + i]
    ensures c < |now.t.parent| && now.t.parent[c] == |s.t.parent| + i && c != |s.t.parent| + i
  {
    var n := |s.t.parent|;
    assert walk[i] in walk;
    assert |s.t.kids| == n && NoDup(s.t.kids[walk[i]]);
    hide IsCopy, NoDup, IndexOf, Rev, Images;
    CopyOf(s, now, walk, dentry, i);
    hide CopyAt;
    KidsInCopy(s, now, walk, i, n + i);
    var j := c - n;
    KidsOfCopy(s, now, walk, i, j);
    ChildOf(s.t, d, top, walk[i], walk[j]);
    hide Tree;
    assert walk[j] in walk;
    CopyLink(s, now, walk, dentry, j);
    IndexOnly(walk, i);
  }

  lemma ChildOf(t: Forest, d: seq<nat>, top: nat, m: nat, c: nat)
    requires Tree(t, d, top) && m < |t.parent| && c in t.kids[m]
    ensures c < |t.parent| && t.parent[c] == m && d[c] == d[m] + 1
  {
  }

  lemma CopyTreeParent(s: Space, d: seq<nat>, top: nat, mnt: nat, walk: seq<nat>, now: Space, dentry: nat, c: nat)
    requires SpaceOk(s, d, top) && IsCopy(s, now, walk, dentry) && NoDup(walk) && walk[0] == mnt && mnt < |s.t.parent|
    requires forall x :: x in walk ==> x < |s.t.parent| && d[x] >= d[mnt] && (x != mnt ==> s.t.parent[x] != x)
    requires c < |now.t.parent|
    ensures now.t.parent[c] < |now.t.parent|
    ensures now.t.parent[c] != c ==>
              c in now.t.kids[now.t.parent[c]] &&
                  CopyDepths(d, walk, mnt)[c] == CopyDepths(d, walk, mnt)[now.t.parent[c]] + 1
  {
    var n := |s.t.parent|;
    if c < n {
      assert now.t.parent[c] == now.t.parent[..n][c];
      assert now.t.kids[now.t.parent[c]] == now.t.kids[..n][now.t.parent[c]];
    } else if c > n {
      CopyParent(s, d, top, mnt, walk, now, dentry, c - n);
    }
  }

  predicate ChildInCopy(now: Space, d: seq<nat>, c: nat) {
    && |now.t.parent| == |now.t.kids| == |d| && c < |d|
    && var p := now.t.parent[c];
    && p < |d| && c in now.t.kids[p] && d[c] == d[p] + 1
  }

  lemma CopyParent(s: Space, d: seq<nat>, top: nat, mnt: nat, walk: seq<nat>, now: Space, dentry: nat, j: nat)
    requires SpaceOk(s, d, top) && IsCopy(s, now, walk, dentry) && NoDup(walk) && walk[0] == mnt && mnt < |s.t.parent|
    requires forall x :: x in walk ==> x < |s.t.parent| && d[x] >= d[mnt] && (x != mnt ==> s.t.parent[x] != x)
    requires 0 < j < |walk|
    ensures ChildInCopy(now, CopyDepths(d, walk, mnt), |s.t.parent| + j)
  {
    var x := walk[j];
    assert x in walk && x != walk[0] && |d| == |s.t.parent| == |s.t.kids|;
    var y := s.t.parent[x];
    assert y < |s.t.parent| && x in s.t.kids[y] && d[x] == d[y] + 1;
    hide IsCopy, Tree, NoDup, IndexOf;
    CopyLink(s, now, walk, dentry, j);
  }

  lemma CopyLink(s: Space, now: Space, walk: seq<nat>, dentry: nat, j: nat)
    requires IsCopy(s, now, walk, dentry) && NoDup(walk) && 0 < j < |walk| && walk[j] < |s.t.parent|
    requires s.t.parent[walk[j]] < |s.t.kids| && walk[j] in s.t.kids[s.t.parent[walk[j]]]
    ensures |now.t.parent| == |now.t.kids| == |s.t.parent| + |walk| && s.t.parent[walk[j]] in walk
    ensures now.t.parent[|s.t.parent| + j] == |s.t.parent| + IndexOf(walk, s.t.parent[walk[j]])
    ensures |s.t.parent| + j in now.t.kids[|s.t.parent| + IndexOf(walk, s.t.parent[walk[j]])]
  {
    hide IsCopy, Rev, Images, NoDup, IndexOf;
    CopyOf(s, now, walk, dentry, j);
    hide CopyAt;
    var i := IndexOf(walk, s.t.parent[walk[j]]);
    CopyOf(s, now, walk, dentry, i);
    KidsOfCopy(s, now, walk, i, j);
  }

  lemma CopyOf(s: Space, now: Space, walk: seq<nat>, dentry: nat, i: nat)
    requires IsCopy(s, now, walk, dentry) && i < |walk|
    ensures |now.t.parent| == |now.t.kids| == |now.root| == |now.point| == |now.sb| == |s.t.parent| + |walk|
    ensures |s.t.kids| == |s.root| == |s.point| == |s.sb| == |s.t.parent|
    ensures CopyAt(s, now, walk, i)
  {
  }

  // ---------------------------------------------------------------- the walk of the copy

  /** The nodes from n on are a tree of their own: each but n has its parent among those before it. */
  predicate OwnTree(t: Forest, n: nat) {
    && n < |t.parent| && t.parent[n] == n
    && (forall x {:trigger t.parent[x]} :: 0 <= x < n ==> t.parent[x] < n)
    && (forall x {:trigger t.parent[x]} :: n < x < |t.parent| ==> n <= t.parent[x] < x)
  }

  lemma {:induction false} OwnBelow(t: Forest, d: seq<nat>, top: nat, n: nat, x: nat)
    requires Tree(t, d, top) && OwnTree(t, n) && x < |t.parent|
    ensures Below(t, d, top, x, n) <==> n <= x
    decreases d[x]
  {
    if x != n && t.parent[x] != x {
      BelowStep(t, d, top, x, n);
      OwnBelow(t, d, top, n, t.parent[x]);
    }
  }

  lemma CopyOwnTree(s: Space, d: seq<nat>, top: nat, mnt: nat, dentry: nat, now: Space)
    requires SpaceOk(s, d, top) && mnt < |s.t.parent| && IsCopy(s, now, Pre(s.t, d, top, mnt), dentry)
    ensures OwnTree(now.t, |s.t.parent|)
  {
    var n := |s.t.parent|;
    hide Pre, CopyAt;
    forall x | 0 <= x < n ensures now.t.parent[x] < n {
      assert now.t.parent[x] == now.t.parent[..n][x];
    }
    hide Tree;
    forall x | n < x < |now.t.parent| ensures n <= now.t.parent[x] < x {
      ParentBefore(s, d, top, mnt, dentry, now, x - n);
    }
  }

  lemma ParentBefore(s: Space, d: seq<nat>, top: nat, mnt: nat, dentry: nat, now: Space, i: nat)
    requires SpaceOk(s, d, top) && mnt < |s.t.parent| && IsCopy(s, now, Pre(s.t, d, top, mnt), dentry)
    requires 0 < i < |Pre(s.t, d, top, mnt)|
    ensures |s.t.parent| + i < |now.t.parent| && |s.t.parent| <= now.t.parent[|s.t.parent| + i] < |s.t.parent| + i
  {
    hide Pre, Tree, IsCopy, IndexOf, Rev, Images;
    var walk := Pre(s.t, d, top, mnt);
    WalkFacts(s, d, top, mnt);
    CopyOf(s, now, walk, dentry, i);
    ParentFirst(s.t, d, top, mnt, i);
    var j :| 0 <= j < i && walk[j] == s.t.parent[walk[i]];
    IndexOnly(walk, j);
  }

  // ---------------------------------------------------------------- copying twice

  /** last lists the copies of the copies of list, in the same order. */
  predicate CopiesOfCopies(list: seq<nat>, last: seq<nat>, walk1: seq<nat>, base1: nat, walk2: seq<nat>, base2: nat) {
    && |last| == |list|
    && forall j :: 0 <= j < |list| ==> CopyOfCopy(list[j], last[j], walk1, base1, walk2, base2)
  }

  predicate CopyOfCopy(x: nat, z: nat, walk1: seq<nat>, base1: nat, walk2: seq<nat>, base2: nat) {
    && x in walk1 && base1 + IndexOf(walk1, x) in walk2
    && z == base2 + IndexOf(walk2, base1 + IndexOf(walk1, x))
  }

  /** What a copy of mnt, and then a copy of that copy, leave. */
  ghost predicate Copies(s0: Space, d0: seq<nat>, top0: nat, mnt: nat, e1: nat, s1: Space, d1: seq<nat>, top1: nat,
                         e2: nat, s2: Space) {
    && SpaceOk(s0, d0, top0) && mnt < |s0.t.parent| && IsCopy(s0, s1, Pre(s0.t, d0, top0, mnt), e1)
    && SpaceOk(s1, d1, top1) && |s0.t.parent| < |s1.t.parent| && IsCopy(s1, s2, Pre(s1.t, d1, top1, |s0.t.parent|), e2)
  }

  /** The copy of a copy has every mount again, with the children in the original's order. */
  lemma CopyTwice(s0: Space, d0: seq<nat>, top0: nat, mnt: nat, e1: nat, s1: Space, d1: seq<nat>, top1: nat, e2: nat,
                  s2: Space, i: nat)
    requires Copies(s0, d0, top0, mnt, e1, s1, d1, top1, e2, s2) && i < |Pre(s0.t, d0, top0, mnt)|
    ensures var walk1, walk2 := Pre(s0.t, d0, top0, mnt), Pre(s1.t, d1, top1, |s0.t.parent|);
            && |s0.t.parent| + i in walk2 && walk1[i] < |s0.t.kids|
            && var k := IndexOf(walk2, |s0.t.parent| + i);
            && |s1.t.parent| + k < |s2.t.kids|
            && CopiesOfCopies(s0.t.kids[walk1[i]], s2.t.kids[|s1.t.parent| + k], walk1, |s0.t.parent|, walk2,
               |s1.t.parent|)
  {
    var n0, n1 := |s0.t.parent|, |s1.t.parent|;
    var walk1, walk2 := Pre(s0.t, d0, top0, mnt), Pre(s1.t, d1, top1, n0);
    CopyOwnTree(s0, d0, top0, mnt, e1, s1);
    OwnBelow(s1.t, d1, top1, n0, n0 + i);
    PreMember(s1.t, d1, top1, n0, n0 + i);
    hide Pre, Tree, Below, Up, OwnTree, IsCopy, IndexOf, NoDup, Rev, Images, CopiesOfCopies;
    IndexSays(walk2, n0 + i);
    var k := IndexOf(walk2, n0 + i);
    CopyOf(s0, s1, walk1, e1, i);
    CopyOf(s1, s2, walk2, e2, k);
    ReversedTwice(s0.t.kids[walk1[i]], s1.t.kids[n0 + i], s2.t.kids[n1 + k], walk1, n0, walk2, n1);
  }

  lemma ReversedTwice(list: seq<nat>, mid: seq<nat>, last: seq<nat>, walk1: seq<nat>, n0: nat, walk2: seq<nat>, n1: nat)
    requires (forall c :: c in list ==> c in walk1) && mid == Rev(Images(walk1, n0, list))
    requires (forall c :: c in mid ==> c in walk2) && last == Rev(Images(walk2, n1, mid))
    ensures CopiesOfCopies(list, last, walk1, n0, walk2, n1)
  {
    assert |mid| == |list| && |last| == |mid|;
    hide IndexOf, Rev, Images, CopyOfCopy;
    forall j | 0 <= j < |list| ensures CopyOfCopy(list[j], last[j], walk1, n0, walk2, n1) {
      ReversedTwiceAt(list, mid, last, walk1, n0, walk2, n1, j);
    }
  }

  lemma ReversedTwiceAt(list: seq<nat>, mid: seq<nat>, last: seq<nat>, walk1: seq<nat>, n0: nat, walk2: seq<nat>,
                        n1: nat, j: nat)
    requires (forall c :: c in list ==> c in walk1) && mid == Rev(Images(walk1, n0, list))
    requires (forall c :: c in mid ==> c in walk2) && last == Rev(Images(walk2, n1, mid)) && j < |list| == |last|
    ensures CopyOfCopy(list[j], last[j], walk1, n0, walk2, n1)
  {
    hide IndexOf, Rev, Images;
    ReversedAt(walk1, n0, list, mid, |list| - 1 - j);
    ReversedAt(walk2, n1, mid, last, j);
  }

  lemma ReversedAt(walk: seq<nat>, base: nat, list: seq<nat>, r: seq<nat>, i: nat)
    requires (forall c :: c in list ==> c in walk) && r == Rev(Images(walk, base, list)) && i < |list|
    ensures |r| == |list| && list[|list| - 1 - i] in walk && r[i] == base + IndexOf(walk, list[|list| - 1 - i])
  {
  }
}
