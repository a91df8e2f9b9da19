/** The calls on the directory cache (fs/dcache.c): dput, d_lookup, d_move, is_subdir, have_submounts,
    select_parent, prune_dcache, shrink_dcache_parent. */
module DentryCalls {
  import opened Dentries
  import opened DentryMove
  import opened DentryRuns
  import opened DentryShrink
  import opened Lists
  import opened TreeMoves
  import opened TreeWalk

  class DirCache {
    const h: Hash
    var t: Forest
    var alive: seq<bool>
    var name: seq<Name>
    var hash: seq<seq<nat>>
    var count: seq<int>
    var lru: seq<nat>
    var unused: int
    var used: seq<bool>
    ghost var held: seq<nat>
    ghost var d: seq<nat>
    ghost var top: nat

    ghost function Abs(): Dcache
      reads this
    {
      Dcache(t, alive, name, hash, count, lru, unused, used)
    }

    /** The cache and the references to it, as in the runs. */
    ghost function Now(): World
      reads this
    {
      World(Abs(), held)
    }

    ghost predicate Valid()
      reads this
    {
      Inv(h, Abs(), held, d, top)
    }

    constructor (h: Hash, buckets: nat)
      requires InRange(h, buckets)
      ensures Valid() && this.h == h && Abs() == Empty(buckets)
    {
      hide Tree, HashOk, CountOk, LruOk;
      EmptyHash(h, buckets);
      EmptyTree(buckets);
      EmptyCounts(buckets);
      EmptyLru(buckets);
      var s := Empty(buckets);
      this.h := h;
      t, alive, name, hash, count, lru, unused, used := s.t, s.alive, s.name, s.hash, s.count, s.lru, s.unused, s.used;
      held, d, top := [], [], 0;
    }

    /** Free x, which is on no list of unused dentries. */
    method Kill(x: nat)
      requires Valid() && x < |name| && alive[x] && t.kids[x] == [] && x !in lru && count[x] == 1 == held[x]
      modifies this
      ensures Valid() && Abs() == Gone(h, old(Abs()), x) && held == GoneHeld(old(Abs()), old(held), x)
      ensures d == old(d) && top == old(top) && name == old(name)
    {
      GoneKeeps(h, Abs(), held, d, top, x);
      GoneOffList(h, Abs(), x);
      hide Tree, HashOk, CountOk, LruOk;
      var b := h(t.parent[x], name[x].hash);
      held := GoneHeld(Abs(), held, x);
      hash := hash[b := Minus(hash[b], x)];
      count := count[x := 0];
      alive := alive[x := false];
      var p := t.parent[x];
      if p != x {
        t := Forest(t.parent[x := x], t.kids[p := Minus(t.kids[p], x)]);
      }
    }

    /** One reference to x is dropped: without another one it goes to the unused ones, or is freed. unwanted are the
        dentries whose filesystem says they should be deleted. */
    method Drop(x: nat, unwanted: set<nat>) returns (freed: bool)
      requires Valid() && x < |name| && held[x] > 0
      modifies this
      ensures d == old(d) && top == old(top) && |name| == old(|name|) == |alive|
      ensures Chain(h, old(Abs()), x) < |old(hash)| && Now() == Round(h, old(Now()), x, unwanted)
      ensures freed <==> old(count)[x] == 1 && (!OnChain(old(Abs()), x) || x in unwanted)
      ensures freed <==> old(count)[x] <= 1 && !Stays(h, old(Abs()), unwanted, x)
      ensures alive[x] <==> !freed
    {
      OnChainNow(h, Abs(), held, d, top, x);
      PutCases(h, Abs(), held, unwanted, d, top, x);
      Ranges(h, Abs(), held, d, top, x);
      hide Put, Inv, Sized, InRange, OnChain, Gone;
      if count[x] > 1 {
        count := count[x := count[x] - 1];
        held := held[x := held[x] - 1];
        return false;
      }
      if x !in unwanted && x in hash[h(t.parent[x], name[x].hash)] {
        count := count[x := 0];
        lru := [x] + lru;
        unused := unused + 1;
        held := held[x := held[x] - 1];
        return false;
      }
      FreedNow(h, Abs(), x);
      Kill(x);
      return true;
    }

    /** One round of dput: the parent follows if x is freed. */
    method DropOne(x: nat, unwanted: set<nat>) returns (next: Option<nat>)
      requires Valid() && x < |name| && held[x] > 0
      modifies this
      ensures Valid() && d == old(d) && top == old(top) && |name| == old(|name|) == |alive|
      ensures Next(h, old(Now()), Now())
      ensures old(count)[x] == 1 ==> (alive[x] <==> OnChain(old(Abs()), x) && x !in unwanted)
      ensures next.None? ==>
              Abs() == Put(h, old(Abs()), unwanted, d, top, x) && held == old(held)[x := old(held)[x] - 1]
      ensures next.Some? ==>
                var p := next.value;
                && p < |name| && d[p] < d[x] && held[p] > 0
                && Put(h, Abs(), unwanted, d, top, p) == Put(h, old(Abs()), unwanted, d, top, x)
                && held[p := held[p] - 1] == old(held)[x := old(held)[x] - 1]
    {
      PutStep(h, Now(), d, top, x, unwanted);
      RoundPuts(h, Now(), d, top, x, unwanted);
      Ranges(h, Abs(), held, d, top, x);
      hide Put, Inv, Sized, Next, Gone, InRange, OnChain, Round, Stays;
      var p := t.parent[x];
      var freed := Drop(x, unwanted);
      if !freed || p == x {
        return None;
      }
      return Some(p);
    }

    /** dput */
    method Dput(x0: nat, unwanted: set<nat>)
      requires Valid() && x0 < |name| && held[x0] > 0
      modifies this
      ensures Valid() && Abs() == Put(h, old(Abs()), unwanted, old(d), old(top), x0)
      ensures held == old(held)[x0 := old(held)[x0] - 1] && d == old(d) && top == old(top)
      ensures Tree(old(t), old(d), old(top)) && Sized(old(Abs())) && |alive| == |old(alive)|
      ensures forall y :: 0 <= y < |alive| ==>
                (alive[y] <==> old(alive)[y] && !DoomedUpTo(old(Abs()), unwanted, old(d), old(top), x0, y))
    {
      PutFreesAll(h, Abs(), unwanted, held, d, top, x0);
      hide Put, DoomedUpTo;
      var x: nat := x0;
      while true
        invariant Valid() && x < |name| && held[x] > 0 && d == old(d) && top == old(top)
        invariant Put(h, Abs(), unwanted, d, top, x) == Put(h, old(Abs()), unwanted, d, top, x0)
        invariant held[x := held[x] - 1] == old(held)[x0 := old(held)[x0] - 1]
        decreases d[x]
      {
        var next := DropOne(x, unwanted);
        if next.None? {
          return;
        }
        x := next.value;
      }
    }

    /** __dget_locked */
    method DgetLocked(x: nat)
      requires Valid() && x < |name| && alive[x]
      modifies this
      ensures Valid() && Abs() == Got(old(Abs()), x) && held == old(held)[x := old(held)[x] + 1]
      ensures d == old(d) && top == old(top) && Next(h, old(Now()), Now())
    {
      hide Inv, Sized, Next, InRange, Touched;
      Ranges(h, Abs(), held, d, top, x);
      GotKeeps(h, Abs(), held, d, top, x);
      GetStep(h, Now(), d, top, x);
      held := held[x := held[x] + 1];
      count := count[x := count[x] + 1];
      if count[x] == 1 {
        unused := unused - 1;
        lru := Minus(lru, x);
      }
    }

    /** The fields of a new dentry with the name n below p. */
    method Store(p: nat, n: Name)
      requires Sized(Abs()) && p < |count| == |d| == |t.kids|
      modifies this
      ensures Abs() == Alloced(old(Abs()), p, n) && held == old(held) + [1] && d == old(d) + [old(d)[p] + 1]
      ensures top == old(top) + 1
    {
      hide Sized, WithChild;
      t := WithChild(t, p);
      count := count[p := count[p] + 1] + [1];
      alive, name, used := alive + [true], name + [n], used + [false];
      d, top, held := d + [d[p] + 1], top + 1, held + [1];
    }

    /** d_alloc below a parent somebody holds. */
    method DAlloc(p: nat, text: string, nameHash: nat) returns (x: nat)
      requires Valid() && p < |name| && held[p] > 0
      modifies this
      ensures Valid() && x == old(|name|) && Abs() == Alloced(old(Abs()), p, NewName(text, nameHash))
      ensures held == old(held) + [1]
      ensures t.parent == old(t.parent) + [p] && |t.kids| == x + 1 == |count| && p < x == |old(t.kids)| == |old(count)|
      ensures t.kids[p] == [x] + old(t.kids)[p] && t.kids[x] == [] && count[x] == 1 && count[p] == old(count)[p] + 1
      ensures Next(h, old(Now()), Now())
    {
      hide Inv, Sized, NameOk, Text, Next, InRange, NewName, Alloced;
      x := |name|;
      var n := NewName(text, nameHash);
      Ranges(h, Abs(), held, d, top, p);
      AllocKeeps(h, Abs(), held, d, top, p, n);
      AllocStep(h, Now(), d, top, p, n);
      AllocedIs(Abs(), p, n);
      Store(p, n);
    }

    /** d_alloc_root */
    method DAllocRoot(nameHash: nat) returns (x: nat)
      requires Valid()
      modifies this
      ensures Valid() && x == old(|name|) && Abs() == AllocedRoot(old(Abs()), NewName("/", nameHash))
      ensures held == old(held) + [1]
      ensures Next(h, old(Now()), Now())
    {
      assert |count| == |name| && Sized(Abs());
      hide Inv, Sized, Next, NameOk, Text, NewName;
      x := |name|;
      var n := NewName("/", nameHash);
      AllocRootKeeps(h, Abs(), held, d, top, n);
      AllocRootStep(h, Now(), n);
      t := Forest(t.parent + [x], t.kids + [[]]);
      alive, name, used, count := alive + [true], name + [n], used + [false], count + [1];
      held, d := held + [1], d + [0];
    }

    /** d_rehash; that the dentry is hashed already is a BUG. */
    method DRehash(x: nat)
      requires Valid() && x < |name| && alive[x] && !Hashed(h, Abs(), x)
      modifies `hash
      ensures Valid() && Abs() == Rehashed(h, old(Abs()), x) && Hashed(h, Abs(), x)
      ensures Found(h, Abs(), t.parent[x], NameOf(Abs(), x)) == Some(x)
      ensures Next(h, old(Now()), Now())
    {
      RehashKeeps(h, Abs(), held, d, top, x);
      RehashFound(h, Abs(), x);
      hide Next, Found;
      RehashStep(h, Now(), d, top, x);
      var b := h(t.parent[x], name[x].hash);
      hash := hash[b := [x] + hash[b]];
    }

    /** d_drop */
    method DDrop(x: nat)
      requires Valid() && x < |name|
      modifies `hash
      ensures Valid() && Abs() == Dropped(h, old(Abs()), x) && !Hashed(h, Abs(), x)
      ensures Next(h, old(Now()), Now())
    {
      DropKeeps(h, Abs(), held, d, top, x);
      hide Next;
      DropStep(h, Now(), d, top, x);
      var b := h(t.parent[x], name[x].hash);
      hash := hash[b := Minus(hash[b], x)];
    }

    /** The search of d_lookup. */
    method Search(p: nat, q: Qstr) returns (r: Option<nat>)
      requires Valid()
      ensures r == Found(h, Abs(), p, q)
    {
      var chain := hash[h(p, q.hash)];
      var i := 0;
      while i < |chain|
        invariant i <= |chain|
        invariant First(Abs(), chain[i..], p, q) == First(Abs(), chain, p, q)
      {
        var x := chain[i];
        assert x in chain;
        if name[x].hash == q.hash && t.parent[x] == p && name[x].len == |q.text| && Text(name[x]) == q.text {
          return Some(x);
        }
        i := i + 1;
      }
      return None;
    }

    /** d_lookup: a reference to the hashed child with the name, if there is one. */
    method DLookup(p: nat, q: Qstr) returns (r: Option<nat>)
      requires Valid()
      modifies this
      ensures Valid() && r == Found(h, old(Abs()), p, q)
      ensures r.None? ==> Abs() == old(Abs()) && held == old(held) && forall x :: !Known(h, Abs(), x, p, q)
      ensures r.Some? ==>
                && Known(h, Abs(), r.value, p, q) && r.value < |old(held)| == |old(count)| == |old(used)|
                && held == old(held)[r.value := old(held)[r.value] + 1] && Abs() == Touched(old(Abs()), r.value)
                && r.value < |used| && used[r.value] && Next(h, old(Now()), Now())
    {
      hide Found, Inv, Sized, Next, Known, InRange;
      LookupKeeps(h, Abs(), held, d, top, p, q);
      r := Search(p, q);
      if r.Some? {
        GetStep(h, Now(), d, top, r.value);
        DgetLocked(r.value);
        used := used[r.value := true];
      }
    }

    /** is_subdir */
    method IsSubdir(new_: nat, old_: nat) returns (result: bool)
      requires Valid() && new_ < |name| && old_ < |name|
      ensures result <==> Below(t, d, top, new_, old_)
    {
      var x: nat := new_;
      while x != old_
        invariant x < |name| && (Below(t, d, top, x, old_) <==> Below(t, d, top, new_, old_))
        decreases d[x]
      {
        if t.parent[x] == x {
          return false;
        }
        BelowStep(t, d, top, x, old_);
        x := t.parent[x];
      }
      return true;
    }

    /** d_move */
    method DMove(x: nat, y: nat)
      requires Valid() && CanMove(h, Abs(), x, y) && !Below(t, d, top, x, y) && !Below(t, d, top, y, x)
      modifies this
      ensures Valid() && Abs() == Moved(h, old(Abs()), x, y) && held == old(held)
      ensures Next(h, old(Now()), Now())
    {
      hide Inv, Below, Sized, Next;
      Ranges(h, Abs(), held, d, top, x);
      Ranges(h, Abs(), held, d, top, y);
      MovedKeeps(h, Abs(), held, d, top, x, y);
      MoveStep(h, Now(), d, top, x, y);
      ghost var s' := Moved(h, Abs(), x, y);
      ghost var d', top' :| Inv(h, s', held, d', top');
      var xb, yb := h(t.parent[x], name[x].hash), h(t.parent[y], name[y].hash);
      hash := hash[xb := Minus(hash[xb], x)];
      hash := hash[yb := Replace(hash[yb], y, x)];
      var px, py := t.parent[x], t.parent[y];
      var kids := t.kids[px := Minus(t.kids[px], x)];
      kids := kids[py := Minus(kids[py], y)];
      name := name[x := Taken(name[x], name[y])][y := Left(name[x], name[y])];
      kids := kids[px := [y] + kids[px]];
      kids := kids[py := [x] + kids[py]];
      t := Forest(t.parent[x := x][y := y][y := px][x := py], kids);
      d, top := d', top';
    }

    /** The walk of have_submounts through what is below p. */
    method WalkMounted(p: nat, mounted: seq<nat>) returns (found: bool)
      requires Valid() && p < |name| && |mounted| == |name|
      ensures Tree(t, d, top) && p < |t.parent|
      ensures found <==> !Bare(Descendants(t, d, top, p), mounted)
    {
      hide Inv, Tree, Below, Rest, Up, NoDup, IndexOf, Bare;
      TreeNow(h, Abs(), held, d, top, p);
      DescendantsAre(t, d, top, p);
      ghost var all := Descendants(t, d, top, p);
      ghost var seen: seq<nat> := [];
      var x: nat, i: nat := p, 0;
      BareNone(mounted);
      assert [] + all == all;
      while true
        invariant Tree(t, d, top) && x < |t.kids| == |t.parent| == |d| == |mounted| && Below(t, d, top, x, p)
        invariant i <= |t.kids[x]|
        invariant all == seen + Rest(t, d, top, x, i, p) && Bare(seen, mounted)
        decreases |Rest(t, d, top, x, i, p)|, d[x]
      {
        if i < |t.kids[x]| {
          StepDown(t, d, top, p, x, i, all, seen);
          var k := t.kids[x][i];
          BareStep(all, seen, k, mounted);
          if mounted[k] != 0 {
            return true;
          }
          i := i + 1;
          seen := seen + [k];
          if t.kids[k] != [] {
            x, i := k, 0;
          }
        } else if x != p {
          ParentBelow(t, d, top, x, p);
          RestAscend(t, d, top, x, p);
          i := IndexOf(t.kids[t.parent[x]], x) + 1;
          x := t.parent[x];
        } else {
          RestStart(t, d, top, p);
          assert all == seen;
          return false;
        }
      }
    }

    /** have_submounts: whether something is mounted on p or below it. */
    method HaveSubmounts(p: nat, mounted: seq<nat>) returns (found: bool)
      requires Valid() && p < |name| && |mounted| == |name|
      ensures found <==> exists x: nat :: Below(t, d, top, x, p) && mounted[x] != 0
    {
      hide Inv, Tree, Below, Descendants, Bare;
      TreeNow(h, Abs(), held, d, top, p);
      BareMeans(t, d, top, p, mounted);
      if mounted[p] != 0 {
        return true;
      }
      found := WalkMounted(p, mounted);
    }

    method SelectOne(k: nat, found0: nat, ghost lru0: seq<nat>, ghost seen: seq<nat>) returns (found: nat)
      requires Valid() && k < |name| && k !in seen && t.parent[k] != k
      requires found0 == |Idle(count, seen)| && lru == Selected(lru0, Idle(count, seen))
      modifies `lru
      ensures Valid() && found == |Idle(count, seen + [k])| && lru == Selected(lru0, Idle(count, seen + [k]))
      ensures count[k] == 0 ==> Next(h, old(Now()), Now())
      ensures count[k] != 0 ==> Now() == old(Now())
    {
      hide Inv, Selected, Idle, Next;
      found := found0;
      IdleAppend(count, seen, k);
      Ranges(h, Abs(), held, d, top, k);
      if count[k] == 0 {
        IdleIn(count, seen, k);
        SelectMore(lru0, Idle(count, seen), k);
        ReorderKeeps(h, Abs(), held, d, top, k);
        SelectStep(h, Now(), d, top, k);
        lru := ToEnd(lru, k);
        found := found + 1;
      }
    }

    /** select_parent: the unused descendants of p go to the end of the list of unused dentries. */
    method SelectParent(p: nat) returns (found: nat)
      requires Valid() && p < |name|
      modifies `lru
      ensures Valid() && found == |Idle(count, Descendants(t, d, top, p))|
      ensures lru == Selected(old(lru), Idle(count, Descendants(t, d, top, p)))
    {
      hide Inv, Tree, Below, Rest, Up, NoDup, IndexOf, Selected, Idle, Next;
      TreeNow(h, Abs(), held, d, top, p);
      DescendantsAre(t, d, top, p);
      ghost var all := Descendants(t, d, top, p);
      ghost var seen: seq<nat> := [];
      NothingSelected(lru, count);
      var x: nat, i: nat := p, 0;
      found := 0;
      assert [] + all == all;
      while true
        invariant Valid() && Tree(t, d, top) && x < |t.kids| == |t.parent| == |d| == |name| && Below(t, d, top, x, p)
        invariant i <= |t.kids[x]|
        invariant all == seen + Rest(t, d, top, x, i, p)
        invariant found == |Idle(count, seen)| && lru == Selected(old(lru), Idle(count, seen))
        decreases |Rest(t, d, top, x, i, p)|, d[x]
      {
        if i < |t.kids[x]| {
          StepDown(t, d, top, p, x, i, all, seen);
          var k := t.kids[x][i];
          i := i + 1;
          found := SelectOne(k, found, old(lru), seen);
          seen := seen + [k];
          if t.kids[k] != [] {
            x, i := k, 0;
          }
        } else if x != p {
          ParentBelow(t, d, top, x, p);
          RestAscend(t, d, top, x, p);
          i := IndexOf(t.kids[t.parent[x]], x) + 1;
          x := t.parent[x];
        } else {
          RestStart(t, d, top, p);
          assert all == seen;
          return;
        }
      }
    }

    /** prune_one_dentry up to where it gives the lock up: the last unused dentry is freed. */
    method FreeLast() returns (x: nat, p: nat)
      requires Valid() && lru != []
      requires lru[|lru| - 1] < |used| && !used[lru[|lru| - 1]]
      modifies this
      ensures Valid() && d == old(d) && top == old(top) && x == old(lru)[|old(lru)| - 1] < |old(name)|
      ensures p == old(t.parent)[x]
      ensures Abs() == Gone(h, old(Abs()), x) && held == GoneHeld(old(Abs()), old(held), x)
      ensures Next(h, old(Now()), Now())
    {
      hide Inv, Next, InRange, Sized, Minus, Rotated, Gone;
      LastUnused(h, Abs(), held, d, top);
      x := lru[|lru| - 1];
      Ranges(h, Abs(), held, d, top, x);
      p := t.parent[x];
      var b := h(p, name[x].hash);
      var f := if p == x then t else Forest(t.parent[x := x], t.kids[p := Minus(t.kids[p], x)]);
      GoneLast(h, Abs(), x, f);
      GoneKeeps(h, Abs(), held, d, top, x);
      PruneStep(h, Now(), d, top);
      held := GoneHeld(Abs(), held, x);
      lru := lru[..|lru| - 1];
      unused := unused - 1;
      hash := hash[b := Minus(hash[b], x)];
      alive := alive[x := false];
      t := f;
    }

    /** prune_one_dentry: the last unused dentry is freed, and its parent loses a reference. */
    method PruneOne(unwanted: set<nat>) returns (x: nat)
      requires Valid() && lru != []
      requires lru[|lru| - 1] < |used| && !used[lru[|lru| - 1]]
      modifies this
      ensures Valid() && held == old(held) && d == old(d) && top == old(top) && used == old(used)
      ensures Shrunk(h, old(Abs()), Abs()) && Trues(alive) < old(Trues(alive))
      ensures x == old(lru)[|old(lru)| - 1] < |alive| == |old(alive)| && old(alive)[x] && !alive[x]
      ensures Tree(old(t), old(d), old(top)) && GoneWith(old(Abs()), Abs(), old(d), old(top), [x])
    {
      hide Tree, HashOk, CountOk, LruOk, Shrunk, Put, Next, GoneWith;
      LastUnused(h, Abs(), held, d, top);
      Ranges(h, Abs(), held, d, top, lru[|lru| - 1]);
      PruneKeeps(h, Abs(), held, unwanted, d, top, lru[|lru| - 1]);
      PrunedWith(h, Abs(), held, unwanted, d, top, lru[|lru| - 1]);
      var p;
      x, p := FreeLast();
      if p != x {
        Dput(p, unwanted);
      }
    }

    /** A dentry that was used lately is not freed yet. */
    method SecondChance()
      requires Valid() && lru != [] && lru[|lru| - 1] < |used| && used[lru[|lru| - 1]]
      modifies `lru, `used
      ensures Valid() && Abs() == Rotated(old(Abs())) && lru != []
      ensures Shrunk(h, old(Abs()), Abs()) && Trues(used) < old(Trues(used))
      ensures Next(h, old(Now()), Now())
    {
      hide Inv, Shrunk, Trues, Next;
      RotateKeeps(h, Abs(), held, d, top);
      PruneStep(h, Now(), d, top);
      used := used[lru[|lru| - 1] := false];
      lru := [lru[|lru| - 1]] + lru[..|lru| - 1];
    }

    /** prune_dcache: as many as asked for are thrown away, if there are that many, and what goes besides is above one
        of them. */
    method PruneDcache(count0: int, unwanted: set<nat>) returns (ghost thrown: seq<nat>)
      requires Valid()
      modifies this
      ensures Valid() && held == old(held) && d == old(d) && top == old(top) && Shrunk(h, old(Abs()), Abs())
      ensures old(lru) != [] ==> Trues(alive) < old(Trues(alive))
      ensures lru != [] ==> count0 > 0 && Trues(alive) + count0 <= old(Trues(alive))
      ensures (count0 > 0 ==> |thrown| <= count0) && (lru != [] ==> |thrown| == count0)
      ensures |alive| == |old(alive)| && NoDup(thrown)
      ensures forall x :: x in thrown ==> x < |alive| && old(alive)[x] && !alive[x]
      ensures Tree(old(t), old(d), old(top)) && GoneWith(old(Abs()), Abs(), old(d), old(top), thrown)
    {
      hide Inv, Shrunk, Trues, Rotated, NoDup, GoneWith, Below;
      ReorderNow(h, Abs(), held, d, top);
      var n := count0;
      thrown := [];
      while lru != []
        invariant Valid() && held == old(held) && d == old(d) && top == old(top) && Shrunk(h, old(Abs()), Abs())
        invariant n <= count0 && Trues(alive) + (count0 - n) <= old(Trues(alive)) && (count0 > 0 ==> n > 0)
        invariant old(lru) != [] && lru == [] ==> n < count0
        invariant |thrown| == count0 - n && Thrown(old(Abs()), Abs(), d, top, thrown)
        decreases Trues(alive), Trues(used)
      {
        LastUnused(h, Abs(), held, d, top);
        ghost var before := Abs();
        if used[lru[|lru| - 1]] {
          SecondChance();
          ThrownSame(old(Abs()), before, Abs(), d, top, thrown);
          ShrunkTwice(h, old(Abs()), before, Abs());
          continue;
        }
        var x := PruneOne(unwanted);
        ThrownMore(h, old(Abs()), before, held, Abs(), d, top, thrown, x);
        ShrunkTwice(h, old(Abs()), before, Abs());
        thrown := thrown + [x];
        n := n - 1;
        if n == 0 {
          break;
        }
      }
    }

    /** shrink_dcache_parent: it ends, and then nothing below p is unused. */
    method ShrinkDcacheParent(p: nat, unwanted: set<nat>)
      requires Valid() && p < |name| && held[p] > 0
      modifies this
      ensures Valid() && held == old(held) && d == old(d) && top == old(top) && Shrunk(h, old(Abs()), Abs())
      ensures p < |name| == |count| && forall x: nat :: Below(t, d, top, x, p) && x != p ==> count[x] > 0
    {
      hide Tree, HashOk, CountOk, LruOk, Shrunk, Trues;
      ReorderShrinks(h, Abs(), Abs());
      while true
        invariant Valid() && held == old(held) && d == old(d) && top == old(top) && Shrunk(h, old(Abs()), Abs())
        invariant p < |name|
        decreases Trues(alive)
      {
        ghost var before := Abs();
        var found := SelectParent(p);
        ReorderShrinks(h, before, Abs());
        ShrunkTwice(h, old(Abs()), before, Abs());
        if found == 0 {
          NoneIdle(h, Abs(), held, d, top, p);
          return;
        }
        before := Abs();
        ghost var thrown := PruneDcache(found, unwanted);
        ShrunkTwice(h, old(Abs()), before, Abs());
        SameNames(h, before, Abs());
      }
    }
  }
}
