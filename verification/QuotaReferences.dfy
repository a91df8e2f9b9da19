/** The cache of dquots (fs/dquot.c): reference counts, the free list, the hash and delayed writing, over all
    interleavings. Everything happens under the big kernel lock, which is given up while a dquot is being allocated,
    read or written. */
module QuotaReferences {
  import opened Lists

  /** Whose quota it is: the superblock, user or group, and the id. */
  datatype Key = Key(sb: nat, kind: nat, id: nat)

  /** What a dquot says: the two grace times, and the rest (limits and usage). */
  datatype Block = Block(rest: int, btime: int, itime: int)

  const ZERO := Block(0, 0, 0)

  /** use is what the dquot says in memory; mod and locked are DQ_MOD and DQ_LOCKED. A dquot that get_empty_dquot
      made has no key yet. */
  datatype Dquot = Dquot(count: int, mod: bool, locked: bool, key: Option<Key>, use: Block)

  type Hash = Key -> nat

  /** slots are the i_dquot entries of all inodes; flight[x] counts the references that are on somebody's stack.
      writing has the dquots that are being written, with the copies that are going to disk; file is the quota files.
      The rest is history: truth is what was last put into the quota of a key, by whatever dquot; silent are the dquots
      that were changed without being marked since they were read or written; lost are the keys of silent dquots that
      went out of memory, until something is put into that quota again. */
  datatype Cache = Cache(q: seq<Dquot>, alive: seq<bool>, free: seq<nat>, nfree: int, hash: seq<seq<nat>>,
                         slots: seq<Option<nat>>, flight: seq<nat>, writing: map<nat, Block>,
                         file: map<Key, Block>, truth: map<Key, Block>, silent: set<nat>, lost: set<Key>)

  /** What a quota file says; beyond its end and in its holes it reads as zero. */
  function Record(file: map<Key, Block>, k: Key): Block {
    if k in file then file[k] else ZERO
  }

  /** b is a with a grace time started that was not running. */
  predicate Behind(a: Block, b: Block) {
    && a != b && a.rest == b.rest
    && (a.btime != 0 ==> b.btime == a.btime) && (a.itime != 0 ==> b.itime == a.itime)
  }

  lemma BehindTwice(a: Block, b: Block, c: Block)
    requires (a == b || Behind(a, b)) && Behind(b, c)
    ensures Behind(a, c)
  {
  }

  function Uses(slots: seq<Option<nat>>, x: nat): nat {
    if slots == [] then 0 else (if slots[0] == Some(x) then 1 else 0) + Uses(slots[1..], x)
  }

  lemma {:induction false} UsesUpdate(slots: seq<Option<nat>>, i: nat, o: Option<nat>, x: nat)
    requires i < |slots|
    ensures Uses(slots[i := o], x) == Uses(slots, x) + (if o == Some(x) then 1 else 0) -
            (if slots[i] == Some(x) then 1 else 0)
  {
    if i == 0 {
      assert slots[0 := o][1..] == slots[1..];
    } else {
      UsesUpdate(slots[1..], i - 1, o, x);
      assert slots[i := o][1..] == slots[1..][i - 1 := o];
    }
  }

  lemma {:induction false} UsesNone(slots: seq<Option<nat>>, x: nat)
    requires forall i {:trigger slots[i]} :: 0 <= i < |slots| && slots[i].Some? ==> slots[i].value < x
    ensures Uses(slots, x) == 0
  {
    if slots != [] {
      UsesNone(slots[1..], x);
    }
  }

  /** References in hand that are taken: the writer and the reader keep theirs until they are done. */
  function Busy(s: Cache, x: nat): nat
    requires x < |s.q|
  {
    (if x in s.writing then 1 else 0) + (if s.q[x].locked then 1 else 0)
  }

  /** Somebody other than the writer and the reader has a reference to x in hand. */
  predicate HasRef(s: Cache, x: nat) {
    x < |s.q| && x < |s.flight| && s.flight[x] > Busy(s, x)
  }

  // ---------------------------------------------------------------- the invariant

  predicate Sized(s: Cache) {
    |s.q| == |s.alive| == |s.flight|
  }

  predicate Keyed(s: Cache, x: nat, k: Key) {
    x < |s.q| && x < |s.alive| && s.alive[x] && s.q[x].key == Some(k)
  }

  /** dq_count is the number of references, and a freed dquot has none. */
  predicate CountOk(s: Cache) {
    && Sized(s)
    && (forall x {:trigger s.q[x]} :: 0 <= x < |s.q| ==> s.q[x].count == Uses(s.slots, x) + s.flight[x])
    && (forall x {:trigger s.alive[x]} :: 0 <= x < |s.alive| && !s.alive[x] ==> s.q[x].count == 0)
    && (forall i {:trigger s.slots[i]} :: 0 <= i < |s.slots| && s.slots[i].Some? ==> s.slots[i].value < |s.q|)
  }

  /** free_dquots lists exactly the live dquots without references, and none that is modified. */
  predicate FreeOk(s: Cache) {
    && Sized(s) && NoDup(s.free) && s.nfree == |s.free|
    && (forall x {:trigger x in s.free} :: x in s.free ==> x < |s.q| && s.alive[x] && s.q[x].count == 0 && !s.q[x].mod)
    && (forall x {:trigger s.q[x]} :: 0 <= x < |s.q| && s.alive[x] && s.q[x].count == 0 ==> x in s.free)
  }

  ghost predicate InRange(h: Hash, size: nat) {
    forall k :: h(k) < size
  }

  /** The chains hold exactly the live dquots that have a key, each in the chain of its key. */
  ghost predicate HashOk(h: Hash, s: Cache) {
    && Sized(s) && InRange(h, |s.hash|)
    && (forall b {:trigger s.hash[b]} :: 0 <= b < |s.hash| ==> NoDup(s.hash[b]))
    && (forall b, x {:trigger x in s.hash[b]} :: 0 <= b < |s.hash| && x in s.hash[b] ==>
          x < |s.q| && s.alive[x] && s.q[x].key.Some? && h(s.q[x].key.value) == b)
    && (forall x {:trigger s.q[x]} :: 0 <= x < |s.q| && s.alive[x] && s.q[x].key.Some? ==>
       x in s.hash[h(s.q[x].key.value)])
  }

  /** At most one live dquot has a key. */
  predicate UniqueOk(s: Cache) {
    && Sized(s)
    && forall x, y {:trigger s.q[x], s.q[y]} ::
         && 0 <= x < |s.q| && 0 <= y < |s.q| && s.alive[x] && s.alive[y]
         && s.q[x].key.Some? && s.q[x].key == s.q[y].key
         ==> x == y
  }

  /** Who reads or writes has a reference, and nothing is both read and changed. */
  predicate BusyOk(s: Cache) {
    && Sized(s)
    && (forall x {:trigger s.q[x]} :: 0 <= x < |s.q| && s.q[x].locked ==>
          s.alive[x] && s.q[x].key.Some? && !s.q[x].mod && x !in s.writing && s.flight[x] > 0)
    && (forall x {:trigger x in s.writing} :: x in s.writing ==>
          x < |s.q| && s.alive[x] && s.q[x].key.Some? && s.flight[x] > 0)
    && (forall x {:trigger s.q[x]} :: 0 <= x < |s.q| && s.q[x].mod ==> s.q[x].key.Some?)
    && (forall x {:trigger x in s.silent} :: x in s.silent ==>
          x < |s.q| && s.alive[x] && s.q[x].key.Some? && !s.q[x].locked && !s.q[x].mod)
  }

  /** x has something for k that is not in the file: it is marked, on its way, or changed without a mark. */
  predicate Ahead(s: Cache, x: nat, k: Key) {
    Keyed(s, x, k) && !s.q[x].locked && (s.q[x].mod || x in s.writing || x in s.silent)
  }

  /** x has a key and has been read. */
  predicate Settled(s: Cache, x: nat) {
    x < |s.q| && x < |s.alive| && s.alive[x] && s.q[x].key.Some? && !s.q[x].locked
  }

  /** What the file says, or is about to say, of x. */
  function Saved(s: Cache, x: nat): Block
    requires Settled(s, x)
  {
    if x in s.writing then s.writing[x] else Record(s.file, s.q[x].key.value)
  }

  /** What has been read says the truth, unless that was lost; and what is not marked is saved, but for a grace time
      that was started silently. */
  predicate ValueAt(s: Cache, x: nat)
    requires Settled(s, x)
  {
    var k, v := s.q[x].key.value, s.q[x].use;
    && (k !in s.lost ==> v == Record(s.truth, k))
    && (k in s.lost ==> !s.q[x].mod && x !in s.silent && v == Record(s.file, k))
    && (!s.q[x].mod ==> if x in s.silent then Behind(Saved(s, x), v) else v == Saved(s, x))
  }

  /** The file says the truth where no dquot is ahead of it and nothing was lost. */
  ghost predicate FileAt(s: Cache, k: Key) {
    if k in s.lost then Behind(Record(s.file, k), Record(s.truth, k))
    else Record(s.file, k) == Record(s.truth, k) || exists x :: Ahead(s, x, k)
  }

  ghost predicate TruthOk(s: Cache) {
    && Sized(s)
    && (forall x {:trigger s.q[x]} :: 0 <= x < |s.q| && Settled(s, x) ==> ValueAt(s, x))
    && (forall k {:trigger FileAt(s, k)} :: FileAt(s, k))
  }

  lemma FileSame(s: Cache, s': Cache, k: Key)
    requires FileAt(s, k) && Record(s'.file, k) == Record(s.file, k) && Record(s'.truth, k) == Record(s.truth, k)
    requires (k in s'.lost <==> k in s.lost) && forall x :: Ahead(s, x, k) ==> Ahead(s', x, k)
    ensures FileAt(s', k)
  {
    if k !in s.lost && Record(s.file, k) != Record(s.truth, k) {
      var x: nat :| Ahead(s, x, k);
      assert Ahead(s', x, k);
    }
  }

  ghost predicate Inv(h: Hash, s: Cache) {
    CountOk(s) && FreeOk(s) && HashOk(h, s) && UniqueOk(s) && BusyOk(s) && TruthOk(s)
  }

  // ---------------------------------------------------------------- the steps

  function Counted(s: Cache, x: nat, by_: int): seq<Dquot>
    requires x < |s.q|
  {
    s.q[x := s.q[x].(count := s.q[x].count + by_)]
  }

  /** get_empty_dquot */
  predicate Empty(s: Cache, s': Cache) {
    s' == s.(q := s.q + [Dquot(1, false, false, None, ZERO)], alive := s.alive + [true], flight := s.flight + [1])
  }

  /** dqget has found no dquot for k, and makes its empty one that: it is hashed, and locked to be read. */
  predicate Claim(h: Hash, s: Cache, s': Cache, x: nat, k: Key) {
    && Sized(s) && HasRef(s, x) && s.alive[x] && s.q[x].key.None? && h(k) < |s.hash|
    && (forall y {:trigger y in s.hash[h(k)]} :: y in s.hash[h(k)] ==> !Keyed(s, y, k))
    && s' == s.(q := s.q[x := s.q[x].(key := Some(k), locked := true)], hash := s.hash[h(k) := [x] + s.hash[h(k)]])
  }

  /** read_dquot is done. */
  predicate ReadEnd(s: Cache, s': Cache, x: nat) {
    && Sized(s) && x < |s.q| && s.q[x].locked && s.q[x].key.Some?
    && s' == s.(q := s.q[x := s.q[x].(use := Record(s.file, s.q[x].key.value), locked := false)])
  }

  /** dqget finds a dquot, perhaps on the free list, perhaps still being read. */
  predicate Get(s: Cache, s': Cache, x: nat) {
    && Sized(s) && x < |s.q| && s.alive[x] && s.q[x].key.Some?
    && s' == s.(q := Counted(s, x, 1), flight := s.flight[x := s.flight[x] + 1],
                free := if s.q[x].count == 0 then Minus(s.free, x) else s.free,
                nfree := if s.q[x].count == 0 then s.nfree - 1 else s.nfree)
  }

  /** dqduplicate, of a dquot in a slot or in hand. */
  predicate Duplicate(s: Cache, s': Cache, x: nat) {
    && Sized(s) && x < |s.q| && s.q[x].count > 0
    && s' == s.(q := Counted(s, x, 1), flight := s.flight[x := s.flight[x] + 1])
  }

  /** A reference in hand goes into a slot. */
  predicate Install(s: Cache, s': Cache, i: nat, x: nat) {
    && Sized(s) && i < |s.slots| && s.slots[i].None? && HasRef(s, x)
    && s' == s.(slots := s.slots[i := Some(x)], flight := s.flight[x := s.flight[x] - 1])
  }

  /** A reference is taken out of a slot. */
  predicate TakeOut(s: Cache, s': Cache, i: nat, x: nat) {
    && Sized(s) && i < |s.slots| && s.slots[i] == Some(x) && x < |s.flight|
    && s' == s.(slots := s.slots[i := None], flight := s.flight[x := s.flight[x] + 1])
  }

  /** Usage or limits are changed, by somebody with a reference, who has waited until the dquot was read. */
  predicate Modify(s: Cache, s': Cache, x: nat, v: Block) {
    && Sized(s) && HasRef(s, x) && s.q[x].key.Some? && !s.q[x].locked
    && s' == s.(q := s.q[x := s.q[x].(use := v, mod := true)], truth := s.truth[s.q[x].key.value := v],
                silent := s.silent - {x}, lost := s.lost - {s.q[x].key.value})
  }

  /** A check starts a grace time, in a call that is then refused: the dquot is changed and not marked. */
  predicate StartGrace(s: Cache, s': Cache, x: nat, v: Block) {
    && Sized(s) && HasRef(s, x) && s.q[x].key.Some? && !s.q[x].locked && Behind(s.q[x].use, v)
    && s' == s.(q := s.q[x := s.q[x].(use := v)], truth := s.truth[s.q[x].key.value := v],
                silent := if s.q[x].mod then s.silent else s.silent + {x}, lost := s.lost - {s.q[x].key.value})
  }

  /** dqio_sem: nothing of the superblock is being written. */
  predicate FileIdle(s: Cache, sb: nat) {
    forall y {:trigger y in s.writing} :: y in s.writing && y < |s.q| && s.q[y].key.Some? ==> s.q[y].key.value.sb != sb
  }

  /** write_dquot, behind down(dqio_sem): the copy is taken and the mark removed, whether it is still there or not. */
  predicate WriteBegin(s: Cache, s': Cache, x: nat) {
    && Sized(s) && HasRef(s, x) && s.q[x].key.Some? && !s.q[x].locked && FileIdle(s, s.q[x].key.value.sb)
    && s' == s.(q := s.q[x := s.q[x].(mod := false)], writing := s.writing[x := s.q[x].use], silent := s.silent - {x})
  }

  /** The copy has reached the disk. */
  predicate WriteEnd(s: Cache, s': Cache, x: nat) {
    && Sized(s) && x in s.writing && x < |s.q| && s.q[x].key.Some?
    && s' == s.(file := s.file[s.q[x].key.value := s.writing[x]], writing := s.writing - {x})
  }

  /** sync_dquots raises the count of a modified or locked dquot without looking at the free list. */
  predicate SyncGet(s: Cache, s': Cache, x: nat) {
    && Sized(s) && x < |s.q| && s.alive[x] && (s.q[x].mod || s.q[x].locked)
    && s' == s.(q := Counted(s, x, 1), flight := s.flight[x := s.flight[x] + 1])
  }

  /** dqput, not the last reference. */
  predicate PutShared(s: Cache, s': Cache, x: nat) {
    && Sized(s) && HasRef(s, x) && s.q[x].count > 1
    && s' == s.(q := Counted(s, x, -1), flight := s.flight[x := s.flight[x] - 1])
  }

  /** dqput, the last reference to a dquot that is not modified. */
  predicate PutLast(s: Cache, s': Cache, x: nat) {
    && Sized(s) && HasRef(s, x) && s.q[x].count == 1 && !s.q[x].mod
    && s' == s.(q := Counted(s, x, -1), flight := s.flight[x := s.flight[x] - 1], free := s.free + [x],
       nfree := s.nfree + 1)
  }

  /** The chains when x is gone from them. */
  function Unhashed(h: Hash, s: Cache, x: nat): seq<seq<nat>>
    requires x < |s.q| && (s.q[x].key.Some? ==> h(s.q[x].key.value) < |s.hash|)
  {
    if s.q[x].key.None? then s.hash else var b := h(s.q[x].key.value); s.hash[b := Minus(s.hash[b], x)]
  }

  /** What is lost when x goes out of memory. */
  function LostWith(s: Cache, x: nat): set<Key>
    requires x < |s.q|
  {
    if x in s.silent && s.q[x].key.Some? then s.lost + {s.q[x].key.value} else s.lost
  }

  /** One turn of prune_dqcache: the last of the free dquots is given back to memory. */
  predicate Prune(h: Hash, s: Cache, s': Cache, x: nat) {
    && Sized(s) && s.free != [] && x == s.free[|s.free| - 1] && x < |s.q|
    && (s.q[x].key.Some? ==> h(s.q[x].key.value) < |s.hash|)
    && s' == s.(alive := s.alive[x := false], free := s.free[..|s.free| - 1], nfree := s.nfree - 1,
                hash := Unhashed(h, s, x), silent := s.silent - {x}, lost := LostWith(s, x))
  }

  ghost predicate Next(h: Hash, s: Cache, s': Cache) {
    || Empty(s, s')
    || (exists x, k :: Claim(h, s, s', x, k))
    || (exists x ::
       Get(s, s', x) || Duplicate(s, s', x) || SyncGet(s, s', x) || PutShared(s, s', x) || PutLast(s, s', x))
    || (exists x :: ReadEnd(s, s', x) || WriteBegin(s, s', x) || WriteEnd(s, s', x) || Prune(h, s, s', x))
    || (exists i, x :: Install(s, s', i, x) || TakeOut(s, s', i, x))
    || (exists x, v :: Modify(s, s', x, v) || StartGrace(s, s', x, v))
  }

  // ---------------------------------------------------------------- steps that only count

  /** Nothing changed but who refers to what. */
  predicate SameContents(s: Cache, s': Cache) {
    && |s'.q| == |s.q| && s'.alive == s.alive && s'.hash == s.hash && s'.writing == s.writing
    && s'.file == s.file && s'.truth == s.truth && s'.silent == s.silent && s'.lost == s.lost
    && forall x {:trigger s'.q[x]} {:trigger s.q[x]} :: 0 <= x < |s.q| ==> s'.q[x] == s.q[x].(count := s'.q[x].count)
  }

  lemma SameHash(h: Hash, s: Cache, s': Cache)
    requires HashOk(h, s) && SameContents(s, s') && Sized(s')
    ensures HashOk(h, s')
  {
  }

  lemma SameTruth(s: Cache, s': Cache)
    requires UniqueOk(s) && TruthOk(s) && SameContents(s, s') && Sized(s')
    ensures UniqueOk(s') && TruthOk(s')
  {
    forall y | 0 <= y < |s'.q| && Settled(s', y) ensures ValueAt(s', y) {
      assert Settled(s, y) ==> ValueAt(s, y);
    }
    forall k ensures FileAt(s', k) {
      assert FileAt(s, k);
      FileSame(s, s', k);
    }
  }

  lemma RaiseKeeps(h: Hash, s: Cache, s': Cache, x: nat)
    requires Inv(h, s) && (Get(s, s', x) || Duplicate(s, s', x) || SyncGet(s, s', x))
    ensures Inv(h, s')
  {
    hide CountOk, FreeOk, HashOk, TruthOk, UniqueOk, BusyOk;
    RaiseCounts(s, s', x);
    RaiseBusy(s, s', x);
    SameHash(h, s, s');
    SameTruth(s, s');
  }

  lemma RaiseBusy(s: Cache, s': Cache, x: nat)
    requires BusyOk(s) && (Get(s, s', x) || Duplicate(s, s', x) || SyncGet(s, s', x))
    ensures BusyOk(s') && SameContents(s, s') && Sized(s')
  {
    hide Minus;
  }

  lemma RaiseCounts(s: Cache, s': Cache, x: nat)
    requires CountOk(s) && FreeOk(s) && BusyOk(s) && (Get(s, s', x) || Duplicate(s, s', x) || SyncGet(s, s', x))
    ensures CountOk(s') && FreeOk(s')
  {
    if s.q[x].count == 0 {
      MinusNoDup(s.free, x);
      MinusLength(s.free, x);
    }
  }

  /** A modified dquot has a reference, and so has one that is being read; so raising its count is all sync_dquots
      has to do. */
  lemma SyncSafe(h: Hash, s: Cache, x: nat)
    requires Inv(h, s) && x < |s.q| && s.alive[x] && (s.q[x].mod || s.q[x].locked)
    ensures s.q[x].count > 0 && x !in s.free
  {
  }

  lemma SlotKeeps(h: Hash, s: Cache, s': Cache, i: nat, x: nat)
    requires Inv(h, s) && (Install(s, s', i, x) || TakeOut(s, s', i, x))
    ensures Inv(h, s')
  {
    hide CountOk, FreeOk, HashOk, TruthOk, UniqueOk;
    SlotCounts(s, s', i, x);
    SameHash(h, s, s');
    SameTruth(s, s');
  }

  lemma SlotCounts(s: Cache, s': Cache, i: nat, x: nat)
    requires CountOk(s) && FreeOk(s) && (Install(s, s', i, x) || TakeOut(s, s', i, x))
    ensures CountOk(s') && FreeOk(s')
  {
    forall y {:trigger s'.q[y]} | 0 <= y < |s.q| ensures s'.q[y].count == Uses(s'.slots, y) + s'.flight[y] {
      UsesUpdate(s.slots, i, s'.slots[i], y);
    }
  }

  /** The last reference: the dquot is in no slot, nobody reads or writes it and it is not on the free list yet. */
  lemma LastIsClean(h: Hash, s: Cache, x: nat)
    requires Inv(h, s) && HasRef(s, x) && s.q[x].count == 1
    ensures Uses(s.slots, x) == 0 && s.flight[x] == 1 && x !in s.writing && !s.q[x].locked && s.alive[x] && x !in s.free
  {
  }

  lemma PutKeeps(h: Hash, s: Cache, s': Cache, x: nat)
    requires Inv(h, s) && (PutShared(s, s', x) || PutLast(s, s', x))
    ensures Inv(h, s')
  {
    hide CountOk, FreeOk, HashOk, TruthOk, UniqueOk, BusyOk;
    if PutLast(s, s', x) {
      LastIsClean(h, s, x);
    }
    PutCounts(s, s', x);
    PutBusy(s, s', x);
    SameHash(h, s, s');
    SameTruth(s, s');
  }

  lemma PutBusy(s: Cache, s': Cache, x: nat)
    requires BusyOk(s) && (PutShared(s, s', x) || PutLast(s, s', x))
    ensures BusyOk(s') && SameContents(s, s') && Sized(s')
  {
  }

  lemma PutCounts(s: Cache, s': Cache, x: nat)
    requires CountOk(s) && FreeOk(s) && (PutShared(s, s', x) || (PutLast(s, s', x) && x !in s.free && s.alive[x]))
    ensures CountOk(s') && FreeOk(s')
  {
    if PutLast(s, s', x) {
      NoDupAppend(s.free, [x]);
    }
  }

  // ---------------------------------------------------------------- making and reading a dquot

  lemma EmptyKeeps(h: Hash, s: Cache, s': Cache)
    requires Inv(h, s) && Empty(s, s')
    ensures Inv(h, s')
  {
    hide TruthOk, HashOk, UniqueOk;
    UsesNone(s.slots, |s.q|);
    EmptyHash(h, s, s');
    EmptyTruth(s, s');
  }

  lemma EmptyHash(h: Hash, s: Cache, s': Cache)
    requires HashOk(h, s) && Empty(s, s')
    ensures HashOk(h, s')
  {
  }

  lemma EmptyTruth(s: Cache, s': Cache)
    requires TruthOk(s) && UniqueOk(s) && Empty(s, s')
    ensures TruthOk(s') && UniqueOk(s')
  {
    forall y | 0 <= y < |s'.q| && Settled(s', y) ensures ValueAt(s', y) {
      assert Settled(s, y) ==> ValueAt(s, y);
    }
    forall k ensures FileAt(s', k) {
      assert FileAt(s, k);
      FileSame(s, s', k);
    }
  }

  /** If the chain has no dquot for k, there is none. */
  lemma NoneHashed(h: Hash, s: Cache, k: Key, y: nat)
    requires HashOk(h, s) && forall y {:trigger y in s.hash[h(k)]} :: y in s.hash[h(k)] ==> !Keyed(s, y, k)
    ensures !Keyed(s, y, k)
  {
  }

  lemma ClaimKeeps(h: Hash, s: Cache, s': Cache, x: nat, k: Key)
    requires Inv(h, s) && Claim(h, s, s', x, k)
    ensures Inv(h, s')
  {
    hide HashOk, TruthOk, UniqueOk;
    ClaimUnique(h, s, s', x, k);
    ClaimHash(h, s, s', x, k);
    ClaimTruth(s, s', x, k);
  }

  lemma ClaimHash(h: Hash, s: Cache, s': Cache, x: nat, k: Key)
    requires HashOk(h, s) && Claim(h, s, s', x, k)
    ensures HashOk(h, s')
  {
    assert x !in s.hash[h(k)];
    PushNoDup(s.hash[h(k)], x);
  }

  lemma ClaimUnique(h: Hash, s: Cache, s': Cache, x: nat, k: Key)
    requires HashOk(h, s) && UniqueOk(s) && Claim(h, s, s', x, k)
    ensures UniqueOk(s')
  {
    forall y | 0 <= y < |s.q| && s.alive[y] ensures s.q[y].key != Some(k) {
      NoneHashed(h, s, k, y);
    }
  }

  lemma ClaimTruth(s: Cache, s': Cache, x: nat, k: Key)
    requires TruthOk(s) && Sized(s') && x < |s.q| && s.q[x].key.None?
    requires s' == s.(q := s.q[x := s.q[x].(key := Some(k), locked := true)], hash := s'.hash)
    ensures TruthOk(s')
  {
    forall y | 0 <= y < |s'.q| && Settled(s', y) ensures ValueAt(s', y) {
      assert Settled(s, y) ==> ValueAt(s, y);
    }
    forall c ensures FileAt(s', c) {
      assert FileAt(s, c);
      FileSame(s, s', c);
    }
  }

  lemma OnlyOne(s: Cache, x: nat, y: nat, k: Key)
    requires UniqueOk(s) && Keyed(s, x, k)
    ensures Keyed(s, y, k) ==> x == y
  {
  }

  /** Where the only dquot of the key is not ahead and nothing was lost, the file says the truth. */
  lemma FileSaysTruth(s: Cache, x: nat, k: Key)
    requires UniqueOk(s) && TruthOk(s) && Keyed(s, x, k) && !Ahead(s, x, k) && k !in s.lost
    ensures Record(s.file, k) == Record(s.truth, k)
  {
    assert FileAt(s, k);
    forall y: nat ensures !Ahead(s, y, k) {
      OnlyOne(s, x, y, k);
    }
  }

  /** What is read is the truth, unless that was lost. */
  lemma ReadKeeps(h: Hash, s: Cache, s': Cache, x: nat)
    requires Inv(h, s) && ReadEnd(s, s', x)
    ensures Inv(h, s') && (s'.q[x].use == Record(s.truth, s.q[x].key.value) <==> s.q[x].key.value !in s.lost)
  {
    hide TruthOk, CountOk, FreeOk, HashOk;
    ReadTruth(s, s', x);
    ReadSame(h, s, s', x);
  }

  lemma ReadSame(h: Hash, s: Cache, s': Cache, x: nat)
    requires CountOk(s) && FreeOk(s) && HashOk(h, s) && ReadEnd(s, s', x)
    ensures CountOk(s') && FreeOk(s') && HashOk(h, s')
  {
  }

  lemma ReadTruth(s: Cache, s': Cache, x: nat)
    requires TruthOk(s) && UniqueOk(s) && BusyOk(s) && ReadEnd(s, s', x)
    ensures TruthOk(s')
    ensures s'.q[x].use == Record(s.truth, s.q[x].key.value) <==> s.q[x].key.value !in s.lost
  {
    var c := s.q[x].key.value;
    assert FileAt(s, c);
    if c !in s.lost {
      FileSaysTruth(s, x, c);
    }
    forall y | 0 <= y < |s'.q| && Settled(s', y) ensures ValueAt(s', y) {
      assert Settled(s, y) ==> ValueAt(s, y);
    }
    forall k ensures FileAt(s', k) {
      assert FileAt(s, k);
      FileSame(s, s', k);
    }
  }

  // ---------------------------------------------------------------- changing and writing a dquot

  lemma ModifyKeeps(h: Hash, s: Cache, s': Cache, x: nat, v: Block)
    requires Inv(h, s) && (Modify(s, s', x, v) || StartGrace(s, s', x, v))
    ensures Inv(h, s')
  {
    hide TruthOk, HashOk, UniqueOk;
    assert s.q[x].count > 0 && s.alive[x];
    ModifySame(h, s, s', x, v);
    ModifyTruth(s, s', x, v);
  }

  lemma ModifySame(h: Hash, s: Cache, s': Cache, x: nat, v: Block)
    requires HashOk(h, s) && UniqueOk(s) && (Modify(s, s', x, v) || StartGrace(s, s', x, v))
    ensures HashOk(h, s') && UniqueOk(s')
  {
  }

  lemma ModifyTruth(s: Cache, s': Cache, x: nat, v: Block)
    requires TruthOk(s) && UniqueOk(s) && BusyOk(s) && x < |s.alive| && s.alive[x]
    requires Modify(s, s', x, v) || StartGrace(s, s', x, v)
    ensures TruthOk(s')
  {
    var c := s.q[x].key.value;
    assert ValueAt(s, x);
    assert Ahead(s', x, c);
    forall y | 0 <= y < |s'.q| && Settled(s', y) ensures ValueAt(s', y) {
      assert Settled(s, y) ==> ValueAt(s, y);
      if y == x && StartGrace(s, s', x, v) && !s.q[x].mod {
        BehindTwice(Saved(s, x), s.q[x].use, v);
      }
    }
    forall k ensures FileAt(s', k) {
      assert FileAt(s, k);
      if k != c {
        FileSame(s, s', k);
      }
    }
  }

  lemma WriteBeginKeeps(h: Hash, s: Cache, s': Cache, x: nat)
    requires Inv(h, s) && WriteBegin(s, s', x)
    ensures Inv(h, s')
  {
    hide TruthOk, HashOk, UniqueOk;
    assert s.q[x].count > 0 && s.alive[x];
    WriteBeginSame(h, s, s', x);
    WriteBeginTruth(s, s', x);
  }

  lemma WriteBeginSame(h: Hash, s: Cache, s': Cache, x: nat)
    requires HashOk(h, s) && WriteBegin(s, s', x)
    ensures HashOk(h, s')
  {
  }

  lemma WriteBeginTruth(s: Cache, s': Cache, x: nat)
    requires TruthOk(s) && UniqueOk(s) && WriteBegin(s, s', x)
    ensures TruthOk(s') && UniqueOk(s')
  {
    forall y | 0 <= y < |s'.q| && Settled(s', y) ensures ValueAt(s', y) {
      assert Settled(s, y) ==> ValueAt(s, y);
    }
    forall k ensures FileAt(s', k) {
      assert FileAt(s, k);
      FileSame(s, s', k);
    }
  }

  lemma WriteEndKeeps(h: Hash, s: Cache, s': Cache, x: nat)
    requires Inv(h, s) && WriteEnd(s, s', x)
    ensures Inv(h, s')
  {
    hide TruthOk, CountOk, FreeOk, HashOk, UniqueOk;
    WriteEndTruth(s, s', x);
    WriteEndSame(h, s, s', x);
  }

  lemma WriteEndSame(h: Hash, s: Cache, s': Cache, x: nat)
    requires CountOk(s) && FreeOk(s) && HashOk(h, s) && UniqueOk(s) && WriteEnd(s, s', x)
    ensures CountOk(s') && FreeOk(s') && HashOk(h, s') && UniqueOk(s')
  {
  }

  lemma WriteEndTruth(s: Cache, s': Cache, x: nat)
    requires TruthOk(s) && BusyOk(s) && UniqueOk(s) && WriteEnd(s, s', x)
    ensures TruthOk(s')
  {
    forall y | 0 <= y < |s'.q| && Settled(s', y) ensures ValueAt(s', y) {
      assert ValueAt(s, y) && ValueAt(s, x);
      assert s.q[y].key == s.q[x].key ==> y == x;
    }
    hide UniqueOk, BusyOk, Behind;
    forall k ensures FileAt(s', k) {
      WriteEndFile(s, s', x, k);
    }
  }

  lemma WriteEndFile(s: Cache, s': Cache, x: nat, k: Key)
    requires TruthOk(s) && WriteEnd(s, s', x) && Settled(s, x) && UniqueOk(s)
    ensures FileAt(s', k)
  {
    assert ValueAt(s, x) && FileAt(s, k);
    if s.q[x].key == Some(k) {
      if s.q[x].mod || x in s.silent {
        assert Ahead(s', x, k);
      }
    } else {
      FileSame(s, s', k);
    }
  }

  // ---------------------------------------------------------------- pruning

  /** Nobody refers to x and nobody works on it. */
  predicate Unused(s: Cache, x: nat) {
    && x < |s.q| && x < |s.flight| && !s.q[x].mod && !s.q[x].locked && x !in s.writing
    && Uses(s.slots, x) == 0 && s.flight[x] == 0
  }

  /** All that x says is in the file. */
  predicate OnDisk(s: Cache, x: nat)
    requires x < |s.q|
  {
    s.q[x].key.Some? ==> s.q[x].use == Record(s.file, s.q[x].key.value)
  }

  /** What prune_dqcache gives back to memory nobody refers to, and all it says is on disk exactly when it was not
      changed silently. */
  lemma PrunedIsClean(h: Hash, s: Cache, x: nat)
    requires Inv(h, s) && x in s.free
    ensures Unused(s, x) && (OnDisk(s, x) <==> x !in s.silent)
  {
    if s.q[x].key.Some? {
      assert ValueAt(s, x);
    }
  }

  lemma PruneKeeps(h: Hash, s: Cache, s': Cache, x: nat)
    requires Inv(h, s) && Prune(h, s, s', x)
    ensures Inv(h, s')
  {
    hide TruthOk, HashOk, UniqueOk;
    assert x in s.free;
    PrunedIsClean(h, s, x);
    PruneFree(s, s', x);
    PruneHash(h, s, s', x);
    PruneTruth(h, s, s', x);
  }

  lemma PruneTruth(h: Hash, s: Cache, s': Cache, x: nat)
    requires TruthOk(s) && UniqueOk(s) && BusyOk(s) && Prune(h, s, s', x) && Unused(s, x) && s.alive[x]
    ensures TruthOk(s') && UniqueOk(s')
  {
    if x in s.silent {
      assert ValueAt(s, x);
    }
    forall y | 0 <= y < |s'.q| && Settled(s', y) ensures ValueAt(s', y) {
      assert ValueAt(s, y);
      assert s.q[y].key == s.q[x].key ==> y == x;
    }
    forall k ensures FileAt(s', k) {
      assert FileAt(s, k);
      if !(x in s.silent && Keyed(s, x, k)) {
        FileSame(s, s', k);
      }
    }
  }

  lemma PruneFree(s: Cache, s': Cache, x: nat)
    requires FreeOk(s) && Sized(s') && x < |s.q| && s'.q == s.q && s'.alive == s.alive[x := false]
    requires s.free != [] && x == s.free[|s.free| - 1] && s'.free == s.free[..|s.free| - 1] && s'.nfree == s.nfree - 1
    ensures FreeOk(s')
  {
    forall y {:trigger y in s'.free} | y in s'.free ensures y in s.free && y != x {
      var j :| 0 <= j < |s'.free| && s'.free[j] == y;
      assert s.free[j] == y;
    }
    forall y | y in s.free && y != x ensures y in s'.free {
      var j :| 0 <= j < |s.free| && s.free[j] == y;
      assert s'.free[j] == y;
    }
  }

  lemma PruneHash(h: Hash, s: Cache, s': Cache, x: nat)
    requires HashOk(h, s) && x < |s.q| && s.alive[x] && Sized(s')
    requires s'.q == s.q && s'.alive == s.alive[x := false] && s'.hash == Unhashed(h, s, x)
    ensures HashOk(h, s')
  {
    if s.q[x].key.Some? {
      var b := h(s.q[x].key.value);
      MinusNoDup(s.hash[b], x);
    }
  }

  // ---------------------------------------------------------------- runs

  lemma NextKeeps(h: Hash, s: Cache, s': Cache)
    requires Inv(h, s) && Next(h, s, s')
    ensures Inv(h, s')
  {
    hide Inv, Empty, Claim, Get, Duplicate, SyncGet, PutShared, PutLast, ReadEnd, WriteBegin, WriteEnd, Prune,
      Install, TakeOut, Modify, StartGrace;
    if Empty(s, s') {
      EmptyKeeps(h, s, s');
    } else if x: nat, k :| Claim(h, s, s', x, k) {
      ClaimKeeps(h, s, s', x, k);
    } else if x: nat :| Get(s, s', x) || Duplicate(s, s', x) || SyncGet(s, s', x) {
      RaiseKeeps(h, s, s', x);
    } else if x: nat :| PutShared(s, s', x) || PutLast(s, s', x) {
      PutKeeps(h, s, s', x);
    } else if i: nat, x: nat :| Install(s, s', i, x) || TakeOut(s, s', i, x) {
      SlotKeeps(h, s, s', i, x);
    } else if x: nat, v :| Modify(s, s', x, v) || StartGrace(s, s', x, v) {
      ModifyKeeps(h, s, s', x, v);
    } else {
      WorkKeeps(h, s, s');
    }
  }

  lemma WorkKeeps(h: Hash, s: Cache, s': Cache)
    requires Inv(h, s) && exists x ::
             ReadEnd(s, s', x) || WriteBegin(s, s', x) || WriteEnd(s, s', x) || Prune(h, s, s', x)
    ensures Inv(h, s')
  {
    hide Inv, ReadEnd, WriteBegin, WriteEnd, Prune;
    var x: nat :| ReadEnd(s, s', x) || WriteBegin(s, s', x) || WriteEnd(s, s', x) || Prune(h, s, s', x);
    if ReadEnd(s, s', x) {
      ReadKeeps(h, s, s', x);
    } else if WriteBegin(s, s', x) {
      WriteBeginKeeps(h, s, s', x);
    } else if WriteEnd(s, s', x) {
      WriteEndKeeps(h, s, s', x);
    } else {
      PruneKeeps(h, s, s', x);
    }
  }

  /** No dquot in memory, and inodes without any. */
  function Initial(buckets: nat, inodes: nat, file: map<Key, Block>): Cache {
    Cache([], [], [], 0, seq(buckets, _ => []), seq(inodes, _ => None), [], map[], file, file, {}, {})
  }

  lemma InitialInv(h: Hash, buckets: nat, inodes: nat, file: map<Key, Block>)
    requires InRange(h, buckets)
    ensures Inv(h, Initial(buckets, inodes, file))
  {
    var s := Initial(buckets, inodes, file);
    assert forall b {:trigger s.hash[b]} :: 0 <= b < |s.hash| ==> s.hash[b] == [];
  }

  ghost predicate Run(h: Hash, states: seq<Cache>, buckets: nat, inodes: nat, file: map<Key, Block>) {
    && InRange(h, buckets) && states != [] && states[0] == Initial(buckets, inodes, file)
    && forall i :: 0 <= i < |states| - 1 ==> Next(h, states[i], states[i + 1])
  }

  lemma {:induction false} RunInv(h: Hash, states: seq<Cache>, buckets: nat, inodes: nat, file: map<Key, Block>, k: nat)
    requires Run(h, states, buckets, inodes, file) && k < |states|
    ensures Inv(h, states[k])
  {
    hide Inv, Next, Initial;
    if k == 0 {
      InitialInv(h, buckets, inodes, file);
    } else {
      RunInv(h, states, buckets, inodes, file, k - 1);
      assert Next(h, states[k - 1], states[k - 1 + 1]);
      NextKeeps(h, states[k - 1], states[k]);
    }
  }

  /** In every run: a dquot that is given back to memory has no reference, and all it says is on disk exactly when it
      was not changed silently; dqput never finds the last reference to be on the free list; and sync_dquots never
      takes a dquot that is on it. */
  lemma RunNothingLost(h: Hash, states: seq<Cache>, buckets: nat, inodes: nat, file: map<Key, Block>, k: nat, x: nat)
    requires Run(h, states, buckets, inodes, file) && k + 1 < |states|
    ensures Prune(h, states[k], states[k + 1], x) ==>
              Unused(states[k], x) && (OnDisk(states[k], x) <==> x !in states[k].silent)
    ensures HasRef(states[k], x) && states[k].q[x].count == 1 ==> x !in states[k].free
    ensures SyncGet(states[k], states[k + 1], x) ==> x !in states[k].free
  {
    hide Inv, Next, Unused, OnDisk;
    RunInv(h, states, buckets, inodes, file, k);
    if Prune(h, states[k], states[k + 1], x) {
      assert x in states[k].free;
      PrunedIsClean(h, states[k], x);
    }
    if HasRef(states[k], x) && states[k].q[x].count == 1 {
      LastIsClean(h, states[k], x);
    }
    if SyncGet(states[k], states[k + 1], x) {
      SyncSafe(h, states[k], x);
    }
  }

  /** In every run there is at most one dquot for a key, although dqget may sleep between searching and making one;
      what it says, once it is read, is what was last put into the quota of that key, by whatever dquot, exactly when
      that was not lost. */
  lemma RunOneTruth(h: Hash, states: seq<Cache>, buckets: nat, inodes: nat, file: map<Key, Block>, k: nat,
                    x: nat, y: nat, c: Key)
    requires Run(h, states, buckets, inodes, file) && k < |states| && Keyed(states[k], x, c)
    ensures Keyed(states[k], y, c) ==> x == y
    ensures !states[k].q[x].locked ==> (states[k].q[x].use == Record(states[k].truth, c) <==> c !in states[k].lost)
  {
    hide Run, Next;
    RunInv(h, states, buckets, inodes, file, k);
    OnlyOne(states[k], x, y, c);
    assert FileAt(states[k], c);
    assert Settled(states[k], x) ==> ValueAt(states[k], x);
  }

  predicate Marked(s: Cache, x: nat, k: Key) {
    Keyed(s, x, k) && (s.q[x].mod || x in s.writing)
  }

  predicate Silent(s: Cache, x: nat, k: Key) {
    Keyed(s, x, k) && x in s.silent
  }

  /** In every run: where no dquot is marked or on its way, the quota file says what was last put into the quota exactly
      when that was not lost and no dquot was changed silently. */
  lemma RunFileTrue(h: Hash, states: seq<Cache>, buckets: nat, inodes: nat, file: map<Key, Block>, k: nat, c: Key)
    requires Run(h, states, buckets, inodes, file) && k < |states| && forall x :: !Marked(states[k], x, c)
    ensures Record(states[k].file, c) == Record(states[k].truth, c) <==>
            c !in states[k].lost && forall x :: !Silent(states[k], x, c)
  {
    hide Run, Next;
    RunInv(h, states, buckets, inodes, file, k);
    FileTrue(h, states[k], c);
  }

  lemma FileTrue(h: Hash, s: Cache, c: Key)
    requires Inv(h, s) && forall x :: !Marked(s, x, c)
    ensures Record(s.file, c) == Record(s.truth, c) <==> c !in s.lost && forall x :: !Silent(s, x, c)
  {
    hide CountOk, FreeOk, HashOk, UniqueOk;
    assert FileAt(s, c);
    if x: nat :| Silent(s, x, c) {
      assert !Marked(s, x, c) && ValueAt(s, x);
    } else {
      assert forall x: nat :: Ahead(s, x, c) ==> Silent(s, x, c) || Marked(s, x, c);
    }
  }

  // ---------------------------------------------------------------- what is lost

  /** A silently changed dquot of c goes out of memory. */
  ghost predicate Forgets(h: Hash, s: Cache, s': Cache, c: Key) {
    exists x :: Prune(h, s, s', x) && Silent(s, x, c)
  }

  /** Something is put into the quota of c. */
  ghost predicate Puts(s: Cache, s': Cache, c: Key) {
    exists x, v :: PutsBy(s, s', c, x, v)
  }

  ghost predicate PutsBy(s: Cache, s': Cache, c: Key, x: nat, v: Block) {
    x < |s.q| && s.q[x].key == Some(c) && (Modify(s, s', x, v) || StartGrace(s, s', x, v))
  }

  lemma NextLost(h: Hash, s: Cache, s': Cache, c: Key)
    requires Inv(h, s) && Next(h, s, s')
    ensures c in s'.lost <==> Forgets(h, s, s', c) || (c in s.lost && !Puts(s, s', c))
  {
    SilentAlive(h, s);
    hide Inv, Next, Modify, StartGrace, Prune;
    if x: nat, v :| Modify(s, s', x, v) || StartGrace(s, s', x, v) {
      PutsLost(h, s, s', c, x, v);
    } else if x: nat :| Prune(h, s, s', x) {
      PruneLost(h, s, s', c, x);
    } else {
      OthersLost(h, s, s');
    }
  }

  lemma SilentAlive(h: Hash, s: Cache)
    requires Inv(h, s)
    ensures forall x :: x in s.silent ==> x < |s.alive| && s.alive[x]
  {
  }

  lemma OthersLost(h: Hash, s: Cache, s': Cache)
    requires Next(h, s, s') && !(exists x, v :: Modify(s, s', x, v) || StartGrace(s, s', x, v))
    requires !(exists x :: Prune(h, s, s', x))
    ensures s'.lost == s.lost
  {
    hide Sized, HasRef, Counted, Minus, Record, FileIdle, Modify, StartGrace, Prune, Keyed;
  }

  lemma PutsLost(h: Hash, s: Cache, s': Cache, c: Key, x: nat, v: Block)
    requires Modify(s, s', x, v) || StartGrace(s, s', x, v)
    ensures c in s'.lost <==> Forgets(h, s, s', c) || (c in s.lost && !Puts(s, s', c))
  {
    assert s.q[x].key == Some(c) ==> PutsBy(s, s', c, x, v);
    assert |s'.free| == |s.free|;
  }

  lemma PruneLost(h: Hash, s: Cache, s': Cache, c: Key, x: nat)
    requires Prune(h, s, s', x) && forall y :: y in s.silent ==> y < |s.alive| && s.alive[y]
    ensures c in s'.lost <==> Forgets(h, s, s', c) || (c in s.lost && !Puts(s, s', c))
  {
    hide HasRef, Behind, Unhashed;
    assert x in s.silent && s.q[x].key == Some(c) ==> Silent(s, x, c);
  }

  /** A quota is lost in state k exactly when some step before forgot it and nothing was put into it since. */
  ghost predicate LostSince(h: Hash, states: seq<Cache>, k: nat, c: Key)
    requires k < |states|
  {
    exists j :: 0 <= j < k && ForgottenAt(h, states, j, k, c)
  }

  ghost predicate ForgottenAt(h: Hash, states: seq<Cache>, j: nat, k: nat, c: Key)
    requires j < k < |states|
  {
    Forgets(h, states[j], states[j + 1], c) && forall m :: j < m < k ==> !Puts(states[m], states[m + 1], c)
  }

  lemma {:induction false} RunLost(h: Hash, states: seq<Cache>, buckets: nat, inodes: nat, file: map<Key, Block>,
                                   k: nat, c: Key)
    requires Run(h, states, buckets, inodes, file) && k < |states|
    ensures c in states[k].lost <==> LostSince(h, states, k, c)
  {
    hide Inv, Next, Forgets, Puts;
    if k > 0 {
      RunInv(h, states, buckets, inodes, file, k - 1);
      assert Next(h, states[k - 1], states[k - 1 + 1]);
      NextLost(h, states[k - 1], states[k], c);
      RunLost(h, states, buckets, inodes, file, k - 1, c);
      if c in states[k].lost {
        if Forgets(h, states[k - 1], states[k - 1 + 1], c) {
          assert ForgottenAt(h, states, k - 1, k, c);
        } else {
          var j :| 0 <= j < k - 1 && ForgottenAt(h, states, j, k - 1, c);
          assert ForgottenAt(h, states, j, k, c);
        }
      }
      if j :| 0 <= j < k && ForgottenAt(h, states, j, k, c) {
        if j < k - 1 {
          assert ForgottenAt(h, states, j, k - 1, c);
          assert !Puts(states[k - 1], states[k - 1 + 1], c);
        }
      }
    }
  }
}
