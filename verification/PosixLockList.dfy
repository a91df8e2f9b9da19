/** The POSIX byte-range locks of one inode: the list i_flock, who holds what, and what a
    well-formed list is (fs/locks.c). */
module PosixLockList {

  /** The largest loff_t, a signed 64-bit offset. */
  const OFFSET_MAX := 0x7FFF_FFFF_FFFF_FFFF

  /** An owner is a file table and a process id: both must agree. */
  datatype Owner = Owner(files: nat, pid: nat)

  datatype Kind = RdLck | WrLck | UnLck

  datatype Request = Request(owner: Owner, kind: Kind, start: int, end: int)

  /** A lock on the list. The id stands for its address. */
  datatype FileLock = FileLock(id: nat, owner: Owner, kind: Kind, start: int, end: int)

  predicate ValidRequest(r: Request) {
    0 <= r.start <= r.end <= OFFSET_MAX
  }

  /** Adding one in loff_t wraps at the top. */
  function Inc(x: int): int {
    if x == OFFSET_MAX then -OFFSET_MAX - 1 else x + 1
  }

  function Min(a: int, b: int): int { if a < b then a else b }

  function Max(a: int, b: int): int { if a < b then b else a }

  // ---------------------------------------------------------------- who holds what

  predicate Covers(f: FileLock, b: int) {
    f.start <= b <= f.end
  }

  predicate InRequest(r: Request, b: int) {
    r.start <= b <= r.end
  }

  /** The abstract state: owner o holds byte b with type k. */
  ghost predicate Holds(list: seq<FileLock>, o: Owner, b: int, k: Kind) {
    exists f :: f in list && f.owner == o && f.kind == k && Covers(f, b)
  }

  /** What fcntl() promises of a request: its bytes now have its type (or none), nothing else changed. */
  ghost predicate ExactUpdate(before: seq<FileLock>, after: seq<FileLock>, r: Request) {
    forall o, b, k ::
      Holds(after, o, b, k) <==>
      if o == r.owner && InRequest(r, b) then k == r.kind && k != UnLck else Holds(before, o, b, k)
  }

  /** One-sided: nobody holds anything that was neither held before nor requested. */
  ghost predicate NothingExtra(before: seq<FileLock>, after: seq<FileLock>, r: Request) {
    forall o, b, k :: Holds(after, o, b, k) ==>
      Holds(before, o, b, k) || (o == r.owner && InRequest(r, b) && k == r.kind)
  }

  // ---------------------------------------------------------------- well-formed lists

  /** f may stand before g: same-owner locks are sorted and disjoint, and do not touch when of one type. */
  predicate Before(f: FileLock, g: FileLock) {
    f.owner == g.owner ==> f.end < g.start && (f.kind == g.kind ==> f.end + 1 < g.start)
  }

  predicate Ordered(list: seq<FileLock>) {
    forall i, j :: 0 <= i < j < |list| ==> Before(list[i], list[j])
  }

  /** The locks of one owner stand together. */
  predicate Grouped(list: seq<FileLock>) {
    forall i, j, k :: 0 <= i < j < k < |list| && list[i].owner == list[k].owner ==> list[j].owner == list[i].owner
  }

  predicate Proper(f: FileLock) {
    f.kind != UnLck && 0 <= f.start <= f.end <= OFFSET_MAX
  }

  predicate AllProper(list: seq<FileLock>) {
    forall f :: f in list ==> Proper(f)
  }

  predicate WellFormed(list: seq<FileLock>) {
    Ordered(list) && Grouped(list) && AllProper(list)
  }

  /** What every list satisfies, also one that is not well formed. */
  predicate Bounded(list: seq<FileLock>) {
    forall f :: f in list ==> f.kind != UnLck && 0 <= f.start && f.end <= OFFSET_MAX
  }

  predicate UniqueIds(list: seq<FileLock>) {
    forall i, j :: 0 <= i < j < |list| ==> list[i].id != list[j].id
  }

  function Ids(list: seq<FileLock>): set<nat> {
    set f | f in list :: f.id
  }

  /** The locks of all owners but o, in order. */
  function Others(list: seq<FileLock>, o: Owner): seq<FileLock> {
    if list == [] then []
    else (if list[0].owner == o then [] else [list[0]]) + Others(list[1..], o)
  }

  // ---------------------------------------------------------------- conflicts

  predicate SameOwner(a: Owner, b: Owner) {
    a.files == b.files && a.pid == b.pid
  }

  predicate Overlap(s1: int, e1: int, s2: int, e2: int) {
    e1 >= s2 && e2 >= s1
  }

  /** locks_conflict: the answer depends on the first argument's type first. */
  predicate KindsConflict(caller: Kind, sys: Kind) {
    match caller
    case RdLck => sys == WrLck
    case WrLck => true
    case UnLck => false
  }

  /** posix_locks_conflict(caller, sys) for a request against a lock on the list. */
  predicate Conflict(r: Request, f: FileLock) {
    !SameOwner(r.owner, f.owner) && Overlap(r.start, r.end, f.start, f.end) && KindsConflict(r.kind, f.kind)
  }

  /** posix_locks_conflict(sys, caller): posix_test_lock passes its arguments the other way round. */
  predicate ConflictSwapped(f: FileLock, r: Request) {
    !SameOwner(f.owner, r.owner) && Overlap(f.start, f.end, r.start, r.end) && KindsConflict(f.kind, r.kind)
  }

  /** The conflict scan of posix_lock_file. */
  method FindConflict(list: seq<FileLock>, r: Request) returns (at: nat)
    ensures at <= |list|
    ensures at < |list| ==> Conflict(r, list[at])
    ensures forall i :: 0 <= i < at ==> !Conflict(r, list[i])
  {
    at := 0;
    while at < |list|
      invariant at <= |list|
      invariant forall i :: 0 <= i < at ==> !Conflict(r, list[i])
    {
      if Conflict(r, list[at]) { return; }
      at := at + 1;
    }
  }

  /** posix_test_lock: the first lock that would stop the request. */
  method TestLock(list: seq<FileLock>, r: Request) returns (at: nat)
    ensures at <= |list|
    ensures at < |list| ==> ConflictSwapped(list[at], r)
    ensures forall i :: 0 <= i < at ==> !ConflictSwapped(list[i], r)
  {
    at := 0;
    while at < |list|
      invariant at <= |list|
      invariant forall i :: 0 <= i < at ==> !ConflictSwapped(list[i], r)
    {
      if ConflictSwapped(list[at], r) { break; }
      at := at + 1;
    }
  }

  /** r could not be granted beside what is held: some byte of r is held by another owner, and one of the two writes. */
  ghost predicate Clash(list: seq<FileLock>, r: Request, o: Owner, b: int, k: Kind) {
    o != r.owner && InRequest(r, b) && Holds(list, o, b, k) && (k == WrLck || r.kind == WrLck)
  }

  /** A lock request finds a conflicting lock exactly when a byte clashes. */
  lemma ConflictIsClash(list: seq<FileLock>, r: Request)
    requires AllProper(list) && ValidRequest(r) && r.kind != UnLck
    ensures (exists f :: f in list && Conflict(r, f)) <==> (exists o, b, k :: Clash(list, r, o, b, k))
  {
    forall f | f in list && Conflict(r, f) ensures exists o, b, k :: Clash(list, r, o, b, k) {
      assert Clash(list, r, f.owner, Max(r.start, f.start), f.kind);
    }
  }
}
