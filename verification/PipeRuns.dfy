/** Readers and writers of one pipe (fs/pipe.c), interleaved at the points where they wait: the ring is a queue of
    bytes, what goes in comes out in the same order, and a small write is never taken apart. */
module PipeRuns {
  import opened PipeRing

  /** One call of pipe_write: what it writes and how much of it is in. */
  datatype Writer = Writer(data: seq<byte>, done: nat)

  datatype Item = Item(writer: nat, value: byte)

  /** The ring, and the history beside it: got is what the readers were given, stream what the writers handed over,
      each byte with its writer. */
  datatype State = State(base: seq<byte>, start: nat, len: nat, got: seq<byte>, stream: seq<Item>, writers: map<nat,
      Writer>)

  predicate Init(s: State) {
    |s.base| == PIPE_SIZE && s.start == 0 && s.len == 0 && s.got == [] && s.stream == [] && s.writers == map[]
  }

  function Tagged(w: nat, data: seq<byte>): seq<Item> {
    seq(|data|, i requires 0 <= i < |data| => Item(w, data[i]))
  }

  function Values(stream: seq<Item>): (r: seq<byte>)
    ensures |r| == |stream|
  {
    seq(|stream|, i requires 0 <= i < |stream| => stream[i].value)
  }

  /** The bytes of one writer in a stream. */
  function Of(stream: seq<Item>, w: nat): seq<byte> {
    if stream == [] then []
    else (if stream[0].writer == w then [stream[0].value] else []) + Of(stream[1..], w)
  }

  /** The room a write waits for: all of it if it must be atomic, else one byte. */
  function Needed(w: Writer): nat {
    if w.done > 0 then 1 else if |w.data| <= PIPE_BUF then |w.data| else 1
  }

  // ---------------------------------------------------------------- the steps

  /** A call of pipe_write comes in. */
  function Begin(s: State, w: nat, data: seq<byte>): State {
    s.(writers := s.writers[w := Writer(data, 0)])
  }

  /** A writer that found the room it waited for copies until it is done or the pipe is full. */
  function Copy(s: State, w: nat): State
    requires w in s.writers && s.writers[w].done <= |s.writers[w].data| && RingOk(s.base, s.start, s.len)
  {
    var wr := s.writers[w];
    var left := wr.data[wr.done..];
    var n := Fits(s.len, left);
    s.(base := Filled(s.base, s.start, s.len, left), len := s.len + n,
       stream := s.stream + Tagged(w, left[..n]), writers := s.writers[w := wr.(done := wr.done + n)])
  }

  /** A reader copies until it has what it wants or the pipe is empty. */
  function Take(s: State, count: nat): State
    requires RingOk(s.base, s.start, s.len)
  {
    var r := Drained(s.base, s.start, s.len, count);
    s.(start := if r.len == 0 then 0 else r.start, len := r.len, got := s.got + r.out)
  }

  ghost predicate Begins(s: State, s': State, w: nat, data: seq<byte>) {
    w !in s.writers && data != [] && s' == Begin(s, w, data)
  }

  ghost predicate Copies(s: State, s': State, w: nat) {
    && RingOk(s.base, s.start, s.len) && w in s.writers && s.writers[w].done < |s.writers[w].data|
    && PIPE_SIZE - s.len >= Needed(s.writers[w]) && s' == Copy(s, w)
  }

  ghost predicate Takes(s: State, s': State, count: nat) {
    RingOk(s.base, s.start, s.len) && s' == Take(s, count)
  }

  ghost predicate Next(s: State, s': State) {
    || (exists w, data :: Begins(s, s', w, data))
    || (exists w :: Copies(s, s', w))
    || (exists count :: Takes(s, s', count))
  }

  // ---------------------------------------------------------------- the invariant

  /** The write stands in one piece. */
  ghost predicate InOnePiece(stream: seq<Item>, w: nat, data: seq<byte>) {
    exists at :: PieceAt(stream, at, w, data)
  }

  predicate PieceAt(stream: seq<Item>, at: int, w: nat, data: seq<byte>) {
    0 <= at <= |stream| - |data| && stream[at..at + |data|] == Tagged(w, data)
  }

  ghost predicate WriterOk(stream: seq<Item>, w: nat, wr: Writer) {
    && wr.done <= |wr.data| && wr.data != []
    && Of(stream, w) == wr.data[..wr.done]
    && (|wr.data| <= PIPE_BUF ==> wr.done == 0 || (wr.done == |wr.data| && InOnePiece(stream, w, wr.data)))
  }

  /** What was read, and behind it what the ring holds, is what was written. */
  predicate Fifo(s: State) {
    RingOk(s.base, s.start, s.len) && s.got + Ring(s.base, s.start, s.len) == Values(s.stream)
  }

  ghost predicate WritersOk(s: State) {
    && (forall x :: x in s.stream ==> x.writer in s.writers)
    && (forall w :: w in s.writers ==> WriterOk(s.stream, w, s.writers[w]))
  }

  ghost predicate Inv(s: State) {
    Fifo(s) && WritersOk(s)
  }

  lemma {:induction false} OfAppend(a: seq<Item>, b: seq<Item>, w: nat)
    ensures Of(a + b, w) == Of(a, w) + Of(b, w)
  {
    if a == [] {
      assert a + b == b;
    } else {
      var h := if a[0].writer == w then [a[0].value] else [];
      assert (a + b)[1..] == a[1..] + b && (a + b)[0] == a[0];
      OfAppend(a[1..], b, w);
      assert h + (Of(a[1..], w) + Of(b, w)) == h + Of(a[1..], w) + Of(b, w);
    }
  }

  lemma {:induction false} OfTagged(w: nat, data: seq<byte>, v: nat)
    ensures Of(Tagged(w, data), v) == if v == w then data else []
  {
    if data != [] {
      assert Tagged(w, data)[1..] == Tagged(w, data[1..]);
      OfTagged(w, data[1..], v);
    }
  }

  lemma {:induction false} OfNone(stream: seq<Item>, w: nat)
    requires forall x :: x in stream ==> x.writer != w
    ensures Of(stream, w) == []
  {
    if stream != [] {
      OfNone(stream[1..], w);
    }
  }

  /** More behind it does not take a write apart. */
  lemma OnePieceKept(a: seq<Item>, b: seq<Item>, w: nat, data: seq<byte>)
    requires InOnePiece(a, w, data)
    ensures InOnePiece(a + b, w, data)
  {
    var at :| PieceAt(a, at, w, data);
    assert (a + b)[at..at + |data|] == a[at..at + |data|];
    assert PieceAt(a + b, at, w, data);
  }

  lemma LastPiece(stream: seq<Item>, w: nat, data: seq<byte>)
    ensures InOnePiece(stream + Tagged(w, data), w, data)
  {
    var all := stream + Tagged(w, data);
    assert all[|stream|..|stream| + |data|] == Tagged(w, data);
    assert PieceAt(all, |stream|, w, data);
  }

  /** n bytes more of a writer in the stream. */
  lemma MoreOfWriter(stream: seq<Item>, w: nat, wr: Writer, n: nat)
    requires WriterOk(stream, w, wr) && wr.done + n <= |wr.data|
    requires |wr.data| <= PIPE_BUF ==> wr.done == 0 && n == |wr.data|
    ensures WriterOk(stream + Tagged(w, wr.data[wr.done..][..n]), w, wr.(done := wr.done + n))
  {
    var piece := wr.data[wr.done..][..n];
    hide Of, Tagged, InOnePiece;
    OfAppend(stream, Tagged(w, piece), w);
    OfTagged(w, piece, w);
    assert wr.data[..wr.done] + piece == wr.data[..wr.done + n];
    if |wr.data| <= PIPE_BUF {
      assert piece == wr.data;
      LastPiece(stream, w, wr.data);
    }
  }

  lemma MoreOfOther(stream: seq<Item>, w: nat, data: seq<byte>, v: nat, wr: Writer)
    requires WriterOk(stream, v, wr) && v != w
    ensures WriterOk(stream + Tagged(w, data), v, wr)
  {
    hide Of, Tagged, InOnePiece;
    OfAppend(stream, Tagged(w, data), v);
    OfTagged(w, data, v);
    assert Of(stream, v) + [] == Of(stream, v);
    if InOnePiece(stream, v, wr.data) {
      OnePieceKept(stream, Tagged(w, data), v, wr.data);
    }
  }

  lemma ValuesAppend(stream: seq<Item>, w: nat, data: seq<byte>)
    ensures Values(stream + Tagged(w, data)) == Values(stream) + data
  {
  }

  lemma CopyFifo(s: State, s': State, w: nat)
    requires Fifo(s) && Copies(s, s', w)
    ensures Fifo(s')
  {
    var wr := s.writers[w];
    var left := wr.data[wr.done..];
    var n := Fits(s.len, left);
    hide Ring, Values, Tagged, Filled;
    FilledIs(s.base, s.start, s.len, left);
    ValuesAppend(s.stream, w, left[..n]);
    assert s.got + Ring(s.base, s.start, s.len) + left[..n] == s.got + (Ring(s.base, s.start, s.len) + left[..n]);
  }

  lemma CopyWriters(s: State, s': State, w: nat)
    requires WritersOk(s) && Copies(s, s', w)
    ensures WritersOk(s')
  {
    var wr := s.writers[w];
    var left := wr.data[wr.done..];
    var n := Fits(s.len, left);
    assert WriterOk(s.stream, w, wr);
    hide Filled, WriterOk;
    WaitedEnough(s.stream, w, wr, s.len);
    MoreOfWriter(s.stream, w, wr, n);
    forall v | v in s'.writers && v != w ensures WriterOk(s'.stream, v, s'.writers[v]) {
      MoreOfOther(s.stream, w, left[..n], v, s.writers[v]);
    }
    forall x | x in s'.stream ensures x.writer in s'.writers {
      assert x in s.stream || x in Tagged(w, left[..n]);
    }
  }

  /** A write that must be atomic has waited for all the room it needs. */
  lemma WaitedEnough(stream: seq<Item>, w: nat, wr: Writer, len: nat)
    requires WriterOk(stream, w, wr) && wr.done < |wr.data| && len <= PIPE_SIZE && PIPE_SIZE - len >= Needed(wr)
    ensures |wr.data| <= PIPE_BUF ==> wr.done == 0 && Fits(len, wr.data[wr.done..]) == |wr.data|
  {
  }

  lemma TakeFifo(s: State, s': State, count: nat)
    requires Fifo(s) && Takes(s, s', count)
    ensures Fifo(s')
  {
    var r := Drained(s.base, s.start, s.len, count);
    DrainedIs(s.base, s.start, s.len, count);
    assert r.len == 0 ==> Ring(s.base, 0, 0) == Ring(s.base, r.start, 0) == [];
    hide Ring, Values, Drained;
    assert s.got + (r.out + Ring(s.base, r.start, r.len)) == s.got + r.out + Ring(s.base, r.start, r.len);
  }

  lemma BeginKeeps(s: State, s': State, w: nat, data: seq<byte>)
    requires Inv(s) && Begins(s, s', w, data)
    ensures Inv(s')
  {
    OfNone(s.stream, w);
    assert data[..0] == [];
  }

  lemma NextKeeps(s: State, s': State)
    requires Inv(s) && Next(s, s')
    ensures Inv(s')
  {
    hide Fifo, WritersOk;
    if w: nat, data :| Begins(s, s', w, data) {
      BeginKeeps(s, s', w, data);
    } else if w: nat :| Copies(s, s', w) {
      CopyFifo(s, s', w);
      CopyWriters(s, s', w);
    } else {
      var count: nat :| Takes(s, s', count);
      TakeFifo(s, s', count);
      TakeWriters(s, s', count);
    }
  }

  lemma TakeWriters(s: State, s': State, count: nat)
    requires WritersOk(s) && Takes(s, s', count)
    ensures WritersOk(s')
  {
  }

  /** No step takes back what was read or written. */
  lemma NextGrows(s: State, s': State)
    requires Next(s, s')
    ensures s.got <= s'.got && s.stream <= s'.stream
  {
  }

  // ---------------------------------------------------------------- runs

  ghost predicate Run(run: seq<State>) {
    run != [] && Init(run[0]) && forall i :: 0 <= i < |run| - 1 ==> Next(run[i], run[i + 1])
  }

  lemma {:induction false} RunInv(run: seq<State>, i: nat)
    requires Run(run) && i < |run|
    ensures Inv(run[i])
  {
    if i > 0 {
      RunInv(run, i - 1);
      assert Next(run[i - 1], run[i - 1 + 1]);
      NextKeeps(run[i - 1], run[i]);
    } else {
      assert Values([]) == [] && Ring(run[0].base, 0, 0) == [];
    }
  }

  /** In every state of every run the readers have been given a prefix of what was written, the ring holds exactly the
      rest, oldest first, and that is never more than PIPE_SIZE bytes. */
  lemma RunFifo(run: seq<State>, i: nat)
    requires Run(run) && i < |run|
    ensures var s := run[i];
            && RingOk(s.base, s.start, s.len) && |s.got| <= |s.stream|
            && s.got == Values(s.stream)[..|s.got|]
            && Ring(s.base, s.start, s.len) == Values(s.stream)[|s.got|..]
  {
    RunInv(run, i);
    var s := run[i];
    var rest := Ring(s.base, s.start, s.len);
    hide Ring, Values;
    assert (s.got + rest)[..|s.got|] == s.got && (s.got + rest)[|s.got|..] == rest;
  }

  /** What has been read stays read: later readers only add to it. */
  lemma {:induction false} RunGrows(run: seq<State>, i: nat, j: nat)
    requires Run(run) && i <= j < |run|
    ensures run[i].got <= run[j].got && run[i].stream <= run[j].stream
    decreases j - i
  {
    if i < j {
      RunGrows(run, i + 1, j);
      assert Next(run[i], run[i + 1]);
      NextGrows(run[i], run[i + 1]);
    }
  }

  /** In every state of every run each writer's bytes are in the order it wrote them, and a write of at most PIPE_BUF
      bytes is not in at all or comes out, from the readers' bytes and the ring behind them, as one piece. */
  lemma RunOrder(run: seq<State>, i: nat, w: nat)
    requires Run(run) && i < |run| && w in run[i].writers
    ensures var s := run[i]; var wr := s.writers[w];
            && RingOk(s.base, s.start, s.len) && Of(s.stream, w) <= wr.data
            && (|wr.data| <= PIPE_BUF ==>
                  Of(s.stream, w) == [] || exists at :: Holds(s.got + Ring(s.base, s.start, s.len), at, wr.data))
  {
    RunInv(run, i);
    var s := run[i];
    var wr := s.writers[w];
    assert WriterOk(s.stream, w, wr);
    if |wr.data| <= PIPE_BUF && Of(s.stream, w) != [] {
      var at :| PieceAt(s.stream, at, w, wr.data);
      PieceComesOut(s.stream, at, w, wr.data);
      assert Holds(Values(s.stream), at, wr.data);
    }
  }

  predicate Holds(bytes: seq<byte>, at: int, data: seq<byte>) {
    0 <= at <= |bytes| - |data| && bytes[at..at + |data|] == data
  }

  lemma PieceComesOut(stream: seq<Item>, at: int, w: nat, data: seq<byte>)
    requires PieceAt(stream, at, w, data)
    ensures Holds(Values(stream), at, data)
  {
    forall i | 0 <= i < |data| ensures Values(stream)[at + i] == data[i] {
      assert stream[at..at + |data|][i] == Tagged(w, data)[i];
    }
  }
}
