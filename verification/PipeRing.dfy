/** The ring buffer of a pipe (fs/pipe.c) against a queue of bytes. */
module PipeRing {

  newtype byte = x: int | 0 <= x < 256

  const PIPE_SIZE: nat := 4096
  const PIPE_BUF: nat := 4096

  /** The offset x within the buffer. */
  function Wrap(x: nat): nat
    requires x < 2 * PIPE_SIZE
  {
    if x < PIPE_SIZE then x else x - PIPE_SIZE
  }

  lemma Masked(x: bv16)
    requires x < 8192
    ensures x & 4095 == if x < 4096 then x else x - 4096
  {
  }

  lemma Lowered(x: bv16)
    requires 4096 <= x
    ensures (x - 4096) as nat == x as nat - 4096
  {
  }

  lemma Compared(x: bv16)
    ensures x < 4096 <==> (x as nat) < 4096
    ensures x < 8192 <==> (x as nat) < 8192
  {
  }

  /** The code masks with PIPE_SIZE - 1. For the offsets that occur this is Wrap, the remainder. */
  lemma MaskIsWrap(x: bv16)
    requires (x as nat) < 2 * PIPE_SIZE
    ensures (x & 4095) as nat == Wrap(x as nat)
  {
    Compared(x);
    Masked(x);
    if x >= 4096 {
      Lowered(x);
    }
  }

  lemma WrapIsRemainder(x: nat)
    requires x < 2 * PIPE_SIZE
    ensures Wrap(x) == x % PIPE_SIZE
  {
  }

  function Min(a: nat, b: nat): nat { if a < b then a else b }

  predicate RingOk(base: seq<byte>, start: nat, len: nat) {
    |base| == PIPE_SIZE && start < PIPE_SIZE && len <= PIPE_SIZE
  }

  /** The bytes of a ring, oldest first. */
  function Ring(base: seq<byte>, start: nat, len: nat): (r: seq<byte>)
    requires RingOk(base, start, len)
  {
    seq(len, i requires 0 <= i < len => base[Wrap(start + i)])
  }

  /** Reading up to the end of the buffer takes the oldest bytes. */
  lemma RingTake(base: seq<byte>, start: nat, len: nat, n: nat)
    requires |base| == PIPE_SIZE && start < PIPE_SIZE && n <= len <= PIPE_SIZE && start + n <= PIPE_SIZE
    ensures Ring(base, start, len) == base[start..start + n] + Ring(base, Wrap(start + n), len - n)
  {
    var whole, rest := Ring(base, start, len), Ring(base, Wrap(start + n), len - n);
    forall i | 0 <= i < len ensures whole[i] == (base[start..start + n] + rest)[i] {
      assert whole[i] == base[Wrap(start + i)];
      if i >= n {
        assert rest[i - n] == base[Wrap(Wrap(start + n) + (i - n))];
        assert Wrap(Wrap(start + n) + (i - n)) == Wrap(start + i);
        assert (base[start..start + n] + rest)[i] == rest[i - n];
      } else {
        assert Wrap(start + i) == start + i;
      }
    }
  }

  /** Writing behind the newest byte, up to the end of the buffer, leaves all others alone. */
  lemma RingPut(base: seq<byte>, base': seq<byte>, start: nat, len: nat, data: seq<byte>)
    requires |base| == |base'| == PIPE_SIZE && start < PIPE_SIZE && len + |data| <= PIPE_SIZE && len < PIPE_SIZE
    requires Wrap(start + len) + |data| <= PIPE_SIZE
    requires base' == base[..Wrap(start + len)] + data + base[Wrap(start + len) + |data|..]
    ensures Ring(base', start, len + |data|) == Ring(base, start, len) + data
  {
    var end := Wrap(start + len);
    forall i | 0 <= i < len + |data| ensures base'[Wrap(start + i)] == (Ring(base, start, len) + data)[i] {
      if i < len {
        assert !(end <= Wrap(start + i) < end + |data|);
      } else {
        assert Wrap(start + i) == end + (i - len);
      }
    }
  }

  // ---------------------------------------------------------------- the two copy loops

  /** What the copy loop of pipe_read leaves, and what it took. */
  datatype Drain = Drain(out: seq<byte>, start: nat, len: nat)

  /** The loop of pipe_read: chunks that end at the end of the buffer at the latest. */
  function Drained(base: seq<byte>, start: nat, len: nat, count: nat): (r: Drain)
    requires RingOk(base, start, len)
    ensures RingOk(base, r.start, r.len)
    decreases count
  {
    if count == 0 || len == 0 then Drain([], start, len)
    else
      var chars := ReadChars(start, len, count);
      var rest := Drained(base, Wrap(start + chars), len - chars, count - chars);
      Drain(base[start..start + chars] + rest.out, rest.start, rest.len)
  }

  function ReadChars(start: nat, len: nat, count: nat): (n: nat)
    requires start < PIPE_SIZE && len > 0 && count > 0
    ensures 0 < n <= count && n <= len && start + n <= PIPE_SIZE
  {
    Min(Min(PIPE_SIZE - start, count), len)
  }

  /** The chunks taken are the oldest bytes, as many as are wanted and there. */
  lemma {:induction false} DrainedIs(base: seq<byte>, start: nat, len: nat, count: nat)
    requires RingOk(base, start, len)
    ensures var r := Drained(base, start, len, count);
            && |r.out| == Min(count, len) && r.len == len - |r.out|
            && Ring(base, start, len) == r.out + Ring(base, r.start, r.len)
    decreases count
  {
    hide Ring, Drained;
    DrainedStep(base, start, len, count);
    if count > 0 && len > 0 {
      var chars := ReadChars(start, len, count);
      var next := Wrap(start + chars);
      RingTake(base, start, len, chars);
      DrainedIs(base, next, len - chars, count - chars);
      hide Wrap;
      var rest := Drained(base, next, len - chars, count - chars);
      JoinBytes(base[start..start + chars], rest.out, Ring(base, rest.start, rest.len));
    } else {
      assert [] + Ring(base, start, len) == Ring(base, start, len);
    }
  }

  /** One turn of the loop. */
  lemma DrainedStep(base: seq<byte>, start: nat, len: nat, count: nat)
    requires RingOk(base, start, len)
    ensures Drained(base, start, len, count) ==
            if count == 0 || len == 0 then Drain([], start, len)
            else
              var chars := ReadChars(start, len, count);
              var rest := Drained(base, Wrap(start + chars), len - chars, count - chars);
              Drain(base[start..start + chars] + rest.out, rest.start, rest.len)
  {
  }

  lemma JoinBytes(a: seq<byte>, b: seq<byte>, c: seq<byte>)
    ensures a + (b + c) == a + b + c
  {
  }

  /** The buffer with data at an offset. */
  function Put(base: seq<byte>, at: nat, data: seq<byte>): (r: seq<byte>)
    requires at + |data| <= |base|
    ensures |r| == |base|
  {
    base[..at] + data + base[at + |data|..]
  }

  function WriteChars(start: nat, len: nat, count: nat): (n: nat)
    requires start < PIPE_SIZE && len < PIPE_SIZE && count > 0
    ensures 0 < n <= count && len + n <= PIPE_SIZE && Wrap(start + len) + n <= PIPE_SIZE
  {
    Min(Min(PIPE_SIZE - Wrap(start + len), count), PIPE_SIZE - len)
  }

  /** The loop of pipe_write, up to where the data or the room ends: the buffer afterwards. */
  function Filled(base: seq<byte>, start: nat, len: nat, data: seq<byte>): (r: seq<byte>)
    requires RingOk(base, start, len)
    ensures |r| == PIPE_SIZE
    decreases |data|
  {
    if data == [] || len == PIPE_SIZE then base
    else
      var chars := WriteChars(start, len, |data|);
      Filled(Put(base, Wrap(start + len), data[..chars]), start, len + chars, data[chars..])
  }

  function Fits(len: nat, data: seq<byte>): (n: nat)
    requires len <= PIPE_SIZE
    ensures n <= |data| && len + n <= PIPE_SIZE
  {
    Min(|data|, PIPE_SIZE - len)
  }

  /** The chunks land behind the newest byte, and none of the others is touched. */
  lemma {:induction false} FilledIs(base: seq<byte>, start: nat, len: nat, data: seq<byte>)
    requires RingOk(base, start, len)
    ensures Ring(Filled(base, start, len, data), start, len + Fits(len, data)) == Ring(base, start, len) +
            data[..Fits(len, data)]
    decreases |data|
  {
    if data != [] && len < PIPE_SIZE {
      var chars := WriteChars(start, len, |data|);
      var base' := Put(base, Wrap(start + len), data[..chars]);
      RingPut(base, base', start, len, data[..chars]);
      FilledIs(base', start, len + chars, data[chars..]);
      var n := Fits(len + chars, data[chars..]);
      assert chars + n == Fits(len, data);
      hide Ring, Filled;
      assert data[..chars] + data[chars..][..n] == data[..chars + n];
      assert Ring(base, start, len) + data[..chars] + data[chars..][..n] == Ring(base, start, len) + data[..chars + n];
    } else {
      assert data[..Fits(len, data)] == [];
    }
  }
}
