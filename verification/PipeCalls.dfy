/** pipe_read and pipe_write (fs/pipe.c) on the buffer in place, each call of a method one step of a run. */
module PipeCalls {
  import opened PipeRing
  import opened PipeRuns

  class Pipe {
    const base: array<byte>
    var start: nat
    var len: nat
    ghost var got: seq<byte>
    ghost var stream: seq<Item>
    ghost var writers: map<nat, Writer>

    ghost function Abs(): State
      reads this, base
    {
      State(base[..], start, len, got, stream, writers)
    }

    ghost predicate Valid()
      reads this, base
    {
      Inv(Abs())
    }

    constructor ()
      ensures Init(Abs()) && Valid() && fresh(base)
    {
      base := new byte[PIPE_SIZE];
      start, len := 0, 0;
      got, stream, writers := [], [], map[];
      new;
      StartInv(Abs());
    }

    /** One turn of the copy loop in pipe_read. */
    method ReadChunk(count: nat) returns (out: seq<byte>)
      requires RingOk(base[..], start, len) && count > 0 && len > 0
      modifies this`start, this`len
      ensures RingOk(base[..], start, len) && 0 < |out| <= count
      ensures Drained(base[..], old(start), old(len), count) ==
              var rest := Drained(base[..], start, len, count - |out|); Drain(out + rest.out, rest.start, rest.len)
    {
      var chars := Min(Min(PIPE_SIZE - start, count), len);
      out := base[start..start + chars];
      start := Wrap(start + chars);
      len := len - chars;
    }

    /** The copy loop in pipe_read. */
    method CopyOut(count0: nat) returns (out: seq<byte>)
      requires RingOk(base[..], start, len)
      modifies this`start, this`len
      ensures RingOk(base[..], start, len) && Drained(base[..], old(start), old(len), count0) == Drain(out, start, len)
    {
      hide Drained;
      var count := count0;
      out := [];
      assert [] + Drained(base[..], start, len, count).out == Drained(base[..], start, len, count).out;
      while count > 0 && len > 0
        invariant 0 <= count && RingOk(base[..], start, len)
        invariant Drained(base[..], old(start), old(len), count0) ==
                  var rest := Drained(base[..], start, len, count); Drain(out + rest.out, rest.start, rest.len)
        decreases count
      {
        var chunk := ReadChunk(count);
        ghost var rest := Drained(base[..], start, len, count - |chunk|).out;
        assert out + (chunk + rest) == out + chunk + rest;
        out := out + chunk;
        count := count - |chunk|;
      }
      DrainedAll(base[..], start, len, count);
    }

    /** pipe_read from where there is data, to where it returns or waits for more. */
    method Read(count: nat) returns (out: seq<byte>)
      requires Valid()
      modifies this
      ensures Valid() && Next(old(Abs()), Abs()) && got == old(got) + out
      ensures |out| == Min(count, old(len)) && (|out| < count ==> len == 0)
      ensures stream == old(stream) && writers == old(writers)
    {
      hide Drained, Inv, Ring;
      ghost var s := Abs();
      RingFine(s);
      DrainedIs(base[..], start, len, count);
      out := CopyOut(count);
      if len == 0 {
        start := 0;
      }
      got := got + out;
      assert Takes(s, Abs(), count);
      NextKeeps(s, Abs());
    }

    /** A call of pipe_write comes in. */
    ghost method Begin(w: nat, data: seq<byte>)
      requires Valid() && w !in writers && data != []
      modifies this`writers
      ensures Valid() && Next(old(Abs()), Abs()) && writers == old(writers)[w := Writer(data, 0)]
    {
      ghost var s := Abs();
      writers := writers[w := Writer(data, 0)];
      assert Begins(s, Abs(), w, data);
      NextKeeps(s, Abs());
    }

    /** The test pipe_write waits for, before its first byte and, when it has to go on, before each further batch. */
    method HasRoom(count: nat, done: nat, ghost wr: Writer) returns (room: bool)
      requires len <= PIPE_SIZE && wr.done == done && |wr.data| == count
      ensures room <==> PIPE_SIZE - len >= Needed(wr)
      ensures room <==> if done == 0 && count <= PIPE_BUF then len + count <= PIPE_SIZE else len < PIPE_SIZE
    {
      if done == 0 {
        var free := if count <= PIPE_BUF then count else 1;
        return PIPE_SIZE - len >= free;
      }
      return PIPE_SIZE - len != 0;
    }

    /** One turn of the copy loop in pipe_write. */
    method WriteChunk(data: seq<byte>) returns (chars: nat)
      requires RingOk(base[..], start, len) && data != [] && len < PIPE_SIZE
      modifies this`len, base
      ensures RingOk(base[..], start, len) && 0 < chars <= |data| && len == old(len) + chars
      ensures Filled(old(base[..]), start, old(len), data) == Filled(base[..], start, len, data[chars..])
    {
      hide Filled, Put;
      var end := Wrap(start + len);
      chars := Min(Min(PIPE_SIZE - end, |data|), PIPE_SIZE - len);
      forall i | 0 <= i < chars {
        base[end + i] := data[i];
      }
      PutIs(old(base[..]), base[..], end, data[..chars]);
      FilledStep(old(base[..]), start, len, data);
      len := len + chars;
    }

    /** The copy loop in pipe_write, up to where the data or the room ends. */
    method CopyIn(data: seq<byte>) returns (written: nat)
      requires RingOk(base[..], start, len)
      modifies this`len, base
      ensures RingOk(base[..], start, len) && written == Fits(old(len), data) && len == old(len) + written
      ensures base[..] == Filled(old(base[..]), start, old(len), data)
    {
      hide Filled;
      written := 0;
      assert data[0..] == data;
      while written < |data| && len < PIPE_SIZE
        invariant written <= |data| && RingOk(base[..], start, len) && len == old(len) + written
        invariant Filled(base[..], start, len, data[written..]) == Filled(old(base[..]), start, old(len), data)
        decreases |data| - written
      {
        var n := WriteChunk(data[written..]);
        assert data[written..][n..] == data[written + n..];
        written := written + n;
      }
      FilledAll(base[..], start, len, data[written..]);
    }

    /** pipe_write from where it found room to where it is done or must wait: what is written goes to the end. */
    method Write(w: nat, data: seq<byte>, done: nat) returns (written: nat)
      requires Valid() && w in writers && writers[w] == Writer(data, done) && done < |data|
      requires PIPE_SIZE - len >= Needed(writers[w])
      modifies this, base
      ensures Valid() && Next(old(Abs()), Abs()) && got == old(got)
      ensures written == Fits(old(len), data[done..]) && writers == old(writers)[w := Writer(data, done + written)]
      ensures stream == old(stream) + Tagged(w, data[done..][..written])
      ensures |data| <= PIPE_BUF ==> done + written == |data|
    {
      hide Inv, Filled, Ring;
      ghost var s := Abs();
      RingFine(s);
      WaitedNow(s, w);
      written := CopyIn(data[done..]);
      stream := stream + Tagged(w, data[done..][..written]);
      writers := writers[w := Writer(data, done + written)];
      assert Copies(s, Abs(), w);
      NextKeeps(s, Abs());
    }

    /** pipe_write from where it looks for room to where it is done or must wait; without room nothing happens. */
    method WriteTurn(w: nat, data: seq<byte>, done: nat) returns (written: nat)
      requires Valid() && w in writers && writers[w] == Writer(data, done) && done < |data|
      modifies this, base
      ensures Valid() && got == old(got) && done + written <= |data|
      ensures written > 0 <==>
              if done == 0 && |data| <= PIPE_BUF then old(len) + |data| <= PIPE_SIZE else old(len) < PIPE_SIZE
      ensures if written > 0 then Next(old(Abs()), Abs()) else Abs() == old(Abs())
      ensures stream == old(stream) + Tagged(w, data[done..][..written])
      ensures writers == old(writers)[w := Writer(data, done + written)]
      ensures |data| <= PIPE_BUF ==> written == 0 || done + written == |data|
    {
      hide Inv, Next;
      RingFine(Abs());
      var room := HasRoom(|data|, done, writers[w]);
      if room {
        written := Write(w, data, done);
      } else {
        written := 0;
        assert stream + Tagged(w, data[done..][..0]) == stream;
      }
    }
  }

  lemma StartInv(s: State)
    requires Init(s)
    ensures Inv(s)
  {
    assert Values([]) == [] && Ring(s.base, 0, 0) == [];
  }

  lemma RingFine(s: State)
    requires Inv(s)
    ensures RingOk(s.base, s.start, s.len)
  {
  }

  /** Nothing is left to read, or nothing is wanted. */
  lemma DrainedAll(base: seq<byte>, start: nat, len: nat, count: nat)
    requires RingOk(base, start, len) && (count == 0 || len == 0)
    ensures Drained(base, start, len, count) == Drain([], start, len)
  {
  }

  lemma FilledAll(base: seq<byte>, start: nat, len: nat, data: seq<byte>)
    requires RingOk(base, start, len) && (data == [] || len == PIPE_SIZE)
    ensures Filled(base, start, len, data) == base
  {
  }

  lemma PutIs(base: seq<byte>, base': seq<byte>, at: nat, data: seq<byte>)
    requires |base'| == |base| && at + |data| <= |base|
    requires forall i :: 0 <= i < |base| ==> base'[i] == if at <= i < at + |data| then data[i - at] else base[i]
    ensures base' == Put(base, at, data)
  {
  }

  lemma FilledStep(base: seq<byte>, start: nat, len: nat, data: seq<byte>)
    requires RingOk(base, start, len) && data != [] && len < PIPE_SIZE
    ensures var n := WriteChars(start, len, |data|);
            Filled(base, start, len, data) == Filled(Put(base, Wrap(start + len), data[..n]), start, len + n, data[n..])
  {
  }

  lemma WaitedNow(s: State, w: nat)
    requires Inv(s) && w in s.writers && s.writers[w].done < |s.writers[w].data|
    requires PIPE_SIZE - s.len >= Needed(s.writers[w])
    ensures var wr := s.writers[w]; |wr.data| <= PIPE_BUF ==>
            wr.done == 0 && Fits(s.len, wr.data[wr.done..]) == |wr.data|
  {
    WaitedEnough(s.stream, w, s.writers[w], s.len);
  }
}
