/** fs/seq_file.c: a buffered, seekable reader over a sequence of records, against plain indexing into
    the text that the records make up. */
module SeqFile {

  const PAGE_SIZE: nat := 4096

  /** The text of the records. */
  function Flat(records: seq<string>): string {
    if records == [] then "" else records[0] + Flat(records[1..])
  }

  lemma {:induction false} FlatAppend(a: seq<string>, b: seq<string>)
    ensures Flat(a + b) == Flat(a) + Flat(b)
  {
    if a == [] {
      assert a + b == b;
    } else {
      assert (a + b)[1..] == a[1..] + b && (a + b)[0] == a[0];
      FlatAppend(a[1..], b);
      assert a[0] + (Flat(a[1..]) + Flat(b)) == a[0] + Flat(a[1..]) + Flat(b);
    }
  }

  lemma FlatSlice(records: seq<string>, i: nat, j: nat)
    requires i <= j <= |records|
    ensures Flat(records[i..]) == Flat(records[i..j]) + Flat(records[j..])
  {
    assert records[i..] == records[i..j] + records[j..];
    FlatAppend(records[i..j], records[j..]);
  }

  lemma FlatNext(records: seq<string>, i: nat, j: nat)
    requires i <= j < |records|
    ensures Flat(records[i..j + 1]) == Flat(records[i..j]) + records[j]
  {
    assert records[i..j + 1] == records[i..j] + [records[j]];
    FlatAppend(records[i..j], [records[j]]);
    assert [records[j]][1..] == [];
    assert Flat([records[j]]) == records[j] + Flat([]);
  }

  lemma FlatUpTo(records: seq<string>, i: nat)
    requires i < |records|
    ensures Flat(records[..i + 1]) == Flat(records[..i]) + records[i]
    ensures Flat(records) == Flat(records[..i]) + records[i] + Flat(records[i + 1..])
  {
    FlatNext(records, 0, i);
    FlatSlice(records, 0, i + 1);
    assert records[0..i] == records[..i] && records[0..i + 1] == records[..i + 1] && records[0..] == records;
  }

  function Min(a: nat, b: nat): nat { if a < b then a else b }

  /** What is left of a text from a position, which may lie behind its end. */
  function From(text: string, pos: nat): string {
    if pos <= |text| then text[pos..] else ""
  }

  /** What is buffered, then the records not yet shown; from means nothing while nothing is buffered. */
  function Remaining(records: seq<string>, buf: string, from: nat, count: nat, index: nat): string
    requires index <= |records| && (count > 0 ==> from + count <= |buf| && index < |records|)
  {
    if count > 0 then buf[from..from + count] + Flat(records[index + 1..]) else Flat(records[index..])
  }

  lemma RemainingNone(records: seq<string>, buf: string, from: nat, index: nat)
    requires index <= |records|
    ensures Remaining(records, buf, from, 0, index) == Flat(records[index..])
    ensures index == |records| ==> Flat(records[index..]) == ""
  {
  }

  lemma RemainingSome(records: seq<string>, buf: string, from: nat, count: nat, index: nat)
    requires count > 0 && from + count <= |buf| && index < |records|
    ensures Remaining(records, buf, from, count, index) == buf[from..from + count] + Flat(records[index + 1..])
  {
  }

  /** Handing out the first n bytes of the buffer. */
  lemma RemainingCut(records: seq<string>, buf: string, from: nat, count: nat, index: nat, n: nat)
    requires 0 < count && n <= count && from + count <= |buf| && index < |records|
    ensures var index' := if n == count then index + 1 else index;
            Remaining(records, buf, from, count, index) == buf[from..from + n] +
                Remaining(records, buf, from + n, count - n, index')
  {
    hide Flat;
    assert buf[from..from + count] == buf[from..from + n] + buf[from + n..from + n + (count - n)];
    JoinText(buf[from..from + n], buf[from + n..from + n + (count - n)], Flat(records[index + 1..]));
    if n == count {
      assert buf[from + n..from + n] == "";
    }
  }

  class Reader {
    const records: seq<string>
    var size: nat       // of the buffer; 0 while there is none
    var buf: string     // the buffer as far as it is written
    var from: nat
    var count: nat
    var index: nat
    var fpos: nat       // the file position

    constructor (rs: seq<string>)
      ensures records == rs && Valid() && fpos == 0 && size == 0 && count == 0 && index == 0
    {
      records, size, buf, from, count, index, fpos := rs, 0, "", 0, 0, 0, 0;
      new;
      assert records[0..] == records;
    }

    ghost predicate Shape()
      reads this
    {
      index <= |records| && (count > 0 ==> from + count <= |buf| && index < |records|)
    }

    /** The text that the reader's fields stand for: what is buffered, then the records not yet shown. */
    ghost function Tail(): string
      reads this
      requires Shape()
    {
      Remaining(records, buf, from, count, index)
    }

    /** The fields agree with the file position. */
    ghost predicate Valid()
      reads this
    {
      Shape() && Tail() == From(Flat(records), fpos)
    }

    /** The buffer that the next read will have. */
    function NextSize(): nat
      reads this
    {
      if size == 0 then PAGE_SIZE else size
    }

    /** The read is served from the buffer, or there is no further record, or that record fits. */
    ghost predicate Fits(want: nat)
      reads this
      requires Shape()
    {
      || (count > 0 && want <= count)
      || (var i := if count > 0 then index + 1 else index; i < |records| ==> |records[i]| < NextSize())
    }

    /** op->show: append a record to the buffer, or mark the buffer as full. */
    method Show(r: string)
      requires count <= |buf| && count <= size
      modifies this`buf, this`count
      ensures old(count) + |r| < size ==> count == old(count) + |r| && buf == old(buf[..count]) + r
      ensures old(count) + |r| >= size ==> count == size && buf == old(buf)
    {
      if count + |r| < size {
        buf := buf[..count] + r;
        count := count + |r|;
      } else {
        count := size;
      }
    }

    /** Flush what is buffered. */
    method Flush(want: nat) returns (out: string)
      requires Shape() && count > 0
      modifies this`count, this`from, this`index
      ensures Shape() && out == old(buf[from..from + Min(count, want)])
      ensures old(Tail()) == out + Tail()
      ensures |out| == Min(old(count), want) && count == old(count) - |out|
      ensures count == 0 ==> index == old(index) + 1
      ensures count > 0 ==> index == old(index)
    {
      hide Remaining;
      var n := Min(count, want);
      RemainingCut(records, buf, from, count, index, n);
      out := buf[from..from + n];
      count := count - n;
      from := from + n;
      if count == 0 {
        index := index + 1;
      }
    }

    /** The record at index is shown, into a buffer that is doubled until it fits. The first bytes of a new buffer are
        whatever the allocator left there; count is not reset. */
    method LoadFirst() returns (ghost junk: string)
      requires index < |records| && count == 0 && size > 0
      modifies this`size, this`buf, this`count
      ensures size >= old(size) && count <= |buf| && count < size
      ensures buf[..count] == junk + records[index]
      ensures junk == "" <==> |records[index]| < old(size)
      ensures junk != "" ==> |junk| >= old(size)
    {
      ghost var size0 := size;
      junk := "";
      assert buf[..0] == "";
      Show(records[index]);
      while count >= size
        invariant size >= size0 && 0 < size && count <= size
        invariant count < size ==> count <= |buf| && buf[..count] == junk + records[index]
        invariant count == size ==> size <= 2 * |records[index]| + size0
        invariant junk == "" ==> size == size0 && (count < size <==> |records[index]| < size0)
        invariant junk != "" ==> |records[index]| >= size0 && |junk| >= size0
        invariant count == size ==> |records[index]| >= |junk|
        decreases 2 * |records[index]| + size0 + size0 - size + (if count < size then 0 else 1)
      {
        assert |seq(size, _ => ' ')| == size;
        var fresh_: string :| |fresh_| == size;
        size := 2 * size;
        buf := fresh_;
        junk := fresh_;
        assert buf[..count] == fresh_;
        Show(records[index]);
      }
    }

    /** Whole records are appended as long as more is wanted and the next one fits. pos is the last record in the
        buffer. */
    method Fill(want: nat, ghost junk: string) returns (pos: nat)
      requires index < |records| && count <= |buf| && count < size
      requires buf[..count] == junk + records[index]
      modifies this`buf, this`count
      ensures index <= pos < |records| && count <= |buf|
      ensures buf[..count] == junk + Flat(records[index..pos + 1])
      ensures count >= old(count)
      ensures count >= want || pos + 1 == |records| || count + |records[pos + 1]| >= size
    {
      pos := index;
      FlatNext(records, index, index);
      assert records[index..index] == [];
      while count < want
        invariant index <= pos < |records| && count <= |buf| && count < size && count >= old(count)
        invariant buf[..count] == junk + Flat(records[index..pos + 1])
        decreases |records| - pos
      {
        var offs := count;
        var next := pos + 1;
        if next >= |records| {
          break;
        }
        Show(records[next]);
        if count == size {
          count := offs;
          break;
        }
        FlatNext(records, index, next);
        assert junk + Flat(records[index..next]) + records[next] == junk + (Flat(records[index..next]) + records[next]);
        pos := next;
      }
    }

    /** Hand out what is wanted of the filled buffer; the rest stays in it. */
    method HandOut(want: nat, pos: nat, ghost junk: string) returns (out: string)
      requires index <= pos < |records| && count <= |buf|
      requires buf[..count] == junk + Flat(records[index..pos + 1])
      modifies this`count, this`from, this`index
      ensures Shape() && |out| == Min(old(count), want)
      ensures out + Tail() == junk + Flat(records[old(index)..])
    {
      hide Flat, Remaining;
      var n := Min(count, want);
      out := buf[..n];
      FlatSlice(records, index, pos + 1);
      CutText(buf, n, count, Flat(records[pos + 1..]));
      JoinText(junk, Flat(records[index..pos + 1]), Flat(records[pos + 1..]));
      count := count - n;
      if count > 0 {
        from := n;
        index := pos;
        RemainingSome(records, buf, from, count, index);
      } else {
        index := pos + 1;
        RemainingNone(records, buf, from, index);
        assert buf[n..n] == "" && buf[..n] + ("" + Flat(records[index..])) == buf[..n] + Flat(records[index..]);
      }
    }

    /** The part of seq_read behind the flush, for a buffer that is empty. */
    method Refill(want: nat) returns (out: string, ghost junk: string)
      requires Shape() && count == 0 && size > 0
      modifies this`size, this`buf, this`count, this`from, this`index
      ensures Shape() && size >= old(size) && |out| <= want
      ensures out + Tail() == junk + old(Tail())
      ensures junk == "" <==> old(index) < |records| ==> |records[old(index)]| < old(size)
      ensures junk != "" ==> |out| >= Min(want, 2 * old(size))
      ensures (forall r :: r in records ==> |r| < old(size)) && want > 0 && old(Tail()) != "" ==> out != ""
    {
      hide Flat, Remaining;
      RemainingNone(records, buf, from, index);
      if index == |records| {
        return "", "";
      }
      ghost var index0, size0 := index, size;
      junk := LoadFirst();
      var pos := Fill(want, junk);
      if (forall r :: r in records ==> |r| < size0) && want > 0 && Flat(records[index..]) != "" {
        SomethingShown(records, index, pos, size0, size);
        assert count > 0;
      }
      out := HandOut(want, pos, junk);
    }

    /** seq_read. It returns the text at the file position and moves on by what it returned, exactly when the
        record it must load fits the buffer; otherwise what it stands for is no longer the text. */
    method Read(want0: nat) returns (out: string)
      requires Valid()
      modifies this`size, this`buf, this`count, this`from, this`index, this`fpos
      ensures |out| <= want0 && fpos == old(fpos) + |out| && size >= old(NextSize()) > 0
      ensures out <= From(Flat(records), old(fpos)) && Valid() <==> old(Fits(want0))
      ensures !old(Fits(want0)) ==> |out| >= Min(want0, 2 * old(NextSize()))
      ensures want0 > 0 && From(Flat(records), old(fpos)) != "" ==>
                (forall r :: r in records ==> |r| < old(NextSize())) ==> out != ""
    {
      hide From, Flat, Remaining;
      if size == 0 {
        size := PAGE_SIZE;
      }
      var want := want0;
      out := "";
      if count > 0 {
        out := Flush(want);
        want := want - |out|;
        if want == 0 {
          fpos := fpos + |out|;
          FromAdvance(Flat(records), old(fpos), out, Tail());
          return;
        }
      }
      ghost var first, rest := out, Tail();
      assert From(Flat(records), old(fpos)) == first + rest;
      var more;
      ghost var junk;
      more, junk := Refill(want);
      out := out + more;
      fpos := fpos + |out|;
      Judge(Flat(records), old(fpos), first, rest, more, junk, Tail());
    }

    /** traverse: go through the records from the first one up to an offset; true stands for -EAGAIN, after
        the buffer was doubled because a record does not fit. */
    method Traverse(offset: nat) returns (again: bool)
      modifies this`size, this`buf, this`from, this`count, this`index
      ensures again ==> size == 2 * old(NextSize()) && exists r :: r in records && |r| >= old(NextSize())
      ensures !again ==>
              Shape() && Tail() == From(Flat(records), offset) &&
                  (size == old(NextSize()) || (offset == 0 && size == old(size)))
    {
      index, count, from := 0, 0, 0;
      assert buf[0..0] == "" && records[0..] == records && records[..0] == [];
      assert From(Flat(records), 0) == Flat(records) && Flat([]) == "";
      hide Flat, From;
      if offset == 0 {
        return false;
      }
      if size == 0 {
        size := PAGE_SIZE;
      }
      var pos := 0;
      while index < |records|
        invariant index <= |records| && count == 0 && from == 0 && size == old(NextSize())
        invariant pos == |Flat(records[..index])| && pos < offset
        decreases |records| - index
      {
        var v;
        v, pos := Visit(pos, offset);
        match v {
          case TooLong =>
            assert records[index] in records;
            size := 2 * size;
            return true;
          case Found => return false;
          case Before =>
        }
      }
      assert records[..index] == records && records[index..] == [];
      FromBehind(Flat(records), offset);
      return false;
    }

    /** One turn of the loop in traverse: show the record and see whether the offset lies in it. */
    method Visit(pos0: nat, offset: nat) returns (v: Visited, pos: nat)
      requires index < |records| && count == 0 && from == 0 && size > 0
      requires pos0 == |Flat(records[..index])| < offset
      modifies this`buf, this`from, this`count, this`index
      ensures v == TooLong ==> index == old(index) && |records[index]| >= size
      ensures v == Found ==> Shape() && Tail() == From(Flat(records), offset)
      ensures v == Before ==>
              index == old(index) + 1 && count == 0 && from == 0 && pos == |Flat(records[..index])| < offset
    {
      hide Flat, From;
      pos := pos0;
      var r := records[index];
      Passed(records, index, offset);
      assert buf[..0] == "" && "" + r == r;
      Show(r);
      if count == size {
        return TooLong, pos;
      }
      if pos + count > offset {
        from := offset - pos;
        count := count - from;
        assert buf[from..from + count] == r[offset - pos..];
        return Found, pos;
      }
      pos := pos + count;
      count := 0;
      index := index + 1;
      assert buf[0..0] == "" && "" + Flat(records[index..]) == Flat(records[index..]);
      return if pos == offset then Found else Before, pos;
    }

    /** seq_lseek: the new position, or -EINVAL. A seek to another position puts the reader where plain indexing would
        be, whatever state it was in; so it repairs one that a read has left with a wrong text. */
    method Lseek(offset: int, origin: int) returns (ret: int)
      modifies this`size, this`buf, this`from, this`count, this`index, this`fpos
      ensures var target := if origin == 1 then offset + old(fpos) else offset;
              if (origin == 0 || origin == 1) && target >= 0 then ret == target && fpos == target
              else ret == -22 && fpos == old(fpos)
      ensures old(Valid()) || ((origin == 0 || origin == 1) && ret >= 0 && ret != old(fpos)) ==> Valid()
      ensures size == old(size) || size >= old(NextSize())
    {
      var target := if origin == 1 then offset + fpos else offset;
      if !(origin == 0 || origin == 1) || target < 0 {
        return -22;
      }
      if target != fpos {
        ghost var longest := Longest(records);
        var again := Traverse(target);
        while again
          invariant !again ==> Shape() && Tail() == From(Flat(records), target)
          invariant again ==> size > 0 && size >= old(NextSize())
          invariant fpos == old(fpos) && (size == old(size) || size >= old(NextSize()))
          decreases if again && size <= longest then longest + 1 - size else 0, again
        {
          LongestBounds(records);
          again := Traverse(target);
        }
        fpos := target;
      }
      return target;
    }

    /** Any sequence of reads and seeks. */
    method Session(reqs: seq<Request>) returns (outs: seq<string>)
      requires Valid() && AllShort(records) && (size == 0 || size >= PAGE_SIZE)
      modifies this`size, this`buf, this`count, this`from, this`index, this`fpos
      ensures Explains(Flat(records), old(fpos), reqs, outs)
      decreases |reqs|
    {
      hide Flat, From, Remaining;
      if reqs == [] {
        return [];
      }
      var out := "";
      match reqs[0] {
        case ReadReq(want) =>
          ghost var i := if count > 0 then index + 1 else index;
          assert i < |records| ==> records[i] in records;
          out := Read(want);
        case SeekReq(offset, origin) =>
          var ret := Lseek(offset, origin);
      }
      var rest := Session(reqs[1..]);
      outs := [out] + rest;
      assert outs[1..] == rest;
    }
  }

  /** A file of one record that is as long as the buffer: a read that asks for two buffers gets two, twice as many bytes
      as the text has. */
  method LongRecordExample() returns (m: Reader, out: string)
    ensures fresh(m) && m.records == [seq(PAGE_SIZE, _ => 'x')]
    ensures |Flat(m.records)| == PAGE_SIZE && |out| == 2 * PAGE_SIZE
  {
    var r: string := seq(PAGE_SIZE, _ => 'x');
    m := new Reader([r]);
    assert [r][1..] == [] && Flat([r]) == r + Flat([]);
    assert !m.Fits(2 * PAGE_SIZE);
    out := m.Read(2 * PAGE_SIZE);
  }

  /** If the next record would have fit, the text shown is the rest. */
  lemma SomethingShown(records: seq<string>, i: nat, pos: nat, size0: nat, size: nat)
    requires i <= pos < |records| && size0 <= size && (forall r :: r in records ==> |r| < size0)
    requires Flat(records[i..]) != ""
    ensures pos + 1 < |records| ==> |records[pos + 1]| < size
    ensures pos + 1 == |records| ==> Flat(records[i..pos + 1]) != ""
  {
    if pos + 1 < |records| {
      assert records[pos + 1] in records;
    } else {
      FlatSlice(records, i, pos + 1);
      assert records[pos + 1..] == [];
    }
  }

  datatype Visited = TooLong | Found | Before

  lemma CutText(buf: string, n: nat, c: nat, rest: string)
    requires n <= c <= |buf|
    ensures buf[..n] + (buf[n..n + (c - n)] + rest) == buf[..c] + rest
  {
  }

  lemma JoinText(a: string, b: string, c: string)
    ensures a + b + c == a + (b + c)
  {
  }

  datatype Request = ReadReq(want: nat) | SeekReq(offset: int, origin: int)

  predicate AllShort(records: seq<string>) {
    forall r :: r in records ==> |r| < PAGE_SIZE
  }

  /** outs is what reads and seeks on a plain text may return: each read gets the text at the position, at most
      what it asked for, and something if there is anything; then the position moves by what was returned. */
  predicate Explains(text: string, pos: nat, reqs: seq<Request>, outs: seq<string>)
    decreases |reqs|
  {
    if reqs == [] then outs == []
    else
      && outs != []
      && match reqs[0]
         case ReadReq(want) =>
           && outs[0] <= From(text, pos) && |outs[0]| <= want
           && (want > 0 && From(text, pos) != "" ==> outs[0] != "")
           && Explains(text, pos + |outs[0]|, reqs[1..], outs[1..])
         case SeekReq(offset, origin) =>
           var target := if origin == 1 then offset + pos else offset;
           && outs[0] == ""
           && Explains(text, if (origin == 0 || origin == 1) && target >= 0 then target else pos, reqs[1..], outs[1..])
  }

  function Longest(records: seq<string>): nat {
    if records == [] then 0
    else
      var l := Longest(records[1..]);
      if |records[0]| > l then |records[0]| else l
  }

  lemma {:induction false} LongestBounds(records: seq<string>)
    ensures forall r :: r in records ==> |r| <= Longest(records)
  {
    if records != [] {
      LongestBounds(records[1..]);
      assert records == [records[0]] + records[1..];
    }
  }

  /** Where record i stands in the text. */
  lemma Passed(records: seq<string>, i: nat, offset: nat)
    requires i < |records| && |Flat(records[..i])| < offset
    ensures |Flat(records[..i + 1])| == |Flat(records[..i])| + |records[i]|
    ensures |Flat(records[..i + 1])| <= |Flat(records)|
    ensures offset < |Flat(records[..i + 1])| ==>
              From(Flat(records), offset) == records[i][offset - |Flat(records[..i])|..] + Flat(records[i + 1..])
    ensures offset == |Flat(records[..i + 1])| ==> From(Flat(records), offset) == Flat(records[i + 1..])
  {
    hide Flat, From;
    FlatUpTo(records, i);
    FromMiddle(Flat(records[..i]), records[i], Flat(records[i + 1..]), offset);
  }

  lemma FromBehind(text: string, pos: nat)
    requires |text| < pos
    ensures From(text, pos) == ""
  {
  }

  lemma FromMiddle(a: string, b: string, c: string, pos: nat)
    requires |a| < pos
    ensures pos < |a| + |b| ==> From(a + b + c, pos) == b[pos - |a|..] + c
    ensures pos == |a| + |b| ==> From(a + b + c, pos) == c
  {
  }

  /** Text handed out from the front leaves the text from the new position. */
  lemma FromAdvance(text: string, pos: nat, out: string, tail: string)
    requires From(text, pos) == out + tail
    ensures tail == From(text, pos + |out|) && out <= From(text, pos)
  {
  }

  /** Junk in between shows: nothing can be right any more. */
  lemma Judge(text: string, pos: nat, first: string, rest: string, more: string, junk: string, tail: string)
    requires From(text, pos) == first + rest && more + tail == junk + rest
    ensures first + more <= From(text, pos) && tail == From(text, pos + |first + more|) <==> junk == ""
  {
    assert |more| + |tail| == |junk| + |rest|;
    if junk == "" {
      assert junk + rest == rest;
      assert first + more + tail == first + (more + tail);
      FromAdvance(text, pos, first + more, tail);
    }
  }
}
