/** serload: cutting an image into blocks of 512 bytes and sending each one, with a checksum, until it is
    acknowledged (serload/serialdownload.cpp, serload/main.cpp). */
module SerialSender {
  import opened Lists

  type byte = bv8

  const STX: byte := 2
  const ETX: byte := 3
  const BEL: byte := 7
  const ACK_OK: byte := 6
  const ACK_NOK: byte := 15
  const FILLER: byte := 0xff
  const BLOCK: nat := 512

  // ---------------------------------------------------------------- the checksum

  /** check = (check << 1) ^ b, in eight bits. */
  function Step(check: byte, b: byte): byte {
    (check << 1) ^ b
  }

  function Checksum(check: byte, data: seq<byte>): byte
    decreases |data|
  {
    if data == [] then check else Checksum(Step(check, data[0]), data[1..])
  }

  function Xor(x: byte, y: byte): byte {
    x ^ y
  }

  function Twice(x: byte): byte {
    x << 1
  }

  function Shift(x: byte, n: nat): byte
    decreases n
  {
    if n == 0 then x else Shift(Twice(x), n - 1)
  }

  lemma StepIs(check: byte, b: byte)
    ensures Step(check, b) == Xor(Twice(check), b) && Step(0, b) == b
  {
  }

  lemma Xors(x: byte, y: byte, z: byte)
    ensures Xor(Xor(x, y), z) == Xor(x, Xor(y, z)) && Xor(x, 0) == x && (Xor(x, y) == 0 <==> x == y)
    ensures (Xor(x, y) == x <==> y == 0) && Twice(Xor(x, y)) == Xor(Twice(x), Twice(y))
  {
  }

  lemma {:induction false} ShiftXor(x: byte, y: byte, n: nat)
    ensures Shift(Xor(x, y), n) == Xor(Shift(x, n), Shift(y, n))
    decreases n
  {
    hide Xor, Twice;
    if n > 0 {
      Xors(x, y, 0);
      ShiftXor(Twice(x), Twice(y), n - 1);
    }
  }

  lemma {:induction false} ShiftZero(n: nat)
    ensures Shift(0, n) == 0
  {
    if n > 0 { ShiftZero(n - 1); }
  }

  lemma ShiftOut(x: byte, n: nat)
    requires n >= 8
    ensures Shift(x, n) == 0
  {
    var y := x << 1 << 1 << 1 << 1 << 1 << 1 << 1 << 1;
    assert y == 0;
    assert Shift(x, n) == Shift(x << 1, n - 1) == Shift(x << 1 << 1, n - 2) == Shift(x << 1 << 1 << 1, n - 3);
    assert Shift(x << 1 << 1 << 1, n - 3) == Shift(x << 1 << 1 << 1 << 1, n - 4) ==
        Shift(x << 1 << 1 << 1 << 1 << 1, n - 5);
    assert Shift(x << 1 << 1 << 1 << 1 << 1, n - 5) == Shift(x << 1 << 1 << 1 << 1 << 1 << 1, n - 6);
    assert Shift(x << 1 << 1 << 1 << 1 << 1 << 1, n - 6) == Shift(x << 1 << 1 << 1 << 1 << 1 << 1 << 1, n - 7) ==
        Shift(y, n - 8);
    ShiftZero(n - 8);
  }

  /** The start value contributes its own shift and nothing else. */
  lemma {:induction false} ChecksumSplit(check: byte, data: seq<byte>)
    ensures Checksum(check, data) == Xor(Shift(check, |data|), Checksum(0, data))
    decreases |data|
  {
    hide Xor, Twice, Step;
    if data == [] {
      Xors(check, 0, 0);
    } else {
      var b, t := data[0], data[1..];
      var x := Twice(check);
      StepIs(check, b);
      ChecksumSplit(Xor(x, b), t);
      ChecksumSplit(b, t);
      ShiftXor(x, b, |t|);
      Xors(Shift(x, |t|), Shift(b, |t|), Checksum(0, t));
    }
  }

  /** After eight bytes the start value is forgotten: a checksum that is never reset is right all the same. */
  lemma ChecksumForgets(c1: byte, c2: byte, data: seq<byte>)
    requires |data| >= 8
    ensures Checksum(c1, data) == Checksum(c2, data)
  {
    ChecksumSplit(c1, data);
    ChecksumSplit(c2, data);
    ShiftOut(c1, |data|);
    ShiftOut(c2, |data|);
  }

  /** Fewer bytes would not do. */
  lemma ShortRemembers()
    ensures exists data: seq<byte> :: |data| == 7 && Checksum(0xff, data) != Checksum(0, data)
  {
    var z: seq<byte> := [0, 0, 0, 0, 0, 0, 0];
    ChecksumSplit(0xff, z);
    ChecksumSplit(0, z);
    ShiftZero(7);
    assert Shift(0xff, 7) == Shift(0xfe, 6) == Shift(0xfc, 5) == Shift(0xf8, 4);
    assert Shift(0xf8, 4) == Shift(0xf0, 3) == Shift(0xe0, 2) == Shift(0xc0, 1) == Shift(0x80, 0);
  }

  lemma {:induction false} ChecksumAppend(c: byte, a: seq<byte>, b: byte)
    ensures Checksum(c, a + [b]) == Step(Checksum(c, a), b)
    decreases |a|
  {
    if a == [] {
      assert a + [b] == [b];
      assert [b][1..] == [];
    } else {
      assert (a + [b])[1..] == a[1..] + [b];
      ChecksumAppend(Step(c, a[0]), a[1..], b);
    }
  }

  // ---------------------------------------------------------------- what the checksum sees

  /** The last eight bytes, each shifted by its distance from the end. */
  function LastEight(data: seq<byte>): byte
    requires |data| >= 8
  {
    var d := data[|data| - 8..];
    (d[0] << 7) ^ (d[1] << 6) ^ (d[2] << 5) ^ (d[3] << 4) ^ (d[4] << 3) ^ (d[5] << 2) ^ (d[6] << 1) ^ d[7]
  }

  lemma {:induction false} ChecksumConcat(c: byte, a: seq<byte>, b: seq<byte>)
    ensures Checksum(c, a + b) == Checksum(Checksum(c, a), b)
    decreases |b|
  {
    if b == [] {
      assert a + b == a;
    } else {
      assert a + b == (a + [b[0]]) + b[1..];
      ChecksumConcat(c, a + [b[0]], b[1..]);
      ChecksumAppend(c, a, b[0]);
    }
  }

  lemma FourSteps(c: byte, d0: byte, d1: byte, d2: byte, d3: byte)
    ensures ((((((((c << 1) ^ d0) << 1) ^ d1) << 1) ^ d2) << 1) ^ d3) ==
            (c << 4) ^ (d0 << 3) ^ (d1 << 2) ^ (d2 << 1) ^ d3
  {
  }

  lemma ChecksumFour(c: byte, d: seq<byte>)
    requires |d| == 4
    ensures Checksum(c, d) == (c << 4) ^ (d[0] << 3) ^ (d[1] << 2) ^ (d[2] << 1) ^ d[3]
  {
    var c1 := Step(c, d[0]);
    var c2 := Step(c1, d[1]);
    var c3 := Step(c2, d[2]);
    assert d[1..][1..] == d[2..] && d[2..][1..] == d[3..] && d[3..][1..] == [];
    assert Checksum(c, d) == Checksum(c1, d[1..]) == Checksum(c2, d[2..]) == Checksum(c3, d[3..]);
    assert Checksum(c3, d[3..]) == Step(c3, d[3]);
    FourSteps(c, d[0], d[1], d[2], d[3]);
  }

  lemma EightSteps(c: byte, d0: byte, d1: byte, d2: byte, d3: byte, d4: byte, d5: byte, d6: byte, d7: byte)
    ensures (((c << 4) ^ (d0 << 3) ^ (d1 << 2) ^ (d2 << 1) ^ d3) << 4) ^ (d4 << 3) ^ (d5 << 2) ^ (d6 << 1) ^ d7 ==
            (d0 << 7) ^ (d1 << 6) ^ (d2 << 5) ^ (d3 << 4) ^ (d4 << 3) ^ (d5 << 2) ^ (d6 << 1) ^ d7
  {
  }

  /** The checksum of eight bytes or more, whatever it starts with, is that of the last eight. */
  lemma ChecksumIsLastEight(c: byte, data: seq<byte>)
    requires |data| >= 8
    ensures Checksum(c, data) == LastEight(data)
  {
    var n := |data|;
    var a, b, e := data[..n - 8], data[n - 8..n - 4], data[n - 4..];
    assert data == a + (b + e);
    ChecksumConcat(c, a, b + e);
    ChecksumConcat(Checksum(c, a), b, e);
    ChecksumFour(Checksum(c, a), b);
    ChecksumFour(Checksum(Checksum(c, a), b), e);
    EightSteps(Checksum(c, a), b[0], b[1], b[2], b[3], e[0], e[1], e[2], e[3]);
    hide Checksum;
  }

  lemma ChecksumTail(c: byte, a: seq<byte>, x: byte, e: seq<byte>)
    ensures Checksum(c, (a + [x]) + e) ==
            Xor(Xor(Shift(Twice(Checksum(c, a)), |e|), Shift(x, |e|)), Checksum(0, e))
  {
    hide Checksum, Shift, Step, Xor, Twice;
    ChecksumConcat(c, a + [x], e);
    ChecksumAppend(c, a, x);
    StepIs(Checksum(c, a), x);
    ChecksumSplit(Checksum(c, a + [x]), e);
    ShiftXor(Twice(Checksum(c, a)), x, |e|);
  }

  lemma XorOut(s: byte, x: byte, b: byte, r: byte)
    ensures Xor(Xor(s, b), r) == Xor(Xor(Xor(s, x), r), Xor(x, b))
  {
  }

  lemma ChangeIs(c: byte, data: seq<byte>, i: nat, b: byte)
    requires i < |data|
    ensures Checksum(c, data[i := b]) == Xor(Checksum(c, data), Shift(Xor(data[i], b), |data| - 1 - i))
  {
    hide Checksum, Shift, Xor, Twice;
    var a, x, e := data[..i], data[i], data[i + 1..];
    assert data == (a + [x]) + e && data[i := b] == (a + [b]) + e;
    ChecksumTail(c, a, x, e);
    ChecksumTail(c, a, b, e);
    ShiftXor(x, b, |e|);
    XorOut(Shift(Twice(Checksum(c, a)), |e|), Shift(x, |e|), Shift(b, |e|), Checksum(0, e));
  }

  /** A byte that is changed changes the checksum by the difference, shifted by its distance from the end: the last
      byte always, the eight last ones by the bits that are not shifted out, and the others never. */
  lemma OneByteChange(c: byte, data: seq<byte>, i: nat, b: byte)
    requires i < |data|
    ensures Checksum(c, data[i := b]) == Xor(Checksum(c, data), Shift(Xor(data[i], b), |data| - 1 - i))
    ensures Checksum(c, data[i := b]) == Checksum(c, data) <==> Shift(Xor(data[i], b), |data| - 1 - i) == 0
    ensures i == |data| - 1 && b != data[i] ==> Checksum(c, data[i := b]) != Checksum(c, data)
    ensures i + 8 < |data| ==> Checksum(c, data[i := b]) == Checksum(c, data)
  {
    hide Checksum, Shift, Xor;
    ChangeIs(c, data, i, b);
    var x, n := data[i], |data| - 1 - i;
    Xors(Checksum(c, data), Shift(Xor(x, b), n), 0);
    ShiftNone(Xor(x, b));
    Xors(x, b, 0);
    if i + 8 < |data| {
      ShiftOut(Xor(x, b), n);
    }
  }

  lemma ShiftNone(x: byte)
    ensures Shift(x, 0) == x
  {
  }

  // ---------------------------------------------------------------- one block

  /** What goes over the line for one attempt: the data, STX or ETX, the checksum. */
  datatype Frame = Frame(data: seq<byte>, mark: byte, check: byte)

  datatype Attempt = Attempt(frame: Frame, accepted: bool)

  function Pad(block: seq<byte>): seq<byte>
    requires |block| <= BLOCK
  {
    block + seq(BLOCK - |block|, _ => FILLER)
  }

  /** What a block should look like on the line, its checksum computed afresh. */
  function FrameOf(block: seq<byte>): Frame
    requires |block| <= BLOCK
  {
    Frame(Pad(block), if |block| == BLOCK then STX else ETX, Checksum(0xff, Pad(block)))
  }

  predicate IsControl(c: byte) {
    c == STX || c == ETX || c == BEL || c == ACK_OK || c == ACK_NOK
  }

  /** The next control character of the input, and what comes behind it. */
  function NextControl(input: seq<byte>): (r: Option<(byte, seq<byte>)>)
    ensures r.Some? ==> IsControl(r.value.0) && |r.value.1| < |input|
  {
    if input == [] then None
    else if IsControl(input[0]) then Some((input[0], input[1..])) else NextControl(input[1..])
  }

  /** waitForReply; None if no control character ever comes. */
  method WaitForReply(input: seq<byte>) returns (c: Option<byte>, rest: seq<byte>)
    ensures |rest| <= |input|
    ensures NextControl(input) == if c.Some? then Some((c.value, rest)) else None
    ensures c == None ==> rest == [] && forall j :: 0 <= j < |input| ==> input[j] !in {2, 3, 6, 7, 15}
    ensures c.Some? ==>
              && c.value in {2, 3, 6, 7, 15} && |rest| < |input| && input[|input| - |rest| - 1] == c.value
              && rest == input[|input| - |rest|..]
              && forall j :: 0 <= j < |input| - |rest| - 1 ==> input[j] !in {2, 3, 6, 7, 15}
  {
    var i := 0;
    while i < |input|
      invariant 0 <= i <= |input| && NextControl(input[i..]) == NextControl(input)
      invariant forall j :: 0 <= j < i ==> input[j] !in {2, 3, 6, 7, 15}
    {
      i := i + 1;
      if IsControl(input[i - 1]) {
        return Some(input[i - 1]), input[i..];
      }
    }
    return None, [];
  }

  /** What comes behind the next STX, other control characters being skipped. */
  function AfterStx(input: seq<byte>): (r: Option<seq<byte>>)
    ensures r.Some? ==> |r.value| < |input|
    decreases |input|
  {
    match NextControl(input)
    case None => None
    case Some(p) => if p.0 == STX then Some(p.1) else AfterStx(p.1)
  }

  /** while (waitForReply(1) != STX); */
  method WaitForStx(input: seq<byte>) returns (found: bool, rest: seq<byte>)
    ensures |rest| <= |input| && AfterStx(input) == (if found then Some(rest) else None) && (!found ==> rest == [])
  {
    rest := input;
    while true
      invariant |rest| <= |input| && AfterStx(rest) == AfterStx(input)
      decreases |rest|
    {
      var c;
      c, rest := WaitForReply(rest);
      if c == None {
        return false, rest;
      }
      if c.value == STX {
        return true, rest;
      }
    }
  }

  /** The verdicts on the attempts at one block, as the replies say: each is the control character behind an STX,
      and the first ACK_OK ends it. */
  function Verdicts(input: seq<byte>): seq<bool>
    decreases |input|
  {
    match AfterStx(input)
    case None => []
    case Some(r) =>
      match NextControl(r)
      case None => []
      case Some(p) => if p.0 == ACK_OK then [true] else [false] + Verdicts(p.1)
  }

  /** The replies that are left for the next block. */
  function Leftover(input: seq<byte>): seq<byte>
    decreases |input|
  {
    match AfterStx(input)
    case None => []
    case Some(r) =>
      match NextControl(r)
      case None => []
      case Some(p) => if p.0 == ACK_OK then p.1 else Leftover(p.1)
  }

  function Flags(log: seq<Attempt>): (r: seq<bool>)
    ensures |r| == |log| && forall i :: 0 <= i < |log| ==> r[i] == log[i].accepted
  {
    seq(|log|, i requires 0 <= i < |log| => log[i].accepted)
  }

  /** Fill the block and run the checksum over it, as one loop does for a short block and two for a full one. */
  method PrepareBlock(block: seq<byte>, check0: byte) returns (data: array<byte>, check: byte)
    requires |block| <= BLOCK
    ensures fresh(data) && data[..] == Pad(block) && check == Checksum(check0, Pad(block)) == LastEight(Pad(block))
  {
    data := new byte[BLOCK];
    check := check0;
    var i := 0;
    while i < BLOCK
      invariant 0 <= i <= BLOCK && data[..i] == Pad(block)[..i] && check == Checksum(check0, Pad(block)[..i])
    {
      var b := if i < |block| then block[i] else FILLER;
      assert Pad(block)[..i + 1] == Pad(block)[..i] + [b];
      ChecksumAppend(check0, Pad(block)[..i], b);
      check := Step(check, b);
      data[i] := b;
      i := i + 1;
    }
    assert Pad(block)[..BLOCK] == Pad(block) && data[..BLOCK] == data[..];
    ChecksumIsLastEight(check0, Pad(block));
  }

  /** All attempts at a block are the same right frame; only the last one, if any, was accepted. */
  ghost predicate Attempts(block: seq<byte>, log: seq<Attempt>, ok: bool)
    requires |block| <= BLOCK
  {
    && (forall i :: 0 <= i < |log| ==> log[i].frame == FrameOf(block))
    && (forall i :: 0 <= i < |log| - 1 ==> !log[i].accepted)
    && (ok <==> log != [] && log[|log| - 1].accepted)
  }

  lemma FlagsMore(log: seq<Attempt>, a: Attempt, more: seq<bool>)
    ensures Flags(log + [a]) == Flags(log) + [a.accepted]
    ensures Flags(log) + ([a.accepted] + more) == Flags(log + [a]) + more
  {
  }

  lemma AttemptsChecked(block: seq<byte>, log: seq<Attempt>, ok: bool)
    requires |block| <= BLOCK && Attempts(block, log, ok)
    ensures forall i :: 0 <= i < |log| ==>
              log[i].frame.data == Pad(block) && log[i].frame.check == LastEight(Pad(block))
  {
    ChecksumIsLastEight(0xff, Pad(block));
    assert FrameOf(block).data == Pad(block) && FrameOf(block).check == LastEight(Pad(block));
    hide FrameOf, LastEight, Pad, Checksum;
  }

  /** One turn of the loop in sendBlock; None if the replies stop coming. */
  method TryBlock(block: seq<byte>, check0: byte, input: seq<byte>) returns (att: Option<Attempt>, check: byte,
                  rest: seq<byte>)
    requires |block| <= BLOCK
    ensures att == None ==> Verdicts(input) == [] && Leftover(input) == [] == rest
    ensures att.Some? ==>
              && att.value.frame == FrameOf(block) && |rest| < |input| && att.value.frame.check == LastEight(Pad(block))
              && Verdicts(input) == (if att.value.accepted then [true] else [false] + Verdicts(rest))
              && Leftover(input) == (if att.value.accepted then rest else Leftover(rest))
  {
    var data;
    data, check := PrepareBlock(block, check0);
    ChecksumForgets(check0, 0xff, Pad(block));
    hide Pad, Checksum, LastEight;
    var found;
    found, rest := WaitForStx(input);
    if !found {
      return None, check, rest;
    }
    var frame := Frame(data[..], if |block| == BLOCK then STX else ETX, check);
    var c;
    c, rest := WaitForReply(rest);
    if c == None {
      return None, check, rest;
    }
    return Some(Attempt(frame, c.value == ACK_OK)), check, rest;
  }

  /** sendBlock: the checksum variable runs on from attempt to attempt. ok is false if the replies stop coming. */
  method SendBlock(block: seq<byte>, input: seq<byte>) returns (log: seq<Attempt>, rest: seq<byte>, ok: bool)
    requires |block| <= BLOCK
    ensures Attempts(block, log, ok) && |rest| <= |input|
    ensures Flags(log) == Verdicts(input) && rest == Leftover(input)
    ensures forall i :: 0 <= i < |log| ==>
              log[i].frame.data == Pad(block) && log[i].frame.check == LastEight(Pad(block))
  {
    hide Pad, LastEight, FrameOf, Verdicts, Leftover, Flags;
    var check: byte := 0xff;
    assert Flags([]) + Verdicts(input) == Verdicts(input);
    log, rest := [], input;
    while true
      invariant Attempts(block, log, false) && |rest| <= |input|
      invariant Flags(log) + Verdicts(rest) == Verdicts(input) && Leftover(rest) == Leftover(input)
      decreases |rest|
    {
      var att;
      att, check, rest := TryBlock(block, check, rest);
      if att == None {
        AttemptsChecked(block, log, false);
        return log, rest, false;
      }
      FlagsMore(log, att.value, Verdicts(rest));
      log := log + [att.value];
      if att.value.accepted {
        AttemptsChecked(block, log, true);
        return log, rest, true;
      }
    }
  }

  // ---------------------------------------------------------------- the image

  /** The image in blocks; the last one may be short. */
  function Blocks(image: seq<byte>): (bs: seq<seq<byte>>)
    ensures forall b :: b in bs ==> 0 < |b| <= BLOCK
    decreases |image|
  {
    if image == [] then []
    else if |image| <= BLOCK then [image]
    else [image[..BLOCK]] + Blocks(image[BLOCK..])
  }

  function Padding(n: nat): nat {
    if n % BLOCK == 0 then 0 else BLOCK - n % BLOCK
  }

  /** The image, filled up to whole blocks. */
  function PadImage(image: seq<byte>): seq<byte> {
    image + seq(Padding(|image|), _ => FILLER)
  }

  /** The frames that were accepted. */
  function Accepted(log: seq<Attempt>): seq<Frame> {
    if log == [] then [] else (if log[0].accepted then [log[0].frame] else []) + Accepted(log[1..])
  }

  function Data(frames: seq<Frame>): seq<byte> {
    if frames == [] then [] else frames[0].data + Data(frames[1..])
  }

  lemma {:induction false} AcceptedAppend(a: seq<Attempt>, b: seq<Attempt>)
    ensures Accepted(a + b) == Accepted(a) + Accepted(b)
  {
    if a == [] {
      assert a + b == b;
    } else {
      assert (a + b)[1..] == a[1..] + b && (a + b)[0] == a[0];
      AcceptedAppend(a[1..], b);
    }
  }

  lemma {:induction false} AcceptedBlock(block: seq<byte>, log: seq<Attempt>)
    requires |block| <= BLOCK && Attempts(block, log, true)
    ensures Accepted(log) == [FrameOf(block)]
    decreases |log|
  {
    if |log| > 1 {
      assert !log[0].accepted;
      AcceptedBlock(block, log[1..]);
    } else {
      assert log[1..] == [];
    }
  }

  function FramesOf(blocks: seq<seq<byte>>): seq<Frame>
    requires forall b :: b in blocks ==> |b| <= BLOCK
  {
    seq(|blocks|, i requires 0 <= i < |blocks| => assert blocks[i] in blocks; FrameOf(blocks[i]))
  }

  lemma {:induction false} DataOfBlocks(image: seq<byte>)
    ensures Data(FramesOf(Blocks(image))) == PadImage(image)
    decreases |image|
  {
    if image == [] {
      assert FramesOf(Blocks(image)) == [];
      assert PadImage(image) == [];
    } else if |image| <= BLOCK {
      DataOfLast(image);
    } else {
      var h, t := image[..BLOCK], image[BLOCK..];
      DataOfBlocks(t);
      assert Blocks(image) == [h] + Blocks(t);
      assert image == h + t && |h| == BLOCK;
      hide Blocks, FrameOf, Data, PadImage;
      DataOfFirst(h, Blocks(t));
      PadRest(h, t);
    }
  }

  lemma DataOfLast(image: seq<byte>)
    requires 0 < |image| <= BLOCK
    ensures Data(FramesOf(Blocks(image))) == PadImage(image)
  {
    hide Checksum, Pad, PadImage;
    var f := FrameOf(image);
    assert Blocks(image) == [image];
    assert FramesOf([image]) == [f];
    hide FramesOf, Blocks, FrameOf;
    assert [f][1..] == [];
    PadOne(image);
  }

  lemma PadOne(image: seq<byte>)
    requires 0 < |image| <= BLOCK
    ensures PadImage(image) == Pad(image)
  {
    assert Padding(|image|) == BLOCK - |image|;
  }

  lemma DataOfFirst(h: seq<byte>, bs: seq<seq<byte>>)
    requires |h| == BLOCK && forall b :: b in bs ==> |b| <= BLOCK
    ensures forall b :: b in [h] + bs ==> |b| <= BLOCK
    ensures Data(FramesOf([h] + bs)) == h + Data(FramesOf(bs))
  {
    assert FramesOf([h] + bs) == [FrameOf(h)] + FramesOf(bs);
    assert ([FrameOf(h)] + FramesOf(bs))[1..] == FramesOf(bs);
    hide FramesOf;
    assert Pad(h) == h;
  }

  lemma PadRest(h: seq<byte>, t: seq<byte>)
    requires |h| == BLOCK
    ensures PadImage(h + t) == h + PadImage(t)
  {
    assert (|t| + BLOCK) % BLOCK == |t| % BLOCK;
  }

  /** ETX goes out exactly for a short block, which only the last can be; an image of whole blocks never gets one. */
  lemma {:induction false} EtxOnlyAtShortEnd(image: seq<byte>, i: nat)
    requires i < |Blocks(image)|
    ensures Blocks(image)[i] in Blocks(image)
    ensures FrameOf(Blocks(image)[i]).mark == ETX <==> i == |Blocks(image)| - 1 && |image| % BLOCK != 0
    decreases |image|
  {
    assert Blocks(image)[i] in Blocks(image);
    if |image| > BLOCK {
      var t := image[BLOCK..];
      assert Blocks(t) != [];
      assert (|t| + BLOCK) % BLOCK == |t| % BLOCK;
      if i > 0 { EtxOnlyAtShortEnd(t, i - 1); }
    }
  }

  /** Where the blocks lie in the image. */
  lemma {:induction false} BlockAt(image: seq<byte>, k: nat)
    requires k * BLOCK < |image|
    ensures k < |Blocks(image)|
    ensures Blocks(image)[k] == if (k + 1) * BLOCK <= |image| then image[k * BLOCK..(k + 1) * BLOCK]
            else image[k * BLOCK..]
    decreases k
  {
    if |image| > BLOCK && k > 0 {
      var t := image[BLOCK..];
      BlockAt(t, k - 1);
    } else if |image| == BLOCK {
      assert image[..BLOCK] == image;
    }
  }

  lemma {:induction false} BlockCount(image: seq<byte>)
    ensures |Blocks(image)| == (|image| + BLOCK - 1) / BLOCK
    decreases |image|
  {
    if |image| > BLOCK {
      BlockCount(image[BLOCK..]);
    }
  }

  lemma FramesOfNext(blocks: seq<seq<byte>>, k: nat)
    requires k < |blocks| && forall b :: b in blocks ==> |b| <= BLOCK
    ensures blocks[k] in blocks
    ensures (forall b :: b in blocks[..k] ==> |b| <= BLOCK) && (forall b :: b in blocks[..k + 1] ==> |b| <= BLOCK)
    ensures FramesOf(blocks[..k + 1]) == FramesOf(blocks[..k]) + [FrameOf(blocks[k])]
  {
    assert forall b :: b in blocks[..k] ==> b in blocks;
    assert forall b :: b in blocks[..k + 1] ==> b in blocks;
  }

  /** Every attempt in the log carries a block of the image, padded, marked and with its own checksum. */
  ghost predicate AllRight(image: seq<byte>, log: seq<Attempt>) {
    forall a :: a in log ==> exists b :: b in Blocks(image) && |b| <= BLOCK && a.frame == FrameOf(b)
  }

  /** The replies get n blocks through: each is accepted in the end, after whatever was rejected. */
  predicate Served(input: seq<byte>, n: nat)
    decreases n
  {
    n == 0 || (true in Verdicts(input) && Served(Leftover(input), n - 1))
  }

  /** How many of n blocks the replies get through. */
  function Through(input: seq<byte>, n: nat): (k: nat)
    ensures k <= n && (k == n <==> Served(input, n))
    decreases n
  {
    if n == 0 || true !in Verdicts(input) then 0 else 1 + Through(Leftover(input), n - 1)
  }

  /** The replies left behind n blocks. */
  function LeftAfter(input: seq<byte>, n: nat): seq<byte>
    decreases n
  {
    if n == 0 then input else LeftAfter(Leftover(input), n - 1)
  }

  /** One block more, seen from the end. */
  lemma {:induction false} ServedOneMore(input: seq<byte>, k: nat)
    ensures Served(input, k + 1) <==> Served(input, k) && true in Verdicts(LeftAfter(input, k))
    ensures LeftAfter(input, k + 1) == Leftover(LeftAfter(input, k))
    decreases k
  {
    hide Verdicts, Leftover;
    if k > 0 {
      ServedOneMore(Leftover(input), k - 1);
    }
  }

  /** Where the replies stop, no later block gets through. */
  lemma {:induction false} StuckAt(input: seq<byte>, k: nat, n: nat)
    requires k < n && Served(input, k) && !Served(input, k + 1)
    ensures Through(input, n) == k
    decreases k
  {
    hide Verdicts, Leftover;
    if k > 0 {
      StuckAt(Leftover(input), k - 1, n - 1);
    }
  }

  /** The replies to one block that is rejected n times and then accepted. */
  function Reply(n: nat): seq<byte> {
    if n == 0 then [STX, ACK_OK] else [STX, ACK_NOK] + Reply(n - 1)
  }

  function Replies(pattern: seq<nat>): seq<byte> {
    if pattern == [] then [] else Reply(pattern[0]) + Replies(pattern[1..])
  }

  lemma {:induction false} OneReply(n: nat, rest: seq<byte>)
    ensures |Verdicts(Reply(n) + rest)| == n + 1 && Leftover(Reply(n) + rest) == rest
    ensures forall i :: 0 <= i <= n ==> (Verdicts(Reply(n) + rest)[i] <==> i == n)
  {
    var ack := if n == 0 then ACK_OK else ACK_NOK;
    var more := if n == 0 then rest else Reply(n - 1) + rest;
    assert Reply(n) + rest == [STX, ack] + more;
    hide Verdicts, Leftover, Reply;
    OneVerdict(ack, more);
    if n > 0 {
      OneReply(n - 1, rest);
    }
  }

  lemma {:induction false} SkipsNoise(noise: seq<byte>, c: byte, more: seq<byte>)
    requires (forall b :: b in noise ==> !IsControl(b)) && IsControl(c)
    ensures NextControl(noise + ([c] + more)) == Some((c, more))
    decreases |noise|
  {
    var input := noise + ([c] + more);
    if noise == [] {
      assert input == [c] + more;
    } else {
      assert input[1..] == noise[1..] + ([c] + more);
      SkipsNoise(noise[1..], c, more);
    }
  }

  /** Up to the first STX everything is skipped. */
  lemma {:induction false} SkipsToStx(junk: seq<byte>, rest: seq<byte>)
    requires STX !in junk
    ensures AfterStx(junk + ([STX] + rest)) == Some(rest)
    decreases |junk|
  {
    var i := 0;
    while i < |junk| && !IsControl(junk[i])
      invariant i <= |junk| && forall b :: b in junk[..i] ==> !IsControl(b)
    {
      i := i + 1;
    }
    hide NextControl, IsControl;
    assert IsControl(STX) by { ControlStx(); }
    if i < |junk| {
      var more := junk[i + 1..] + ([STX] + rest);
      assert junk + ([STX] + rest) == junk[..i] + ([junk[i]] + more);
      SkipsNoise(junk[..i], junk[i], more);
      assert junk[i] in junk;
      SkipsToStx(junk[i + 1..], rest);
    } else {
      assert junk[..i] == junk;
      SkipsNoise(junk, STX, rest);
    }
  }

  lemma ControlStx()
    ensures IsControl(STX)
  {
  }

  /** The verdict on an attempt, among whatever else comes over the line: behind the first STX the first control
      character decides, and only ACK_OK accepts. */
  lemma VerdictIs(junk: seq<byte>, noise: seq<byte>, c: byte, more: seq<byte>)
    requires STX !in junk && (forall b :: b in noise ==> !IsControl(b)) && IsControl(c)
    ensures var input := junk + ([STX] + (noise + ([c] + more)));
            && Verdicts(input) == (if c == ACK_OK then [true] else [false] + Verdicts(more))
            && Leftover(input) == (if c == ACK_OK then more else Leftover(more))
  {
    SkipsToStx(junk, noise + ([c] + more));
    SkipsNoise(noise, c, more);
    hide NextControl, AfterStx;
  }

  lemma OneVerdict(ack: byte, more: seq<byte>)
    requires ack == ACK_OK || ack == ACK_NOK
    ensures Verdicts([STX, ack] + more) == if ack == ACK_OK then [true] else [false] + Verdicts(more)
    ensures Leftover([STX, ack] + more) == if ack == ACK_OK then more else Leftover(more)
  {
    VerdictIs([], [], ack, more);
    assert [STX, ack] + more == [] + ([STX] + ([] + ([ack] + more)));
  }

  /** However often each block is rejected, if only it is accepted in the end, all get through. */
  lemma {:induction false} AnyPattern(pattern: seq<nat>)
    ensures Served(Replies(pattern), |pattern|)
  {
    if pattern != [] {
      var n, rest := pattern[0], Replies(pattern[1..]);
      OneReply(n, rest);
      assert Verdicts(Reply(n) + rest)[n];
      hide Verdicts, Leftover, Reply;
      AnyPattern(pattern[1..]);
    }
  }

  /** A block is accepted exactly when one of the verdicts on it is. */
  lemma AcceptedByFlags(block: seq<byte>, log: seq<Attempt>, ok: bool)
    requires |block| <= BLOCK && Attempts(block, log, ok)
    ensures ok <==> true in Flags(log)
    ensures !ok ==> Accepted(log) == []
  {
    hide FrameOf;
    var flags := Flags(log);
    if ok {
      assert flags[|log| - 1];
    } else {
      assert forall i :: 0 <= i < |log| ==> !log[i].accepted;
      NoneAccepted(log);
    }
  }

  lemma {:induction false} NoneAccepted(log: seq<Attempt>)
    requires forall i :: 0 <= i < |log| ==> !log[i].accepted
    ensures Accepted(log) == []
  {
    if log != [] {
      NoneAccepted(log[1..]);
    }
  }

  /** Send block k and note what happened. */
  method SendNext(image: seq<byte>, k: nat, block: seq<byte>, input: seq<byte>, log0: seq<Attempt>)
    returns (log: seq<Attempt>, rest: seq<byte>, ok: bool)
    requires k < |Blocks(image)| && block == Blocks(image)[k] && |block| <= BLOCK
    requires AllRight(image, log0)
    requires forall b :: b in Blocks(image)[..k] ==> |b| <= BLOCK
    requires Accepted(log0) == FramesOf(Blocks(image)[..k])
    ensures AllRight(image, log) && rest == Leftover(input)
    ensures forall b :: b in Blocks(image)[..k + 1] ==> |b| <= BLOCK
    ensures ok <==> true in Verdicts(input)
    ensures Accepted(log) == FramesOf(Blocks(image)[..if ok then k + 1 else k])
  {
    hide Pad, Checksum, FrameOf, Verdicts, Leftover;
    var more;
    more, rest, ok := SendBlock(block, input);
    log := log0 + more;
    FramesOfNext(Blocks(image), k);
    forall a | a in log ensures exists b :: b in Blocks(image) && |b| <= BLOCK && a.frame == FrameOf(b) {
      if a !in log0 {
        var i :| 0 <= i < |more| && more[i] == a;
        assert block in Blocks(image);
      }
    }
    AcceptedByFlags(block, more, ok);
    AcceptedAppend(log0, more);
    if ok {
      AcceptedBlock(block, more);
    } else {
      assert Accepted(log0) + [] == Accepted(log0);
    }
  }

  /** The block-splitting loop of main, for any image and any replies: the blocks that get through are accepted, in
      order, each once; all of them exactly when the replies accept each in the end, and then they are the image. */
  method Download(image: seq<byte>, input: seq<byte>) returns (log: seq<Attempt>, rest: seq<byte>, ok: bool)
    ensures AllRight(image, log)
    ensures ok <==> Served(input, |Blocks(image)|)
    ensures var sent := Through(input, |Blocks(image)|);
            && (forall b :: b in Blocks(image)[..sent] ==> |b| <= BLOCK)
            && Accepted(log) == FramesOf(Blocks(image)[..sent])
    ensures ok ==> Data(Accepted(log)) == PadImage(image)
  {
    hide Pad, Checksum, FrameOf, Blocks, FramesOf, Data, PadImage, Accepted, Verdicts, Leftover, Served, Through,
      LeftAfter;
    log, rest, ok := [], input, true;
    var at, toSend, sent := 0, |image| / BLOCK, 0;
    assert Blocks(image)[..0] == [];
    NothingYet();
    StartServed(input);
    BlockCount(image);
    while toSend > 0
      invariant 0 <= toSend && sent + toSend == |image| / BLOCK && at == sent * BLOCK && 0 <= sent <= |Blocks(image)|
      invariant AllRight(image, log) && (forall b :: b in Blocks(image)[..sent] ==> |b| <= BLOCK)
      invariant Accepted(log) == FramesOf(Blocks(image)[..sent])
      invariant Served(input, sent) && rest == LeftAfter(input, sent) && ok
    {
      assert (sent + 1) * BLOCK <= |image| / BLOCK * BLOCK <= |image|;
      BlockAt(image, sent);
      ServedOneMore(input, sent);
      log, rest, ok := SendNext(image, sent, image[at..at + BLOCK], rest, log);
      if !ok {
        NotServed(input, sent, |Blocks(image)|);
        return;
      }
      at := at + BLOCK;
      toSend := toSend - 1;
      sent := sent + 1;
    }
    if |image| % BLOCK != 0 {
      BlockAt(image, sent);
      ServedOneMore(input, sent);
      log, rest, ok := SendNext(image, sent, image[at..], rest, log);
      if !ok {
        NotServed(input, sent, |Blocks(image)|);
        return;
      }
      sent := sent + 1;
    }
    assert sent == |Blocks(image)| && Through(input, sent) == sent;
    assert Blocks(image)[..sent] == Blocks(image);
    DataOfBlocks(image);
  }

  lemma StartServed(input: seq<byte>)
    ensures Served(input, 0) && LeftAfter(input, 0) == input
  {
  }

  lemma NotServed(input: seq<byte>, k: nat, n: nat)
    requires k < n && Served(input, k) && !Served(input, k + 1)
    ensures Through(input, n) == k && !Served(input, n)
  {
    StuckAt(input, k, n);
    hide Through;
    assert Through(input, n) == n <==> Served(input, n);
  }

  lemma NothingYet()
    ensures Accepted([]) == FramesOf([])
  {
  }
}
