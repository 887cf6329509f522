/**
 * NTCP2 frames: one or more blocks, each a type, a length and contents.
 *
 * A router info is carried as bytes; its own format is not modelled. Padding is
 * random, so writing a block takes the random bytes as an argument.
 */
module Ntcp2Frame {
  import opened Bytes
  import opened Parsing
  import opened I2np
  import opened I2npRoundTrip

  datatype Block =
    | DateTime(ts: nat)
    | Options(options: seq<byte>)
    | RouterInfo(info: seq<byte>, flood: bool)
    | I2npMessage(msg: Message)
    | Termination(validReceived: nat, rsn: byte, addlData: seq<byte>)
    | Padding(size: nat)
    | Unknown(blk: byte, data: seq<byte>)

  /** The blocks of a frame with the random bytes drawn for each. */
  datatype Packet = Packet(blocks: seq<Block>, pads: seq<seq<byte>>)

  // ---------- writing ----------

  function TypeByte(b: Block): (t: byte)
  {
    match b
    case DateTime(_) => 0
    case Options(_) => 1
    case RouterInfo(_, _) => 2
    case I2npMessage(_) => 3
    case Termination(_, _, _) => 4
    case Padding(_) => 254
    case Unknown(blk, _) => blk
  }

  function Contents(sum: Checksum, b: Block, pad: seq<byte>): (v: seq<byte>)
  {
    match b
    case DateTime(ts) => ToBE(ts, 4)
    case Options(options) => options
    case RouterInfo(info, flood) => [Flag(flood, 1)] + info
    case I2npMessage(msg) => Ntcp2MessageBytes(sum, msg)
    case Termination(n, rsn, addl) => ToBE(n, 8) + ([rsn] + addl)
    case Padding(_) => pad
    case Unknown(_, data) => data
  }

  function BlockBytes(sum: Checksum, b: Block, pad: seq<byte>): (r: seq<byte>)
    ensures r != []
  {
    var v := Contents(sum, b, pad);
    [TypeByte(b)] + (ToBE(|v|, 2) + v)
  }

  function BlocksBytes(sum: Checksum, bs: seq<Block>, pads: seq<seq<byte>>): (r: seq<byte>)
    requires |bs| == |pads|
  {
    if bs == [] then [] else BlockBytes(sum, bs[0], pads[0]) + BlocksBytes(sum, bs[1..], pads[1..])
  }

  /** The values the fields can hold, contents that the length field can count, and
      padding of the size asked for. */
  ghost predicate BlockOk(sum: Checksum, b: Block, pad: seq<byte>)
  {
    && |Contents(sum, b, pad)| < 0x1_0000
    && match b
       case DateTime(ts) => ts < 0x1_0000_0000
       case I2npMessage(m) => m.id < Pow(256, 4) && m.expiration / 1000 < Pow(256, 4) && PayloadOk(sum, m.payload)
       case Termination(n, _, _) => n < Pow(256, 8)
       case Padding(size) => |pad| == size
       case Unknown(blk, _) => blk > 4 && blk != 254
       case _ => true
  }

  ghost predicate BlocksOk(sum: Checksum, bs: seq<Block>, pads: seq<seq<byte>>)
    requires |bs| == |pads|
  {
    forall i :: 0 <= i < |bs| ==> BlockOk(sum, bs[i], pads[i])
  }

  /** What the far end makes of a block: an I2NP message loses the fraction of a
      second of its expiry, everything else is unchanged. */
  function Received(b: Block): (r: Block)
  {
    match b
    case I2npMessage(m) => I2npMessage(m.(expiration := m.expiration / 1000 * 1000))
    case _ => b
  }

  function AllReceived(bs: seq<Block>): (r: seq<Block>)
    ensures |r| == |bs| && forall i :: 0 <= i < |bs| ==> r[i] == Received(bs[i])
  {
    seq(|bs|, i requires 0 <= i < |bs| => Received(bs[i]))
  }

  // ---------- reading ----------

  /** `length_value`: a parser confined to a counted slice; what it leaves over is
      dropped, and wanting more than the slice is a failure. */
  function Confined<T>(inner: Parsed<T>, i: seq<byte>): (r: Parsed<T>)
    ensures r.Done? ==> r.rest == i
  {
    match inner
    case Done(x, _) => Done(x, i)
    case Panicked => Panicked
    case _ => Failed
  }

  function ParseRouterInfo(i: seq<byte>): (r: Parsed<Block>)
  {
    var (flags, i) :- Number(1, i);
    Done(RouterInfo(i, flags % 2 > 0), [])
  }

  function ParseI2np(sum: Checksum, i: seq<byte>): (r: Parsed<Block>)
  {
    var (m, i) :- ParseNtcp2Message(sum, i);
    Done(I2npMessage(m), i)
  }

  /** The subtraction of the nine fixed bytes from the length panics below nine. */
  function ParseTermination(i: seq<byte>): (r: Parsed<Block>)
    ensures r.Done? ==> |r.rest| <= |i|
  {
    var (size, i) :- Number(2, i);
    if size < 9 then Panicked
    else
      var (n, i) :- Number(8, i);
      var (rsn, i) :- Take(1, i);
      var (addl, i) :- Take(size - 9, i);
      Done(Termination(n, rsn[0], addl), i)
  }

  function ParseBlock(sum: Checksum, i: seq<byte>): (r: Parsed<Block>)
    ensures r.Done? ==> |r.rest| < |i|
  {
    var (t, i) :- Take(1, i);
    match t[0]
    case 0 =>
      var (_, i) :- Tag([0, 4], i);
      var (ts, i) :- Number(4, i);
      Done(DateTime(ts), i)
    case 1 =>
      var (options, i) :- Counted(2, i);
      Done(Options(options), i)
    case 2 =>
      var (v, i) :- Counted(2, i);
      Confined(ParseRouterInfo(v), i)
    case 3 =>
      var (v, i) :- Counted(2, i);
      Confined(ParseI2np(sum, v), i)
    case 4 => ParseTermination(i)
    case 254 =>
      var (size, i) :- Number(2, i);
      var (_, i) :- Take(size, i);
      Done(Padding(size), i)
    case blk =>
      var (data, i) :- Counted(2, i);
      Done(Unknown(blk, data), i)
  }

  /** Blocks until one cannot be read; the rest of the input is left. */
  function ParseBlocks(sum: Checksum, i: seq<byte>): (r: Parsed<seq<Block>>)
    decreases |i|
  {
    match ParseBlock(sum, i)
    case Done(b, i) =>
      var (bs, i) :- ParseBlocks(sum, i);
      Done([b] + bs, i)
    case Panicked => Panicked
    case _ => Done([], i)
  }

  /** At least one block. */
  function ParseFrame(sum: Checksum, i: seq<byte>): (r: Parsed<seq<Block>>)
  {
    var (bs, i) :- ParseBlocks(sum, i);
    if bs == [] then Failed else Done(bs, i)
  }

  // ---------- what is written is read back ----------

  lemma U16(n: nat)
    requires n < 0x1_0000
    ensures n < Pow(256, 2)
  {
    Widths();
  }

  lemma CountedContents(v: seq<byte>, rest: seq<byte>)
    requires |v| < 0x1_0000
    ensures Counted(2, ToBE(|v|, 2) + (v + rest)) == Done(v, rest)
  {
    U16(|v|);
    CountedBack(v, 2, rest);
  }

  lemma DateTimeBack(sum: Checksum, ts: nat, pad: seq<byte>, rest: seq<byte>)
    requires ts < 0x1_0000_0000
    ensures ParseBlock(sum, BlockBytes(sum, DateTime(ts), pad) + rest) == Done(DateTime(ts), rest)
  {
    hide Number, Counted, ToBE, Pow;
    var t2 := ToBE(ts, 4) + rest;
    var t1 := [0, 4] + t2;
    assert ToBE(4, 2) == [0, 4] by { FromThenTo([0, 4]); FromTwo(); }
    assert BlockBytes(sum, DateTime(ts), pad) + rest == [0] + t1;
    TakeBack([0], t1);
    TagBack([0, 4], t2);
    Widths();
    NumberBack(ts, 4, rest);
  }

  lemma FromTwo()
    ensures FromBE([0, 4]) == 4
  {
    assert [0, 4][..1] == [0];
  }

  lemma TerminationBack(n: nat, rsn: byte, addl: seq<byte>, rest: seq<byte>)
    requires n < Pow(256, 8) && 9 + |addl| < 0x1_0000
    ensures ParseTermination(ToBE(9 + |addl|, 2) + (ToBE(n, 8) + ([rsn] + addl) + rest))
         == Done(Termination(n, rsn, addl), rest)
  {
    hide Number, ToBE, Pow;
    var t3 := addl + rest;
    var t2 := [rsn] + t3;
    var t1 := ToBE(n, 8) + t2;
    assert ToBE(n, 8) + ([rsn] + addl) + rest == t1;
    U16(9 + |addl|);
    NumberBack(9 + |addl|, 2, t1);
    NumberBack(n, 8, t2);
    TakeBack([rsn], t3);
    TakeBack(addl, rest);
  }

  lemma BlockBack(sum: Checksum, b: Block, pad: seq<byte>, rest: seq<byte>)
    requires BlockOk(sum, b, pad)
    ensures ParseBlock(sum, BlockBytes(sum, b, pad) + rest) == Done(Received(b), rest)
  {
    hide Number, Counted, ToBE, Pow, Tag, ParseTermination, ParseNtcp2Message, Ntcp2MessageBytes, PayloadOk;
    var v := Contents(sum, b, pad);
    var t2 := v + rest;
    var t1 := ToBE(|v|, 2) + t2;
    assert BlockBytes(sum, b, pad) + rest == [TypeByte(b)] + t1;
    TakeBack([TypeByte(b)], t1);
    CountedContents(v, rest);
    match b
    case DateTime(ts) => DateTimeBack(sum, ts, pad, rest);
    case RouterInfo(info, flood) => ByteBack(Flag(flood, 1), info);
    case I2npMessage(m) =>
      Ntcp2MessageBack(sum, m, []);
      assert v + [] == v;
    case Termination(n, rsn, addl) => TerminationBack(n, rsn, addl, rest);
    case Padding(size) =>
      U16(size);
      NumberBack(size, 2, t2);
      TakeBack(pad, rest);
    case _ =>
  }

  lemma {:induction false} BlocksBack(sum: Checksum, bs: seq<Block>, pads: seq<seq<byte>>)
    requires |bs| == |pads| && BlocksOk(sum, bs, pads)
    ensures ParseBlocks(sum, BlocksBytes(sum, bs, pads)) == Done(AllReceived(bs), [])
  {
    hide ParseBlock, BlockBytes, BlockOk, Received;
    if bs == [] {
      NoBlock(sum);
    } else {
      var rest := BlocksBytes(sum, bs[1..], pads[1..]);
      BlockBack(sum, bs[0], pads[0], rest);
      BlocksBack(sum, bs[1..], pads[1..]);
      assert AllReceived(bs) == [Received(bs[0])] + AllReceived(bs[1..]);
    }
  }

  lemma NoBlock(sum: Checksum)
    ensures ParseBlock(sum, []) == Incomplete
  {}

  /** Every frame of well-formed blocks is read back block for block; only the empty
      frame, which can be written, is refused by the reader. */
  lemma FrameBack(sum: Checksum, bs: seq<Block>, pads: seq<seq<byte>>)
    requires |bs| == |pads| && BlocksOk(sum, bs, pads)
    ensures ParseFrame(sum, BlocksBytes(sum, bs, pads)) == if bs == [] then Failed else Done(AllReceived(bs), [])
  {
    hide ParseBlocks, BlocksBytes, BlockOk;
    BlocksBack(sum, bs, pads);
  }
}
