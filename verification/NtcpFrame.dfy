/**
 * NTCP data-phase frames: a size, an I2NP message or a timestamp, zero padding
 * to a multiple of 16 bytes, and an Adler-32 checksum.
 */
module NtcpFrame {
  import opened Bytes
  import opened Parsing
  import opened I2np
  import opened I2npWriter
  import opened I2npRoundTrip

  const MTU: nat := 16384

  datatype Frame = Standard(msg: Message) | TimeSync(ts: nat)

  // ---------- padding ----------

  function PaddingLen(n: nat): (p: nat)
    ensures p < 16 && (n + p) % 16 == 0
  {
    (16 - n % 16) % 16
  }

  function Zeros(n: nat): (z: seq<byte>)
    ensures |z| == n
  {
    seq(n, _ => 0)
  }

  // ---------- Adler-32 ----------

  function Sum(d: seq<byte>): (s: nat)
  {
    if d == [] then 0 else d[0] + Sum(d[1..])
  }

  /** The sum of d[i] * (|d| - i). */
  function WeightedSum(d: seq<byte>): (s: nat)
  {
    if d == [] then 0 else |d| * d[0] + WeightedSum(d[1..])
  }

  /** The checksum of section 2.2 of RFC 1950 in closed form. */
  function Adler32(d: seq<byte>): (cs: seq<byte>)
    ensures |cs| == 4
  {
    ToBE((|d| + WeightedSum(d)) % 65521, 2) + ToBE((1 + Sum(d)) % 65521, 2)
  }

  lemma {:induction false} SumsOfExtended(d: seq<byte>, x: byte)
    ensures Sum(d + [x]) == Sum(d) + x
    ensures WeightedSum(d + [x]) == WeightedSum(d) + Sum(d) + x
  {
    if d == [] {
      assert d + [x] == [x];
      assert [x][1..] == [];
    } else {
      assert (d + [x])[1..] == d[1..] + [x];
      SumsOfExtended(d[1..], x);
      assert (|d| + 1) * d[0] == |d| * d[0] + d[0];
    }
  }

  lemma ModAdd(a: nat, x: nat)
    ensures (a % 65521 + x) % 65521 == (a + x) % 65521
  {}

  lemma ModAddMod(a: nat, b: nat)
    ensures (a % 65521 + b % 65521) % 65521 == (a + b) % 65521
  {}

  /** `adler`: the running sums never leave 32 bits and end in the closed form. */
  method Adler(input: seq<byte>) returns (cs: seq<byte>)
    ensures cs == Adler32(input)
  {
    hide Sum, WeightedSum, ToBE;
    var s1: int, s2: int := 1, 0;
    NoSums();
    for i := 0 to |input|
      invariant 0 <= s1 < 65521 && 0 <= s2 < 65521
      invariant s1 == (1 + Sum(input[..i])) % 65521
      invariant s2 == (i + WeightedSum(input[..i])) % 65521
    {
      SumsOfExtended(input[..i], input[i]);
      assert input[..i + 1] == input[..i] + [input[i]];
      ModAdd(1 + Sum(input[..i]), input[i]);
      s1 := s1 + input[i];
      assert s1 < 0x1_0000_0000;
      s1 := s1 % 65521;
      ModAddMod(i + WeightedSum(input[..i]), 1 + Sum(input[..i + 1]));
      s2 := s2 + s1;
      assert s2 < 0x1_0000_0000;
      s2 := s2 % 65521;
    }
    assert input[..|input|] == input;
    TwoBytes(s2);
    TwoBytes(s1);
    cs := [s2 / 256 % 256, s2 % 256, s1 / 256 % 256, s1 % 256];
  }

  lemma NoSums()
    ensures Sum([]) == 0 && WeightedSum([]) == 0
  {}

  lemma TwoBytes(n: nat)
    ensures ToBE(n, 2) == [n / 256 % 256, n % 256]
  {
    assert ToBE(n, 1) == [n % 256] by { assert ToBE(n / 256, 0) == []; }
    assert ToBE(n / 256, 1) == [n / 256 % 256] by { assert ToBE(n / 256 / 256, 0) == []; }
  }

  // ---------- writing ----------

  /** A frame without its checksum. */
  function FrameBody(sum: Checksum, f: Frame): (b: seq<byte>)
    ensures (|b| + 4) % 16 == 0 && |b| >= 12
  {
    match f
    case Standard(m) =>
      var msg := MessageBytes(sum, m);
      ToBE(|msg|, 2) + (msg + Zeros(PaddingLen(|msg| + 6)))
    case TimeSync(ts) => ToBE(0, 2) + (ToBE(ts, 4) + Zeros(6))
  }

  function FrameBytes(sum: Checksum, f: Frame): (b: seq<byte>)
    ensures |b| % 16 == 0 && |b| >= 16
  {
    FrameBody(sum, f) + Adler32(FrameBody(sum, f))
  }

  /** The frames that can be encoded and read back. */
  ghost predicate FrameOk(sum: Checksum, f: Frame)
  {
    match f
    case Standard(m) => MessageOk(sum, m) && |MessageBytes(sum, m)| <= 16378
    case TimeSync(ts) => ts < Pow(256, 4)
  }

  /** `gen_frame` into a buffer with the given room. */
  method WriteFrame(w: Writer, sum: Checksum, f: Frame) returns (ok: bool)
    modifies w
    ensures ok <==> |old(w.out)| + |FrameBytes(sum, f)| <= w.capacity
    ensures ok ==> w.out == old(w.out) + FrameBytes(sum, f)
  {
    hide FrameBody, Adler32;
    var start := |w.out|;
    match f {
      case Standard(m) => ok := WriteStandard(w, sum, m);
      case TimeSync(ts) => ok := WriteTimestamp(w, sum, ts);
    }
    if !ok { return; }
    assert w.out[start..] == FrameBody(sum, f);
    var cs := Adler(w.out[start..]);
    ok := w.Put(cs);
  }

  method WriteStandard(w: Writer, sum: Checksum, m: Message) returns (ok: bool)
    modifies w
    ensures ok <==> |old(w.out)| + |FrameBody(sum, Standard(m))| <= w.capacity
    ensures ok ==> w.out == old(w.out) + FrameBody(sum, Standard(m))
  {
    hide MessageBytes, ToBE;
    var start := |w.out|;
    ghost var before, msg := w.out, MessageBytes(sum, m);
    ok := w.Skip(2);
    if !ok { return; }
    var msgStart := |w.out|;
    ok := WriteMessage(w, sum, m);
    if !ok { return; }
    var msgEnd := |w.out|;
    assert w.out == before + ([0, 0] + msg);
    GapFilled(before, [0, 0], msg, ToBE(msgEnd - msgStart, 2));
    w.Patch(start, ToBE(msgEnd - msgStart, 2));
    ok := w.Skip(PaddingLen(msgEnd - msgStart + 6));
    if !ok { return; }
    assert w.out == before + (ToBE(|msg|, 2) + (msg + Zeros(PaddingLen(|msg| + 6))));
  }

  method WriteTimestamp(w: Writer, sum: Checksum, ts: nat) returns (ok: bool)
    modifies w
    ensures ok <==> |old(w.out)| + |FrameBody(sum, TimeSync(ts))| <= w.capacity
    ensures ok ==> w.out == old(w.out) + FrameBody(sum, TimeSync(ts))
  {
    hide ToBE;
    ok := w.Put(ToBE(0, 2));
    if !ok { return; }
    ok := w.Put(ToBE(ts, 4));
    if !ok { return; }
    ok := w.Skip(6);
  }

  /** A standard frame fits the MTU exactly when its message has at most 16378
      bytes; a timestamp frame always does. */
  lemma FrameFits(sum: Checksum, f: Frame)
    ensures |FrameBytes(sum, f)| <= MTU <==> (f.Standard? ==> |MessageBytes(sum, f.msg)| <= 16378)
  {
    hide MessageBytes, ToBE, Adler32;
  }

  // ---------- reading ----------

  /** The bytes that the checksum of a frame of this size covers. */
  function Covered(size: nat): (n: nat)
  {
    if size == 0 then 12 else size + 2 + PaddingLen(size + 6)
  }

  /** `get_adler`: the checksum of the frame at the start of the input, which is not
      consumed. The source adds in 16 bits; sizes for which that overflows panic. */
  function ExpectedAdler(i: seq<byte>): (r: Parsed<seq<byte>>)
    ensures r.Done? ==> r.rest == i
  {
    var (size, _) :- Number(2, i);
    if size + 6 > 0xffff then Panicked
    else
      var (data, _) :- Take(Covered(size), i);
      Done(Adler32(data), i)
  }

  /** `length_value(success(n), message)`. */
  function ConfinedMessage(sum: Checksum, n: nat, i: seq<byte>): (r: Parsed<Message>)
    ensures r.Done? ==> |i| >= n && r.rest == i[n..]
  {
    var (body, i) :- Take(n, i);
    match ParseMessage(sum, body)
    case Done(m, _) => Done(m, i)
    case Incomplete => Failed
    case Failed => Failed
    case Panicked => Panicked
  }

  /** `frame`. */
  function ParseFrame(sum: Checksum, i: seq<byte>): (r: Parsed<Frame>)
    ensures r.Done? ==> |r.rest| <= |i|
  {
    var (cs, i) :- ExpectedAdler(i);
    var (size, i) :- Number(2, i);
    if size == 0 then
      var (ts, i) :- Number(4, i);
      var (_, i) :- Take(6, i);
      var (_, i) :- Tag(cs, i);
      Done(TimeSync(ts), i)
    else
      var (msg, i) :- ConfinedMessage(sum, size, i);
      var (_, i) :- Take(PaddingLen(size + 6), i);
      var (_, i) :- Tag(cs, i);
      Done(Standard(msg), i)
  }

  /** The size field of a frame. */
  function SizeField(sum: Checksum, f: Frame): (n: nat)
  {
    if f.Standard? then |MessageBytes(sum, f.msg)| else 0
  }

  lemma BodyIsCovered(sum: Checksum, f: Frame)
    requires FrameOk(sum, f)
    ensures SizeField(sum, f) + 6 <= 0xffff && |FrameBody(sum, f)| == Covered(SizeField(sum, f))
    ensures FrameBody(sum, f)[..2] == ToBE(SizeField(sum, f), 2)
    ensures f.Standard? ==> SizeField(sum, f) >= 16
  {
    hide ToBE;
  }

  lemma SizeReads(sum: Checksum, f: Frame, i: seq<byte>)
    requires FrameOk(sum, f) && |i| >= 2 && i[..2] == FrameBody(sum, f)[..2]
    ensures Number(2, i) == Done(SizeField(sum, f), i[2..])
  {
    hide FrameBody, MessageBytes;
    BodyIsCovered(sum, f);
    Widths();
    NumberBack(SizeField(sum, f), 2, i[2..]);
    assert i == i[..2] + i[2..];
  }

  lemma AdlerReads(sum: Checksum, f: Frame, rest: seq<byte>)
    requires FrameOk(sum, f)
    ensures var i := FrameBytes(sum, f) + rest; ExpectedAdler(i) == Done(Adler32(FrameBody(sum, f)), i)
  {
    hide FrameBody, Adler32, Number, Covered;
    var b, t := FrameBody(sum, f), Adler32(FrameBody(sum, f)) + rest;
    var i := FrameBytes(sum, f) + rest;
    assert i == b + t;
    BodyIsCovered(sum, f);
    assert i[..2] == b[..2];
    SizeReads(sum, f, i);
    TakeBack(b, t);
  }

  /** A frame is read back from its bytes, whatever follows them. */
  lemma FrameBack(sum: Checksum, f: Frame, rest: seq<byte>)
    requires FrameOk(sum, f)
    ensures ParseFrame(sum, FrameBytes(sum, f) + rest) == Done(f, rest)
  {
    hide ExpectedAdler, Adler32, Number, Take, Tag, ToBE, Pow, MessageBytes, ParseMessage;
    AdlerReads(sum, f, rest);
    BodyIsCovered(sum, f);
    var i, cs := FrameBytes(sum, f) + rest, Adler32(FrameBody(sum, f));
    assert i[..2] == FrameBody(sum, f)[..2];
    SizeReads(sum, f, i);
    TagBack(cs, rest);
    match f
    case TimeSync(ts) =>
      var t := Zeros(6) + (cs + rest);
      assert i[2..] == ToBE(ts, 4) + t;
      NumberBack(ts, 4, t);
      TakeBack(Zeros(6), cs + rest);
    case Standard(m) =>
      var msg := MessageBytes(sum, m);
      var pad := Zeros(PaddingLen(|msg| + 6));
      var t := pad + (cs + rest);
      assert i[2..] == msg + t;
      TakeBack(msg, t);
      MessageBack(sum, m, []);
      assert msg + [] == msg;
      TakeBack(pad, cs + rest);
  }

  /** A whole number of blocks of a frame, but not all of it, asks for more. */
  lemma PrefixIncomplete(sum: Checksum, f: Frame, n: nat)
    requires FrameOk(sum, f) && n + 16 <= |FrameBytes(sum, f)|
    ensures ParseFrame(sum, FrameBytes(sum, f)[..n]) == Incomplete
  {
    hide FrameBody, Adler32, MessageBytes;
    var i := FrameBytes(sum, f)[..n];
    BodyIsCovered(sum, f);
    if n >= 2 {
      assert i[..2] == FrameBody(sum, f)[..2];
      SizeReads(sum, f, i);
    }
  }

  // ---------- sequences of frames ----------

  function FramesBytes(sum: Checksum, fs: seq<Frame>): (b: seq<byte>)
  {
    if fs == [] then [] else FrameBytes(sum, fs[0]) + FramesBytes(sum, fs[1..])
  }

  ghost predicate FramesOk(sum: Checksum, fs: seq<Frame>)
  {
    forall i :: 0 <= i < |fs| ==> FrameOk(sum, fs[i])
  }

  lemma {:induction false} FramesWhole(sum: Checksum, fs: seq<Frame>)
    ensures |FramesBytes(sum, fs)| % 16 == 0
  {
    hide FrameBytes;
    if fs != [] { FramesWhole(sum, fs[1..]); }
  }

  lemma {:induction false} FramesConcat(sum: Checksum, a: seq<Frame>, b: seq<Frame>)
    ensures FramesBytes(sum, a + b) == FramesBytes(sum, a) + FramesBytes(sum, b)
  {
    hide FrameBytes;
    if a == [] {
      assert a + b == b;
    } else {
      FramesConcat(sum, a[1..], b);
      assert (a + b)[1..] == a[1..] + b;
      Assoc(FrameBytes(sum, a[0]), FramesBytes(sum, a[1..]), FramesBytes(sum, b));
    }
  }

  /** What a frame has after its size and body: the checksum, read last. */
  lemma TrailerIs(i: seq<byte>, n: nat, cs: seq<byte>)
    requires n <= |i| && |cs| == 4 && Tag(cs, i[n..]).Done?
    ensures n + 4 <= |i| && i[n..n + 4] == cs && Tag(cs, i[n..]).rest == i[n + 4..]
  {
    assert i[n..][..4] == i[n..n + 4];
  }

  lemma ChecksumRead(i: seq<byte>)
    requires ExpectedAdler(i).Done?
    ensures |i| >= 2 && var n := Covered(FromBE(i[..2])); n <= |i| && ExpectedAdler(i).value == Adler32(i[..n])
  {
    hide FromBE, Adler32;
  }

  lemma BodyRead(sum: Checksum, i: seq<byte>)
    requires ParseFrame(sum, i).Done?
    ensures ExpectedAdler(i).Done? && |i| >= 2
    ensures var cs, n := ExpectedAdler(i).value, Covered(FromBE(i[..2]));
            n <= |i| && Tag(cs, i[n..]).Done? && ParseFrame(sum, i).rest == Tag(cs, i[n..]).rest
  {
    hide FromBE, ExpectedAdler, ConfinedMessage, Tag, PaddingLen;
    var size, t := FromBE(i[..2]), i[2..];
    if size > 0 {
      assert t[size..][PaddingLen(size + 6)..] == i[Covered(size)..];
    } else {
      assert t[4..][6..] == i[12..];
    }
  }

  /** Whatever the input: a frame accepted is a whole number of blocks that end in the
      Adler-32 checksum of all that comes before it. */
  lemma AcceptedIsIntact(sum: Checksum, i: seq<byte>)
    requires ParseFrame(sum, i).Done?
    ensures var n := |i| - |ParseFrame(sum, i).rest|;
            && 16 <= n <= |i| && n % 16 == 0 && ParseFrame(sum, i).rest == i[n..]
            && i[n - 4..n] == Adler32(i[..n - 4])
  {
    hide FromBE, ParseFrame, ExpectedAdler, Adler32, Tag;
    BodyRead(sum, i);
    ChecksumRead(i);
    TrailerIs(i, Covered(FromBE(i[..2])), ExpectedAdler(i).value);
  }
}
