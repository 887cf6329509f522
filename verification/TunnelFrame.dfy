/**
 * The plaintext of a TunnelData message: fragments of I2NP messages with delivery
 * instructions, behind a checksum and enough padding to fill 1008 bytes.
 */
module TunnelFrame {
  import opened Bytes
  import opened Parsing
  import opened I2np
  import opened I2npRoundTrip
  import opened Cbc
  import opened TunnelCrypto

  datatype Delivery = Local | ToTunnel(tid: nat, to: seq<byte>) | ToRouter(to: seq<byte>)

  datatype Instructions =
    | First(delivery: Delivery, msgId: Option<nat>)
    | FollowOn(fragment: byte, last: bool, id: nat)

  datatype Fragment = Fragment(di: Instructions, data: seq<byte>)

  type u32 = x: int | 0 <= x < 0x1_0000_0000

  /** The first four bytes of the hash of a message and its IV. */
  type Checksum4 = (seq<byte>, seq<byte>) -> u32

  // ---------- sizes ----------

  /** `TunnelMessageDeliveryInstructions::byte_len`. */
  function InstructionsLen(di: Instructions): (n: nat)
  {
    match di
    case First(delivery, msgId) =>
      1 + (match delivery case Local => 0 case ToTunnel(_, _) => 36 case ToRouter(_) => 32)
      + if msgId.Some? then 4 else 0
    case FollowOn(_, _, _) => 5
  }

  /** `TunnelMessage::byte_len`. */
  function ByteLen(fs: seq<Fragment>): (n: nat)
  {
    if fs == [] then 0 else InstructionsLen(fs[0].di) + 2 + |fs[0].data| + ByteLen(fs[1..])
  }

  // ---------- writing ----------

  function DeliveryCode(d: Delivery): (t: nat)
    ensures t < 3
  {
    match d case Local => 0 case ToTunnel(_, _) => 1 case ToRouter(_) => 2
  }

  function DeliveryBytes(d: Delivery): (b: seq<byte>)
  {
    match d
    case Local => []
    case ToTunnel(tid, to) => ToBE(tid, 4) + to
    case ToRouter(to) => to
  }

  function FirstFlags(d: Delivery, fragmented: bool): (x: byte)
  {
    DeliveryCode(d) * 32 + if fragmented then 8 else 0
  }

  /** Six bits are kept of the fragment number. */
  function FollowOnFlags(fragment: byte, last: bool): (x: byte)
  {
    128 + fragment % 64 * 2 + if last then 1 else 0
  }

  function DiBytes(di: Instructions): (b: seq<byte>)
  {
    match di
    case First(d, msgId) => [FirstFlags(d, msgId.Some?)] + (DeliveryBytes(d) + OptionalU32(msgId))
    case FollowOn(fragment, last, id) => [FollowOnFlags(fragment, last)] + ToBE(id, 4)
  }

  function FragmentBytes(f: Fragment): (b: seq<byte>)
    ensures b != []
  {
    DiBytes(f.di) + (ToBE(|f.data|, 2) + f.data)
  }

  function FragmentsBytes(fs: seq<Fragment>): (b: seq<byte>)
  {
    if fs == [] then [] else FragmentBytes(fs[0]) + FragmentsBytes(fs[1..])
  }

  function Ones(n: nat): (b: seq<byte>)
    ensures |b| == n && forall i :: 0 <= i < n ==> b[i] == 1
  {
    seq(n, i => 1)
  }

  /** The whole plaintext; none where the padding length would be negative, which
      panics. */
  function TunnelMessageBytes(cs: Checksum4, iv: seq<byte>, fs: seq<Fragment>): (r: Option<seq<byte>>)
    ensures r.Some? <==> ByteLen(fs) <= 1003
  {
    if ByteLen(fs) > 1003 then None
    else
      var body := FragmentsBytes(fs);
      Some(iv + (ToBE(cs(body, iv), 4) + (Ones(1003 - ByteLen(fs)) + ([0] + body))))
  }

  // ---------- reading ----------

  function ParseDelivery(kind: nat, i: seq<byte>): (r: Parsed<Delivery>)
    ensures r.Done? ==> |r.rest| <= |i|
  {
    match kind
    case 0 => Done(Local, i)
    case 1 =>
      var (tid, i) :- Number(4, i);
      var (to, i) :- Take(32, i);
      Done(ToTunnel(tid, to), i)
    case 2 =>
      var (to, i) :- Take(32, i);
      Done(ToRouter(to), i)
    case _ => Failed
  }

  /** The top bit of the flags tells the two kinds of instructions apart. */
  function ParseDi(i: seq<byte>): (r: Parsed<Instructions>)
    ensures r.Done? ==> |r.rest| < |i|
  {
    var (flags, i) :- Take(1, i);
    var x := flags[0];
    if x / 128 == 0 then
      var (d, i) :- ParseDelivery(x / 32 % 4, i);
      var (msgId, i) :- ParseOptionalU32(x / 8 % 2 > 0, i);
      Done(First(d, msgId), i)
    else
      var (id, i) :- Number(4, i);
      Done(FollowOn(x / 2 % 64, x % 2 > 0, id), i)
  }

  function ParseFragment(i: seq<byte>): (r: Parsed<Fragment>)
    ensures r.Done? ==> |r.rest| < |i|
  {
    var (di, i) :- ParseDi(i);
    var (data, i) :- Counted(2, i);
    Done(Fragment(di, data), i)
  }

  /** Fragments until one cannot be read; the rest of the input is left. */
  function ParseFragments(i: seq<byte>): (r: Parsed<seq<Fragment>>)
    decreases |i|
  {
    match ParseFragment(i)
    case Done(f, i) =>
      var (fs, i) :- ParseFragments(i);
      Done([f] + fs, i)
    case Panicked => Panicked
    case _ => Done([], i)
  }

  /** `take_until` a zero byte. */
  function TakeUntilZero(i: seq<byte>): (r: Parsed<seq<byte>>)
    ensures r.Done? ==> r.value + r.rest == i
  {
    if i == [] then Incomplete
    else if i[0] == 0 then Done([], i)
    else
      var (b, rest) :- TakeUntilZero(i[1..]);
      Done([i[0]] + b, rest)
  }

  /** `tunnel_message`. More than 1003 bytes of padding make a length negative, which
      panics. */
  function ParseTunnelMessage(cs: Checksum4, i: seq<byte>): (r: Parsed<seq<Fragment>>)
  {
    var (iv, i) :- Take(16, i);
    var (c, i) :- Number(4, i);
    var (padding, i) :- TakeUntilZero(i);
    var (_, i) :- Tag([0], i);
    if |padding| > 1003 then Panicked
    else
      var (body, _) :- Take(1003 - |padding|, i);
      if cs(body, iv) != c then Failed else ParseFragments(i)
  }

  // ---------- what is written is read back ----------

  predicate DeliveryOk(d: Delivery)
  {
    match d
    case Local => true
    case ToTunnel(tid, to) => tid < 0x1_0000_0000 && |to| == 32
    case ToRouter(to) => |to| == 32
  }

  predicate FragmentOk(f: Fragment)
  {
    match f.di
    case First(d, msgId) => DeliveryOk(d) && (msgId.Some? ==> msgId.value < 0x1_0000_0000)
    case FollowOn(_, _, id) => id < 0x1_0000_0000
  }

  ghost predicate FragmentsOk(fs: seq<Fragment>)
  {
    forall i :: 0 <= i < |fs| ==> FragmentOk(fs[i])
  }

  /** What is read for a fragment: its number modulo 64. */
  function AsRead(f: Fragment): (r: Fragment)
  {
    if f.di.FollowOn? then f.(di := f.di.(fragment := f.di.fragment % 64)) else f
  }

  function AllAsRead(fs: seq<Fragment>): (r: seq<Fragment>)
    ensures |r| == |fs| && forall i :: 0 <= i < |fs| ==> r[i] == AsRead(fs[i])
  {
    seq(|fs|, i requires 0 <= i < |fs| => AsRead(fs[i]))
  }

  lemma {:induction false} ByteLenIsLength(fs: seq<Fragment>)
    requires FragmentsOk(fs)
    ensures ByteLen(fs) == |FragmentsBytes(fs)|
  {
    if fs != [] {
      assert FragmentOk(fs[0]);
      ByteLenIsLength(fs[1..]);
    }
  }

  lemma FlagBits(d: Delivery, fragmented: bool, fragment: byte, last: bool)
    ensures var x := FirstFlags(d, fragmented);
            x / 128 == 0 && x / 32 % 4 == DeliveryCode(d) && (x / 8 % 2 > 0 <==> fragmented)
    ensures var x := FollowOnFlags(fragment, last);
            x / 128 == 1 && x / 2 % 64 == fragment % 64 && (x % 2 > 0 <==> last)
  {}

  lemma U32(n: nat)
    requires n < 0x1_0000_0000
    ensures n < Pow(256, 4)
  {
    Widths();
  }

  lemma DeliveryBack(d: Delivery, rest: seq<byte>)
    requires DeliveryOk(d)
    ensures ParseDelivery(DeliveryCode(d), DeliveryBytes(d) + rest) == Done(d, rest)
  {
    hide Number, ToBE, Pow;
    match d
    case Local => assert DeliveryBytes(d) + rest == rest;
    case ToRouter(to) => TakeBack(to, rest);
    case ToTunnel(tid, to) =>
      assert DeliveryBytes(d) + rest == ToBE(tid, 4) + (to + rest);
      U32(tid);
      NumberBack(tid, 4, to + rest);
      TakeBack(to, rest);
  }

  lemma DiBack(f: Fragment, rest: seq<byte>)
    requires FragmentOk(f)
    ensures ParseDi(DiBytes(f.di) + rest) == Done(AsRead(f).di, rest)
  {
    hide Number, ToBE, Pow, ParseDelivery, DeliveryBytes, FirstFlags, FollowOnFlags, OptionalU32;
    match f.di
    case First(d, msgId) =>
      var t2 := OptionalU32(msgId) + rest;
      var t1 := DeliveryBytes(d) + t2;
      assert DiBytes(f.di) + rest == [FirstFlags(d, msgId.Some?)] + t1;
      FlagBits(d, msgId.Some?, 0, false);
      TakeBack([FirstFlags(d, msgId.Some?)], t1);
      DeliveryBack(d, t2);
      if msgId.Some? { U32(msgId.value); }
      OptionalU32Back(msgId, msgId.Some?, rest);
    case FollowOn(fragment, last, id) =>
      var t1 := ToBE(id, 4) + rest;
      assert DiBytes(f.di) + rest == [FollowOnFlags(fragment, last)] + t1;
      FlagBits(Local, false, fragment, last);
      TakeBack([FollowOnFlags(fragment, last)], t1);
      U32(id);
      NumberBack(id, 4, rest);
  }

  lemma FragmentBack(f: Fragment, rest: seq<byte>)
    requires FragmentOk(f) && |f.data| < 0x1_0000
    ensures ParseFragment(FragmentBytes(f) + rest) == Done(AsRead(f), rest)
  {
    hide Counted, ToBE, Pow, ParseDi, DiBytes, FragmentOk;
    var t1 := ToBE(|f.data|, 2) + (f.data + rest);
    assert FragmentBytes(f) + rest == DiBytes(f.di) + t1;
    DiBack(f, t1);
    Widths();
    CountedBack(f.data, 2, rest);
  }

  lemma {:induction false} FragmentsBack(fs: seq<Fragment>)
    requires FragmentsOk(fs) && ByteLen(fs) <= 1003
    ensures ParseFragments(FragmentsBytes(fs)) == Done(AllAsRead(fs), [])
  {
    hide ParseFragment, FragmentBytes, FragmentOk, AsRead;
    if fs == [] {
      NoFragment();
    } else {
      assert FragmentOk(fs[0]);
      FragmentsBack(fs[1..]);
      FragmentBack(fs[0], FragmentsBytes(fs[1..]));
      assert AllAsRead(fs) == [AsRead(fs[0])] + AllAsRead(fs[1..]);
    }
  }

  lemma NoFragment()
    ensures ParseFragment([]) == Incomplete
  {}

  lemma {:induction false} PaddingBack(n: nat, rest: seq<byte>)
    ensures TakeUntilZero(Ones(n) + ([0] + rest)) == Done(Ones(n), [0] + rest)
  {
    var i := Ones(n) + ([0] + rest);
    if n > 0 {
      PaddingBack(n - 1, rest);
      assert i[1..] == Ones(n - 1) + ([0] + rest);
      assert Ones(n) == [1] + Ones(n - 1);
    } else {
      assert i == [0] + rest;
    }
  }

  /** A message that fits is written as exactly 1024 bytes, in which the first zero
      after the checksum is the delimiter, and is read back fragment for fragment;
      fragment numbers come back modulo 64. */
  lemma TunnelMessageBack(cs: Checksum4, iv: seq<byte>, fs: seq<Fragment>)
    requires |iv| == 16 && FragmentsOk(fs) && ByteLen(fs) <= 1003
    ensures |TunnelMessageBytes(cs, iv, fs).value| == 1024
    ensures var d, zero := TunnelMessageBytes(cs, iv, fs).value, 1023 - ByteLen(fs);
            d[zero] == 0 && forall i :: 20 <= i < zero ==> d[i] != 0
    ensures ParseTunnelMessage(cs, TunnelMessageBytes(cs, iv, fs).value) == Done(AllAsRead(fs), [])
  {
    hide Number, ToBE, Pow, TakeUntilZero, ParseFragments, FragmentsBytes, ByteLen, FragmentsOk;
    var body, n := FragmentsBytes(fs), 1003 - ByteLen(fs);
    ByteLenIsLength(fs);
    var t3 := [0] + body;
    var t2 := Ones(n) + t3;
    var t1 := ToBE(cs(body, iv), 4) + t2;
    TakeBack(iv, t1);
    U32(cs(body, iv));
    NumberBack(cs(body, iv), 4, t2);
    PaddingBack(n, body);
    TagBack([0], body);
    assert body + [] == body;
    TakeBack(body, []);
    FragmentsBack(fs);
  }

  /** A message survives any number of hops: written at one end of a tunnel, put
      through every hop's layer and peeled at the other end, it is read back exactly
      when its fragment numbers are below 64. The same holds of a message peeled in
      advance by the tunnel's owner and then sent through the hops. */
  lemma TunnelCarries(cs: Checksum4, iv: seq<byte>, fs: seq<Fragment>, hops: seq<LayerCipher>)
    requires |iv| == 16 && FragmentsOk(fs) && ByteLen(fs) <= 1003
    requires forall i :: 0 <= i < |hops| ==> hops[i].cipher.Valid()
    ensures var d := TunnelMessageBytes(cs, iv, fs).value;
            && |d| == 1024
            && Peeled(hops, ThroughHops(hops, d)) == d == ThroughHops(hops, Peeled(hops, d))
            && (ParseTunnelMessage(cs, Peeled(hops, ThroughHops(hops, d))) == Done(fs, [])
                <==> forall i :: 0 <= i < |fs| && fs[i].di.FollowOn? ==> fs[i].di.fragment < 64)
  {
    hide ParseTunnelMessage, ByteLen, FragmentsOk, ThroughHops, Peeled, BlockCipher.Valid, TunnelMessageBytes;
    TunnelMessageBack(cs, iv, fs);
    PeelingUndoesHops(hops, TunnelMessageBytes(cs, iv, fs).value);
    if AllAsRead(fs) == fs {
      forall i | 0 <= i < |fs| && fs[i].di.FollowOn? ensures fs[i].di.fragment < 64 {
        assert AsRead(fs[i]) == fs[i];
      }
    }
  }

  /** The bytes up to the first zero, if there is one. */
  lemma {:induction false} UntilZero(i: seq<byte>)
    requires TakeUntilZero(i).Done?
    ensures var n := |TakeUntilZero(i).value|;
            n < |i| && i[n] == 0 && TakeUntilZero(i).rest == i[n..] && forall j :: 0 <= j < n ==> i[j] != 0
  {
    if i[0] != 0 { UntilZero(i[1..]); }
  }

  /** Position z of a plaintext is its delimiter, and the checksum covers what follows it
      up to byte 1024, and the IV. */
  ghost predicate DelimitedAt(cs: Checksum4, i: seq<byte>, z: nat)
    requires |i| >= 1024
  {
    && 20 <= z < 1024 && i[z] == 0 && (forall j :: 20 <= j < z ==> i[j] != 0)
    && FromBE(i[16..20]) == cs(i[z + 1..1024], i[..16])
  }

  /** Whatever the input: a message accepted has a zero after its checksum, and the
      checksum is that of the bytes behind the first one, and of the IV. */
  lemma AcceptedIsIntact(cs: Checksum4, i: seq<byte>)
    requires ParseTunnelMessage(cs, i).Done?
    ensures |i| >= 1024 && exists z: nat :: DelimitedAt(cs, i, z)
  {
    hide FromBE, ParseFragments, TakeUntilZero;
    var t := i[16..];
    var body := t[4..];
    assert t[..4] == i[16..20] && body == i[20..];
    UntilZero(body);
    var n := |TakeUntilZero(body).value|;
    var z := 20 + n;
    assert i[20..][n..][1..] == i[z + 1..];
    assert i[z + 1..][..1003 - n] == i[z + 1..1024];
    forall j | 20 <= j < z ensures i[j] != 0 { assert i[j] == body[j - 20]; }
    assert DelimitedAt(cs, i, z);
  }
}
