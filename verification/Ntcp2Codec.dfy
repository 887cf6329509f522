/**
 * The NTCP2 data phase: frames sealed with an authenticated cipher under a
 * counting nonce, behind a length masked with a SipHash chain. Whatever way the
 * bytes are cut into reads, both ends stay on the same link of the mask chain and
 * the frames that come out are the frames that went in.
 */
module Ntcp2Codec {
  import opened Bytes
  import opened Parsing
  import opened I2np
  import opened CbcStream
  import opened NtcpFrame
  import opened Ntcp2Frame

  const NTCP2_MTU: nat := 65535

  /** One direction of a Noise transport session: the message number, then text. */
  datatype Transport = Transport(seal: (nat, seq<byte>) -> seq<byte>, open: (nat, seq<byte>) -> Option<seq<byte>>) {
    ghost predicate Valid()
    {
      forall n: nat, pt: seq<byte> :: |seal(n, pt)| == |pt| + 16 && open(n, seal(n, pt)) == Some(pt)
    }
  }

  /** SipHash under a fixed key, from one 64-bit value to the next. */
  type Masker = nat -> nat

  /** The sending side: the mask chain and the number of the next message. */
  datatype Tx = Tx(iv: nat, nonce: nat)

  /** The receiving side: also the length of the frame being waited for. */
  datatype Rx2 = Rx2(iv: nat, nonce: nat, nextLen: Option<nat>, buf: seq<byte>)

  function MaskedLength(len: nat, iv: nat): (b: seq<byte>)
    ensures |b| == 2
  {
    ToBE(Xor(len, iv % 0x1_0000), 2)
  }

  function UnmaskedLength(b: seq<byte>, iv: nat): (len: nat)
  {
    Xor(FromBE(b), iv % 0x1_0000)
  }

  /** Masking is undone by unmasking with the same link of the chain, for every
      length a frame can have. */
  lemma LengthUnmasked(len: nat, iv: nat)
    requires len <= NTCP2_MTU
    ensures UnmaskedLength(MaskedLength(len, iv), iv) == len
  {
    Pow2Values();
    XorBound(len, iv % 0x1_0000, 16);
    Widths();
    ToThenFrom(Xor(len, iv % 0x1_0000), 2);
    XorUndo(len, iv % 0x1_0000);
  }

  // ---------- encoding ----------

  datatype Encoded = Sealed | TooLarge | SealError

  function Plain(sum: Checksum, p: Packet): (b: seq<byte>)
    requires |p.blocks| == |p.pads|
  {
    BlocksBytes(sum, p.blocks, p.pads)
  }

  function SealedBytes(sum: Checksum, t: Transport, iv: nat, nonce: nat, p: Packet): (b: seq<byte>)
    requires |p.blocks| == |p.pads|
  {
    var plain := Plain(sum, p);
    MaskedLength(|plain| + 16, iv) + t.seal(nonce, plain)
  }

  /** One call of `Codec::encode`: the new state, the bytes appended, the outcome.
      A frame within sixteen bytes of the buffer size is found too large for the
      cipher only after the mask has moved on and room has been made. */
  function EncodeStep(sum: Checksum, t: Transport, mask: Masker, tx: Tx, p: Packet): (r: (Tx, seq<byte>, Encoded))
    requires |p.blocks| == |p.pads|
    ensures r.2 == Sealed <==> |Plain(sum, p)| <= 65519
    ensures r.0.nonce == tx.nonce + if r.2 == Sealed then 1 else 0
    ensures r.1 == [] <==> |Plain(sum, p)| > 65535
  {
    var plain := Plain(sum, p);
    var iv := mask(tx.iv);
    if |plain| > NTCP2_MTU then (tx, [], TooLarge)
    else if |plain| + 16 > NTCP2_MTU then
      (tx.(iv := iv), MaskedLength(|plain| + 16, iv) + Zeros(|plain| + 16), SealError)
    else (Tx(iv, tx.nonce + 1), SealedBytes(sum, t, iv, tx.nonce, p), Sealed)
  }

  // ---------- decoding ----------

  datatype Decoded2 = Item(blocks: seq<Block>) | NoFrame | DecryptError | ParseError | Panic

  /** Reads the length of the next frame if it is due and has arrived. */
  function ReadLength(mask: Masker, rx: Rx2): (r: Rx2)
  {
    if rx.nextLen.Some? || |rx.buf| < 2 then rx
    else
      var iv := mask(rx.iv);
      Rx2(iv, rx.nonce, Some(UnmaskedLength(rx.buf[..2], iv)), rx.buf[2..])
  }

  /** Opens and reads the frame waited for, if all of it has arrived. */
  function ReadFrame(sum: Checksum, t: Transport, rx: Rx2): (r: (Rx2, Decoded2))
  {
    if rx.nextLen.None? || |rx.buf| < rx.nextLen.value then (rx, NoFrame)
    else
      var len := rx.nextLen.value;
      match t.open(rx.nonce, rx.buf[..len])
      case None => (rx, DecryptError)
      case Some(plain) =>
        var read := rx.(nonce := rx.nonce + 1);
        match Ntcp2Frame.ParseFrame(sum, plain)
        case Done(bs, _) => (read.(nextLen := None, buf := rx.buf[len..]), Item(bs))
        case Panicked => (read, Panic)
        case _ => (read, ParseError)
  }

  /** One call of `Codec::decode`. */
  function DecodeStep(sum: Checksum, t: Transport, mask: Masker, rx: Rx2): (r: (Rx2, Decoded2))
  {
    ReadFrame(sum, t, ReadLength(mask, rx))
  }

  class Codec {
    const enc: Transport
    const dec: Transport
    const encMasker: Masker
    const decMasker: Masker
    var encNonce: nat
    var decNonce: nat
    var encLenIv: nat
    var decLenIv: nat
    var nextLen: Option<nat>

    constructor (enc: Transport, dec: Transport, encMasker: Masker, encLenIv: nat, decMasker: Masker, decLenIv: nat)
      ensures this.enc == enc && this.dec == dec && this.encMasker == encMasker && this.decMasker == decMasker
      ensures Sender() == Tx(encLenIv, 0)
      ensures this.decLenIv == decLenIv && decNonce == 0 && nextLen == None
    {
      this.enc, this.dec, this.encMasker, this.decMasker := enc, dec, encMasker, decMasker;
      this.encLenIv, this.decLenIv := encLenIv, decLenIv;
      encNonce, decNonce, nextLen := 0, 0, None;
    }

    ghost function Sender(): (tx: Tx)
      reads this
    {
      Tx(encLenIv, encNonce)
    }

    ghost function Receiver(buf: ByteBuf): (rx: Rx2)
      reads this, buf
    {
      Rx2(decLenIv, decNonce, nextLen, buf.data)
    }

    /** `Codec::decode`. */
    method Decode(sum: Checksum, buf: ByteBuf) returns (r: Decoded2)
      modifies this, buf
      ensures (Receiver(buf), r) == DecodeStep(sum, dec, decMasker, old(Receiver(buf)))
      ensures Sender() == old(Sender())
    {
      hide Ntcp2Frame.ParseFrame, FromBE, Xor;
      if nextLen.None? {
        if |buf.data| < 2 {
          return NoFrame;
        }
        decLenIv := decMasker(decLenIv);
        var len: nat := FromBE(buf.data[..2]);
        len := Xor(len, decLenIv % 0x1_0000);
        buf.data := buf.data[2..];
        nextLen := Some(len);
      }
      if |buf.data| < nextLen.value {
        return NoFrame;
      }
      var len := nextLen.value;
      match dec.open(decNonce, buf.data[..len]) {
        case None => return DecryptError;
        case Some(plain) =>
          decNonce := decNonce + 1;
          match Ntcp2Frame.ParseFrame(sum, plain) {
            case Panicked => return Panic;
            case Incomplete => return ParseError;
            case Failed => return ParseError;
            case Done(bs, _) =>
              buf.data := buf.data[len..];
              nextLen := None;
              return Item(bs);
          }
      }
    }

    /** `Codec::encode`. */
    method Encode(sum: Checksum, p: Packet, buf: ByteBuf) returns (r: Encoded)
      requires |p.blocks| == |p.pads|
      modifies this, buf
      ensures (Sender(), buf.data, r) == var (tx, out, o) := EncodeStep(sum, enc, encMasker, old(Sender()), p);
                                         (tx, old(buf.data) + out, o)
      ensures decLenIv == old(decLenIv) && decNonce == old(decNonce) && nextLen == old(nextLen)
    {
      hide BlocksBytes, Xor, ToBE;
      var plain := BlocksBytes(sum, p.blocks, p.pads);
      if |plain| > NTCP2_MTU {
        assert buf.data + [] == buf.data;
        return TooLarge;
      }
      var msgLen := |plain| + 16;
      encLenIv := encMasker(encLenIv);
      var masked := Xor(msgLen, encLenIv % 0x1_0000);
      if msgLen > NTCP2_MTU {
        buf.data := buf.data + (ToBE(masked, 2) + Zeros(msgLen));
        return SealError;
      }
      buf.data := buf.data + (ToBE(masked, 2) + enc.seal(encNonce, plain));
      encNonce := encNonce + 1;
      return Sealed;
    }
  }

  // ---------- the stream ----------

  /** Packets the far end can take: at least one block, each well formed, and no more
      than the cipher can seal at once. */
  ghost predicate PacketOk(sum: Checksum, p: Packet)
  {
    && |p.blocks| == |p.pads| && p.blocks != [] && BlocksOk(sum, p.blocks, p.pads)
    && |Plain(sum, p)| + 16 <= NTCP2_MTU
  }

  ghost predicate PacketsOk(sum: Checksum, ps: seq<Packet>)
  {
    forall i :: 0 <= i < |ps| ==> PacketOk(sum, ps[i])
  }

  /** The bytes of a run of packets, from a given link of the mask chain. */
  ghost function Wire(sum: Checksum, t: Transport, mask: Masker, iv: nat, nonce: nat, ps: seq<Packet>): (w: seq<byte>)
    requires PacketsOk(sum, ps)
    decreases |ps|
  {
    if ps == [] then []
    else SealedBytes(sum, t, mask(iv), nonce, ps[0]) + Wire(sum, t, mask, mask(iv), nonce + 1, ps[1..])
  }

  /** The mask chain n links on. */
  function Link(mask: Masker, iv: nat, n: nat): (r: nat)
  {
    if n == 0 then iv else mask(Link(mask, iv, n - 1))
  }

  lemma {:induction false} LinkShift(mask: Masker, iv: nat, n: nat)
    ensures Link(mask, mask(iv), n) == Link(mask, iv, n + 1)
  {
    if n > 0 { LinkShift(mask, iv, n - 1); }
  }

  lemma {:induction false} WireExtends(sum: Checksum, t: Transport, mask: Masker, iv: nat, nonce: nat, ps: seq<Packet>,
      p: Packet)
    requires PacketsOk(sum, ps) && PacketOk(sum, p)
    ensures PacketsOk(sum, ps + [p])
    ensures Wire(sum, t, mask, iv, nonce, ps + [p])
         == Wire(sum, t, mask, iv, nonce, ps) + SealedBytes(sum, t, Link(mask, iv, |ps| + 1), nonce + |ps|, p)
    decreases |ps|
  {
    hide BlocksOk, Plain, SealedBytes;
    if ps == [] {
      assert ps + [p] == [p];
      assert Link(mask, iv, 1) == mask(Link(mask, iv, 0));
      assert Wire(sum, t, mask, iv, nonce, [p]) == SealedBytes(sum, t, mask(iv), nonce, p) + [];
    } else {
      assert (ps + [p])[1..] == ps[1..] + [p];
      WireExtends(sum, t, mask, mask(iv), nonce + 1, ps[1..], p);
      LinkShift(mask, iv, |ps|);
      Assoc(SealedBytes(sum, t, mask(iv), nonce, ps[0]), Wire(sum, t, mask, mask(iv), nonce + 1, ps[1..]),
                  SealedBytes(sum, t, Link(mask, iv, |ps| + 1), nonce + |ps|, p));
    }
  }

  /** The receiver has yet to deliver exactly ps: what it holds and what is still in
      flight are their bytes, less the length of the first once that has been read,
      and its mask and message number are those the sender used for them. */
  ghost predicate InStep(sum: Checksum, t: Transport, mask: Masker, iv: nat, nonce: nat, ps: seq<Packet>, rx: Rx2,
      flight: seq<byte>)
  {
    && PacketsOk(sum, ps) && rx.nonce == nonce
    && match rx.nextLen
       case None => rx.iv == iv && rx.buf + flight == Wire(sum, t, mask, iv, nonce, ps)
       case Some(len) =>
         && ps != [] && rx.iv == mask(iv) && len == |Plain(sum, ps[0])| + 16
         && rx.buf + flight == t.seal(nonce, Plain(sum, ps[0])) + Wire(sum, t, mask, mask(iv), nonce + 1, ps[1..])
  }

  lemma PrefixOf(a: seq<byte>, b: seq<byte>, c: seq<byte>, d: seq<byte>)
    requires a + b == c + d && |c| <= |a|
    ensures a[..|c|] == c && a[|c|..] + b == d
  {
    assert (a + b)[..|c|] == a[..|c|] && (c + d)[..|c|] == c;
    assert (a + b)[|c|..] == a[|c|..] + b && (c + d)[|c|..] == d;
  }

  lemma ReadLengthInStep(sum: Checksum, t: Transport, mask: Masker, iv: nat, nonce: nat, ps: seq<Packet>, rx: Rx2,
      flight: seq<byte>)
    requires t.Valid() && InStep(sum, t, mask, iv, nonce, ps, rx, flight)
    ensures InStep(sum, t, mask, iv, nonce, ps, ReadLength(mask, rx), flight)
    ensures ReadLength(mask, rx).nextLen.None? ==> |rx.buf| < 2 && ReadLength(mask, rx) == rx
  {
    hide MaskedLength, UnmaskedLength, Plain, BlocksOk;
    if rx.nextLen.None? && |rx.buf| >= 2 {
      if ps == [] {
        assert false;
      } else {
        var plain, tail := Plain(sum, ps[0]), Wire(sum, t, mask, mask(iv), nonce + 1, ps[1..]);
        var head := MaskedLength(|plain| + 16, mask(iv));
        assert PacketOk(sum, ps[0]);
        Assoc(head, t.seal(nonce, plain), tail);
        PrefixOf(rx.buf, flight, head, t.seal(nonce, plain) + tail);
        LengthUnmasked(|plain| + 16, mask(iv));
      }
    }
  }

  lemma ReadFrameInStep(sum: Checksum, t: Transport, mask: Masker, iv: nat, nonce: nat, ps: seq<Packet>, rx: Rx2,
      flight: seq<byte>)
    requires t.Valid() && InStep(sum, t, mask, iv, nonce, ps, rx, flight) && rx.nextLen.Some?
    ensures var (rx', d) := ReadFrame(sum, t, rx);
            if |rx.buf| < rx.nextLen.value then d == NoFrame && rx' == rx
            else && d == Item(AllReceived(ps[0].blocks))
                 && InStep(sum, t, mask, mask(iv), nonce + 1, ps[1..], rx', flight)
  {
    hide Plain, BlocksOk, BlocksBytes, Ntcp2Frame.ParseFrame, Wire;
    if |rx.buf| >= rx.nextLen.value {
      var plain := Plain(sum, ps[0]);
      var sealed := t.seal(nonce, plain);
      assert |sealed| == |plain| + 16 && t.open(nonce, sealed) == Some(plain);
      PrefixOf(rx.buf, flight, sealed, Wire(sum, t, mask, mask(iv), nonce + 1, ps[1..]));
      assert PacketOk(sum, ps[0]);
      PlainBack(sum, ps[0]);
    }
  }

  lemma PlainBack(sum: Checksum, p: Packet)
    requires PacketOk(sum, p)
    ensures Ntcp2Frame.ParseFrame(sum, Plain(sum, p)) == Done(AllReceived(p.blocks), [])
  {
    Ntcp2Frame.FrameBack(sum, p.blocks, p.pads);
  }

  /** A decode delivers the next frame or nothing, never an error, and leaves the
      receiver in step; it delivers one whenever all of its bytes have arrived. */
  lemma DecodeInStep(sum: Checksum, t: Transport, mask: Masker, iv: nat, nonce: nat, ps: seq<Packet>, rx: Rx2,
      flight: seq<byte>)
    requires t.Valid() && InStep(sum, t, mask, iv, nonce, ps, rx, flight)
    ensures var (rx', d) := DecodeStep(sum, t, mask, rx);
            || (d == NoFrame && InStep(sum, t, mask, iv, nonce, ps, rx', flight) && (flight == [] ==> ps == []))
            || (ps != [] && d == Item(AllReceived(ps[0].blocks))
                && InStep(sum, t, mask, mask(iv), nonce + 1, ps[1..], rx', flight))
  {
    hide ReadLength, Plain, BlocksOk, Transport.Valid, MaskedLength;
    ReadLengthInStep(sum, t, mask, iv, nonce, ps, rx, flight);
    var r1 := ReadLength(mask, rx);
    if r1.nextLen.Some? {
      ReadFrameInStep(sum, t, mask, iv, nonce, ps, r1, flight);
      if |r1.buf| < r1.nextLen.value && flight == [] {
        assert PacketOk(sum, ps[0]);
        SealedLength(t, nonce, Plain(sum, ps[0]));
        assert false;
      }
    }
  }

  lemma SealedLength(t: Transport, nonce: nat, pt: seq<byte>)
    requires t.Valid()
    ensures |t.seal(nonce, pt)| == |pt| + 16
  {}

  // ---------- whole runs ----------

  /** A packet is sent, bytes arrive, or the receiver is polled. */
  datatype LinkEvent = Send(p: Packet) | Deliver(count: nat) | Poll

  /** One direction of a connection. */
  datatype Wired = Wired(tx: Tx, flight: seq<byte>, rx: Rx2, got: seq<seq<Block>>, last: Decoded2)

  function LinkStep(sum: Checksum, t: Transport, mask: Masker, s: Wired, e: LinkEvent): (r: Wired)
    requires e.Send? ==> |e.p.blocks| == |e.p.pads|
  {
    match e
    case Send(p) =>
      var (tx, out, _) := EncodeStep(sum, t, mask, s.tx, p);
      s.(tx := tx, flight := s.flight + out)
    case Deliver(count) =>
      var n := Min(count, |s.flight|);
      s.(flight := s.flight[n..], rx := s.rx.(buf := s.rx.buf + s.flight[..n]))
    case Poll =>
      var (rx, d) := DecodeStep(sum, t, mask, s.rx);
      s.(rx := rx, last := d, got := if d.Item? then s.got + [d.blocks] else s.got)
  }

  /** What was sent during some events. */
  function Packets(events: seq<LinkEvent>): (ps: seq<Packet>)
  {
    if events == [] then []
    else
      var e := events[|events| - 1];
      Packets(events[..|events| - 1]) + if e.Send? then [e.p] else []
  }

  ghost predicate EventsOk(sum: Checksum, events: seq<LinkEvent>)
  {
    forall i :: 0 <= i < |events| && events[i].Send? ==> PacketOk(sum, events[i].p)
  }

  /** Both ends start on the same link of the chain and at message zero. */
  ghost function LinkRun(sum: Checksum, t: Transport, mask: Masker, iv: nat, events: seq<LinkEvent>): (r: Wired)
    requires EventsOk(sum, events)
  {
    if events == [] then Wired(Tx(iv, 0), [], Rx2(iv, 0, None, []), [], NoFrame)
    else
      assert forall i :: 0 <= i < |events| - 1 ==> events[..|events| - 1][i] == events[i];
      var e := events[|events| - 1];
      assert e.Send? ==> PacketOk(sum, e.p);
      LinkStep(sum, t, mask, LinkRun(sum, t, mask, iv, events[..|events| - 1]), e)
  }

  function Frames(ps: seq<Packet>): (fs: seq<seq<Block>>)
    ensures |fs| == |ps| && forall i :: 0 <= i < |ps| ==> fs[i] == AllReceived(ps[i].blocks)
  {
    seq(|ps|, i requires 0 <= i < |ps| => AllReceived(ps[i].blocks))
  }

  /** After any events the sender stands |sent| links on, the frames delivered are the
      first of those sent, and the receiver is in step just after them. */
  ghost predicate RunOk(sum: Checksum, t: Transport, mask: Masker, iv: nat, ps: seq<Packet>, s: Wired)
  {
    && s.tx == Tx(Link(mask, iv, |ps|), |ps|)
    && |s.got| <= |ps| && s.got == Frames(ps[..|s.got|])
    && (s.last.Item? || s.last.NoFrame?)
    && InStep(sum, t, mask, Link(mask, iv, |s.got|), |s.got|, ps[|s.got|..], s.rx, s.flight)
  }

  lemma InStepExtends(sum: Checksum, t: Transport, mask: Masker, iv: nat, nonce: nat, ps: seq<Packet>, rx: Rx2,
      flight: seq<byte>, p: Packet)
    requires InStep(sum, t, mask, iv, nonce, ps, rx, flight) && PacketOk(sum, p)
    ensures InStep(sum, t, mask, iv, nonce, ps + [p], rx,
                   flight + SealedBytes(sum, t, Link(mask, iv, |ps| + 1), nonce + |ps|, p))
  {
    hide Plain, BlocksOk, SealedBytes, Link, Wire;
    var out := SealedBytes(sum, t, Link(mask, iv, |ps| + 1), nonce + |ps|, p);
    Assoc(rx.buf, flight, out);
    WireExtends(sum, t, mask, iv, nonce, ps, p);
    if rx.nextLen.Some? {
      WireExtends(sum, t, mask, mask(iv), nonce + 1, ps[1..], p);
      LinkShift(mask, iv, |ps|);
      assert (ps + [p])[1..] == ps[1..] + [p];
      assert (ps + [p])[0] == ps[0] && PacketOk(sum, ps[0]);
      Assoc(t.seal(nonce, Plain(sum, ps[0])), Wire(sum, t, mask, mask(iv), nonce + 1, ps[1..]), out);
    }
  }

  lemma SendKeeps(sum: Checksum, t: Transport, mask: Masker, iv: nat, ps: seq<Packet>, s: Wired, p: Packet)
    requires RunOk(sum, t, mask, iv, ps, s) && PacketOk(sum, p)
    ensures RunOk(sum, t, mask, iv, ps + [p], LinkStep(sum, t, mask, s, Send(p)))
  {
    hide Frames, Plain, BlocksOk, SealedBytes, InStep;
    var j := |s.got|;
    assert (ps + [p])[j..] == ps[j..] + [p] && (ps + [p])[..j] == ps[..j];
    LinkAdds(mask, iv, j, |ps| - j + 1);
    InStepExtends(sum, t, mask, Link(mask, iv, j), j, ps[j..], s.rx, s.flight, p);
  }

  lemma {:induction false} LinkAdds(mask: Masker, iv: nat, m: nat, n: nat)
    ensures Link(mask, Link(mask, iv, m), n) == Link(mask, iv, m + n)
  {
    if n > 0 { LinkAdds(mask, iv, m, n - 1); }
  }

  lemma DeliverKeeps(sum: Checksum, t: Transport, mask: Masker, iv: nat, ps: seq<Packet>, s: Wired, count: nat)
    requires RunOk(sum, t, mask, iv, ps, s)
    ensures RunOk(sum, t, mask, iv, ps, LinkStep(sum, t, mask, s, Deliver(count)))
  {
    hide Frames, Plain, PacketsOk, Wire, Link;
    var n := Min(count, |s.flight|);
    Assoc(s.rx.buf, s.flight[..n], s.flight[n..]);
    assert s.flight == s.flight[..n] + s.flight[n..];
  }

  lemma PollKeeps(sum: Checksum, t: Transport, mask: Masker, iv: nat, ps: seq<Packet>, s: Wired)
    requires t.Valid() && RunOk(sum, t, mask, iv, ps, s)
    ensures RunOk(sum, t, mask, iv, ps, LinkStep(sum, t, mask, s, Poll))
    ensures LinkStep(sum, t, mask, s, Poll).last.NoFrame? && s.flight == [] ==>
          LinkStep(sum, t, mask, s, Poll).got == Frames(ps)
  {
    hide DecodeStep, InStep, Transport.Valid;
    var j := |s.got|;
    DecodeInStep(sum, t, mask, Link(mask, iv, j), j, ps[j..], s.rx, s.flight);
    var s' := LinkStep(sum, t, mask, s, Poll);
    if s'.last.Item? {
      assert ps[j..][1..] == ps[j + 1..];
      assert ps[..j + 1] == ps[..j] + [ps[j]];
      assert s'.got == Frames(ps[..j + 1]);
    } else if s.flight == [] {
      assert ps[..j] == ps;
    }
  }

  lemma {:induction false} RunInvariant(sum: Checksum, t: Transport, mask: Masker, iv: nat, events: seq<LinkEvent>)
    requires t.Valid() && EventsOk(sum, events)
    ensures RunOk(sum, t, mask, iv, Packets(events), LinkRun(sum, t, mask, iv, events))
  {
    hide LinkStep, Transport.Valid, PacketOk;
    if events == [] {
      StartOk(sum, t, mask, iv);
    } else {
      var es, e := events[..|events| - 1], events[|events| - 1];
      assert forall i :: 0 <= i < |es| ==> es[i] == events[i];
      RunInvariant(sum, t, mask, iv, es);
      var s := LinkRun(sum, t, mask, iv, es);
      match e
      case Send(p) => SendKeeps(sum, t, mask, iv, Packets(es), s, p);
      case Deliver(count) =>
        DeliverKeeps(sum, t, mask, iv, Packets(es), s, count);
        assert Packets(es) + [] == Packets(es);
      case Poll =>
        PollKeeps(sum, t, mask, iv, Packets(es), s);
        assert Packets(es) + [] == Packets(es);
    }
  }

  lemma StartOk(sum: Checksum, t: Transport, mask: Masker, iv: nat)
    ensures RunOk(sum, t, mask, iv, [], Wired(Tx(iv, 0), [], Rx2(iv, 0, None, []), [], NoFrame))
  {
    var none: seq<byte> := [];
    assert none + none == none;
  }

  /** Over every interleaving of sends, arrivals of any size and polls: no error and
      no panic; the frames delivered are, in order, the first of those sent; the two
      mask chains stand apart by exactly the frames not yet begun; and a poll that
      finds nothing with nothing in flight means everything has been delivered. */
  lemma LinkDelivers(sum: Checksum, t: Transport, mask: Masker, iv: nat, events: seq<LinkEvent>)
    requires t.Valid() && EventsOk(sum, events)
    ensures var s, sent := LinkRun(sum, t, mask, iv, events), Packets(events);
            && !s.last.DecryptError? && !s.last.ParseError? && !s.last.Panic?
            && s.got <= Frames(sent)
            && s.tx == Tx(Link(mask, iv, |sent|), |sent|)
            && s.rx.nonce == |s.got|
            && s.rx.iv == Link(mask, iv, |s.got| + if s.rx.nextLen.Some? then 1 else 0)
    ensures var s := LinkRun(sum, t, mask, iv, events);
            var s' := LinkStep(sum, t, mask, s, Poll);
            s.flight == [] && s'.last == NoFrame ==> s'.got == Frames(Packets(events))
  {
    hide DecodeStep, Transport.Valid, PacketOk, EventsOk, LinkRun, Wire, Packets, PacketsOk, Plain;
    RunInvariant(sum, t, mask, iv, events);
    PollKeeps(sum, t, mask, iv, Packets(events), LinkRun(sum, t, mask, iv, events));
  }

  // ---------- both directions ----------

  /** `u64::from_le_bytes`. */
  function FromLE(b: seq<byte>): (n: nat)
  {
    if b == [] then 0 else b[0] + 256 * FromLE(b[1..])
  }

  /** The length-masking keys of a codec: two key words and a starting value each way. */
  datatype LengthKeys = LengthKeys(ek0: nat, ek1: nat, eiv: nat, dk0: nat, dk1: nat, div: nat)

  /** What the responder takes from the two halves of the derived key. */
  function ResponderKeys(ask0: seq<byte>, ask1: seq<byte>): (k: LengthKeys)
    requires |ask0| == |ask1| == 32
  {
    LengthKeys(FromLE(ask1[0..8]), FromLE(ask1[8..16]), FromLE(ask1[16..24]),
               FromLE(ask0[0..8]), FromLE(ask0[8..16]), FromLE(ask0[16..24]))
  }

  /** What the initiator takes from them. */
  function InitiatorKeys(ask0: seq<byte>, ask1: seq<byte>): (k: LengthKeys)
    requires |ask0| == |ask1| == 32
  {
    LengthKeys(FromLE(ask0[0..8]), FromLE(ask0[8..16]), FromLE(ask0[16..24]),
               FromLE(ask1[0..8]), FromLE(ask1[8..16]), FromLE(ask1[16..24]))
  }

  /** Codecs set up by the two ends of one handshake: for either direction, one end's
      sender and the other end's receiver form a link in the state `LinkDelivers`
      starts from. */
  method SetUp(sip: (nat, nat) -> Masker, aliceToBob: Transport, bobToAlice: Transport, ask0: seq<byte>,
      ask1: seq<byte>)
    returns (alice: Codec, bob: Codec)
    requires |ask0| == |ask1| == 32
    ensures alice.enc == bob.dec == aliceToBob && bob.enc == alice.dec == bobToAlice
    ensures alice.encMasker == bob.decMasker && bob.encMasker == alice.decMasker
    ensures alice.Sender() == Tx(bob.decLenIv, bob.decNonce) && bob.Sender() == Tx(alice.decLenIv, alice.decNonce)
    ensures alice.nextLen == bob.nextLen == None && alice.encNonce == bob.encNonce == 0
  {
    var a, b := InitiatorKeys(ask0, ask1), ResponderKeys(ask0, ask1);
    alice := new Codec(aliceToBob, bobToAlice, sip(a.ek0, a.ek1), a.eiv, sip(a.dk0, a.dk1), a.div);
    bob := new Codec(bobToAlice, aliceToBob, sip(b.ek0, b.ek1), b.eiv, sip(b.dk0, b.dk1), b.div);
  }

  /** What is put on the wire: the length of the sealed text under the next link of the mask
      chain, and the text sealed under the message number. */
  lemma WireIs(sum: Checksum, t: Transport, mask: Masker, tx: Tx, p: Packet)
    requires t.Valid() && |p.blocks| == |p.pads| && EncodeStep(sum, t, mask, tx, p).2 == Sealed
    ensures var (tx', wire, _) := EncodeStep(sum, t, mask, tx, p);
            && tx' == Tx(mask(tx.iv), tx.nonce + 1)
            && wire[2..] == t.seal(tx.nonce, Plain(sum, p))
            && Xor(FromBE(wire[..2]), mask(tx.iv) % 0x1_0000) == |wire| - 2
  {
    hide FromBE, ToBE, Xor, Plain;
    var plain := Plain(sum, p);
    LengthUnmasked(|plain| + 16, mask(tx.iv));
    var wire := EncodeStep(sum, t, mask, tx, p).1;
    assert wire[..2] == MaskedLength(|plain| + 16, mask(tx.iv)) && wire[2..] == t.seal(tx.nonce, plain);
  }

  /** Whatever arrives, a frame is delivered only if the bytes that the unmasked length
      calls for opened under the next message number, to that frame. */
  lemma DeliveredWasOpened(sum: Checksum, t: Transport, mask: Masker, rx: Rx2)
    requires DecodeStep(sum, t, mask, rx).1.Item?
    ensures var skip := if rx.nextLen.Some? then 0 else 2;
            && |rx.buf| >= skip
            && var len := if rx.nextLen.Some? then rx.nextLen.value
                          else Xor(FromBE(rx.buf[..2]), mask(rx.iv) % 0x1_0000);
               && |rx.buf| >= skip + len
               && var plain := t.open(rx.nonce, rx.buf[skip..skip + len]);
                  && plain.Some? && Ntcp2Frame.ParseFrame(sum, plain.value).Done?
                  && DecodeStep(sum, t, mask, rx).1.blocks == Ntcp2Frame.ParseFrame(sum, plain.value).value
                  && DecodeStep(sum, t, mask, rx).0.buf == rx.buf[skip + len..]
                  && DecodeStep(sum, t, mask, rx).0.nonce == rx.nonce + 1
  {
    hide FromBE, Xor, Ntcp2Frame.ParseFrame;
    if rx.nextLen.None? {
      var len := ReadLength(mask, rx).nextLen.value;
      assert rx.buf[2..][..len] == rx.buf[2..2 + len] && rx.buf[2..][len..] == rx.buf[2 + len..];
    } else {
      assert rx.buf[0..rx.nextLen.value] == rx.buf[..rx.nextLen.value];
    }
  }
}
