/**
 * The NTCP data-phase codec, and the stream it carries: whatever way the
 * ciphertext is cut into reads, the frames that come out are the frames that
 * went in.
 */
module NtcpCodec {
  import opened Bytes
  import opened Parsing
  import opened I2np
  import opened I2npWriter
  import opened Cbc
  import opened CbcStream
  import opened NtcpFrame

  datatype Decoded = Item(frame: Frame) | NoFrame | ParseError | Panic

  /** One call of `Codec::decode`. */
  function DecodeStep(sum: Checksum, c: BlockCipher, k: Key, rx: Rx): (r: (Rx, Decoded))
    requires rx.decrypted <= |rx.buf|
    ensures r.0.decrypted <= |r.0.buf|
  {
    var a := Advance(c, k, rx);
    if a.decrypted == 0 then (a, NoFrame)
    else
      match ParseFrame(sum, a.buf[..a.decrypted])
      case Incomplete => (a, NoFrame)
      case Failed => (a, ParseError)
      case Panicked => (a, Panic)
      case Done(f, rest) => (Consume(a, a.decrypted - |rest|), Item(f))
  }

  class Codec {
    const aes: Aes256
    var decrypted: nat

    constructor (aes: Aes256, decrypted: nat)
      ensures this.aes == aes && this.decrypted == decrypted
    {
      this.aes, this.decrypted := aes, decrypted;
    }

    ghost function Receiver(buf: ByteBuf): (rx: Rx)
      reads this, aes, buf
    {
      Rx(aes.decIv, decrypted, buf.data)
    }

    /** `Codec::decode`. */
    method Decode(sum: Checksum, buf: ByteBuf) returns (r: Decoded)
      requires decrypted <= |buf.data|
      modifies this, aes, buf
      ensures (Receiver(buf), r) == DecodeStep(sum, aes.cipher, aes.key, old(Receiver(buf)))
      ensures aes.encIv == old(aes.encIv)
    {
      hide ParseFrame, Cbc.Decrypt, ChainAfter;
      ghost var rx := Receiver(buf);
      var tail := buf.data[decrypted..];
      var out, end := aes.DecryptBlocks(tail);
      buf.data := buf.data[..decrypted] + out;
      match end {
        case Some(n) => decrypted := decrypted + n;
        case None =>
      }
      assert Receiver(buf) == Advance(aes.cipher, aes.key, rx);
      if end.None? && decrypted == 0 {
        return NoFrame;
      }
      match ParseFrame(sum, buf.data[..decrypted]) {
        case Incomplete => return NoFrame;
        case Failed => return ParseError;
        case Panicked => return Panic;
        case Done(f, rest) =>
          var consumed := decrypted - |rest|;
          buf.data := buf.data[consumed..];
          decrypted := decrypted - consumed;
          return Item(f);
      }
    }

    /** `Codec::encode`. It succeeds exactly on frames that fit the MTU and then
        appends their encryption, continuing the chain. On failure the room it had
        made stays in the buffer; what was written there is not modelled. */
    method Encode(sum: Checksum, f: Frame, buf: ByteBuf) returns (ok: bool)
      modifies this, aes, buf
      ensures ok <==> |FrameBytes(sum, f)| <= MTU
      ensures ok ==> var ct := Cbc.Encrypt(aes.cipher, aes.key, old(aes.encIv), FrameBytes(sum, f));
                     buf.data == old(buf.data) + ct && aes.encIv == ChainAfter(old(aes.encIv), ct)
      ensures !ok ==> |buf.data| == |old(buf.data)| + MTU && buf.data[..|old(buf.data)|] == old(buf.data)
      ensures !ok ==> aes.encIv == old(aes.encIv)
      ensures aes.decIv == old(aes.decIv) && decrypted == old(decrypted)
    {
      hide FrameBytes, Cbc.Encrypt, ChainAfter;
      var start := |buf.data|;
      var w := new Writer(start + MTU);
      w.out := buf.data;
      ok := WriteFrame(w, sum, f);
      if !ok {
        buf.data := buf.data + Zeros(MTU);
        return;
      }
      assert w.out[start..] == FrameBytes(sum, f);
      var out, end := aes.EncryptBlocks(w.out[start..]);
      assert w.out[start..][..|w.out| - start] == w.out[start..];
      buf.data := w.out[..start] + out;
      ok := end == Some(|w.out| - start);
    }
  }

  // ---------- one decode, in step ----------

  /** With the stream at a frame boundary, a decode yields the next frame if all of
      it has arrived, and otherwise nothing; either way the receiver stays in step. */
  lemma DecodeInStep(sum: Checksum, c: BlockCipher, k: Key, iv: Block, pt: seq<byte>, n: nat, consumed: nat, rx: Rx,
      fs: seq<Frame>)
    requires c.Valid() && Synced(c, k, iv, pt, n, consumed, rx) && FramesOk(sum, fs)
    requires consumed % 16 == 0 && consumed <= |pt| && pt[consumed..] == FramesBytes(sum, fs)
    ensures var (r, d) := DecodeStep(sum, c, k, rx);
            if fs != [] && consumed + |FrameBytes(sum, fs[0])| <= n / 16 * 16
            then d == Item(fs[0]) && Synced(c, k, iv, pt, n, consumed + |FrameBytes(sum, fs[0])|, r)
            else d == NoFrame && Synced(c, k, iv, pt, n, consumed, r)
  {
    hide Synced, Advance, ParseFrame, FrameBytes, FrameOk, BlockCipher.Valid;
    SyncedShape(c, k, iv, pt, n, consumed, rx);
    SyncedAdvance(c, k, iv, pt, n, consumed, rx);
    var a := Advance(c, k, rx);
    SyncedShape(c, k, iv, pt, n, consumed, a);
    assert a.buf[..a.decrypted] == pt[consumed..][..a.decrypted];
    if fs == [] {
      assert pt[consumed..] == [];
    } else {
      ParseAvailable(sum, fs, a.decrypted);
      if |FrameBytes(sum, fs[0])| <= a.decrypted {
        SyncedConsume(c, k, iv, pt, n, consumed, a, |FrameBytes(sum, fs[0])|);
      }
    }
  }

  /** What the parser makes of the first so many bytes of a run of frames. */
  lemma ParseAvailable(sum: Checksum, fs: seq<Frame>, avail: nat)
    requires fs != [] && FramesOk(sum, fs) && avail <= |FramesBytes(sum, fs)| && avail % 16 == 0
    ensures var f, all := FrameBytes(sum, fs[0]), FramesBytes(sum, fs);
            && |f| <= |all|
            && ParseFrame(sum, all[..avail]) == if |f| <= avail then Done(fs[0], all[|f|..avail]) else Incomplete
  {
    hide ParseFrame, FrameBytes, FrameOk;
    var f, tail := FrameBytes(sum, fs[0]), FramesBytes(sum, fs[1..]);
    var all := FramesBytes(sum, fs);
    assert all == f + tail;
    if |f| <= avail {
      assert all[..avail] == f + all[|f|..avail];
      FrameBack(sum, fs[0], all[|f|..avail]);
    } else {
      assert all[..avail] == f[..avail];
      BlockGap(avail, |f|);
      PrefixIncomplete(sum, fs[0], avail);
    }
  }

  lemma BlockGap(a: nat, b: nat)
    requires a < b && a % 16 == 0 && b % 16 == 0
    ensures a + 16 <= b
  {}

  lemma SyncedShape(c: BlockCipher, k: Key, iv: Block, pt: seq<byte>, n: nat, consumed: nat, rx: Rx)
    requires Synced(c, k, iv, pt, n, consumed, rx)
    ensures rx.decrypted <= |rx.buf| && consumed + rx.decrypted <= n <= |pt|
    ensures (consumed + rx.decrypted) % 16 == 0 && |rx.buf| == n - consumed && Whole(pt)
  {}

  // ---------- whole streams ----------

  /** What can happen at the receiving end: bytes arrive, or the codec is polled. */
  datatype StreamEvent = Read(count: nat) | Poll

  datatype Stream = Stream(received: nat, rx: Rx, frames: seq<Frame>, last: Decoded)

  function StreamStep(sum: Checksum, c: BlockCipher, k: Key, ct: seq<byte>, s: Stream, e: StreamEvent): (r: Stream)
    requires s.received <= |ct| && s.rx.decrypted <= |s.rx.buf|
    ensures r.received <= |ct| && r.rx.decrypted <= |r.rx.buf|
  {
    match e
    case Read(count) =>
      var n := Min(s.received + count, |ct|);
      s.(received := n, rx := s.rx.(buf := s.rx.buf + ct[s.received..n]))
    case Poll =>
      var (rx, d) := DecodeStep(sum, c, k, s.rx);
      s.(rx := rx, last := d, frames := if d.Item? then s.frames + [d.frame] else s.frames)
  }

  function StreamRun(sum: Checksum, c: BlockCipher, k: Key, iv: Block, ct: seq<byte>,
      events: seq<StreamEvent>): (r: Stream)
    ensures r.received <= |ct| && r.rx.decrypted <= |r.rx.buf|
  {
    if events == [] then Stream(0, Rx(iv, 0, []), [], NoFrame)
    else StreamStep(sum, c, k, ct, StreamRun(sum, c, k, iv, ct, events[..|events| - 1]), events[|events| - 1])
  }

  /** After any events: the first frames have been delivered, and the receiver is in
      step just after them. */
  ghost predicate StreamOk(sum: Checksum, c: BlockCipher, k: Key, iv: Block, fs: seq<Frame>, s: Stream)
  {
    && s.frames <= fs && (s.last.Item? || s.last.NoFrame?)
    && Synced(c, k, iv, FramesBytes(sum, fs), s.received, |FramesBytes(sum, s.frames)|, s.rx)
  }

  lemma FramesSplit(sum: Checksum, fs: seq<Frame>, j: nat)
    requires j <= |fs|
    ensures FramesBytes(sum, fs) == FramesBytes(sum, fs[..j]) + FramesBytes(sum, fs[j..])
    ensures j < |fs| ==> |FramesBytes(sum, fs[..j + 1])| == |FramesBytes(sum, fs[..j])| + |FrameBytes(sum, fs[j])|
  {
    hide FrameBytes;
    FramesConcat(sum, fs[..j], fs[j..]);
    assert fs[..j] + fs[j..] == fs;
    if j < |fs| {
      FramesConcat(sum, fs[..j], [fs[j]]);
      assert fs[..j] + [fs[j]] == fs[..j + 1];
      assert [fs[j]][1..] == [];
    }
  }

  lemma StreamPoll(sum: Checksum, c: BlockCipher, k: Key, iv: Block, fs: seq<Frame>, s: Stream)
    requires c.Valid() && FramesOk(sum, fs) && StreamOk(sum, c, k, iv, fs, s)
    ensures s.received <= |FramesBytes(sum, fs)| && s.rx.decrypted <= |s.rx.buf|
    ensures var (rx, d) := DecodeStep(sum, c, k, s.rx);
            if |s.frames| < |fs| && |FramesBytes(sum, fs[..|s.frames| + 1])| <= s.received / 16 * 16
            then d == Item(fs[|s.frames|])
                 && Synced(c, k, iv, FramesBytes(sum, fs), s.received, |FramesBytes(sum, fs[..|s.frames| + 1])|, rx)
            else d == NoFrame && Synced(c, k, iv, FramesBytes(sum, fs), s.received, |FramesBytes(sum, s.frames)|, rx)
  {
    hide Synced, FrameBytes, FramesBytes, DecodeStep, FrameOk, BlockCipher.Valid;
    var j, pt := |s.frames|, FramesBytes(sum, fs);
    assert s.frames == fs[..j];
    FramesSplit(sum, fs, j);
    FramesWhole(sum, s.frames);
    var consumed := |FramesBytes(sum, fs[..j])|;
    SyncedShape(c, k, iv, pt, s.received, consumed, s.rx);
    assert pt[consumed..] == FramesBytes(sum, fs[j..]);
    DecodeInStep(sum, c, k, iv, pt, s.received, consumed, s.rx, fs[j..]);
  }

  lemma {:induction false} StreamInvariant(sum: Checksum, c: BlockCipher, k: Key, iv: Block, fs: seq<Frame>,
      events: seq<StreamEvent>)
    requires c.Valid() && FramesOk(sum, fs) && Whole(FramesBytes(sum, fs))
    ensures StreamOk(sum, c, k, iv, fs, StreamRun(sum, c, k, iv, Cbc.Encrypt(c, k, iv, FramesBytes(sum, fs)), events))
  {
    hide Synced, FrameBytes, FramesBytes, DecodeStep, FrameOk, BlockCipher.Valid, Cbc.Encrypt;
    var pt := FramesBytes(sum, fs);
    var ct := Cbc.Encrypt(c, k, iv, pt);
    if events == [] {
      SyncedStart(c, k, iv, pt);
      NoFramesNoBytes(sum);
    } else {
      var before := events[..|events| - 1];
      StreamInvariant(sum, c, k, iv, fs, before);
      var s := StreamRun(sum, c, k, iv, ct, before);
      match events[|events| - 1]
      case Read(count) =>
        SyncedReceive(c, k, iv, pt, s.received, |FramesBytes(sum, s.frames)|, s.rx,
                      Min(s.received + count, |ct|) - s.received);
      case Poll =>
        StreamPoll(sum, c, k, iv, fs, s);
        if |s.frames| < |fs| { assert s.frames + [fs[|s.frames|]] == fs[..|s.frames| + 1]; }
    }
  }

  lemma NoFramesNoBytes(sum: Checksum)
    ensures FramesBytes(sum, []) == []
  {}

  /** The NTCP stream. For every list of encodable frames and every interleaving of
      reads and polls, the delivered frames are a prefix of the sent ones and no
      poll reports an error; and once all bytes have arrived, a poll yields nothing
      only if every frame has been delivered. */
  lemma StreamDelivers(sum: Checksum, c: BlockCipher, k: Key, iv: Block, fs: seq<Frame>, events: seq<StreamEvent>)
    requires c.Valid() && FramesOk(sum, fs)
    ensures Whole(FramesBytes(sum, fs))
    ensures var ct := Cbc.Encrypt(c, k, iv, FramesBytes(sum, fs));
            var s := StreamRun(sum, c, k, iv, ct, events);
            && s.frames <= fs && (s.last.Item? || s.last.NoFrame?)
            && s.rx.decrypted % 16 == 0
            && (s.received == |ct| && DecodeStep(sum, c, k, s.rx).1 == NoFrame ==> s.frames == fs)
  {
    hide Synced, FrameBytes, FramesBytes, DecodeStep, FrameOk, BlockCipher.Valid, Cbc.Encrypt;
    FramesWhole(sum, fs);
    StreamInvariant(sum, c, k, iv, fs, events);
    var pt := FramesBytes(sum, fs);
    var ct := Cbc.Encrypt(c, k, iv, pt);
    var s := StreamRun(sum, c, k, iv, ct, events);
    FramesWhole(sum, s.frames);
    SyncedShape(c, k, iv, pt, s.received, |FramesBytes(sum, s.frames)|, s.rx);
    StreamPoll(sum, c, k, iv, fs, s);
    if |s.frames| < |fs| { FramesSplit(sum, fs, |s.frames| + 1); }
  }

  /** Encoding frame by frame continues one CBC stream. */
  lemma EncodeContinues(sum: Checksum, c: BlockCipher, k: Key, iv: Block, fs: seq<Frame>, f: Frame)
    ensures Whole(FramesBytes(sum, fs)) && Whole(FramesBytes(sum, fs + [f]))
    ensures var ct := Cbc.Encrypt(c, k, iv, FramesBytes(sum, fs));
            Cbc.Encrypt(c, k, iv, FramesBytes(sum, fs + [f]))
              == ct + Cbc.Encrypt(c, k, ChainAfter(iv, ct), FrameBytes(sum, f))
  {
    hide FrameBytes, Cbc.Encrypt, ChainAfter;
    FramesWhole(sum, fs);
    FramesWhole(sum, fs + [f]);
    FramesConcat(sum, fs, [f]);
    assert FramesBytes(sum, [f]) == FrameBytes(sum, f) by { assert [f][1..] == []; }
    EncryptConcat(c, k, iv, FramesBytes(sum, fs), FrameBytes(sum, f));
  }
}
