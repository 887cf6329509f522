/**
 * Each party of the NTCP handshake on its own, whoever is at the other end: the bytes
 * that arrive are arbitrary. What the checks of the handshake then guarantee.
 */
module NtcpHandshakeAuth {
  import opened Bytes
  import opened Parsing
  import opened Cbc
  import opened CbcStream
  import opened NtcpFrame
  import opened NtcpCodec
  import opened NtcpHandshakeFrame
  import opened NtcpHandshakeCodec
  import opened NtcpHandshake
  import opened DiffieHellman

  datatype Act =
    | Arrive(bytes: seq<byte>)
    | Poll(ts: nat, flushed: bool)
    | Send(frame: Frame)
    | Read

  /** Everything that has arrived. */
  function Arrived(acts: seq<Act>): (got: seq<byte>)
  {
    if acts == [] then []
    else
      var got, a := Arrived(acts[..|acts| - 1]), acts[|acts| - 1];
      if a.Arrive? then got + a.bytes else got
  }

  // ---------- the responder ----------

  ghost function BobAct(s: Setup, bob: Bob, a: Act): (r: Bob)
    requires s.Sane() && BobWf(s, bob)
  {
    match a
    case Arrive(bytes) => bob.(buf := bob.buf + bytes)
    case Poll(ts, flushed) => BobPoll(s, bob, ts, flushed)
    case Send(f) => BobSends(s, bob, f)
    case Read => BobReads(s, bob)
  }

  ghost function BobAlone(s: Setup, acts: seq<Act>): (bob: Bob)
    requires s.Sane()
  {
    if acts == [] then BobStart(s)
    else
      var bob := BobAlone(s, acts[..|acts| - 1]);
      if BobWf(s, bob) then BobAct(s, bob, acts[|acts| - 1]) else bob
  }

  lemma InboundDecodeKeeps(env: Env, cd: Inbound, buf: seq<byte>)
    requires cd.decrypted <= |buf| && (cd.state == RequestState ==> cd.decrypted == 0)
    ensures var (r, rest, o) := InboundDecode(env, cd, buf);
            && r.kb == cd.kb && (r.state == RequestState ==> r.decrypted == 0)
            && (cd.state != RequestState ==> r.state != RequestState && r.dhX == cd.dhX)
            && (cd.state != RequestState && cd.state != CreatedState ==> r.state != CreatedState)
            && r.aes.Some? == cd.aes.Some? && (cd.aes.Some? ==> r.aes.value.key == cd.aes.value.key)
            && (cd.state == RequestState && o.Got? ==>
                  && |buf| >= 288 && o.frame == SessionRequest(buf[..256], buf[256..288])
                  && r.dhX == buf[..256] && r.state == CreatedState)
            && (cd.state == RequestState && o.Nothing? ==> r == cd && rest == buf)
  {
    hide ParseRequest, ParseConfirmA, Advance;
  }

  lemma InboundEncodeKeeps(env: Env, cd: Inbound, f: HandshakeFrame, out: seq<byte>)
    requires env.grp == cd.kb.grp && env.grp.p > 0
    ensures var r := InboundEncode(env, cd, f, out);
            r.Some? ==>
              var to := r.value.0;
              && to.kb == cd.kb && to.decrypted == cd.decrypted && to.dhX == cd.dhX
              && to.state != RequestState && to.state != CreatedState
              && to.aes.Some?
              && to.aes.value.key == (if cd.state == CreatedState then cd.kb.SessionKey(cd.dhX)
                                      else if cd.aes.Some? then cd.aes.value.key else [])
  {
    hide KeyBuilder.SessionKey, Encrypt, CreatedInner, ConfirmBBytes;
  }

  /** What a responder knows of its peer, of whom it has received these bytes. */
  ghost predicate BobKnows(s: Setup, bob: Bob, got: seq<byte>)
    requires s.Sane()
  {
    && BobWf(s, bob)
    && (bob.phase == AwaitingRequest ==> bob.codec.state == RequestState && bob.codec.aes.None? && bob.buf == got)
    && (bob.phase in {Creating, AwaitingConfirmA, ConfirmingB, OpenB} ==>
          && bob.codec.state != RequestState && bob.codec.aes.Some?
          && bob.codec.aes.value.key == s.KbB().SessionKey(bob.dhX) && RequestChecked(s, bob.dhX, got))
    && (bob.phase == AwaitingConfirmA || bob.phase == Creating ==> bob.codec.state != CreatedState)
    && (bob.phase in {ConfirmingB, OpenB} ==>
          bob.riRemote.Some? && Vouched(s.env, bob.riRemote.value, BobVerifies(s, bob)))
  }

  ghost predicate Vouched(env: Env, ri: RouterIdentity, msg: seq<byte>)
  {
    exists sig :: env.verify(ri, msg, sig)
  }

  function BobVerifies(s: Setup, bob: Bob): (msg: seq<byte>)
    requires s.Sane()
  {
    bob.dhX + (s.Y() + (s.env.Hash(IdentityBytes(s.riB)) + (ToBE(bob.tsA, 4) + ToBE(bob.tsB, 4))))
  }

  ghost predicate RequestChecked(s: Setup, dhX: seq<byte>, got: seq<byte>)
  {
    && |got| >= 288 && dhX == got[..256]
    && got[256..288] == XorBytes(s.env.Hash(dhX), s.env.Hash(IdentityBytes(s.riB)))
  }

  lemma BobChecksRequest(s: Setup, bob: Bob, ts: nat, flushed: bool)
    requires s.Sane() && BobKnows(s, bob, bob.buf) && bob.phase == AwaitingRequest
    ensures BobKnows(s, BobPoll(s, bob, ts, flushed), bob.buf)
  {
    hide InboundDecode, InboundEncode, KeyBuilder.SessionKey, IdentityBytes, KeyBuilder.GetPub;
    InboundDecodeKeeps(s.env, bob.codec, bob.buf);
    var (codec, buf, o) := InboundDecode(s.env, bob.codec, bob.buf);
    if o.Got? {
      InboundEncodeKeeps(s.env, codec, SessionCreated(s.Y(), s.env.Hash(o.frame.dhX + s.Y()), ts % 0x1_0000_0000),
                         bob.sent);
    }
  }

  lemma BobChecksConfirmA(s: Setup, bob: Bob, got: seq<byte>, ts: nat, flushed: bool)
    requires s.Sane() && BobKnows(s, bob, got) && bob.phase == AwaitingConfirmA
    ensures BobKnows(s, BobPoll(s, bob, ts, flushed), got)
  {
    hide InboundDecode, InboundEncode, KeyBuilder.SessionKey, IdentityBytes, KeyBuilder.GetPub, RequestChecked;
    InboundDecodeKeeps(s.env, bob.codec, bob.buf);
    var (codec, buf, o) := InboundDecode(s.env, bob.codec, bob.buf);
    if o.Got? && o.frame.SessionConfirmA? {
      var f := o.frame;
      var msg := SigMsg(bob.dhX, s.Y(), s.env.Hash(IdentityBytes(f.riA)), f.tsA, bob.tsB);
      InboundEncodeKeeps(s.env, codec, SessionConfirmB(s.env.sign(s.skB, msg)), bob.sent);
      var r := BobPoll(s, bob, ts, flushed);
      if r.phase == ConfirmingB { assert s.env.verify(f.riA, BobVerifies(s, r), f.sigA); }
    }
  }

  lemma BobPollKnows(s: Setup, bob: Bob, got: seq<byte>, ts: nat, flushed: bool)
    requires s.Sane() && BobKnows(s, bob, got)
    ensures BobKnows(s, BobPoll(s, bob, ts, flushed), got)
  {
    if bob.phase == AwaitingRequest {
      hide BobPoll, BobKnows;
      assert bob.buf == got by { BobHolds(s, bob, got); }
      BobChecksRequest(s, bob, ts, flushed);
    } else if bob.phase == AwaitingConfirmA {
      hide BobPoll, BobKnows;
      BobChecksConfirmA(s, bob, got, ts, flushed);
    } else {
      hide KeyBuilder.SessionKey, RequestChecked, Vouched, IdentityBytes, KeyBuilder.GetPub;
    }
  }

  lemma BobHolds(s: Setup, bob: Bob, got: seq<byte>)
    requires s.Sane() && BobKnows(s, bob, got)
    ensures BobWf(s, bob) && (bob.phase == AwaitingRequest ==> bob.buf == got)
  {}

  lemma BobActKnows(s: Setup, bob: Bob, got: seq<byte>, a: Act)
    requires s.Sane() && BobKnows(s, bob, got)
    ensures BobWf(s, bob) && BobKnows(s, BobAct(s, bob, a), if a.Arrive? then got + a.bytes else got)
  {
    hide KeyBuilder.SessionKey, Vouched, IdentityBytes, KeyBuilder.GetPub, DecodeStep, Encrypt, FrameOk;
    match a
    case Arrive(bytes) =>
      if |got| >= 288 {
        assert (got + bytes)[..256] == got[..256] && (got + bytes)[256..288] == got[256..288];
      }
    case Poll(ts, flushed) =>
      hide BobPoll, BobKnows;
      BobHolds(s, bob, got);
      BobPollKnows(s, bob, got, ts, flushed);
    case Send(f) =>
    case Read =>
  }

  lemma {:induction false} BobAlwaysKnows(s: Setup, acts: seq<Act>)
    requires s.Sane()
    ensures BobKnows(s, BobAlone(s, acts), Arrived(acts))
  {
    if acts != [] {
      hide BobKnows, BobAct;
      BobAlwaysKnows(s, acts[..|acts| - 1]);
      BobActKnows(s, BobAlone(s, acts[..|acts| - 1]), Arrived(acts[..|acts| - 1]), acts[|acts| - 1]);
    }
  }

  /** Whatever arrives, a responder that has accepted SessionRequest read X and
      H(X) xor H(its own identity) off the wire, and its session key is the one that goes
      with X. One that has accepted SessionConfirmA saw a signature, under the identity it
      reports, of X, Y, the hash of its own identity and both timestamps. */
  lemma ResponderAuthenticates(s: Setup, acts: seq<Act>)
    requires s.Sane()
    ensures var bob, got := BobAlone(s, acts), Arrived(acts);
            && BobWf(s, bob)
            && (bob.phase in {Creating, AwaitingConfirmA, ConfirmingB, OpenB} ==>
                  && |got| >= 288 && bob.dhX == got[..256]
                  && got[256..288] == XorBytes(s.env.Hash(bob.dhX), s.env.Hash(IdentityBytes(s.riB)))
                  && bob.codec.aes.Some? && bob.codec.aes.value.key == s.KbB().SessionKey(bob.dhX))
            && (bob.phase in {ConfirmingB, OpenB} ==>
                  && bob.riRemote.Some?
                  && exists sig :: s.env.verify(bob.riRemote.value, bob.dhX + (s.Y()
                       + (s.env.Hash(IdentityBytes(s.riB)) + (ToBE(bob.tsA, 4) + ToBE(bob.tsB, 4)))), sig))
  {
    hide BobAlone, Arrived, KeyBuilder.SessionKey, IdentityBytes, KeyBuilder.GetPub, BobWf, ToBE, XorBytes;
    BobAlwaysKnows(s, acts);
  }

  // ---------- the initiator ----------

  ghost function AliceAct(s: Setup, al: Alice, a: Act): (r: Alice)
    requires s.Sane() && AliceWf(s, al)
  {
    match a
    case Arrive(bytes) => al.(buf := al.buf + bytes)
    case Poll(ts, flushed) => AlicePoll(s, al, ts, flushed)
    case Send(f) => AliceSends(s, al, f)
    case Read => AliceReads(s, al)
  }

  ghost function AliceAlone(s: Setup, acts: seq<Act>): (al: Alice)
    requires s.Sane()
  {
    if acts == [] then AliceStart(s)
    else
      var al := AliceAlone(s, acts[..|acts| - 1]);
      if AliceWf(s, al) then AliceAct(s, al, acts[|acts| - 1]) else al
  }

  /** The bytes of SessionCreated after Y, decrypted. */
  function CreatedPlain(s: Setup, got: seq<byte>): (b: seq<byte>)
    requires s.Sane() && |got| >= 304
    ensures |b| == 48
  {
    Decrypt(s.env.cipher, s.KbA().SessionKey(got[..256]), got[240..256], got[256..304])
  }

  ghost predicate CreatedChecked(s: Setup, dhY: seq<byte>, tsB: nat, got: seq<byte>)
    requires s.Sane()
  {
    && |got| >= 304 && dhY == got[..256]
    && CreatedPlain(s, got)[..32] == s.env.Hash(s.X() + dhY) && tsB == FromBE(CreatedPlain(s, got)[32..36])
  }

  lemma CreatedReceivedIs(env: Env, cd: Outbound, dhY: seq<byte>, ct: seq<byte>)
    requires |dhY| == 256 && |ct| == 48 && env.grp == cd.kb.grp && env.grp.p > 0
    ensures var (r, o) := CreatedReceived(env, cd, dhY, ct);
            var plain := Decrypt(env.cipher, cd.kb.SessionKey(dhY), dhY[240..], ct);
            && r.kb == cd.kb && r.riRemote == cd.riRemote && r.decrypted == cd.decrypted && r.state == ConfirmAState
            && r.aes.Some? && r.aes.value.key == cd.kb.SessionKey(dhY)
            && o == Got(SessionCreated(dhY, plain[..32], FromBE(plain[32..36])))
  {
    hide KeyBuilder.SessionKey, Decrypt, FromBE, ChainAfter;
    var plain := Decrypt(env.cipher, cd.kb.SessionKey(dhY), dhY[240..], ct);
    assert plain[32..][..4] == plain[32..36];
  }

  lemma OutboundDecodeKeeps(env: Env, cd: Outbound, buf: seq<byte>)
    requires cd.decrypted <= |buf| && env.grp == cd.kb.grp && env.grp.p > 0
    requires cd.state == CreatedState ==> cd.decrypted == 0
    ensures var (r, rest, o) := OutboundDecode(env, cd, buf);
            && r.kb == cd.kb && (r.state == CreatedState ==> r.decrypted == 0)
            && (cd.state == CreatedState && o.Got? ==>
                  && |buf| >= 304 && r.state == ConfirmAState && r.aes.Some?
                  && r.aes.value.key == cd.kb.SessionKey(buf[..256])
                  && var plain := Decrypt(env.cipher, r.aes.value.key, buf[240..256], buf[256..304]);
                     o.frame == SessionCreated(buf[..256], plain[..32], FromBE(plain[32..36])))
            && (cd.state == CreatedState && o.Nothing? ==> r == cd && rest == buf)
            && (cd.state != CreatedState ==>
                  && r.state != CreatedState
                  && r.aes.Some? == cd.aes.Some? && (cd.aes.Some? ==> r.aes.value.key == cd.aes.value.key))
  {
    hide CreatedReceived, ParseCreatedOuter, ParseConfirmB, Advance, KeyBuilder.SessionKey, Decrypt, FromBE;
    if cd.state == CreatedState && |buf| >= 304 {
      CreatedReceivedIs(env, cd, buf[..256], buf[256..304]);
      assert buf[..256][240..] == buf[240..256];
    }
  }

  function AliceVerifies(s: Setup, al: Alice): (msg: seq<byte>)
    requires s.Sane()
  {
    s.X() + (al.dhY + (s.env.Hash(IdentityBytes(s.riA)) + (ToBE(al.tsA, 4) + ToBE(al.tsB, 4))))
  }

  /** What an initiator knows of its peer, of whom it has received these bytes. */
  ghost predicate AliceKnows(s: Setup, al: Alice, got: seq<byte>)
    requires s.Sane()
  {
    && AliceWf(s, al)
    && (al.phase in {Requesting, AwaitingCreated} ==> al.codec.state == CreatedState && al.buf == got)
    && (al.phase in {Confirming, AwaitingConfirmB, OpenA} ==>
          && al.codec.state != CreatedState && al.codec.aes.Some?
          && al.codec.aes.value.key == s.KbA().SessionKey(al.dhY) && CreatedChecked(s, al.dhY, al.tsB, got))
    && (al.phase == OpenA ==> Vouched(s.env, s.riB, AliceVerifies(s, al)))
  }

  lemma AliceStartKnows(s: Setup)
    requires s.Sane()
    ensures AliceKnows(s, AliceStart(s), [])
  {
    hide KeyBuilder.GetPub, IdentityBytes;
  }

  lemma AliceChecksCreated(s: Setup, al: Alice, ts: nat, flushed: bool)
    requires s.Sane() && AliceKnows(s, al, al.buf) && al.phase == AwaitingCreated
    ensures AliceKnows(s, AlicePoll(s, al, ts, flushed), al.buf)
  {
    hide OutboundDecode, KeyBuilder.SessionKey, IdentityBytes, KeyBuilder.GetPub, Encrypt, Decrypt, FromBE,
         ConfirmABytes, ToBE;
    OutboundDecodeKeeps(s.env, al.codec, al.buf);
    var (codec, buf, o) := OutboundDecode(s.env, al.codec, al.buf);
    if o.Got? {
      var msg := SigMsg(s.X(), o.frame.dhY, s.env.Hash(IdentityBytes(s.riB)), ts % 0x1_0000_0000, o.frame.tsB);
      assert msg[..512] == s.X() + o.frame.dhY;
    }
  }

  lemma AliceChecksConfirmB(s: Setup, al: Alice, got: seq<byte>, ts: nat, flushed: bool)
    requires s.Sane() && AliceKnows(s, al, got) && al.phase == AwaitingConfirmB
    ensures AliceKnows(s, AlicePoll(s, al, ts, flushed), got)
  {
    hide OutboundDecode, KeyBuilder.SessionKey, IdentityBytes, KeyBuilder.GetPub, CreatedChecked;
    OutboundDecodeKeeps(s.env, al.codec, al.buf);
    var r := AlicePoll(s, al, ts, flushed);
    if r.phase == OpenA {
      assert s.env.verify(s.riB, AliceVerifies(s, r), OutboundDecode(s.env, al.codec, al.buf).2.frame.sigB);
    }
  }

  lemma AlicePollKnows(s: Setup, al: Alice, got: seq<byte>, ts: nat, flushed: bool)
    requires s.Sane() && AliceKnows(s, al, got)
    ensures AliceKnows(s, AlicePoll(s, al, ts, flushed), got)
  {
    if al.phase == AwaitingCreated {
      hide AlicePoll, AliceKnows;
      assert al.buf == got by { AliceHolds(s, al, got); }
      AliceChecksCreated(s, al, ts, flushed);
    } else if al.phase == AwaitingConfirmB {
      hide AlicePoll, AliceKnows;
      AliceChecksConfirmB(s, al, got, ts, flushed);
    } else {
      hide KeyBuilder.SessionKey, CreatedChecked, Vouched, IdentityBytes, KeyBuilder.GetPub;
    }
  }

  lemma AliceHolds(s: Setup, al: Alice, got: seq<byte>)
    requires s.Sane() && AliceKnows(s, al, got)
    ensures AliceWf(s, al) && (al.phase == AwaitingCreated ==> al.buf == got)
  {}

  lemma CreatedStays(s: Setup, dhY: seq<byte>, tsB: nat, got: seq<byte>, more: seq<byte>)
    requires s.Sane() && CreatedChecked(s, dhY, tsB, got)
    ensures CreatedChecked(s, dhY, tsB, got + more)
  {
    hide KeyBuilder.SessionKey, Decrypt, FromBE, KeyBuilder.GetPub;
    var all := got + more;
    assert all[..256] == got[..256] && all[240..256] == got[240..256] && all[256..304] == got[256..304];
  }

  lemma AliceActKnows(s: Setup, al: Alice, got: seq<byte>, a: Act)
    requires s.Sane() && AliceKnows(s, al, got)
    ensures AliceWf(s, al) && AliceKnows(s, AliceAct(s, al, a), if a.Arrive? then got + a.bytes else got)
  {
    hide KeyBuilder.SessionKey, Vouched, IdentityBytes, KeyBuilder.GetPub, DecodeStep, Encrypt, FrameOk,
         CreatedChecked;
    match a
    case Arrive(bytes) =>
      if al.phase in {Confirming, AwaitingConfirmB, OpenA} { CreatedStays(s, al.dhY, al.tsB, got, bytes); }
    case Poll(ts, flushed) =>
      hide AlicePoll, AliceKnows;
      AliceHolds(s, al, got);
      AlicePollKnows(s, al, got, ts, flushed);
    case Send(f) =>
    case Read =>
  }

  lemma {:induction false} AliceAlwaysKnows(s: Setup, acts: seq<Act>)
    requires s.Sane()
    ensures AliceKnows(s, AliceAlone(s, acts), Arrived(acts))
  {
    hide AliceKnows, AliceAct, AliceStart;
    if acts == [] {
      AliceStartKnows(s);
    } else {
      AliceAlwaysKnows(s, acts[..|acts| - 1]);
      AliceActKnows(s, AliceAlone(s, acts[..|acts| - 1]), Arrived(acts[..|acts| - 1]), acts[|acts| - 1]);
    }
  }

  /** Whatever arrives, an initiator that has accepted SessionCreated read Y off the wire,
      and under the session key that goes with Y the 48 bytes behind it held H(X + Y) and
      the responder's timestamp. One whose connection is open saw a signature, under the
      identity it meant to reach, of X, Y, the hash of its own identity and both timestamps. */
  lemma InitiatorAuthenticates(s: Setup, acts: seq<Act>)
    requires s.Sane()
    ensures var al, got := AliceAlone(s, acts), Arrived(acts);
            && AliceWf(s, al)
            && (al.phase in {Confirming, AwaitingConfirmB, OpenA} ==>
                  && |got| >= 304 && al.dhY == got[..256]
                  && al.codec.aes.Some? && al.codec.aes.value.key == s.KbA().SessionKey(al.dhY)
                  && var plain := Decrypt(s.env.cipher, s.KbA().SessionKey(al.dhY), got[240..256], got[256..304]);
                     plain[..32] == s.env.Hash(s.X() + al.dhY) && al.tsB == FromBE(plain[32..36]))
            && (al.phase == OpenA ==>
                  exists sig :: s.env.verify(s.riB, s.X() + (al.dhY
                    + (s.env.Hash(IdentityBytes(s.riA)) + (ToBE(al.tsA, 4) + ToBE(al.tsB, 4)))), sig))
  {
    hide AliceAlone, Arrived, KeyBuilder.SessionKey, IdentityBytes, KeyBuilder.GetPub, AliceWf, ToBE, FromBE, Decrypt;
    AliceAlwaysKnows(s, acts);
  }
}
