/**
 * The NTCP handshake as a two-party protocol. Alice and Bob exchange four
 * messages and then data frames over a pipe in each direction that keeps order
 * and loses nothing, but may deliver any number of bytes at a time.
 */
module NtcpHandshake {
  import opened Bytes
  import opened Cbc
  import opened CbcStream
  import opened NtcpFrame
  import opened NtcpCodec
  import opened NtcpHandshakeFrame
  import opened NtcpHandshakeCodec
  import opened DiffieHellman

  // ---------- the parties ----------

  /** What is fixed before a run: identities, signing keys, Diffie-Hellman keys. */
  datatype Setup = Setup(env: Env, riA: RouterIdentity, skA: seq<byte>, riB: RouterIdentity, skB: seq<byte>,
      privA: nat, privB: nat) {

    predicate Sane() { env.grp.p > 0 }

    /** Honest parties: their signatures verify and have the announced length, and
        their identities parse and leave room for the handshake within the MTU. */
    ghost predicate Valid() {
      env.Valid() && Honest(env, riA, skA) && Honest(env, riB, skB)
    }

    function KbA(): (kb: KeyBuilder) { KeyBuilder(env.grp, privA) }
    function KbB(): (kb: KeyBuilder) { KeyBuilder(env.grp, privB) }

    function X(): (b: seq<byte>) requires Sane() ensures |b| == 256 { KbA().GetPub() }
    function Y(): (b: seq<byte>) requires Sane() ensures |b| == 256 { KbB().GetPub() }

    /** The session key, as Alice derives it. */
    function K(): (key: Key) requires Sane() { KbA().SessionKey(Y()) }

    /** H(X) xor H(RI_B), the second half of SessionRequest. */
    function HX(): (h: seq<byte>)
      requires Sane()
      ensures |h| == 32
    {
      XorBytes(env.Hash(X()), env.Hash(IdentityBytes(riB)))
    }

    function IvA(): (iv: Block) requires Sane() { HX()[16..] }
    function IvB(): (iv: Block) requires Sane() { Y()[240..] }

    function SigMsgFor(ri: RouterIdentity, tsA: nat, tsB: nat): (m: seq<byte>)
      requires Sane()
    {
      SigMsg(X(), Y(), env.Hash(IdentityBytes(ri)), tsA, tsB)
    }

    /** The four messages of an undisturbed run. */
    function Msg1(): (b: seq<byte>) requires Sane() ensures |b| == 288 { RequestBytes(X(), HX()) }
    function Inner2(tsB: nat): (b: seq<byte>) requires Sane() { CreatedInner(env.Hash(X() + Y()), tsB) }
    function Msg3(tsA: nat, tsB: nat): (b: seq<byte>) requires Sane() {
      ConfirmABytes(env, riA, tsA, env.sign(skA, SigMsgFor(riB, tsA, tsB)))
    }
    function Msg4(tsA: nat, tsB: nat): (b: seq<byte>) requires Sane() {
      ConfirmBBytes(env.sign(skB, SigMsgFor(riA, tsA, tsB)))
    }
  }

  ghost predicate Honest(env: Env, ri: RouterIdentity, sk: seq<byte>)
  {
    && IdentityWellFormed(env, ri) && env.sigLen(ri) > 0
    && |IdentityBytes(ri)| + env.sigLen(ri) + 21 <= MTU
    && forall m :: |env.sign(sk, m)| == env.sigLen(ri) && env.verify(ri, m, env.sign(sk, m))
  }

  datatype APhase = Requesting | AwaitingCreated | Confirming | AwaitingConfirmB | OpenA | BrokenA {
    function Rank(): (n: nat) {
      match this case Requesting => 0 case AwaitingCreated => 1 case Confirming => 2
        case AwaitingConfirmB => 3 case OpenA => 4 case BrokenA => 9
    }
  }

  datatype BPhase = AwaitingRequest | Creating | AwaitingConfirmA | ConfirmingB | OpenB | BrokenB {
    function Rank(): (n: nat) {
      match this case AwaitingRequest => 0 case Creating => 1 case AwaitingConfirmA => 2
        case ConfirmingB => 3 case OpenB => 4 case BrokenB => 9
    }
  }

  /** The initiator: `OBHandshake`, its codec, its read buffer, everything it has
      written, and the data frames it has sent and received. */
  datatype Alice = Alice(phase: APhase, codec: Outbound, dhY: seq<byte>, tsA: nat, tsB: nat,
                         buf: seq<byte>, sent: seq<byte>, framesOut: seq<Frame>, framesIn: seq<Frame>)

  /** The responder: `IBHandshake` and the same around it. */
  datatype Bob = Bob(phase: BPhase, codec: Inbound, riRemote: Option<RouterIdentity>, dhX: seq<byte>, tsA: nat,
      tsB: nat,
                     buf: seq<byte>, sent: seq<byte>, framesOut: seq<Frame>, framesIn: seq<Frame>)

  ghost predicate AliceWf(s: Setup, al: Alice)
  {
    && al.codec.kb == s.KbA() && al.codec.decrypted <= |al.buf|
    && (al.codec.state == CreatedState ==> al.codec.decrypted == 0)
  }

  ghost predicate BobWf(s: Setup, bob: Bob)
  {
    && bob.codec.kb == s.KbB() && bob.codec.decrypted <= |bob.buf|
    && (bob.codec.state == RequestState ==> bob.codec.decrypted == 0)
  }

  // ---------- steps of the initiator ----------

  /** `OBHandshake::new`: SessionRequest is written at once. */
  function AliceStart(s: Setup): (al: Alice)
    requires s.Sane()
  {
    var codec := Outbound(s.KbA(), s.IvA(), s.riB, RequestState, None, 0);
    var al := Alice(Requesting, codec, [], 0, 0, [], [], [], []);
    var sent := OutboundEncode(s.env, codec, SessionRequest(s.X(), s.HX()), []);
    if sent.None? then al.(phase := BrokenA) else al.(codec := sent.value.0, sent := sent.value.1)
  }

  /** On SessionCreated: check the hash, sign, send SessionConfirmA. */
  function AliceConfirms(s: Setup, al: Alice, f: HandshakeFrame, ts: nat): (r: Alice)
    requires s.Sane() && f.SessionCreated?
  {
    var al := al.(dhY := f.dhY, tsA := ts % 0x1_0000_0000, tsB := f.tsB);
    var msg := SigMsg(s.X(), al.dhY, s.env.Hash(IdentityBytes(s.riB)), al.tsA, al.tsB);
    if |msg| < 512 || s.env.Hash(msg[..512]) != f.hxy then al.(phase := BrokenA)
    else
      var sent := OutboundEncode(s.env, al.codec, SessionConfirmA(s.riA, al.tsA, s.env.sign(s.skA, msg)), al.sent);
      if sent.None? then al.(phase := BrokenA)
      else al.(phase := Confirming, codec := sent.value.0, sent := sent.value.1)
  }

  /** One turn of the loop in `OBHandshake::poll`; `flushed` says whether a pending
      send has completed. */
  function AlicePoll(s: Setup, al: Alice, ts: nat, flushed: bool): (r: Alice)
    requires s.Sane() && AliceWf(s, al)
  {
    match al.phase
    case Requesting => if flushed then al.(phase := AwaitingCreated) else al
    case AwaitingCreated =>
      var (codec, buf, o) := OutboundDecode(s.env, al.codec, al.buf);
      var al := al.(codec := codec, buf := buf);
      if o.Nothing? then al
      else if o.Got? && o.frame.SessionCreated? then AliceConfirms(s, al, o.frame, ts)
      else al.(phase := BrokenA)
    case Confirming => if flushed then al.(phase := AwaitingConfirmB) else al
    case AwaitingConfirmB =>
      var (codec, buf, o) := OutboundDecode(s.env, al.codec, al.buf);
      var al := al.(codec := codec, buf := buf);
      if o.Nothing? then al
      else if o.Got? && o.frame.SessionConfirmB?
           && s.env.verify(s.riB, SigMsg(s.X(), al.dhY, s.env.Hash(IdentityBytes(s.riA)), al.tsA, al.tsB), o.frame.sigB)
      then al.(phase := OpenA)
      else al.(phase := BrokenA)
    case OpenA => al
    case BrokenA => al
  }

  // ---------- steps of the responder ----------

  function BobStart(s: Setup): (bob: Bob)
    requires s.Sane()
  {
    Bob(AwaitingRequest, Inbound(s.KbB(), s.IvB(), [], Zeros(16), RequestState, None, 0), None, [], 0, 0, [], [], [],
        [])
  }

  /** On SessionRequest: check the hash, send SessionCreated. */
  function BobCreates(s: Setup, bob: Bob, f: HandshakeFrame, ts: nat): (r: Bob)
    requires s.Sane() && f.SessionRequest? && bob.codec.kb == s.KbB()
  {
    if f.hash != XorBytes(s.env.Hash(f.dhX), s.env.Hash(IdentityBytes(s.riB))) then bob.(phase := BrokenB)
    else
      var bob := bob.(dhX := f.dhX, tsB := ts % 0x1_0000_0000);
      var sent := InboundEncode(s.env, bob.codec, SessionCreated(s.Y(), s.env.Hash(bob.dhX + s.Y()), bob.tsB),
                                bob.sent);
      if sent.None? then bob.(phase := BrokenB)
      else bob.(phase := Creating, codec := sent.value.0, sent := sent.value.1)
  }

  /** On SessionConfirmA: check the signature, sign, send SessionConfirmB. */
  function BobConfirms(s: Setup, bob: Bob, f: HandshakeFrame): (r: Bob)
    requires s.Sane() && f.SessionConfirmA? && bob.codec.kb == s.KbB()
  {
    var bob := bob.(riRemote := Some(f.riA), tsA := f.tsA);
    if !s.env.verify(f.riA, SigMsg(bob.dhX, s.Y(), s.env.Hash(IdentityBytes(s.riB)), bob.tsA, bob.tsB), f.sigA)
    then bob.(phase := BrokenB)
    else
      var msg := SigMsg(bob.dhX, s.Y(), s.env.Hash(IdentityBytes(f.riA)), bob.tsA, bob.tsB);
      var sent := InboundEncode(s.env, bob.codec, SessionConfirmB(s.env.sign(s.skB, msg)), bob.sent);
      if sent.None? then bob.(phase := BrokenB)
      else bob.(phase := ConfirmingB, codec := sent.value.0, sent := sent.value.1)
  }

  /** One turn of the loop in `IBHandshake::poll`. */
  function BobPoll(s: Setup, bob: Bob, ts: nat, flushed: bool): (r: Bob)
    requires s.Sane() && BobWf(s, bob)
  {
    match bob.phase
    case AwaitingRequest =>
      var (codec, buf, o) := InboundDecode(s.env, bob.codec, bob.buf);
      var bob := bob.(codec := codec, buf := buf);
      if o.Nothing? then bob
      else if o.Got? && o.frame.SessionRequest? then BobCreates(s, bob, o.frame, ts)
      else bob.(phase := BrokenB)
    case Creating => if flushed then bob.(phase := AwaitingConfirmA) else bob
    case AwaitingConfirmA =>
      var (codec, buf, o) := InboundDecode(s.env, bob.codec, bob.buf);
      var bob := bob.(codec := codec, buf := buf);
      if o.Nothing? then bob
      else if o.Got? && o.frame.SessionConfirmA? then BobConfirms(s, bob, o.frame)
      else bob.(phase := BrokenB)
    case ConfirmingB => if flushed then bob.(phase := OpenB) else bob
    case OpenB => bob
    case BrokenB => bob
  }

  // ---------- data phase ----------

  /** Encodes a data frame with the chains the handshake handed over. */
  function DataSent(env: Env, aes: Chains, f: Frame, out: seq<byte>): (r: (Chains, seq<byte>))
  {
    var ct := Cbc.Encrypt(env.cipher, aes.key, aes.encIv, FrameBytes(env.sum, f));
    (aes.(encIv := ChainAfter(aes.encIv, ct)), out + ct)
  }

  ghost function AliceSends(s: Setup, al: Alice, f: Frame): (r: Alice)
  {
    if al.phase != OpenA || !FrameOk(s.env.sum, f) || al.codec.aes.None? then al
    else
      var (aes, sent) := DataSent(s.env, al.codec.aes.value, f, al.sent);
      al.(codec := al.codec.(aes := Some(aes)), sent := sent, framesOut := al.framesOut + [f])
  }

  ghost function BobSends(s: Setup, bob: Bob, f: Frame): (r: Bob)
  {
    if bob.phase != OpenB || !FrameOk(s.env.sum, f) || bob.codec.aes.None? then bob
    else
      var (aes, sent) := DataSent(s.env, bob.codec.aes.value, f, bob.sent);
      bob.(codec := bob.codec.(aes := Some(aes)), sent := sent, framesOut := bob.framesOut + [f])
  }

  function AliceReads(s: Setup, al: Alice): (r: Alice)
    requires al.codec.decrypted <= |al.buf|
  {
    if al.phase != OpenA || al.codec.aes.None? then al
    else
      var aes := al.codec.aes.value;
      var (rx, d) := DecodeStep(s.env.sum, s.env.cipher, aes.key, Rx(aes.decIv, al.codec.decrypted, al.buf));
      var al := al.(codec := al.codec.(aes := Some(aes.(decIv := rx.decIv)), decrypted := rx.decrypted), buf := rx.buf);
      match d
      case Item(f) => al.(framesIn := al.framesIn + [f])
      case NoFrame => al
      case ParseError => al.(phase := BrokenA)
      case Panic => al.(phase := BrokenA)
  }

  function BobReads(s: Setup, bob: Bob): (r: Bob)
    requires bob.codec.decrypted <= |bob.buf|
  {
    if bob.phase != OpenB || bob.codec.aes.None? then bob
    else
      var aes := bob.codec.aes.value;
      var (rx, d) := DecodeStep(s.env.sum, s.env.cipher, aes.key, Rx(aes.decIv, bob.codec.decrypted, bob.buf));
      var bob := bob.(codec := bob.codec.(aes := Some(aes.(decIv := rx.decIv)), decrypted := rx.decrypted),
                      buf := rx.buf);
      match d
      case Item(f) => bob.(framesIn := bob.framesIn + [f])
      case NoFrame => bob
      case ParseError => bob.(phase := BrokenB)
      case Panic => bob.(phase := BrokenB)
  }

  // ---------- runs ----------

  /** Both parties and how much of each pipe has been delivered. */
  datatype System = System(alice: Alice, bob: Bob, toAlice: nat, toBob: nat)

  datatype Event =
    | DeliverToAlice(count: nat)
    | DeliverToBob(count: nat)
    | PollAlice(ts: nat, flushed: bool)
    | PollBob(ts: nat, flushed: bool)
    | SendAlice(frame: Frame)
    | SendBob(frame: Frame)
    | ReadAlice
    | ReadBob

  ghost predicate SystemWf(s: Setup, y: System)
  {
    AliceWf(s, y.alice) && BobWf(s, y.bob) && y.toAlice <= |y.bob.sent| && y.toBob <= |y.alice.sent|
  }

  ghost function Step(s: Setup, y: System, e: Event): (r: System)
    requires s.Sane() && SystemWf(s, y)
  {
    match e
    case DeliverToAlice(count) =>
      var n := Min(y.toAlice + count, |y.bob.sent|);
      y.(toAlice := n, alice := y.alice.(buf := y.alice.buf + y.bob.sent[y.toAlice..n]))
    case DeliverToBob(count) =>
      var n := Min(y.toBob + count, |y.alice.sent|);
      y.(toBob := n, bob := y.bob.(buf := y.bob.buf + y.alice.sent[y.toBob..n]))
    case PollAlice(ts, flushed) => y.(alice := AlicePoll(s, y.alice, ts, flushed))
    case PollBob(ts, flushed) => y.(bob := BobPoll(s, y.bob, ts, flushed))
    case SendAlice(f) => y.(alice := AliceSends(s, y.alice, f))
    case SendBob(f) => y.(bob := BobSends(s, y.bob, f))
    case ReadAlice => y.(alice := AliceReads(s, y.alice))
    case ReadBob => y.(bob := BobReads(s, y.bob))
  }

  function Start(s: Setup): (y: System)
    requires s.Sane()
  {
    System(AliceStart(s), BobStart(s), 0, 0)
  }

  /** The state after a sequence of events. A malformed state would stop the run;
      `AgreementInvariant` shows that there is none. */
  ghost function Run(s: Setup, es: seq<Event>): (y: System)
    requires s.Sane()
  {
    if es == [] then Start(s)
    else
      var y := Run(s, es[..|es| - 1]);
      if SystemWf(s, y) then Step(s, y, es[|es| - 1]) else y
  }
}
