/**
 * The two handshake codecs. Each is a state machine that reads or writes one
 * message per state and sets up the AES chains on the way.
 */
module NtcpHandshakeCodec {
  import opened Bytes
  import opened Cbc
  import opened CbcStream
  import opened NtcpFrame
  import opened NtcpHandshakeFrame
  import opened DiffieHellman

  datatype State = RequestState | CreatedState | ConfirmAState | ConfirmBState | EstablishedState

  /** An `Aes256` as a value. */
  datatype Chains = Chains(key: Key, encIv: Block, decIv: Block)

  datatype Outcome = Got(frame: HandshakeFrame) | Nothing | Error | Panic

  // ---------- shared steps ----------

  /** The handshake's decryption of a stream: as in the data phase, except that
      fewer than 16 new bytes end the call at once. */
  function Receive(env: Env, aes: Chains, decrypted: nat, buf: seq<byte>): (rx: Option<Rx>)
    requires decrypted <= |buf|
    ensures rx.Some? ==> rx.value.decrypted <= |rx.value.buf|
  {
    if |buf| - decrypted < 16 then None
    else Some(Advance(env.cipher, aes.key, Rx(aes.decIv, decrypted, buf)))
  }

  /** Encrypts a serialised message into the write buffer; None when it is larger
      than the MTU or not a positive number of whole blocks. */
  function Sealed(env: Env, aes: Chains, msg: seq<byte>, out: seq<byte>): (r: Option<(Chains, seq<byte>)>)
  {
    if |msg| > MTU || |msg| < 16 || |msg| % 16 != 0 then None
    else
      var ct := Cbc.Encrypt(env.cipher, aes.key, aes.encIv, msg);
      Some((aes.(encIv := ChainAfter(aes.encIv, ct)), out + ct))
  }

  // ---------- inbound (Bob) ----------

  datatype Inbound = Inbound(kb: KeyBuilder, ivEnc: Block, dhX: seq<byte>, ivDec: Block, state: State,
      aes: Option<Chains>, decrypted: nat)

  /** `InboundHandshakeCodec::decode`. */
  function InboundDecode(env: Env, cd: Inbound, buf: seq<byte>): (r: (Inbound, seq<byte>, Outcome))
    requires cd.decrypted <= |buf| && (cd.state == RequestState ==> cd.decrypted == 0)
    ensures r.0.decrypted <= |r.1|
  {
    match cd.state
    case RequestState =>
      (match ParseRequest(buf)
       case Done(f, rest) =>
         (cd.(dhX := f.dhX, ivDec := f.hash[16..], state := CreatedState), rest, Got(f))
       case Incomplete => (cd, buf, Nothing)
       case Failed => (cd, buf, Error)
       case Panicked => (cd, buf, Panic))
    case ConfirmAState =>
      if cd.aes.None? then (cd, buf, Panic)
      else
        var rx := Receive(env, cd.aes.value, cd.decrypted, buf);
        if rx.None? then (cd, buf, Nothing)
        else
          var rx := rx.value;
          var cd := cd.(aes := Some(cd.aes.value.(decIv := rx.decIv)), decrypted := rx.decrypted);
          (match ParseConfirmA(env, rx.buf[..rx.decrypted])
           case Done(f, rest) =>
             var rx := Consume(rx, rx.decrypted - |rest|);
             (cd.(state := ConfirmBState, decrypted := rx.decrypted), rx.buf, Got(f))
           case Incomplete => (cd, rx.buf, Nothing)
           case Failed => (cd, rx.buf, Error)
           case Panicked => (cd, rx.buf, Panic))
    case CreatedState => (cd, buf, Nothing)
    case ConfirmBState => (cd, buf, Nothing)
    case EstablishedState => (cd, buf, Nothing)
  }

  /** `InboundHandshakeCodec::encode`: None is an error return. */
  function InboundEncode(env: Env, cd: Inbound, f: HandshakeFrame, out: seq<byte>): (r: Option<(Inbound, seq<byte>)>)
    requires env.grp == cd.kb.grp && env.grp.p > 0
  {
    if cd.state == CreatedState && f.SessionCreated? then
      var aes := Chains(cd.kb.SessionKey(cd.dhX), cd.ivEnc, cd.ivDec);
      var inner := CreatedInner(f.hxy, f.tsB);
      if |inner| != 48 then None
      else
        var ct := Cbc.Encrypt(env.cipher, aes.key, aes.encIv, inner);
        Some((cd.(aes := Some(aes.(encIv := ChainAfter(aes.encIv, ct))), state := ConfirmAState), out + f.dhY + ct))
    else if cd.state == ConfirmBState && f.SessionConfirmB? && cd.aes.Some? then
      var sealed := Sealed(env, cd.aes.value, ConfirmBBytes(f.sigB), out);
      if sealed.None? then None
      else Some((cd.(aes := Some(sealed.value.0), state := EstablishedState), sealed.value.1))
    else None
  }

  // ---------- outbound (Alice) ----------

  datatype Outbound = Outbound(kb: KeyBuilder, ivEnc: Block, riRemote: RouterIdentity, state: State,
      aes: Option<Chains>, decrypted: nat)

  /** The SessionCreated step: set up the chains and decrypt the inner part. */
  function CreatedReceived(env: Env, cd: Outbound, dhY: seq<byte>, ct: seq<byte>): (r: (Outbound, Outcome))
    requires |dhY| == 256 && |ct| == 48 && env.grp == cd.kb.grp && env.grp.p > 0
    ensures r.0.decrypted == cd.decrypted
  {
    var aes := Chains(cd.kb.SessionKey(dhY), cd.ivEnc, dhY[240..]);
    var cd := cd.(aes := Some(aes.(decIv := ChainAfter(aes.decIv, ct))));
    match ParseCreatedInner(Cbc.Decrypt(env.cipher, aes.key, aes.decIv, ct))
    case Done((hxy, tsB), _) => (cd.(state := ConfirmAState), Got(SessionCreated(dhY, hxy, tsB)))
    case Incomplete => (cd, Error)
    case Failed => (cd, Error)
    case Panicked => (cd, Panic)
  }

  /** `OutboundHandshakeCodec::decode`. */
  function OutboundDecode(env: Env, cd: Outbound, buf: seq<byte>): (r: (Outbound, seq<byte>, Outcome))
    requires cd.decrypted <= |buf| && env.grp == cd.kb.grp && env.grp.p > 0
    requires cd.state == CreatedState ==> cd.decrypted == 0
    ensures r.0.decrypted <= |r.1|
  {
    match cd.state
    case CreatedState =>
      (match ParseCreatedOuter(buf)
       case Done((dhY, ct), rest) =>
         var (cd, o) := CreatedReceived(env, cd, dhY, ct);
         (cd, if o.Got? then rest else buf, o)
       case Incomplete => (cd, buf, Nothing)
       case Failed => (cd, buf, Error)
       case Panicked => (cd, buf, Panic))
    case ConfirmBState =>
      if cd.aes.None? then (cd, buf, Panic)
      else
        var rx := Receive(env, cd.aes.value, cd.decrypted, buf);
        if rx.None? then (cd, buf, Nothing)
        else
          var rx := rx.value;
          var cd := cd.(aes := Some(cd.aes.value.(decIv := rx.decIv)), decrypted := rx.decrypted);
          (match ParseConfirmB(env, cd.riRemote, rx.buf[..rx.decrypted])
           case Done(f, rest) =>
             var rx := Consume(rx, rx.decrypted - |rest|);
             (cd.(state := EstablishedState, decrypted := rx.decrypted), rx.buf, Got(f))
           case Incomplete => (cd, rx.buf, Nothing)
           case Failed => (cd, rx.buf, Error)
           case Panicked => (cd, rx.buf, Panic))
    case RequestState => (cd, buf, Nothing)
    case ConfirmAState => (cd, buf, Nothing)
    case EstablishedState => (cd, buf, Nothing)
  }

  /** `OutboundHandshakeCodec::encode`. */
  function OutboundEncode(env: Env, cd: Outbound, f: HandshakeFrame, out: seq<byte>): (r: Option<(Outbound, seq<byte>)>)
  {
    if cd.state == RequestState && f.SessionRequest? then
      if |RequestBytes(f.dhX, f.hash)| > MTU then None
      else Some((cd.(state := CreatedState), out + RequestBytes(f.dhX, f.hash)))
    else if cd.state == ConfirmAState && f.SessionConfirmA? && cd.aes.Some? then
      var sealed := Sealed(env, cd.aes.value, ConfirmABytes(env, f.riA, f.tsA, f.sigA), out);
      if sealed.None? then None
      else Some((cd.(aes := Some(sealed.value.0), state := ConfirmBState), sealed.value.1))
    else None
  }

  // ---------- the codecs as the source keeps them ----------

  /** Receives into a mutable buffer: the new watermark, or None when there was no whole
      block to decrypt. */
  method ReceiveInto(env: Env, aes: Aes256, decrypted: nat, buf: ByteBuf) returns (now: Option<nat>)
    requires decrypted <= |buf.data| && aes.cipher == env.cipher
    modifies aes, buf
    ensures aes.encIv == old(aes.encIv)
    ensures now == if old(|buf.data|) - decrypted < 16 then None
                   else Some(Advance(env.cipher, aes.key, old(Rx(aes.decIv, decrypted, buf.data))).decrypted)
    ensures now.None? ==> buf.data == old(buf.data) && aes.decIv == old(aes.decIv)
    ensures now.Some? ==>
              Rx(aes.decIv, now.value, buf.data)
              == Advance(env.cipher, aes.key, old(Rx(aes.decIv, decrypted, buf.data)))
  {
    hide Cbc.Decrypt;
    var tail := buf.data[decrypted..];
    var out, end := aes.DecryptBlocks(tail);
    buf.data := buf.data[..decrypted] + out;
    if end.None? {
      assert tail[..0] == [] && buf.data == old(buf.data);
      return None;
    }
    now := Some(decrypted + end.value);
  }

  class InboundHandshakeCodec {
    const env: Env
    const kb: KeyBuilder
    const ivEnc: Block
    var dhX: seq<byte>
    var ivDec: Block
    var state: State
    var aes: Aes256?
    var decrypted: nat

    constructor (env: Env, kb: KeyBuilder, ivEnc: Block)
      ensures this.env == env && aes == null
      ensures Abstract() == Inbound(kb, ivEnc, [], seq(16, _ => 0), RequestState, None, 0)
    {
      this.env, this.kb, this.ivEnc := env, kb, ivEnc;
      dhX, ivDec, state, aes, decrypted := [], seq(16, _ => 0), RequestState, null, 0;
    }

    ghost predicate Valid()
      reads this
    {
      && (aes != null ==> aes.cipher == env.cipher) && env.grp == kb.grp && env.grp.p > 0
      && (state == RequestState ==> decrypted == 0)
    }

    ghost function Abstract(): (cd: Inbound)
      reads this, aes
    {
      var chains := if aes == null then None else Some(Chains(aes.key, aes.encIv, aes.decIv));
      Inbound(kb, ivEnc, dhX, ivDec, state, chains, decrypted)
    }

    /** `decode`. */
    method Decode(buf: ByteBuf) returns (r: Outcome)
      requires Valid() && decrypted <= |buf.data|
      modifies this, aes, buf
      ensures Valid() && (Abstract(), buf.data, r) == InboundDecode(env, old(Abstract()), old(buf.data))
    {
      hide Advance, ParseConfirmA;
      match state {
        case RequestState =>
          match ParseRequest(buf.data) {
            case Incomplete => return Nothing;
            case Done(f, rest) =>
              dhX := f.dhX;
              ivDec := f.hash[16..];
              buf.data := rest;
              state := CreatedState;
              return Got(f);
          }
        case ConfirmAState =>
          if aes == null { return Panic; }
          var now := ReceiveInto(env, aes, decrypted, buf);
          if now.None? { return Nothing; }
          decrypted := now.value;
          match ParseConfirmA(env, buf.data[..decrypted]) {
            case Incomplete => return Nothing;
            case Failed => return Error;
            case Panicked => return Panic;
            case Done(f, rest) =>
              var consumed := decrypted - |rest|;
              buf.data := buf.data[consumed..];
              decrypted := decrypted - consumed;
              state := ConfirmBState;
              return Got(f);
          }
        case CreatedState => return Nothing;
        case ConfirmBState => return Nothing;
        case EstablishedState => return Nothing;
      }
    }

    /** `encode`. */
    method Encode(f: HandshakeFrame, buf: ByteBuf) returns (ok: bool)
      requires Valid()
      modifies this, aes, buf
      ensures Valid()
      ensures ok <==> InboundEncode(env, old(Abstract()), f, old(buf.data)).Some?
      ensures ok ==> (Abstract(), buf.data) == InboundEncode(env, old(Abstract()), f, old(buf.data)).value
      ensures aes == old(aes) || fresh(aes)
    {
      hide CreatedInner, ConfirmBBytes;
      match (state, f) {
        case (CreatedState, SessionCreated(dhY, hxy, tsB)) =>
          var key := kb.BuildSessionKey(dhX);
          var inner := CreatedInner(hxy, tsB);
          if |inner| != 48 { return false; }
          aes := new Aes256(env.cipher, key, ivEnc, ivDec);
          var ct, end := aes.EncryptBlocks(inner);
          assert inner[..48] == inner && ct[..48] == ct;
          buf.data := buf.data + dhY + ct;
          state := ConfirmAState;
          return true;
        case (ConfirmBState, SessionConfirmB(sig)) =>
          if aes == null { return false; }
          var msg := ConfirmBBytes(sig);
          ok := SealInto(env, aes, msg, buf);
          if ok { state := EstablishedState; }
        case _ => return false;
      }
    }
  }

  /** Appends the encryption of a message to a buffer. */
  method SealInto(env: Env, aes: Aes256, msg: seq<byte>, buf: ByteBuf) returns (ok: bool)
    requires aes.cipher == env.cipher
    modifies aes, buf
    ensures ok <==> Sealed(env, old(Chains(aes.key, aes.encIv, aes.decIv)), msg, old(buf.data)).Some?
    ensures ok ==> Sealed(env, old(Chains(aes.key, aes.encIv, aes.decIv)), msg, old(buf.data)).value
                   == (Chains(aes.key, aes.encIv, aes.decIv), buf.data)
    ensures !ok ==> buf.data == old(buf.data) && aes.encIv == old(aes.encIv)
    ensures aes.decIv == old(aes.decIv)
  {
    if |msg| > MTU || |msg| < 16 || |msg| % 16 != 0 {
      return false;
    }
    var ct, end := aes.EncryptBlocks(msg);
    assert msg[..|msg|] == msg && ct[..|msg|] == ct;
    buf.data := buf.data + ct;
    ok := end == Some(|msg|);
  }

  class OutboundHandshakeCodec {
    const env: Env
    const kb: KeyBuilder
    const ivEnc: Block
    const riRemote: RouterIdentity
    var state: State
    var aes: Aes256?
    var decrypted: nat

    constructor (env: Env, kb: KeyBuilder, ivEnc: Block, riRemote: RouterIdentity)
      ensures this.env == env && aes == null
      ensures Abstract() == Outbound(kb, ivEnc, riRemote, RequestState, None, 0)
    {
      this.env, this.kb, this.ivEnc, this.riRemote := env, kb, ivEnc, riRemote;
      state, aes, decrypted := RequestState, null, 0;
    }

    ghost predicate Valid()
      reads this
    {
      && (aes != null ==> aes.cipher == env.cipher) && env.grp == kb.grp && env.grp.p > 0
      && (state == CreatedState ==> decrypted == 0)
    }

    ghost function Abstract(): (cd: Outbound)
      reads this, aes
    {
      var chains := if aes == null then None else Some(Chains(aes.key, aes.encIv, aes.decIv));
      Outbound(kb, ivEnc, riRemote, state, chains, decrypted)
    }

    method CreatedArrived(dhY: seq<byte>, ct: seq<byte>) returns (r: Outcome)
      requires Valid() && |dhY| == 256 && |ct| == 48
      modifies this
      ensures Valid() && (Abstract(), r) == CreatedReceived(env, old(Abstract()), dhY, ct)
      ensures aes != null && fresh(aes)
    {
      hide ParseCreatedInner;
      var key := kb.BuildSessionKey(dhY);
      aes := new Aes256(env.cipher, key, ivEnc, dhY[240..]);
      var pt, end := aes.DecryptBlocks(ct);
      assert ct[..48] == ct && ct[48..] == [];
      assert pt == Cbc.Decrypt(env.cipher, key, dhY[240..], ct);
      match ParseCreatedInner(pt) {
        case Incomplete => return Error;
        case Failed => return Error;
        case Panicked => return Panic;
        case Done((hxy, tsB), _) =>
          state := ConfirmAState;
          return Got(SessionCreated(dhY, hxy, tsB));
      }
    }

    /** `decode`. */
    method Decode(buf: ByteBuf) returns (r: Outcome)
      requires Valid() && decrypted <= |buf.data|
      modifies this, aes, buf
      ensures Valid() && (Abstract(), buf.data, r) == OutboundDecode(env, old(Abstract()), old(buf.data))
    {
      hide Advance, ParseConfirmB, CreatedReceived;
      match state {
        case CreatedState =>
          match ParseCreatedOuter(buf.data) {
            case Incomplete => return Nothing;
            case Done((dhY, ct), rest) =>
              r := CreatedArrived(dhY, ct);
              if r.Got? { buf.data := rest; }
              return;
          }
        case ConfirmBState =>
          if aes == null { return Panic; }
          var now := ReceiveInto(env, aes, decrypted, buf);
          if now.None? { return Nothing; }
          decrypted := now.value;
          match ParseConfirmB(env, riRemote, buf.data[..decrypted]) {
            case Incomplete => return Nothing;
            case Failed => return Error;
            case Panicked => return Panic;
            case Done(f, rest) =>
              var consumed := decrypted - |rest|;
              buf.data := buf.data[consumed..];
              decrypted := decrypted - consumed;
              state := EstablishedState;
              return Got(f);
          }
        case RequestState => return Nothing;
        case ConfirmAState => return Nothing;
        case EstablishedState => return Nothing;
      }
    }

    /** `encode`. */
    method Encode(f: HandshakeFrame, buf: ByteBuf) returns (ok: bool)
      requires Valid() && (state == RequestState ==> decrypted == 0)
      modifies this, aes, buf
      ensures Valid()
      ensures ok <==> OutboundEncode(env, old(Abstract()), f, old(buf.data)).Some?
      ensures ok ==> (Abstract(), buf.data) == OutboundEncode(env, old(Abstract()), f, old(buf.data)).value
    {
      hide ConfirmABytes;
      match (state, f) {
        case (RequestState, SessionRequest(dhX, hash)) =>
          if |RequestBytes(dhX, hash)| > MTU { return false; }
          buf.data := buf.data + RequestBytes(dhX, hash);
          state := CreatedState;
          return true;
        case (ConfirmAState, SessionConfirmA(ri, tsA, sig)) =>
          if aes == null { return false; }
          ok := SealInto(env, aes, ConfirmABytes(env, ri, tsA, sig), buf);
          if ok { state := ConfirmBState; }
        case _ => return false;
      }
    }
  }
}
