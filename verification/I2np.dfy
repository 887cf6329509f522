/**
 * I2NP messages and their wire format. Messages nest: a Garlic message carries
 * cloves, and a clove carries a message.
 */
module I2np {
  import opened Bytes
  import opened Parsing

  // ---------- messages ----------

  /** A certificate: a kind and its payload. The fields inside a key certificate
      (kind 5) are not taken apart. */
  datatype Certificate = Certificate(kind: byte, payload: seq<byte>)

  datatype DeliveryInstructions = DeliveryInstructions(
    encrypted: bool,
    deliveryType: nat,
    delaySet: bool,
    sessionKey: Option<seq<byte>>,
    toHash: Option<seq<byte>>,
    tid: Option<nat>,
    delay: Option<nat>)

  datatype Clove = Clove(instructions: DeliveryInstructions, msg: Message, cloveId: nat, expiration: nat,
      cert: Certificate)

  datatype ReplyEncryption = ReplyEncryption(key: seq<byte>, tags: seq<seq<byte>>)

  datatype Payload =
    | DatabaseLookup(key: seq<byte>, from: seq<byte>, lookupType: nat, replyTid: Option<nat>,
                     excludedPeers: seq<seq<byte>>, replyEnc: Option<ReplyEncryption>)
    | DatabaseSearchReply(dsrKey: seq<byte>, peers: seq<seq<byte>>, dsrFrom: seq<byte>)
    | DeliveryStatus(statusId: nat, timeStamp: nat)
    | Garlic(cloves: seq<Clove>, cert: Certificate, garlicId: nat, garlicExpiration: nat)
    | TunnelData(tdTid: nat, tdData: seq<byte>)
    | TunnelGateway(tgTid: nat, tgData: seq<byte>)
    | Data(data: seq<byte>)
    | TunnelBuild(tb: seq<seq<byte>>)
    | TunnelBuildReply(tbr: seq<seq<byte>>)
    | VariableTunnelBuild(vtb: seq<seq<byte>>)
    | VariableTunnelBuildReply(vtbr: seq<seq<byte>>)

  datatype Message = Message(id: nat, expiration: nat, payload: Payload)

  /** The first byte of the SHA-256 hash of a payload. */
  type Checksum = seq<byte> -> byte

  // ---------- which messages can be written faithfully ----------

  predicate CertificateOk(c: Certificate)
  {
    c.kind <= 5 && ((c.kind == 0 || c.kind == 2) ==> c.payload == []) && |c.payload| < Pow(256, 2)
  }

  predicate InstructionsOk(d: DeliveryInstructions)
  {
    && d.deliveryType < 4
    && (d.encrypted <==> d.sessionKey.Some?) && (d.encrypted ==> |d.sessionKey.value| == 32)
    && (d.deliveryType != 0 <==> d.toHash.Some?) && (d.deliveryType != 0 ==> |d.toHash.value| == 32)
    && (d.deliveryType == 3 <==> d.tid.Some?) && (d.deliveryType == 3 ==> d.tid.value < Pow(256, 4))
    && (d.delaySet <==> d.delay.Some?) && (d.delaySet ==> d.delay.value < Pow(256, 4))
  }

  ghost predicate CloveOk(sum: Checksum, c: Clove)
    decreases c
  {
    InstructionsOk(c.instructions) && MessageOk(sum, c.msg) && c.cloveId < Pow(256, 4)
    && c.expiration < Pow(256, 8) && CertificateOk(c.cert)
  }

  ghost predicate PayloadOk(sum: Checksum, p: Payload)
    decreases p
  {
    match p
    case DatabaseLookup(key, from, lookupType, replyTid, excluded, replyEnc) =>
      && |key| == 32 && |from| == 32 && lookupType < 4
      && (replyTid.Some? ==> replyTid.value < Pow(256, 4))
      && AllSized(excluded, 32) && |excluded| < Pow(256, 2)
      && (replyEnc.Some? ==>
            |replyEnc.value.key| == 32 && AllSized(replyEnc.value.tags, 32) && |replyEnc.value.tags| < 256)
    case DatabaseSearchReply(key, peers, from) => |key| == 32 && AllSized(peers, 32) && |peers| < 256 && |from| == 32
    case DeliveryStatus(id, ts) => id < Pow(256, 4) && ts < Pow(256, 8)
    case Garlic(cloves, cert, id, exp) =>
      && |cloves| < 256 && (forall i :: 0 <= i < |cloves| ==> CloveOk(sum, cloves[i]))
      && CertificateOk(cert) && id < Pow(256, 4) && exp < Pow(256, 8)
    case TunnelData(tid, data) => tid < Pow(256, 4) && |data| == 1024
    case TunnelGateway(tid, data) => false
    case Data(data) => |data| < Pow(256, 4)
    case TunnelBuild(tb) => |tb| == 8 && AllSized(tb, 528)
    case TunnelBuildReply(tb) => |tb| == 8 && AllSized(tb, 528)
    case VariableTunnelBuild(tb) => |tb| < 256 && AllSized(tb, 528)
    case VariableTunnelBuildReply(tb) => |tb| < 256 && AllSized(tb, 528)
  }

  /** Every number and list fits the width of its field, at every depth. */
  ghost predicate MessageOk(sum: Checksum, m: Message)
    decreases m
  {
    m.id < Pow(256, 4) && m.expiration < Pow(256, 8) && PayloadOk(sum, m.payload)
    && |PayloadBytes(sum, m.payload)| < Pow(256, 2)
  }

  // ---------- writing ----------

  function CertificateBytes(c: Certificate): (b: seq<byte>)
  {
    [c.kind] + (ToBE(|c.payload|, 2) + c.payload)
  }

  function Flag(on: bool, bit: byte): (b: byte) { if on then bit else 0 }

  function Optional(x: Option<seq<byte>>): (b: seq<byte>) { if x.Some? then x.value else [] }

  function OptionalU32(x: Option<nat>): (b: seq<byte>) { if x.Some? then ToBE(x.value, 4) else [] }

  function InstructionsBytes(d: DeliveryInstructions): (b: seq<byte>)
  {
    var flags := Flag(d.encrypted, 128) + (d.deliveryType % 4) * 32 + Flag(d.delaySet, 16);
    [flags] + (Optional(d.sessionKey) + (Optional(d.toHash) + (OptionalU32(d.tid) + OptionalU32(d.delay))))
  }

  function CloveBytes(sum: Checksum, c: Clove): (b: seq<byte>)
    decreases c
  {
    InstructionsBytes(c.instructions)
    + (MessageBytes(sum, c.msg) + (ToBE(c.cloveId, 4) + (ToBE(c.expiration, 8) + CertificateBytes(c.cert))))
  }

  function ClovesBytes(sum: Checksum, cs: seq<Clove>): (b: seq<byte>)
    decreases cs
  {
    if cs == [] then [] else CloveBytes(sum, cs[0]) + ClovesBytes(sum, cs[1..])
  }

  function ReplyEncBytes(r: Option<ReplyEncryption>): (b: seq<byte>)
  {
    if r.Some? then r.value.key + ([|r.value.tags| % 256] + Concat(r.value.tags)) else []
  }

  function PayloadBytes(sum: Checksum, p: Payload): (b: seq<byte>)
    decreases p
  {
    match p
    case DatabaseLookup(key, from, lookupType, replyTid, excluded, replyEnc) =>
      var flags := (lookupType % 4) * 4 + Flag(replyEnc.Some?, 2) + Flag(replyTid.Some?, 1);
      key + (from + ([flags] + (OptionalU32(replyTid)
      + (ToBE(|excluded|, 2) + (Concat(excluded) + ReplyEncBytes(replyEnc))))))
    case DatabaseSearchReply(key, peers, from) => key + ([|peers| % 256] + (Concat(peers) + from))
    case DeliveryStatus(id, ts) => ToBE(id, 4) + ToBE(ts, 8)
    case Garlic(cloves, cert, id, exp) =>
      [|cloves| % 256] + (ClovesBytes(sum, cloves) + (CertificateBytes(cert) + (ToBE(id, 4) + ToBE(exp, 8))))
    case TunnelData(tid, data) => ToBE(tid, 4) + data
    case TunnelGateway(tid, data) => ToBE(tid, 4) + data
    case Data(data) => ToBE(|data|, 4) + data
    case TunnelBuild(tb) => Concat(tb)
    case TunnelBuildReply(tb) => Concat(tb)
    case VariableTunnelBuild(tb) => [|tb| % 256] + Concat(tb)
    case VariableTunnelBuildReply(tb) => [|tb| % 256] + Concat(tb)
  }

  function TypeCode(p: Payload): (t: byte)
  {
    match p
    case DatabaseLookup(_, _, _, _, _, _) => 2
    case DatabaseSearchReply(_, _, _) => 3
    case DeliveryStatus(_, _) => 10
    case Garlic(_, _, _, _) => 11
    case TunnelData(_, _) => 18
    case TunnelGateway(_, _) => 19
    case Data(_) => 20
    case TunnelBuild(_) => 21
    case TunnelBuildReply(_) => 22
    case VariableTunnelBuild(_) => 23
    case VariableTunnelBuildReply(_) => 24
  }

  /** The 16 bytes before a payload: type, identifier, expiry, size, checksum. */
  function HeaderBytes(sum: Checksum, m: Message, body: seq<byte>): (b: seq<byte>)
    ensures |b| == 16
  {
    [TypeCode(m.payload)] + (ToBE(m.id, 4) + (ToBE(m.expiration, 8) + (ToBE(|body|, 2) + [sum(body)])))
  }

  function MessageBytes(sum: Checksum, m: Message): (b: seq<byte>)
    decreases m
  {
    var body := PayloadBytes(sum, m.payload);
    HeaderBytes(sum, m, body) + body
  }

  /** The shorter form inside NTCP2 blocks: no size, no checksum, whole seconds. */
  function Ntcp2MessageBytes(sum: Checksum, m: Message): (b: seq<byte>)
  {
    [TypeCode(m.payload)] + (ToBE(m.id, 4) + (ToBE(m.expiration / 1000, 4) + PayloadBytes(sum, m.payload)))
  }

  // ---------- reading ----------

  function ParseCertificate(i: seq<byte>): (r: Parsed<Certificate>)
    ensures r.Done? ==> |r.rest| < |i|
  {
    var (kind, i) :- Number(1, i);
    if kind == 0 || kind == 2 then
      var (_, i) :- Tag([0, 0], i);
      Done(Certificate(kind, []), i)
    else if kind <= 5 then
      var (payload, i) :- Counted(2, i);
      Done(Certificate(kind, payload), i)
    else
      Failed
  }

  function ParseOptional(present: bool, n: nat, i: seq<byte>): (r: Parsed<Option<seq<byte>>>)
    ensures r.Done? ==> |r.rest| <= |i|
  {
    if !present then Done(None, i)
    else
      var (b, i) :- Take(n, i);
      Done(Some(b), i)
  }

  function ParseOptionalU32(present: bool, i: seq<byte>): (r: Parsed<Option<nat>>)
    ensures r.Done? ==> |r.rest| <= |i|
  {
    if !present then Done(None, i)
    else
      var (n, i) :- Number(4, i);
      Done(Some(n), i)
  }

  function ParseInstructions(i: seq<byte>): (r: Parsed<DeliveryInstructions>)
    ensures r.Done? ==> |r.rest| < |i|
  {
    var (flags, i) :- Number(1, i);
    var encrypted, deliveryType, delaySet := flags / 128 % 2 == 1, flags / 32 % 4, flags / 16 % 2 == 1;
    var (sessionKey, i) :- ParseOptional(encrypted, 32, i);
    var (toHash, i) :- ParseOptional(deliveryType != 0, 32, i);
    var (tid, i) :- ParseOptionalU32(deliveryType == 3, i);
    var (delay, i) :- ParseOptionalU32(delaySet, i);
    Done(DeliveryInstructions(encrypted, deliveryType, delaySet, sessionKey, toHash, tid, delay), i)
  }

  function ParseClove(sum: Checksum, i: seq<byte>): (r: Parsed<Clove>)
    ensures r.Done? ==> |r.rest| < |i|
    decreases |i|, 0
  {
    var (instructions, i) :- ParseInstructions(i);
    var (msg, i) :- ParseMessage(sum, i);
    var (cloveId, i) :- Number(4, i);
    var (expiration, i) :- Number(8, i);
    var (cert, i) :- ParseCertificate(i);
    Done(Clove(instructions, msg, cloveId, expiration, cert), i)
  }

  function ParseCloves(sum: Checksum, n: nat, i: seq<byte>): (r: Parsed<seq<Clove>>)
    ensures r.Done? ==> |r.rest| <= |i|
    decreases |i|, 1
  {
    if n == 0 then Done([], i)
    else
      var (c, i) :- ParseClove(sum, i);
      var (cs, i) :- ParseCloves(sum, n - 1, i);
      Done([c] + cs, i)
  }

  function ParseReplyEnc(present: bool, i: seq<byte>): (r: Parsed<Option<ReplyEncryption>>)
    ensures r.Done? ==> |r.rest| <= |i|
  {
    if !present then Done(None, i)
    else
      var (key, i) :- Take(32, i);
      var (n, i) :- Number(1, i);
      var (tags, i) :- Chunks(n, 32, i);
      Done(Some(ReplyEncryption(key, tags)), i)
  }

  function ParseLookup(i: seq<byte>): (r: Parsed<Payload>)
    ensures r.Done? ==> |r.rest| <= |i|
  {
    var (key, i) :- Take(32, i);
    var (from, i) :- Take(32, i);
    var (flags, i) :- Number(1, i);
    var (replyTid, i) :- ParseOptionalU32(flags % 2 == 1, i);
    var (n, i) :- Number(2, i);
    var (excluded, i) :- Chunks(n, 32, i);
    var (replyEnc, i) :- ParseReplyEnc(flags / 2 % 2 == 1, i);
    Done(DatabaseLookup(key, from, flags / 4 % 4, replyTid, excluded, replyEnc), i)
  }

  function ParseSearchReply(i: seq<byte>): (r: Parsed<Payload>)
    ensures r.Done? ==> |r.rest| <= |i|
  {
    var (key, i) :- Take(32, i);
    var (n, i) :- Number(1, i);
    var (peers, i) :- Chunks(n, 32, i);
    var (from, i) :- Take(32, i);
    Done(DatabaseSearchReply(key, peers, from), i)
  }

  function ParseStatus(i: seq<byte>): (r: Parsed<Payload>)
    ensures r.Done? ==> |r.rest| <= |i|
  {
    var (id, i) :- Number(4, i);
    var (ts, i) :- Number(8, i);
    Done(DeliveryStatus(id, ts), i)
  }

  function ParseGarlic(sum: Checksum, i: seq<byte>): (r: Parsed<Payload>)
    ensures r.Done? ==> |r.rest| <= |i|
    decreases |i|, 2
  {
    var (n, i) :- Number(1, i);
    var (cloves, i) :- ParseCloves(sum, n, i);
    var (cert, i) :- ParseCertificate(i);
    var (id, i) :- Number(4, i);
    var (exp, i) :- Number(8, i);
    Done(Garlic(cloves, cert, id, exp), i)
  }

  function ParseTunnelData(i: seq<byte>): (r: Parsed<Payload>)
    ensures r.Done? ==> |r.rest| <= |i|
  {
    var (tid, i) :- Number(4, i);
    var (data, i) :- Take(1024, i);
    Done(TunnelData(tid, data), i)
  }

  function ParseTunnelGateway(i: seq<byte>): (r: Parsed<Payload>)
    ensures r.Done? ==> |r.rest| <= |i|
  {
    var (tid, i) :- Number(4, i);
    var (data, i) :- Counted(2, i);
    Done(TunnelGateway(tid, data), i)
  }

  function ParseData(i: seq<byte>): (r: Parsed<Payload>)
    ensures r.Done? ==> |r.rest| <= |i|
  {
    var (data, i) :- Counted(4, i);
    Done(Data(data), i)
  }

  function ParseCountedRecords(i: seq<byte>): (r: Parsed<seq<seq<byte>>>)
    ensures r.Done? ==> |r.rest| <= |i|
  {
    var (n, i) :- Number(1, i);
    Chunks(n, 528, i)
  }

  /** `payload`. Codes without a parser panic in the source; code 1, DatabaseStore,
      is not modelled and is treated the same. */
  function ParsePayload(sum: Checksum, code: nat, i: seq<byte>): (r: Parsed<Payload>)
    ensures r.Done? ==> |r.rest| <= |i|
    decreases |i|, 3
  {
    if code == 2 then ParseLookup(i)
    else if code == 3 then ParseSearchReply(i)
    else if code == 10 then ParseStatus(i)
    else if code == 11 then ParseGarlic(sum, i)
    else if code == 18 then ParseTunnelData(i)
    else if code == 19 then ParseTunnelGateway(i)
    else if code == 20 then ParseData(i)
    else if code == 21 then
      var (tb, i) :- Chunks(8, 528, i);
      Done(TunnelBuild(tb), i)
    else if code == 22 then
      var (tb, i) :- Chunks(8, 528, i);
      Done(TunnelBuildReply(tb), i)
    else if code == 23 then
      var (tb, i) :- ParseCountedRecords(i);
      Done(VariableTunnelBuild(tb), i)
    else if code == 24 then
      var (tb, i) :- ParseCountedRecords(i);
      Done(VariableTunnelBuildReply(tb), i)
    else Panicked
  }

  datatype Header = Header(code: nat, id: nat, expiration: nat, size: nat, cs: nat)

  function ParseHeader(i: seq<byte>): (r: Parsed<Header>)
    ensures r.Done? ==> |r.rest| == |i| - 16
  {
    var (code, i) :- Number(1, i);
    var (id, i) :- Number(4, i);
    var (exp, i) :- Number(8, i);
    var (size, i) :- Number(2, i);
    var (cs, i) :- Number(1, i);
    Done(Header(code, id, exp, size, cs), i)
  }

  /** `message`. The payload parser is not confined to the announced size. */
  function ParseMessage(sum: Checksum, i: seq<byte>): (r: Parsed<Message>)
    ensures r.Done? ==> |r.rest| <= |i| - 16
    decreases |i|, 4
  {
    var (h, i) :- ParseHeader(i);
    var (body, _) :- Take(h.size, i);
    if sum(body) != h.cs then Failed
    else
      var (p, i) :- ParsePayload(sum, h.code, i);
      Done(Message(h.id, h.expiration, p), i)
  }

  function ParseNtcp2Message(sum: Checksum, i: seq<byte>): (r: Parsed<Message>)
    ensures r.Done? ==> |r.rest| <= |i| - 9
  {
    var (code, i) :- Number(1, i);
    var (id, i) :- Number(4, i);
    var (seconds, i) :- Number(4, i);
    var (p, i) :- ParsePayload(sum, code, i);
    Done(Message(id, seconds * 1000, p), i)
  }
}
