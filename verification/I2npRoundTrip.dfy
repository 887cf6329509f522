/**
 * Reading back what was written: every well-formed I2NP message, with garlic
 * cloves nested to any depth, is recovered from its bytes and whatever follows
 * them is left unread.
 */
module I2npRoundTrip {
  import opened Bytes
  import opened Parsing
  import opened I2np

  lemma ByteBack(x: byte, rest: seq<byte>)
    ensures Number(1, [x] + rest) == Done(x, rest)
  {
    assert ([x] + rest)[..1] == [x] && ([x] + rest)[1..] == rest;
    assert FromBE([x]) == x by { assert [x][..0] == []; }
  }

  lemma OptionalBack(x: Option<seq<byte>>, present: bool, n: nat, rest: seq<byte>)
    requires (present <==> x.Some?) && (present ==> |x.value| == n)
    ensures ParseOptional(present, n, Optional(x) + rest) == Done(x, rest)
  {
    if present { TakeBack(x.value, rest); } else { assert Optional(x) + rest == rest; }
  }

  lemma OptionalU32Back(x: Option<nat>, present: bool, rest: seq<byte>)
    requires (present <==> x.Some?) && (present ==> x.value < Pow(256, 4))
    ensures ParseOptionalU32(present, OptionalU32(x) + rest) == Done(x, rest)
  {
    if present { NumberBack(x.value, 4, rest); } else { assert OptionalU32(x) + rest == rest; }
  }

  lemma CertificateBack(c: Certificate, rest: seq<byte>)
    requires CertificateOk(c)
    ensures ParseCertificate(CertificateBytes(c) + rest) == Done(c, rest)
  {
    hide Number, Counted, ToBE, Pow;
    var t := ToBE(|c.payload|, 2) + (c.payload + rest);
    assert CertificateBytes(c) + rest == [c.kind] + t;
    ByteBack(c.kind, t);
    if c.kind == 0 || c.kind == 2 {
      ZeroLength();
      assert t == [0, 0] + rest;
      TagBack([0, 0], rest);
    } else {
      CountedBack(c.payload, 2, rest);
    }
  }

  lemma ZeroLength()
    ensures ToBE(0, 2) == [0, 0]
  {
    assert ToBE(0, 0) == [];
    assert ToBE(0, 1) == [0];
  }

  lemma InstructionFlags(encrypted: bool, kind: nat, delaySet: bool)
    requires kind < 4
    ensures var f := Flag(encrypted, 128) + (kind % 4) * 32 + Flag(delaySet, 16);
            f < 256 && (f / 128 % 2 == 1 <==> encrypted) && f / 32 % 4 == kind && (f / 16 % 2 == 1 <==> delaySet)
  {}

  lemma InstructionsBack(d: DeliveryInstructions, rest: seq<byte>)
    requires InstructionsOk(d)
    ensures ParseInstructions(InstructionsBytes(d) + rest) == Done(d, rest)
  {
    hide Number, ParseOptional, ParseOptionalU32, Optional, OptionalU32, Pow;
    InstructionFlags(d.encrypted, d.deliveryType, d.delaySet);
    var f := Flag(d.encrypted, 128) + (d.deliveryType % 4) * 32 + Flag(d.delaySet, 16);
    var t4 := OptionalU32(d.delay) + rest;
    var t3 := OptionalU32(d.tid) + t4;
    var t2 := Optional(d.toHash) + t3;
    var t1 := Optional(d.sessionKey) + t2;
    assert InstructionsBytes(d) + rest == [f] + t1;
    ByteBack(f, t1);
    OptionalBack(d.sessionKey, d.encrypted, 32, t2);
    OptionalBack(d.toHash, d.deliveryType != 0, 32, t3);
    OptionalU32Back(d.tid, d.deliveryType == 3, t4);
    OptionalU32Back(d.delay, d.delaySet, rest);
  }

  lemma ReplyEncBack(r: Option<ReplyEncryption>, rest: seq<byte>)
    requires r.Some? ==> |r.value.key| == 32 && AllSized(r.value.tags, 32) && |r.value.tags| < 256
    ensures ParseReplyEnc(r.Some?, ReplyEncBytes(r) + rest) == Done(r, rest)
  {
    hide Number, Take, Chunks, Concat;
    if r.Some? {
      var t2 := Concat(r.value.tags) + rest;
      var t1 := [|r.value.tags|] + t2;
      assert ReplyEncBytes(r) + rest == r.value.key + t1;
      TakeBack(r.value.key, t1);
      ByteBack(|r.value.tags|, t2);
      ChunksBack(r.value.tags, 32, rest);
    } else {
      assert ReplyEncBytes(r) + rest == rest;
    }
  }

  lemma LookupFlags(kind: nat, enc: bool, delivery: bool)
    requires kind < 4
    ensures var f := (kind % 4) * 4 + Flag(enc, 2) + Flag(delivery, 1);
            f < 256 && f / 4 % 4 == kind && (f / 2 % 2 == 1 <==> enc) && (f % 2 == 1 <==> delivery)
  {}

  lemma LookupBack(sum: Checksum, p: Payload, rest: seq<byte>)
    requires p.DatabaseLookup? && PayloadOk(sum, p)
    ensures ParseLookup(PayloadBytes(sum, p) + rest) == Done(p, rest)
  {
    hide Number, Take, Chunks, Concat, ToBE, OptionalU32, ParseOptionalU32, ReplyEncBytes, ParseReplyEnc, Pow, Flag;
    LookupFlags(p.lookupType, p.replyEnc.Some?, p.replyTid.Some?);
    var f := (p.lookupType % 4) * 4 + Flag(p.replyEnc.Some?, 2) + Flag(p.replyTid.Some?, 1);
    var t6 := ReplyEncBytes(p.replyEnc) + rest;
    var t5 := Concat(p.excludedPeers) + t6;
    var t4 := ToBE(|p.excludedPeers|, 2) + t5;
    var t3 := OptionalU32(p.replyTid) + t4;
    var t2 := [f] + t3;
    var t1 := p.from + t2;
    assert PayloadBytes(sum, p) + rest == p.key + t1;
    TakeBack(p.key, t1);
    TakeBack(p.from, t2);
    ByteBack(f, t3);
    OptionalU32Back(p.replyTid, p.replyTid.Some?, t4);
    NumberBack(|p.excludedPeers|, 2, t5);
    ChunksBack(p.excludedPeers, 32, t6);
    ReplyEncBack(p.replyEnc, rest);
  }

  lemma SearchReplyBack(sum: Checksum, p: Payload, rest: seq<byte>)
    requires p.DatabaseSearchReply? && PayloadOk(sum, p)
    ensures ParseSearchReply(PayloadBytes(sum, p) + rest) == Done(p, rest)
  {
    hide Number, Take, Chunks, Concat;
    var t3 := p.dsrFrom + rest;
    var t2 := Concat(p.peers) + t3;
    var t1 := [|p.peers|] + t2;
    assert PayloadBytes(sum, p) + rest == p.dsrKey + t1;
    TakeBack(p.dsrKey, t1);
    ByteBack(|p.peers|, t2);
    ChunksBack(p.peers, 32, t3);
    TakeBack(p.dsrFrom, rest);
  }

  lemma StatusBack(sum: Checksum, p: Payload, rest: seq<byte>)
    requires p.DeliveryStatus? && PayloadOk(sum, p)
    ensures ParseStatus(PayloadBytes(sum, p) + rest) == Done(p, rest)
  {
    hide Number, ToBE, Pow;
    var t1 := ToBE(p.timeStamp, 8) + rest;
    assert PayloadBytes(sum, p) + rest == ToBE(p.statusId, 4) + t1;
    NumberBack(p.statusId, 4, t1);
    NumberBack(p.timeStamp, 8, rest);
  }

  lemma TunnelDataBack(sum: Checksum, p: Payload, rest: seq<byte>)
    requires p.TunnelData? && PayloadOk(sum, p)
    ensures ParseTunnelData(PayloadBytes(sum, p) + rest) == Done(p, rest)
  {
    hide Number, ToBE, Pow;
    assert PayloadBytes(sum, p) + rest == ToBE(p.tdTid, 4) + (p.tdData + rest);
    NumberBack(p.tdTid, 4, p.tdData + rest);
    TakeBack(p.tdData, rest);
  }

  lemma DataBack(sum: Checksum, p: Payload, rest: seq<byte>)
    requires p.Data? && PayloadOk(sum, p)
    ensures ParseData(PayloadBytes(sum, p) + rest) == Done(p, rest)
  {
    hide Counted, ToBE, Pow;
    assert PayloadBytes(sum, p) + rest == ToBE(|p.data|, 4) + (p.data + rest);
    CountedBack(p.data, 4, rest);
  }

  lemma BuildBack(sum: Checksum, p: Payload, rest: seq<byte>)
    requires p.TunnelBuild? || p.TunnelBuildReply? || p.VariableTunnelBuild? || p.VariableTunnelBuildReply?
    requires PayloadOk(sum, p)
    ensures ParsePayload(sum, TypeCode(p), PayloadBytes(sum, p) + rest) == Done(p, rest)
  {
    hide Chunks, Concat, ParseCountedRecords;
    match p
    case TunnelBuild(tb) => ChunksBack(tb, 528, rest);
    case TunnelBuildReply(tb) => ChunksBack(tb, 528, rest);
    case VariableTunnelBuild(tb) =>
      RecordsBack(tb, rest);
      assert PayloadBytes(sum, p) + rest == [|tb|] + (Concat(tb) + rest);
    case VariableTunnelBuildReply(tb) =>
      RecordsBack(tb, rest);
      assert PayloadBytes(sum, p) + rest == [|tb|] + (Concat(tb) + rest);
  }

  /** The payloads that do not carry messages. */
  lemma FlatBack(sum: Checksum, p: Payload, rest: seq<byte>)
    requires !p.Garlic? && PayloadOk(sum, p)
    ensures ParsePayload(sum, TypeCode(p), PayloadBytes(sum, p) + rest) == Done(p, rest)
  {
    hide PayloadBytes, ParseLookup, ParseSearchReply, ParseStatus, ParseTunnelData, ParseData, ParseCountedRecords,
         Chunks, Pow;
    match p
    case DatabaseLookup(_, _, _, _, _, _) => LookupBack(sum, p, rest);
    case DatabaseSearchReply(_, _, _) => SearchReplyBack(sum, p, rest);
    case DeliveryStatus(_, _) => StatusBack(sum, p, rest);
    case TunnelData(_, _) => TunnelDataBack(sum, p, rest);
    case Data(_) => DataBack(sum, p, rest);
    case _ => BuildBack(sum, p, rest);
  }

  lemma RecordsBack(tb: seq<seq<byte>>, rest: seq<byte>)
    requires |tb| < 256 && AllSized(tb, 528)
    ensures ParseCountedRecords([|tb|] + (Concat(tb) + rest)) == Done(tb, rest)
  {
    hide Number, Chunks, Concat;
    ByteBack(|tb|, Concat(tb) + rest);
    ChunksBack(tb, 528, rest);
  }

  lemma {:induction false} CloveBack(sum: Checksum, c: Clove, rest: seq<byte>)
    requires CloveOk(sum, c)
    ensures ParseClove(sum, CloveBytes(sum, c) + rest) == Done(c, rest)
    decreases c, 0
  {
    hide Number, ToBE, ParseInstructions, InstructionsBytes, ParseCertificate, CertificateBytes, Pow, MessageBytes,
         ParseMessage;
    var t4 := CertificateBytes(c.cert) + rest;
    var t3 := ToBE(c.expiration, 8) + t4;
    var t2 := ToBE(c.cloveId, 4) + t3;
    var t1 := MessageBytes(sum, c.msg) + t2;
    assert CloveBytes(sum, c) + rest == InstructionsBytes(c.instructions) + t1;
    InstructionsBack(c.instructions, t1);
    MessageBack(sum, c.msg, t2);
    NumberBack(c.cloveId, 4, t3);
    NumberBack(c.expiration, 8, t4);
    CertificateBack(c.cert, rest);
  }

  lemma {:induction false} ClovesBack(sum: Checksum, cs: seq<Clove>, rest: seq<byte>)
    requires forall i :: 0 <= i < |cs| ==> CloveOk(sum, cs[i])
    ensures ParseCloves(sum, |cs|, ClovesBytes(sum, cs) + rest) == Done(cs, rest)
    decreases cs, 0
  {
    hide CloveBytes, ParseClove, CloveOk;
    if cs == [] {
      assert ClovesBytes(sum, cs) + rest == rest;
    } else {
      var t := ClovesBytes(sum, cs[1..]) + rest;
      assert ClovesBytes(sum, cs) + rest == CloveBytes(sum, cs[0]) + t;
      CloveBack(sum, cs[0], t);
      ClovesBack(sum, cs[1..], rest);
      assert cs == [cs[0]] + cs[1..];
    }
  }

  lemma {:induction false} PayloadBack(sum: Checksum, p: Payload, rest: seq<byte>)
    requires PayloadOk(sum, p)
    ensures ParsePayload(sum, TypeCode(p), PayloadBytes(sum, p) + rest) == Done(p, rest)
    decreases p, 1
  {
    hide Number, ToBE, ParseCertificate, CertificateBytes, ParseCloves, ClovesBytes, Pow, CloveOk;
    if p.Garlic? {
      var t4 := ToBE(p.garlicExpiration, 8) + rest;
      var t3 := ToBE(p.garlicId, 4) + t4;
      var t2 := CertificateBytes(p.cert) + t3;
      var t1 := ClovesBytes(sum, p.cloves) + t2;
      assert PayloadBytes(sum, p) + rest == [|p.cloves|] + t1;
      ByteBack(|p.cloves|, t1);
      ClovesBack(sum, p.cloves, t2);
      CertificateBack(p.cert, t3);
      NumberBack(p.garlicId, 4, t4);
      NumberBack(p.garlicExpiration, 8, rest);
    } else {
      FlatBack(sum, p, rest);
    }
  }

  lemma HeaderBack(sum: Checksum, m: Message, body: seq<byte>, rest: seq<byte>)
    requires m.id < Pow(256, 4) && m.expiration < Pow(256, 8) && |body| < Pow(256, 2)
    ensures ParseHeader(HeaderBytes(sum, m, body) + rest)
         == Done(Header(TypeCode(m.payload), m.id, m.expiration, |body|, sum(body)), rest)
  {
    hide Number, ToBE, Pow, TypeCode;
    var t4 := [sum(body)] + rest;
    var t3 := ToBE(|body|, 2) + t4;
    var t2 := ToBE(m.expiration, 8) + t3;
    var t1 := ToBE(m.id, 4) + t2;
    assert HeaderBytes(sum, m, body) + rest == [TypeCode(m.payload)] + t1;
    ByteBack(TypeCode(m.payload), t1);
    NumberBack(m.id, 4, t2);
    NumberBack(m.expiration, 8, t3);
    NumberBack(|body|, 2, t4);
    ByteBack(sum(body), rest);
  }

  /** The I2NP round trip. */
  lemma {:induction false} MessageBack(sum: Checksum, m: Message, rest: seq<byte>)
    requires MessageOk(sum, m)
    ensures ParseMessage(sum, MessageBytes(sum, m) + rest) == Done(m, rest)
    decreases m, 2
  {
    hide HeaderBytes, ParseHeader, PayloadBytes, ParsePayload, PayloadOk, TypeCode, Pow;
    var body := PayloadBytes(sum, m.payload);
    var t := body + rest;
    assert MessageBytes(sum, m) + rest == HeaderBytes(sum, m, body) + t;
    HeaderBack(sum, m, body, t);
    TakeBack(body, rest);
    PayloadBack(sum, m.payload, rest);
  }

  /** The same for the NTCP2 form, which keeps whole seconds only: the round trip
      holds exactly for expiries that are a whole number of seconds. */
  lemma Ntcp2MessageBack(sum: Checksum, m: Message, rest: seq<byte>)
    requires m.id < Pow(256, 4) && m.expiration / 1000 < Pow(256, 4) && PayloadOk(sum, m.payload)
    ensures ParseNtcp2Message(sum, Ntcp2MessageBytes(sum, m) + rest)
         == Done(m.(expiration := m.expiration / 1000 * 1000), rest)
    ensures ParseNtcp2Message(sum, Ntcp2MessageBytes(sum, m) + rest) == Done(m, rest) <==> m.expiration % 1000 == 0
  {
    hide Number, ToBE, Pow, TypeCode, ParsePayload, PayloadBytes, PayloadOk;
    var t3 := PayloadBytes(sum, m.payload) + rest;
    var t2 := ToBE(m.expiration / 1000, 4) + t3;
    var t1 := ToBE(m.id, 4) + t2;
    assert Ntcp2MessageBytes(sum, m) + rest == [TypeCode(m.payload)] + t1;
    ByteBack(TypeCode(m.payload), t1);
    NumberBack(m.id, 4, t2);
    NumberBack(m.expiration / 1000, 4, t3);
    PayloadBack(sum, m.payload, rest);
  }

  /** No TunnelGateway message is read back as it was written: the reader expects
      a length that the writer does not write. */
  lemma GatewayNeverBack(sum: Checksum, tid: nat, data: seq<byte>, rest: seq<byte>)
    requires tid < Pow(256, 4)
    ensures ParsePayload(sum, 19, PayloadBytes(sum, TunnelGateway(tid, data)) + rest)
         != Done(TunnelGateway(tid, data), rest)
  {
    hide Number, ToBE, Pow;
    var p := TunnelGateway(tid, data);
    assert PayloadBytes(sum, p) + rest == ToBE(tid, 4) + (data + rest);
    NumberBack(tid, 4, data + rest);
    var r := Counted(2, data + rest);
    if r.Done? { assert |r.value| + 2 + |r.rest| == |data| + |rest|; }
  }

  /** Whatever the input: a message accepted has the checksum byte of as many bytes after
      its header as the header announces, and the identifier and expiry of the header. */
  lemma AcceptedIsIntact(sum: Checksum, i: seq<byte>)
    requires ParseMessage(sum, i).Done?
    ensures var size := FromBE(i[13..15]);
            && |i| >= 16 + size && FromBE(i[15..16]) == sum(i[16..16 + size])
            && ParseMessage(sum, i).value.id == FromBE(i[1..5])
            && ParseMessage(sum, i).value.expiration == FromBE(i[5..13])
  {
    hide FromBE, ParsePayload, ParseHeader;
    HeaderFields(i);
    var size := FromBE(i[13..15]);
    assert |i[16..]| >= size && i[16..][..size] == i[16..16 + size];
  }

  lemma HeaderFields(i: seq<byte>)
    ensures |i| >= 16 ==>
              ParseHeader(i) == Done(Header(FromBE(i[..1]), FromBE(i[1..5]), FromBE(i[5..13]), FromBE(i[13..15]),
                                            FromBE(i[15..16])), i[16..])
    ensures |i| < 16 ==> ParseHeader(i) == Incomplete
  {
    hide FromBE;
    if |i| >= 16 {
      var a := i[1..];
      var b := a[4..];
      var c := b[8..];
      var d := c[2..];
      assert a[..4] == i[1..5] && b[..8] == i[5..13] && c[..2] == i[13..15] && d[..1] == i[15..16] && d[1..] == i[16..];
    }
  }
}
