/**
 * A tunnel build request record: 222 bytes of request, encrypted to the hop it is
 * for and marked with the first sixteen bytes of that hop's hash.
 */
module BuildRecord {
  import opened Bytes
  import opened NumberTheory
  import opened Parsing
  import opened Cbc
  import ElGamal

  datatype HopType = InboundGateway | Intermediate | OutboundEndpoint

  datatype Request = Request(
    receiveTid: nat, ourIdent: seq<byte>, nextTid: nat, nextIdent: seq<byte>,
    layerKey: seq<byte>, ivKey: seq<byte>, replyKey: seq<byte>, replyIv: Block,
    hopType: HopType, requestTime: nat, sendMsgId: nat)

  predicate RequestOk(r: Request)
  {
    && r.receiveTid < Pow(256, 4) && r.nextTid < Pow(256, 4) && r.requestTime < Pow(256, 4) && r.sendMsgId < Pow(256, 4)
    && |r.ourIdent| == |r.nextIdent| == |r.layerKey| == |r.ivKey| == |r.replyKey| == 32
  }

  // ---------- writing ----------

  function HopFlags(t: HopType): (x: byte)
  {
    match t case Intermediate => 0 case InboundGateway => 0x80 case OutboundEndpoint => 0x40
  }

  function KeysBytes(r: Request): (b: seq<byte>)
  {
    r.layerKey + (r.ivKey + (r.replyKey + r.replyIv))
  }

  function TailBytes(r: Request, padding: seq<byte>): (b: seq<byte>)
  {
    [HopFlags(r.hopType)] + (ToBE(r.requestTime, 4) + (ToBE(r.sendMsgId, 4) + padding))
  }

  /** `gen_build_request_record`, with 29 random bytes. */
  function RequestBytes(r: Request, padding: seq<byte>): (b: seq<byte>)
    ensures RequestOk(r) && |padding| == 29 ==> |b| == 222
  {
    ToBE(r.receiveTid, 4) + (r.ourIdent + (ToBE(r.nextTid, 4) + (r.nextIdent + (KeysBytes(r) + TailBytes(r, padding)))))
  }

  // ---------- reading ----------

  /** The two top flag bits; both at once are refused. */
  function ParseHopType(i: seq<byte>): (r: Parsed<HopType>)
    ensures r.Done? ==> |r.rest| == |i| - 1
  {
    var (x, i) :- Take(1, i);
    match x[0] / 64
    case 0 => Done(Intermediate, i)
    case 2 => Done(InboundGateway, i)
    case 1 => Done(OutboundEndpoint, i)
    case _ => Failed
  }

  /** `build_request_record`. */
  function ParseRequest(i: seq<byte>): (r: Parsed<Request>)
    ensures r.Done? ==> |r.value.ourIdent| == 32
  {
    var (receiveTid, i) :- Number(4, i);
    var (ourIdent, i) :- Take(32, i);
    var (nextTid, i) :- Number(4, i);
    var (nextIdent, i) :- Take(32, i);
    var (layerKey, i) :- Take(32, i);
    var (ivKey, i) :- Take(32, i);
    var (replyKey, i) :- Take(32, i);
    var (replyIv, i) :- Take(16, i);
    var (hopType, i) :- ParseHopType(i);
    var (requestTime, i) :- Number(4, i);
    var (sendMsgId, i) :- Number(4, i);
    var (_, i) :- Take(29, i);
    Done(Request(receiveTid, ourIdent, nextTid, nextIdent, layerKey, ivKey, replyKey, replyIv, hopType, requestTime,
                 sendMsgId), i)
  }

  lemma HopTypeBack(t: HopType, rest: seq<byte>)
    ensures ParseHopType([HopFlags(t)] + rest) == Done(t, rest)
  {
    TakeBack([HopFlags(t)], rest);
  }

  /** Every record is read back, whatever its padding. */
  lemma RequestBack(r: Request, padding: seq<byte>)
    requires RequestOk(r) && |padding| == 29
    ensures ParseRequest(RequestBytes(r, padding)) == Done(r, [])
  {
    hide Number, Take, ToBE, Pow, ParseHopType, HopFlags;
    var t11 := padding + [];
    var t10 := ToBE(r.sendMsgId, 4) + t11;
    var t9 := ToBE(r.requestTime, 4) + t10;
    var t8 := [HopFlags(r.hopType)] + t9;
    var t7 := r.replyIv + t8;
    var t6 := r.replyKey + t7;
    var t5 := r.ivKey + t6;
    var t4 := r.layerKey + t5;
    var t3 := r.nextIdent + t4;
    var t2 := ToBE(r.nextTid, 4) + t3;
    var t1 := r.ourIdent + t2;
    assert KeysBytes(r) + TailBytes(r, padding) == t4;
    assert RequestBytes(r, padding) == ToBE(r.receiveTid, 4) + t1;
    NumberBack(r.receiveTid, 4, t1);
    TakeBack(r.ourIdent, t2);
    NumberBack(r.nextTid, 4, t3);
    TakeBack(r.nextIdent, t4);
    TakeBack(r.layerKey, t5);
    TakeBack(r.ivKey, t6);
    TakeBack(r.replyKey, t7);
    TakeBack(r.replyIv, t8);
    HopTypeBack(r.hopType, t9);
    NumberBack(r.requestTime, 4, t10);
    NumberBack(r.sendMsgId, 4, t11);
    TakeBack(padding, []);
  }

  /** Where the fields of a record lie. */
  lemma RequestFields(i: seq<byte>)
    requires |i| == 222
    ensures ParseRequest(i).Done? <==> i[184] / 64 != 3
    ensures ParseRequest(i).Done? ==>
              var r := ParseRequest(i).value;
              && r.receiveTid == FromBE(i[..4]) && r.ourIdent == i[4..36]
              && r.nextTid == FromBE(i[36..40]) && r.nextIdent == i[40..72]
              && r.layerKey == i[72..104] && r.ivKey == i[104..136] && r.replyKey == i[136..168]
              && r.replyIv == i[168..184]
              && (r.hopType == InboundGateway <==> i[184] / 64 == 2)
              && (r.hopType == OutboundEndpoint <==> i[184] / 64 == 1)
              && r.requestTime == FromBE(i[185..189]) && r.sendMsgId == FromBE(i[189..193])
  {
    hide FromBE;
    assert i[4..][..32] == i[4..36] && i[4..][32..] == i[36..];
    assert i[36..][..4] == i[36..40] && i[36..][4..] == i[40..];
    assert i[40..][..32] == i[40..72] && i[40..][32..] == i[72..];
    assert i[72..][..32] == i[72..104] && i[72..][32..] == i[104..];
    assert i[104..][..32] == i[104..136] && i[104..][32..] == i[136..];
    assert i[136..][..32] == i[136..168] && i[136..][32..] == i[168..];
    assert i[168..][..16] == i[168..184] && i[168..][16..] == i[184..];
    assert i[184..][..1][0] == i[184] && i[184..][1..] == i[185..];
    assert i[185..][..4] == i[185..189] && i[185..][4..] == i[189..];
    assert i[189..][..4] == i[189..193] && i[189..][4..] == i[193..];
  }

  // ---------- sealing ----------

  datatype Opened = Ok(r: Request) | Crypto | Read | Invalid

  /** `BuildRequestRecord::encrypt`; None is the panic on a failed encryption. */
  function Sealed(grp: ElGamal.Group, sha: ElGamal.Digest, y: nat, lead: byte, k: nat, r: Request,
      padding: seq<byte>): (ct: Option<seq<byte>>)
    requires grp.p > 0 && RequestOk(r)
  {
    var pt := RequestBytes(r, padding);
    match ElGamal.Encrypted(grp, y, k, |pt|, ElGamal.Plaintext(sha, lead, pt), false)
    case None => None
    case Some(c) => Some(r.ourIdent[..16] + c)
  }

  /** `BuildRequestRecord::decrypt`, of a 528-byte record. */
  function Open(grp: ElGamal.Group, sha: ElGamal.Digest, a: nat, ct: seq<byte>): (o: Opened)
    requires grp.p > 0 && a <= grp.p - 1 && |ct| == 528
    ensures o.Ok? ==> |o.r.ourIdent| == 32 && ct[..16] == o.r.ourIdent[..16]
  {
    match ElGamal.Decrypt(grp, sha, a, ct[16..], false)
    case None => Crypto
    case Some(pt) =>
      match ParseRequest(pt)
      case Done(r, _) => if ct[..16] == r.ourIdent[..16] then Ok(r) else Invalid
      case _ => Read
  }

  lemma SealedLength(grp: ElGamal.Group, sha: ElGamal.Digest, y: nat, lead: byte, k: nat, pt: seq<byte>)
    requires grp.p > 0
    ensures var c := ElGamal.Encrypted(grp, y, k, |pt|, ElGamal.Plaintext(sha, lead, pt), false);
            c.Some? ==> |c.value| == 512
  {
    hide ToBE;
  }

  /** Every request can be sealed to any key, whatever the padding and nonce, as 528
      bytes that begin with the hop's mark; and only the hop's key is needed to get
      exactly that request back. */
  lemma SealedOpens(grp: ElGamal.Group, sha: ElGamal.Digest, priv: seq<byte>, pub: seq<byte>, lead: byte, k: nat,
      r: Request, padding: seq<byte>)
    requires grp.Valid() && ElGamal.IsDigest(sha) && FromBE(priv) <= grp.p - 1 && lead != 0
    requires FromBE(pub) == ModPow(grp.g, FromBE(priv), grp.p)
    requires RequestOk(r) && |padding| == 29
    ensures var ct := Sealed(grp, sha, FromBE(pub), lead, k, r, padding);
            && ct.Some? && |ct.value| == 528 && ct.value[..16] == r.ourIdent[..16]
            && Open(grp, sha, FromBE(priv), ct.value) == Ok(r)
  {
    hide ElGamal.Encrypted, ElGamal.Decrypt, ElGamal.Plaintext, ElGamal.IsDigest, ModPow, FromBE, RequestBytes,
         ParseRequest, Pow;
    var pt := RequestBytes(r, padding);
    RequestBack(r, padding);
    ElGamal.RoundTrip(grp, sha, priv, pub, k, lead, pt, false);
    SealedLength(grp, sha, FromBE(pub), lead, k, pt);
    var c := ElGamal.Encrypted(grp, FromBE(pub), k, |pt|, ElGamal.Plaintext(sha, lead, pt), false).value;
    var ct := r.ourIdent[..16] + c;
    assert ct[..16] == r.ourIdent[..16] && ct[16..] == c;
  }

  // ---------- finding our record ----------

  /** `find_our_entry`: the first record that carries our mark. */
  method FindOurEntry(ourHash: seq<byte>, records: seq<seq<byte>>) returns (r: Option<nat>)
    requires |ourHash| == 32 && forall i :: 0 <= i < |records| ==> |records[i]| == 528
    ensures r.Some? ==> r.value < |records| && records[r.value][..16] == ourHash[..16]
    ensures r.Some? ==> forall i :: 0 <= i < r.value ==> records[i][..16] != ourHash[..16]
    ensures r.None? ==> forall i :: 0 <= i < |records| ==> records[i][..16] != ourHash[..16]
  {
    for i := 0 to |records|
      invariant forall j :: 0 <= j < i ==> records[j][..16] != ourHash[..16]
    {
      if records[i][..16] == ourHash[..16] {
        return Some(i);
      }
    }
    return None;
  }
}
