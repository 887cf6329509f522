/**
 * How the NTCP2 handshake keeps its place in the byte stream: the lengths that each
 * side announces and the exact reads the other side makes. The Noise messages are
 * opaque; only their sizes and the options inside the first two are modelled.
 */
module Ntcp2Handshake {
  import opened Bytes
  import opened Parsing
  import opened NtcpFrame
  import opened Ntcp2Codec

  /** A message with an ephemeral key, sixteen bytes of options and a tag. */
  const OPTIONS_CT_LEN: nat := 32 + 16 + 16

  datatype RequestOptions = RequestOptions(ver: byte, padlen: nat, sclen: nat, tsA: nat)

  datatype CreatedOptions = CreatedOptions(cpadlen: nat, tsB: nat)

  // ---------- the options ----------

  function RequestOptionBytes(o: RequestOptions): (b: seq<byte>)
    ensures |b| == 16
  {
    [0] + ([o.ver] + (ToBE(o.padlen, 2) + (ToBE(o.sclen, 2) + (Zeros(2) + (ToBE(o.tsA, 4) + Zeros(4))))))
  }

  function ParseRequestOptions(i: seq<byte>): (r: Parsed<RequestOptions>)
  {
    var (_, i) :- Take(1, i);
    var (ver, i) :- Take(1, i);
    var (padlen, i) :- Number(2, i);
    var (sclen, i) :- Number(2, i);
    var (_, i) :- Take(2, i);
    var (tsA, i) :- Number(4, i);
    var (_, i) :- Take(4, i);
    Done(RequestOptions(ver[0], padlen, sclen, tsA), i)
  }

  function CreatedOptionBytes(o: CreatedOptions): (b: seq<byte>)
    ensures |b| == 16
  {
    Zeros(2) + (ToBE(o.cpadlen, 2) + (Zeros(4) + (ToBE(o.tsB, 4) + Zeros(4))))
  }

  function ParseCreatedOptions(i: seq<byte>): (r: Parsed<CreatedOptions>)
  {
    var (_, i) :- Take(2, i);
    var (padlen, i) :- Number(2, i);
    var (_, i) :- Take(4, i);
    var (tsB, i) :- Number(4, i);
    var (_, i) :- Take(4, i);
    Done(CreatedOptions(padlen, tsB), i)
  }

  lemma RequestOptionsBack(o: RequestOptions)
    requires o.padlen < 0x1_0000 && o.sclen < 0x1_0000 && o.tsA < 0x1_0000_0000
    ensures ParseRequestOptions(RequestOptionBytes(o)) == Done(o, [])
  {
    hide Number, Take, ToBE, Pow;
    Widths();
    var t6 := Zeros(4) + [];
    var t5 := ToBE(o.tsA, 4) + t6;
    var t4 := Zeros(2) + t5;
    var t3 := ToBE(o.sclen, 2) + t4;
    var t2 := ToBE(o.padlen, 2) + t3;
    var t1 := [o.ver] + t2;
    assert RequestOptionBytes(o) == [0] + t1;
    TakeBack([0], t1);
    TakeBack([o.ver], t2);
    NumberBack(o.padlen, 2, t3);
    NumberBack(o.sclen, 2, t4);
    TakeBack(Zeros(2), t5);
    NumberBack(o.tsA, 4, t6);
    TakeBack(Zeros(4), []);
  }

  lemma CreatedOptionsBack(o: CreatedOptions)
    requires o.cpadlen < 0x1_0000 && o.tsB < 0x1_0000_0000
    ensures ParseCreatedOptions(CreatedOptionBytes(o)) == Done(o, [])
  {
    hide Number, Take, ToBE, Pow;
    Widths();
    var t4 := Zeros(4) + [];
    var t3 := ToBE(o.tsB, 4) + t4;
    var t2 := Zeros(4) + t3;
    var t1 := ToBE(o.cpadlen, 2) + t2;
    assert CreatedOptionBytes(o) == Zeros(2) + t1;
    TakeBack(Zeros(2), t1);
    NumberBack(o.cpadlen, 2, t2);
    TakeBack(Zeros(4), t3);
    NumberBack(o.tsB, 4, t4);
    TakeBack(Zeros(4), []);
  }

  // ---------- the initiator ----------

  /** `OBHandshake::new` accepts a SessionConfirmed payload that fits its buffer; the
      length it will announce includes the payload's tag. */
  function AnnouncedLength(sc: seq<byte>): (n: Option<nat>)
    ensures n.Some? ==> n.value < 0x1_0000
  {
    if |sc| > NTCP2_MTU - 16 then None else Some(|sc| + 16)
  }

  /** SessionConfirmed: a sealed static key, then the sealed payload. None is the panic
      when the whole message does not fit its buffer. */
  function ConfirmedLength(sc: seq<byte>): (n: Option<nat>)
  {
    var len := (32 + 16) + (|sc| + 16);
    if len > NTCP2_MTU then None else Some(len)
  }

  /** A payload accepted at the start can also be sent exactly when it has at most 65471
      bytes; the check at the start admits 48 more. */
  lemma AcceptedIsSendable(sc: seq<byte>)
    requires AnnouncedLength(sc).Some?
    ensures ConfirmedLength(sc).Some? <==> |sc| <= 65471
    ensures ConfirmedLength(sc).Some? ==> ConfirmedLength(sc).value == AnnouncedLength(sc).value + 48
  {}

  /** A payload of 65472 bytes is accepted, announced, and cannot be sent. */
  lemma AcceptedYetUnsendable()
    ensures AnnouncedLength(Zeros(65472)) == Some(65488) && ConfirmedLength(Zeros(65472)) == None
  {}

  // ---------- the responder ----------

  /** What the responder's exact reads cut from the initiator's stream. */
  datatype Cut = Cut(request: seq<byte>, padding: seq<byte>, confirmed: seq<byte>, rest: seq<byte>)

  /** The reads of `IBHandshake::poll`: 64 bytes, the padding they announce, and the
      announced length and 48 bytes more; `open` recovers the options of the first. */
  function ResponderReads(open: seq<byte> -> seq<byte>, stream: seq<byte>): (r: Parsed<Cut>)
  {
    var (request, i) :- Take(OPTIONS_CT_LEN, stream);
    var (o, _) :- ParseRequestOptions(open(request));
    if o.ver != 2 then Failed
    else
      var (padding, i) :- Take(o.padlen, i);
      var (confirmed, i) :- Take(o.sclen + 48, i);
      Done(Cut(request, padding, confirmed, i), [])
  }

  /** The responder cuts the initiator's stream exactly where the initiator joined it,
      and leaves every byte of the data phase in place. */
  lemma ReadsAlign(open: seq<byte> -> seq<byte>, o: RequestOptions, sc: seq<byte>,
                   request: seq<byte>, padding: seq<byte>, confirmed: seq<byte>, data: seq<byte>)
    requires AnnouncedLength(sc) == Some(o.sclen) && ConfirmedLength(sc) == Some(|confirmed|)
    requires o.ver == 2 && o.padlen < 0x1_0000 && o.tsA < 0x1_0000_0000
    requires |request| == OPTIONS_CT_LEN && open(request) == RequestOptionBytes(o) && |padding| == o.padlen
    ensures ResponderReads(open, request + (padding + (confirmed + data)))
         == Done(Cut(request, padding, confirmed, data), [])
  {
    hide ParseRequestOptions, RequestOptionBytes;
    RequestOptionsBack(o);
    TakeBack(request, padding + (confirmed + data));
    TakeBack(padding, confirmed + data);
    TakeBack(confirmed, data);
  }

  /** What the initiator's exact reads cut from the responder's stream: 64 bytes, and the
      padding they announce. */
  function InitiatorReads(open: seq<byte> -> seq<byte>, stream: seq<byte>): (r: Parsed<(seq<byte>, seq<byte>)>)
  {
    var (created, i) :- Take(OPTIONS_CT_LEN, stream);
    var (o, _) :- ParseCreatedOptions(open(created));
    var (padding, i) :- Take(o.cpadlen, i);
    Done((created, padding), i)
  }

  /** The initiator cuts the responder's stream exactly where the responder joined it,
      and leaves every byte of the data phase in place. */
  lemma InitiatorReadsAlign(open: seq<byte> -> seq<byte>, o: CreatedOptions, created: seq<byte>, padding: seq<byte>,
      data: seq<byte>)
    requires o.cpadlen < 0x1_0000 && o.tsB < 0x1_0000_0000
    requires |created| == OPTIONS_CT_LEN && open(created) == CreatedOptionBytes(o) && |padding| == o.cpadlen
    ensures InitiatorReads(open, created + (padding + data)) == Done((created, padding), data)
  {
    hide ParseCreatedOptions, CreatedOptionBytes;
    CreatedOptionsBack(o);
    TakeBack(created, padding + data);
    TakeBack(padding, data);
  }
}
