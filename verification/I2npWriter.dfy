/**
 * The I2NP generators as the source runs them: into a buffer of fixed capacity,
 * leaving room for the size and checksum of a message and filling it in once the
 * payload has been written.
 */
module I2npWriter {
  import opened Bytes
  import opened I2np

  /** A buffer being filled from the left. */
  class Writer {
    const capacity: nat
    var out: seq<byte>

    constructor (capacity: nat)
      ensures this.capacity == capacity && out == []
    {
      this.capacity := capacity;
      out := [];
    }

    /** `gen_slice!` and its kin; a result of false is BufferTooSmall. */
    method Put(b: seq<byte>) returns (ok: bool)
      modifies this
      ensures ok <==> |old(out)| + |b| <= capacity
      ensures out == if ok then old(out) + b else old(out)
    {
      ok := |out| + |b| <= capacity;
      if ok { out := out + b; }
    }

    /** `gen_skip!`: leaves n bytes as they are, zero in a fresh buffer. */
    method Skip(n: nat) returns (ok: bool)
      modifies this
      ensures ok <==> |old(out)| + n <= capacity
      ensures out == if ok then old(out) + seq(n, _ => 0) else old(out)
    {
      ok := Put(seq(n, _ => 0));
    }

    /** `gen_at_offset!`: overwrites bytes already passed. */
    method Patch(at: nat, b: seq<byte>)
      requires at + |b| <= |out|
      modifies this
      ensures out == old(out)[..at] + b + old(out)[at + |b|..]
    {
      out := out[..at] + b + out[at + |b|..];
    }
  }

  /** `gen_message`. It succeeds exactly when the serialised message fits, and
      then it has appended exactly that. */
  method WriteMessage(w: Writer, sum: Checksum, m: Message) returns (ok: bool)
    modifies w
    ensures ok <==> |old(w.out)| + |MessageBytes(sum, m)| <= w.capacity
    ensures ok ==> w.out == old(w.out) + MessageBytes(sum, m)
    decreases m, 2
  {
    hide PayloadBytes, TypeCode, ToBE;
    ghost var body := PayloadBytes(sum, m.payload);
    ok := WriteHeaderStart(w, m);
    if !ok { return; }
    var size := |w.out|;
    ghost var head := w.out;
    ok := w.Skip(2);
    if !ok { return; }
    var cs := |w.out|;
    ok := w.Skip(1);
    if !ok { return; }
    var start := |w.out|;
    ok := WritePayload(w, sum, m.payload);
    if !ok { return; }
    assert w.out == head + ([0, 0] + ([0] + body));
    PatchHeader(w, sum, size, cs, start, head, body);
    HeaderPieces(sum, m, old(w.out), body);
  }

  /** Fills in the size and the checksum of the payload that starts at `start`. */
  method PatchHeader(w: Writer, sum: Checksum, size: nat, cs: nat, start: nat, ghost head: seq<byte>,
      ghost body: seq<byte>)
    requires w.out == head + ([0, 0] + ([0] + body))
    requires size == |head| && cs == size + 2 && start == size + 3
    modifies w
    ensures w.out == head + ToBE(|body|, 2) + [sum(body)] + body
  {
    hide ToBE;
    var end := |w.out|;
    GapFilled(head, [0, 0], [0] + body, ToBE(end - start, 2));
    w.Patch(size, ToBE(end - start, 2));
    assert w.out == (head + ToBE(end - start, 2)) + ([0] + body);
    assert w.out[start..end] == body;
    GapFilled(head + ToBE(end - start, 2), [0], body, [sum(body)]);
    w.Patch(cs, [sum(w.out[start..end])]);
  }

  method WriteHeaderStart(w: Writer, m: Message) returns (ok: bool)
    modifies w
    ensures ok <==> |old(w.out)| + 13 <= w.capacity
    ensures ok ==> w.out == old(w.out) + HeaderStart(m)
  {
    hide TypeCode, ToBE;
    ok := w.Put([TypeCode(m.payload)]);
    if !ok { return; }
    ok := w.Put(ToBE(m.id, 4));
    if !ok { return; }
    ok := w.Put(ToBE(m.expiration, 8));
  }

  function HeaderStart(m: Message): (b: seq<byte>)
    ensures |b| == 13
  {
    [TypeCode(m.payload)] + (ToBE(m.id, 4) + ToBE(m.expiration, 8))
  }

  /** Overwriting a gap in place replaces just that gap. */
  lemma GapFilled(head: seq<byte>, gap: seq<byte>, tail: seq<byte>, b: seq<byte>)
    requires |b| == |gap|
    ensures var out := head + (gap + tail);
            out[..|head|] + b + out[|head| + |b|..] == head + b + tail
  {
    var out := head + (gap + tail);
    assert out[..|head|] == head && out[|head| + |b|..] == tail;
  }

  lemma HeaderPieces(sum: Checksum, m: Message, before: seq<byte>, body: seq<byte>)
    requires body == PayloadBytes(sum, m.payload)
    ensures before + HeaderStart(m) + ToBE(|body|, 2) + [sum(body)] + body == before + MessageBytes(sum, m)
  {
    hide PayloadBytes, TypeCode, ToBE;
    assert HeaderStart(m) + ToBE(|body|, 2) + [sum(body)] == HeaderBytes(sum, m, body);
  }

  method WritePayload(w: Writer, sum: Checksum, p: Payload) returns (ok: bool)
    modifies w
    ensures ok <==> |old(w.out)| + |PayloadBytes(sum, p)| <= w.capacity
    ensures ok ==> w.out == old(w.out) + PayloadBytes(sum, p)
    decreases p, 1
  {
    if p.Garlic? {
      ok := WriteGarlic(w, sum, p);
    } else {
      ok := w.Put(PayloadBytes(sum, p));
    }
  }

  /** `gen_garlic`: the clove count, each clove in turn, the trailer. */
  method WriteGarlic(w: Writer, sum: Checksum, p: Payload) returns (ok: bool)
    requires p.Garlic?
    modifies w
    ensures ok <==> |old(w.out)| + |PayloadBytes(sum, p)| <= w.capacity
    ensures ok ==> w.out == old(w.out) + PayloadBytes(sum, p)
    decreases p, 0
  {
    hide CloveBytes, CertificateBytes, ToBE;
    ghost var goal := old(w.out) + PayloadBytes(sum, p);
    var trailer := CertificateBytes(p.cert) + (ToBE(p.garlicId, 4) + ToBE(p.garlicExpiration, 8));
    ok := w.Put([|p.cloves| % 256]);
    if !ok { return; }
    var k := 0;
    assert p.cloves[0..] == p.cloves;
    while k < |p.cloves|
      invariant 0 <= k <= |p.cloves|
      invariant w.out + (ClovesBytes(sum, p.cloves[k..]) + trailer) == goal
      invariant ok
    {
      assert p.cloves[k..][1..] == p.cloves[k + 1..];
      ghost var first, later := CloveBytes(sum, p.cloves[k]), ClovesBytes(sum, p.cloves[k + 1..]);
      Assoc(first, later, trailer);
      Assoc(w.out, first, later + trailer);
      ok := WriteClove(w, sum, p.cloves[k]);
      if !ok { return; }
      k := k + 1;
    }
    ok := w.Put(trailer);
  }

  method WriteClove(w: Writer, sum: Checksum, c: Clove) returns (ok: bool)
    modifies w
    ensures ok <==> |old(w.out)| + |CloveBytes(sum, c)| <= w.capacity
    ensures ok ==> w.out == old(w.out) + CloveBytes(sum, c)
    decreases c, 0
  {
    hide MessageBytes, InstructionsBytes, CertificateBytes, ToBE;
    ok := w.Put(InstructionsBytes(c.instructions));
    if !ok { return; }
    ok := WriteMessage(w, sum, c.msg);
    if !ok { return; }
    ok := w.Put(ToBE(c.cloveId, 4) + (ToBE(c.expiration, 8) + CertificateBytes(c.cert)));
  }
}
