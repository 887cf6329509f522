/**
 * Tunnel encryption: the layer each hop adds to a message, and the layers the
 * hops of a build request wrap around its reply records.
 */
module TunnelCrypto {
  import opened Bytes
  import opened Cbc
  import opened Parsing

  // ---------- layers ----------

  class TunnelData {
    var tid: nat
    const data: array<byte>

    constructor (tid: nat, data: array<byte>)
      ensures this.tid == tid && this.data == data
    {
      this.tid, this.data := tid, data;
    }
  }

  /** `LayerCipher`: the IV key and the layer key of one hop. */
  datatype LayerCipher = LayerCipher(cipher: BlockCipher, ivKey: Key, layerKey: Key) {

    /** What one hop makes of a message: the first block is the IV, encrypted once
        before and once after it serves as IV for the rest. */
    function Encrypted(d: seq<byte>): (r: seq<byte>)
      requires Whole(d) && |d| >= 16
      ensures |r| == |d|
    {
      var iv := cipher.enc(ivKey, d[..16]);
      cipher.enc(ivKey, iv) + Cbc.Encrypt(cipher, layerKey, iv, d[16..])
    }

    function Decrypted(d: seq<byte>): (r: seq<byte>)
      requires Whole(d) && |d| >= 16
      ensures |r| == |d|
    {
      var iv := cipher.dec(ivKey, d[..16]);
      cipher.dec(ivKey, iv) + Cbc.Decrypt(cipher, layerKey, iv, d[16..])
    }

    /** `encrypt_layer`, in place. */
    method EncryptLayer(td: TunnelData)
      requires td.data.Length == 1024
      modifies td.data
      ensures td.data[..] == Encrypted(old(td.data[..]))
    {
      ghost var d := td.data[..];
      assert d[..16] == td.data[..16];
      var iv := cipher.enc(ivKey, td.data[..16]);
      forall i | 0 <= i < 16 { td.data[i] := iv[i]; }
      assert td.data[..16] == iv && td.data[16..] == d[16..];
      var aes := new Aes256(cipher, layerKey, td.data[..16], seq(16, _ => 0));
      var out, end := aes.EncryptBlocks(td.data[16..]);
      assert end == Some(1008);
      assert d[16..][..1008] == d[16..];
      forall i | 16 <= i < 1024 { td.data[i] := out[i - 16]; }
      assert td.data[..16] == iv && td.data[16..] == out;
      var iv2 := cipher.enc(ivKey, td.data[..16]);
      forall i | 0 <= i < 16 { td.data[i] := iv2[i]; }
      assert td.data[16..] == out && td.data[..16] == iv2;
      assert td.data[..] == iv2 + out;
    }

    /** `decrypt_layer`, in place. */
    method DecryptLayer(td: TunnelData)
      requires td.data.Length == 1024
      modifies td.data
      ensures td.data[..] == Decrypted(old(td.data[..]))
    {
      ghost var d := td.data[..];
      assert d[..16] == td.data[..16];
      var iv := cipher.dec(ivKey, td.data[..16]);
      forall i | 0 <= i < 16 { td.data[i] := iv[i]; }
      assert td.data[..16] == iv && td.data[16..] == d[16..];
      var aes := new Aes256(cipher, layerKey, seq(16, _ => 0), td.data[..16]);
      var out, end := aes.DecryptBlocks(td.data[16..]);
      assert end == Some(1008);
      assert d[16..][..1008] == d[16..];
      forall i | 16 <= i < 1024 { td.data[i] := out[i - 16]; }
      assert td.data[..16] == iv && td.data[16..] == out;
      var iv2 := cipher.dec(ivKey, td.data[..16]);
      forall i | 0 <= i < 16 { td.data[i] := iv2[i]; }
      assert td.data[16..] == out && td.data[..16] == iv2;
      assert td.data[..] == iv2 + out;
    }
  }

  /** One layer undoes the other, in both orders. */
  lemma LayerInverse(lc: LayerCipher, d: seq<byte>)
    requires lc.cipher.Valid() && Whole(d) && |d| >= 16
    ensures lc.Decrypted(lc.Encrypted(d)) == d && lc.Encrypted(lc.Decrypted(d)) == d
  {
    LayerUndoesEncryption(lc, d);
    LayerUndoesDecryption(lc, d);
  }

  lemma LayerUndoesEncryption(lc: LayerCipher, d: seq<byte>)
    requires lc.cipher.Valid() && Whole(d) && |d| >= 16
    ensures lc.Decrypted(lc.Encrypted(d)) == d
  {
    hide Cbc.Encrypt, Cbc.Decrypt, BlockCipher.Valid;
    var c, k, e := lc.cipher, lc.ivKey, lc.Encrypted(d);
    var iv := c.enc(k, d[..16]);
    assert e[..16] == c.enc(k, iv) && e[16..] == Cbc.Encrypt(c, lc.layerKey, iv, d[16..]);
    DecEnc(c, k, iv);
    DecEnc(c, k, d[..16]);
    DecryptEncrypt(c, lc.layerKey, iv, d[16..]);
    assert d == d[..16] + d[16..];
  }

  lemma LayerUndoesDecryption(lc: LayerCipher, d: seq<byte>)
    requires lc.cipher.Valid() && Whole(d) && |d| >= 16
    ensures lc.Encrypted(lc.Decrypted(d)) == d
  {
    hide Cbc.Encrypt, Cbc.Decrypt, BlockCipher.Valid;
    var c, k, e := lc.cipher, lc.ivKey, lc.Decrypted(d);
    var iv := c.dec(k, d[..16]);
    assert e[..16] == c.dec(k, iv) && e[16..] == Cbc.Decrypt(c, lc.layerKey, iv, d[16..]);
    DecEnc(c, k, iv);
    DecEnc(c, k, d[..16]);
    EncryptDecrypt(c, lc.layerKey, iv, d[16..]);
    assert d == d[..16] + d[16..];
  }

  /** A layer, block by block: the first is encrypted twice under the IV key, and the
      others in a chain under the layer key that starts from the first encrypted once. */
  lemma LayerBlock(lc: LayerCipher, d: seq<byte>, i: nat)
    requires Whole(d) && 16 * i + 16 <= |d|
    ensures var r := lc.Encrypted(d);
            var iv := lc.cipher.enc(lc.ivKey, d[..16]);
            var prior := if i <= 1 then iv else r[16 * i - 16..16 * i];
            r[16 * i..16 * i + 16] == if i == 0 then lc.cipher.enc(lc.ivKey, iv)
                                      else lc.cipher.enc(lc.layerKey, XorBytes(d[16 * i..16 * i + 16], prior))
  {
    hide Cbc.Encrypt;
    var iv := lc.cipher.enc(lc.ivKey, d[..16]);
    var r, rest := lc.Encrypted(d), Cbc.Encrypt(lc.cipher, lc.layerKey, iv, d[16..]);
    assert r[0..16] == r[..16];
    if i > 0 {
      EncryptedBlock(lc.cipher, lc.layerKey, iv, d[16..], i - 1);
      assert rest == r[16..];
      SliceOfSuffix(r, 16, 16 * i, 16 * i + 16);
      SliceOfSuffix(d, 16, 16 * i, 16 * i + 16);
      SliceOfSuffix(r, 16, 16 * i - if i > 1 then 16 else 0, 16 * i);
    }
  }

  /** A message after it has passed the hops in order. */
  function ThroughHops(hops: seq<LayerCipher>, d: seq<byte>): (r: seq<byte>)
    requires Whole(d) && |d| >= 16
    ensures |r| == |d|
  {
    if hops == [] then d else ThroughHops(hops[1..], hops[0].Encrypted(d))
  }

  /** What the tunnel creator does: peel the layers, last hop first. */
  function Peeled(hops: seq<LayerCipher>, d: seq<byte>): (r: seq<byte>)
    requires Whole(d) && |d| >= 16
    ensures |r| == |d|
  {
    if hops == [] then d else hops[0].Decrypted(Peeled(hops[1..], d))
  }

  /** Peeling in reverse hop order undoes the hops' encryptions (inbound tunnels)
      and, applied first, cancels them in advance (outbound tunnels). */
  lemma {:induction false} PeelingUndoesHops(hops: seq<LayerCipher>, d: seq<byte>)
    requires (forall i :: 0 <= i < |hops| ==> hops[i].cipher.Valid()) && Whole(d) && |d| >= 16
    ensures Peeled(hops, ThroughHops(hops, d)) == d
    ensures ThroughHops(hops, Peeled(hops, d)) == d
  {
    hide LayerCipher.Encrypted, LayerCipher.Decrypted, BlockCipher.Valid;
    if hops != [] {
      var h := hops[0];
      PeelingUndoesHops(hops[1..], h.Encrypted(d));
      LayerInverse(h, d);
      PeelingUndoesHops(hops[1..], d);
      LayerInverse(h, Peeled(hops[1..], d));
    }
  }

  // ---------- build replies ----------

  /** SHA-256. */
  type Digest = seq<byte> -> seq<byte>

  /** One hop's answer to a build request: the index of its record, its reply
      byte, the random padding, and the key and IV it was given. */
  datatype Hop = Hop(index: nat, reply: byte, padding: seq<byte>, replyKey: Key, replyIv: Block)

  /** `gen_build_response_record`: 528 bytes. */
  function ResponseRecord(sha: Digest, h: Hop): (r: seq<byte>)
    ensures HopOk(sha, h) ==> |r| == 528
  {
    sha(h.padding + [h.reply]) + h.padding + [h.reply]
  }

  /** `build_response_record`. */
  function ParseResponse(sha: Digest, i: seq<byte>): (r: Parsed<byte>)
  {
    var (hash, i) :- Take(32, i);
    var (padding, i) :- Take(495, i);
    var (reply, i) :- Take(1, i);
    if hash == sha(padding + reply) then Done(reply[0], i) else Failed
  }

  predicate HopOk(sha: Digest, h: Hop)
  {
    |h.padding| == 495 && |sha(h.padding + [h.reply])| == 32
  }

  lemma ResponseParses(sha: Digest, h: Hop)
    requires HopOk(sha, h)
    ensures ParseResponse(sha, ResponseRecord(sha, h)) == Done(h.reply, [])
  {
    var hash := sha(h.padding + [h.reply]);
    var t2 := [h.reply] + [];
    var t1 := h.padding + t2;
    assert ResponseRecord(sha, h) == hash + t1;
    TakeBack(hash, t1);
    TakeBack(h.padding, t2);
    TakeBack([h.reply], []);
  }

  /** Of 528 bytes, whatever they are, exactly those parse whose first 32 hash the rest;
      the reply is the last. */
  lemma ResponseParsesIff(sha: Digest, i: seq<byte>)
    requires |i| == 528
    ensures ParseResponse(sha, i) == if i[..32] == sha(i[32..]) then Done(i[527], []) else Failed
  {
    var t := i[32..];
    assert t[..495] + t[495..][..1] == t;
  }

  ghost predicate RecordsOk(rs: seq<seq<byte>>)
  {
    forall i :: 0 <= i < |rs| ==> |rs[i]| == 528
  }

  /** What one hop makes of record i: its own replaced, then encrypted. */
  function ProcessedRecord(c: BlockCipher, sha: Digest, h: Hop, i: nat, r: seq<byte>): (out: seq<byte>)
    requires |r| == 528 && HopOk(sha, h)
    ensures |out| == 528
  {
    Cbc.Encrypt(c, h.replyKey, h.replyIv, if i == h.index then ResponseRecord(sha, h) else r)
  }

  ghost function Processed(c: BlockCipher, sha: Digest, h: Hop, rs: seq<seq<byte>>): (out: seq<seq<byte>>)
    requires RecordsOk(rs) && HopOk(sha, h) && h.index < |rs|
    ensures |out| == |rs| && RecordsOk(out)
    ensures forall i :: 0 <= i < |rs| ==> out[i] == ProcessedRecord(c, sha, h, i, rs[i])
  {
    seq(|rs|, i requires 0 <= i < |rs| => ProcessedRecord(c, sha, h, i, rs[i]))
  }

  /** The Encrypt state of `HopAcceptor::poll`: overwrite our record, then encrypt
      every record in place with a cipher that starts from the reply IV. */
  method ProcessRecords(c: BlockCipher, sha: Digest, h: Hop, tb: array<seq<byte>>)
    requires RecordsOk(tb[..]) && HopOk(sha, h) && h.index < tb.Length
    modifies tb
    ensures tb[..] == Processed(c, sha, h, old(tb[..]))
  {
    ghost var before := tb[..];
    tb[h.index] := ResponseRecord(sha, h);
    ghost var ours := before[h.index := ResponseRecord(sha, h)];
    var i := 0;
    while i < tb.Length
      invariant 0 <= i <= tb.Length
      invariant forall j :: 0 <= j < i ==> tb[j] == Cbc.Encrypt(c, h.replyKey, h.replyIv, ours[j])
      invariant forall j :: i <= j < tb.Length ==> tb[j] == ours[j]
    {
      tb[i] := Cbc.Encrypt(c, h.replyKey, h.replyIv, tb[i]);
      i := i + 1;
    }
    forall j | 0 <= j < tb.Length ensures tb[j] == ProcessedRecord(c, sha, h, j, before[j]) {}
    assert tb[..] == Processed(c, sha, h, before);
  }

  /** The records after all hops, first hop first. */
  ghost function AfterHops(c: BlockCipher, sha: Digest, hops: seq<Hop>, rs: seq<seq<byte>>): (out: seq<seq<byte>>)
    requires RecordsOk(rs) && HopsOk(sha, hops, |rs|)
    ensures |out| == |rs| && RecordsOk(out)
    decreases |hops|
  {
    if hops == [] then rs
    else AfterHops(c, sha, hops[1..], Processed(c, sha, hops[0], rs))
  }

  ghost predicate HopsOk(sha: Digest, hops: seq<Hop>, n: nat)
  {
    && (forall i :: 0 <= i < |hops| ==> HopOk(sha, hops[i]) && hops[i].index < n)
    && (forall i, j :: 0 <= i < j < |hops| ==> hops[i].index != hops[j].index)
  }

  /** One record with the encryptions of the hops taken off, last hop first. */
  function Unwrapped(c: BlockCipher, hops: seq<Hop>, r: seq<byte>): (out: seq<byte>)
    requires |r| == 528
    ensures |out| == 528
    decreases |hops|
  {
    if hops == [] then r
    else Cbc.Decrypt(c, hops[0].replyKey, hops[0].replyIv, Unwrapped(c, hops[1..], r))
  }

  /** Records that no hop owns come back as they were sent. */
  lemma {:induction false} UnownedUnwraps(c: BlockCipher, sha: Digest, hops: seq<Hop>, rs: seq<seq<byte>>, i: nat)
    requires c.Valid() && RecordsOk(rs) && HopsOk(sha, hops, |rs|) && i < |rs|
    requires forall j :: 0 <= j < |hops| ==> hops[j].index != i
    ensures Unwrapped(c, hops, AfterHops(c, sha, hops, rs)[i]) == rs[i]
    decreases |hops|
  {
    hide Cbc.Encrypt, Cbc.Decrypt, BlockCipher.Valid, HopOk;
    if hops != [] {
      UnownedUnwraps(c, sha, hops[1..], Processed(c, sha, hops[0], rs), i);
      DecryptEncrypt(c, hops[0].replyKey, hops[0].replyIv, rs[i]);
    }
  }

  /** The build-reply onion: taking off the encryptions of hop j and every later
      hop, last first, leaves at hop j's index the record that hop j wrote, which
      parses to its reply. */
  lemma {:induction false} OwnedUnwraps(c: BlockCipher, sha: Digest, hops: seq<Hop>, rs: seq<seq<byte>>, j: nat)
    requires c.Valid() && RecordsOk(rs) && HopsOk(sha, hops, |rs|) && j < |hops|
    ensures var r := Unwrapped(c, hops[j..], AfterHops(c, sha, hops, rs)[hops[j].index]);
            r == ResponseRecord(sha, hops[j]) && ParseResponse(sha, r) == Done(hops[j].reply, [])
    decreases |hops|
  {
    hide Cbc.Encrypt, Cbc.Decrypt, BlockCipher.Valid, HopOk, ParseResponse;
    var next := Processed(c, sha, hops[0], rs);
    if j == 0 {
      var h := hops[0];
      ResponseParses(sha, h);
      UnownedUnwraps(c, sha, hops[1..], next, h.index);
      DecryptEncrypt(c, h.replyKey, h.replyIv, ResponseRecord(sha, h));
      assert hops[0..] == hops;
    } else {
      OwnedUnwraps(c, sha, hops[1..], next, j - 1);
      assert hops[1..][j - 1..] == hops[j..];
    }
  }
}
