/**
 * The receiving end of a CBC-encrypted byte stream that may arrive in pieces of
 * any size: a buffer whose first `decrypted` bytes are plaintext and whose rest
 * is still ciphertext.
 */
module CbcStream {
  import opened Bytes
  import opened Cbc

  /** A growable byte buffer, as a codec is handed it. */
  class ByteBuf {
    var data: seq<byte>

    constructor (data: seq<byte>)
      ensures this.data == data
    {
      this.data := data;
    }
  }

  /** The receiver: its chaining value, its watermark and its buffer. */
  datatype Rx = Rx(decIv: Block, decrypted: nat, buf: seq<byte>)

  /** Decrypts every whole block after the watermark and moves the watermark. */
  function Advance(c: BlockCipher, k: Key, rx: Rx): (r: Rx)
    requires rx.decrypted <= |rx.buf|
    ensures |r.buf| == |rx.buf| && rx.decrypted <= r.decrypted <= |r.buf| < r.decrypted + 16
  {
    var tail := rx.buf[rx.decrypted..];
    var n := WholeLength(|tail|);
    Rx(ChainAfter(rx.decIv, tail[..n]), rx.decrypted + n, rx.buf[..rx.decrypted] + DecryptedWhole(c, k, rx.decIv, tail))
  }

  /** Drops n bytes of plaintext from the front. */
  function Consume(rx: Rx, n: nat): (r: Rx)
    requires n <= rx.decrypted <= |rx.buf|
  {
    rx.(decrypted := rx.decrypted - n, buf := rx.buf[n..])
  }

  /** The receiver has been given the first n bytes of the encryption of pt, has
      passed on the first `consumed` bytes of pt, and holds what lies between:
      plaintext up to the watermark, ciphertext after it. */
  ghost predicate Synced(c: BlockCipher, k: Key, iv: Block, pt: seq<byte>, n: nat, consumed: nat, rx: Rx)
  {
    var m := consumed + rx.decrypted;
    && Whole(pt) && m % 16 == 0 && m <= n <= |pt|
    && rx.decIv == ChainAfter(iv, Encrypt(c, k, iv, pt)[..m])
    && rx.buf == pt[consumed..m] + Encrypt(c, k, iv, pt)[m..n]
  }

  lemma SyncedStart(c: BlockCipher, k: Key, iv: Block, pt: seq<byte>)
    requires Whole(pt)
    ensures Synced(c, k, iv, pt, 0, 0, Rx(iv, 0, []))
  {
    assert Encrypt(c, k, iv, pt)[..0] == [];
  }

  /** More ciphertext arrives. */
  lemma SyncedReceive(c: BlockCipher, k: Key, iv: Block, pt: seq<byte>, n: nat, consumed: nat, rx: Rx, more: nat)
    requires Synced(c, k, iv, pt, n, consumed, rx) && n + more <= |pt|
    ensures Synced(c, k, iv, pt, n + more, consumed, rx.(buf := rx.buf + Encrypt(c, k, iv, pt)[n..n + more]))
  {
    hide Encrypt, ChainAfter;
    var ct, m := Encrypt(c, k, iv, pt), consumed + rx.decrypted;
    assert ct[m..n] + ct[n..n + more] == ct[m..n + more];
    Assoc(pt[consumed..m], ct[m..n], ct[n..n + more]);
  }

  /** The sender appends to the stream. */
  lemma SyncedExtend(c: BlockCipher, k: Key, iv: Block, pt: seq<byte>, more: seq<byte>, n: nat, consumed: nat, rx: Rx)
    requires Synced(c, k, iv, pt, n, consumed, rx) && Whole(more)
    ensures Synced(c, k, iv, pt + more, n, consumed, rx)
  {
    hide Encrypt, ChainAfter;
    var ct, ct2, m := Encrypt(c, k, iv, pt), Encrypt(c, k, iv, pt + more), consumed + rx.decrypted;
    EncryptConcat(c, k, iv, pt, more);
    assert ct2[..|pt|] == ct;
    assert ct2[..m] == ct[..m] && ct2[m..n] == ct[m..n];
    assert (pt + more)[consumed..m] == pt[consumed..m];
  }

  /** Advancing keeps the receiver in step and leaves less than a block of ciphertext. */
  lemma SyncedAdvance(c: BlockCipher, k: Key, iv: Block, pt: seq<byte>, n: nat, consumed: nat, rx: Rx)
    requires c.Valid() && Synced(c, k, iv, pt, n, consumed, rx)
    ensures var r := Advance(c, k, rx);
            && Synced(c, k, iv, pt, n, consumed, r)
            && consumed + r.decrypted <= n < consumed + r.decrypted + 16
            && r.buf[..r.decrypted] == pt[consumed..consumed + r.decrypted]
  {
    hide Encrypt, ChainAfter, Decrypt, BlockCipher.Valid;
    var ct, m, r := Encrypt(c, k, iv, pt), consumed + rx.decrypted, Advance(c, k, rx);
    var m2 := consumed + r.decrypted;
    var tail := rx.buf[rx.decrypted..];
    assert tail == ct[m..n];
    assert tail[..m2 - m] == ct[m..m2] && tail[m2 - m..] == ct[m2..n];
    DecryptSlice(c, k, iv, pt, m, m2);
    ChainSlice(iv, ct, m, m2);
    assert rx.buf[..rx.decrypted] == pt[consumed..m];
    assert pt[consumed..m] + pt[m..m2] == pt[consumed..m2];
    Assoc(pt[consumed..m], pt[m..m2], ct[m2..n]);
  }

  lemma SyncedConsume(c: BlockCipher, k: Key, iv: Block, pt: seq<byte>, n: nat, consumed: nat, rx: Rx, x: nat)
    requires Synced(c, k, iv, pt, n, consumed, rx) && x <= rx.decrypted
    ensures x <= |rx.buf| && Synced(c, k, iv, pt, n, consumed + x, Consume(rx, x))
  {
    hide Encrypt, ChainAfter;
    var m := consumed + rx.decrypted;
    assert pt[consumed..m][x..] == pt[consumed + x..m];
  }
}
