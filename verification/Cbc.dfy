/**
 * Cipher block chaining over an arbitrary 16-byte block cipher (section 6.2 of
 * NIST SP 800-38A), and the router's `Aes256`, which keeps a chain for each
 * direction and only ever touches whole blocks.
 */
module Cbc {
  import opened Bytes

  type Block = b: seq<byte> | |b| == 16 witness seq(16, _ => 0)
  type Key = seq<byte>

  /** A keyed permutation of blocks; AES is one. */
  datatype BlockCipher = BlockCipher(enc: (Key, Block) -> Block, dec: (Key, Block) -> Block) {
    ghost predicate Valid() {
      forall k: Key, b: Block :: dec(k, enc(k, b)) == b && enc(k, dec(k, b)) == b
    }
  }

  lemma DecEnc(c: BlockCipher, k: Key, b: Block)
    requires c.Valid()
    ensures c.dec(k, c.enc(k, b)) == b && c.enc(k, c.dec(k, b)) == b
  {}

  function XorBlock(a: Block, b: Block): (r: Block)
  {
    XorBytes(a, b)
  }

  lemma XorBlockUndo(a: Block, b: Block)
    ensures XorBlock(XorBlock(a, b), b) == a
  {
    XorBytesUndo(a, b);
  }

  predicate Whole(b: seq<byte>)
  {
    |b| % 16 == 0
  }

  // ---------- chaining ----------

  function Encrypt(c: BlockCipher, k: Key, iv: Block, pt: seq<byte>): (ct: seq<byte>)
    requires Whole(pt)
    ensures |ct| == |pt|
    decreases |pt|
  {
    if pt == [] then []
    else
      var b := c.enc(k, XorBlock(pt[..16], iv));
      b + Encrypt(c, k, b, pt[16..])
  }

  function Decrypt(c: BlockCipher, k: Key, iv: Block, ct: seq<byte>): (pt: seq<byte>)
    requires Whole(ct)
    ensures |pt| == |ct|
    decreases |ct|
  {
    if ct == [] then []
    else XorBlock(c.dec(k, ct[..16]), iv) + Decrypt(c, k, ct[..16], ct[16..])
  }

  /** The chaining value after ciphertext ct. */
  function ChainAfter(iv: Block, ct: seq<byte>): (r: Block)
    requires Whole(ct)
    decreases |ct|
  {
    if ct == [] then iv else ChainAfter(ct[..16], ct[16..])
  }

  lemma {:induction false} ChainIsLastBlock(iv: Block, ct: seq<byte>)
    requires Whole(ct) && ct != []
    ensures ChainAfter(iv, ct) == ct[|ct| - 16..]
    decreases |ct|
  {
    if ct[16..] == [] {
      assert ct[..16] == ct[|ct| - 16..];
    } else {
      ChainIsLastBlock(ct[..16], ct[16..]);
    }
  }

  lemma FirstOfConcat(a: seq<byte>, b: seq<byte>)
    requires |a| >= 16
    ensures (a + b)[..16] == a[..16] && (a + b)[16..] == a[16..] + b
  {}

  lemma {:induction false} ChainConcat(iv: Block, a: seq<byte>, b: seq<byte>)
    requires Whole(a) && Whole(b)
    ensures Whole(a + b) && ChainAfter(iv, a + b) == ChainAfter(ChainAfter(iv, a), b)
    decreases |a|
  {
    if a == [] {
      assert a + b == b;
    } else {
      ChainConcat(a[..16], a[16..], b);
      FirstOfConcat(a, b);
    }
  }

  function FirstBlock(c: BlockCipher, k: Key, iv: Block, pt: seq<byte>): (x: Block)
    requires |pt| >= 16
  {
    c.enc(k, XorBlock(pt[..16], iv))
  }

  lemma EncryptStep(c: BlockCipher, k: Key, iv: Block, pt: seq<byte>)
    requires Whole(pt) && pt != []
    ensures var x := FirstBlock(c, k, iv, pt);
            var rest := Encrypt(c, k, x, pt[16..]);
            Encrypt(c, k, iv, pt) == x + rest && ChainAfter(iv, Encrypt(c, k, iv, pt)) == ChainAfter(x, rest)
  {
    hide XorBlock;
    var ct, x := Encrypt(c, k, iv, pt), FirstBlock(c, k, iv, pt);
    assert ct[..16] == x && ct[16..] == Encrypt(c, k, x, pt[16..]);
  }

  lemma {:induction false} EncryptConcat(c: BlockCipher, k: Key, iv: Block, a: seq<byte>, b: seq<byte>)
    requires Whole(a) && Whole(b)
    ensures var ct := Encrypt(c, k, iv, a);
            Whole(a + b) && Encrypt(c, k, iv, a + b) == ct + Encrypt(c, k, ChainAfter(iv, ct), b)
    decreases |a|
  {
    if a == [] {
      assert a + b == b;
    } else {
      hide Encrypt, ChainAfter, XorBlock;
      var x := FirstBlock(c, k, iv, a);
      EncryptConcat(c, k, x, a[16..], b);
      FirstOfConcat(a, b);
      EncryptStep(c, k, iv, a);
      EncryptStep(c, k, iv, a + b);
      var rest := Encrypt(c, k, x, a[16..]);
      Assoc(x, rest, Encrypt(c, k, ChainAfter(x, rest), b));
    }
  }

  lemma {:induction false} DecryptConcat(c: BlockCipher, k: Key, iv: Block, a: seq<byte>, b: seq<byte>)
    requires Whole(a) && Whole(b)
    ensures Whole(a + b) && Decrypt(c, k, iv, a + b) == Decrypt(c, k, iv, a) + Decrypt(c, k, ChainAfter(iv, a), b)
    decreases |a|
  {
    hide XorBlock;
    if a == [] {
      assert a + b == b;
    } else {
      DecryptConcat(c, k, a[..16], a[16..], b);
      FirstOfConcat(a, b);
    }
  }

  /** Section 6.2 of NIST SP 800-38A: each ciphertext block is the cipher of its
      plaintext block xored with the ciphertext block before it, the first with the IV. */
  lemma {:induction false} EncryptedBlock(c: BlockCipher, k: Key, iv: Block, pt: seq<byte>, i: nat)
    requires Whole(pt) && 16 * i + 16 <= |pt|
    ensures var ct := Encrypt(c, k, iv, pt);
            var prior := if i == 0 then iv else ct[16 * i - 16..16 * i];
            ct[16 * i..16 * i + 16] == c.enc(k, XorBytes(pt[16 * i..16 * i + 16], prior))
    decreases i
  {
    hide Encrypt, ChainAfter;
    var ct, x := Encrypt(c, k, iv, pt), FirstBlock(c, k, iv, pt);
    EncryptStep(c, k, iv, pt);
    assert ct[..16] == x && pt[0..16] == pt[..16];
    if i > 0 {
      EncryptedBlock(c, k, x, pt[16..], i - 1);
      var rest := Encrypt(c, k, x, pt[16..]);
      assert rest == ct[16..];
      SliceOfSuffix(ct, 16, 16 * i, 16 * i + 16);
      SliceOfSuffix(pt, 16, 16 * i, 16 * i + 16);
      SliceOfSuffix(ct, 16, 16 * i - if i > 1 then 16 else 0, 16 * i);
    }
  }

  /** The same of decryption, whatever the ciphertext. */
  lemma {:induction false} DecryptedBlock(c: BlockCipher, k: Key, iv: Block, ct: seq<byte>, i: nat)
    requires Whole(ct) && 16 * i + 16 <= |ct|
    ensures var prior := if i == 0 then iv else ct[16 * i - 16..16 * i];
            Decrypt(c, k, iv, ct)[16 * i..16 * i + 16] == XorBytes(c.dec(k, ct[16 * i..16 * i + 16]), prior)
    decreases i
  {
    var x: Block := ct[..16];
    var pt, rest := Decrypt(c, k, iv, ct), Decrypt(c, k, x, ct[16..]);
    assert pt == XorBytes(c.dec(k, x), iv) + rest && ct[0..16] == x;
    hide Decrypt;
    if i > 0 {
      DecryptedBlock(c, k, x, ct[16..], i - 1);
      assert rest == pt[16..];
      SliceOfSuffix(pt, 16, 16 * i, 16 * i + 16);
      SliceOfSuffix(ct, 16, 16 * i, 16 * i + 16);
      SliceOfSuffix(ct, 16, 16 * i - if i > 1 then 16 else 0, 16 * i);
    }
  }

  lemma {:induction false} DecryptEncrypt(c: BlockCipher, k: Key, iv: Block, pt: seq<byte>)
    requires c.Valid() && Whole(pt)
    ensures Decrypt(c, k, iv, Encrypt(c, k, iv, pt)) == pt
    decreases |pt|
  {
    hide BlockCipher.Valid, XorBlock;
    if pt != [] {
      var x := XorBlock(pt[..16], iv);
      var b := c.enc(k, x);
      var ct := Encrypt(c, k, iv, pt);
      assert ct[..16] == b && ct[16..] == Encrypt(c, k, b, pt[16..]);
      DecEnc(c, k, x);
      XorBlockUndo(pt[..16], iv);
      DecryptEncrypt(c, k, b, pt[16..]);
    }
  }

  lemma {:induction false} EncryptDecrypt(c: BlockCipher, k: Key, iv: Block, ct: seq<byte>)
    requires c.Valid() && Whole(ct)
    ensures Encrypt(c, k, iv, Decrypt(c, k, iv, ct)) == ct
    decreases |ct|
  {
    hide BlockCipher.Valid, XorBlock;
    if ct != [] {
      var b: Block := ct[..16];
      var pt := Decrypt(c, k, iv, ct);
      assert pt[..16] == XorBlock(c.dec(k, b), iv) && pt[16..] == Decrypt(c, k, b, ct[16..]);
      XorBlockUndo(c.dec(k, b), iv);
      DecEnc(c, k, b);
      EncryptDecrypt(c, k, b, ct[16..]);
    }
  }

  /** Any run of whole blocks of a ciphertext decrypts to the matching plaintext,
      from the chaining value before it. */
  lemma DecryptSlice(c: BlockCipher, k: Key, iv: Block, pt: seq<byte>, m: nat, n: nat)
    requires c.Valid() && Whole(pt) && m <= n <= |pt| && m % 16 == 0 && n % 16 == 0
    ensures var ct := Encrypt(c, k, iv, pt);
            Decrypt(c, k, ChainAfter(iv, ct[..m]), ct[m..n]) == pt[m..n]
  {
    hide Decrypt, Encrypt, ChainAfter, BlockCipher.Valid;
    var ct := Encrypt(c, k, iv, pt);
    EncryptPrefix(c, k, iv, pt, m);
    EncryptPrefix(c, k, iv, pt, n);
    DecryptEncrypt(c, k, iv, pt[..m]);
    DecryptEncrypt(c, k, iv, pt[..n]);
    DecryptConcat(c, k, iv, ct[..m], ct[m..n]);
    assert ct[..m] + ct[m..n] == ct[..n];
    SuffixOf(pt, m, n, Decrypt(c, k, ChainAfter(iv, ct[..m]), ct[m..n]));
  }

  lemma SuffixOf(pt: seq<byte>, m: nat, n: nat, d: seq<byte>)
    requires m <= n <= |pt| && pt[..n] == pt[..m] + d
    ensures d == pt[m..n]
  {
    assert d == (pt[..m] + d)[m..];
    assert pt[m..n] == pt[..n][m..];
  }

  lemma ChainSlice(iv: Block, ct: seq<byte>, m: nat, n: nat)
    requires m <= n <= |ct| && m % 16 == 0 && n % 16 == 0
    ensures ChainAfter(ChainAfter(iv, ct[..m]), ct[m..n]) == ChainAfter(iv, ct[..n])
  {
    ChainConcat(iv, ct[..m], ct[m..n]);
    assert ct[..m] + ct[m..n] == ct[..n];
  }

  lemma EncryptPrefix(c: BlockCipher, k: Key, iv: Block, pt: seq<byte>, n: nat)
    requires Whole(pt) && n <= |pt| && n % 16 == 0
    ensures Encrypt(c, k, iv, pt)[..n] == Encrypt(c, k, iv, pt[..n])
  {
    EncryptConcat(c, k, iv, pt[..n], pt[n..]);
    assert pt[..n] + pt[n..] == pt;
  }

  // ---------- the two-way cipher ----------

  /** The length of the whole blocks at the start of n bytes. */
  function WholeLength(n: nat): (m: nat)
    ensures m <= n < m + 16 && m % 16 == 0
  {
    n / 16 * 16
  }

  function EncryptedWhole(c: BlockCipher, k: Key, iv: Block, b: seq<byte>): (out: seq<byte>)
    ensures |out| == |b|
  {
    var n := WholeLength(|b|);
    Encrypt(c, k, iv, b[..n]) + b[n..]
  }

  function DecryptedWhole(c: BlockCipher, k: Key, iv: Block, b: seq<byte>): (out: seq<byte>)
    ensures |out| == |b|
  {
    var n := WholeLength(|b|);
    Decrypt(c, k, iv, b[..n]) + b[n..]
  }

  /** `Aes256`. A mutable slice is passed in by value and handed back. */
  class Aes256 {
    const cipher: BlockCipher
    const key: Key
    var encIv: Block
    var decIv: Block

    constructor (cipher: BlockCipher, key: Key, encIv: Block, decIv: Block)
      ensures this.cipher == cipher && this.key == key && this.encIv == encIv && this.decIv == decIv
    {
      this.cipher, this.key, this.encIv, this.decIv := cipher, key, encIv, decIv;
    }

    /** `encrypt_blocks`: None when there is no whole block. */
    method EncryptBlocks(buf: seq<byte>) returns (out: seq<byte>, end: Option<nat>)
      modifies this
      ensures end == if |buf| < 16 then None else Some(WholeLength(|buf|))
      ensures out == EncryptedWhole(cipher, key, old(encIv), buf)
      ensures encIv == ChainAfter(old(encIv), out[..WholeLength(|buf|)])
      ensures decIv == old(decIv)
    {
      var n := |buf| / 16 * 16;
      if |buf| < 16 {
        assert buf[..0] == [];
        return buf, None;
      }
      var ct := Encrypt(cipher, key, encIv, buf[..n]);
      out := ct + buf[n..];
      assert out[..n] == ct;
      ChainIsLastBlock(encIv, ct);
      encIv := ct[n - 16..];
      end := Some(n);
    }

    /** `decrypt_blocks`. */
    method DecryptBlocks(buf: seq<byte>) returns (out: seq<byte>, end: Option<nat>)
      modifies this
      ensures end == if |buf| < 16 then None else Some(WholeLength(|buf|))
      ensures out == DecryptedWhole(cipher, key, old(decIv), buf)
      ensures decIv == ChainAfter(old(decIv), buf[..WholeLength(|buf|)])
      ensures encIv == old(encIv)
    {
      var n := |buf| / 16 * 16;
      if |buf| < 16 {
        assert buf[..0] == [];
        return buf, None;
      }
      out := Decrypt(cipher, key, decIv, buf[..n]) + buf[n..];
      ChainIsLastBlock(decIv, buf[..n]);
      decIv := buf[..n][n - 16..];
      end := Some(n);
    }
  }
}
