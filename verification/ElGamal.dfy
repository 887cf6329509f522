/**
 * ElGamal encryption, algorithms 8.17 and 8.18 of the Handbook of Applied
 * Cryptography, with I2P's message and ciphertext layout.
 */
module ElGamal {
  import opened Bytes
  import opened NumberTheory
  import BigUint

  datatype Group = Group(p: nat, g: nat) {
    /** The properties of the 2048-bit MODP group that the code relies on: a prime
        of exactly 256 bytes and a generator that it does not divide. */
    ghost predicate Valid() {
      Prime(p) && BigUint.Fits(p, 256) && !BigUint.Fits(p, 255) && !Divides(p, g)
    }
  }

  /** SHA-256. */
  type Digest = seq<byte> -> seq<byte>

  ghost predicate IsDigest(sha: Digest)
  {
    forall m :: |sha(m)| == 32
  }

  // ---------- basic encryption ----------

  /** `encrypt_basic` with public key y and nonce k; None is InvalidMessage. */
  function EncryptBasic(grp: Group, y: nat, k: nat, msg: seq<byte>): (ct: Option<(nat, nat)>)
    requires grp.p > 0
  {
    var m := FromBE(msg);
    if m > grp.p - 1 then None
    else Some((ModPow(grp.g, k, grp.p), Rem(m * ModPow(y, k, grp.p), grp.p)))
  }

  /** `decrypt_basic` with private key a. */
  function DecryptBasic(grp: Group, a: nat, gamma: nat, delta: nat): (msg: seq<byte>)
    requires grp.p > 0 && a <= grp.p - 1
  {
    BigUint.ToBytes(Rem(ModPow(gamma, grp.p - 1 - a, grp.p) * delta, grp.p))
  }

  lemma PowersCancel(grp: Group, a: nat, k: nat)
    requires grp.Valid() && a <= grp.p - 1
    ensures Cong(Pow(Pow(grp.g, k), grp.p - 1 - a) * Pow(Pow(grp.g, a), k), 1, grp.p)
  {
    hide Rem;
    var p, x := grp.p, Pow(grp.g, k);
    PowOfPow(grp.g, a, k);
    PowOfPow(grp.g, k, a);
    assert a * k == k * a;
    PowAdd(x, p - 1 - a, a);
    PrimeSparesPower(p, grp.g, k);
    Fermat(p, x);
  }

  /** gamma^{p-1-a} undoes the mask (g^a)^k. */
  lemma MaskCancels(grp: Group, a: nat, k: nat)
    requires grp.Valid() && a <= grp.p - 1
    ensures var p := grp.p;
            Cong(ModPow(ModPow(grp.g, k, p), p - 1 - a, p) * ModPow(ModPow(grp.g, a, p), k, p), 1, p)
  {
    hide Rem, Pow;
    var p := grp.p;
    ModPowOfModPow(p, grp.g, k, p - 1 - a);
    ModPowOfModPow(p, grp.g, a, k);
    CongMul(ModPow(ModPow(grp.g, k, p), p - 1 - a, p), Pow(Pow(grp.g, k), p - 1 - a),
            ModPow(ModPow(grp.g, a, p), k, p), Pow(Pow(grp.g, a), k), p);
    PowersCancel(grp, a, k);
  }

  lemma ModPowOfModPow(p: nat, g: nat, e: nat, f: nat)
    requires p > 0
    ensures Cong(ModPow(ModPow(g, e, p), f, p), Pow(Pow(g, e), f), p)
  {
    hide Rem, Pow;
    CongMod(Pow(g, e), p);
    CongPow(ModPow(g, e, p), Pow(g, e), f, p);
    CongMod(Pow(ModPow(g, e, p), f), p);
  }

  lemma Unmask(p: nat, m: nat, mask: nat, unmask: nat)
    requires m < p && Cong(unmask * mask, 1, p)
    ensures Rem(unmask * Rem(m * mask, p), p) == m
  {
    hide Rem;
    CongMod(m * mask, p);
    CongScale(Rem(m * mask, p), m * mask, unmask, p);
    CongScale(unmask * mask, 1, m, p);
    assert (m * mask) * unmask == (unmask * mask) * m;
    assert Cong(unmask * Rem(m * mask, p), m, p) by {
      assert Rem(m * mask, p) * unmask == unmask * Rem(m * mask, p);
    }
    if m > 0 { SmallIsUnit(m, p); } else { RemOfZero(p); }
  }

  lemma RemOfZero(p: nat)
    requires p > 0
    ensures Rem(0, p) == 0
  {}

  /** What basic encryption accepts, basic decryption returns as the minimal
      big-endian form of the same number, so leading zeroes are lost. */
  lemma BasicRoundTrip(grp: Group, a: nat, k: nat, msg: seq<byte>)
    requires grp.Valid() && a <= grp.p - 1
    ensures var ct := EncryptBasic(grp, ModPow(grp.g, a, grp.p), k, msg);
            if FromBE(msg) < grp.p
            then ct.Some? && ct.value.0 < grp.p && ct.value.1 < grp.p
                 && DecryptBasic(grp, a, ct.value.0, ct.value.1) == BigUint.ToBytes(FromBE(msg))
            else ct.None?
  {
    hide Rem, ModPow, FromBE;
    if FromBE(msg) < grp.p {
      var p, m := grp.p, FromBE(msg);
      MaskCancels(grp, a, k);
      Unmask(p, m, ModPow(ModPow(grp.g, a, p), k, p), ModPow(ModPow(grp.g, k, p), p - 1 - a, p));
    }
  }

  // ---------- I2P encoding ----------

  /** The plaintext: one non-zero byte, the hash of the message, the message. */
  function Plaintext(sha: Digest, lead: byte, msg: seq<byte>): (data: seq<byte>)
  {
    [lead] + sha(msg) + msg
  }

  /** The ciphertext of the numbers gamma and delta. */
  function Layout(gamma: nat, delta: nat, includeZeroes: bool): (ct: seq<byte>)
  {
    if includeZeroes then [0] + ToBE(gamma, 256) + [0] + ToBE(delta, 256)
    else ToBE(gamma, 256) + ToBE(delta, 256)
  }

  /** `Encryptor::encrypt`; `lead` and k are the values the two loops settle on. */
  method Encrypt(grp: Group, sha: Digest, y: nat, lead: byte, k: nat, msg: seq<byte>, includeZeroes: bool)
    returns (ct: Option<seq<byte>>)
    requires grp.Valid() && lead != 0
    ensures ct == Encrypted(grp, y, k, |msg|, Plaintext(sha, lead, msg), includeZeroes)
  {
    if |msg| > 222 {
      return None;
    }
    var data := [lead];
    data := data + sha(msg);
    data := data + msg;
    var basic := EncryptBasic(grp, y, k, data);
    if basic.None? {
      return None;
    }
    BigUint.FitsBelow(basic.value.0, grp.p, 256);
    BigUint.FitsBelow(basic.value.1, grp.p, 256);
    var gamma := BigUint.Rectify(basic.value.0, 256);
    var delta := BigUint.Rectify(basic.value.1, 256);
    if includeZeroes {
      ct := Some([0] + gamma.value + [0] + delta.value);
    } else {
      ct := Some(gamma.value + delta.value);
    }
  }

  function Encrypted(grp: Group, y: nat, k: nat, length: nat, data: seq<byte>,
      includeZeroes: bool): (ct: Option<seq<byte>>)
    requires grp.p > 0
  {
    if length > 222 then None
    else
      var basic := EncryptBasic(grp, y, k, data);
      if basic.None? then None else Some(Layout(basic.value.0, basic.value.1, includeZeroes))
  }

  /** `Decryptor::decrypt`; None is InvalidCiphertext. */
  function Decrypt(grp: Group, sha: Digest, a: nat, ct: seq<byte>, hasZeroes: bool): (msg: Option<seq<byte>>)
    requires grp.p > 0 && a <= grp.p - 1
  {
    if hasZeroes then
      if |ct| != 514 then None
      else Opened(sha, DecryptBasic(grp, a, FromBE(ct[..257]), FromBE(ct[257..])))
    else
      if |ct| != 512 then None
      else Opened(sha, DecryptBasic(grp, a, FromBE(ct[..256]), FromBE(ct[256..])))
  }

  /** Checks a decrypted plaintext against the hash inside it. */
  function Opened(sha: Digest, data: seq<byte>): (msg: Option<seq<byte>>)
  {
    if |data| < 33 then None
    else if sha(data[33..]) == data[1..33] then Some(data[33..])
    else None
  }

  lemma OpenedPlaintext(sha: Digest, lead: byte, msg: seq<byte>)
    requires |sha(msg)| == 32
    ensures Opened(sha, Plaintext(sha, lead, msg)) == Some(msg)
  {
    var data := Plaintext(sha, lead, msg);
    assert data[33..] == msg;
    assert data[1..33] == sha(msg);
  }

  /** A leading zero byte does not change the number. */
  lemma LeadingZero(b: seq<byte>)
    ensures FromBE([0] + b) == FromBE(b)
  {
    FromBEConcat([0], b);
    assert FromBE([0]) == 0 by { assert [0][..0] == []; }
  }

  lemma LayoutRoundTrip(gamma: nat, delta: nat, zeroes: bool)
    requires BigUint.Fits(gamma, 256) && BigUint.Fits(delta, 256)
    ensures var ct := Layout(gamma, delta, zeroes);
            var n := if zeroes then 257 else 256;
            |ct| == 2 * n && FromBE(ct[..n]) == gamma && FromBE(ct[n..]) == delta
  {
    hide FromBE, ToBE, BigUint.Fits;
    BigUint.FixedWidthRoundTrip(gamma, 256);
    BigUint.FixedWidthRoundTrip(delta, 256);
    var ct, c, d := Layout(gamma, delta, zeroes), ToBE(gamma, 256), ToBE(delta, 256);
    if zeroes {
      assert ct[..257] == [0] + c && ct[257..] == [0] + d;
      LeadingZero(c);
      LeadingZero(d);
    } else {
      assert ct[..256] == c && ct[256..] == d;
    }
  }

  /** The plaintext is a number below every 256-byte prime. */
  lemma PlaintextFits(grp: Group, data: seq<byte>)
    requires grp.Valid() && |data| <= 255
    ensures FromBE(data) < grp.p
  {
    var n := FromBE(data);
    FromBEBound(data);
    PowMonotone(256, |data|, 255);
    BigUint.FitsIffBelow(n, 255);
    if n >= grp.p { BigUint.FitsBelow(grp.p, n, 255); }
  }

  /** `KeyPairGenerator::generate` once its loop has settled on a: the private
      and the public key, 256 bytes each. */
  method GenerateKeys(grp: Group, a: nat) returns (priv: seq<byte>, pub: seq<byte>)
    requires grp.Valid() && 1 <= a <= grp.p - 2
    ensures |priv| == |pub| == 256
    ensures FromBE(priv) == a && FromBE(pub) == ModPow(grp.g, a, grp.p)
  {
    var alpha := ModPow(grp.g, a, grp.p);
    BigUint.FitsBelow(a, grp.p, 256);
    BigUint.FitsBelow(alpha, grp.p, 256);
    var x := BigUint.Rectify(a, 256);
    var y := BigUint.Rectify(alpha, 256);
    BigUint.FixedWidthRoundTrip(a, 256);
    BigUint.FixedWidthRoundTrip(alpha, 256);
    priv, pub := x.value, y.value;
  }

  /** ElGamal round trip: for every private key, its public key, every nonce,
      non-zero lead byte and message, encryption succeeds exactly on messages of at
      most 222 bytes, and then decryption returns the message, in both layouts. */
  lemma RoundTrip(grp: Group, sha: Digest, priv: seq<byte>, pub: seq<byte>, k: nat, lead: byte, msg: seq<byte>,
      zeroes: bool)
    requires grp.Valid() && IsDigest(sha) && FromBE(priv) <= grp.p - 1 && lead != 0
    requires FromBE(pub) == ModPow(grp.g, FromBE(priv), grp.p)
    ensures var ct := Encrypted(grp, FromBE(pub), k, |msg|, Plaintext(sha, lead, msg), zeroes);
            if |msg| <= 222
            then ct.Some? && Decrypt(grp, sha, FromBE(priv), ct.value, zeroes) == Some(msg)
            else ct.None?
  {
    hide ModPow, FromBE, Layout, EncryptBasic, DecryptBasic, Opened;
    if |msg| <= 222 {
      assert |sha(msg)| == 32;
      var data := Plaintext(sha, lead, msg);
      PlaintextFits(grp, data);
      BasicRoundTrip(grp, FromBE(priv), k, data);
      var basic := EncryptBasic(grp, FromBE(pub), k, data).value;
      BigUint.FitsBelow(basic.0, grp.p, 256);
      BigUint.FitsBelow(basic.1, grp.p, 256);
      LayoutRoundTrip(basic.0, basic.1, zeroes);
      BigUint.MinimalRoundTrip(data);
      OpenedPlaintext(sha, lead, msg);
    }
  }

  /** Exactly what opens, of all byte strings: 512 bytes whose numbers gamma and delta
      give, as delta over gamma^a, a lead byte, the hash of the message and the message. */
  lemma OpensIff(grp: Group, sha: Digest, a: nat, ct: seq<byte>, msg: seq<byte>)
    requires grp.p > 0 && a <= grp.p - 1 && |sha(msg)| == 32
    ensures Decrypt(grp, sha, a, ct, false) == Some(msg)
       <==> && |ct| == 512
            && var data := BigUint.ToBytes(Rem(ModPow(FromBE(ct[..256]), grp.p - 1 - a, grp.p) * FromBE(ct[256..]),
                                               grp.p));
               data[1..] == sha(msg) + msg
  {
    hide ModPow, FromBE, Rem;
    if |ct| == 512 {
      var data := DecryptBasic(grp, a, FromBE(ct[..256]), FromBE(ct[256..]));
      if data[1..] == sha(msg) + msg {
        assert data[33..] == data[1..][32..] && data[1..33] == data[1..][..32];
      } else if |data| >= 33 {
        assert data[1..] == data[1..33] + data[33..];
      }
    }
  }

  /** The two halves of a ciphertext are g^k and m*y^k modulo p. */
  lemma CiphertextNumbers(grp: Group, y: nat, k: nat, length: nat, data: seq<byte>)
    requires grp.Valid()
    ensures var ct := Encrypted(grp, y, k, length, data, false);
            && (ct.Some? <==> length <= 222 && FromBE(data) < grp.p)
            && (ct.Some? ==>
                  && |ct.value| == 512 && FromBE(ct.value[..256]) == Rem(Pow(grp.g, k), grp.p)
                  && FromBE(ct.value[256..]) < grp.p && Cong(FromBE(ct.value[256..]), FromBE(data) * Pow(y, k), grp.p))
  {
    hide Pow, FromBE, ToBE, Rem;
    var p, ct := grp.p, Encrypted(grp, y, k, length, data, false);
    if ct.Some? {
      var gamma, delta := ModPow(grp.g, k, p), Rem(FromBE(data) * ModPow(y, k, p), p);
      BigUint.FitsBelow(gamma, p, 256);
      BigUint.FitsBelow(delta, p, 256);
      BigUint.FixedWidthRoundTrip(gamma, 256);
      BigUint.FixedWidthRoundTrip(delta, 256);
      assert ct.value[..256] == ToBE(gamma, 256) && ct.value[256..] == ToBE(delta, 256);
      CongMod(FromBE(data) * ModPow(y, k, p), p);
      CongMod(Pow(y, k), p);
      CongScale(ModPow(y, k, p), Pow(y, k), FromBE(data), p);
      assert ModPow(y, k, p) * FromBE(data) == FromBE(data) * ModPow(y, k, p);
      assert Pow(y, k) * FromBE(data) == FromBE(data) * Pow(y, k);
    }
  }
}
