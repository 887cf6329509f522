/**
 * DSA signatures, algorithms 11.54 and 11.56 of the Handbook of Applied
 * Cryptography, over any parameters of the sizes I2P uses.
 */
module Dsa {
  import opened Bytes
  import opened NumberTheory
  import BigUint

  datatype Group = Group(p: nat, q: nat, g: nat) {
    /** The properties of I2P's constants: two primes of at most 128 and 20
        bytes, and a generator whose q-th power is one. */
    ghost predicate Valid() {
      && Prime(p) && BigUint.Fits(p, 128)
      && Prime(q) && BigUint.Fits(q, 20)
      && Cong(Pow(g, q), 1, p)
    }
  }

  /** A signature as it travels: two 20-byte numbers. */
  datatype Signature = Signature(rbar: seq<byte>, sbar: seq<byte>)

  datatype PublicKey = PublicKey(y: nat, bytes: seq<byte>)

  // ---------- signing ----------

  function SignatureR(grp: Group, k: nat): (r: nat)
    requires grp.p > 0 && grp.q > 0
    ensures r < grp.q
  {
    Rem(ModPow(grp.g, k, grp.p), grp.q)
  }

  function SignatureS(grp: Group, hm: nat, a: nat, k: nat): (s: nat)
    requires grp.p > 0 && grp.q >= 2
    ensures s < grp.q
  {
    Rem(ModPow(k, grp.q - 2, grp.q) * (hm + a * SignatureR(grp, k)), grp.q)
  }

  function Signed(grp: Group, a: nat, k: nat, hm: nat): (sig: Signature)
    requires grp.p > 0 && grp.q >= 2
  {
    Signature(ToBE(SignatureR(grp, k), 20), ToBE(SignatureS(grp, hm, a, k), 20))
  }

  /** `DsaPrivateKey::sign` for private key a, once the nonce loop has settled on
      k; `digest` is the SHA-1 hash of the message. */
  method Sign(grp: Group, a: nat, k: nat, digest: seq<byte>) returns (sig: Signature)
    requires grp.Valid() && 0 < k < grp.q
    ensures sig == Signed(grp, a, k, FromBE(digest))
  {
    hide Pow, FromBE, ToBE, Rem;
    var r := Rem(ModPow(grp.g, k, grp.p), grp.q);
    var km1 := ModPow(k, grp.q - 2, grp.q);
    var hm := FromBE(digest);
    var s := Rem(km1 * (hm + a * r), grp.q);
    BigUint.FitsBelow(r, grp.q, 20);
    BigUint.FitsBelow(s, grp.q, 20);
    var rbar := BigUint.Rectify(r, 20);
    var sbar := BigUint.Rectify(s, 20);
    sig := Signature(rbar.value, sbar.value);
  }

  /** Draw i is in range and none before it is. */
  ghost predicate FirstValid(draws: seq<seq<byte>>, q: nat, i: nat)
    requires i < |draws|
  {
    && 0 < FromBE(draws[i]) < q
    && forall j :: 0 <= j < i ==> FromBE(draws[j]) == 0 || FromBE(draws[j]) >= q
  }

  /** The nonce and key loops: the first draw in 1 .. q-1, or None when the
      draws run out. */
  method SampleScalar(draws: seq<seq<byte>>, q: nat) returns (k: Option<nat>)
    ensures k.Some? ==> 0 < k.value < q
    ensures k.Some? ==> exists i :: 0 <= i < |draws| && FirstValid(draws, q, i) && FromBE(draws[i]) == k.value
    ensures k.None? <==> forall i :: 0 <= i < |draws| ==> FromBE(draws[i]) == 0 || FromBE(draws[i]) >= q
  {
    for i := 0 to |draws|
      invariant forall j :: 0 <= j < i ==> FromBE(draws[j]) == 0 || FromBE(draws[j]) >= q
    {
      var n := FromBE(draws[i]);
      if n != 0 && n < q {
        assert FirstValid(draws, q, i);
        return Some(n);
      }
    }
    k := None;
  }

  // ---------- keys and verification ----------

  /** `DsaPublicKey::from_private`. */
  function FromPrivate(grp: Group, a: nat): (pk: PublicKey)
    requires grp.p > 0
  {
    var y := ModPow(grp.g, a, grp.p);
    PublicKey(y, ToBE(y, 128))
  }

  /** `DsaPublicKey::from_bytes`; None is `rectify`'s panic. */
  function FromBytes(data: seq<byte>): (pk: Option<PublicKey>)
  {
    var y := FromBE(data);
    if BigUint.Fits(y, 128) then Some(PublicKey(y, ToBE(y, 128))) else None
  }

  /** `DsaPublicKey::verify`. */
  function Verify(grp: Group, pk: PublicKey, digest: seq<byte>, sig: Signature): (ok: bool)
    requires grp.p > 0 && grp.q >= 2
  {
    var r, s := FromBE(sig.rbar), FromBE(sig.sbar);
    if r == 0 || r >= grp.q || s == 0 || s >= grp.q then
      false
    else
      Recompute(grp, pk.y, FromBE(digest), r, s) == r
  }

  /** The value v that verification compares with r. */
  function Recompute(grp: Group, y: nat, hm: nat, r: nat, s: nat): (v: nat)
    requires grp.p > 0 && grp.q >= 2
  {
    var w := ModPow(s, grp.q - 2, grp.q);
    var u1 := Rem(w * hm, grp.q);
    var u2 := Rem(r * w, grp.q);
    Rem(Rem(ModPow(grp.g, u1, grp.p) * ModPow(y, u2, grp.p), grp.p), grp.q)
  }

  /** `DsaSignature::to_bytes` and `from_bytes`. */
  function SignatureToBytes(sig: Signature): (data: seq<byte>)
  {
    sig.rbar + sig.sbar
  }

  function SignatureFromBytes(data: seq<byte>): (sig: Option<Signature>)
  {
    if |data| < 40 then None else Some(Signature(data[..20], data[20..40]))
  }

  // ---------- correctness ----------

  lemma InverseIsUnit(q: nat, k: nat)
    requires Prime(q) && !Divides(q, k)
    ensures !Divides(q, ModPow(k, q - 2, q))
  {
    hide Pow, Rem;
    PrimeSparesPower(q, k, q - 2);
    RemOfRem(Pow(k, q - 2), q);
  }

  /** A unit times x is zero modulo q exactly when x is. */
  lemma UnitScalesNonzero(q: nat, i: nat, x: nat)
    requires Prime(q) && !Divides(q, i)
    ensures Rem(i * x, q) == 0 <==> Rem(x, q) == 0
  {
    hide Rem;
    if Divides(q, x) {
      CongZeroIffDivides(x, q);
      CongScale(x, 0, i, q);
      CongZeroIffDivides(i * x, q);
    } else if Divides(q, i * x) {
      Euclid(q, i, x);
    }
  }

  /** Multiplying by s^{-1} turns h + a*r into the exponents that `Verify` uses. */
  lemma ExponentsDistribute(q: nat, w: nat, hm: nat, a: nat, r: nat)
    requires q > 0
    ensures Cong((Rem(w * hm, q)) + a * (Rem(r * w, q)), (hm + a * r) * w, q)
  {
    hide Rem;
    CongMod(w * hm, q);
    CongMod(r * w, q);
    CongScale(Rem(r * w, q), r * w, a, q);
    CongAdd(Rem(w * hm, q), w * hm, (Rem(r * w, q)) * a, (r * w) * a, q);
    assert w * hm + (r * w) * a == (hm + a * r) * w by { Distribute(w, hm, a, r); }
  }

  lemma Distribute(w: nat, hm: nat, a: nat, r: nat)
    ensures w * hm + (r * w) * a == (hm + a * r) * w
  {
    assert (r * w) * a == (a * r) * w;
  }

  /** If i inverts k and s is i*x, then k*s is x again. */
  lemma Unscale(q: nat, k: nat, i: nat, x: nat, s: nat)
    requires q > 0 && Cong(k * i, 1, q) && Cong(s, i * x, q)
    ensures Cong(s * k, x, q)
  {
    hide Rem;
    CongScale(s, i * x, k, q);
    CongScale(k * i, 1, x, q);
    assert (i * x) * k == (k * i) * x;
  }

  lemma SwapFactors(s: nat, k: nat, w: nat)
    ensures (s * k) * w == (s * w) * k
  {}

  /** The exponents u1 + a*u2 that verification uses add up to the nonce, when i
      inverts k and w inverts s. */
  lemma ExponentsAddUp(q: nat, hm: nat, a: nat, r: nat, k: nat, i: nat, s: nat, w: nat, x: nat)
    requires q > 0 && x == hm + a * r
    requires Cong(k * i, 1, q) && Cong(s, i * x, q) && Cong(s * w, 1, q)
    ensures Cong((Rem(w * hm, q)) + a * (Rem(r * w, q)), k, q)
  {
    hide Rem;
    Unscale(q, k, i, x, s);
    CongScale(s * k, x, w, q);
    CongScale(s * w, 1, k, q);
    SwapFactors(s, k, w);
    ExponentsDistribute(q, w, hm, a, r);
  }

  /** Verification recomputes g^k from the public key. */
  lemma VerifyRecovers(grp: Group, a: nat, k: nat, u1: nat, u2: nat)
    requires grp.Valid() && Cong(u1 + a * u2, k, grp.q)
    ensures Rem(ModPow(grp.g, u1, grp.p) * ModPow(ModPow(grp.g, a, grp.p), u2, grp.p), grp.p) == ModPow(grp.g, k, grp.p)
  {
    hide Rem;
    var p, g := grp.p, grp.g;
    var y := ModPow(g, a, p);
    CongMod(Pow(g, u1), p);
    CongMod(Pow(y, u2), p);
    CongMod(Pow(g, a), p);
    CongPow(y, Pow(g, a), u2, p);
    PowOfPow(g, a, u2);
    CongMul(ModPow(g, u1, p), Pow(g, u1), ModPow(y, u2, p), Pow(g, a * u2), p);
    PowAdd(g, u1, a * u2);
    PowExponentMod(g, grp.q, p, u1 + a * u2, k);
  }

  lemma RecomputeGivesR(grp: Group, a: nat, k: nat, hm: nat)
    requires grp.Valid() && 0 < k < grp.q && SignatureS(grp, hm, a, k) != 0
    ensures Recompute(grp, ModPow(grp.g, a, grp.p), hm, SignatureR(grp, k), SignatureS(grp, hm, a, k))
         == SignatureR(grp, k)
  {
    hide Pow, Rem;
    SmallIsUnit(k, grp.q);
    SmallIsUnit(SignatureS(grp, hm, a, k), grp.q);
    var q, r, s := grp.q, SignatureR(grp, k), SignatureS(grp, hm, a, k);
    var i, w := ModPow(k, q - 2, q), ModPow(s, q - 2, q);
    FermatInverse(q, k);
    FermatInverse(q, s);
    CongMod(i * (hm + a * r), q);
    ExponentsAddUp(q, hm, a, r, k, i, s, w, hm + a * r);
    VerifyRecovers(grp, a, k, Rem(w * hm, q), Rem(r * w, q));
  }

  lemma SIsZeroIff(grp: Group, a: nat, k: nat, hm: nat)
    requires grp.Valid() && 0 < k < grp.q
    ensures SignatureS(grp, hm, a, k) == 0 <==> Rem(hm + a * SignatureR(grp, k), grp.q) == 0
  {
    hide ModPow, Rem;
    SmallIsUnit(k, grp.q);
    InverseIsUnit(grp.q, k);
    UnitScalesNonzero(grp.q, ModPow(k, grp.q - 2, grp.q), hm + a * SignatureR(grp, k));
  }

  lemma SignatureNumbers(grp: Group, r: nat, s: nat)
    requires grp.Valid() && r < grp.q && s < grp.q
    ensures FromBE(ToBE(r, 20)) == r && FromBE(ToBE(s, 20)) == s
  {
    BigUint.FitsBelow(r, grp.q, 20);
    BigUint.FitsBelow(s, grp.q, 20);
    BigUint.FixedWidthRoundTrip(r, 20);
    BigUint.FixedWidthRoundTrip(s, 20);
  }

  /** DSA correctness. A signature made by `Sign` verifies under the public key
      of its private key, after its 40-byte encoding, exactly when neither r nor
      h(m) + a*r vanishes modulo q: `Sign` does not draw a new nonce in that case. */
  lemma SignedVerifies(grp: Group, a: nat, k: nat, digest: seq<byte>, tail: seq<byte>)
    requires grp.Valid() && 0 < k < grp.q
    ensures SignatureFromBytes(SignatureToBytes(Signed(grp, a, k, FromBE(digest))) + tail)
         == Some(Signed(grp, a, k, FromBE(digest)))
    ensures Verify(grp, FromPrivate(grp, a), digest, Signed(grp, a, k, FromBE(digest)))
       <==> SignatureR(grp, k) != 0 && Rem(FromBE(digest) + a * SignatureR(grp, k), grp.q) != 0
  {
    hide Recompute, SignatureR, SignatureS, Pow, FromBE, ToBE, Rem;
    var hm, r, s := FromBE(digest), SignatureR(grp, k), SignatureS(grp, FromBE(digest), a, k);
    var sig := Signed(grp, a, k, hm);
    var data := SignatureToBytes(sig) + tail;
    assert data[..20] == sig.rbar && data[20..40] == sig.sbar;
    SignatureNumbers(grp, r, s);
    SIsZeroIff(grp, a, k, hm);
    if s != 0 { RecomputeGivesR(grp, a, k, hm); }
  }

  /** If w inverts s and s*k is h + a*r, verification's exponents add up to k. */
  lemma ExponentsGiveNonce(q: nat, hm: nat, a: nat, r: nat, s: nat, w: nat, k: nat)
    requires q > 0 && Cong(s * w, 1, q) && Cong(s * k, hm + a * r, q)
    ensures Cong(Rem(w * hm, q) + a * Rem(r * w, q), k, q)
  {
    hide Rem;
    CongScale(s * k, hm + a * r, w, q);
    CongScale(s * w, 1, k, q);
    SwapFactors(s, k, w);
    ExponentsDistribute(q, w, hm, a, r);
  }

  /** Exactly which signatures verify, whoever made them: r and s lie in 1 .. q-1, and
      for a k with s*k = h(m) + a*r modulo q, g^k modulo p and then q is r. As s is a
      unit there is such a k, and any will do. */
  lemma VerifiesIff(grp: Group, a: nat, k: nat, digest: seq<byte>, sig: Signature)
    requires grp.Valid() && Cong(FromBE(sig.sbar) * k, FromBE(digest) + a * FromBE(sig.rbar), grp.q)
    ensures Verify(grp, FromPrivate(grp, a), digest, sig)
       <==> && 0 < FromBE(sig.rbar) < grp.q && 0 < FromBE(sig.sbar) < grp.q
            && Rem(Rem(Pow(grp.g, k), grp.p), grp.q) == FromBE(sig.rbar)
  {
    hide Pow, Rem, FromBE, ToBE;
    var q, hm, r, s := grp.q, FromBE(digest), FromBE(sig.rbar), FromBE(sig.sbar);
    if 0 < s < q {
      var w := ModPow(s, q - 2, q);
      SmallIsUnit(s, q);
      FermatInverse(q, s);
      ExponentsGiveNonce(q, hm, a, r, s, w, k);
      VerifyRecovers(grp, a, k, Rem(w * hm, q), Rem(r * w, q));
    }
  }

  /** The k that `VerifiesIff` speaks of exists for every s that is in range. */
  lemma NonceExists(grp: Group, x: nat, s: nat)
    requires grp.Valid() && 0 < s < grp.q
    ensures Cong(s * (ModPow(s, grp.q - 2, grp.q) * x), x, grp.q)
  {
    hide Pow, Rem;
    var w := ModPow(s, grp.q - 2, grp.q);
    SmallIsUnit(s, grp.q);
    FermatInverse(grp.q, s);
    CongScale(s * w, 1, x, grp.q);
    assert s * (w * x) == (s * w) * x;
  }

  /** A public key survives its 128-byte encoding. */
  lemma PublicKeyRoundTrip(grp: Group, a: nat)
    requires grp.Valid()
    ensures FromBytes(FromPrivate(grp, a).bytes) == Some(FromPrivate(grp, a))
  {
    BigUint.FitsBelow(ModPow(grp.g, a, grp.p), grp.p, 128);
    BigUint.FixedWidthRoundTrip(ModPow(grp.g, a, grp.p), 128);
  }

  // ---------- the keys that fail ----------

  /** The one private key, modulo q, whose signature of a given hash under a given
      nonce does not verify: -h/r. */
  function FailingKey(grp: Group, k: nat, hm: nat): (a: nat)
    requires grp.p > 0 && grp.q >= 2
    ensures a < grp.q
  {
    var r := SignatureR(grp, k);
    Rem((grp.q - Rem(hm, grp.q)) * ModPow(r, grp.q - 2, grp.q), grp.q)
  }

  /** If w inverts r and n is -h, then h + a*r vanishes exactly for a = n*w. */
  lemma SolvesLinear(q: nat, h: nat, r: nat, w: nat, a: nat, n: nat)
    requires q > 0 && Cong(r * w, 1, q) && Cong(n + h, 0, q)
    ensures Cong(h + a * r, 0, q) <==> Cong(a, n * w, q)
  {
    hide Rem;
    if Cong(h + a * r, 0, q) {
      CongAdd(h + a * r, 0, n, n, q);
      CongAdd(n + h, 0, a * r, a * r, q);
      CongScale(a * r, n, w, q);
      CongScale(r * w, 1, a, q);
      assert (a * r) * w == (r * w) * a;
    }
    if Cong(a, n * w, q) {
      CongScale(a, n * w, r, q);
      CongScale(r * w, 1, n, q);
      assert (n * w) * r == (r * w) * n;
      CongAdd(a * r, n, h, h, q);
    }
  }

  lemma MinusIs(h: nat, q: nat)
    requires q > 0
    ensures Cong(q - Rem(h, q) + h, 0, q)
  {
    CongByMultiple(q - h % q + h, 0, 1 + h / q, q);
  }

  /** With a nonce for which r is not zero, for every hash exactly one private key
      modulo q makes a signature that does not verify. */
  lemma OneKeyFails(grp: Group, a: nat, k: nat, digest: seq<byte>)
    requires grp.Valid() && 0 < k < grp.q && SignatureR(grp, k) != 0
    ensures Verify(grp, FromPrivate(grp, a), digest, Signed(grp, a, k, FromBE(digest)))
       <==> Rem(a, grp.q) != FailingKey(grp, k, FromBE(digest))
  {
    hide Pow, Rem, Verify, Signed, FromBE, SignatureR;
    var q, h, r := grp.q, FromBE(digest), SignatureR(grp, k);
    var w, n := ModPow(r, q - 2, q), q - Rem(h, q);
    SignedVerifies(grp, a, k, digest, []);
    SmallIsUnit(r, q);
    FermatInverse(q, r);
    MinusIs(h, q);
    SolvesLinear(q, h, r, w, a, n);
    CongZeroIffDivides(h + a * r, q);
  }

  lemma SmallGroup()
    ensures Group(7, 3, 2).Valid() && SignatureR(Group(7, 3, 2), 1) == 2
  {
    assert Pow(2, 1) == 2 && Pow(2, 3) == 8;
    assert BigUint.Fits(7, 128) && BigUint.Fits(3, 20);
  }

  /** One such key: modulo 3, with nonce 1 and a hash of 1, the key 1 gives s = 0, and
      the signature is made all the same. */
  lemma ZeroSIsSigned()
    ensures var grp := Group(7, 3, 2);
            && grp.Valid() && SignatureS(grp, FromBE([1]), 1, 1) == 0
            && !Verify(grp, FromPrivate(grp, 1), [1], Signed(grp, 1, 1, FromBE([1])))
  {
    hide Pow, ToBE, ModPow, Verify, Signed, SignatureR, SignatureS, FromPrivate, Group.Valid;
    var grp := Group(7, 3, 2);
    SmallGroup();
    assert [1][..0] == [] && FromBE([1]) == 1;
    SIsZeroIff(grp, 1, 1, 1);
    SignedVerifies(grp, 1, 1, [1], []);
  }
}
