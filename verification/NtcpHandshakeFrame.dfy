/** The four messages of the NTCP handshake. */
module NtcpHandshakeFrame {
  import opened Bytes
  import opened Parsing
  import opened I2np
  import opened I2npRoundTrip
  import opened Cbc
  import opened NtcpFrame
  import ElGamal

  /** A router identity: 384 bytes of key material and a certificate. */
  datatype RouterIdentity = RouterIdentity(keys: seq<byte>, cert: Certificate)

  /** The primitives both ends share: the block cipher, SHA-256, the message
      checksum, the Diffie-Hellman group, signatures and what a router identity says
      about them. */
  datatype Env = Env(
    cipher: BlockCipher,
    sha: seq<byte> -> seq<byte>,
    sum: Checksum,
    grp: ElGamal.Group,
    identityOk: RouterIdentity -> bool,
    sigLen: RouterIdentity -> nat,
    sign: (seq<byte>, seq<byte>) -> seq<byte>,
    verify: (RouterIdentity, seq<byte>, seq<byte>) -> bool)
  {
    ghost predicate Valid() {
      cipher.Valid() && grp.Valid()
    }

    /** `Hash::digest`: always 32 bytes. */
    function Hash(m: seq<byte>): (h: seq<byte>)
      ensures |h| == 32
    {
      var h := sha(m);
      if |h| == 32 then h else Zeros(32)
    }
  }

  datatype HandshakeFrame =
    | SessionRequest(dhX: seq<byte>, hash: seq<byte>)
    | SessionCreated(dhY: seq<byte>, hxy: seq<byte>, tsB: nat)
    | SessionConfirmA(riA: RouterIdentity, tsA: nat, sigA: seq<byte>)
    | SessionConfirmB(sigB: seq<byte>)

  // ---------- writing ----------

  function IdentityBytes(ri: RouterIdentity): (b: seq<byte>)
  {
    ri.keys + CertificateBytes(ri.cert)
  }

  function RequestBytes(dhX: seq<byte>, hash: seq<byte>): (b: seq<byte>)
  {
    dhX + hash
  }

  /** The encrypted part of SessionCreated, before encryption. */
  function CreatedInner(hxy: seq<byte>, tsB: nat): (b: seq<byte>)
  {
    hxy + (ToBE(tsB, 4) + Zeros(PaddingLen(36)))
  }

  function ConfirmAPadding(env: Env, ri: RouterIdentity): (n: nat)
    ensures n < 16
  {
    PaddingLen(|IdentityBytes(ri)| + 6 + env.sigLen(ri))
  }

  function ConfirmABytes(env: Env, ri: RouterIdentity, tsA: nat, sig: seq<byte>): (b: seq<byte>)
  {
    ToBE(|IdentityBytes(ri)|, 2)
    + (IdentityBytes(ri) + (ToBE(tsA, 4) + (Zeros(ConfirmAPadding(env, ri)) + sig)))
  }

  lemma ConfirmAWhole(env: Env, ri: RouterIdentity, tsA: nat, sig: seq<byte>)
    requires |sig| == env.sigLen(ri)
    ensures |ConfirmABytes(env, ri, tsA, sig)| % 16 == 0
    ensures |ConfirmABytes(env, ri, tsA, sig)| <= |IdentityBytes(ri)| + |sig| + 21
  {
    hide IdentityBytes, ToBE;
  }

  function ConfirmBBytes(sig: seq<byte>): (b: seq<byte>)
    ensures |b| % 16 == 0
  {
    sig + Zeros(PaddingLen(|sig|))
  }

  /** The bytes that SessionConfirmA and SessionConfirmB sign. */
  function SigMsg(dhX: seq<byte>, dhY: seq<byte>, riHash: seq<byte>, tsA: nat, tsB: nat): (b: seq<byte>)
  {
    dhX + (dhY + (riHash + (ToBE(tsA, 4) + ToBE(tsB, 4))))
  }

  // ---------- reading ----------

  function ParseRequest(i: seq<byte>): (r: Parsed<HandshakeFrame>)
    ensures r.Done? ==> r.value.SessionRequest? && |i| >= 288 && r.rest == i[288..]
    ensures r.Done? ==> r.value.dhX == i[..256] && r.value.hash == i[256..288]
    ensures r.Done? || r.Incomplete?
    ensures |i| >= 288 ==> r.Done?
  {
    var (dhX, t) :- Take(256, i);
    var (hash, t) :- Take(32, t);
    Done(SessionRequest(dhX, hash), t)
  }

  /** The outer SessionCreated: the public value and 48 encrypted bytes. */
  function ParseCreatedOuter(i: seq<byte>): (r: Parsed<(seq<byte>, seq<byte>)>)
    ensures r.Done? ==> |i| >= 304 && r.value.0 == i[..256] && r.value.1 == i[256..304] && r.rest == i[304..]
    ensures r.Done? || r.Incomplete?
    ensures |i| >= 304 ==> r.Done?
  {
    var (dhY, t) :- Take(256, i);
    var (ct, t) :- Take(48, t);
    Done((dhY, ct), t)
  }

  function ParseCreatedInner(i: seq<byte>): (r: Parsed<(seq<byte>, nat)>)
  {
    var (hxy, i) :- Take(32, i);
    var (tsB, i) :- Number(4, i);
    var (_, i) :- Take(12, i);
    Done((hxy, tsB), i)
  }

  function ParseIdentity(env: Env, i: seq<byte>): (r: Parsed<RouterIdentity>)
    ensures r.Done? ==> |r.rest| <= |i|
  {
    var (keys, i) :- Take(384, i);
    var (cert, i) :- ParseCertificate(i);
    var ri := RouterIdentity(keys, cert);
    if env.identityOk(ri) then Done(ri, i) else Failed
  }

  function ParseConfirmA(env: Env, i: seq<byte>): (r: Parsed<HandshakeFrame>)
    ensures r.Done? ==> r.value.SessionConfirmA? && |r.rest| <= |i|
  {
    var (size, i) :- Number(2, i);
    var (ri, i) :- ParseIdentity(env, i);
    var (tsA, i) :- Number(4, i);
    var (_, i) :- Take(PaddingLen(size + 6 + env.sigLen(ri)), i);
    var (sig, i) :- Take(env.sigLen(ri), i);
    Done(SessionConfirmA(ri, tsA, sig), i)
  }

  function ParseConfirmB(env: Env, ri: RouterIdentity, i: seq<byte>): (r: Parsed<HandshakeFrame>)
    ensures r.Done? ==> r.value.SessionConfirmB? && |r.rest| <= |i|
  {
    var (sig, i) :- Take(env.sigLen(ri), i);
    var (_, i) :- Take(PaddingLen(env.sigLen(ri)), i);
    Done(SessionConfirmB(sig), i)
  }

  // ---------- reading back, whole or in part ----------

  ghost predicate IdentityWellFormed(env: Env, ri: RouterIdentity)
  {
    |ri.keys| == 384 && CertificateOk(ri.cert) && env.identityOk(ri) && |IdentityBytes(ri)| < Pow(256, 2)
  }

  lemma CreatedInnerBack(hxy: seq<byte>, tsB: nat)
    requires |hxy| == 32 && tsB < Pow(256, 4)
    ensures |CreatedInner(hxy, tsB)| == 48
    ensures ParseCreatedInner(CreatedInner(hxy, tsB)) == Done((hxy, tsB), [])
  {
    hide ToBE, Pow, Number;
    var t2 := Zeros(12) + [];
    var t1 := ToBE(tsB, 4) + t2;
    assert CreatedInner(hxy, tsB) == hxy + t1;
    TakeBack(hxy, t1);
    NumberBack(tsB, 4, t2);
    TakeBack(Zeros(12), []);
  }

  lemma IdentityBack(env: Env, ri: RouterIdentity, rest: seq<byte>)
    requires IdentityWellFormed(env, ri)
    ensures ParseIdentity(env, IdentityBytes(ri) + rest) == Done(ri, rest)
  {
    hide CertificateBytes, ParseCertificate, CertificateOk, Pow;
    assert IdentityBytes(ri) + rest == ri.keys + (CertificateBytes(ri.cert) + rest);
    TakeBack(ri.keys, CertificateBytes(ri.cert) + rest);
    CertificateBack(ri.cert, rest);
  }

  lemma ConfirmABack(env: Env, ri: RouterIdentity, tsA: nat, sig: seq<byte>, rest: seq<byte>)
    requires IdentityWellFormed(env, ri) && tsA < Pow(256, 4) && |sig| == env.sigLen(ri)
    ensures ParseConfirmA(env, ConfirmABytes(env, ri, tsA, sig) + rest) == Done(SessionConfirmA(ri, tsA, sig), rest)
  {
    hide ToBE, Pow, Number, ParseIdentity, IdentityBytes;
    var pad := Zeros(ConfirmAPadding(env, ri));
    var t4 := sig + rest;
    var t3 := pad + t4;
    var t2 := ToBE(tsA, 4) + t3;
    var t1 := IdentityBytes(ri) + t2;
    assert ConfirmABytes(env, ri, tsA, sig) + rest == ToBE(|IdentityBytes(ri)|, 2) + t1;
    NumberBack(|IdentityBytes(ri)|, 2, t1);
    IdentityBack(env, ri, t2);
    NumberBack(tsA, 4, t3);
    TakeBack(pad, t4);
    TakeBack(sig, rest);
  }

  lemma ConfirmBBack(env: Env, ri: RouterIdentity, sig: seq<byte>, rest: seq<byte>)
    requires |sig| == env.sigLen(ri)
    ensures ParseConfirmB(env, ri, ConfirmBBytes(sig) + rest) == Done(SessionConfirmB(sig), rest)
  {
    var pad := Zeros(PaddingLen(|sig|));
    assert ConfirmBBytes(sig) + rest == sig + (pad + rest);
    TakeBack(sig, pad + rest);
    TakeBack(pad, rest);
  }

  lemma ConfirmBPrefix(env: Env, ri: RouterIdentity, sig: seq<byte>, n: nat)
    requires |sig| == env.sigLen(ri) && n < |ConfirmBBytes(sig)|
    ensures ParseConfirmB(env, ri, ConfirmBBytes(sig)[..n]) == Incomplete
  {}

  lemma PrefixOfConcat(a: seq<byte>, b: seq<byte>, n: nat)
    requires n <= |a| + |b|
    ensures n <= |a| ==> (a + b)[..n] == a[..n]
    ensures n >= |a| ==> (a + b)[..n] == a + b[..n - |a|]
  {}

  lemma CertificatePrefix(c: Certificate, n: nat)
    requires CertificateOk(c) && n < |CertificateBytes(c)|
    ensures ParseCertificate(CertificateBytes(c)[..n]) == Incomplete
  {
    hide ToBE, Pow;
    if n >= 1 {
      var t := ToBE(|c.payload|, 2) + c.payload;
      PrefixOfConcat([c.kind], t, n);
      ByteBack(c.kind, t[..n - 1]);
      if c.kind == 0 || c.kind == 2 {
        ZeroLength();
        assert t == [0, 0];
      } else if n >= 3 {
        PrefixOfConcat(ToBE(|c.payload|, 2), c.payload, n - 1);
        NumberBack(|c.payload|, 2, c.payload[..n - 3]);
      }
    }
  }

  lemma IdentityPrefix(env: Env, ri: RouterIdentity, n: nat)
    requires IdentityWellFormed(env, ri) && n < |IdentityBytes(ri)|
    ensures ParseIdentity(env, IdentityBytes(ri)[..n]) == Incomplete
  {
    hide CertificateBytes, ParseCertificate, CertificateOk, Pow;
    if n >= 384 {
      PrefixOfConcat(ri.keys, CertificateBytes(ri.cert), n);
      TakeBack(ri.keys, CertificateBytes(ri.cert)[..n - 384]);
      CertificatePrefix(ri.cert, n - 384);
    }
  }

  /** Part of a SessionConfirmA asks for more; it never fails. */
  lemma ConfirmAPrefix(env: Env, ri: RouterIdentity, tsA: nat, sig: seq<byte>, n: nat)
    requires IdentityWellFormed(env, ri) && tsA < Pow(256, 4) && |sig| == env.sigLen(ri)
    requires n < |ConfirmABytes(env, ri, tsA, sig)|
    ensures ParseConfirmA(env, ConfirmABytes(env, ri, tsA, sig)[..n]) == Incomplete
  {
    hide ToBE, Pow, Number, ParseIdentity, IdentityBytes, Take;
    var id, pad := IdentityBytes(ri), Zeros(ConfirmAPadding(env, ri));
    var t3 := pad + sig;
    var t2 := ToBE(tsA, 4) + t3;
    var t1 := id + t2;
    assert ConfirmABytes(env, ri, tsA, sig) == ToBE(|id|, 2) + t1;
    if n < 2 {
      ShortNumber(2, ConfirmABytes(env, ri, tsA, sig)[..n]);
    } else {
      PrefixOfConcat(ToBE(|id|, 2), t1, n);
      NumberBack(|id|, 2, t1[..n - 2]);
      PrefixOfConcat(id, t2, n - 2);
      if n - 2 < |id| {
        IdentityPrefix(env, ri, n - 2);
      } else {
        var k := n - 2 - |id|;
        IdentityBack(env, ri, t2[..k]);
        PrefixOfConcat(ToBE(tsA, 4), t3, k);
        if k < 4 {
          ShortNumber(4, t2[..k]);
        } else {
          NumberBack(tsA, 4, t3[..k - 4]);
          PadSigPrefix(pad, sig, k - 4);
        }
      }
    }
  }

  lemma ShortNumber(n: nat, i: seq<byte>)
    requires |i| < n
    ensures Number(n, i) == Incomplete
  {}

  lemma PadSigPrefix(pad: seq<byte>, sig: seq<byte>, k: nat)
    requires k < |pad| + |sig|
    ensures var r := Take(|pad|, (pad + sig)[..k]);
            r.Incomplete? || (r.Done? && Take(|sig|, r.rest) == Incomplete)
  {}
}
