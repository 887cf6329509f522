/**
 * The Diffie-Hellman exchange of the NTCP handshake and the AES key made from it.
 */
module DiffieHellman {
  import opened Bytes
  import opened NumberTheory
  import BigUint
  import ElGamal

  /** `DHSessionKeyBuilder`: a private exponent; the public value is derived. */
  datatype KeyBuilder = KeyBuilder(grp: ElGamal.Group, dhPriv: nat) {

    function DhPub(): (y: nat)
      requires grp.p > 0
    {
      ModPow(grp.g, dhPriv, grp.p)
    }

    /** `get_pub`: 256 bytes. */
    function GetPub(): (b: seq<byte>)
      requires grp.p > 0
      ensures |b| == 256
    {
      ToBE(DhPub(), 256)
    }

    /** The session key as a function of the peer's public value. */
    function SessionKey(peerPub: seq<byte>): (key: seq<byte>)
      requires grp.p > 0
      ensures |key| == 32
    {
      KeyBytes(ModPow(FromBE(peerPub), dhPriv, grp.p))
    }

    /** `build_session_key`. */
    method BuildSessionKey(peerPub: seq<byte>) returns (key: seq<byte>)
      requires grp.p > 0
      ensures key == SessionKey(peerPub)
    {
      var dhKey := ModPow(FromBE(peerPub), dhPriv, grp.p);
      var buf := BigUint.ToBytes(dhKey);
      if buf[0] >= 0x80 {
        buf := [0] + buf;
      }
      var length := |buf|;
      if length < 32 {
        buf := buf + seq(32 - length, _ => 0);
      }
      key := buf[..32];
    }
  }

  /** The positive two's-complement form of Java's BigInteger.toByteArray. */
  function TwosComplement(n: nat): (b: seq<byte>)
    ensures |b| > 0
  {
    var b := BigUint.ToBytes(n);
    if b[0] >= 0x80 then [0] + b else b
  }

  function KeyBytes(n: nat): (key: seq<byte>)
    ensures |key| == 32
  {
    var b := TwosComplement(n);
    if |b| < 32 then b + seq(32 - |b|, _ => 0) else b[..32]
  }

  /** The two's-complement form has the sign bit clear, denotes the number, and is
      the shortest byte string that does both. */
  lemma TwosComplementIsMinimal(n: nat, other: seq<byte>)
    requires other != [] && other[0] < 0x80 && FromBE(other) == n
    ensures TwosComplement(n)[0] < 0x80
    ensures FromBE(TwosComplement(n)) == n
    ensures |TwosComplement(n)| <= |other|
  {
    var b := BigUint.ToBytes(n);
    BigUint.ToBytesValue(n);
    ElGamal.LeadingZero(b);
    FromBEBound(other);
    BigUint.FitsIffBelow(n, |other|);
    if b[0] >= 0x80 && |b| == |other| { FromBEInjective(b, other); }
  }

  /** The session key is the first 32 bytes of the shared secret's two's-complement
      form, filled up with zeros at the end when that is shorter. */
  lemma SessionKeyByte(kb: KeyBuilder, peerPub: seq<byte>, i: nat)
    requires kb.grp.p > 0 && i < 32
    ensures var b := TwosComplement(Rem(Pow(FromBE(peerPub), kb.dhPriv), kb.grp.p));
            kb.SessionKey(peerPub)[i] == if i < |b| then b[i] else 0
  {}

  /** Both ends of an exchange derive the same key, through the 256-byte encodings
      of their public values. */
  lemma KeysAgree(alice: KeyBuilder, bob: KeyBuilder)
    requires alice.grp == bob.grp && alice.grp.Valid()
    ensures alice.SessionKey(bob.GetPub()) == bob.SessionKey(alice.GetPub())
  {
    hide ModPow, ToBE, FromBE;
    var grp, a, b := alice.grp, alice.dhPriv, bob.dhPriv;
    PubRoundTrip(alice);
    PubRoundTrip(bob);
    SharedSecret(grp.p, grp.g, a, b);
  }

  lemma PubRoundTrip(kb: KeyBuilder)
    requires kb.grp.Valid()
    ensures FromBE(kb.GetPub()) == kb.DhPub()
  {
    hide ModPow;
    BigUint.FitsBelow(kb.DhPub(), kb.grp.p, 256);
    BigUint.FixedWidthRoundTrip(kb.DhPub(), 256);
  }

  lemma SharedSecret(p: nat, g: nat, a: nat, b: nat)
    requires p > 0
    ensures ModPow(ModPow(g, b, p), a, p) == ModPow(ModPow(g, a, p), b, p)
  {
    hide Rem, Pow;
    ElGamal.ModPowOfModPow(p, g, b, a);
    ElGamal.ModPowOfModPow(p, g, a, b);
    PowOfPow(g, a, b);
    PowOfPow(g, b, a);
    assert a * b == b * a;
    RemOfRem(Pow(ModPow(g, b, p), a), p);
    RemOfRem(Pow(ModPow(g, a, p), b), p);
  }
}
