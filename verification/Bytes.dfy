/** Bytes, fixed-width big-endian integers and bitwise exclusive or. */
module Bytes {

  type byte = x: int | 0 <= x < 256

  datatype Option<+T> = None | Some(value: T)

  function Min(a: nat, b: nat): (m: nat) { if a < b then a else b }

  /** A slice of a suffix, as a slice of the whole. */
  lemma SliceOfSuffix<T>(s: seq<T>, k: nat, m: nat, n: nat)
    requires k <= m <= n <= |s|
    ensures s[k..][m - k..n - k] == s[m..n]
  {}

  lemma Assoc<T>(a: seq<T>, b: seq<T>, c: seq<T>)
    ensures a + (b + c) == a + b + c
  {}

  // ---------- powers ----------

  function Pow(b: nat, e: nat): (r: nat)
  {
    if e == 0 then 1 else b * Pow(b, e - 1)
  }

  lemma PowPositive(b: nat, e: nat)
    requires b > 0
    ensures Pow(b, e) > 0
  {}

  lemma MulAssoc(a: nat, b: nat, c: nat)
    ensures a * (b * c) == a * b * c
  {}

  lemma {:induction false} PowAdd(b: nat, m: nat, n: nat)
    ensures Pow(b, m + n) == Pow(b, m) * Pow(b, n)
  {
    if m > 0 {
      PowAdd(b, m - 1, n);
      MulAssoc(b, Pow(b, m - 1), Pow(b, n));
    }
  }

  lemma MulGrows(m: nat, d: int)
    requires d >= 1
    ensures m * d >= m
  {}

  lemma {:induction false} PowMonotone(b: nat, m: nat, n: nat)
    requires b > 0 && m <= n
    ensures Pow(b, m) <= Pow(b, n)
    decreases n
  {
    if m < n {
      PowMonotone(b, m, n - 1);
      PowPositive(b, n - 1);
      MulGrows(Pow(b, n - 1), b);
    }
  }

  // ---------- big-endian integers ----------

  /** The number a byte string denotes, most significant byte first. */
  function FromBE(b: seq<byte>): (n: nat)
  {
    if b == [] then 0 else FromBE(b[..|b| - 1]) * 256 + b[|b| - 1]
  }

  /** The low `len` bytes of a number, most significant first; higher bytes are
      cut off, as a narrowing cast does. */
  function ToBE(n: nat, len: nat): (b: seq<byte>)
    ensures |b| == len
    decreases len, n
  {
    if len == 0 then [] else ToBE(n / 256, len - 1) + [n % 256]
  }

  lemma {:induction false} FromBEBound(b: seq<byte>)
    ensures FromBE(b) < Pow(256, |b|)
  {
    if b != [] { FromBEBound(b[..|b| - 1]); }
  }

  /** Writing then reading gives the number back exactly when it fits. */
  lemma {:induction false} ToThenFrom(n: nat, len: nat)
    ensures n < Pow(256, len) <==> FromBE(ToBE(n, len)) == n
  {
    if len > 0 {
      ToThenFrom(n / 256, len - 1);
      var b := ToBE(n, len);
      assert b[..len - 1] == ToBE(n / 256, len - 1);
    }
  }

  lemma {:induction false} FromThenTo(b: seq<byte>)
    ensures ToBE(FromBE(b), |b|) == b
  {
    if b != [] {
      FromThenTo(b[..|b| - 1]);
      assert b == b[..|b| - 1] + [b[|b| - 1]];
    }
  }

  lemma {:induction false} FromBEConcat(a: seq<byte>, b: seq<byte>)
    ensures FromBE(a + b) == FromBE(a) * Pow(256, |b|) + FromBE(b)
  {
    if b == [] {
      assert a + b == a;
    } else {
      var c := b[..|b| - 1];
      FromBEConcat(a, c);
      assert (a + b)[..|a + b| - 1] == a + c;
      assert Pow(256, |b|) == 256 * Pow(256, |c|);
    }
  }

  lemma FromBEInjective(a: seq<byte>, b: seq<byte>)
    requires |a| == |b| && FromBE(a) == FromBE(b)
    ensures a == b
  {
    FromThenTo(a);
    FromThenTo(b);
  }

  /** The widths the wire formats use. */
  lemma Widths()
    ensures Pow(256, 1) == 0x100 && Pow(256, 2) == 0x1_0000
    ensures Pow(256, 4) == 0x1_0000_0000 && Pow(256, 8) == 0x1_0000_0000_0000_0000
  {
    assert Pow(256, 2) == 0x1_0000;
    assert Pow(256, 4) == 256 * (256 * Pow(256, 2));
    PowAdd(256, 4, 4);
  }

  // ---------- exclusive or ----------

  /** Bitwise exclusive or, one binary digit at a time. */
  function Xor(a: nat, b: nat): (r: nat)
  {
    if a == 0 && b == 0 then 0 else (a % 2 + b % 2) % 2 + 2 * Xor(a / 2, b / 2)
  }

  lemma XorDigits(a: nat, b: nat)
    ensures Xor(a, b) % 2 == (a % 2 + b % 2) % 2
    ensures Xor(a, b) / 2 == Xor(a / 2, b / 2)
  {}

  lemma BitUndo(x: nat, y: nat)
    requires x < 2 && y < 2
    ensures ((x + y) % 2 + y) % 2 == x
  {}

  lemma {:induction false} XorUndo(a: nat, b: nat)
    ensures Xor(Xor(a, b), b) == a
  {
    if a != 0 || b != 0 {
      XorUndo(a / 2, b / 2);
      XorDigits(a, b);
      XorDigits(Xor(a, b), b);
      BitUndo(a % 2, b % 2);
    }
  }

  lemma {:induction false} XorBound(a: nat, b: nat, k: nat)
    requires a < Pow(2, k) && b < Pow(2, k)
    ensures Xor(a, b) < Pow(2, k)
  {
    if (a != 0 || b != 0) && k > 0 {
      assert Pow(2, k) == 2 * Pow(2, k - 1);
      XorBound(a / 2, b / 2, k - 1);
    }
  }

  lemma Pow2Values()
    ensures Pow(2, 8) == 0x100 && Pow(2, 16) == 0x1_0000
  {
    assert Pow(2, 4) == 16;
    PowAdd(2, 4, 4);
    PowAdd(2, 8, 8);
  }

  function XorByte(a: byte, b: byte): (r: byte)
    ensures Xor(r, b) == a
  {
    Pow2Values();
    XorBound(a, b, 8);
    XorUndo(a, b);
    Xor(a, b)
  }

  function XorBytes(a: seq<byte>, b: seq<byte>): (r: seq<byte>)
    requires |a| == |b|
    ensures |r| == |a|
    ensures forall i :: 0 <= i < |a| ==> r[i] == XorByte(a[i], b[i])
  {
    seq(|a|, i requires 0 <= i < |a| => XorByte(a[i], b[i]))
  }

  lemma XorBytesUndo(a: seq<byte>, b: seq<byte>)
    requires |a| == |b|
    ensures XorBytes(XorBytes(a, b), b) == a
  {
    var r := XorBytes(XorBytes(a, b), b);
    forall i | 0 <= i < |a| ensures r[i] == a[i] { XorUndo(a[i], b[i]); }
  }
}
