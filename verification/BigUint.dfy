/**
 * Unsigned big integers as byte strings: the minimal big-endian form of
 * num-bigint and the fixed-width form that `rectify` makes of it.
 */
module BigUint {
  import opened Bytes

  /** `BigUint::to_bytes_be`: no leading zero byte, except that zero is one zero byte. */
  function ToBytes(n: nat): (b: seq<byte>)
    ensures |b| > 0
  {
    if n < 256 then [n] else ToBytes(n / 256) + [n % 256]
  }

  lemma {:induction false} ToBytesValue(n: nat)
    ensures FromBE(ToBytes(n)) == n
  {
    if n < 256 {
      assert ToBytes(n)[..0] == [];
    } else {
      ToBytesValue(n / 256);
      var b := ToBytes(n);
      assert b[..|b| - 1] == ToBytes(n / 256);
    }
  }

  /** The number can be written in `len` bytes. */
  predicate Fits(n: nat, len: nat)
  {
    |ToBytes(n)| <= len
  }

  lemma {:induction false} FitsIffBelow(n: nat, len: nat)
    ensures Fits(n, len) <==> len > 0 && n < Pow(256, len)
    decreases n
  {
    if n < 256 {
      if len > 0 {
        PowMonotone(256, 1, len);
      }
    } else if len == 0 {
    } else {
      FitsIffBelow(n / 256, len - 1);
      if len == 1 { assert Pow(256, 1) == 256; }
    }
  }

  lemma {:induction false} FitsBelow(n: nat, m: nat, len: nat)
    requires n <= m && Fits(m, len)
    ensures Fits(n, len)
  {
    if n >= 256 { FitsBelow(n / 256, m / 256, len - 1); }
  }

  /** A number survives its fixed-width form exactly when it fits. */
  lemma FixedWidthRoundTrip(n: nat, len: nat)
    requires len > 0
    ensures Fits(n, len) <==> FromBE(ToBE(n, len)) == n
  {
    FitsIffBelow(n, len);
    ToThenFrom(n, len);
  }

  /** Reading a byte string and writing it minimally returns it when, and only
      when, it is not empty and has no needless leading zero. */
  lemma {:induction false} MinimalRoundTrip(b: seq<byte>)
    ensures ToBytes(FromBE(b)) == b <==> |b| == 1 || (|b| > 1 && b[0] != 0)
  {
    if |b| == 1 {
      assert FromBE(b[..0]) == 0;
    } else if |b| > 1 {
      var c, n := b[..|b| - 1], FromBE(b);
      MinimalRoundTrip(c);
      assert b == c + [b[|b| - 1]];
      assert n / 256 == FromBE(c) && n % 256 == b[|b| - 1];
      if n < 256 {
        assert FromBE(c) == 0;
        if |c| == 1 { assert FromBE(c[..0]) == 0; }
      } else {
        assert ToBytes(n) == ToBytes(FromBE(c)) + [b[|b| - 1]];
        if |c| == 1 { assert FromBE(c[..0]) == 0; }
      }
    }
  }

  /** `rectify`: the number as exactly `len` bytes. None is the source's panic
      on a number that is too big. */
  method Rectify(bi: nat, len: nat) returns (r: Option<seq<byte>>)
    ensures r == if Fits(bi, len) then Some(ToBE(bi, len)) else None
  {
    var b := ToBytes(bi);
    ToBytesValue(bi);
    if |b| == len {
      FromThenTo(b);
      return Some(b);
    }
    if |b| > len {
      return None;
    }
    var ret: seq<byte> := seq(len, _ => 0);
    ret := ret[..len - |b|];
    ghost var zeros := ret;
    ret := ret + b;
    ZerosValue(zeros);
    FromBEConcat(zeros, b);
    FromThenTo(ret);
    r := Some(ret);
  }

  lemma {:induction false} ZerosValue(z: seq<byte>)
    requires forall i :: 0 <= i < |z| ==> z[i] == 0
    ensures FromBE(z) == 0
  {
    if z != [] { ZerosValue(z[..|z| - 1]); }
  }
}
