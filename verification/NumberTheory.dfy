/**
 * Modular arithmetic up to Fermat's little theorem, for the DSA, ElGamal and
 * Diffie-Hellman code.
 */
module NumberTheory {
  import opened Bytes

  /** The remainder, named so that proofs can treat it as a black box. */
  function Rem(a: int, m: nat): (r: nat)
    requires m > 0
    ensures r < m
  {
    a % m
  }

  ghost predicate Divides(d: nat, n: nat)
    requires d > 0
  {
    Rem(n, d) == 0
  }

  ghost predicate Prime(p: nat)
  {
    p >= 2 && forall d :: 2 <= d < p ==> !Divides(d, p)
  }

  ghost predicate Cong(a: int, b: int, m: nat)
    requires m > 0
  {
    Rem(a, m) == Rem(b, m)
  }

  /** `BigUint::modpow`. */
  function ModPow(b: nat, e: nat, m: nat): (r: nat)
    requires m > 0
    ensures r < m
  {
    Rem(Pow(b, e), m)
  }

  // ---------- congruences ----------

  lemma ModShift(a: int, k: int, m: nat)
    requires m > 0
    ensures (a + k * m) % m == a % m
  {
    var b := a + k * m;
    var d := b / m - a / m - k;
    assert m * (b / m) == m * d + m * (a / m) + m * k;
    assert m * d == a % m - b % m;
    if d >= 1 { MulGrows(m, d); }
    if d <= -1 { MulGrows(m, -d); }
  }

  /** Congruence is differing by a multiple. */
  lemma CongByMultiple(a: int, b: int, k: int, m: nat)
    requires m > 0 && a == b + k * m
    ensures Cong(a, b, m)
  {
    ModShift(b, k, m);
  }

  lemma CongMultiple(a: int, b: int, m: nat) returns (k: int)
    requires m > 0 && Cong(a, b, m)
    ensures a == b + k * m
  {
    k := a / m - b / m;
    assert k * m == m * (a / m) - m * (b / m);
  }

  lemma CongMod(a: int, m: nat)
    requires m > 0
    ensures Cong(Rem(a, m), a, m)
  {
    CongByMultiple(a % m, a, -(a / m), m);
  }

  lemma CongAdd(a: int, b: int, c: int, d: int, m: nat)
    requires m > 0 && Cong(a, b, m) && Cong(c, d, m)
    ensures Cong(a + c, b + d, m)
  {
    var k := CongMultiple(a, b, m);
    var l := CongMultiple(c, d, m);
    assert (k + l) * m == k * m + l * m;
    CongByMultiple(a + c, b + d, k + l, m);
  }

  lemma CongScale(a: int, b: int, c: int, m: nat)
    requires m > 0 && Cong(a, b, m)
    ensures Cong(a * c, b * c, m)
  {
    hide Rem;
    var k := CongMultiple(a, b, m);
    assert (b + k * m) * c == b * c + (k * c) * m;
    CongByMultiple(a * c, b * c, k * c, m);
  }

  lemma CongMul(a: int, b: int, c: int, d: int, m: nat)
    requires m > 0 && Cong(a, b, m) && Cong(c, d, m)
    ensures Cong(a * c, b * d, m)
  {
    hide Rem;
    CongScale(a, b, c, m);
    CongScale(c, d, b, m);
  }

  lemma {:induction false} CongPow(a: nat, b: nat, e: nat, m: nat)
    requires m > 0 && Cong(a, b, m)
    ensures Cong(Pow(a, e), Pow(b, e), m)
  {
    hide Rem;
    if e > 0 {
      CongPow(a, b, e - 1, m);
      CongMul(a, b, Pow(a, e - 1), Pow(b, e - 1), m);
    }
  }

  lemma SmallIsUnit(x: nat, m: nat)
    requires 0 < x < m
    ensures Rem(x, m) == x && !Divides(m, x)
  {}

  lemma RemOfRem(x: int, m: nat)
    requires m > 0
    ensures Rem(Rem(x, m), m) == Rem(x, m)
  {}

  lemma CongZeroIffDivides(a: nat, m: nat)
    requires m > 0
    ensures Cong(a, 0, m) <==> Divides(m, a)
  {}

  // ---------- powers ----------

  lemma {:induction false} PowOfOne(e: nat)
    ensures Pow(1, e) == 1
  {
    if e > 0 { PowOfOne(e - 1); }
  }

  lemma MulSwap(a: nat, b: nat, c: nat, d: nat)
    ensures (a * b) * (c * d) == (a * c) * (b * d)
  {}

  lemma MulRotate(a: nat, b: nat, c: nat)
    ensures a * (b * c) == b * (a * c)
  {}

  lemma {:induction false} PowOfProduct(a: nat, b: nat, e: nat)
    ensures Pow(a * b, e) == Pow(a, e) * Pow(b, e)
  {
    if e > 0 {
      PowOfProduct(a, b, e - 1);
      MulSwap(a, b, Pow(a, e - 1), Pow(b, e - 1));
    }
  }

  lemma {:induction false} PowOfPow(b: nat, m: nat, n: nat)
    ensures Pow(Pow(b, m), n) == Pow(b, m * n)
  {
    if n > 0 {
      PowOfPow(b, m, n - 1);
      assert m * n == m + m * (n - 1);
      PowAdd(b, m, m * (n - 1));
    }
  }

  /** Exponents of an element with g^q = 1 count modulo q. */
  lemma PowExponentMod(g: nat, q: nat, p: nat, x: nat, y: nat)
    requires p > 0 && q > 0 && Cong(Pow(g, q), 1, p) && Cong(x, y, q)
    ensures Cong(Pow(g, x), Pow(g, y), p)
  {
    PowExponentReduce(g, q, p, x);
    PowExponentReduce(g, q, p, y);
  }

  lemma PowExponentReduce(g: nat, q: nat, p: nat, x: nat)
    requires p > 0 && q > 0 && Cong(Pow(g, q), 1, p)
    ensures Cong(Pow(g, x), Pow(g, Rem(x, q)), p)
  {
    var k, r := x / q, Rem(x, q);
    assert x == q * k + r;
    PowAdd(g, q * k, r);
    PowOfPow(g, q, k);
    CongPow(Pow(g, q), 1, k, p);
    PowOfOne(k);
    CongMul(Pow(g, q * k), 1, Pow(g, r), Pow(g, r), p);
  }

  // ---------- Euclid's lemma ----------

  lemma {:induction false} EuclidReduced(p: nat, r: nat, b: nat)
    requires Prime(p) && 0 < r < p && Divides(p, r * b)
    ensures Divides(p, b)
    decreases r
  {
    if r == 1 {
      assert r * b == b;
    } else {
      assert !Divides(r, p);
      var k, s := p / r, p % r;
      assert p == r * k + s;
      var l := CongMultiple(r * b, 0, p);
      assert s * b == p * b - k * (r * b) == p * b - k * (l * p) == (b - k * l) * p;
      CongByMultiple(s * b, 0, b - k * l, p);
      EuclidReduced(p, s, b);
    }
  }

  /** A prime that divides a product divides a factor. */
  lemma Euclid(p: nat, a: nat, b: nat)
    requires Prime(p) && Divides(p, a * b)
    ensures Divides(p, a) || Divides(p, b)
  {
    if !Divides(p, a) {
      CongMod(a, p);
      CongMul(Rem(a, p), a, b, b, p);
      EuclidReduced(p, Rem(a, p), b);
    }
  }

  // ---------- Fermat's little theorem ----------

  /** The product of the elements of s that lie in 1..n. */
  ghost function Product(s: set<nat>, n: nat): (r: nat)
  {
    if n == 0 then 1 else (if n in s then n else 1) * Product(s, n - 1)
  }

  ghost function Factorial(n: nat): (r: nat)
  {
    if n == 0 then 1 else n * Factorial(n - 1)
  }

  lemma {:induction false} ProductSame(s: set<nat>, t: set<nat>, n: nat)
    requires forall i :: 1 <= i <= n ==> (i in s <==> i in t)
    ensures Product(s, n) == Product(t, n)
  {
    if n > 0 { ProductSame(s, t, n - 1); }
  }

  lemma {:induction false} ProductInsert(s: set<nat>, x: nat, n: nat)
    requires x !in s && 1 <= x <= n
    ensures Product(s + {x}, n) == x * Product(s, n)
  {
    if n == x {
      ProductSame(s + {x}, s, n - 1);
    } else {
      ProductInsert(s, x, n - 1);
      var f, rest := (if n in s then n else 1), Product(s, n - 1);
      assert Product(s + {x}, n) == f * (x * rest);
      MulRotate(f, x, rest);
    }
  }

  /** The residues a, 2a, .., ka modulo p. */
  ghost function Multiples(a: nat, k: nat, p: nat): (s: set<nat>)
    requires p > 0
  {
    if k == 0 then {} else Multiples(a, k - 1, p) + {Rem(a * k, p)}
  }

  lemma MultiplesDistinct(p: nat, a: nat, i: nat, j: nat)
    requires Prime(p) && !Divides(p, a) && 1 <= i < j < p
    ensures Rem(a * i, p) != Rem(a * j, p)
  {
    hide Rem;
    if Rem(a * i, p) == Rem(a * j, p) {
      var k := CongMultiple(a * j, a * i, p);
      assert a * (j - i) == k * p;
      CongByMultiple(a * (j - i), 0, k, p);
      CongZeroIffDivides(a * (j - i), p);
      Euclid(p, a, j - i);
      SmallIsUnit(j - i, p);
    }
  }

  lemma {:induction false} MultiplesMember(a: nat, k: nat, p: nat, x: nat) returns (i: nat)
    requires p > 0 && x in Multiples(a, k, p)
    ensures 1 <= i <= k && Rem(a * i, p) == x
  {
    hide Rem;
    if x == Rem(a * k, p) { i := k; } else { i := MultiplesMember(a, k - 1, p, x); }
  }

  lemma MultiplesFresh(p: nat, a: nat, k: nat)
    requires Prime(p) && !Divides(p, a) && 1 <= k < p
    ensures Rem(a * k, p) !in Multiples(a, k - 1, p)
    ensures 1 <= Rem(a * k, p) < p
  {
    hide Rem, Multiples, Divides;
    if Rem(a * k, p) in Multiples(a, k - 1, p) {
      var i := MultiplesMember(a, k - 1, p, Rem(a * k, p));
      MultiplesDistinct(p, a, i, k);
    }
    ResidueNonzero(p, a, k);
  }

  lemma ResidueNonzero(p: nat, a: nat, k: nat)
    requires Prime(p) && !Divides(p, a) && 1 <= k < p
    ensures 1 <= Rem(a * k, p) < p
  {
    hide Rem;
    SmallIsUnit(k, p);
    if Divides(p, a * k) { Euclid(p, a, k); }
  }

  lemma {:induction false} MultiplesShape(p: nat, a: nat, k: nat)
    requires Prime(p) && !Divides(p, a) && k < p
    ensures |Multiples(a, k, p)| == k
    ensures forall x :: x in Multiples(a, k, p) ==> 1 <= x < p
  {
    hide Rem;
    if k > 0 {
      MultiplesShape(p, a, k - 1);
      MultiplesFresh(p, a, k);
    }
  }

  lemma {:induction false} MultiplesProduct(p: nat, a: nat, k: nat)
    requires Prime(p) && !Divides(p, a) && k < p
    ensures Cong(Product(Multiples(a, k, p), p - 1), Pow(a, k) * Factorial(k), p)
  {
    hide Rem;
    if k == 0 {
      ProductOfNone(p - 1);
    } else {
      MultiplesProduct(p, a, k - 1);
      MultiplesFresh(p, a, k);
      var before, x := Multiples(a, k - 1, p), Rem(a * k, p);
      ProductInsert(before, x, p - 1);
      CongMod(a * k, p);
      CongMul(x, a * k, Product(before, p - 1), Pow(a, k - 1) * Factorial(k - 1), p);
      MulSwap(a, k, Pow(a, k - 1), Factorial(k - 1));
    }
  }

  lemma {:induction false} ProductOfNone(n: nat)
    ensures Product({}, n) == 1
  {
    if n > 0 { ProductOfNone(n - 1); }
  }

  lemma {:induction false} ProductOfAll(s: set<nat>, n: nat)
    requires forall i :: 1 <= i <= n ==> i in s
    ensures Product(s, n) == Factorial(n)
  {
    if n > 0 { ProductOfAll(s, n - 1); }
  }

  lemma {:induction false} PrimeSparesFactorial(p: nat, k: nat)
    requires Prime(p) && k < p
    ensures !Divides(p, Factorial(k))
  {
    hide Rem;
    SmallIsUnit(1, p);
    if k > 0 {
      PrimeSparesFactorial(p, k - 1);
      SmallIsUnit(k, p);
      if Divides(p, Factorial(k)) { Euclid(p, k, Factorial(k - 1)); }
    }
  }

  /** A set of n numbers within 1..n holds all of them. */
  lemma {:induction false} FullSet(s: set<nat>, n: nat)
    requires (forall x :: x in s ==> 1 <= x <= n) && |s| >= n
    ensures forall i :: 1 <= i <= n ==> i in s
    ensures |s| == n
  {
    if n == 0 {
      if x :| x in s { assert false; }
    } else {
      FullSet(s - {n}, n - 1);
    }
  }

  /** Fermat's little theorem. */
  lemma Fermat(p: nat, a: nat)
    requires Prime(p) && !Divides(p, a)
    ensures Cong(Pow(a, p - 1), 1, p)
  {
    hide Rem;
    var f, x := Factorial(p - 1), Pow(a, p - 1);
    assert Cong(f, x * f, p) by {
      MultiplesProduct(p, a, p - 1);
      MultiplesShape(p, a, p - 1);
      FullSet(Multiples(a, p - 1, p), p - 1);
      ProductOfAll(Multiples(a, p - 1, p), p - 1);
    }
    PrimeSparesFactorial(p, p - 1);
    CancelFactor(p, x, f);
  }

  lemma CancelFactor(p: nat, x: nat, f: nat)
    requires Prime(p) && !Divides(p, f) && Cong(f, x * f, p)
    ensures Cong(x, 1, p)
  {
    hide Rem;
    if x == 0 {
      CongZeroIffDivides(f, p);
    } else {
      var k := CongMultiple(x * f, f, p);
      assert (x - 1) * f == k * p;
      CongByMultiple((x - 1) * f, 0, k, p);
      CongZeroIffDivides((x - 1) * f, p);
      Euclid(p, x - 1, f);
      CongZeroIffDivides(x - 1, p);
      var l := CongMultiple(x - 1, 0, p);
      CongByMultiple(x, 1, l, p);
    }
  }

  /** The Fermat exponent p - 2 inverts every unit modulo a prime. */
  lemma FermatInverse(p: nat, a: nat)
    requires Prime(p) && !Divides(p, a)
    ensures Cong(a * ModPow(a, p - 2, p), 1, p)
  {
    hide Rem;
    Fermat(p, a);
    CongMod(Pow(a, p - 2), p);
    CongMul(a, a, ModPow(a, p - 2, p), Pow(a, p - 2), p);
  }

  lemma {:induction false} PrimeSparesPower(p: nat, a: nat, e: nat)
    requires Prime(p) && !Divides(p, a)
    ensures !Divides(p, Pow(a, e))
  {
    hide Rem;
    SmallIsUnit(1, p);
    if e > 0 {
      PrimeSparesPower(p, a, e - 1);
      if Divides(p, Pow(a, e)) { Euclid(p, a, Pow(a, e - 1)); }
    }
  }
}
