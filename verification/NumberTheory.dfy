/**
 Divisibility, inverses, Fermat's and Euler's theorems and the Chinese remainder
 theorem, proved from the definitions.
 */
module NumberTheory {
  import opened Modular
  import opened Wrappers

  ghost predicate Divides(d: int, a: int)
    requires d > 0
  {
    a % d == 0
  }

  ghost predicate Prime(p: int) {
    p >= 2 && forall d | 2 <= d < p :: !Divides(d, p)
  }

  /** a and b have no common divisor besides 1. */
  ghost predicate Coprime(a: int, b: int) {
    forall d | d >= 2 :: !(Divides(d, a) && Divides(d, b))
  }

  ghost predicate InverseOf(a: int, x: int, n: int)
    requires n > 0
  {
    Cong(a * x, 1, n)
  }

  /** a has an inverse modulo n. */
  ghost predicate Unit(a: int, n: int)
    requires n > 0
  {
    exists x :: InverseOf(a, x, n)
  }

  // ----- Units -----

  lemma UnitProduct(a: int, b: int, n: int)
    requires n > 0 && Unit(a, n) && Unit(b, n)
    ensures Unit(a * b, n)
  {
    var x :| InverseOf(a, x, n);
    var y :| InverseOf(b, y, n);
    CongMul(a * x, 1, b * y, 1, n);
    assert (a * x) * (b * y) == (a * b) * (x * y);
    assert InverseOf(a * b, x * y, n);
  }

  lemma UnitFactor(a: int, b: int, n: int)
    requires n > 0 && Unit(a * b, n)
    ensures Unit(a, n) && Unit(b, n)
  {
    var x :| InverseOf(a * b, x, n);
    assert (a * b) * x == a * (b * x) == b * (a * x);
    assert InverseOf(a, b * x, n);
    assert InverseOf(b, a * x, n);
  }

  lemma UnitCong(a: int, b: int, n: int)
    requires n > 0 && Unit(a, n) && Cong(a, b, n)
    ensures Unit(b, n)
  {
    var x :| InverseOf(a, x, n);
    CongMul(b, a, x, x, n);
    assert InverseOf(b, x, n);
  }

  lemma UnitOne(n: int)
    requires n > 0
    ensures Unit(1, n)
  {
    assert InverseOf(1, 1, n);
  }

  lemma UnitPow(a: int, e: nat, n: int)
    requires n > 0 && Unit(a, n)
    ensures Unit(Pow(a, e), n)
  {
    if e == 0 {
      UnitOne(n);
    } else {
      UnitPow(a, e - 1, n);
      UnitProduct(a, Pow(a, e - 1), n);
    }
  }

  lemma UnitPowFactor(a: int, e: nat, n: int)
    requires n > 0 && e > 0 && Unit(Pow(a, e), n)
    ensures Unit(a, n)
  {
    UnitFactor(a, Pow(a, e - 1), n);
  }

  lemma UnitCancel(c: int, a: int, b: int, n: int)
    requires n > 0 && Unit(c, n) && Cong(c * a, c * b, n)
    ensures Cong(a, b, n)
  {
    var x :| InverseOf(c, x, n);
    CongMul(x, x, c * a, c * b, n);
    CongMul(c * x, 1, a, a, n);
    CongMul(c * x, 1, b, b, n);
    assert x * (c * a) == (c * x) * a;
    assert x * (c * b) == (c * x) * b;
  }

  /** A unit modulo a product is a unit modulo each factor. */
  lemma UnitDivisor(a: int, n: int, m: int)
    requires n > 0 && m > 0 && Unit(a, n * m)
    ensures Unit(a, n)
  {
    var x :| InverseOf(a, x, n * m);
    CongDivisor(a * x, 1, n, m);
    assert InverseOf(a, x, n);
  }

  /** A unit modulo n is a unit modulo n squared. */
  lemma UnitSquare(a: int, n: int)
    requires n > 0 && Unit(a, n)
    ensures Unit(a, n * n)
  {
    // From a*x = 1 + k*n follows a*x*(1 - k*n) = 1 - k*k*n*n.
    var x :| InverseOf(a, x, n);
    var k := CongWitness(a * x, 1, n);
    var y := x * (1 - k * n);
    assert a * y == (a * x) * (1 - k * n);
    assert (1 + k * n) * (1 - k * n) == 1 + (-(k * k)) * (n * n);
    CongBy(a * y, 1, -(k * k), n * n);
    assert InverseOf(a, y, n * n);
  }

  // ----- Greatest common divisors -----

  /** The number the Euclidean algorithm ends with. */
  function Gcd(a: nat, b: nat): nat
    decreases b
  {
    if b == 0 then a else Gcd(b, a % b)
  }

  lemma Bezout(a: nat, b: nat) returns (x: int, y: int)
    ensures a * x + b * y == Gcd(a, b)
    decreases b
  {
    if b == 0 {
      x, y := 1, 0;
    } else {
      var u, v := Bezout(b, a % b);
      x, y := v, u - (a / b) * v;
      assert a == (a / b) * b + a % b;
      assert b * u + (a % b) * v == a * v + b * (u - (a / b) * v) by {
        assert (a % b) * v == a * v - ((a / b) * b) * v;
        assert ((a / b) * b) * v == b * ((a / b) * v);
      }
    }
  }

  lemma DividesCombination(d: int, a: int, b: int, x: int, y: int)
    requires d > 0 && Divides(d, a) && Divides(d, b)
    ensures Divides(d, a * x + b * y)
  {
    CongMul(a, 0, x, x, d);
    CongMul(b, 0, y, y, d);
    CongAdd(a * x, 0, b * y, 0, d);
  }

  lemma GcdDivides(a: nat, b: nat)
    requires a + b > 0
    ensures Gcd(a, b) > 0 && Divides(Gcd(a, b), a) && Divides(Gcd(a, b), b)
    decreases b
  {
    if b == 0 {
      ModUnique(a, 1, 0, a);
    } else {
      GcdDivides(b, a % b);
      var g := Gcd(b, a % b);
      DividesCombination(g, b, a % b, a / b, 1);
      assert a == b * (a / b) + (a % b) * 1;
    }
  }

  lemma DividesOne(d: int)
    requires d > 0 && Divides(d, 1)
    ensures d == 1
  {
    ModSmall(1, d);
  }

  /** Being coprime, having greatest common divisor 1 and being invertible are the same. */
  lemma CoprimeIsUnit(a: nat, n: nat)
    requires n > 0
    ensures Gcd(a, n) == 1 <==> Coprime(a, n)
    ensures Coprime(a, n) <==> Unit(a, n)
  {
    GcdDivides(a, n);
    var g := Gcd(a, n);
    var x, y := Bezout(a, n);
    if g == 1 {
      CongBy(a * x, 1, -y, n);
      assert InverseOf(a, x, n);
    } else {
      assert !Coprime(a, n);
    }
    if Unit(a, n) {
      var u :| InverseOf(a, u, n);
      var k := CongWitness(a * u, 1, n);
      forall d | d >= 2 && Divides(d, a) && Divides(d, n) ensures false {
        DividesCombination(d, a, n, u, -k);
        assert a * u + n * (-k) == 1;
        DividesOne(d);
      }
    }
  }

  lemma PrimeUnit(a: int, p: int)
    requires Prime(p) && a % p != 0
    ensures Unit(a, p)
  {
    var r := a % p;
    GcdDivides(r, p);
    var g := Gcd(r, p);
    assert g <= p by { if g > p { ModSmall(p, g); } }
    assert g != p by { if g == p { ModSmall(r, p); } }
    assert g == 1;
    CoprimeIsUnit(r, p);
    CongMod(a, p);
    UnitCong(r, a, p);
  }

  lemma UnitNotZero(a: int, p: int)
    requires p >= 2 && Unit(a, p)
    ensures a % p != 0
  {
    var x :| InverseOf(a, x, p);
    if a % p == 0 {
      CongMul(a, 0, x, x, p);
      ModSmall(1, p);
    }
  }

  lemma DistinctPrimes(p: int, q: int)
    requires Prime(p) && Prime(q) && p != q
    ensures Unit(p, q)
  {
    if p < q { ModSmall(p, q); } else { assert !Divides(q, p); }
    PrimeUnit(p, q);
  }

  /** BN_mod_inverse: the least non-negative inverse, if there is one. */
  function ModInverse(a: int, n: int): (r: Option<int>)
    requires n > 0
    ensures r.Some? ==> 0 <= r.value < n && InverseOf(a, r.value, n)
    ensures r.Some? <==> Unit(a, n)
  {
    ModInverseExists(a, n);
    SearchInverse(a, n, 0)
  }

  function SearchInverse(a: int, n: int, from: nat): (r: Option<int>)
    requires n > 0 && from <= n
    ensures r.Some? ==> from <= r.value < n && InverseOf(a, r.value, n)
    ensures r.None? ==> forall x | from <= x < n :: !InverseOf(a, x, n)
    decreases n - from
  {
    if from == n then None
    else if (a * from) % n == 1 % n then Some(from)
    else SearchInverse(a, n, from + 1)
  }

  lemma ModInverseExists(a: int, n: int)
    requires n > 0
    ensures Unit(a, n) ==> exists x | 0 <= x < n :: InverseOf(a, x, n)
  {
    if Unit(a, n) {
      var x :| InverseOf(a, x, n);
      CongMod(x, n);
      CongMul(a, a, x % n, x, n);
      assert InverseOf(a, x % n, n);
    }
  }

  // ----- Fermat's little theorem -----

  function Binomial(n: nat, k: nat): nat {
    if k == 0 then 1 else if n == 0 then 0 else Binomial(n - 1, k - 1) + Binomial(n - 1, k)
  }

  lemma BinomialBeyond(n: nat, k: nat)
    requires k > n
    ensures Binomial(n, k) == 0
  {
    if n > 0 { BinomialBeyond(n - 1, k - 1); BinomialBeyond(n - 1, k); }
  }

  lemma BinomialFull(n: nat)
    ensures Binomial(n, n) == 1
  {
    if n > 0 { BinomialFull(n - 1); BinomialBeyond(n - 1, n); }
  }

  lemma {:induction false} BinomialAbsorption(n: nat, k: nat)
    requires n > 0 && k > 0
    ensures k * Binomial(n, k) == n * Binomial(n - 1, k - 1)
  {
    if n == 1 {
      if k > 1 { BinomialBeyond(0, k - 1); BinomialBeyond(0, k); }
    } else if k == 1 {
      BinomialAbsorption(n - 1, 1);
    } else {
      BinomialAbsorption(n - 1, k - 1);
      BinomialAbsorption(n - 1, k);
      AbsorptionStep(n, k, Binomial(n - 1, k - 1), Binomial(n - 1, k), Binomial(n - 2, k - 2), Binomial(n - 2, k - 1));
    }
  }

  lemma AbsorptionStep(n: int, k: int, u: int, v: int, s: int, t: int)
    requires u == s + t && (k - 1) * u == (n - 1) * s && k * v == (n - 1) * t
    ensures k * (u + v) == n * u
  {
    assert (n - 1) * s + (n - 1) * t == (n - 1) * (s + t);
    assert k * (u + v) == (k - 1) * u + u + k * v;
  }

  lemma EuclidLemma(p: int, a: int, b: int)
    requires Prime(p) && Divides(p, a * b)
    ensures Divides(p, a) || Divides(p, b)
  {
    if !Divides(p, a) {
      PrimeUnit(a, p);
      UnitCancel(a, b, 0, p);
    }
  }

  lemma DividesFactor(p: int, k: int, b: int, c: int)
    requires Prime(p) && k * b == p * c
    ensures Divides(p, k) || Divides(p, b)
  {
    CongZero(c, p);
    assert k * b == c * p;
    EuclidLemma(p, k, b);
  }

  lemma PrimeDividesBinomial(p: int, k: nat)
    requires Prime(p) && 0 < k < p
    ensures Divides(p, Binomial(p, k))
  {
    BinomialAbsorption(p, k);
    var b, c := Binomial(p, k), Binomial(p - 1, k - 1);
    DividesFactor(p, k, b, c);
    ModSmall(k, p);
  }

  /** The first m terms of the expansion of (a + 1) to the n. */
  function BinomialSum(n: nat, m: nat, a: int): int {
    if m == 0 then 0 else BinomialSum(n, m - 1, a) + Binomial(n, m - 1) * Pow(a, m - 1)
  }

  lemma {:induction false} BinomialSumStep(n: nat, m: nat, a: int)
    ensures BinomialSum(n + 1, m + 1, a) == BinomialSum(n, m + 1, a) + a * BinomialSum(n, m, a)
  {
    if m == 0 {
      assert BinomialSum(n + 1, 0, a) == BinomialSum(n, 0, a) == 0;
    } else {
      BinomialSumStep(n, m - 1, a);
      var x, y, z := BinomialSum(n + 1, m, a), BinomialSum(n, m, a), BinomialSum(n, m - 1, a);
      SumStep(a, x, y, z, Binomial(n, m - 1), Binomial(n, m), Pow(a, m - 1));
    }
  }

  lemma SumStep(a: int, x: int, y: int, z: int, u: int, v: int, w: int)
    requires x == y + a * z
    ensures x + (u + v) * (a * w) == y + v * (a * w) + a * (z + u * w)
  {
    assert (u + v) * (a * w) == u * (a * w) + v * (a * w);
    assert u * (a * w) == a * (u * w);
    assert a * (z + u * w) == a * z + a * (u * w);
  }

  lemma BinomialTheorem(a: int, n: nat)
    ensures BinomialSum(n, n + 1, a) == Pow(a + 1, n)
  {
    if n > 0 {
      BinomialTheorem(a, n - 1);
      BinomialSumStep(n - 1, n, a);
      BinomialBeyond(n - 1, n);
      var s := BinomialSum(n - 1, n, a);
      assert BinomialSum(n - 1, n + 1, a) == s + Binomial(n - 1, n) * Pow(a, n);
      assert s + a * s == (a + 1) * s;
    }
  }

  lemma PrimeBinomialSum(p: int, m: nat, a: int)
    requires Prime(p) && 1 <= m <= p
    ensures Cong(BinomialSum(p, m, a), 1, p)
  {
    if m == 1 {
      assert BinomialSum(p, 0, a) == 0;
    } else {
      PrimeBinomialSum(p, m - 1, a);
      PrimeDividesBinomial(p, m - 1);
      CongMul(Binomial(p, m - 1), 0, Pow(a, m - 1), Pow(a, m - 1), p);
      CongAdd(BinomialSum(p, m - 1, a), 1, Binomial(p, m - 1) * Pow(a, m - 1), 0, p);
    }
  }

  lemma FermatNat(a: nat, p: int)
    requires Prime(p)
    ensures Cong(Pow(a, p), a, p)
  {
    if a == 0 {
      assert Pow(0, p) == 0;
    } else {
      FermatNat(a - 1, p);
      BinomialTheorem(a - 1, p);
      PrimeBinomialSum(p, p, a - 1);
      BinomialFull(p);
      CongAdd(BinomialSum(p, p, a - 1), 1, Pow(a - 1, p), a - 1, p);
    }
  }

  /** Fermat: a unit raised to p - 1 is 1 modulo the prime p. */
  lemma Fermat(a: int, p: int)
    requires Prime(p) && Unit(a, p)
    ensures Cong(Pow(a, p - 1), 1, p)
  {
    var r := a % p;
    CongMod(a, p);
    CongPow(r, a, p, p);
    FermatNat(r, p);
    UnitCancel(a, Pow(a, p - 1), 1, p);
  }

  // ----- Two coprime moduli -----

  /** Congruence modulo p and modulo q gives congruence modulo p*q. */
  lemma ChineseRemainder(a: int, b: int, p: int, q: int)
    requires p > 0 && q > 0 && Unit(p, q)
    requires Cong(a, b, p) && Cong(a, b, q)
    ensures Cong(a, b, p * q)
  {
    var k := CongWitness(a, b, p);
    // a - b = k*p, and p is invertible modulo q, so q divides k.
    CongSub(a, b, b, b, q);
    UnitCancel(p, k, 0, q) by { assert p * k == a - b; assert p * 0 == 0; }
    var l := CongWitness(k, 0, q);
    assert k * p == l * (p * q);
    CongBy(a, b, l, p * q);
  }

  /** Euler's theorem for a product of two distinct primes. */
  lemma {:induction false} Euler(t: int, p: int, q: int)
    requires Prime(p) && Prime(q) && p != q && Unit(t, p * q)
    ensures Cong(Pow(t, (p - 1) * (q - 1)), 1, p * q)
  {
    UnitBoth(t, p, q);
    EulerOneSide(t, p, q - 1);
    EulerOneSide(t, q, p - 1);
    Commute(p - 1, q - 1);
    DistinctPrimes(p, q);
    ChineseRemainder(Pow(t, (p - 1) * (q - 1)), 1, p, q);
  }

  lemma Commute(a: int, b: int)
    ensures a * b == b * a
  {
  }

  lemma {:induction false} UnitBoth(t: int, p: int, q: int)
    requires p > 0 && q > 0 && Unit(t, p * q)
    ensures Unit(t, p) && Unit(t, q)
  {
    UnitDivisor(t, p, q);
    Commute(p, q);
    UnitDivisor(t, q, p);
  }

  lemma EulerOneSide(t: int, p: int, m: nat)
    requires Prime(p) && Unit(t, p)
    ensures (p - 1) * m >= 0 && Cong(Pow(t, (p - 1) * m), 1, p)
  {
    Fermat(t, p);
    PowPow(t, p - 1, m);
    CongPow(Pow(t, p - 1), 1, m, p);
    PowOne(m);
  }

  /** Exponents may be reduced modulo any exponent that gives 1. */
  lemma ExponentCong(t: int, e: nat, f: nat, phi: int, n: int)
    requires n > 0 && phi > 0 && Cong(Pow(t, phi), 1, n) && Cong(e, f, phi)
    ensures Cong(Pow(t, e), Pow(t, f), n)
    decreases f > e
  {
    if e < f {
      ExponentCong(t, f, e, phi, n);
    } else {
      var k := CongWitness(e, f, phi);
      assert k >= 0 by { if k <= -1 { MultipleGrows(k, phi); } }
      PowAdd(t, f, k * phi);
      assert k * phi == phi * k;
      PowPow(t, phi, k);
      CongPow(Pow(t, phi), 1, k, n);
      PowOne(k);
      CongMul(Pow(t, f), Pow(t, f), Pow(t, k * phi), 1, n);
    }
  }
}
