/** Powers modulo a product of two primes whose totient is known. */
module RsaGroup {
  import opened Modular
  import opened NumberTheory

  ghost predicate Factored(p: int, q: int, n: int, phi: int) {
    Prime(p) && Prime(q) && p != q && n == p * q && phi == (p - 1) * (q - 1)
  }

  ghost predicate RsaModulus(n: int, phi: int) {
    exists p, q :: Factored(p, q, n, phi)
  }

  lemma RsaFacts(n: int, phi: int)
    requires RsaModulus(n, phi)
    ensures n > 3 && phi > 0
  {
    var p, q :| Factored(p, q, n, phi);
    assert p >= 2 && q >= 2;
    assert (p - 1) * (q - 1) == p * q - p - q + 1;
    assert (p - 1) * (q - 1) >= 1 by { MultipleGrows(p - 1, q - 1); }
  }

  /** The totient is an exponent that gives 1 for every unit. */
  lemma TotientPower(t: int, n: int, phi: int)
    requires RsaModulus(n, phi) && n > 0 && phi > 0 && Unit(t, n)
    ensures Cong(Pow(t, phi), 1, n)
  {
    var p, q :| Factored(p, q, n, phi);
    Euler(t, p, q);
  }

  /** Exponents of a unit may be reduced modulo the totient. */
  lemma ReduceExponent(t: int, e: nat, f: nat, n: int, phi: int)
    requires RsaModulus(n, phi) && n > 0 && phi > 0 && Unit(t, n) && Cong(e, f, phi)
    ensures Cong(Pow(t, e), Pow(t, f), n)
  {
    TotientPower(t, n, phi);
    ExponentCong(t, e, f, phi, n);
  }

  /** The commitments t^z of a proof of parameters. */
  function Powers(t: int, n: int, z: seq<nat>): (a: seq<int>)
    requires n > 0
    ensures |a| == |z|
  {
    seq(|z|, i requires 0 <= i < |z| => ModExp(t, z[i], n))
  }

  /** One more power of s = t^lambda in a product, and one more term in the exponent of t. */
  lemma PowerStep(t: int, sum: nat, lambda: nat, x: nat, product: int, s: int, n: int)
    requires n > 0 && Cong(Pow(t, sum), product, n) && s == ModExp(t, lambda, n)
    ensures Cong(Pow(t, sum + lambda * x), product * Pow(s, x), n)
  {
    CongMod(Pow(t, lambda), n);
    CongPow(Pow(t, lambda), s, x, n);
    PowPow(t, lambda, x);
    PowAdd(t, sum, lambda * x);
    CongMul(Pow(t, sum), product, Pow(t, lambda * x), Pow(s, x), n);
  }

  lemma PowerOfSum(t: int, e: nat, m: nat, r: nat, n: int, phi: int)
    requires RsaModulus(n, phi) && n > 0 && phi > 0 && Unit(t, n) && Cong(e, m + r, phi)
    ensures Cong(Pow(t, e), Pow(t, m) * Pow(t, r), n)
  {
    ReduceExponent(t, e, m + r, n, phi);
    PowAdd(t, m, r);
  }

  /** With s = t^lambda, one power of t stands for s^x * t^r. */
  lemma TrapdoorPower(t: int, s: int, lambda: nat, x: nat, r: nat, e: nat, n: int, phi: int)
    requires RsaModulus(n, phi) && n > 0 && phi > 0 && Unit(t, n)
    requires Cong(s, Pow(t, lambda), n) && Cong(e, lambda * x + r, phi)
    ensures Cong(Pow(t, e), Pow(s, x) * Pow(t, r), n)
  {
    PowPow(t, lambda, x);
    var m: nat := lambda * x;
    PowerOfSum(t, e, m, r, n, phi);
    CongPow(s, Pow(t, lambda), x, n);
    var u, v := Pow(s, x), Pow(t, m);
    CongMul(u, v, Pow(t, r), Pow(t, r), n);
  }
}
