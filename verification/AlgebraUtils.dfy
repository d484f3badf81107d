/**
 algebra_utils.c: the Euclidean coprimality test and exponentiation with the Chinese
 remainder theorem.
 */
module AlgebraUtils {
  import opened Modular
  import opened NumberTheory

  lemma GcdSymmetric(a: nat, b: nat)
    ensures Gcd(a, b) == Gcd(b, a)
  {
    if a < b { ModSmall(a, b); } else if b < a { ModSmall(b, a); }
  }

  lemma GcdOneIsCoprime(a: nat, b: nat)
    ensures Gcd(a, b) == 1 <==> Coprime(a, b)
  {
    if b > 0 {
      CoprimeIsUnit(a, b);
    } else if a == 1 {
      forall d | d >= 2 ensures !Divides(d, a) { ModSmall(1, d); }
    } else if a == 0 {
      assert Divides(2, 0);
    } else {
      ModUnique(a, 1, 0, a);
      ModUnique(0, 0, 0, a);
      assert Divides(a, a) && Divides(a, 0);
    }
  }

  /** is_coprime_fast: the Euclidean loop answers exactly whether the numbers are coprime. */
  method IsCoprimeFast(inA: nat, inB: nat) returns (coprime: bool)
    ensures coprime <==> Coprime(inA, inB)
  {
    var a, b := inA, inB;
    if a < b {
      a, b := b, a;
    }
    GcdSymmetric(inA, inB);
    while b != 0
      invariant a >= 0 && b >= 0 && Gcd(a, b) == Gcd(inA, inB)
      decreases b
    {
      a, b := b, a % b;
    }
    GcdOneIsCoprime(inA, inB);
    return a == 1;
  }

  /** What the debug assertions of the recombination ask of the moduli. */
  ghost predicate CrtParameters(p: int, q: int, qInvP: int, pq: int) {
    p > 1 && q > 1 && pq == p * q && 0 <= qInvP < p && InverseOf(q, qInvP, p)
  }

  lemma CrtCoprime(p: int, q: int, qInvP: int, pq: int)
    requires CrtParameters(p, q, qInvP, pq)
    ensures Unit(p, q)
  {
    var k := CongWitness(q * qInvP, 1, p);
    CongBy(p * (-k), 1, -qInvP, q);
    assert InverseOf(p, -k, q);
  }

  lemma ProductAbove(p: int, q: int)
    requires p > 1 && q > 1
    ensures p < p * q && q < p * q
  {
    assert p * q == p + p * (q - 1);
    assert p * q == q + (p - 1) * q;
  }

  /** The difference of the remainders times an inverse of q, times q. */
  function CrtTerm(modP: int, modQ: int, q: int, qInvP: int, pq: int): (r: int)
    requires 0 <= modP < pq && 0 <= modQ < pq
    ensures 0 <= r < pq
  {
    MulMod(MulMod(ModSubQuick(modP, modQ, pq), qInvP, pq), q, pq)
  }

  lemma CrtTermCong(modP: int, modQ: int, q: int, qInvP: int, pq: int)
    requires 0 <= modP < pq && 0 <= modQ < pq
    ensures Cong(CrtTerm(modP, modQ, q, qInvP, pq), (modP - modQ) * qInvP * q, pq)
  {
    var d := modP - modQ;
    var sub := ModSubQuick(modP, modQ, pq);
    CongMod(d, pq);
    CongMulMod(sub, d, qInvP, qInvP, pq);
    CongMulMod(MulMod(sub, qInvP, pq), d * qInvP, q, q, pq);
  }

  lemma CrtValueModP(d: int, modQ: int, term: int, sum: int, p: int, q: int, qInvP: int)
    requires p > 1 && q > 1 && InverseOf(q, qInvP, p)
    requires Cong(term, d * qInvP * q, p * q) && Cong(sum, term + modQ, p * q)
    ensures Cong(sum, d + modQ, p)
  {
    CongDivisor(sum, term + modQ, p, q);
    CongDivisor(term, d * qInvP * q, p, q);
    assert d * qInvP * q == d * (q * qInvP);
    CongMul(d, d, q * qInvP, 1, p);
    CongAdd(term, d, modQ, modQ, p);
  }

  lemma CrtValueModQ(d: int, modQ: int, term: int, sum: int, p: int, q: int, qInvP: int)
    requires p > 1 && q > 1
    requires Cong(term, d * qInvP * q, p * q) && Cong(sum, term + modQ, p * q)
    ensures Cong(sum, modQ, q)
  {
    assert p * q == q * p;
    CongDivisor(sum, term + modQ, q, p);
    CongDivisor(term, d * qInvP * q, q, p);
    CongZero(d * qInvP, q);
    CongAdd(term, 0, modQ, modQ, q);
  }

  /** crt_recombine: the result has both given remainders and is below p*q. */
  method CrtRecombine(modP: int, p: int, modQ: int, q: int, qInvP: int, pq: int) returns (out: int)
    requires CrtParameters(p, q, qInvP, pq) && 0 <= modP < p && 0 <= modQ < q
    ensures 0 <= out < pq
    ensures Cong(out, modP, p) && Cong(out, modQ, q)
  {
    ProductAbove(p, q);
    out := ModSubQuick(modP, modQ, pq);
    out := MulMod(out, qInvP, pq);
    out := MulMod(out, q, pq);
    ghost var term := out;
    out := ModAddQuick(out, modQ, pq);
    CrtTermCong(modP, modQ, q, qInvP, pq);
    CongMod(term + modQ, pq);
    CrtValueModP(modP - modQ, modQ, term, out, p, q, qInvP);
    CrtValueModQ(modP - modQ, modQ, term, out, p, q, qInvP);
  }

  /** crt_mod_exp: two half-size exponentiations give the full-size power. */
  method CrtModExp(base: int, expo: nat, p: int, q: int, qInvP: int, pq: int) returns (out: int)
    requires CrtParameters(p, q, qInvP, pq)
    ensures out == ModExp(base, expo, pq)
  {
    var modP := ModExp(base, expo, p);
    var modQ := ModExp(base, expo, q);
    out := CrtRecombine(modP, p, modQ, q, qInvP, pq);
    CongMod(Pow(base, expo), p);
    CongMod(Pow(base, expo), q);
    CrtUnique(out, Pow(base, expo), modP, p, modQ, q, qInvP, pq);
  }

  /** A number is determined below p*q by its remainders modulo p and q. */
  lemma CrtUnique(out: int, x: int, modP: int, p: int, modQ: int, q: int, qInvP: int, pq: int)
    requires CrtParameters(p, q, qInvP, pq) && 0 <= out < pq
    requires Cong(out, modP, p) && Cong(out, modQ, q) && Cong(x, modP, p) && Cong(x, modQ, q)
    ensures out == x % pq
  {
    CrtCoprime(p, q, qInvP, pq);
    ChineseRemainder(out, x, p, q);
    ModUnique(out, 0, out, pq);
  }
}
