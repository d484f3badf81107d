/** paillier.c: encryption modulo n^2 with generator n + 1, and its homomorphic operations. */
module Paillier {
  import opened Modular
  import opened NumberTheory
  import opened RsaGroup
  import opened AlgebraUtils
  import opened Wrappers

  datatype PrivateKey = PrivateKey(n: int, lambda: int, mu: int)

  /** What paillier_generate_private leaves behind: lambda is the totient, mu its inverse modulo n. */
  ghost predicate ValidKey(key: PrivateKey) {
    RsaModulus(key.n, key.lambda) && key.n > 1 && key.lambda > 0 && InverseOf(key.lambda, key.mu, key.n)
  }

  // ----- Powers modulo n^2 -----

  /** (1 + n*m)^e is 1 + n*m*e modulo n^2. */
  lemma {:induction false} OnePlusPower(n: int, m: int, e: nat)
    requires n > 0
    ensures Cong(Pow(1 + n * m, e), 1 + n * (m * e), n * n)
  {
    if e == 0 {
      assert n * (m * 0) == 0;
    } else {
      OnePlusPower(n, m, e - 1);
      CongMul(1 + n * m, 1 + n * m, Pow(1 + n * m, e - 1), 1 + n * (m * (e - 1)), n * n);
      OnePlusProduct(n, m, m * (e - 1));
      assert m + m * (e - 1) == m * e;
    }
  }

  /** The plaintexts of two factors add up. */
  lemma OnePlusProduct(n: int, a: int, b: int)
    requires n > 0
    ensures Cong((1 + n * a) * (1 + n * b), 1 + n * (a + b), n * n)
  {
    assert (n * a) * (n * b) == (a * b) * (n * n);
    assert (1 + n * a) * (1 + n * b) == 1 + n * a + n * b + (n * a) * (n * b);
    assert n * (a + b) == n * a + n * b;
    CongBy((1 + n * a) * (1 + n * b), 1 + n * (a + b), a * b, n * n);
  }

  /** A number that is 1 modulo n has n-th power 1 modulo n^2. */
  lemma NthPowerOfOne(x: int, n: int)
    requires n > 0 && Cong(x, 1, n)
    ensures Cong(Pow(x, n), 1, n * n)
  {
    var k := CongWitness(x, 1, n);
    assert x == 1 + n * k;
    OnePlusPower(n, k, n);
    assert n * (k * n) == k * (n * n);
    CongBy(1 + n * (k * n), 1, k, n * n);
  }

  /** n-th powers depend on the base only modulo n. */
  lemma NthPowerCong(a: int, b: int, n: int)
    requires n > 0 && Cong(a, b, n) && Unit(b, n)
    ensures Cong(Pow(a, n), Pow(b, n), n * n)
  {
    var x :| InverseOf(b, x, n);
    CongMul(a, b, x, x, n);
    NthPowerOfOne(a * x, n);
    NthPowerOfOne(b * x, n);
    PowProduct(a, x, n);
    PowProduct(b, x, n);
    assert Unit(x, n) by { assert b * x == x * b; assert InverseOf(x, b, n); }
    UnitSquare(x, n);
    UnitPow(x, n, n * n);
    assert Pow(a, n) * Pow(x, n) == Pow(x, n) * Pow(a, n);
    assert Pow(b, n) * Pow(x, n) == Pow(x, n) * Pow(b, n);
    UnitCancel(Pow(x, n), Pow(a, n), Pow(b, n), n * n);
  }

  // ----- Ciphertexts -----

  /** c is an encryption of m with the randomness r. */
  ghost predicate EncryptsWith(n: int, c: int, m: int, r: int)
    requires n > 0
  {
    Unit(r, n) && Cong(c, (1 + n * m) * Pow(r, n), n * n)
  }

  ghost predicate Encrypts(n: int, c: int, m: int)
    requires n > 0
  {
    exists r :: EncryptsWith(n, c, m, r)
  }

  /** paillier_encrypt_openssl_internal; None is PAILLIER_ERROR_INVALID_RANDOMNESS. */
  method Encrypt(n: int, r: nat, m: nat) returns (c: Option<int>)
    requires n > 0
    ensures c.Some? <==> Unit(r, n)
    ensures c.Some? ==> 0 <= c.value < n * n && c.value == EncryptValue(n, r, m) && EncryptsWith(n, c.value, m, r)
  {
    CoprimeIsUnit(r, n);
    var coprime := IsCoprimeFast(r, n);
    if !coprime { return None; }
    var tmp1 := n * m;
    tmp1 := tmp1 + 1;
    var tmp2 := ModExp(r, n, n * n);
    EncryptValueCong(n, r, m);
    return Some(MulMod(tmp1, tmp2, n * n));
  }

  function EncryptValue(n: int, r: int, m: int): (c: int)
    requires n > 0
    ensures 0 <= c < n * n
  {
    MulMod(n * m + 1, ModExp(r, n, n * n), n * n)
  }

  lemma EncryptValueCong(n: int, r: int, m: int)
    requires n > 0
    ensures Cong(EncryptValue(n, r, m), (1 + n * m) * Pow(r, n), n * n)
  {
    CongMod(Pow(r, n), n * n);
    CongMulMod(n * m + 1, 1 + n * m, ModExp(r, n, n * n), Pow(r, n), n * n);
  }

  /** Ciphertexts are invertible. */
  lemma CiphertextUnit(n: int, c: int, m: int)
    requires n > 0 && Encrypts(n, c, m)
    ensures Unit(c, n) && Unit(c, n * n)
  {
    var r :| EncryptsWith(n, c, m, r);
    CongDivisor(c, (1 + n * m) * Pow(r, n), n, n);
    assert n * m == m * n;
    CongBy(1 + n * m, 1, m, n);
    UnitOne(n);
    UnitCong(1, 1 + n * m, n);
    UnitPow(r, n, n);
    UnitProduct(1 + n * m, Pow(r, n), n);
    UnitCong((1 + n * m) * Pow(r, n), c, n);
    UnitSquare(c, n);
  }

  /** paillier_add: the product encrypts the sum. */
  lemma AddHomomorphic(n: int, c: int, d: int, a: int, b: int, r: int, s: int)
    requires n > 0 && EncryptsWith(n, c, a, r) && EncryptsWith(n, d, b, s)
    ensures EncryptsWith(n, MulMod(c, d, n * n), a + b, r * s)
  {
    UnitProduct(r, s, n);
    CongMulMod(c, (1 + n * a) * Pow(r, n), d, (1 + n * b) * Pow(s, n), n * n);
    PowProduct(r, s, n);
    FourFactors(1 + n * a, Pow(r, n), 1 + n * b, Pow(s, n));
    OnePlusProduct(n, a, b);
    CongMul((1 + n * a) * (1 + n * b), 1 + n * (a + b), Pow(r, n) * Pow(s, n), Pow(r * s, n), n * n);
  }

  /** paillier_mul: the power encrypts the multiple. */
  lemma MulHomomorphic(n: int, c: int, a: int, r: int, x: nat)
    requires n > 0 && EncryptsWith(n, c, a, r)
    ensures EncryptsWith(n, ModExp(c, x, n * n), a * x, Pow(r, x))
  {
    var u, v := 1 + n * a, Pow(r, n);
    UnitPow(r, x, n);
    CongMod(Pow(c, x), n * n);
    CongPow(c, u * v, x, n * n);
    PowProduct(u, v, x);
    OnePlusPower(n, a, x);
    PowPow(r, n, x);
    PowPow(r, x, n);
    assert n * x == x * n;
    CongMul(Pow(u, x), 1 + n * (a * x), Pow(v, x), Pow(Pow(r, x), n), n * n);
  }

  // ----- Decryption -----

  /** paillier_L */
  function L(x: int, n: int): int
    requires n > 0
  {
    (x - 1) / n
  }

  function DecryptValue(key: PrivateKey, c: int): int
    requires key.n > 0 && key.lambda >= 0
  {
    MulMod(L(ModExp(c, key.lambda, key.n * key.n), key.n), key.mu, key.n)
  }

  /** paillier_decrypt_openssl_internal; None is PAILLIER_ERROR_INVALID_CIPHER_TEXT. */
  method Decrypt(key: PrivateKey, c: nat) returns (m: Option<int>)
    requires ValidKey(key)
    ensures m.Some? <==> Unit(c, key.n)
    ensures m.Some? ==> m.value == DecryptValue(key, c)
    ensures forall plain: int :: Encrypts(key.n, c, plain) ==> m == Some(plain % key.n)
  {
    CoprimeIsUnit(c, key.n);
    var coprime := IsCoprimeFast(c, key.n);
    forall plain: int | Encrypts(key.n, c, plain)
      ensures coprime && DecryptValue(key, c) == plain % key.n
    {
      CiphertextUnit(key.n, c, plain);
      DecryptEncrypted(key, c, plain);
    }
    if !coprime { return None; }
    var tmp := ModExp(c, key.lambda, key.n * key.n);
    tmp := L(tmp, key.n);
    return Some(MulMod(tmp, key.mu, key.n));
  }

  /** The power to the totient removes the randomness and leaves the plaintext in the n-adic digit. */
  lemma TotientPowerOfCiphertext(key: PrivateKey, c: int, m: int)
    requires ValidKey(key) && Encrypts(key.n, c, m)
    ensures Cong(Pow(c, key.lambda), 1 + key.n * (m * key.lambda), key.n * key.n)
  {
    var n, phi := key.n, key.lambda;
    var r :| EncryptsWith(n, c, m, r);
    var u, v := 1 + n * m, Pow(r, n);
    CongPow(c, u * v, phi, n * n);
    PowProduct(u, v, phi);
    OnePlusPower(n, m, phi);
    TotientPower(r, n, phi);
    NthPowerOfOne(Pow(r, phi), n);
    PowPow(r, phi, n);
    PowPow(r, n, phi);
    assert phi * n == n * phi;
    CongMul(Pow(u, phi), 1 + n * (m * phi), Pow(v, phi), 1, n * n);
  }

  lemma DigitCong(u: int, n: int)
    requires n > 0
    ensures Cong(1 + n * u, 1 + n * (u % n), n * n)
  {
    var d, w := u / n, u % n;
    assert u == d * n + w;
    assert n * (d * n + w) == d * (n * n) + n * w;
    CongBy(1 + n * u, 1 + n * w, d, n * n);
  }

  lemma DigitBound(w: int, n: int)
    requires n > 1 && 0 <= w < n
    ensures 0 < 1 + n * w < n * n
  {
    assert n * n - n * w == n * (n - w);
    assert n * (n - w) == n + n * (n - w - 1);
  }

  lemma DigitValue(w: int, n: int)
    requires n > 0
    ensures L(1 + n * w, n) == w
  {
    assert n * w == w * n + 0;
    ModUnique(n * w, w, 0, n);
  }

  lemma DigitOf(x: int, u: int, n: int)
    requires n > 1 && 0 <= x < n * n && Cong(x, 1 + n * u, n * n)
    ensures L(x, n) == u % n
  {
    var w := u % n;
    DigitCong(u, n);
    DigitBound(w, n);
    var N, y := n * n, 1 + n * w;
    ModUnique(x, 0, x, N);
    ModUnique(y, 0, y, N);
    DigitValue(w, n);
  }

  /** Decryption recovers the plaintext modulo n. */
  lemma DecryptEncrypted(key: PrivateKey, c: int, m: int)
    requires ValidKey(key) && Encrypts(key.n, c, m)
    ensures DecryptValue(key, c) == m % key.n
  {
    var n, phi := key.n, key.lambda;
    var x := ModExp(c, phi, n * n);
    CongMod(Pow(c, phi), n * n);
    TotientPowerOfCiphertext(key, c, m);
    DigitOf(x, m * phi, n);
    MuCancels(L(x, n), m, phi, key.mu, n);
  }

  lemma MuCancels(digit: int, m: int, phi: int, mu: int, n: int)
    requires n > 0 && digit == (m * phi) % n && InverseOf(phi, mu, n)
    ensures MulMod(digit, mu, n) == m % n
  {
    CongMod(m * phi, n);
    CongMulLeft(digit, m * phi, mu, n);
    assert (m * phi) * mu == (phi * mu) * m;
    CongMulLeft(phi * mu, 1, m, n);
  }
}
