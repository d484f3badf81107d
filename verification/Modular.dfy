/**
 Congruences and powers of integers: the arithmetic that the OpenSSL calls of the
 library (BN_mod, BN_mod_mul, BN_mod_exp) compute.
 */
module Modular {

  /** a and b leave the same remainder modulo n. */
  ghost predicate Cong(a: int, b: int, n: int)
    requires n > 0
  {
    a % n == b % n
  }

  /** b multiplied by itself e times. */
  function Pow(b: int, e: nat): int {
    if e == 0 then 1 else b * Pow(b, e - 1)
  }

  /** BN_num_bits. */
  function NumBits(n: nat): nat {
    if n == 0 then 0 else 1 + NumBits(n / 2)
  }

  /** BN_mod_mul. */
  function MulMod(a: int, b: int, n: int): (r: int)
    requires n > 0
    ensures 0 <= r < n
  {
    (a * b) % n
  }

  /** BN_mod_exp and BN_mod_exp_mont. */
  function ModExp(b: int, e: nat, n: int): (r: int)
    requires n > 0
    ensures 0 <= r < n
  {
    Pow(b, e) % n
  }

  /**
   BN_mod_exp2_mont: the product of two powers. OpenSSL gives 0 as soon as a base is 0 modulo n, even
   when its exponent is 0; that takes a challenge or a weight of 0 and is not modelled.
   */
  function ModExp2(a: int, x: nat, b: int, y: nat, n: int): (r: int)
    requires n > 0
    ensures 0 <= r < n
  {
    (Pow(a, x) * Pow(b, y)) % n
  }

  /**
   BN_mod_add_quick: one conditional subtraction. It is meant for operands below n; a larger first
   operand, of no more words than n, is not reduced fully.
   */
  function ModAddQuick(a: int, b: int, n: int): (r: int)
    requires 0 <= a && 0 <= b < n
    ensures 0 <= r && (a < n ==> r < n && r == (a + b) % n)
  {
    assert a < n ==> (a + b) % n == if a + b < n then a + b else a + b - n by {
      if a < n { ModSmall(a + b, n); }
    }
    if a + b >= n then a + b - n else a + b
  }

  lemma ModAddQuickCong(a: int, b: int, n: int)
    requires 0 <= a && 0 <= b < n
    ensures Cong(ModAddQuick(a, b, n), a + b, n)
  {
    CongBy(ModAddQuick(a, b, n), a + b, if a + b >= n then -1 else 0, n);
  }

  /** BN_mod_sub_quick: one conditional addition, for operands already below n. */
  function ModSubQuick(a: int, b: int, n: int): (r: int)
    requires 0 <= a < n && 0 <= b < n
    ensures 0 <= r < n && r == (a - b) % n
  {
    ModSmall(a - b, n);
    if a < b then a - b + n else a - b
  }

  lemma MultipleGrows(k: int, n: int)
    requires n > 0
    ensures k >= 1 ==> k * n >= n
    ensures k <= -1 ==> k * n <= -n
  {
    if k >= 1 { assert k * n == n + (k - 1) * n; }
    if k <= -1 { assert k * n == -n + (k + 1) * n; }
  }

  /** Quotient and remainder are unique. */
  lemma ModUnique(a: int, k: int, r: int, n: int)
    requires n > 0 && a == k * n + r && 0 <= r < n
    ensures a % n == r && a / n == k
  {
    var d, m := a / n, a % n;
    assert a == d * n + m;
    assert (d - k) * n == r - m by { assert (d - k) * n == d * n - k * n; }
    MultipleGrows(d - k, n);
  }

  /** Remainders of the numbers one modulus around zero. */
  lemma ModSmall(a: int, n: int)
    requires n > 0 && -n <= a < 2 * n
    ensures a % n == if a < 0 then a + n else if a < n then a else a - n
  {
    ModUnique(a, if a < 0 then -1 else if a < n then 0 else 1, if a < 0 then a + n else if a < n then a else a - n, n);
  }

  lemma CongBy(a: int, b: int, k: int, n: int)
    requires n > 0 && a == b + k * n
    ensures Cong(a, b, n)
  {
    var d, m := b / n, b % n;
    assert b == d * n + m;
    assert a == (d + k) * n + m by { assert (d + k) * n == d * n + k * n; }
    ModUnique(a, d + k, m, n);
  }

  lemma CongWitness(a: int, b: int, n: int) returns (k: int)
    requires n > 0 && Cong(a, b, n)
    ensures a == b + k * n
  {
    k := a / n - b / n;
    assert a == (a / n) * n + a % n;
    assert b == (b / n) * n + b % n;
    assert k * n == (a / n) * n - (b / n) * n;
  }

  lemma CongMod(a: int, n: int)
    requires n > 0
    ensures Cong(a % n, a, n)
  {
    assert a == (a / n) * n + a % n;
    CongBy(a, a % n, a / n, n);
  }

  lemma CongAdd(a: int, a': int, b: int, b': int, n: int)
    requires n > 0 && Cong(a, a', n) && Cong(b, b', n)
    ensures Cong(a + b, a' + b', n)
  {
    var k := CongWitness(a, a', n);
    var l := CongWitness(b, b', n);
    assert (k + l) * n == k * n + l * n;
    CongBy(a + b, a' + b', k + l, n);
  }

  lemma CongSub(a: int, a': int, b: int, b': int, n: int)
    requires n > 0 && Cong(a, a', n) && Cong(b, b', n)
    ensures Cong(a - b, a' - b', n)
  {
    var k := CongWitness(a, a', n);
    var l := CongWitness(b, b', n);
    assert (k - l) * n == k * n - l * n;
    CongBy(a - b, a' - b', k - l, n);
  }

  lemma CongMulLeft(a: int, a': int, b: int, n: int)
    requires n > 0 && Cong(a, a', n)
    ensures Cong(a * b, a' * b, n)
  {
    var k := CongWitness(a, a', n);
    assert a * b == a' * b + (k * n) * b;
    assert (k * n) * b == (k * b) * n;
    CongBy(a * b, a' * b, k * b, n);
  }

  lemma CongMul(a: int, a': int, b: int, b': int, n: int)
    requires n > 0 && Cong(a, a', n) && Cong(b, b', n)
    ensures Cong(a * b, a' * b', n)
  {
    CongMulLeft(a, a', b, n);
    CongMulLeft(b, b', a', n);
    assert b * a' == a' * b && b' * a' == a' * b';
  }

  lemma CongPow(a: int, b: int, e: nat, n: int)
    requires n > 0 && Cong(a, b, n)
    ensures Cong(Pow(a, e), Pow(b, e), n)
  {
    if e > 0 {
      CongPow(a, b, e - 1, n);
      CongMul(a, b, Pow(a, e - 1), Pow(b, e - 1), n);
    }
  }

  /** A product may be reduced and its factors replaced by congruent ones. */
  lemma CongMulMod(a: int, a': int, b: int, b': int, n: int)
    requires n > 0 && Cong(a, a', n) && Cong(b, b', n)
    ensures Cong(MulMod(a, b, n), a' * b', n)
  {
    CongMul(a, a', b, b', n);
    CongMod(a * b, n);
  }

  lemma CongZero(a: int, n: int)
    requires n > 0
    ensures Cong(a * n, 0, n)
  {
    CongBy(a * n, 0, a, n);
  }

  /** A congruence modulo a multiple of n holds modulo n. */
  lemma CongDivisor(a: int, b: int, n: int, m: int)
    requires n > 0 && m > 0 && Cong(a, b, n * m)
    ensures Cong(a, b, n)
  {
    var k := CongWitness(a, b, n * m);
    assert k * (n * m) == (k * m) * n;
    CongBy(a, b, k * m, n);
  }

  lemma PowOne(e: nat)
    ensures Pow(1, e) == 1
  {
    if e > 0 { PowOne(e - 1); }
  }

  lemma PowAdd(b: int, x: nat, y: nat)
    ensures Pow(b, x + y) == Pow(b, x) * Pow(b, y)
  {
    if x > 0 {
      PowAdd(b, x - 1, y);
      assert Pow(b, x + y) == b * Pow(b, (x - 1) + y);
      assert b * (Pow(b, x - 1) * Pow(b, y)) == (b * Pow(b, x - 1)) * Pow(b, y);
    }
  }

  lemma FourFactors(a: int, b: int, p: int, q: int)
    ensures (a * b) * (p * q) == (a * p) * (b * q)
  {
    assert (a * b) * (p * q) == a * (b * p) * q;
    assert a * (b * p) * q == a * (p * b) * q;
  }

  lemma {:induction false} PowProduct(a: int, b: int, e: nat)
    ensures Pow(a * b, e) == Pow(a, e) * Pow(b, e)
  {
    if e > 0 {
      PowProduct(a, b, e - 1);
      FourFactors(a, b, Pow(a, e - 1), Pow(b, e - 1));
    }
  }

  lemma PowPow(b: int, x: nat, y: nat)
    ensures x * y >= 0 && Pow(Pow(b, x), y) == Pow(b, x * y)
  {
    if y > 0 {
      PowPow(b, x, y - 1);
      assert x * y == x + x * (y - 1);
      PowAdd(b, x, x * (y - 1));
    }
  }

  lemma PowPositive(b: int, e: nat)
    requires b > 0
    ensures Pow(b, e) > 0
  {
    if e > 0 { PowPositive(b, e - 1); }
  }

  /** A number has at most e bits exactly when it is below 2^e. */
  lemma {:induction false} BitsBound(n: nat, e: nat)
    ensures NumBits(n) <= e <==> n < Pow(2, e)
  {
    PowPositive(2, e);
    if e > 0 && n > 0 { BitsBound(n / 2, e - 1); }
  }

  lemma {:induction false} BitsMonotone(n: nat, m: nat)
    requires n <= m
    ensures NumBits(n) <= NumBits(m)
  {
    if n > 0 { BitsMonotone(n / 2, m / 2); }
  }

  /** The largest number of so many bits. */
  predicate LargestOfBits(x: nat, bits: nat) {
    NumBits(x) <= bits < NumBits(x + 1)
  }

  /** There is one for every length, so what is said of a largest number drawn is said of something. */
  lemma {:induction false} LargestOfBitsExists(bits: nat)
    ensures exists x: nat :: LargestOfBits(x, bits)
  {
    var power := Pow(2, bits);
    PowPositive(2, bits);
    BitsBound(power - 1, bits);
    BitsBound(power, bits);
    assert LargestOfBits(power - 1, bits);
  }
}
