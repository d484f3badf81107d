/**
 mta.cpp: the two-party multiplication k*x = alpha - beta under Paillier encryption.
 */
module Mta {
  import opened Modular
  import opened NumberTheory
  import opened Wrappers
  import opened AlgebraUtils
  import P = Paillier

  /** The ciphertext of k*x + beta that answers a ciphertext of k. */
  function AnswerValue(n: int, request: int, x: nat, beta: nat, r: int): (c: int)
    requires n > 0
    ensures 0 <= c < n * n
  {
    MulMod(ModExp(request, x, n * n), P.EncryptValue(n, r, beta), n * n)
  }

  /**
   answer_mta_request: the message for the requester, the commitment to beta under the own key,
   and the own share beta mod q. r and rCommitment are the accepted draws of encryption randomness.
   */
  method AnswerRequest(request: nat, n: int, ownN: int, x: nat, beta: nat, r: nat, rCommitment: nat, q: int)
    returns (result: Result<(int, int, int)>)
    requires n > 1 && ownN > 1 && q > 0 && Unit(r, n) && Unit(rCommitment, ownN)
    ensures result.Success? <==> Unit(request, n) && beta < n && beta < ownN
    ensures result.Success? ==>
      result.value == (AnswerValue(n, request, x, beta, r), P.EncryptValue(ownN, rCommitment, beta), beta % q)
    ensures result.Success? ==>
      && Cong(result.value.0, Pow(request, x) * ((1 + n * beta) * Pow(r, n)), n * n)
      && Cong(result.value.1, (1 + ownN * beta) * Pow(rCommitment, ownN), ownN * ownN)
  {
    CoprimeIsUnit(request, n);
    var coprime := IsCoprimeFast(request, n);
    if !coprime { return Failure(InternalError); }
    var power := ModExp(request, x, n * n);
    if beta >= n { return Failure(InternalError); }
    var hidden := P.Encrypt(n, r, beta);
    PowerUnit(request, x, n);
    P.EncryptValueCong(n, r, beta);
    P.CiphertextUnit(n, hidden.value, beta);
    CoprimeIsUnit(power, n);
    CoprimeIsUnit(hidden.value, n);
    var coprimeA := IsCoprimeFast(power, n);
    var coprimeB := IsCoprimeFast(hidden.value, n);
    if !coprimeA || !coprimeB { return Failure(InternalError); }
    var message := MulMod(power, hidden.value, n * n);
    if beta >= ownN { return Failure(InternalError); }
    var commitment := P.Encrypt(ownN, rCommitment, beta);
    AnswerValueCong(n, request, x, beta, r);
    P.EncryptValueCong(ownN, rCommitment, beta);
    return Success((message, commitment.value, beta % q));
  }

  /** The answer as a power of the request times a fresh encryption of beta. */
  lemma AnswerValueCong(n: int, request: int, x: nat, beta: nat, r: int)
    requires n > 0
    ensures Cong(AnswerValue(n, request, x, beta, r), Pow(request, x) * ((1 + n * beta) * Pow(r, n)), n * n)
  {
    CongMod(Pow(request, x), n * n);
    P.EncryptValueCong(n, r, beta);
    CongMulMod(ModExp(request, x, n * n), Pow(request, x), P.EncryptValue(n, r, beta), (1 + n * beta) * Pow(r, n), n * n);
  }

  lemma PowerUnit(c: int, x: nat, n: int)
    requires n > 0 && Unit(c, n)
    ensures Unit(ModExp(c, x, n * n), n)
  {
    UnitPow(c, x, n);
    CongMod(Pow(c, x), n * n);
    CongDivisor(ModExp(c, x, n * n), Pow(c, x), n, n);
    UnitCong(Pow(c, x), ModExp(c, x, n * n), n);
  }

  /** The share read from a decrypted answer: plaintexts above n/2 stand for negative numbers. */
  function ReceiverShare(key: P.PrivateKey, message: int, q: int): int
    requires key.n > 0 && key.lambda >= 0 && q > 0
  {
    var alpha := P.DecryptValue(key, message);
    if alpha > key.n / 2 then SubShare(alpha, key.n, q) else alpha % q
  }

  /** BN_mod_sub */
  function SubShare(a: int, b: int, q: int): int
    requires q > 0
  {
    (a - b) % q
  }

  /** decrypt_mta_response */
  method DecryptResponse(key: P.PrivateKey, message: nat, q: int) returns (share: Result<int>)
    requires P.ValidKey(key) && q > 0
    ensures share.Success? <==> Unit(message, key.n)
    ensures share.Success? ==> share.value == ReceiverShare(key, message, q)
  {
    var alpha := P.Decrypt(key, message);
    if alpha.None? { return Failure(InternalError); }
    var half := key.n / 2;
    if alpha.value > half {
      return Success(SubShare(alpha.value, key.n, q));
    }
    return Success(alpha.value % q);
  }

  // ----- Exactness -----

  /** The smallest modulus that passes the key size check: 256 bytes. */
  ghost predicate LargeEnough(n: int) {
    n > 0 && NumBits(n) > 2040
  }

  /** An answer encrypts k*x + beta. */
  lemma AnswerEncrypts(n: int, request: int, k: int, x: nat, beta: nat, r: int)
    requires n > 0 && P.Encrypts(n, request, k) && Unit(r, n)
    ensures P.Encrypts(n, AnswerValue(n, request, x, beta, r), k * x + beta)
  {
    var s :| P.EncryptsWith(n, request, k, s);
    P.MulHomomorphic(n, request, k, s, x);
    P.EncryptValueCong(n, r, beta);
    P.AddHomomorphic(n, ModExp(request, x, n * n), P.EncryptValue(n, r, beta), k * x, beta, Pow(s, x), r);
    assert P.EncryptsWith(n, AnswerValue(n, request, x, beta, r), k * x + beta, Pow(s, x) * r);
  }

  lemma ProductBelow(a: int, b: int, c: int, d: int)
    requires 0 <= a < c && 0 <= b < d
    ensures 0 <= a * b <= c * d
  {
    assert a * b >= 0;
    assert c * d - a * b == (c - a) * d + a * (d - b);
    assert (c - a) * d >= 0 && a * (d - b) >= 0;
  }

  lemma PowMonotone(e: nat, f: nat)
    requires e <= f
    ensures Pow(2, e) <= Pow(2, f)
  {
    PowAdd(2, e, f - e);
    PowPositive(2, e);
    PowPositive(2, f - e);
    var a, b := Pow(2, e), Pow(2, f - e);
    assert a * b - a == a * (b - 1);
    assert a * (b - 1) >= 0;
  }

  lemma {:induction false} ProductBits(k: nat, x: nat, e: nat)
    requires NumBits(k) <= e && NumBits(x) <= e
    ensures 0 <= k * x <= Pow(2, e + e)
  {
    BitsBound(k, e);
    BitsBound(x, e);
    ProductBelow(k, x, Pow(2, e), Pow(2, e));
    PowAdd(2, e, e);
  }

  lemma {:induction false} FourTimes(n: nat, f: nat)
    requires NumBits(n) >= f + 3
    ensures n >= 4 * Pow(2, f) > 0
  {
    BitsBound(n, f + 2);
    PowPositive(2, f);
    assert Pow(2, f + 2) == 2 * Pow(2, f + 1);
  }

  lemma {:induction false} HalfAbove(n: nat, k: nat, x: nat, beta: nat, e: nat, f: nat)
    requires NumBits(k) <= e && NumBits(x) <= e && NumBits(beta) <= f && NumBits(n) >= f + 3 && e + e <= f
    ensures 0 <= k * x + beta <= n / 2 && beta < n
  {
    ProductBits(k, x, e);
    BitsBound(beta, f);
    FourTimes(n, f);
    PowMonotone(e + e, f);
    var product := k * x;
    assert product + beta <= 2 * Pow(2, f);
  }

  /** The plaintext k*x + beta stays in the lower half of the modulus. */
  lemma {:induction false} PlaintextBelowHalf(n: int, k: nat, x: nat, beta: nat)
    requires LargeEnough(n) && NumBits(k) <= 256 && NumBits(x) <= 256 && NumBits(beta) <= 1280
    ensures 0 <= k * x + beta <= n / 2 && beta < n
  {
    HalfAbove(n, k, x, beta, 256, 1280);
  }

  /** The multiplication is exact: decryption takes the lower branch and the shares differ by k*x. */
  lemma {:induction false} MtaExact(key: P.PrivateKey, request: int, k: nat, x: nat, beta: nat, r: int, q: int)
    requires P.ValidKey(key) && LargeEnough(key.n) && q > 0
    requires NumBits(k) <= 256 && NumBits(x) <= 256 && NumBits(beta) <= 1280
    requires P.Encrypts(key.n, request, k) && Unit(r, key.n)
    ensures P.DecryptValue(key, AnswerValue(key.n, request, x, beta, r)) == k * x + beta <= key.n / 2
    ensures ReceiverShare(key, AnswerValue(key.n, request, x, beta, r), q) == (k * x + beta) % q
    ensures Cong(ReceiverShare(key, AnswerValue(key.n, request, x, beta, r), q) - beta % q, k * x, q)
  {
    var message, plain := AnswerValue(key.n, request, x, beta, r), k * x + beta;
    AnswerEncrypts(key.n, request, k, x, beta, r);
    PlaintextBelowHalf(key.n, k, x, beta);
    P.DecryptEncrypted(key, message, plain);
    ModUnique(plain, 0, plain, key.n);
    CongMod(plain, q);
    CongMod(beta, q);
    CongSub(plain % q, plain, beta % q, beta, q);
  }

  /** A request of a larger k or x can leave the lower half: the bound on the inputs is needed. */
  lemma {:induction false} UpperHalfWraps(key: P.PrivateKey, message: int, plain: int, q: int)
    requires P.ValidKey(key) && q > 0 && key.n / 2 < plain < key.n && P.Encrypts(key.n, message, plain)
    ensures ReceiverShare(key, message, q) == (plain - key.n) % q
  {
    P.DecryptEncrypted(key, message, plain);
    ModUnique(plain, 0, plain, key.n);
  }
}
