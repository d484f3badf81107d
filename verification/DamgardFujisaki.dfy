/**
 damgard_fujisaki.c and damgard_fujisaki_zkp.c: one commitment t^r * s_1^x_1 * ... * s_k^x_k
 to several values, checked with the trapdoor by one exponentiation.
 */
module DamgardFujisaki {
  import opened Modular
  import opened NumberTheory
  import opened RsaGroup
  import opened Wrappers
  import opened AlgebraUtils
  import opened Sums

  datatype PublicKey = PublicKey(n: int, s: seq<int>, t: int)

  datatype PrivateKey = PrivateKey(pub: PublicKey, lambda: seq<nat>, phi: int, p: int, q: int, qInvP: int)

  /** What key generation leaves behind. */
  ghost predicate ValidKey(key: PrivateKey) {
    && Factored(key.p, key.q, key.pub.n, key.phi) && key.pub.n > 0 && key.phi > 0
    && CrtParameters(key.p, key.q, key.qInvP, key.pub.n)
    && Unit(key.pub.t, key.pub.n)
    && |key.lambda| == |key.pub.s|
    && forall i | 0 <= i < |key.pub.s| :: key.pub.s[i] == ModExp(key.pub.t, key.lambda[i], key.pub.n)
  }

  /** damgard_fujisaki_generate_key_inner from drawn primes, candidates for r and drawn lambdas. */
  method GenerateKey(p: int, q: int, lambda: seq<nat>, candidates: seq<nat>) returns (key: Option<PrivateKey>)
    requires Prime(p) && Prime(q) && p != q
    ensures key.Some? ==> ValidKey(key.value) && key.value.pub.n == p * q && key.value.lambda == lambda
    ensures key.None? <==> forall k | 0 <= k < |candidates| :: !Coprime(candidates[k], p * q)
    ensures key.Some? ==> exists k | 0 <= k < |candidates| ::
      && Coprime(candidates[k], p * q) && (forall j | 0 <= j < k :: !Coprime(candidates[j], p * q))
      && key.value.pub.t == (candidates[k] * candidates[k]) % (p * q)
  {
    var n := p * q;
    var phi := n - p - q + 1;
    assert phi == (p - 1) * (q - 1);
    assert Factored(p, q, n, phi);
    RsaFacts(n, phi);
    var k := 0;
    while k < |candidates|
      invariant 0 <= k <= |candidates|
      invariant forall j | 0 <= j < k :: !Coprime(candidates[j], n)
    {
      var coprime := IsCoprimeFast(candidates[k], n);
      if coprime {
        var t := MulMod(candidates[k], candidates[k], n);
        SquareIsUnit(candidates[k], n);
        var s := TrapdoorBases(t, lambda, n);
        var qInvP := ModInverse(q, p);
        DistinctPrimes(q, p);
        return Some(PrivateKey(PublicKey(n, s, t), lambda, phi, p, q, qInvP.value));
      }
      k := k + 1;
    }
    return None;
  }

  lemma SquareIsUnit(r: nat, n: int)
    requires n > 0 && Coprime(r, n)
    ensures Unit(MulMod(r, r, n), n)
  {
    CoprimeIsUnit(r, n);
    UnitProduct(r, r, n);
    CongMod(r * r, n);
    UnitCong(r * r, MulMod(r, r, n), n);
  }

  method TrapdoorBases(t: int, lambda: seq<nat>, n: int) returns (s: seq<int>)
    requires n > 0
    ensures |s| == |lambda| && forall i | 0 <= i < |s| :: s[i] == ModExp(t, lambda[i], n)
  {
    s := [];
    while |s| < |lambda|
      invariant |s| <= |lambda| && forall i | 0 <= i < |s| :: s[i] == ModExp(t, lambda[i], n)
    {
      s := s + [ModExp(t, lambda[|s|], n)];
    }
  }

  // ----- The public and the trapdoor form of a commitment -----

  /** t^r times the first count powers s_i^x_i. */
  function Product(s: seq<int>, t: int, x: seq<nat>, r: nat, count: nat): int
    requires count <= |x| <= |s|
  {
    if count == 0 then Pow(t, r) else Product(s, t, x, r, count - 1) * Pow(s[count - 1], x[count - 1])
  }

  lemma {:induction false} ProductMeans(s: seq<int>, t: int, x: seq<nat>, r: nat, count: nat, f: nat -> int)
    requires count <= |x| <= |s| && forall i: nat | i < count :: f(i) == Pow(s[i], x[i])
    ensures Product(s, t, x, r, count) == Pow(t, r) * Prod(count, f)
  {
    if count > 0 {
      ProductMeans(s, t, x, r, count - 1, f);
      assert Pow(t, r) * Prod(count - 1, f) * f(count - 1) == Pow(t, r) * (Prod(count - 1, f) * f(count - 1));
    }
  }

  /** The value committed to. */
  function Commitment(pub: PublicKey, x: seq<nat>, r: nat): int
    requires pub.n > 0 && |x| <= |pub.s|
  {
    Product(pub.s, pub.t, x, r, |x|) % pub.n
  }

  /** damgard_fujisaki_create_commitment_internal */
  method CreateCommitment(pub: PublicKey, x: seq<nat>, r: nat) returns (result: Result<int>)
    requires pub.n > 0
    ensures |x| == 0 || |x| > |pub.s| ==> result == Failure(InvalidParameter)
    ensures 0 < |x| <= |pub.s| ==> result == Success(Commitment(pub, x, r))
    ensures 0 < |x| <= |pub.s| ==>
      (result.value == (Pow(pub.t, r) * Prod(|x|, (i: nat) => if i < |x| && i < |pub.s| then Pow(pub.s[i], x[i]) else 1)) % pub.n)
  {
    if |x| == 0 || |x| > |pub.s| { return Failure(InvalidParameter); }
    var commitment := ModExp(pub.t, r, pub.n);
    CongMod(Pow(pub.t, r), pub.n);
    var i := 0;
    while i < |x|
      invariant 0 <= i <= |x| && 0 <= commitment < pub.n
      invariant Cong(commitment, Product(pub.s, pub.t, x, r, i), pub.n)
    {
      var tmp := ModExp(pub.s[i], x[i], pub.n);
      CongMod(Pow(pub.s[i], x[i]), pub.n);
      CongMulMod(commitment, Product(pub.s, pub.t, x, r, i), tmp, Pow(pub.s[i], x[i]), pub.n);
      commitment := MulMod(commitment, tmp, pub.n);
      i := i + 1;
    }
    ModUnique(commitment, 0, commitment, pub.n);
    ProductMeans(pub.s, pub.t, x, r, |x|, (i: nat) => if i < |x| && i < |pub.s| then Pow(pub.s[i], x[i]) else 1);
    return Success(commitment);
  }

  /** The exponent that stands for the first count values. */
  function Exponent(lambda: seq<nat>, x: seq<nat>, r: nat, count: nat): nat
    requires count <= |x| <= |lambda|
  {
    if count == 0 then r else Exponent(lambda, x, r, count - 1) + lambda[count - 1] * x[count - 1]
  }

  /** t to the combined exponent is the product of the public powers. */
  lemma {:induction false} ExponentPower(key: PrivateKey, x: seq<nat>, r: nat, count: nat)
    requires ValidKey(key) && count <= |x| <= |key.lambda|
    ensures Cong(Pow(key.pub.t, Exponent(key.lambda, x, r, count)), Product(key.pub.s, key.pub.t, x, r, count), key.pub.n)
  {
    if count > 0 {
      var k, t, n := count - 1, key.pub.t, key.pub.n;
      ExponentPower(key, x, r, k);
      PowerStep(t, Exponent(key.lambda, x, r, k), key.lambda[k], x[k], Product(key.pub.s, t, x, r, k), key.pub.s[k], n);
    }
  }

  /** The trapdoor exponent loop of damgard_fujisaki_create_commitment_with_private_internal. */
  method TrapdoorExponent(key: PrivateKey, x: seq<nat>, r: nat) returns (e: int)
    requires key.phi > 0 && |x| <= |key.lambda|
    ensures 0 <= e < key.phi && Cong(e, Exponent(key.lambda, x, r, |x|), key.phi)
  {
    e := r % key.phi;
    CongMod(r, key.phi);
    var i := 0;
    while i < |x|
      invariant 0 <= i <= |x| && 0 <= e < key.phi
      invariant Cong(e, Exponent(key.lambda, x, r, i), key.phi)
    {
      var tmp := MulMod(key.lambda[i], x[i], key.phi);
      CongMod(key.lambda[i] * x[i], key.phi);
      CongAdd(e, Exponent(key.lambda, x, r, i), tmp, key.lambda[i] * x[i], key.phi);
      CongMod(e + tmp, key.phi);
      e := ModAddQuick(e, tmp, key.phi);
      i := i + 1;
    }
  }

  /** damgard_fujisaki_create_commitment_with_private_internal computes the public form. */
  method CreateWithPrivate(key: PrivateKey, x: seq<nat>, r: nat) returns (commitment: int)
    requires ValidKey(key) && |x| <= |key.lambda|
    ensures commitment == Commitment(key.pub, x, r)
  {
    var e := TrapdoorExponent(key, x, r);
    commitment := CrtModExp(key.pub.t, e, key.p, key.q, key.qInvP, key.pub.n);
    TrapdoorForm(key, x, r, e);
  }

  lemma TrapdoorForm(key: PrivateKey, x: seq<nat>, r: nat, e: nat)
    requires ValidKey(key) && |x| <= |key.lambda|
    requires Cong(e, Exponent(key.lambda, x, r, |x|), key.phi)
    ensures ModExp(key.pub.t, e, key.pub.n) == Commitment(key.pub, x, r)
  {
    assert RsaModulus(key.pub.n, key.phi);
    ReduceExponent(key.pub.t, e, Exponent(key.lambda, x, r, |x|), key.pub.n, key.phi);
    ExponentPower(key, x, r, |x|);
  }

  /** damgard_fujisaki_verify_commitment_internal accepts exactly the public commitment. */
  method VerifyCommitment(key: PrivateKey, x: seq<nat>, r: nat, commitment: int) returns (result: Result<bool>)
    requires ValidKey(key)
    ensures |x| == 0 || |x| > |key.pub.s| ==> result == Failure(InvalidParameter)
    ensures 0 < |x| <= |key.pub.s| ==> result == Success(commitment == Commitment(key.pub, x, r))
  {
    if |x| == 0 || |x| > |key.pub.s| { return Failure(InvalidParameter); }
    var expected := CreateWithPrivate(key, x, r);
    return Success(expected == commitment);
  }

  // ----- Proof of the parameters -----

  const STATISTICAL_SECURITY := 128

  /** get_min_secure_exponent_size */
  function MinSecureExponent(keyBits: nat): nat {
    if keyBits <= 1024 then 80
    else if keyBits <= 2048 then 112
    else if keyBits <= 3072 then 128
    else if keyBits <= 4096 then 144
    else if keyBits <= 7680 then 192
    else 256
  }

  /** answer_randomness_bitlen: the length of a number drawn, and the longest answer that is accepted. */
  function AnswerBits(n: nat, challengeBits: nat): nat {
    var size := MinSecureExponent(NumBits(n)) / 8;
    (2 * size + (size + 1) / 2) * 8 + challengeBits
  }

  /** What prover and verifier both demand of the modulus and the length of a challenge. */
  predicate Supported(n: nat, challengeBits: nat) {
    1 <= challengeBits <= STATISTICAL_SECURITY && AnswerBits(n, challengeBits) <= NumBits(n)
  }

  /** damgard_fujisaki_compute_required_repetitions */
  function Repetitions(challengeBits: nat, dimension: nat): nat {
    if challengeBits <= 4 || dimension > 2 || dimension == 0 then STATISTICAL_SECURITY
    else if challengeBits < 8 then (if dimension == 1 then 43 else 77)
    else if challengeBits < 16 then (if dimension == 1 then 19 else 33)
    else (if dimension == 1 then 14 else 16)
  }

  /**
   The table of repetitions: 128 for short challenges or more than two dimensions, fewer otherwise. In
   one dimension they make up the 128 bits of statistical security at 3, 7 or 10 bits each.
   */
  lemma RepetitionTable(challengeBits: nat)
    ensures Repetitions(challengeBits, 1) == if challengeBits <= 4 then 128 else if challengeBits < 8 then 43 else if challengeBits < 16 then 19 else 14
    ensures Repetitions(challengeBits, 2) == if challengeBits <= 4 then 128 else if challengeBits < 8 then 77 else if challengeBits < 16 then 33 else 16
    ensures forall dimension: nat | dimension > 2 :: Repetitions(challengeBits, dimension) == 128
    ensures challengeBits > 4 ==> (if challengeBits < 8 then 3 else if challengeBits < 16 then 7 else 10) * Repetitions(challengeBits, 1) >= 128
  {
  }

  /** The lengths for the usual moduli: two and a half times the security level and the challenge. */
  lemma {:induction false} AnswerLengths(n: nat, challengeBits: nat)
    ensures NumBits(n) <= 1024 ==> AnswerBits(n, challengeBits) == 200 + challengeBits
    ensures 1024 < NumBits(n) <= 2048 ==> AnswerBits(n, challengeBits) == 280 + challengeBits
    ensures 2048 < NumBits(n) <= 3072 ==> AnswerBits(n, challengeBits) == 320 + challengeBits
    ensures 3072 < NumBits(n) <= 4096 ==> AnswerBits(n, challengeBits) == 360 + challengeBits
    ensures NumBits(n) > 1024 ==> (Supported(n, challengeBits) <==> 1 <= challengeBits <= 128)
    ensures NumBits(n) <= 1024 ==> (Supported(n, challengeBits) <==> 1 <= challengeBits <= 128 && 200 + challengeBits <= NumBits(n))
  {
  }

  /** The raw challenge of repetition i and dimension j, drawn from a generator seeded with the commitments. */
  type Challenge = seq<int> -> (nat, nat) -> nat

  /** BN_mask_bits */
  function Masked(raw: nat, bits: nat): nat {
    PowPositive(2, bits);
    raw % Pow(2, bits)
  }

  /** a times the first count powers s_j^e_j. */
  function Challenged(s: seq<int>, a: int, e: nat -> nat, count: nat): int
    requires count <= |s|
  {
    if count == 0 then a else Challenged(s, a, e, count - 1) * Pow(s[count - 1], e(count - 1))
  }

  /** The challenges of one repetition. */
  function Row(challenge: (nat, nat) -> nat, i: nat, bits: nat): nat -> nat {
    j => Masked(challenge(i, j), bits)
  }

  /** The verifier's equation of one repetition. */
  ghost predicate ProofEquation(pub: PublicKey, a: int, z: nat, e: nat -> nat)
    requires pub.n > 0
  {
    Cong(Pow(pub.t, z), Challenged(pub.s, a, e, |pub.s|), pub.n)
  }

  lemma {:induction false} ChallengedMeans(s: seq<int>, a: int, e: nat -> nat, count: nat, f: nat -> int)
    requires count <= |s| && forall j: nat | j < count :: f(j) == Pow(s[j], e(j))
    ensures Challenged(s, a, e, count) == a * Prod(count, f)
  {
    if count > 0 {
      ChallengedMeans(s, a, e, count - 1, f);
      assert a * Prod(count - 1, f) * f(count - 1) == a * (Prod(count - 1, f) * f(count - 1));
    }
  }

  /** One repetition that is accepted: t^z = a * s_1^e_1 * ..., where e_j is the low bits of the raw challenge. */
  lemma {:induction false} ProofEquationMeans(pub: PublicKey, challenge: (nat, nat) -> nat, i: nat, bits: nat, a: int, z: nat, f: nat -> int)
    requires pub.n > 0 && Pow(2, bits) > 0 && forall j: nat | j < |pub.s| :: f(j) == Pow(pub.s[j], challenge(i, j) % Pow(2, bits))
    ensures ProofEquation(pub, a, z, Row(challenge, i, bits)) <==> Cong(Pow(pub.t, z), a * Prod(|pub.s|, f), pub.n)
  {
    ChallengedMeans(pub.s, a, Row(challenge, i, bits), |pub.s|, f);
  }

  /** A challenge of no more bits than asked for is used as it was drawn. */
  lemma {:induction false} ShortChallenge(challenge: (nat, nat) -> nat, i: nat, j: nat, bits: nat)
    ensures NumBits(Row(challenge, i, bits)(j)) <= bits
    ensures NumBits(challenge(i, j)) <= bits ==> Row(challenge, i, bits)(j) == challenge(i, j)
  {
    PowPositive(2, bits);
    BitsBound(challenge(i, j) % Pow(2, bits), bits);
    BitsBound(challenge(i, j), bits);
    if challenge(i, j) < Pow(2, bits) { ModUnique(challenge(i, j), 0, challenge(i, j), Pow(2, bits)); }
  }

  /** e_1*lambda_1 + ... over the first count dimensions. */
  function ChallengeSum(lambda: seq<nat>, e: nat -> nat, count: nat): nat
    requires count <= |lambda|
  {
    if count == 0 then 0 else ChallengeSum(lambda, e, count - 1) + e(count - 1) * lambda[count - 1]
  }

  /** The answer of one repetition: the drawn number moved by all challenges, modulo phi. */
  function FinalAnswer(key: PrivateKey, drawn: nat, e: nat -> nat): (z: nat)
    requires key.phi > 0
    ensures z < key.phi
  {
    (drawn + ChallengeSum(key.lambda, e, |key.lambda|)) % key.phi
  }

  lemma {:induction false} FinalAnswerMeans(key: PrivateKey, drawn: nat, e: nat -> nat, f: nat -> int)
    requires key.phi > 0 && forall j: nat | j < |key.lambda| :: f(j) == e(j) * key.lambda[j]
    ensures FinalAnswer(key, drawn, e) == (drawn + Sum(|key.lambda|, f)) % key.phi
  {
    ChallengeSumMeans(key.lambda, e, |key.lambda|, f);
  }

  lemma {:induction false} ChallengeSumMeans(lambda: seq<nat>, e: nat -> nat, count: nat, f: nat -> int)
    requires count <= |lambda| && forall j: nat | j < count :: f(j) == e(j) * lambda[j]
    ensures ChallengeSum(lambda, e, count) == Sum(count, f)
  {
    if count > 0 { ChallengeSumMeans(lambda, e, count - 1, f); }
  }

  lemma MovedAnswer(z: nat, drawn: nat, sum: nat, c: nat, product: nat, phi: int)
    requires phi > 0 && z == (drawn + sum) % phi && c == product % phi
    ensures (z + c) % phi == (drawn + (sum + product)) % phi
  {
    CongMod(drawn + sum, phi);
    CongMod(product, phi);
    CongAdd(z, drawn + sum, c, product, phi);
  }

  /**
   The largest number that can be drawn leaves the verifier's length bound as soon as the challenges
   move it, unless it passes phi.
   */
  lemma {:induction false} AnswerCanOverflow(key: PrivateKey, drawn: nat, e: nat -> nat, challengeBits: nat)
    requires key.pub.n > 0 && LargestOfBits(drawn, AnswerBits(key.pub.n, challengeBits)) && 0 < ChallengeSum(key.lambda, e, |key.lambda|)
    requires drawn + ChallengeSum(key.lambda, e, |key.lambda|) < key.phi
    ensures NumBits(FinalAnswer(key, drawn, e)) > AnswerBits(key.pub.n, challengeBits)
  {
    SumOverflows(drawn, ChallengeSum(key.lambda, e, |key.lambda|), key.phi, AnswerBits(key.pub.n, challengeBits));
  }

  lemma {:induction false} SumOverflows(drawn: nat, sum: nat, phi: int, bits: nat)
    requires LargestOfBits(drawn, bits) && 0 < sum && drawn + sum < phi
    ensures NumBits((drawn + sum) % phi) > bits
  {
    ModUnique(drawn + sum, 0, drawn + sum, phi);
    BitsMonotone(drawn + 1, drawn + sum);
  }

  /**
   The inner loop of the generator: z + e_1*lambda_1 + ... modulo phi, skipping zero challenges. The
   equation holds for every number drawn; below phi the answer is reduced.
   */
  method Answer(key: PrivateKey, a: int, drawn: nat, e: nat -> nat) returns (z: nat)
    requires ValidKey(key) && a == ModExp(key.pub.t, drawn, key.pub.n)
    ensures ProofEquation(key.pub, a, z, e)
    ensures drawn < key.phi ==> z == FinalAnswer(key, drawn, e)
  {
    z := drawn;
    if drawn < key.phi { ModUnique(drawn, 0, drawn, key.phi); }
    CongMod(Pow(key.pub.t, drawn), key.pub.n);
    var j := 0;
    while j < |key.pub.s|
      invariant 0 <= j <= |key.pub.s|
      invariant Cong(Pow(key.pub.t, z), Challenged(key.pub.s, a, e, j), key.pub.n)
      invariant drawn < key.phi ==> z < key.phi && z == (drawn + ChallengeSum(key.lambda, e, j)) % key.phi
    {
      if e(j) != 0 {
        var c := MulMod(e(j), key.lambda[j], key.phi);
        AnswerStep(key, z, key.lambda[j], e(j), c, Challenged(key.pub.s, a, e, j), key.pub.s[j]);
        if drawn < key.phi { MovedAnswer(z, drawn, ChallengeSum(key.lambda, e, j), c, e(j) * key.lambda[j], key.phi); }
        z := ModAddQuick(z, c, key.phi);
      }
      j := j + 1;
    }
  }

  lemma AnswerStep(key: PrivateKey, z: nat, lambda: nat, e: nat, c: nat, product: int, s: int)
    requires ValidKey(key) && c == MulMod(e, lambda, key.phi)
    requires Cong(Pow(key.pub.t, z), product, key.pub.n) && s == ModExp(key.pub.t, lambda, key.pub.n)
    ensures Cong(Pow(key.pub.t, ModAddQuick(z, c, key.phi)), product * Pow(s, e), key.pub.n)
  {
    assert RsaModulus(key.pub.n, key.phi);
    var sum := ModAddQuick(z, c, key.phi);
    var m: nat := lambda * e;
    CongMod(m, key.phi);
    CongAdd(z, z, c, m, key.phi);
    ModAddQuickCong(z, c, key.phi);
    ReduceExponent(key.pub.t, sum, z + m, key.pub.n, key.phi);
    PowerStep(key.pub.t, z, lambda, e, product, s, key.pub.n);
  }

  /** damgard_fujisaki_parameters_zkp_generate; z holds the drawn numbers, one for each repetition. */
  method ParametersZkpGenerate(key: PrivateKey, challenge: Challenge, challengeBits: nat, z: array<nat>) returns (a: Result<seq<int>>)
    requires ValidKey(key) && z.Length == Repetitions(challengeBits, |key.pub.s|)
    modifies z
    ensures a.Success? <==> Supported(key.pub.n, challengeBits)
    ensures a.Failure? ==> a.error == InvalidParameter && z[..] == old(z[..])
    ensures a.Success? ==> a.value == Powers(key.pub.t, key.pub.n, old(z[..]))
    ensures a.Success? ==> forall i | 0 <= i < z.Length ::
      && ProofEquation(key.pub, a.value[i], z[i], Row(challenge(a.value), i, challengeBits))
      && (old(z[i]) < key.phi ==> z[i] == FinalAnswer(key, old(z[i]), Row(challenge(a.value), i, challengeBits)))
  {
    if challengeBits > STATISTICAL_SECURITY || challengeBits < 1 || NumBits(key.pub.n) < AnswerBits(key.pub.n, challengeBits) {
      return Failure(InvalidParameter);
    }
    var sent := Commit(key, z);
    ghost var drawn := z[..];
    var i := 0;
    while i < z.Length
      invariant 0 <= i <= z.Length
      invariant forall j | i <= j < z.Length :: z[j] == drawn[j]
      invariant forall j | 0 <= j < i ::
        && ProofEquation(key.pub, sent[j], z[j], Row(challenge(sent), j, challengeBits))
        && (drawn[j] < key.phi ==> z[j] == FinalAnswer(key, drawn[j], Row(challenge(sent), j, challengeBits)))
    {
      z[i] := Answer(key, sent[i], z[i], Row(challenge(sent), i, challengeBits));
      i := i + 1;
    }
    return Success(sent);
  }

  /** The first loop of the generator. */
  method Commit(key: PrivateKey, z: array<nat>) returns (a: seq<int>)
    requires key.pub.n > 0
    ensures a == Powers(key.pub.t, key.pub.n, z[..])
  {
    a := [];
    while |a| < z.Length
      invariant |a| <= z.Length && forall j | 0 <= j < |a| :: a[j] == ModExp(key.pub.t, z[j], key.pub.n)
    {
      a := a + [ModExp(key.pub.t, z[|a|], key.pub.n)];
    }
  }

  /** The inner loop of the verifier. */
  method RightSide(pub: PublicKey, a: int, e: nat -> nat) returns (right: int)
    requires pub.n > 0 && 0 <= a < pub.n
    ensures 0 <= right < pub.n && Cong(right, Challenged(pub.s, a, e, |pub.s|), pub.n)
  {
    right := a;
    var j := 0;
    while j < |pub.s|
      invariant 0 <= j <= |pub.s| && 0 <= right < pub.n
      invariant Cong(right, Challenged(pub.s, a, e, j), pub.n)
    {
      if e(j) != 0 {
        var power := ModExp(pub.s[j], e(j), pub.n);
        CongMod(Pow(pub.s[j], e(j)), pub.n);
        CongMulMod(right, Challenged(pub.s, a, e, j), power, Pow(pub.s[j], e(j)), pub.n);
        right := MulMod(right, power, pub.n);
      }
      j := j + 1;
    }
  }

  /**
   damgard_fujisaki_parameters_zkp_verify accepts exactly when there is a dimension, the lengths are
   supported, the proof has one answer for each repetition, every answer is short and every equation holds.
   */
  method ParametersZkpVerify(pub: PublicKey, challenge: Challenge, challengeBits: nat, a: seq<int>, z: seq<nat>, nIsPrime: bool)
    returns (ok: bool)
    requires pub.n > 0 && pub.t >= 0 && (forall j | 0 <= j < |pub.s| :: pub.s[j] >= 0)
    requires |a| == |z| && forall i | 0 <= i < |a| :: 0 <= a[i] < pub.n
    ensures ok <==>
      && |pub.s| > 0 && Supported(pub.n, challengeBits) && |z| == Repetitions(challengeBits, |pub.s|)
      && !nIsPrime && Unit(pub.t, pub.n) && (forall j | 0 <= j < |pub.s| :: Unit(pub.s[j], pub.n))
      && forall i | 0 <= i < |z| ::
        NumBits(z[i]) <= AnswerBits(pub.n, challengeBits) && ProofEquation(pub, a[i], z[i], Row(challenge(a), i, challengeBits))
  {
    if |pub.s| == 0 { return false; }
    var answerBits := AnswerBits(pub.n, challengeBits);
    if challengeBits > STATISTICAL_SECURITY || challengeBits < 1 || NumBits(pub.n) < answerBits { return false; }
    if |z| != Repetitions(challengeBits, |pub.s|) { return false; }
    if nIsPrime { return false; }
    CoprimeIsUnit(pub.t, pub.n);
    var coprime := IsCoprimeFast(pub.n, pub.t);
    if !coprime { return false; }
    var j := 0;
    while j < |pub.s|
      invariant 0 <= j <= |pub.s| && forall k | 0 <= k < j :: Unit(pub.s[k], pub.n)
    {
      CoprimeIsUnit(pub.s[j], pub.n);
      coprime := IsCoprimeFast(pub.s[j], pub.n);
      if !coprime { return false; }
      j := j + 1;
    }
    var i := 0;
    while i < |z|
      invariant 0 <= i <= |z|
      invariant forall k | 0 <= k < i ::
        NumBits(z[k]) <= answerBits && ProofEquation(pub, a[k], z[k], Row(challenge(a), k, challengeBits))
    {
      if NumBits(z[i]) > answerBits { return false; }
      var left := ModExp(pub.t, z[i], pub.n);
      var right := RightSide(pub, a[i], Row(challenge(a), i, challengeBits));
      CongMod(Pow(pub.t, z[i]), pub.n);
      ModUnique(right, 0, right, pub.n);
      if left != right {
        assert !ProofEquation(pub, a[i], z[i], Row(challenge(a), i, challengeBits));
        return false;
      }
      i := i + 1;
    }
    return true;
  }

  lemma ValidKeyUnits(key: PrivateKey, j: nat)
    requires ValidKey(key) && j < |key.pub.s|
    ensures Unit(key.pub.s[j], key.pub.n)
  {
    UnitPow(key.pub.t, key.lambda[j], key.pub.n);
    CongMod(Pow(key.pub.t, key.lambda[j]), key.pub.n);
    UnitCong(Pow(key.pub.t, key.lambda[j]), key.pub.s[j], key.pub.n);
  }

  /**
   Generation followed by verification: an honest proof for a modulus of a supported size fails only
   when there is no dimension or an answer outgrows the verifier's bound.
   */
  method ProveAndVerify(key: PrivateKey, challenge: Challenge, challengeBits: nat, z: array<nat>) returns (ok: bool)
    requires ValidKey(key) && key.pub.t >= 0 && z.Length == Repetitions(challengeBits, |key.pub.s|)
    modifies z
    ensures ok <==>
      && |key.pub.s| > 0 && Supported(key.pub.n, challengeBits)
      && forall i | 0 <= i < z.Length :: NumBits(z[i]) <= AnswerBits(key.pub.n, challengeBits)
    ensures Supported(key.pub.n, challengeBits) ==> forall i | 0 <= i < z.Length && old(z[i]) < key.phi ::
      z[i] == FinalAnswer(key, old(z[i]), Row(challenge(Powers(key.pub.t, key.pub.n, old(z[..]))), i, challengeBits))
  {
    var a := ParametersZkpGenerate(key, challenge, challengeBits, z);
    if a.Failure? { return false; }
    forall j | 0 <= j < |key.pub.s| ensures Unit(key.pub.s[j], key.pub.n) { ValidKeyUnits(key, j); }
    ok := ParametersZkpVerify(key.pub, challenge, challengeBits, a.value, z[..], false);
  }
}
