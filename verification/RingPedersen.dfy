/** ring_pedersen.c: commitments s^x * t^r mod n, checked by the holder of log_t(s) and phi(n). */
module RingPedersen {
  import opened Modular
  import opened NumberTheory
  import opened RsaGroup
  import opened Wrappers
  import opened AlgebraUtils
  import opened Sums

  datatype PublicKey = PublicKey(n: int, s: int, t: int)

  datatype PrivateKey = PrivateKey(pub: PublicKey, lambda: nat, phi: int)

  /** What key generation leaves behind. */
  ghost predicate ValidKey(key: PrivateKey) {
    && RsaModulus(key.pub.n, key.phi) && key.pub.n > 0 && key.phi > 0
    && 0 <= key.pub.t < key.pub.n && Unit(key.pub.t, key.pub.n)
    && key.lambda < key.phi
    && key.pub.s == ModExp(key.pub.t, key.lambda, key.pub.n)
  }

  /** ring_pedersen_generate_key_pair from the drawn primes, the drawn lambda and the candidates for r. */
  method GenerateKey(p: int, q: int, lambda: nat, candidates: seq<nat>) returns (key: Option<PrivateKey>)
    requires Prime(p) && Prime(q) && p != q && lambda < (p - 1) * (q - 1)
    ensures key.Some? ==> ValidKey(key.value) && key.value.pub.n == p * q && key.value.lambda == lambda
    ensures key.None? <==> forall k | 0 <= k < |candidates| :: !Coprime(candidates[k], p * q)
    ensures key.Some? ==> exists k | 0 <= k < |candidates| ::
      && Coprime(candidates[k], p * q) && (forall j | 0 <= j < k :: !Coprime(candidates[j], p * q))
      && key.value.pub.t == (candidates[k] * candidates[k]) % (p * q)
  {
    var n := p * q;
    var phi := n - p - q + 1;
    assert phi == (p - 1) * (q - 1);
    assert Factored(p, q, n, phi);
    RsaFacts(n, phi);
    var k := 0;
    while k < |candidates|
      invariant 0 <= k <= |candidates|
      invariant forall j | 0 <= j < k :: !Coprime(candidates[j], n)
    {
      var r := candidates[k];
      var coprime := IsCoprimeFast(r, n);
      if coprime {
        var t := MulMod(r, r, n);
        CoprimeIsUnit(r, n);
        UnitProduct(r, r, n);
        CongMod(r * r, n);
        UnitCong(r * r, t, n);
        return Some(PrivateKey(PublicKey(n, ModExp(t, lambda, n), t), lambda, phi));
      }
      k := k + 1;
    }
    return None;
  }

  // ----- One commitment -----

  /** ring_pedersen_create_commitment_internal */
  function CreateCommitment(pub: PublicKey, x: nat, r: nat): int
    requires pub.n > 0
  {
    ModExp2(pub.s, x, pub.t, r, pub.n)
  }

  /** The exponent lambda*x + r, reduced as the code reduces it. */
  function TrapdoorExponent(key: PrivateKey, x: nat, r: nat): (e: int)
    requires key.phi > 0
    ensures 0 <= e < key.phi
  {
    (MulMod(key.lambda, x, key.phi) + r) % key.phi
  }

  lemma TrapdoorExponentCong(key: PrivateKey, x: nat, r: nat)
    requires key.phi > 0
    ensures Cong(TrapdoorExponent(key, x, r), key.lambda * x + r, key.phi)
  {
    CongMod(key.lambda * x, key.phi);
    CongAdd(MulMod(key.lambda, x, key.phi), key.lambda * x, r, r, key.phi);
    CongMod(MulMod(key.lambda, x, key.phi) + r, key.phi);
  }

  /** The value the trapdoor check computes is the commitment. */
  lemma TrapdoorCommitment(key: PrivateKey, x: nat, r: nat)
    requires ValidKey(key)
    ensures ModExp(key.pub.t, TrapdoorExponent(key, x, r), key.pub.n) == CreateCommitment(key.pub, x, r)
  {
    TrapdoorExponentCong(key, x, r);
    CongMod(Pow(key.pub.t, key.lambda), key.pub.n);
    TrapdoorPower(key.pub.t, key.pub.s, key.lambda, x, r, TrapdoorExponent(key, x, r), key.pub.n, key.phi);
  }

  /** ring_pedersen_verify_commitment_internal accepts exactly s^x * t^r mod n. */
  method VerifyCommitment(key: PrivateKey, x: nat, r: nat, commitment: int) returns (ok: bool)
    requires ValidKey(key)
    ensures ok <==> commitment == CreateCommitment(key.pub, x, r)
    ensures ok <==> commitment == (Pow(key.pub.s, x) * Pow(key.pub.t, r)) % key.pub.n
  {
    var tmp := MulMod(key.lambda, x, key.phi);
    tmp := (tmp + r) % key.phi;
    tmp := ModExp(key.pub.t, tmp, key.pub.n);
    TrapdoorCommitment(key, x, r);
    return tmp == commitment;
  }

  // ----- Batches -----

  /** The low 40 bits that weigh one member. */
  function Weight(random: nat): nat {
    random % 0x100_0000_0000
  }

  /** The product of the first members raised to their weights. */
  function WeightedProduct(c: seq<int>, random: seq<nat>, count: nat): int
    requires count <= |c| == |random|
  {
    if count == 0 then 1
    else WeightedProduct(c, random, count - 1) * Pow(c[count - 1], Weight(random[count - 1]))
  }

  /** The exponent one member contributes. */
  function WeightedTerm(key: PrivateKey, x: nat, r: nat, random: nat): nat
    requires key.phi > 0
  {
    TrapdoorExponent(key, x, r) * Weight(random)
  }

  /** The sum of the first weighted exponents. */
  function WeightedExponent(key: PrivateKey, x: seq<nat>, r: seq<nat>, random: seq<nat>, count: nat): nat
    requires key.phi > 0 && count <= |x| == |r| == |random|
  {
    if count == 0 then 0
    else WeightedExponent(key, x, r, random, count - 1) + WeightedTerm(key, x[count - 1], r[count - 1], random[count - 1])
  }

  /** The commitments that the openings (x, r) belong to. */
  function Openings(pub: PublicKey, x: seq<nat>, r: seq<nat>): (c: seq<int>)
    requires pub.n > 0 && |x| == |r|
    ensures |c| == |x|
  {
    seq(|x|, i requires 0 <= i < |x| => CreateCommitment(pub, x[i], r[i]))
  }

  lemma {:induction false} WeightedPower(key: PrivateKey, x: seq<nat>, r: seq<nat>, random: seq<nat>, count: nat)
    requires ValidKey(key) && count <= |x| == |r| == |random|
    ensures Cong(Pow(key.pub.t, WeightedExponent(key, x, r, random, count)),
                 WeightedProduct(Openings(key.pub, x, r), random, count), key.pub.n)
  {
    if count > 0 {
      var k, t, n := count - 1, key.pub.t, key.pub.n;
      WeightedPower(key, x, r, random, k);
      TrapdoorCommitment(key, x[k], r[k]);
      PowerStep(t, WeightedExponent(key, x, r, random, k), TrapdoorExponent(key, x[k], r[k]), Weight(random[k]),
                WeightedProduct(Openings(key.pub, x, r), random, k), Openings(key.pub, x, r)[k], n);
    }
  }

  /** What one pass of the batch loop adds to the exponent and multiplies into the product. */
  method BatchMember(key: PrivateKey, x: nat, r: nat, commitment: int, random: nat) returns (term: nat, power: int)
    requires key.phi > 0 && key.pub.n > 0
    ensures term == WeightedTerm(key, x, r, random)
    ensures power == ModExp(commitment, Weight(random), key.pub.n)
  {
    var gamma := Weight(random);
    var tmp := MulMod(key.lambda, x, key.phi);
    tmp := (tmp + r) % key.phi;
    term := tmp * gamma;
    power := ModExp(commitment, gamma, key.pub.n);
  }

  lemma BatchProductStep(commitments: seq<int>, random: seq<nat>, i: nat, B: int, power: int, n: int)
    requires i < |commitments| == |random| && n > 0
    requires Cong(B, WeightedProduct(commitments, random, i), n)
    requires power == ModExp(commitments[i], Weight(random[i]), n)
    ensures Cong(MulMod(B, power, n), WeightedProduct(commitments, random, i + 1), n)
  {
    var c := Pow(commitments[i], Weight(random[i]));
    CongMod(c, n);
    CongMulMod(B, WeightedProduct(commitments, random, i), power, c, n);
  }

  /** The loop of ring_pedersen_verify_batch_commitments_internal. */
  method BatchLoop(key: PrivateKey, x: seq<nat>, r: seq<nat>, commitments: seq<int>, random: seq<nat>) returns (tExp: nat, B: int)
    requires key.phi > 0 && key.pub.n > 1 && |x| == |r| == |commitments| == |random|
    ensures tExp == WeightedExponent(key, x, r, random, |x|)
    ensures 0 <= B < key.pub.n && Cong(B, WeightedProduct(commitments, random, |x|), key.pub.n)
  {
    tExp, B := 0, 1;
    var i := 0;
    while i < |x|
      invariant 0 <= i <= |x|
      invariant tExp == WeightedExponent(key, x, r, random, i)
      invariant 0 <= B < key.pub.n && Cong(B, WeightedProduct(commitments, random, i), key.pub.n)
    {
      var term, power := BatchMember(key, x[i], r[i], commitments[i], random[i]);
      BatchProductStep(commitments, random, i, B, power, key.pub.n);
      tExp := tExp + term;
      B := MulMod(B, power, key.pub.n);
      i := i + 1;
    }
  }

  /** ring_pedersen_verify_batch_commitments_internal; random holds the drawn 64-bit words. */
  method VerifyBatch(key: PrivateKey, x: seq<nat>, r: seq<nat>, commitments: seq<int>, random: seq<nat>) returns (result: Result<bool>)
    requires ValidKey(key) && |x| == |r| == |commitments| == |random|
    ensures |x| == 0 ==> result == Failure(InvalidParameter)
    ensures |x| > 0 ==> result.Success?
    ensures |x| > 0 ==>
      (result.value <==>
        Cong(WeightedProduct(commitments, random, |x|), WeightedProduct(Openings(key.pub, x, r), random, |x|), key.pub.n))
    ensures |x| > 0 && (forall i | 0 <= i < |x| :: commitments[i] == CreateCommitment(key.pub, x[i], r[i])) ==> result.value
    ensures |x| > 0 && result.value ==> forall j | 0 <= j < |x| && OthersOpen(key.pub, x, r, commitments, j) && random[j] % 0x100_0000_0000 == 1 ::
      Cong(commitments[j], Pow(key.pub.s, x[j]) * Pow(key.pub.t, r[j]), key.pub.n)
  {
    if |x| == 0 { return Failure(InvalidParameter); }
    RsaFacts(key.pub.n, key.phi);
    var tExp, B := BatchLoop(key, x, r, commitments, random);
    BatchAnswer(key, x, r, commitments, random, tExp, B);
    var reduced := tExp % key.phi;
    var power := ModExp(key.pub.t, reduced, key.pub.n);
    if power == B { PassedOpens(key, x, r, commitments, random); }
    return Success(power == B);
  }

  /** All members but j carry the commitment that their opening belongs to. */
  ghost predicate OthersOpen(pub: PublicKey, x: seq<nat>, r: seq<nat>, commitments: seq<int>, j: nat)
    requires pub.n > 0 && |x| == |r| == |commitments|
  {
    forall i | 0 <= i < |x| && i != j :: Cong(commitments[i], Pow(pub.s, x[i]) * Pow(pub.t, r[i]), pub.n)
  }

  lemma {:induction false} WeightedProductMeans(c: seq<int>, random: seq<nat>, count: nat, f: nat -> int)
    requires count <= |c| == |random| && forall i: nat | i < count :: f(i) == Pow(c[i], random[i] % 0x100_0000_0000)
    ensures WeightedProduct(c, random, count) == Prod(count, f)
  {
    if count > 0 { WeightedProductMeans(c, random, count - 1, f); }
  }

  lemma {:induction false} PassedOpens(key: PrivateKey, x: seq<nat>, r: seq<nat>, commitments: seq<int>, random: seq<nat>)
    requires ValidKey(key) && |x| == |r| == |commitments| == |random|
    requires Cong(WeightedProduct(commitments, random, |x|), WeightedProduct(Openings(key.pub, x, r), random, |x|), key.pub.n)
    ensures forall j | 0 <= j < |x| && OthersOpen(key.pub, x, r, commitments, j) && random[j] % 0x100_0000_0000 == 1 ::
      Cong(commitments[j], Pow(key.pub.s, x[j]) * Pow(key.pub.t, r[j]), key.pub.n)
  {
    forall j | 0 <= j < |x| && OthersOpen(key.pub, x, r, commitments, j) && random[j] % 0x100_0000_0000 == 1
      ensures Cong(commitments[j], Pow(key.pub.s, x[j]) * Pow(key.pub.t, r[j]), key.pub.n)
    {
      OneMember(key, x, r, commitments, random, j);
    }
  }

  /** If a batch passes, all members but one open, and that one has weight 1, then it opens too. */
  lemma {:induction false} OneMember(key: PrivateKey, x: seq<nat>, r: seq<nat>, commitments: seq<int>, random: seq<nat>, j: nat)
    requires ValidKey(key) && j < |x| == |r| == |commitments| == |random| && OthersOpen(key.pub, x, r, commitments, j)
    requires Cong(WeightedProduct(commitments, random, |x|), WeightedProduct(Openings(key.pub, x, r), random, |x|), key.pub.n)
    requires random[j] % 0x100_0000_0000 == 1
    ensures Cong(commitments[j], Pow(key.pub.s, x[j]) * Pow(key.pub.t, r[j]), key.pub.n)
  {
    var n, k, opening := key.pub.n, |x|, Openings(key.pub, x, r);
    var f := (i: nat) => if i < k then Pow(opening[i], random[i] % 0x100_0000_0000) else 1;
    var g := (i: nat) => if i < k then Pow(commitments[i], random[i] % 0x100_0000_0000) else 1;
    WeightedProductMeans(opening, random, k, f);
    WeightedProductMeans(commitments, random, k, g);
    forall i: nat | i < k && i != j ensures Unit(f(i), n) && Cong(f(i), g(i), n) {
      OpeningIsUnit(key, x[i], r[i]);
      UnitPow(opening[i], random[i] % 0x100_0000_0000, n);
      CongMod(Pow(key.pub.s, x[i]) * Pow(key.pub.t, r[i]), n);
      CongPow(opening[i], commitments[i], random[i] % 0x100_0000_0000, n);
    }
    ProdCancel(k, j, f, g, n);
    assert Pow(opening[j], 1) == opening[j] * Pow(opening[j], 0) == opening[j];
    assert Pow(commitments[j], 1) == commitments[j] * Pow(commitments[j], 0) == commitments[j];
    CongMod(Pow(key.pub.s, x[j]) * Pow(key.pub.t, r[j]), n);
  }

  lemma OpeningIsUnit(key: PrivateKey, x: nat, r: nat)
    requires ValidKey(key)
    ensures Unit(CreateCommitment(key.pub, x, r), key.pub.n)
  {
    var s, t, n := key.pub.s, key.pub.t, key.pub.n;
    ValidKeyUnits(key);
    UnitPow(s, x, n);
    UnitPow(t, r, n);
    UnitProduct(Pow(s, x), Pow(t, r), n);
    CongMod(Pow(s, x) * Pow(t, r), n);
    UnitCong(Pow(s, x) * Pow(t, r), CreateCommitment(key.pub, x, r), n);
  }

  lemma BatchAnswer(key: PrivateKey, x: seq<nat>, r: seq<nat>, commitments: seq<int>, random: seq<nat>, sum: nat, B: int)
    requires ValidKey(key) && |x| == |r| == |commitments| == |random|
    requires sum == WeightedExponent(key, x, r, random, |x|) && 0 <= B < key.pub.n
    requires Cong(B, WeightedProduct(commitments, random, |x|), key.pub.n)
    ensures ModExp(key.pub.t, sum % key.phi, key.pub.n) == B <==>
      Cong(WeightedProduct(commitments, random, |x|), WeightedProduct(Openings(key.pub, x, r), random, |x|), key.pub.n)
    ensures (forall i | 0 <= i < |x| :: commitments[i] == CreateCommitment(key.pub, x[i], r[i])) ==>
      commitments == Openings(key.pub, x, r)
  {
    CongMod(sum, key.phi);
    ReduceExponent(key.pub.t, sum % key.phi, sum, key.pub.n, key.phi);
    WeightedPower(key, x, r, random, |x|);
    ModUnique(B, 0, B, key.pub.n);
  }

  // ----- Proof of the parameters -----

  /** Challenges: one byte for each repetition, drawn from a generator seeded with the hash of the commitments. */
  type Challenge = seq<int> -> nat -> nat

  /** The verifier's equation of one repetition. */
  ghost predicate ProofEquation(pub: PublicKey, a: int, z: nat, e: nat)
    requires pub.n > 0
  {
    ModExp(pub.t, z, pub.n) == if e % 2 == 1 then MulMod(a, pub.s, pub.n) else a
  }

  /** The loops of ring_pedersen_parameters_zkp_generate; z holds the drawn numbers below phi. */
  method ParametersZkpGenerate(key: PrivateKey, challenge: Challenge, z: array<nat>) returns (a: array<int>)
    requires ValidKey(key) && forall i | 0 <= i < z.Length :: z[i] < key.phi
    modifies z
    ensures fresh(a) && a.Length == z.Length
    ensures a[..] == Powers(key.pub.t, key.pub.n, old(z[..]))
    ensures forall i | 0 <= i < z.Length :: ProofEquation(key.pub, a[i], z[i], challenge(a[..])(i))
  {
    a := new int[z.Length];
    var i := 0;
    while i < z.Length
      invariant 0 <= i <= z.Length
      invariant forall j | 0 <= j < i :: a[j] == ModExp(key.pub.t, z[j], key.pub.n)
      invariant unchanged(z)
    {
      a[i] := ModExp(key.pub.t, z[i], key.pub.n);
      i := i + 1;
    }
    ghost var drawn := z[..];
    ghost var sent := a[..];
    assert sent == Powers(key.pub.t, key.pub.n, drawn);
    i := 0;
    while i < z.Length
      invariant 0 <= i <= z.Length && a[..] == sent
      invariant forall j | i <= j < z.Length :: z[j] == drawn[j]
      invariant forall j | 0 <= j < i :: ProofEquation(key.pub, sent[j], z[j], challenge(sent)(j))
    {
      var e := challenge(a[..])(i);
      if e % 2 == 1 {
        AnswerHolds(key, drawn[i], sent[i]);
        z[i] := ModAddQuick(z[i], key.lambda, key.phi);
      }
      i := i + 1;
    }
  }

  lemma AnswerHolds(key: PrivateKey, z: nat, a: int)
    requires ValidKey(key) && z < key.phi && a == ModExp(key.pub.t, z, key.pub.n)
    ensures ModExp(key.pub.t, ModAddQuick(z, key.lambda, key.phi), key.pub.n) == MulMod(a, key.pub.s, key.pub.n)
  {
    var t, n, e := key.pub.t, key.pub.n, ModAddQuick(z, key.lambda, key.phi);
    CongMod(z + key.lambda, key.phi);
    ReduceExponent(t, e, z + key.lambda, n, key.phi);
    PowAdd(t, z, key.lambda);
    CongMod(Pow(t, z), n);
    CongMod(Pow(t, key.lambda), n);
    CongMul(a, Pow(t, z), key.pub.s, Pow(t, key.lambda), n);
  }

  /**
   ring_pedersen_parameters_zkp_verify accepts exactly when every equation holds and the parameters
   pass, for the odd n that the Montgomery form of a public key needs.
   */
  method ParametersZkpVerify(pub: PublicKey, challenge: Challenge, a: seq<int>, z: seq<nat>, nIsPrime: bool) returns (ok: bool)
    requires pub.n > 0 && pub.s >= 0 && pub.t >= 0 && |a| == |z|
    ensures ok <==>
      && !nIsPrime && Unit(pub.t, pub.n) && Unit(pub.s, pub.n)
      && forall i | 0 <= i < |z| :: ProofEquation(pub, a[i], z[i], challenge(a)(i))
    ensures ok ==> forall i | 0 <= i < |z| ::
      Pow(pub.t, z[i]) % pub.n == if challenge(a)(i) % 2 == 1 then (a[i] * pub.s) % pub.n else a[i]
  {
    CoprimeIsUnit(pub.t, pub.n);
    CoprimeIsUnit(pub.s, pub.n);
    if nIsPrime { return false; }
    var coprime := IsCoprimeFast(pub.n, pub.t);
    if !coprime { return false; }
    coprime := IsCoprimeFast(pub.n, pub.s);
    if !coprime { return false; }
    var i := 0;
    while i < |z|
      invariant 0 <= i <= |z|
      invariant forall j | 0 <= j < i :: ProofEquation(pub, a[j], z[j], challenge(a)(j))
    {
      var tPowZ := ModExp(pub.t, z[i], pub.n);
      var right := a[i];
      if challenge(a)(i) % 2 == 1 {
        right := MulMod(right, pub.s, pub.n);
      }
      if tPowZ != right {
        assert !ProofEquation(pub, a[i], z[i], challenge(a)(i));
        return false;
      }
      i := i + 1;
    }
    return true;
  }

  /** A valid key passes the coprimality checks, so its honest proof is accepted. */
  lemma ValidKeyUnits(key: PrivateKey)
    requires ValidKey(key)
    ensures Unit(key.pub.t, key.pub.n) && Unit(key.pub.s, key.pub.n)
  {
    UnitPow(key.pub.t, key.lambda, key.pub.n);
    CongMod(Pow(key.pub.t, key.lambda), key.pub.n);
    UnitCong(Pow(key.pub.t, key.lambda), key.pub.s, key.pub.n);
  }

  /** Generation followed by verification. */
  method ProveAndVerify(key: PrivateKey, challenge: Challenge, z: array<nat>, nIsPrime: bool) returns (ok: bool)
    requires ValidKey(key) && forall i | 0 <= i < z.Length :: z[i] < key.phi
    modifies z
    ensures ok <==> !nIsPrime
  {
    var a := ParametersZkpGenerate(key, challenge, z);
    ValidKeyUnits(key);
    ok := ParametersZkpVerify(key.pub, challenge, a[..], z[..], nIsPrime);
  }
}
