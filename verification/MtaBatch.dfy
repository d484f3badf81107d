/**
 mta.cpp: the verifier that accumulates the equations of many answers, each raised to small
 random weights, and checks only the products.
 */
module MtaBatch {
  import opened Modular
  import opened NumberTheory
  import opened Wrappers
  import opened Bytes
  import opened Curve
  import opened Sums
  import P = Paillier
  import R = RingPedersen
  import opened Mta
  import opened MtaProof
  import RsaGroup

  /** BATCH_STATISTICAL_SECURITY */
  const ROUNDS := 5

  /** The random bytes one answer consumes: two per round, and two for the ring-Pedersen equations. */
  datatype Weights = Weights(answer: seq<byte>, commitment: seq<byte>, ring1: byte, ring2: byte)

  ghost predicate ValidWeights(g: Weights) {
    |g.answer| == ROUNDS && |g.commitment| == ROUNDS
  }

  /** The accumulators as a value. */
  datatype State = State(
    mtaRo: seq<int>, mtaB: seq<int>, commitmentRo: seq<int>, commitmentB: seq<int>, pedersenExp: nat, pedersenB: int)

  ghost predicate ValidState(ctx: Context, st: State) {
    && |st.mtaRo| == |st.mtaB| == |st.commitmentRo| == |st.commitmentB| == ROUNDS
    && ctx.ownN > 1 && ctx.otherN > 1
    && (forall i | 0 <= i < ROUNDS :: 0 <= st.mtaB[i] < ctx.ownN * ctx.ownN && 0 <= st.commitmentB[i] < ctx.otherN * ctx.otherN)
    && 0 <= st.pedersenB < ctx.ring.pub.n
  }

  /** The equations verify() checks at the end. */
  ghost predicate Balanced(ctx: Context, st: State)
    requires ValidContext(ctx) && ValidState(ctx, st)
  {
    && (forall i | 0 <= i < ROUNDS :: Cong(Pow(st.mtaRo[i], ctx.ownN), st.mtaB[i], ctx.ownN * ctx.ownN))
    && (forall i | 0 <= i < ROUNDS :: Cong(Pow(st.commitmentRo[i], ctx.otherN), st.commitmentB[i], ctx.otherN * ctx.otherN))
    && Cong(Pow(ctx.ring.pub.t, st.pedersenExp), st.pedersenB, ctx.ring.pub.n)
  }

  // ----- What one answer contributes -----

  /** 1 - N*z modulo N^2, computed as N^2 - N*z + 1. */
  function Unmask(n: int, z: int): int {
    n * n - n * z + 1
  }

  /** D^e * C^-z1 * A * (1 - N*z2) modulo N^2, for an invertible C. */
  function AnswerFactor(n: int, inverse: int, message: int, A: int, z1: nat, z2: nat, e: nat): int
    requires n > 0
  {
    MulMod(MulMod(ModExp2(inverse, z1, message, e, n * n), A, n * n), Unmask(n, z2), n * n)
  }

  /** Y^e * By * (1 - N*z2) modulo N^2. */
  function CommitmentFactor(n: int, commitment: int, By: int, z2: nat, e: nat): int
    requires n > 0
  {
    MulMod(MulMod(ModExp(commitment, e, n * n), By, n * n), Unmask(n, z2), n * n)
  }

  /** The accumulators of one kind, each multiplied by a power of the base. */
  function Accumulated(acc: seq<int>, base: int, weights: seq<byte>, n2: int): (r: seq<int>)
    requires n2 > 0 && |acc| == |weights|
    ensures |r| == |acc|
  {
    seq(|acc|, i requires 0 <= i < |acc| => MulMod(acc[i], ModExp(base, weights[i], n2), n2))
  }

  /** first^weight * inner^(e*weight mod phi) modulo n. */
  function RingFactor(ring: R.PrivateKey, first: int, inner: int, e: nat, weight: nat): int
    requires ring.phi > 0 && ring.pub.n > 0
  {
    ModExp2(first, weight, inner, MulMod(weight, e, ring.phi), ring.pub.n)
  }

  /** The weighted exponent of t. */
  function RingTerm(ring: R.PrivateKey, z: nat, v: nat, weight: nat): nat
    requires ring.phi > 0
  {
    R.TrapdoorExponent(ring, z, v) * weight
  }

  /** The state after one answer. */
  function Step(ctx: Context, st: State, inverse: int, resp: Response, g: Weights): State
    requires ctx.ownN > 0 && ctx.otherN > 0 && ctx.ring.phi > 0 && ctx.ring.pub.n > 0 && Challenge(ctx, resp) >= 0
    requires |st.mtaRo| == |st.mtaB| == |g.answer| && |st.commitmentRo| == |st.commitmentB| == |g.commitment|
  {
    var p, f, e := resp.proof, resp.proof.first, Challenge(ctx, resp);
    var n2, m2 := ctx.ownN * ctx.ownN, ctx.otherN * ctx.otherN;
    var b := AnswerFactor(ctx.ownN, inverse, resp.message, f.A, p.z1, p.z2, e);
    var c := CommitmentFactor(ctx.otherN, resp.commitment, f.By, p.z2, e);
    var n := ctx.ring.pub.n;
    State(
      Accumulated(st.mtaRo, p.w, g.answer, n2), Accumulated(st.mtaB, b, g.answer, n2),
      Accumulated(st.commitmentRo, p.wy, g.commitment, m2), Accumulated(st.commitmentB, c, g.commitment, m2),
      st.pedersenExp + RingTerm(ctx.ring, p.z1, p.z3, g.ring1) + RingTerm(ctx.ring, p.z2, p.z4, g.ring2),
      MulMod(MulMod(st.pedersenB, RingFactor(ctx.ring, f.E, f.S, e, g.ring1), n),
             RingFactor(ctx.ring, f.F, f.T, e, g.ring2), n))
  }

  // ----- A single equation makes a balanced contribution -----

  /** The range check on z2 keeps N*z2 below N^2, so the unmasking factor is a positive number. */
  lemma {:induction false} UnmaskPositive(n: int, z2: nat)
    requires LargeEnough(n) && NumBytes(z2) <= Z2_BYTES
    ensures z2 < n && n * z2 < n * n && 0 < Unmask(n, z2) <= n * n + 1
  {
    if z2 >= n { BitsMonotone(n, z2); }
    MultipleGrows(n - z2, n);
    assert (n - z2) * n == n * n - n * z2;
    assert n * z2 >= 0;
  }

  /** What the single verifier accepts can only answer an invertible request: z1 is positive and D^e*A is invertible. */
  lemma RequestIsUnit(ctx: Context, request: nat, X: Point, resp: Response)
    requires ValidContext(ctx) && SingleAccepts(ctx, request, X, resp)
    ensures Unit(request, ctx.ownN)
  {
    var p, n, e := resp.proof, ctx.ownN, Challenge(ctx, resp);
    var left, right := Pow(request, p.z1) * P.EncryptValue(n, p.w, p.z2), Pow(resp.message, e) * p.first.A;
    UnitPow(resp.message, e, n);
    UnitProduct(Pow(resp.message, e), p.first.A, n);
    CongDivisor(left, right, n, n);
    UnitCong(right, left, n);
    UnitFactor(Pow(request, p.z1), P.EncryptValue(n, p.w, p.z2), n);
    UnitPowFactor(request, p.z1, n);
  }

  /** (1 + N*z)(1 - N*z) = 1 modulo N^2. */
  lemma UnmaskCancels(n: int, z: int)
    requires n > 0
    ensures Cong((1 + n * z) * Unmask(n, z), 1, n * n)
  {
    P.OnePlusProduct(n, z, -z);
    assert n * (z + -z) == 0;
    assert n * (-z) == -(n * z);
    CongBy(Unmask(n, z), 1 + n * (-z), 1, n * n);
    CongMul(1 + n * z, 1 + n * z, Unmask(n, z), 1 + n * (-z), n * n);
  }

  lemma UnmaskedEncryption(n: int, w: int, z: int)
    requires n > 0
    ensures Cong(P.EncryptValue(n, w, z) * Unmask(n, z), Pow(w, n), n * n)
  {
    P.EncryptValueCong(n, w, z);
    UnmaskCancels(n, z);
    Cancelled(P.EncryptValue(n, w, z), 1 + n * z, Pow(w, n), Unmask(n, z), n * n);
  }

  lemma Cancelled(c: int, m: int, p: int, u: int, n: int)
    requires n > 0 && Cong(c, m * p, n) && Cong(m * u, 1, n)
    ensures Cong(c * u, p, n)
  {
    CongMulLeft(c, m * p, u, n);
    assert (m * p) * u == (m * u) * p;
    CongMulLeft(m * u, 1, p, n);
  }

  /** (a*b)*c*u modulo n, from the reduced products. */
  lemma ReducedProduct(ab: int, a: int, b: int, c: int, u: int, n: int)
    requires n > 0 && Cong(ab, a * b, n)
    ensures Cong(MulMod(MulMod(ab, c, n), u, n), (a * (b * c)) * u, n)
  {
    CongMulMod(ab, a * b, c, c, n);
    CongMulMod(MulMod(ab, c, n), (a * b) * c, u, u, n);
    assert (a * b) * c == a * (b * c);
  }

  lemma AnswerFactorBalances(n: int, request: int, inverse: int, message: int, A: int, z1: nat, z2: nat, w: int, e: nat)
    requires n > 0 && InverseOf(request, inverse, n * n) && AnswerEquation(n, request, message, A, z1, z2, w, e)
    ensures Cong(AnswerFactor(n, inverse, message, A, z1, z2, e), Pow(w, n), n * n)
  {
    var ic, d, c := Pow(inverse, z1), Pow(message, e), Pow(request, z1);
    var enc, un := P.EncryptValue(n, w, z2), Unmask(n, z2);
    CongMod(ic * d, n * n);
    ReducedProduct(ModExp2(inverse, z1, message, e, n * n), ic, d, A, un, n * n);
    InversePower(request, inverse, z1, n * n);
    Inverted(ic, c, d * A, enc, un, n * n);
    UnmaskedEncryption(n, w, z2);
  }

  /** From c*enc = x follows ic*x = enc, for the inverse ic of c. */
  lemma Inverted(ic: int, c: int, x: int, enc: int, u: int, n: int)
    requires n > 0 && Cong(c * enc, x, n) && Cong(c * ic, 1, n)
    ensures Cong((ic * x) * u, enc * u, n)
  {
    CongMulLeft(c * enc, x, ic, n);
    assert (c * enc) * ic == (c * ic) * enc;
    CongMulLeft(c * ic, 1, enc, n);
    assert x * ic == ic * x;
    CongMulLeft(ic * x, enc, u, n);
  }

  lemma InversePower(c: int, inverse: int, z: nat, n: int)
    requires n > 0 && InverseOf(c, inverse, n)
    ensures Cong(Pow(c, z) * Pow(inverse, z), 1, n)
  {
    PowProduct(c, inverse, z);
    CongPow(c * inverse, 1, z, n);
    PowOne(z);
  }

  lemma CommitmentFactorBalances(n: int, commitment: int, By: int, z2: nat, wy: int, e: nat)
    requires n > 0 && CommitmentEquation(n, commitment, By, z2, wy, e)
    ensures Cong(CommitmentFactor(n, commitment, By, z2, e), Pow(wy, n), n * n)
  {
    var N, y, enc, un := n * n, Pow(commitment, e), P.EncryptValue(n, wy, z2), Unmask(n, z2);
    CongMod(y, N);
    CongMulMod(ModExp(commitment, e, N), y, By, By, N);
    CongMulMod(MulMod(ModExp(commitment, e, N), By, N), y * By, un, un, N);
    CongMulLeft(y * By, enc, un, N);
    UnmaskedEncryption(n, wy, z2);
  }

  /** Weighted contributions keep ro^N and B together. */
  lemma AccumulatedBalances(ro: int, b: int, w: int, factor: int, weight: nat, n: int)
    requires n > 0 && Cong(Pow(ro, n), b, n * n) && Cong(factor, Pow(w, n), n * n)
    ensures Cong(Pow(MulMod(ro, ModExp(w, weight, n * n), n * n), n), MulMod(b, ModExp(factor, weight, n * n), n * n), n * n)
  {
    var N := n * n;
    var r := MulMod(ro, ModExp(w, weight, N), N);
    CongMod(Pow(w, weight), N);
    CongMulMod(ro, ro, ModExp(w, weight, N), Pow(w, weight), N);
    CongPow(r, ro * Pow(w, weight), n, N);
    PowProduct(ro, Pow(w, weight), n);
    PowPow(w, weight, n);
    PowPow(w, n, weight);
    assert weight * n == n * weight;
    CongPow(factor, Pow(w, n), weight, N);
    CongMod(Pow(factor, weight), N);
    CongMul(Pow(ro, n), b, Pow(Pow(w, n), weight), ModExp(factor, weight, N), N);
    CongMod(b * ModExp(factor, weight, N), N);
  }

  /** Opening powers are invertible when the equation holds and the challenge is not zero. */
  lemma RingUnits(ring: R.PrivateKey, z: nat, v: nat, first: int, inner: int, e: nat)
    requires R.ValidKey(ring) && RingEquation(ring, z, v, first, inner, e) && e > 0
    ensures Unit(inner, ring.pub.n)
  {
    var t, n := ring.pub.t, ring.pub.n;
    UnitPow(t, R.TrapdoorExponent(ring, z, v), n);
    UnitCong(Pow(t, R.TrapdoorExponent(ring, z, v)), Pow(inner, e) * first, n);
    UnitFactor(Pow(inner, e), first, n);
    UnitPowFactor(inner, e, n);
  }

  /** inner may be raised to e*weight reduced modulo the totient. */
  lemma ReducedChallenge(ring: R.PrivateKey, z: nat, v: nat, first: int, inner: int, e: nat, weight: nat)
    requires R.ValidKey(ring) && RingEquation(ring, z, v, first, inner, e)
    ensures Cong(Pow(inner, MulMod(weight, e, ring.phi)), Pow(Pow(inner, e), weight), ring.pub.n)
  {
    PowPow(inner, e, weight);
    assert e * weight == weight * e;
    if e == 0 {
      assert weight * e == 0;
      ModUnique(0, 0, 0, ring.phi);
    } else {
      RingUnits(ring, z, v, first, inner, e);
      CongMod(weight * e, ring.phi);
      RsaGroup.ReduceExponent(inner, MulMod(weight, e, ring.phi), weight * e, ring.pub.n, ring.phi);
    }
  }

  lemma RingFactorBalances(ring: R.PrivateKey, z: nat, v: nat, first: int, inner: int, e: nat, weight: nat)
    requires R.ValidKey(ring) && RingEquation(ring, z, v, first, inner, e)
    ensures Cong(Pow(ring.pub.t, RingTerm(ring, z, v, weight)), RingFactor(ring, first, inner, e, weight), ring.pub.n)
  {
    var t, n, x := ring.pub.t, ring.pub.n, R.TrapdoorExponent(ring, z, v);
    PowPow(t, x, weight);
    CongPow(Pow(t, x), Pow(inner, e) * first, weight, n);
    PowProduct(Pow(inner, e), first, weight);
    ReducedChallenge(ring, z, v, first, inner, e, weight);
    var u := Pow(inner, MulMod(weight, e, ring.phi));
    CongMul(Pow(first, weight), Pow(first, weight), Pow(Pow(inner, e), weight), u, n);
    assert Pow(Pow(inner, e), weight) * Pow(first, weight) == Pow(first, weight) * Pow(Pow(inner, e), weight);
    CongMod(Pow(first, weight) * u, n);
  }

  lemma RingStepBalances(t: int, exp: nat, b: int, term1: nat, factor1: int, term2: nat, factor2: int, n: int)
    requires n > 0 && Cong(Pow(t, exp), b, n) && Cong(Pow(t, term1), factor1, n) && Cong(Pow(t, term2), factor2, n)
    ensures Cong(Pow(t, exp + term1 + term2), MulMod(MulMod(b, factor1, n), factor2, n), n)
  {
    PowAdd(t, exp, term1);
    PowAdd(t, exp + term1, term2);
    CongMul(Pow(t, exp), b, Pow(t, term1), factor1, n);
    CongMod(b * factor1, n);
    CongMul(Pow(t, exp + term1), MulMod(b, factor1, n), Pow(t, term2), factor2, n);
    CongMod(MulMod(b, factor1, n) * factor2, n);
  }

  lemma RingBalance(ring: R.PrivateKey, exp: nat, b: int, p: Proof, e: nat, g: Weights)
    requires R.ValidKey(ring)
    ensures
      && RingEquation(ring, p.z1, p.z3, p.first.E, p.first.S, e)
      && RingEquation(ring, p.z2, p.z4, p.first.F, p.first.T, e)
      && Cong(Pow(ring.pub.t, exp), b, ring.pub.n)
      ==> Cong(Pow(ring.pub.t, exp + RingTerm(ring, p.z1, p.z3, g.ring1) + RingTerm(ring, p.z2, p.z4, g.ring2)),
               MulMod(MulMod(b, RingFactor(ring, p.first.E, p.first.S, e, g.ring1), ring.pub.n),
                      RingFactor(ring, p.first.F, p.first.T, e, g.ring2), ring.pub.n), ring.pub.n)
  {
    if RingEquation(ring, p.z1, p.z3, p.first.E, p.first.S, e) && RingEquation(ring, p.z2, p.z4, p.first.F, p.first.T, e)
       && Cong(Pow(ring.pub.t, exp), b, ring.pub.n)
    {
      RingFactorBalances(ring, p.z1, p.z3, p.first.E, p.first.S, e, g.ring1);
      RingFactorBalances(ring, p.z2, p.z4, p.first.F, p.first.T, e, g.ring2);
      RingStepBalances(ring.pub.t, exp, b, RingTerm(ring, p.z1, p.z3, g.ring1), RingFactor(ring, p.first.E, p.first.S, e, g.ring1),
                       RingTerm(ring, p.z2, p.z4, g.ring2), RingFactor(ring, p.first.F, p.first.T, e, g.ring2), ring.pub.n);
    }
  }

  /** An answer the single verifier accepts keeps the accumulators balanced, whatever the weights. */
  lemma StepBalances(ctx: Context, st: State, request: nat, inverse: int, X: Point, resp: Response, g: Weights)
    requires ValidContext(ctx) && ValidState(ctx, st) && Balanced(ctx, st) && ValidWeights(g)
    requires SingleAccepts(ctx, request, X, resp) && InverseOf(request, inverse, ctx.ownN * ctx.ownN)
    ensures ValidState(ctx, Step(ctx, st, inverse, resp, g)) && Balanced(ctx, Step(ctx, st, inverse, resp, g))
  {
    var p, f, e := resp.proof, resp.proof.first, Challenge(ctx, resp);
    var b := AnswerFactor(ctx.ownN, inverse, resp.message, f.A, p.z1, p.z2, e);
    var c := CommitmentFactor(ctx.otherN, resp.commitment, f.By, p.z2, e);
    AnswerFactorBalances(ctx.ownN, request, inverse, resp.message, f.A, p.z1, p.z2, p.w, e);
    CommitmentFactorBalances(ctx.otherN, resp.commitment, f.By, p.z2, p.wy, e);
    forall i | 0 <= i < ROUNDS {
      AccumulatedBalances(st.mtaRo[i], st.mtaB[i], p.w, b, g.answer[i], ctx.ownN);
    }
    forall i | 0 <= i < ROUNDS {
      AccumulatedBalances(st.commitmentRo[i], st.commitmentB[i], p.wy, c, g.commitment[i], ctx.otherN);
    }
    RingBalance(ctx.ring, st.pedersenExp, st.pedersenB, p, e, g);
  }

  // ----- What a batch amounts to -----

  /** One answer with the request and the public point it belongs to. */
  datatype Item = Item(request: nat, X: Point, resp: Response)

  datatype Batch = Batch(items: seq<Item>, weights: seq<Weights>)

  ghost predicate ValidBatch(b: Batch) {
    |b.items| == |b.weights| && forall i | 0 <= i < |b.weights| :: ValidWeights(b.weights[i])
  }

  /** As much of a valid context as the sums and products need. */
  ghost predicate Positive(ctx: Context) {
    && ctx.ownN > 0 && ctx.otherN > 0 && ctx.q > 0 && ctx.ring.phi > 0 && ctx.ring.pub.n > 0
    && forall m, c, f :: 0 <= ctx.challenge(m, c, f)
  }

  /** What process looks at before it accumulates anything. */
  ghost predicate Processable(ctx: Context, item: Item)
    requires Positive(ctx)
  {
    var p := item.resp.proof;
    && Decodes(ctx, p) && InRange(p) && PointEquation(ctx, item.X, p, Challenge(ctx, item.resp))
    && ValidCiphertexts(ctx, item.resp) && Unit(item.request, ctx.ownN)
  }

  ghost predicate AllProcessable(ctx: Context, b: Batch, n: nat) {
    Positive(ctx) && n <= |b.items| && forall i | 0 <= i < n :: Processable(ctx, b.items[i])
  }

  ghost predicate Accepted(ctx: Context, b: Batch, i: nat)
    requires ValidContext(ctx) && i < |b.items|
  {
    SingleAccepts(ctx, b.items[i].request, b.items[i].X, b.items[i].resp)
  }

  /** The answer factor of an item. */
  ghost function ItemFactor(ctx: Context, item: Item): int
    requires Positive(ctx)
  {
    var p, inverse := item.resp.proof, ModInverse(item.request, ctx.ownN * ctx.ownN);
    AnswerFactor(ctx.ownN, if inverse.Some? then inverse.value else 0, item.resp.message, p.first.A, p.z1, p.z2, Challenge(ctx, item.resp))
  }

  ghost function ItemCommitment(ctx: Context, item: Item): int
    requires Positive(ctx)
  {
    CommitmentFactor(ctx.otherN, item.resp.commitment, item.resp.proof.first.By, item.resp.proof.z2, Challenge(ctx, item.resp))
  }

  /** The powers that the accumulators multiply up, by round and item. */
  ghost function Ros(b: Batch): nat -> nat -> int {
    (r: nat) => (i: nat) =>
      if i < |b.items| && i < |b.weights| && r < |b.weights[i].answer|
      then Pow(b.items[i].resp.proof.w, b.weights[i].answer[r]) else 1
  }

  ghost function Factors(ctx: Context, b: Batch): nat -> nat -> int
    requires Positive(ctx)
  {
    (r: nat) => (i: nat) =>
      if i < |b.items| && i < |b.weights| && r < |b.weights[i].answer|
      then Pow(ItemFactor(ctx, b.items[i]), b.weights[i].answer[r]) else 1
  }

  ghost function CommitmentRos(b: Batch): nat -> nat -> int {
    (r: nat) => (i: nat) =>
      if i < |b.items| && i < |b.weights| && r < |b.weights[i].commitment|
      then Pow(b.items[i].resp.proof.wy, b.weights[i].commitment[r]) else 1
  }

  ghost function CommitmentFactors(ctx: Context, b: Batch): nat -> nat -> int
    requires Positive(ctx)
  {
    (r: nat) => (i: nat) =>
      if i < |b.items| && i < |b.weights| && r < |b.weights[i].commitment|
      then Pow(ItemCommitment(ctx, b.items[i]), b.weights[i].commitment[r]) else 1
  }

  ghost function RingTerms(ctx: Context, b: Batch): nat -> int
    requires Positive(ctx)
  {
    (i: nat) => if i < |b.items| && i < |b.weights| then ItemTerm(ctx, b.items[i], b.weights[i]) else 0
  }

  ghost function RingFactors(ctx: Context, b: Batch): nat -> int
    requires Positive(ctx)
  {
    (i: nat) => if i < |b.items| && i < |b.weights| then ItemOpening(ctx, b.items[i], b.weights[i]) else 1
  }

  ghost function ItemTerm(ctx: Context, item: Item, g: Weights): nat
    requires Positive(ctx)
  {
    var p := item.resp.proof;
    RingTerm(ctx.ring, p.z1, p.z3, g.ring1) + RingTerm(ctx.ring, p.z2, p.z4, g.ring2)
  }

  ghost function ItemOpening(ctx: Context, item: Item, g: Weights): int
    requires Positive(ctx)
  {
    var f, e := item.resp.proof.first, Challenge(ctx, item.resp);
    RingFactor(ctx.ring, f.E, f.S, e, g.ring1) * RingFactor(ctx.ring, f.F, f.T, e, g.ring2)
  }

  /** In every round the accumulator holds the product of the first n powers. */
  ghost predicate Kept(acc: seq<int>, n: nat, powers: nat -> nat -> int, q: int)
    requires q > 0
  {
    forall r: nat | r < |acc| :: Cong(acc[r], Prod(n, powers(r)), q)
  }

  /** The accumulators after the first n items. */
  ghost predicate Products(ctx: Context, b: Batch, n: nat, st: State) {
    && Positive(ctx)
    && var n2, m2 := ctx.ownN * ctx.ownN, ctx.otherN * ctx.otherN;
    && Kept(st.mtaRo, n, Ros(b), n2) && Kept(st.mtaB, n, Factors(ctx, b), n2)
    && Kept(st.commitmentRo, n, CommitmentRos(b), m2) && Kept(st.commitmentB, n, CommitmentFactors(ctx, b), m2)
    && st.pedersenExp == Sum(n, RingTerms(ctx, b)) && Cong(st.pedersenB, Prod(n, RingFactors(ctx, b)), ctx.ring.pub.n)
  }

  /** In every round the N-th power of one product is the other. */
  ghost predicate Agree(count: nat, ros: nat -> nat -> int, factors: nat -> nat -> int, n: int)
    requires n > 0
  {
    forall r: nat | r < ROUNDS :: Cong(Pow(Prod(count, ros(r)), n), Prod(count, factors(r)), n * n)
  }

  ghost predicate OpeningsAgree(ctx: Context, b: Batch)
    requires Positive(ctx)
  {
    var exp := Sum(|b.items|, RingTerms(ctx, b));
    exp >= 0 && Cong(Pow(ctx.ring.pub.t, exp), Prod(|b.items|, RingFactors(ctx, b)), ctx.ring.pub.n)
  }

  /** The equations between the weighted products: answers, commitments and openings. */
  ghost predicate ProductsAgree(ctx: Context, b: Batch)
    requires Positive(ctx)
  {
    && Agree(|b.items|, Ros(b), Factors(ctx, b), ctx.ownN)
    && Agree(|b.items|, CommitmentRos(b), CommitmentFactors(ctx, b), ctx.otherN)
    && OpeningsAgree(ctx, b)
  }

  lemma {:induction false} NeutralProducts(ctx: Context, b: Batch, st: State)
    requires ValidContext(ctx) && ValidState(ctx, st) && st.pedersenExp == 0 && st.pedersenB == 1
    requires forall r | 0 <= r < ROUNDS :: st.mtaRo[r] == st.mtaB[r] == st.commitmentRo[r] == st.commitmentB[r] == 1
    ensures Products(ctx, b, 0, st)
  {
  }

  /** Item i has been processed and has moved the accumulators from st to next. */
  ghost predicate Taken(ctx: Context, b: Batch, i: nat, st: State, next: State) {
    && Positive(ctx) && ValidState(ctx, st) && i < |b.items| == |b.weights| && ValidWeights(b.weights[i])
    && Processable(ctx, b.items[i]) && ModInverse(b.items[i].request, ctx.ownN * ctx.ownN).Some?
    && next == Step(ctx, st, ModInverse(b.items[i].request, ctx.ownN * ctx.ownN).value, b.items[i].resp, b.weights[i])
  }

  ghost predicate AllTaken(ctx: Context, b: Batch, run: seq<State>) {
    forall i: nat | i + 1 < |run| :: Taken(ctx, b, i, run[i], run[i + 1])
  }

  lemma TakenProcessable(ctx: Context, b: Batch, run: seq<State>)
    requires ValidContext(ctx) && |run| == |b.items| + 1 && AllTaken(ctx, b, run)
    ensures AllProcessable(ctx, b, |b.items|)
  {
    forall i | 0 <= i < |b.items| ensures Processable(ctx, b.items[i]) { assert Taken(ctx, b, i, run[i], run[i + 1]); }
  }

  lemma {:induction false} TakenProducts(ctx: Context, b: Batch, run: seq<State>, n: nat)
    requires ValidContext(ctx) && ValidBatch(b) && n < |run| && AllTaken(ctx, b, run) && Products(ctx, b, 0, run[0])
    ensures Products(ctx, b, n, run[n])
  {
    if n > 0 {
      TakenProducts(ctx, b, run, n - 1);
      TakenStep(ctx, b, n - 1, run[n - 1], run[n]);
    }
  }

  lemma {:induction false} TakenStep(ctx: Context, b: Batch, i: nat, st: State, next: State)
    requires ValidContext(ctx) && ValidBatch(b) && Taken(ctx, b, i, st, next) && Products(ctx, b, i, st)
    ensures Products(ctx, b, i + 1, next)
  {
    ProductsStep(ctx, b, i, st, ModInverse(b.items[i].request, ctx.ownN * ctx.ownN).value);
  }

  lemma AccumulatedStep(acc: int, base: int, weight: nat, i: nat, f: nat -> int, n: int)
    requires n > 0 && Cong(acc, Prod(i, f), n) && f(i) == Pow(base, weight)
    ensures Cong(MulMod(acc, ModExp(base, weight, n), n), Prod(i + 1, f), n)
  {
    CongMod(Pow(base, weight), n);
    CongMulMod(acc, Prod(i, f), ModExp(base, weight, n), f(i), n);
  }

  lemma {:induction false} KeptStep(acc: seq<int>, base: int, weights: seq<byte>, i: nat, powers: nat -> nat -> int, n: int)
    requires n > 0 && |acc| == |weights| && Kept(acc, i, powers, n)
    requires forall r: nat | r < |weights| :: powers(r)(i) == Pow(base, weights[r])
    ensures Kept(Accumulated(acc, base, weights, n), i + 1, powers, n)
  {
    forall r: nat | r < |acc| ensures Cong(Accumulated(acc, base, weights, n)[r], Prod(i + 1, powers(r)), n) {
      AccumulatedStep(acc[r], base, weights[r], i, powers(r), n);
    }
  }

  lemma {:induction false} ProductsStep(ctx: Context, b: Batch, i: nat, st: State, inverse: int)
    requires ValidContext(ctx) && ValidBatch(b) && i < |b.items| && ValidState(ctx, st) && Products(ctx, b, i, st)
    requires ModInverse(b.items[i].request, ctx.ownN * ctx.ownN) == Some(inverse)
    ensures Products(ctx, b, i + 1, Step(ctx, st, inverse, b.items[i].resp, b.weights[i]))
  {
    var item, g, n2, m2 := b.items[i], b.weights[i], ctx.ownN * ctx.ownN, ctx.otherN * ctx.otherN;
    KeptStep(st.mtaRo, item.resp.proof.w, g.answer, i, Ros(b), n2);
    KeptStep(st.mtaB, ItemFactor(ctx, item), g.answer, i, Factors(ctx, b), n2);
    KeptStep(st.commitmentRo, item.resp.proof.wy, g.commitment, i, CommitmentRos(b), m2);
    KeptStep(st.commitmentB, ItemCommitment(ctx, item), g.commitment, i, CommitmentFactors(ctx, b), m2);
    var f, e := item.resp.proof.first, Challenge(ctx, item.resp);
    TwoFactors(st.pedersenB, Prod(i, RingFactors(ctx, b)), RingFactor(ctx.ring, f.E, f.S, e, g.ring1),
               RingFactor(ctx.ring, f.F, f.T, e, g.ring2), ctx.ring.pub.n);
  }

  lemma TwoFactors(acc: int, product: int, f1: int, f2: int, n: int)
    requires n > 0 && Cong(acc, product, n)
    ensures Cong(MulMod(MulMod(acc, f1, n), f2, n), product * (f1 * f2), n)
  {
    CongMulMod(acc, product, f1, f1, n);
    CongMulMod(MulMod(acc, f1, n), product * f1, f2, f2, n);
    assert product * f1 * f2 == product * (f1 * f2);
  }

  lemma {:induction false} KeptAgree(ros: seq<int>, acc: seq<int>, count: nat, f: nat -> nat -> int, g: nat -> nat -> int, n: int)
    requires n > 0 && |ros| == |acc| == ROUNDS && Kept(ros, count, f, n * n) && Kept(acc, count, g, n * n)
    ensures (forall r | 0 <= r < ROUNDS :: Cong(Pow(ros[r], n), acc[r], n * n)) <==> Agree(count, f, g, n)
  {
    forall r: nat | r < ROUNDS
      ensures Cong(Pow(ros[r], n), acc[r], n * n) <==> Cong(Pow(Prod(count, f(r)), n), Prod(count, g(r)), n * n)
    {
      SameBalance(ros[r], Prod(count, f(r)), acc[r], Prod(count, g(r)), n, n * n);
    }
  }

  lemma {:induction false} ProductsBalanced(ctx: Context, b: Batch, st: State)
    requires ValidContext(ctx) && ValidState(ctx, st) && Products(ctx, b, |b.items|, st)
    ensures Balanced(ctx, st) <==> ProductsAgree(ctx, b)
  {
    KeptAgree(st.mtaRo, st.mtaB, |b.items|, Ros(b), Factors(ctx, b), ctx.ownN);
    KeptAgree(st.commitmentRo, st.commitmentB, |b.items|, CommitmentRos(b), CommitmentFactors(ctx, b), ctx.otherN);
  }

  lemma SameBalance(ro: int, ro': int, acc: int, acc': int, e: nat, n: int)
    requires n > 0 && Cong(ro, ro', n) && Cong(acc, acc', n)
    ensures Cong(Pow(ro, e), acc, n) <==> Cong(Pow(ro', e), acc', n)
  {
    CongPow(ro, ro', e, n);
  }

  // ----- The accumulating verifier -----

  /** One of the weight loops: acc[i] := acc[i] * base^weight_i. */
  method Accumulate(acc: array<int>, base: int, weights: seq<byte>, n2: int)
    requires n2 > 0 && acc.Length == |weights|
    modifies acc
    ensures acc[..] == Accumulated(old(acc[..]), base, weights, n2)
  {
    var i := 0;
    while i < acc.Length
      invariant 0 <= i <= acc.Length
      invariant forall k | 0 <= k < i :: acc[k] == MulMod(old(acc[k]), ModExp(base, weights[k], n2), n2)
      invariant forall k | i <= k < acc.Length :: acc[k] == old(acc[k])
    {
      var power := ModExp(base, weights[i], n2);
      acc[i] := MulMod(acc[i], power, n2);
      i := i + 1;
    }
  }

  /** The factor of one answer. */
  method AnswerProduct(n: int, inverse: int, message: int, A: int, z1: nat, z2: nat, e: nat) returns (b: int)
    requires n > 0
    ensures b == AnswerFactor(n, inverse, message, A, z1, z2, e)
  {
    var n2 := n * n;
    var tmp1 := ModExp2(inverse, z1, message, e, n2);
    var tmp2 := n * z2;
    tmp2 := n2 - tmp2;
    tmp2 := tmp2 + 1;
    tmp1 := MulMod(tmp1, A, n2);
    b := MulMod(tmp1, tmp2, n2);
  }

  /** The factor of one commitment. */
  method CommitmentProduct(n: int, commitment: int, By: int, z2: nat, e: nat) returns (b: int)
    requires n > 0
    ensures b == CommitmentFactor(n, commitment, By, z2, e)
  {
    var n2 := n * n;
    var tmp1 := ModExp(commitment, e, n2);
    tmp1 := MulMod(tmp1, By, n2);
    var tmp2 := n * z2;
    tmp2 := n2 - tmp2;
    tmp2 := tmp2 + 1;
    b := MulMod(tmp1, tmp2, n2);
  }

  /** batch_response_verifier */
  class BatchVerifier {
    const ctx: Context
    const mtaRo: array<int>
    const mtaB: array<int>
    const commitmentRo: array<int>
    const commitmentB: array<int>
    var pedersenExp: nat
    var pedersenB: int

    ghost predicate Arrays()
      reads this
    {
      && mtaRo.Length == mtaB.Length == commitmentRo.Length == commitmentB.Length == ROUNDS
      && mtaRo != mtaB && mtaRo != commitmentRo && mtaRo != commitmentB
      && mtaB != commitmentRo && mtaB != commitmentB && commitmentRo != commitmentB
    }

    ghost function Value(): State
      reads this, mtaRo, mtaB, commitmentRo, commitmentB
    {
      State(mtaRo[..], mtaB[..], commitmentRo[..], commitmentB[..], pedersenExp, pedersenB)
    }

    ghost predicate Valid()
      reads this, mtaRo, mtaB, commitmentRo, commitmentB
    {
      Arrays() && ValidContext(ctx) && ValidState(ctx, Value())
    }

    /** The accumulators hold st. */
    ghost predicate At(st: State)
      reads this, mtaRo, mtaB, commitmentRo, commitmentB
    {
      Valid() && Value() == st
    }

    constructor (ctx: Context)
      requires ValidContext(ctx)
      ensures Valid() && this.ctx == ctx && Balanced(ctx, Value())
      ensures forall r | 0 <= r < ROUNDS :: mtaRo[r] == mtaB[r] == commitmentRo[r] == commitmentB[r] == 1
      ensures pedersenExp == 0 && pedersenB == 1
      ensures fresh(mtaRo) && fresh(mtaB) && fresh(commitmentRo) && fresh(commitmentB)
    {
      this.ctx := ctx;
      mtaRo := new int[ROUNDS](_ => 1);
      mtaB := new int[ROUNDS](_ => 1);
      commitmentRo := new int[ROUNDS](_ => 1);
      commitmentB := new int[ROUNDS](_ => 1);
      pedersenExp, pedersenB := 0, 1;
      new;
      PowOne(ctx.ownN);
      PowOne(ctx.otherN);
      SquareAboveOne(ctx.ownN);
      SquareAboveOne(ctx.otherN);
      RsaGroup.RsaFacts(ctx.ring.pub.n, ctx.ring.phi);
    }

    /** process_paillier: the four weight loops. */
    method ProcessPaillier(e: nat, request: nat, resp: Response, g: Weights) returns (error: Option<Error>, ghost inverse: int)
      requires Valid() && ValidWeights(g) && e == Challenge(ctx, resp)
      modifies mtaRo, mtaB, commitmentRo, commitmentB
      ensures Arrays()
      ensures error.None? <==> ValidCiphertexts(ctx, resp) && Unit(request, ctx.ownN * ctx.ownN)
      ensures error.Some? ==> Value() == old(Value())
      ensures error.None? ==> ModInverse(request, ctx.ownN * ctx.ownN) == Some(inverse)
      ensures error.None? ==>
        var next := Step(ctx, old(Value()), inverse, resp, g);
        && mtaRo[..] == next.mtaRo && mtaB[..] == next.mtaB
        && commitmentRo[..] == next.commitmentRo && commitmentB[..] == next.commitmentB
    {
      inverse := 0;
      var p, f := resp.proof, resp.proof.first;
      var ok := CheckCiphertexts(ctx, resp);
      if !ok { return Some(InvalidParameter), inverse; }
      var n2, m2 := ctx.ownN * ctx.ownN, ctx.otherN * ctx.otherN;
      var inv := ModInverse(request, n2);
      if inv.None? { return Some(InternalError), inverse; }
      inverse := inv.value;
      var b := AnswerProduct(ctx.ownN, inv.value, resp.message, f.A, p.z1, p.z2, e);
      Accumulate(mtaB, b, g.answer, n2);
      Accumulate(mtaRo, p.w, g.answer, n2);
      var c := CommitmentProduct(ctx.otherN, resp.commitment, f.By, p.z2, e);
      Accumulate(commitmentB, c, g.commitment, m2);
      Accumulate(commitmentRo, p.wy, g.commitment, m2);
      return None, inverse;
    }

    /**
     process_ring_pedersen. Openings that satisfy their equations keep t to the accumulated exponent
     equal to the accumulated product.
     */
    method ProcessRingPedersen(e: nat, p: Proof, g: Weights)
      requires R.ValidKey(ctx.ring) && 0 <= pedersenB < ctx.ring.pub.n
      modifies this
      ensures pedersenExp == old(pedersenExp) + RingTerm(ctx.ring, p.z1, p.z3, g.ring1) + RingTerm(ctx.ring, p.z2, p.z4, g.ring2)
      ensures pedersenB == MulMod(MulMod(old(pedersenB), RingFactor(ctx.ring, p.first.E, p.first.S, e, g.ring1), ctx.ring.pub.n),
                                  RingFactor(ctx.ring, p.first.F, p.first.T, e, g.ring2), ctx.ring.pub.n)
      ensures
        && RingEquation(ctx.ring, p.z1, p.z3, p.first.E, p.first.S, e)
        && RingEquation(ctx.ring, p.z2, p.z4, p.first.F, p.first.T, e)
        && Cong(Pow(ctx.ring.pub.t, old(pedersenExp)), old(pedersenB), ctx.ring.pub.n)
        ==> Cong(Pow(ctx.ring.pub.t, pedersenExp), pedersenB, ctx.ring.pub.n)
    {
      ghost var exp, b := pedersenExp, pedersenB;
      AddOpening(e, p.z1, p.z3, p.first.E, p.first.S, g.ring1);
      AddOpening(e, p.z2, p.z4, p.first.F, p.first.T, g.ring2);
      RingBalance(ctx.ring, exp, b, p, e, g);
    }

    /** One of its two equations, s^z * t^v == first * inner^e, with its weight. */
    method AddOpening(e: nat, z: nat, v: nat, first: nat, inner: nat, weight: byte)
      requires R.ValidKey(ctx.ring) && ctx.ring.phi > 0 && ctx.ring.pub.n > 0
      modifies this
      ensures pedersenExp == old(pedersenExp) + RingTerm(ctx.ring, z, v, weight)
      ensures pedersenB == MulMod(old(pedersenB), RingFactor(ctx.ring, first, inner, e, weight), ctx.ring.pub.n)
    {
      var tmp1: nat := MulMod(ctx.ring.lambda, z, ctx.ring.phi);
      tmp1 := (tmp1 + v) % ctx.ring.phi;
      assert tmp1 == R.TrapdoorExponent(ctx.ring, z, v);
      tmp1 := tmp1 * weight;
      pedersenExp := pedersenExp + tmp1;
      tmp1 := weight;
      var tmp2: nat := MulMod(tmp1, e, ctx.ring.phi);
      tmp1 := ModExp2(first, tmp1, inner, tmp2, ctx.ring.pub.n);
      pedersenB := MulMod(pedersenB, tmp1, ctx.ring.pub.n);
    }

    /**
     process. What the single verifier accepts is not refused, and it keeps the accumulators balanced.
     */
    method Process(request: nat, X: Point, resp: Response, g: Weights) returns (error: Option<Error>, ghost inverse: int)
      requires Valid() && ValidWeights(g)
      modifies this, mtaRo, mtaB, commitmentRo, commitmentB
      ensures Valid()
      ensures error.Some? ==> Value() == old(Value())
      ensures error.None? ==> Value() == Step(ctx, old(Value()), inverse, resp, g)
      ensures error.None? ==> ModInverse(request, ctx.ownN * ctx.ownN) == Some(inverse)
      ensures error.None? <==> Processable(ctx, Item(request, X, resp))
      ensures SingleAccepts(ctx, request, X, resp) ==> error.None?
      ensures SingleAccepts(ctx, request, X, resp) && error.None? && old(Balanced(ctx, Value())) ==> Balanced(ctx, Value())
    {
      ghost var before := Value();
      inverse := 0;
      var p := resp.proof;
      if !Decodes(ctx, p) { return Some(InvalidParameter), inverse; }
      if !InRange(p) { return Some(InvalidParameter), inverse; }
      var e := Challenge(ctx, resp);
      if p.z1 == 0 { return Some(InternalError), inverse; }
      if !PointEquation(ctx, X, p, e) { return Some(InvalidParameter), inverse; }
      UnitOfSquare(request, ctx.ownN);
      if SingleAccepts(ctx, request, X, resp) { RequestIsUnit(ctx, request, X, resp); }
      error, inverse := ProcessPaillier(e, request, resp, g);
      if error.Some? {
        return;
      }
      ProcessRingPedersen(e, p, g);
      StepValid(ctx, before, inverse, resp, g);
      if SingleAccepts(ctx, request, X, resp) && Balanced(ctx, before) {
        StepBalances(ctx, before, request, inverse, X, resp, g);
      }
    }

    /** process on one more item of a batch; st and next are the accumulators before and after. */
    method ProcessItem(b: Batch, i: nat, ghost st: State) returns (error: Option<Error>, ghost next: State)
      requires At(st) && ValidBatch(b) && i < |b.items|
      modifies this, mtaRo, mtaB, commitmentRo, commitmentB
      ensures At(next)
      ensures error.Some? ==> !Processable(ctx, b.items[i])
      ensures error.None? ==> Taken(ctx, b, i, st, next)
    {
      ghost var inverse;
      error, inverse := Process(b.items[i].request, b.items[i].X, b.items[i].resp, b.weights[i]);
      next := Value();
    }

    /** process on all items of a batch, up to the first that is refused; run has the accumulators before each item and at the end. */
    method ProcessAll(b: Batch) returns (refused: Option<nat>, ghost run: seq<State>)
      requires Valid() && ValidBatch(b)
      modifies this, mtaRo, mtaB, commitmentRo, commitmentB
      ensures Valid()
      ensures refused.Some? ==> refused.value < |b.items| && !Processable(ctx, b.items[refused.value])
      ensures refused.None? ==> |run| == |b.items| + 1 && run[0] == old(Value()) && run[|b.items|] == Value() && AllTaken(ctx, b, run)
    {
      run := [Value()];
      var i := 0;
      while i < |b.items|
        invariant 0 <= i <= |b.items| && |run| == i + 1 && run[0] == old(Value()) && At(run[i])
        invariant AllTaken(ctx, b, run)
      {
        var error;
        ghost var next;
        error, next := ProcessItem(b, i, run[i]);
        if error.Some? { return Some(i), run; }
        run := run + [next];
        i := i + 1;
      }
      return None, run;
    }

    /** verify accepts exactly when the accumulators are balanced. */
    method Verify() returns (ok: bool)
      requires Valid()
      modifies `pedersenExp
      ensures ok <==> old(Balanced(ctx, Value()))
    {
      var n2, m2 := ctx.ownN * ctx.ownN, ctx.otherN * ctx.otherN;
      var i := 0;
      while i < ROUNDS
        invariant 0 <= i <= ROUNDS
        invariant forall k | 0 <= k < i :: Cong(Pow(mtaRo[k], ctx.ownN), mtaB[k], n2)
        invariant forall k | 0 <= k < i :: Cong(Pow(commitmentRo[k], ctx.otherN), commitmentB[k], m2)
        invariant pedersenExp == old(pedersenExp)
      {
        ModUnique(mtaB[i], 0, mtaB[i], n2);
        ModUnique(commitmentB[i], 0, commitmentB[i], m2);
        if ModExp(mtaRo[i], ctx.ownN, n2) != mtaB[i] { return false; }
        if ModExp(commitmentRo[i], ctx.otherN, m2) != commitmentB[i] { return false; }
        i := i + 1;
      }
      PedersenAnswer(ctx.ring, pedersenExp, pedersenB);
      pedersenExp := pedersenExp % ctx.ring.phi;
      var power := ModExp(ctx.ring.pub.t, pedersenExp, ctx.ring.pub.n);
      pedersenExp := power;
      return power == pedersenB;
    }
  }

  lemma SquareAboveOne(n: int)
    requires n > 1
    ensures n * n > 1
  {
    assert n * n == n + n * (n - 1);
    assert n * (n - 1) >= 0;
  }

  lemma UnitOfSquare(a: int, n: int)
    requires n > 0
    ensures Unit(a, n * n) <==> Unit(a, n)
  {
    if Unit(a, n) { UnitSquare(a, n); }
    if Unit(a, n * n) { UnitDivisor(a, n, n); }
  }

  lemma StepValid(ctx: Context, st: State, inverse: int, resp: Response, g: Weights)
    requires ValidContext(ctx) && ValidState(ctx, st) && ValidWeights(g)
    ensures ValidState(ctx, Step(ctx, st, inverse, resp, g))
  {
  }

  lemma PedersenAnswer(ring: R.PrivateKey, exp: nat, b: int)
    requires R.ValidKey(ring) && 0 <= b < ring.pub.n
    ensures ModExp(ring.pub.t, exp % ring.phi, ring.pub.n) == b <==> Cong(Pow(ring.pub.t, exp), b, ring.pub.n)
  {
    CongMod(exp, ring.phi);
    RsaGroup.ReduceExponent(ring.pub.t, exp % ring.phi, exp, ring.pub.n, ring.phi);
    ModUnique(b, 0, b, ring.pub.n);
  }

  // ----- The batch against the single verifier -----

  // ----- Completeness -----

  /** What an accepted item multiplies up agrees. */
  lemma AcceptedItem(ctx: Context, item: Item)
    requires ValidContext(ctx) && SingleAccepts(ctx, item.request, item.X, item.resp)
    ensures Processable(ctx, item)
    ensures Unit(item.resp.proof.w, ctx.ownN) && Cong(Pow(item.resp.proof.w, ctx.ownN), ItemFactor(ctx, item), ctx.ownN * ctx.ownN)
    ensures Unit(item.resp.proof.wy, ctx.otherN)
    ensures Cong(Pow(item.resp.proof.wy, ctx.otherN), ItemCommitment(ctx, item), ctx.otherN * ctx.otherN)
  {
    var p, n, e := item.resp.proof, ctx.ownN, Challenge(ctx, item.resp);
    RequestIsUnit(ctx, item.request, item.X, item.resp);
    UnitOfSquare(item.request, n);
    AnswerFactorBalances(n, item.request, ModInverse(item.request, n * n).value, item.resp.message, p.first.A, p.z1, p.z2, p.w, e);
    CommitmentFactorBalances(ctx.otherN, item.resp.commitment, p.first.By, p.z2, p.wy, e);
  }

  lemma AcceptedOpening(ctx: Context, item: Item, g: Weights)
    requires ValidContext(ctx) && SingleAccepts(ctx, item.request, item.X, item.resp)
    ensures Cong(Pow(ctx.ring.pub.t, ItemTerm(ctx, item, g)), ItemOpening(ctx, item, g), ctx.ring.pub.n)
  {
    var p, f, e, t, n := item.resp.proof, item.resp.proof.first, Challenge(ctx, item.resp), ctx.ring.pub.t, ctx.ring.pub.n;
    RingFactorBalances(ctx.ring, p.z1, p.z3, f.E, f.S, e, g.ring1);
    RingFactorBalances(ctx.ring, p.z2, p.z4, f.F, f.T, e, g.ring2);
    PowAdd(t, RingTerm(ctx.ring, p.z1, p.z3, g.ring1), RingTerm(ctx.ring, p.z2, p.z4, g.ring2));
    CongMul(Pow(t, RingTerm(ctx.ring, p.z1, p.z3, g.ring1)), RingFactor(ctx.ring, f.E, f.S, e, g.ring1),
            Pow(t, RingTerm(ctx.ring, p.z2, p.z4, g.ring2)), RingFactor(ctx.ring, f.F, f.T, e, g.ring2), n);
  }

  lemma PowersAgree(w: int, factor: int, weight: nat, n: nat)
    requires n > 0 && Cong(Pow(w, n), factor, n * n)
    ensures Cong(Pow(Pow(w, weight), n), Pow(factor, weight), n * n)
  {
    PowPow(w, weight, n);
    PowPow(w, n, weight);
    assert weight * n == n * weight;
    CongPow(Pow(w, n), factor, weight, n * n);
  }

  /** If the powers agree item by item, the products do. */
  lemma {:induction false} ItemsAgree(count: nat, f: nat -> nat -> int, g: nat -> nat -> int, n: nat)
    requires n > 0 && forall r: nat, i: nat | r < ROUNDS && i < count :: Cong(Pow(f(r)(i), n), g(r)(i), n * n)
    ensures Agree(count, f, g, n)
  {
    forall r: nat | r < ROUNDS ensures Cong(Pow(Prod(count, f(r)), n), Prod(count, g(r)), n * n) {
      var powers := (i: nat) => Pow(f(r)(i), n);
      ProdPow(count, f(r), powers, n);
      ProdCong(count, powers, g(r), n * n);
    }
  }

  lemma {:induction false} AcceptedAgree(ctx: Context, b: Batch)
    requires ValidContext(ctx) && ValidBatch(b) && forall i | 0 <= i < |b.items| :: Accepted(ctx, b, i)
    ensures AllProcessable(ctx, b, |b.items|) && ProductsAgree(ctx, b)
  {
    forall i | 0 <= i < |b.items| ensures Processable(ctx, b.items[i]) {
      assert Accepted(ctx, b, i);
      AcceptedItem(ctx, b.items[i]);
    }
    forall r: nat, i: nat | r < ROUNDS && i < |b.items|
      ensures Cong(Pow(Ros(b)(r)(i), ctx.ownN), Factors(ctx, b)(r)(i), ctx.ownN * ctx.ownN)
      ensures Cong(Pow(CommitmentRos(b)(r)(i), ctx.otherN), CommitmentFactors(ctx, b)(r)(i), ctx.otherN * ctx.otherN)
    {
      assert Accepted(ctx, b, i);
      AcceptedItem(ctx, b.items[i]);
      PowersAgree(b.items[i].resp.proof.w, ItemFactor(ctx, b.items[i]), b.weights[i].answer[r], ctx.ownN);
      PowersAgree(b.items[i].resp.proof.wy, ItemCommitment(ctx, b.items[i]), b.weights[i].commitment[r], ctx.otherN);
    }
    ItemsAgree(|b.items|, Ros(b), Factors(ctx, b), ctx.ownN);
    ItemsAgree(|b.items|, CommitmentRos(b), CommitmentFactors(ctx, b), ctx.otherN);
    AcceptedOpenings(ctx, b);
  }

  lemma {:induction false} AcceptedOpenings(ctx: Context, b: Batch)
    requires ValidContext(ctx) && ValidBatch(b) && forall i | 0 <= i < |b.items| :: Accepted(ctx, b, i)
    ensures OpeningsAgree(ctx, b)
  {
    var k, t := |b.items|, ctx.ring.pub.t;
    var powers := (i: nat) => if RingTerms(ctx, b)(i) >= 0 then Pow(t, RingTerms(ctx, b)(i)) else 0;
    forall i: nat | i < k ensures RingTerms(ctx, b)(i) >= 0 && Cong(powers(i), RingFactors(ctx, b)(i), ctx.ring.pub.n) {
      assert Accepted(ctx, b, i);
      AcceptedOpening(ctx, b.items[i], b.weights[i]);
    }
    PowSum(t, k, RingTerms(ctx, b), powers);
    ProdCong(k, powers, RingFactors(ctx, b), ctx.ring.pub.n);
  }

  // ----- Soundness -----

  /** An answer factor that balances comes from an answer that satisfies its equation. */
  lemma AnswerConverse(n: int, request: int, inverse: int, message: int, A: int, z1: nat, z2: nat, w: int, e: nat)
    requires n > 0 && InverseOf(request, inverse, n * n) && Unit(message, n) && Unit(A, n)
    requires Cong(Pow(w, n), AnswerFactor(n, inverse, message, A, z1, z2, e), n * n)
    ensures AnswerEquation(n, request, message, A, z1, z2, w, e)
  {
    var N, ic, d, c, un := n * n, Pow(inverse, z1), Pow(message, e), Pow(request, z1), Unmask(n, z2);
    CongMod(ic * d, N);
    ReducedProduct(ModExp2(inverse, z1, message, e, N), ic, d, A, un, N);
    InversePower(request, inverse, z1, N);
    UnmaskCancels(n, z2);
    Unfactored(Pow(w, n), c, 1 + n * z2, ic, d * A, un, N);
    UnitPow(message, e, n);
    UnitProduct(d, A, n);
    UnitOfPower(c, 1 + n * z2, w, d * A, n);
    AnswerMeans(n, request, message, A, z1, z2, w, e);
  }

  /** From p = (ic*x)*un follows c*(u*p) = x, where ic inverts c and un inverts u. */
  lemma Unfactored(p: int, c: int, u: int, ic: int, x: int, un: int, n: int)
    requires n > 0 && Cong(p, (ic * x) * un, n) && Cong(c * ic, 1, n) && Cong(u * un, 1, n)
    ensures Cong(c * (u * p), x, n)
  {
    CongMulLeft(p, (ic * x) * un, c * u, n);
    assert c * (u * p) == p * (c * u);
    assert ((ic * x) * un) * (c * u) == ((c * ic) * (u * un)) * x by { Gathered(ic, x, un, c, u); }
    CongMul(c * ic, 1, u * un, 1, n);
    CongMulLeft((c * ic) * (u * un), 1, x, n);
  }

  lemma Gathered(ic: int, x: int, un: int, c: int, u: int)
    ensures ((ic * x) * un) * (c * u) == ((c * ic) * (u * un)) * x
  {
    FourFactors(c, u, ic, un);
    assert (ic * x) * un == (ic * un) * x;
    assert ((ic * un) * x) * (c * u) == ((c * u) * (ic * un)) * x;
  }

  lemma UnitOfPower(c: int, u: int, w: int, x: int, n: int)
    requires n > 0 && Cong(c * (u * Pow(w, n)), x, n * n) && Unit(x, n)
    ensures Unit(w, n)
  {
    CongDivisor(c * (u * Pow(w, n)), x, n, n);
    UnitCong(x, c * (u * Pow(w, n)), n);
    UnitFactor(c, u * Pow(w, n), n);
    UnitFactor(u, Pow(w, n), n);
    UnitPowFactor(w, n, n);
  }

  lemma CommitmentConverse(n: int, commitment: int, By: int, z2: nat, wy: int, e: nat)
    requires n > 0 && Unit(commitment, n) && Unit(By, n)
    requires Cong(Pow(wy, n), CommitmentFactor(n, commitment, By, z2, e), n * n)
    ensures CommitmentEquation(n, commitment, By, z2, wy, e)
  {
    var N, y, un := n * n, Pow(commitment, e), Unmask(n, z2);
    CongMod(y, N);
    CongMulMod(ModExp(commitment, e, N), y, By, By, N);
    CongMulMod(MulMod(ModExp(commitment, e, N), By, N), y * By, un, un, N);
    UnmaskCancels(n, z2);
    Unfactored(Pow(wy, n), 1, 1 + n * z2, 1, y * By, un, N);
    UnitPow(commitment, e, n);
    UnitProduct(y, By, n);
    UnitOfPower(1, 1 + n * z2, wy, y * By, n);
    CommitmentMeans(n, commitment, By, z2, wy, e);
  }

  lemma {:induction false} TotientLarge(ring: R.PrivateKey, e: nat)
    requires R.ValidKey(ring) && NumBits(ring.pub.n) > 1016 && NumBits(e) <= 256
    ensures e < ring.phi
  {
    var p, q :| RsaGroup.Factored(p, q, ring.pub.n, ring.phi);
    QuarterBelow(p, q);
    TwoMoreBits(e);
    if ring.phi <= e { BitsMonotone(ring.pub.n, 4 * e); }
  }

  lemma TwoMoreBits(e: nat)
    ensures NumBits(4 * e) <= NumBits(e) + 2
  {
    assert 4 * e / 2 == 2 * e && 2 * e / 2 == e;
  }

  lemma QuarterBelow(p: int, q: int)
    requires p >= 2 && q >= 2
    ensures p * q <= 4 * ((p - 1) * (q - 1))
  {
    assert 4 * ((p - 1) * (q - 1)) == (2 * (p - 1)) * (2 * (q - 1));
    assert (2 * (p - 1)) * (2 * (q - 1)) == p * q + (p - 2) * (2 * (q - 1)) + p * (q - 2);
    MultipleGrows(p - 2, 2 * (q - 1));
    MultipleGrows(q - 2, p);
  }

  /** One opening with weight 1, the other with weight 0. */
  lemma OpeningConverse(ring: R.PrivateKey, z: nat, v: nat, first: int, inner: int, e: nat, term: int, rest: int)
    requires R.ValidKey(ring) && e < ring.phi && term == RingTerm(ring, z, v, 1) && Cong(rest, 1, ring.pub.n)
    requires Cong(Pow(ring.pub.t, term), RingFactor(ring, first, inner, e, 1) * rest, ring.pub.n)
    ensures RingEquation(ring, z, v, first, inner, e)
  {
    var n := ring.pub.n;
    ModUnique(1 * e, 0, e, ring.phi);
    assert Pow(first, 1) == first * Pow(first, 0) == first;
    CongMod(first * Pow(inner, e), n);
    CongMul(RingFactor(ring, first, inner, e, 1), first * Pow(inner, e), rest, 1, n);
    assert first * Pow(inner, e) == Pow(inner, e) * first;
  }

  lemma UnusedOpening(ring: R.PrivateKey, first: int, inner: int, e: nat)
    requires R.ValidKey(ring)
    ensures Cong(RingFactor(ring, first, inner, e, 0), 1, ring.pub.n)
  {
    ModUnique(0 * e, 0, 0, ring.phi);
    CongMod(1, ring.pub.n);
  }

  ghost predicate OthersAccepted(ctx: Context, b: Batch, j: nat)
    requires ValidContext(ctx)
  {
    forall i | 0 <= i < |b.items| && i != j :: Accepted(ctx, b, i)
  }

  /** If all powers but those of item j agree and are invertible, and item j has weight 1 in round r, then its two factors agree. */
  lemma {:induction false} OneLeft(count: nat, j: nat, r: nat, f: nat -> nat -> int, g: nat -> nat -> int, w: int, factor: int, n: nat)
    requires n > 0 && j < count && r < ROUNDS && Agree(count, f, g, n) && f(r)(j) == Pow(w, 1) && g(r)(j) == Pow(factor, 1)
    requires forall i: nat | i < count && i != j :: Unit(f(r)(i), n * n) && Cong(Pow(f(r)(i), n), g(r)(i), n * n)
    ensures Cong(Pow(w, n), factor, n * n)
  {
    var powers := (i: nat) => Pow(f(r)(i), n);
    ProdPow(count, f(r), powers, n);
    forall i: nat | i < count && i != j ensures Unit(powers(i), n * n) { UnitPow(f(r)(i), n, n * n); }
    ProdCancel(count, j, powers, g(r), n * n);
    assert Pow(w, 1) == w * Pow(w, 0) == w && Pow(factor, 1) == factor * Pow(factor, 0) == factor;
  }

  /** A batch that passes, with one answer weighed 1 among accepted ones: the answer satisfies its equation. */
  lemma {:induction false} AnswerSound(ctx: Context, b: Batch, j: nat, r: nat)
    requires ValidContext(ctx) && ValidBatch(b) && j < |b.items| && r < ROUNDS && OthersAccepted(ctx, b, j)
    requires Processable(ctx, b.items[j]) && ProductsAgree(ctx, b) && b.weights[j].answer[r] == 1
    ensures var resp := b.items[j].resp;
      AnswerEquation(ctx.ownN, b.items[j].request, resp.message, resp.proof.first.A, resp.proof.z1, resp.proof.z2, resp.proof.w, Challenge(ctx, resp))
  {
    var n, item := ctx.ownN, b.items[j];
    forall i: nat | i < |b.items| && i != j
      ensures Unit(Ros(b)(r)(i), n * n) && Cong(Pow(Ros(b)(r)(i), n), Factors(ctx, b)(r)(i), n * n)
    {
      assert Accepted(ctx, b, i);
      AcceptedItem(ctx, b.items[i]);
      UnitPow(b.items[i].resp.proof.w, b.weights[i].answer[r], n);
      UnitSquare(Pow(b.items[i].resp.proof.w, b.weights[i].answer[r]), n);
      PowersAgree(b.items[i].resp.proof.w, ItemFactor(ctx, b.items[i]), b.weights[i].answer[r], n);
    }
    OneLeft(|b.items|, j, r, Ros(b), Factors(ctx, b), item.resp.proof.w, ItemFactor(ctx, item), n);
    UnitOfSquare(item.request, n);
    var p := item.resp.proof;
    AnswerConverse(n, item.request, ModInverse(item.request, n * n).value, item.resp.message, p.first.A, p.z1, p.z2, p.w, Challenge(ctx, item.resp));
  }

  lemma {:induction false} CommitmentSound(ctx: Context, b: Batch, j: nat, r: nat)
    requires ValidContext(ctx) && ValidBatch(b) && j < |b.items| && r < ROUNDS && OthersAccepted(ctx, b, j)
    requires Processable(ctx, b.items[j]) && ProductsAgree(ctx, b) && b.weights[j].commitment[r] == 1
    ensures var resp := b.items[j].resp;
      CommitmentEquation(ctx.otherN, resp.commitment, resp.proof.first.By, resp.proof.z2, resp.proof.wy, Challenge(ctx, resp))
  {
    var n, item := ctx.otherN, b.items[j];
    forall i: nat | i < |b.items| && i != j
      ensures Unit(CommitmentRos(b)(r)(i), n * n) && Cong(Pow(CommitmentRos(b)(r)(i), n), CommitmentFactors(ctx, b)(r)(i), n * n)
    {
      assert Accepted(ctx, b, i);
      AcceptedItem(ctx, b.items[i]);
      UnitPow(b.items[i].resp.proof.wy, b.weights[i].commitment[r], n);
      UnitSquare(Pow(b.items[i].resp.proof.wy, b.weights[i].commitment[r]), n);
      PowersAgree(b.items[i].resp.proof.wy, ItemCommitment(ctx, b.items[i]), b.weights[i].commitment[r], n);
    }
    OneLeft(|b.items|, j, r, CommitmentRos(b), CommitmentFactors(ctx, b), item.resp.proof.wy, ItemCommitment(ctx, item), n);
    var p := item.resp.proof;
    CommitmentConverse(n, item.resp.commitment, p.first.By, p.z2, p.wy, Challenge(ctx, item.resp));
  }

  /** The weighted openings of item j agree when those of all others do. */
  lemma {:induction false} OpeningLeft(ctx: Context, b: Batch, j: nat)
    requires ValidContext(ctx) && ValidBatch(b) && j < |b.items| && OthersAccepted(ctx, b, j) && OpeningsAgree(ctx, b)
    ensures Cong(Pow(ctx.ring.pub.t, ItemTerm(ctx, b.items[j], b.weights[j])), ItemOpening(ctx, b.items[j], b.weights[j]), ctx.ring.pub.n)
  {
    var k, t, n := |b.items|, ctx.ring.pub.t, ctx.ring.pub.n;
    var powers := (i: nat) => if RingTerms(ctx, b)(i) >= 0 then Pow(t, RingTerms(ctx, b)(i)) else 0;
    PowSum(t, k, RingTerms(ctx, b), powers);
    forall i: nat | i < k && i != j ensures Unit(powers(i), n) && Cong(powers(i), RingFactors(ctx, b)(i), n) {
      assert Accepted(ctx, b, i);
      AcceptedOpening(ctx, b.items[i], b.weights[i]);
      UnitPow(t, ItemTerm(ctx, b.items[i], b.weights[i]), n);
    }
    ProdCancel(k, j, powers, RingFactors(ctx, b), n);
  }

  /** An opening weighed 1, beside one weighed 0, is right if the batch passes. */
  lemma {:induction false} OpeningSound(ctx: Context, b: Batch, j: nat)
    requires ValidContext(ctx) && ValidBatch(b) && j < |b.items| && OthersAccepted(ctx, b, j) && ProductsAgree(ctx, b)
    ensures var p, e, g := b.items[j].resp.proof, Challenge(ctx, b.items[j].resp), b.weights[j];
      && (g.ring1 == 1 && g.ring2 == 0 ==> RingEquation(ctx.ring, p.z1, p.z3, p.first.E, p.first.S, e))
      && (g.ring1 == 0 && g.ring2 == 1 ==> RingEquation(ctx.ring, p.z2, p.z4, p.first.F, p.first.T, e))
  {
    var p, e, g := b.items[j].resp.proof, Challenge(ctx, b.items[j].resp), b.weights[j];
    OpeningLeft(ctx, b, j);
    BitsMonotone(e, ctx.q);
    TotientLarge(ctx.ring, e);
    OneOpening(ctx.ring, p.z1, p.z3, p.first.E, p.first.S, p.z2, p.z4, p.first.F, p.first.T, e, g.ring1, g.ring2);
  }

  /** Of two weighted openings that agree together, one with weight 1 beside one with weight 0 agrees alone. */
  lemma OneOpening(ring: R.PrivateKey, z1: nat, z3: nat, E: int, S: int, z2: nat, z4: nat, F: int, T: int, e: nat, g1: nat, g2: nat)
    requires R.ValidKey(ring) && e < ring.phi
    requires Cong(Pow(ring.pub.t, RingTerm(ring, z1, z3, g1) + RingTerm(ring, z2, z4, g2)),
                  RingFactor(ring, E, S, e, g1) * RingFactor(ring, F, T, e, g2), ring.pub.n)
    ensures g1 == 1 && g2 == 0 ==> RingEquation(ring, z1, z3, E, S, e)
    ensures g1 == 0 && g2 == 1 ==> RingEquation(ring, z2, z4, F, T, e)
  {
    if g1 == 1 && g2 == 0 {
      UnusedOpening(ring, F, T, e);
      OpeningConverse(ring, z1, z3, E, S, e, RingTerm(ring, z1, z3, 1) + RingTerm(ring, z2, z4, 0), RingFactor(ring, F, T, e, 0));
    } else if g1 == 0 && g2 == 1 {
      UnusedOpening(ring, E, S, e);
      var used, rest := RingFactor(ring, F, T, e, 1), RingFactor(ring, E, S, e, 0);
      assert rest * used == used * rest;
      OpeningConverse(ring, z2, z4, F, T, e, RingTerm(ring, z1, z3, 0) + RingTerm(ring, z2, z4, 1), rest);
    }
  }

  /** The equations of item j that some weight of 1 tests hold. */
  ghost predicate RightWhereWeighed(ctx: Context, b: Batch, j: nat)
    requires ValidContext(ctx) && ValidBatch(b) && j < |b.items|
  {
    var resp, p, f, e, g := b.items[j].resp, b.items[j].resp.proof, b.items[j].resp.proof.first, Challenge(ctx, b.items[j].resp), b.weights[j];
    && ((exists r | 0 <= r < ROUNDS :: g.answer[r] == 1) ==>
          AnswerEquation(ctx.ownN, b.items[j].request, resp.message, f.A, p.z1, p.z2, p.w, e))
    && ((exists r | 0 <= r < ROUNDS :: g.commitment[r] == 1) ==>
          CommitmentEquation(ctx.otherN, resp.commitment, f.By, p.z2, p.wy, e))
    && (g.ring1 == 1 && g.ring2 == 0 ==> RingEquation(ctx.ring, p.z1, p.z3, f.E, f.S, e))
    && (g.ring1 == 0 && g.ring2 == 1 ==> RingEquation(ctx.ring, p.z2, p.z4, f.F, f.T, e))
  }

  lemma {:induction false} PassedSound(ctx: Context, b: Batch)
    requires ValidContext(ctx) && ValidBatch(b) && AllProcessable(ctx, b, |b.items|) && ProductsAgree(ctx, b)
    ensures forall j | 0 <= j < |b.items| && OthersAccepted(ctx, b, j) :: RightWhereWeighed(ctx, b, j)
  {
    forall j | 0 <= j < |b.items| && OthersAccepted(ctx, b, j) ensures RightWhereWeighed(ctx, b, j) {
      ItemSound(ctx, b, j);
    }
  }

  lemma {:induction false} ItemSound(ctx: Context, b: Batch, j: nat)
    requires ValidContext(ctx) && ValidBatch(b) && j < |b.items| && OthersAccepted(ctx, b, j)
    requires Processable(ctx, b.items[j]) && ProductsAgree(ctx, b)
    ensures RightWhereWeighed(ctx, b, j)
  {
    if r :| 0 <= r < ROUNDS && b.weights[j].answer[r] == 1 { AnswerSound(ctx, b, j, r); }
    if r :| 0 <= r < ROUNDS && b.weights[j].commitment[r] == 1 { CommitmentSound(ctx, b, j, r); }
    OpeningSound(ctx, b, j);
  }

  /** The factor of a processable item, for any inverse of its request. */
  lemma ItemFactorMeans(ctx: Context, item: Item, inverse: int)
    requires ValidContext(ctx) && Unit(item.request, ctx.ownN) && Cong(item.request * inverse, 1, ctx.ownN * ctx.ownN)
    ensures var p, e, n := item.resp.proof, Challenge(ctx, item.resp), ctx.ownN;
      Cong(ItemFactor(ctx, item), Pow(inverse, p.z1) * Pow(item.resp.message, e) * p.first.A * (1 - n * p.z2), n * n)
  {
    var p, e, n := item.resp.proof, Challenge(ctx, item.resp), ctx.ownN;
    var N := n * n;
    UnitOfSquare(item.request, n);
    var x, d := ModInverse(item.request, N).value, Pow(item.resp.message, e);
    UnitCancel(item.request, x, inverse, N);
    CongPow(x, inverse, p.z1, N);
    CongMulLeft(Pow(x, p.z1), Pow(inverse, p.z1), d, N);
    CongMod(Pow(x, p.z1) * d, N);
    CongBy(Unmask(n, p.z2), 1 - n * p.z2, 1, N);
    FourReduced(ModExp2(x, p.z1, item.resp.message, e, N), Pow(inverse, p.z1) * d, p.first.A, Unmask(n, p.z2), 1 - n * p.z2, N);
  }

  lemma ItemCommitmentMeans(ctx: Context, item: Item)
    requires ValidContext(ctx)
    ensures var p, e, m := item.resp.proof, Challenge(ctx, item.resp), ctx.otherN;
      Cong(ItemCommitment(ctx, item), Pow(item.resp.commitment, e) * p.first.By * (1 - m * p.z2), m * m)
  {
    var p, e, m := item.resp.proof, Challenge(ctx, item.resp), ctx.otherN;
    CongMod(Pow(item.resp.commitment, e), m * m);
    CongBy(Unmask(m, p.z2), 1 - m * p.z2, 1, m * m);
    FourReduced(ModExp(item.resp.commitment, e, m * m), Pow(item.resp.commitment, e), p.first.By, Unmask(m, p.z2), 1 - m * p.z2, m * m);
  }

  lemma FourReduced(a: int, a': int, b: int, c: int, c': int, n: int)
    requires n > 0 && Cong(a, a', n) && Cong(c, c', n)
    ensures Cong(MulMod(MulMod(a, b, n), c, n), a' * b * c', n)
  {
    CongMulMod(a, a', b, b, n);
    CongMulMod(MulMod(a, b, n), a' * b, c, c', n);
  }

  lemma OneRound(w: int, factor: int, raw: int, weight: nat, n: nat)
    requires n > 0 && Cong(factor, raw, n * n)
    ensures Cong(Pow(Pow(w, weight), n), Pow(factor, weight), n * n) <==> Cong(Pow(Pow(w, weight), n), Pow(raw, weight), n * n)
  {
    CongPow(factor, raw, weight, n * n);
  }

  /** For a batch of one answer: the weighted powers of its randomness against those of its factor. */
  lemma {:induction false} SingleAnswer(ctx: Context, b: Batch, inverse: int)
    requires ValidContext(ctx) && ValidBatch(b) && |b.items| == 1 && Unit(b.items[0].request, ctx.ownN)
    requires Cong(b.items[0].request * inverse, 1, ctx.ownN * ctx.ownN)
    ensures
      var resp, p, weights, n := b.items[0].resp, b.items[0].resp.proof, b.weights[0].answer, ctx.ownN;
      var factor := Pow(inverse, p.z1) * Pow(resp.message, Challenge(ctx, resp)) * p.first.A * (1 - n * p.z2);
      Agree(1, Ros(b), Factors(ctx, b), n) <==>
        forall r: nat | r < ROUNDS :: Cong(Pow(Pow(p.w, weights[r]), n), Pow(factor, weights[r]), n * n)
  {
    var resp, p, weights, n := b.items[0].resp, b.items[0].resp.proof, b.weights[0].answer, ctx.ownN;
    var factor := Pow(inverse, p.z1) * Pow(resp.message, Challenge(ctx, resp)) * p.first.A * (1 - n * p.z2);
    ItemFactorMeans(ctx, b.items[0], inverse);
    forall r: nat | r < ROUNDS
      ensures Cong(Pow(Prod(1, Ros(b)(r)), n), Prod(1, Factors(ctx, b)(r)), n * n)
         <==> Cong(Pow(Pow(p.w, weights[r]), n), Pow(factor, weights[r]), n * n)
    {
      ProdOne(Ros(b)(r));
      ProdOne(Factors(ctx, b)(r));
      OneRound(p.w, ItemFactor(ctx, b.items[0]), factor, weights[r], n);
    }
  }

  lemma {:induction false} SingleCommitment(ctx: Context, b: Batch)
    requires ValidContext(ctx) && ValidBatch(b) && |b.items| == 1
    ensures
      var resp, p, weights, m := b.items[0].resp, b.items[0].resp.proof, b.weights[0].commitment, ctx.otherN;
      var factor := Pow(resp.commitment, Challenge(ctx, resp)) * p.first.By * (1 - m * p.z2);
      Agree(1, CommitmentRos(b), CommitmentFactors(ctx, b), m) <==>
        forall r: nat | r < ROUNDS :: Cong(Pow(Pow(p.wy, weights[r]), m), Pow(factor, weights[r]), m * m)
  {
    var resp, p, weights, m := b.items[0].resp, b.items[0].resp.proof, b.weights[0].commitment, ctx.otherN;
    var factor := Pow(resp.commitment, Challenge(ctx, resp)) * p.first.By * (1 - m * p.z2);
    ItemCommitmentMeans(ctx, b.items[0]);
    forall r: nat | r < ROUNDS
      ensures Cong(Pow(Prod(1, CommitmentRos(b)(r)), m), Prod(1, CommitmentFactors(ctx, b)(r)), m * m)
         <==> Cong(Pow(Pow(p.wy, weights[r]), m), Pow(factor, weights[r]), m * m)
    {
      ProdOne(CommitmentRos(b)(r));
      ProdOne(CommitmentFactors(ctx, b)(r));
      OneRound(p.wy, ItemCommitment(ctx, b.items[0]), factor, weights[r], m);
    }
  }

  /**
   Processing a batch and verifying it, as the callers do. It passes exactly when every answer is
   processed and the weighted products agree; so it never rejects what the single verifier accepts,
   and a single bad equation among accepted ones is found out when it is weighed 1.
   */
  method VerifyBatch(ctx: Context, batch: Batch) returns (ok: bool)
    requires ValidContext(ctx) && ValidBatch(batch)
    ensures ok <==> AllProcessable(ctx, batch, |batch.items|) && ProductsAgree(ctx, batch)
    ensures (forall i | 0 <= i < |batch.items| :: Accepted(ctx, batch, i)) ==> ok
    ensures ok ==> forall j | 0 <= j < |batch.items| && OthersAccepted(ctx, batch, j) :: RightWhereWeighed(ctx, batch, j)
  {
    if forall i | 0 <= i < |batch.items| :: Accepted(ctx, batch, i) { AcceptedAgree(ctx, batch); }
    var verifier := new BatchVerifier(ctx);
    var refused;
    ghost var run;
    refused, run := verifier.ProcessAll(batch);
    if refused.Some? { return false; }
    TakenProcessable(ctx, batch, run);
    NeutralProducts(ctx, batch, run[0]);
    TakenProducts(ctx, batch, run, |batch.items|);
    ProductsBalanced(ctx, batch, run[|batch.items|]);
    ok := verifier.Verify();
    if ok { PassedSound(ctx, batch); }
  }
}
