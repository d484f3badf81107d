/**
 mta.cpp: the zero-knowledge proof that accompanies an answer, its prover, the verifier that
 checks one answer, and the verifier that accumulates a batch.
 */
module MtaProof {
  import opened Modular
  import opened NumberTheory
  import opened Wrappers
  import opened AlgebraUtils
  import opened Curve
  import P = Paillier
  import R = RingPedersen
  import opened Mta

  /** The values the challenge is hashed from. */
  datatype FirstMove = FirstMove(A: nat, Bx: Point, By: nat, E: nat, F: nat, S: nat, T: nat)

  /** The head of a serialized proof: the byte lengths of the moduli, as the writer has them. */
  datatype Sizes = Sizes(ring: nat, private: nat, public: nat)

  datatype Proof = Proof(sizes: Sizes, first: FirstMove, z1: nat, z2: nat, z3: nat, z4: nat, w: nat, wy: nat)

  datatype Response = Response(message: nat, commitment: nat, proof: Proof)

  /**
   What a verifier is constructed with: its own Paillier modulus and ring-Pedersen key, the
   modulus of the other party, the group order, and the challenge hashed from message,
   commitment and first move. The moduli have passed the key size checks of the setup.
   */
  datatype Context = Context(ownN: int, otherN: int, ring: R.PrivateKey, q: int, challenge: (nat, nat, FirstMove) -> int)

  ghost predicate ValidContext(ctx: Context) {
    && ctx.ownN > 1 && ctx.otherN > 1 && R.ValidKey(ctx.ring) && ctx.q > 1
    && LargeEnough(ctx.ownN) && LargeEnough(ctx.otherN) && ctx.ring.pub.n > 0 && NumBits(ctx.ring.pub.n) > 1016 && NumBits(ctx.q) <= 256
    && forall m, c, f :: 0 <= ctx.challenge(m, c, f) < ctx.q
  }

  function Challenge(ctx: Context, resp: Response): int {
    ctx.challenge(resp.message, resp.commitment, resp.proof.first)
  }

  /** BN_num_bytes */
  function NumBytes(n: nat): nat {
    (NumBits(n) + 7) / 8
  }

  const Z1_BYTES := 32 + 64
  const Z2_BYTES := 32 * 5 + 64

  /** The bytes by which a value of the first move may be shorter than its field. */
  const EPSILON_BYTES := 8

  // ----- The equations -----

  predicate LongEnough(value: nat, bytes: nat) {
    NumBytes(value) + EPSILON_BYTES >= bytes
  }

  /** The values of the first move are not much shorter than their moduli. */
  predicate LongFirstMove(ctx: Context, f: FirstMove)
    requires ctx.otherN > 0 && ctx.ring.pub.n > 0
  {
    && LongEnough(f.A, 2 * NumBytes(ctx.otherN)) && LongEnough(f.By, 2 * NumBytes(ctx.otherN))
    && LongEnough(f.E, NumBytes(ctx.ring.pub.n)) && LongEnough(f.F, NumBytes(ctx.ring.pub.n))
    && LongEnough(f.S, NumBytes(ctx.ring.pub.n)) && LongEnough(f.T, NumBytes(ctx.ring.pub.n))
  }

  /** What deserialize_mta_range_zkp lets through: the reader's own lengths, and no short first move. */
  predicate Decodes(ctx: Context, p: Proof)
    requires ctx.ownN > 0 && ctx.otherN > 0 && ctx.ring.pub.n > 0
  {
    && p.sizes == Sizes(NumBytes(ctx.ring.pub.n), NumBytes(ctx.ownN), NumBytes(ctx.otherN))
    && LongFirstMove(ctx, p.first)
  }

  predicate InRange(p: Proof) {
    NumBytes(p.z1) <= Z1_BYTES && NumBytes(p.z2) <= Z2_BYTES
  }

  /** z1*G = Bx + e*X. generator_mul_data refuses the empty byte string that z1 = 0 turns into. */
  predicate PointEquation(ctx: Context, X: Point, p: Proof, e: int)
    requires ctx.q > 0
  {
    p.z1 > 0 && GeneratorMul(p.z1, ctx.q) == AddPoints(p.first.Bx, PointMul(X, e, ctx.q), ctx.q)
  }

  ghost predicate ValidCiphertexts(ctx: Context, resp: Response)
    requires ctx.ownN > 0 && ctx.otherN > 0
  {
    && Unit(resp.message, ctx.ownN) && Unit(resp.proof.first.A, ctx.ownN)
    && Unit(resp.commitment, ctx.otherN) && Unit(resp.proof.first.By, ctx.otherN)
  }

  /** C^z1 * Enc(z2, w) = A * D^e modulo N^2. */
  ghost predicate AnswerEquation(n: int, request: int, message: int, A: int, z1: nat, z2: nat, w: int, e: nat)
    requires n > 0
  {
    Unit(w, n) && Cong(Pow(request, z1) * P.EncryptValue(n, w, z2), Pow(message, e) * A, n * n)
  }

  /** Enc(z2, wy) = By * Y^e modulo N^2 of the prover. */
  ghost predicate CommitmentEquation(n: int, commitment: int, By: int, z2: nat, wy: int, e: nat)
    requires n > 0
  {
    Unit(wy, n) && Cong(P.EncryptValue(n, wy, z2), Pow(commitment, e) * By, n * n)
  }

  /** s^z * t^v = first * inner^e, checked with the trapdoor. */
  ghost predicate RingEquation(ring: R.PrivateKey, z: nat, v: nat, first: int, inner: int, e: nat)
    requires ring.phi > 0 && ring.pub.n > 0
  {
    Cong(Pow(ring.pub.t, R.TrapdoorExponent(ring, z, v)), Pow(inner, e) * first, ring.pub.n)
  }

  /** Everything the single verifier checks. */
  ghost predicate SingleAccepts(ctx: Context, request: nat, X: Point, resp: Response)
    requires ValidContext(ctx)
  {
    var p, f, e := resp.proof, resp.proof.first, Challenge(ctx, resp);
    && Decodes(ctx, p) && InRange(p) && PointEquation(ctx, X, p, e) && ValidCiphertexts(ctx, resp)
    && AnswerEquation(ctx.ownN, request, resp.message, f.A, p.z1, p.z2, p.w, e)
    && CommitmentEquation(ctx.otherN, resp.commitment, f.By, p.z2, p.wy, e)
    && RingEquation(ctx.ring, p.z1, p.z3, f.E, f.S, e)
    && RingEquation(ctx.ring, p.z2, p.z4, f.F, f.T, e)
  }

  // ----- The single verifier -----

  method CheckCiphertexts(ctx: Context, resp: Response) returns (ok: bool)
    requires ValidContext(ctx)
    ensures ok <==> ValidCiphertexts(ctx, resp)
  {
    CoprimeIsUnit(resp.message, ctx.ownN);
    CoprimeIsUnit(resp.proof.first.A, ctx.ownN);
    CoprimeIsUnit(resp.commitment, ctx.otherN);
    CoprimeIsUnit(resp.proof.first.By, ctx.otherN);
    ok := IsCoprimeFast(resp.message, ctx.ownN);
    if !ok { return; }
    ok := IsCoprimeFast(resp.proof.first.A, ctx.ownN);
    if !ok { return; }
    ok := IsCoprimeFast(resp.commitment, ctx.otherN);
    if !ok { return; }
    ok := IsCoprimeFast(resp.proof.first.By, ctx.otherN);
  }

  method CheckAnswer(n: int, request: nat, message: nat, A: nat, z1: nat, z2: nat, w: nat, e: nat) returns (error: Option<Error>)
    requires n > 1
    ensures error.None? <==> AnswerEquation(n, request, message, A, z1, z2, w, e)
  {
    var tmp1 := ModExp(request, z1, n * n);
    var encrypted := P.Encrypt(n, w, z2);
    if encrypted.None? { return Some(InternalError); }
    CongMod(Pow(request, z1), n * n);
    CongMulMod(tmp1, Pow(request, z1), encrypted.value, encrypted.value, n * n);
    tmp1 := MulMod(tmp1, encrypted.value, n * n);
    var tmp2 := ModExp(message, e, n * n);
    CongMod(Pow(message, e), n * n);
    CongMulMod(tmp2, Pow(message, e), A, A, n * n);
    tmp2 := MulMod(tmp2, A, n * n);
    ModUnique(tmp1, 0, tmp1, n * n);
    ModUnique(tmp2, 0, tmp2, n * n);
    return if tmp1 != tmp2 then Some(InvalidParameter) else None;
  }

  method CheckCommitment(n: int, commitment: nat, By: nat, z2: nat, wy: nat, e: nat) returns (error: Option<Error>)
    requires n > 1
    ensures error.None? <==> CommitmentEquation(n, commitment, By, z2, wy, e)
  {
    var tmp1 := P.Encrypt(n, wy, z2);
    if tmp1.None? { return Some(InternalError); }
    var tmp2 := ModExp(commitment, e, n * n);
    CongMod(Pow(commitment, e), n * n);
    CongMulMod(tmp2, Pow(commitment, e), By, By, n * n);
    tmp2 := MulMod(tmp2, By, n * n);
    ModUnique(tmp1.value, 0, tmp1.value, n * n);
    ModUnique(tmp2, 0, tmp2, n * n);
    return if tmp1.value != tmp2 then Some(InvalidParameter) else None;
  }

  method CheckRing(ring: R.PrivateKey, z: nat, v: nat, first: nat, inner: nat, e: nat) returns (ok: bool)
    requires R.ValidKey(ring)
    ensures ok <==> RingEquation(ring, z, v, first, inner, e)
  {
    var n := ring.pub.n;
    var tmp1 := MulMod(ring.lambda, z, ring.phi);
    tmp1 := (tmp1 + v) % ring.phi;
    ghost var exponent := tmp1;
    tmp1 := ModExp(ring.pub.t, tmp1, n);
    CongMod(Pow(ring.pub.t, exponent), n);
    var tmp2 := ModExp(inner, e, n);
    CongMod(Pow(inner, e), n);
    CongMulMod(tmp2, Pow(inner, e), first, first, n);
    tmp2 := MulMod(tmp2, first, n);
    ModUnique(tmp1, 0, tmp1, n);
    ModUnique(tmp2, 0, tmp2, n);
    return tmp1 == tmp2;
  }

  /** single_response_verifier::process with its process_paillier and process_ring_pedersen. */
  method SingleProcess(ctx: Context, request: nat, X: Point, resp: Response) returns (error: Option<Error>)
    requires ValidContext(ctx)
    ensures error.None? <==> SingleAccepts(ctx, request, X, resp)
  {
    var p, f := resp.proof, resp.proof.first;
    if !Decodes(ctx, p) { return Some(InvalidParameter); }
    if !InRange(p) { return Some(InvalidParameter); }
    var e := Challenge(ctx, resp);
    if p.z1 == 0 { return Some(InternalError); }
    if !PointEquation(ctx, X, p, e) { return Some(InvalidParameter); }
    var ok := CheckCiphertexts(ctx, resp);
    if !ok { return Some(InvalidParameter); }
    error := CheckAnswer(ctx.ownN, request, resp.message, f.A, p.z1, p.z2, p.w, e);
    if error.Some? { return; }
    error := CheckCommitment(ctx.otherN, resp.commitment, f.By, p.z2, p.wy, e);
    if error.Some? { return; }
    ok := CheckRing(ctx.ring, p.z1, p.z3, f.E, f.S, e);
    if !ok { return Some(InvalidParameter); }
    ok := CheckRing(ctx.ring, p.z2, p.z4, f.F, f.T, e);
    if !ok { return Some(InvalidParameter); }
    return None;
  }

  // ----- What acceptance means -----

  lemma PointMeans(ctx: Context, X: Point, p: Proof, e: int)
    requires ctx.q > 0
    ensures PointEquation(ctx, X, p, e) <==> p.z1 > 0 && Cong(p.z1, p.first.Bx.log + X.log * e, ctx.q)
  {
    var q, Bx := ctx.q, p.first.Bx;
    CongMod(X.log * e, q);
    CongAdd(Bx.log, Bx.log, PointMul(X, e, q).log, X.log * e, q);
    CongMod(Bx.log + PointMul(X, e, q).log, q);
    CongMod(p.z1, q);
    SamePoint(GeneratorMul(p.z1, q), AddPoints(Bx, PointMul(X, e, q), q), q);
  }

  lemma AnswerMeans(n: int, request: int, message: int, A: int, z1: nat, z2: nat, w: int, e: nat)
    requires n > 0
    ensures AnswerEquation(n, request, message, A, z1, z2, w, e) <==>
      Unit(w, n) && Cong(Pow(request, z1) * ((1 + n * z2) * Pow(w, n)), Pow(message, e) * A, n * n)
  {
    P.EncryptValueCong(n, w, z2);
    var c := Pow(request, z1);
    CongMul(c, c, P.EncryptValue(n, w, z2), (1 + n * z2) * Pow(w, n), n * n);
  }

  lemma CommitmentMeans(n: int, commitment: int, By: int, z2: nat, wy: int, e: nat)
    requires n > 0
    ensures CommitmentEquation(n, commitment, By, z2, wy, e) <==>
      Unit(wy, n) && Cong((1 + n * z2) * Pow(wy, n), Pow(commitment, e) * By, n * n)
  {
    P.EncryptValueCong(n, wy, z2);
  }

  lemma RingMeans(ring: R.PrivateKey, z: nat, v: nat, first: int, inner: int, e: nat)
    requires R.ValidKey(ring)
    ensures RingEquation(ring, z, v, first, inner, e) <==>
      Cong(Pow(ring.pub.s, z) * Pow(ring.pub.t, v), Pow(inner, e) * first, ring.pub.n)
  {
    R.TrapdoorCommitment(ring, z, v);
  }

  /** What reading a proof and its range checks demand. */
  lemma DecodesMeans(ctx: Context, p: Proof)
    requires ValidContext(ctx)
    ensures
      var f, ringBytes, otherBytes := p.first, (NumBits(ctx.ring.pub.n) + 7) / 8, (NumBits(ctx.otherN) + 7) / 8;
      Decodes(ctx, p) && InRange(p) <==>
        && p.sizes.ring == ringBytes && p.sizes.private == (NumBits(ctx.ownN) + 7) / 8 && p.sizes.public == otherBytes
        && (NumBits(f.A) + 7) / 8 + 8 >= 2 * otherBytes && (NumBits(f.By) + 7) / 8 + 8 >= 2 * otherBytes
        && (NumBits(f.E) + 7) / 8 + 8 >= ringBytes && (NumBits(f.F) + 7) / 8 + 8 >= ringBytes
        && (NumBits(f.S) + 7) / 8 + 8 >= ringBytes && (NumBits(f.T) + 7) / 8 + 8 >= ringBytes
        && (NumBits(p.z1) + 7) / 8 <= 96 && (NumBits(p.z2) + 7) / 8 <= 224
  {
  }

  /** The single verifier accepts exactly what is in range and satisfies these equations. */
  lemma SingleMeans(ctx: Context, request: nat, X: Point, resp: Response)
    requires ValidContext(ctx)
    ensures
      var p, f, e := resp.proof, resp.proof.first, ctx.challenge(resp.message, resp.commitment, resp.proof.first);
      var n, m, ring := ctx.ownN, ctx.otherN, ctx.ring.pub;
      SingleAccepts(ctx, request, X, resp) <==>
        && Decodes(ctx, p) && InRange(p)
        && 0 < p.z1 && Cong(p.z1, f.Bx.log + X.log * e, ctx.q)
        && Unit(resp.message, n) && Unit(f.A, n) && Unit(resp.commitment, m) && Unit(f.By, m) && Unit(p.w, n) && Unit(p.wy, m)
        && Cong(Pow(request, p.z1) * ((1 + n * p.z2) * Pow(p.w, n)), Pow(resp.message, e) * f.A, n * n)
        && Cong((1 + m * p.z2) * Pow(p.wy, m), Pow(resp.commitment, e) * f.By, m * m)
        && Cong(Pow(ring.s, p.z1) * Pow(ring.t, p.z3), Pow(f.S, e) * f.E, ring.n)
        && Cong(Pow(ring.s, p.z2) * Pow(ring.t, p.z4), Pow(f.T, e) * f.F, ring.n)
  {
    var p, f, e := resp.proof, resp.proof.first, Challenge(ctx, resp);
    PointMeans(ctx, X, p, e);
    AnswerMeans(ctx.ownN, request, resp.message, f.A, p.z1, p.z2, p.w, e);
    CommitmentMeans(ctx.otherN, resp.commitment, f.By, p.z2, p.wy, e);
    RingMeans(ctx.ring, p.z1, p.z3, f.E, f.S, e);
    RingMeans(ctx.ring, p.z2, p.z4, f.F, f.T, e);
  }

  // ----- The honest prover -----

  /** The numbers mta_range_generate_zkp draws. */
  datatype Nonces = Nonces(alpha: nat, beta: nat, r: nat, ry: nat, gamma: nat, delta: nat, mu: nat, nu: nat)

  /** What the prover knows: x, the plaintext y, and the randomness of message and commitment. */
  datatype Witness = Witness(x: nat, y: nat, rMessage: nat, rCommitment: nat)

  function ProverFirst(ctx: Context, request: nat, wit: Witness, no: Nonces): FirstMove
    requires ctx.ownN > 0 && ctx.otherN > 0 && ctx.ring.pub.n > 0 && ctx.q > 0
  {
    FirstMove(
      MulMod(P.EncryptValue(ctx.ownN, no.r, no.beta), ModExp(request, no.alpha, ctx.ownN * ctx.ownN), ctx.ownN * ctx.ownN),
      GeneratorMul(no.alpha % ctx.q, ctx.q),
      P.EncryptValue(ctx.otherN, no.ry, no.beta),
      R.CreateCommitment(ctx.ring.pub, no.alpha, no.gamma),
      R.CreateCommitment(ctx.ring.pub, no.beta, no.delta),
      R.CreateCommitment(ctx.ring.pub, wit.x, no.mu),
      R.CreateCommitment(ctx.ring.pub, wit.y, no.nu))
  }

  /**
   mta_range_generate_zkp: the proof for an answer to request; e is the challenge of its first move.
   The prover writes its own modulus as the private one.
   */
  function Prove(ctx: Context, wit: Witness, no: Nonces, first: FirstMove, e: nat): Proof
    requires ctx.ownN > 0 && ctx.otherN > 0 && ctx.ring.pub.n > 0
  {
    Proof(Sizes(NumBytes(ctx.ring.pub.n), NumBytes(ctx.otherN), NumBytes(ctx.ownN)), first, e * wit.x + no.alpha, e * wit.y + no.beta, e * no.mu + no.gamma, e * no.nu + no.delta,
          MulMod(ModExp(wit.rMessage, e, ctx.ownN), no.r, ctx.ownN),
          MulMod(ModExp(wit.rCommitment, e, ctx.otherN), no.ry, ctx.otherN))
  }

  /** The n-th power of the combined randomness. */
  lemma CombinedRandomness(n: int, rho: int, r: int, e: nat)
    requires n > 0 && Unit(rho, n) && Unit(r, n)
    ensures Unit(MulMod(ModExp(rho, e, n), r, n), n)
    ensures Cong(Pow(MulMod(ModExp(rho, e, n), r, n), n), Pow(Pow(rho, n), e) * Pow(r, n), n * n)
  {
    var w := MulMod(ModExp(rho, e, n), r, n);
    CongMod(Pow(rho, e), n);
    CongMulMod(ModExp(rho, e, n), Pow(rho, e), r, r, n);
    UnitPow(rho, e, n);
    UnitProduct(Pow(rho, e), r, n);
    UnitCong(Pow(rho, e) * r, w, n);
    P.NthPowerCong(w, Pow(rho, e) * r, n);
    PowProduct(Pow(rho, e), r, n);
    PowPow(rho, e, n);
    PowPow(rho, n, e);
    assert e * n == n * e;
  }

  /** Enc(y, rho)^e * Enc(b, r) = Enc(e*y + b, rho^e * r) modulo n^2. */
  lemma EncryptionCombines(n: int, c: int, rho: int, y: nat, r: int, b: nat, e: nat)
    requires n > 0 && Unit(rho, n) && Unit(r, n) && P.EncryptsWith(n, c, y, rho)
    ensures Cong(P.EncryptValue(n, MulMod(ModExp(rho, e, n), r, n), e * y + b), Pow(c, e) * P.EncryptValue(n, r, b), n * n)
  {
    var w, N := MulMod(ModExp(rho, e, n), r, n), n * n;
    CombinedRandomness(n, rho, r, e);
    P.EncryptValueCong(n, w, e * y + b);
    P.EncryptValueCong(n, r, b);
    var u, v, s := 1 + n * y, Pow(rho, n), Pow(r, n);
    CongPow(c, u * v, e, N);
    PowProduct(u, v, e);
    CongMul(Pow(c, e), Pow(u, e) * Pow(v, e), P.EncryptValue(n, r, b), (1 + n * b) * s, N);
    FourFactors(Pow(u, e), Pow(v, e), 1 + n * b, s);
    P.OnePlusPower(n, y, e);
    CongMulLeft(Pow(u, e), 1 + n * (y * e), 1 + n * b, N);
    P.OnePlusProduct(n, y * e, b);
    assert y * e + b == e * y + b;
    CongMul(Pow(u, e) * (1 + n * b), 1 + n * (e * y + b), Pow(v, e) * s, Pow(w, n), N);
  }

  lemma HonestAnswer(ctx: Context, request: nat, wit: Witness, no: Nonces, message: int, e: nat)
    requires ValidContext(ctx) && Unit(wit.rMessage, ctx.ownN) && Unit(no.r, ctx.ownN)
    requires message == AnswerValue(ctx.ownN, request, wit.x, wit.y, wit.rMessage)
    ensures AnswerEquation(ctx.ownN, request, message, ProverFirst(ctx, request, wit, no).A, e * wit.x + no.alpha,
                           e * wit.y + no.beta, MulMod(ModExp(wit.rMessage, e, ctx.ownN), no.r, ctx.ownN), e)
  {
    var n, N := ctx.ownN, ctx.ownN * ctx.ownN;
    var hidden, mask := P.EncryptValue(n, wit.rMessage, wit.y), P.EncryptValue(n, no.r, no.beta);
    var total := P.EncryptValue(n, MulMod(ModExp(wit.rMessage, e, n), no.r, n), e * wit.y + no.beta);
    CombinedRandomness(n, wit.rMessage, no.r, e);
    P.EncryptValueCong(n, wit.rMessage, wit.y);
    EncryptionCombines(n, hidden, wit.rMessage, wit.y, no.r, no.beta, e);
    HonestAnswerProduct(request, wit.x, no.alpha, e, hidden, mask, total, message, ProverFirst(ctx, request, wit, no).A, N);
  }

  lemma HonestAnswerProduct(request: int, x: nat, alpha: nat, e: nat, hidden: int, mask: int, total: int, message: int, A: int, N: int)
    requires N > 0 && Cong(total, Pow(hidden, e) * mask, N)
    requires message == MulMod(ModExp(request, x, N), hidden, N)
    requires A == MulMod(mask, ModExp(request, alpha, N), N)
    ensures Cong(Pow(request, e * x + alpha) * total, Pow(message, e) * A, N)
  {
    var c, d := Pow(request, x), Pow(request, alpha);
    CongMod(c, N);
    CongMulMod(ModExp(request, x, N), c, hidden, hidden, N);
    CongPow(message, c * hidden, e, N);
    PowProduct(c, hidden, e);
    CongMod(d, N);
    CongMulMod(mask, mask, ModExp(request, alpha, N), d, N);
    CongMul(Pow(message, e), Pow(c, e) * Pow(hidden, e), A, mask * d, N);
    PowPow(request, x, e);
    var m: nat := x * e;
    assert e * x + alpha == m + alpha;
    PowAdd(request, m, alpha);
    CongMul(Pow(request, m) * d, Pow(request, m) * d, total, Pow(hidden, e) * mask, N);
    Rearranged(Pow(c, e), d, Pow(hidden, e), mask);
  }

  lemma Rearranged(a: int, b: int, c: int, d: int)
    ensures (a * b) * (c * d) == (a * c) * (d * b)
  {
    assert (a * b) * (c * d) == (a * c) * (b * d) by { FourFactors(a, b, c, d); }
    assert b * d == d * b;
  }

  lemma HonestRing(ring: R.PrivateKey, x: nat, mu: nat, alpha: nat, gamma: nat, e: nat)
    requires R.ValidKey(ring)
    ensures RingEquation(ring, e * x + alpha, e * mu + gamma,
                         R.CreateCommitment(ring.pub, alpha, gamma), R.CreateCommitment(ring.pub, x, mu), e)
  {
    var n, s, t := ring.pub.n, ring.pub.s, ring.pub.t;
    var z, v := e * x + alpha, e * mu + gamma;
    R.TrapdoorCommitment(ring, z, v);
    CongMod(Pow(s, x) * Pow(t, mu), n);
    CongPow(R.CreateCommitment(ring.pub, x, mu), Pow(s, x) * Pow(t, mu), e, n);
    CongMod(Pow(s, alpha) * Pow(t, gamma), n);
    CongMul(Pow(R.CreateCommitment(ring.pub, x, mu), e), Pow(Pow(s, x) * Pow(t, mu), e),
            R.CreateCommitment(ring.pub, alpha, gamma), Pow(s, alpha) * Pow(t, gamma), n);
    PowProduct(Pow(s, x), Pow(t, mu), e);
    OpenedPower(s, x, alpha, e);
    OpenedPower(t, mu, gamma, e);
    FourFactors(Pow(Pow(s, x), e), Pow(Pow(t, mu), e), Pow(s, alpha), Pow(t, gamma));
  }

  lemma OpenedPower(s: int, x: nat, alpha: nat, e: nat)
    ensures Pow(s, e * x + alpha) == Pow(Pow(s, x), e) * Pow(s, alpha)
  {
    PowPow(s, x, e);
    var m: nat := x * e;
    assert e * x + alpha == m + alpha;
    PowAdd(s, m, alpha);
  }

  lemma HonestPoint(x: nat, alpha: nat, e: nat, q: int)
    requires q > 0
    ensures GeneratorMul(e * x + alpha, q) == AddPoints(GeneratorMul(alpha % q, q), PointMul(GeneratorMul(x, q), e, q), q)
  {
    CongMod(x, q);
    CongMod(alpha, q);
    CongMod(alpha % q, q);
    MulCong(x % q, x, e, e, q);
    AddCong((alpha % q) % q, alpha, MulMod(x % q, e, q), x * e, q);
    assert alpha + x * e == e * x + alpha;
    ModUnique(AddScalars((alpha % q) % q, MulMod(x % q, e, q), q), 0, AddScalars((alpha % q) % q, MulMod(x % q, e, q), q), q);
  }

  /** The honest answer to a request. */
  function HonestResponse(ctx: Context, request: nat, wit: Witness, no: Nonces): Response
    requires ctx.ownN > 0 && ctx.otherN > 0 && ctx.ring.pub.n > 0 && ctx.q > 0
    requires forall m, c, f :: 0 <= ctx.challenge(m, c, f)
  {
    var message := AnswerValue(ctx.ownN, request, wit.x, wit.y, wit.rMessage);
    var commitment := P.EncryptValue(ctx.otherN, wit.rCommitment, wit.y);
    var first := ProverFirst(ctx, request, wit, no);
    Response(message, commitment, Prove(ctx, wit, no, first, ctx.challenge(message, commitment, first)))
  }

  /** What the honest prover sends: masked answers, with commitments to the masks as its first move. */
  lemma HonestMeans(ctx: Context, request: nat, wit: Witness, no: Nonces)
    requires ValidContext(ctx)
    ensures
      var resp := HonestResponse(ctx, request, wit, no);
      var p, f, e := resp.proof, resp.proof.first, ctx.challenge(resp.message, resp.commitment, resp.proof.first);
      var n, m, ring := ctx.ownN, ctx.otherN, ctx.ring.pub;
      && Cong(resp.message, Pow(request, wit.x) * ((1 + n * wit.y) * Pow(wit.rMessage, n)), n * n)
      && Cong(resp.commitment, (1 + m * wit.y) * Pow(wit.rCommitment, m), m * m)
      && Cong(f.A, Pow(request, no.alpha) * ((1 + n * no.beta) * Pow(no.r, n)), n * n)
      && Cong(f.Bx.log, no.alpha, ctx.q) && Cong(f.By, (1 + m * no.beta) * Pow(no.ry, m), m * m)
      && Cong(f.E, Pow(ring.s, no.alpha) * Pow(ring.t, no.gamma), ring.n)
      && Cong(f.F, Pow(ring.s, no.beta) * Pow(ring.t, no.delta), ring.n)
      && Cong(f.S, Pow(ring.s, wit.x) * Pow(ring.t, no.mu), ring.n)
      && Cong(f.T, Pow(ring.s, wit.y) * Pow(ring.t, no.nu), ring.n)
      && p.z1 == e * wit.x + no.alpha && p.z2 == e * wit.y + no.beta
      && p.z3 == e * no.mu + no.gamma && p.z4 == e * no.nu + no.delta
      && Cong(p.w, Pow(wit.rMessage, e) * no.r, n) && Cong(p.wy, Pow(wit.rCommitment, e) * no.ry, m)
  {
    var resp := HonestResponse(ctx, request, wit, no);
    var n, m, ring, e := ctx.ownN, ctx.otherN, ctx.ring.pub, Challenge(ctx, resp);
    AnswerValueCong(n, request, wit.x, wit.y, wit.rMessage);
    AnswerValueCong(n, request, no.alpha, no.beta, no.r);
    P.EncryptValueCong(m, wit.rCommitment, wit.y);
    P.EncryptValueCong(m, no.ry, no.beta);
    var mask, power := P.EncryptValue(n, no.r, no.beta), ModExp(request, no.alpha, n * n);
    assert mask * power == power * mask;
    CongMod(no.alpha % ctx.q, ctx.q);
    CongMod(no.alpha, ctx.q);
    CongMod(Pow(ring.s, no.alpha) * Pow(ring.t, no.gamma), ring.n);
    CongMod(Pow(ring.s, no.beta) * Pow(ring.t, no.delta), ring.n);
    CongMod(Pow(ring.s, wit.x) * Pow(ring.t, no.mu), ring.n);
    CongMod(Pow(ring.s, wit.y) * Pow(ring.t, no.nu), ring.n);
    Combined(wit.rMessage, no.r, e, n);
    Combined(wit.rCommitment, no.ry, e, m);
  }

  lemma Combined(rho: int, r: int, e: nat, n: int)
    requires n > 0
    ensures Cong(MulMod(ModExp(rho, e, n), r, n), Pow(rho, e) * r, n)
  {
    CongMod(Pow(rho, e), n);
    CongMulMod(ModExp(rho, e, n), Pow(rho, e), r, r, n);
  }

  ghost predicate HonestInputs(ctx: Context, request: nat, k: int, wit: Witness, no: Nonces)
    requires ValidContext(ctx)
  {
    && P.Encrypts(ctx.ownN, request, k)
    && Unit(wit.rMessage, ctx.ownN) && Unit(wit.rCommitment, ctx.otherN) && Unit(no.r, ctx.ownN) && Unit(no.ry, ctx.otherN)
  }

  /**
   An honest answer is accepted exactly when the two Paillier moduli have equally many bytes, no
   value of the first move is short, z1 is not zero, and the two range-checked responses fit.
   */
  lemma HonestAccepted(ctx: Context, request: nat, k: int, wit: Witness, no: Nonces)
    requires ValidContext(ctx) && HonestInputs(ctx, request, k, wit, no)
    ensures
      var resp := HonestResponse(ctx, request, wit, no);
      SingleAccepts(ctx, request, GeneratorMul(wit.x, ctx.q), resp) <==>
        && NumBytes(ctx.ownN) == NumBytes(ctx.otherN) && LongFirstMove(ctx, resp.proof.first)
        && 0 < resp.proof.z1 && NumBytes(resp.proof.z1) <= Z1_BYTES && NumBytes(resp.proof.z2) <= Z2_BYTES
  {
    var resp := HonestResponse(ctx, request, wit, no);
    HonestEquations(ctx, request, k, wit, no);
    HonestPoint(wit.x, no.alpha, Challenge(ctx, resp), ctx.q);
    HonestCiphertexts(ctx, request, k, wit, no);
  }

  lemma HonestEquations(ctx: Context, request: nat, k: int, wit: Witness, no: Nonces)
    requires ValidContext(ctx) && HonestInputs(ctx, request, k, wit, no)
    ensures
      var resp := HonestResponse(ctx, request, wit, no);
      var p, f, e := resp.proof, resp.proof.first, Challenge(ctx, resp);
      && AnswerEquation(ctx.ownN, request, resp.message, f.A, p.z1, p.z2, p.w, e)
      && CommitmentEquation(ctx.otherN, resp.commitment, f.By, p.z2, p.wy, e)
      && RingEquation(ctx.ring, p.z1, p.z3, f.E, f.S, e)
      && RingEquation(ctx.ring, p.z2, p.z4, f.F, f.T, e)
  {
    var resp := HonestResponse(ctx, request, wit, no);
    var e := Challenge(ctx, resp);
    HonestAnswer(ctx, request, wit, no, resp.message, e);
    HonestCommitment(ctx.otherN, wit, no, e);
    HonestRing(ctx.ring, wit.x, no.mu, no.alpha, no.gamma, e);
    HonestRing(ctx.ring, wit.y, no.nu, no.beta, no.delta, e);
  }

  lemma HonestCommitment(n: int, wit: Witness, no: Nonces, e: nat)
    requires n > 0 && Unit(wit.rCommitment, n) && Unit(no.ry, n)
    ensures CommitmentEquation(n, P.EncryptValue(n, wit.rCommitment, wit.y), P.EncryptValue(n, no.ry, no.beta),
                               e * wit.y + no.beta, MulMod(ModExp(wit.rCommitment, e, n), no.ry, n), e)
  {
    CombinedRandomness(n, wit.rCommitment, no.ry, e);
    P.EncryptValueCong(n, wit.rCommitment, wit.y);
    EncryptionCombines(n, P.EncryptValue(n, wit.rCommitment, wit.y), wit.rCommitment, wit.y, no.ry, no.beta, e);
  }

  /**
   There are draws that the verifiers refuse: the largest alpha that can be drawn makes z1 too long
   as soon as the challenge and x are not zero.
   */
  lemma {:induction false} MaskCanOverflow(ctx: Context, request: nat, k: int, wit: Witness, no: Nonces)
    requires ValidContext(ctx) && HonestInputs(ctx, request, k, wit, no)
    requires LargestOfBits(no.alpha, 8 * Z1_BYTES) && wit.x > 0 && Challenge(ctx, HonestResponse(ctx, request, wit, no)) > 0
    ensures !SingleAccepts(ctx, request, GeneratorMul(wit.x, ctx.q), HonestResponse(ctx, request, wit, no))
  {
    var e := Challenge(ctx, HonestResponse(ctx, request, wit, no));
    MaskTooLong(no.alpha, e, wit.x, Z1_BYTES);
  }

  lemma {:induction false} MaskTooLong(alpha: nat, e: nat, x: nat, bytes: nat)
    requires LargestOfBits(alpha, 8 * bytes) && e > 0 && x > 0
    ensures e * x >= 0 && NumBytes(e * x + alpha) > bytes
  {
    MultipleGrows(e, x);
    BitsMonotone(alpha + 1, e * x + alpha);
  }

  lemma HonestCiphertexts(ctx: Context, request: nat, k: int, wit: Witness, no: Nonces)
    requires ValidContext(ctx) && P.Encrypts(ctx.ownN, request, k)
    requires Unit(wit.rMessage, ctx.ownN) && Unit(wit.rCommitment, ctx.otherN) && Unit(no.r, ctx.ownN) && Unit(no.ry, ctx.otherN)
    ensures Unit(AnswerValue(ctx.ownN, request, wit.x, wit.y, wit.rMessage), ctx.ownN)
    ensures Unit(ProverFirst(ctx, request, wit, no).A, ctx.ownN)
    ensures Unit(P.EncryptValue(ctx.otherN, wit.rCommitment, wit.y), ctx.otherN)
    ensures Unit(ProverFirst(ctx, request, wit, no).By, ctx.otherN)
  {
    var n, N := ctx.ownN, ctx.ownN * ctx.ownN;
    AnswerEncrypts(n, request, k, wit.x, wit.y, wit.rMessage);
    P.CiphertextUnit(n, AnswerValue(n, request, wit.x, wit.y, wit.rMessage), k * wit.x + wit.y);
    AnswerEncrypts(n, request, k, no.alpha, no.beta, no.r);
    P.CiphertextUnit(n, AnswerValue(n, request, no.alpha, no.beta, no.r), k * no.alpha + no.beta);
    assert P.EncryptValue(n, no.r, no.beta) * ModExp(request, no.alpha, N) == ModExp(request, no.alpha, N) * P.EncryptValue(n, no.r, no.beta);
    P.EncryptValueCong(ctx.otherN, wit.rCommitment, wit.y);
    assert P.EncryptsWith(ctx.otherN, P.EncryptValue(ctx.otherN, wit.rCommitment, wit.y), wit.y, wit.rCommitment);
    P.CiphertextUnit(ctx.otherN, P.EncryptValue(ctx.otherN, wit.rCommitment, wit.y), wit.y);
    P.EncryptValueCong(ctx.otherN, no.ry, no.beta);
    assert P.EncryptsWith(ctx.otherN, P.EncryptValue(ctx.otherN, no.ry, no.beta), no.beta, no.ry);
    P.CiphertextUnit(ctx.otherN, P.EncryptValue(ctx.otherN, no.ry, no.beta), no.beta);
  }
}
