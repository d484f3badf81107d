/**
 cmp_ecdsa_offline_signing_service.cpp: partial signatures from a presignature, and their sum.
 */
module EcdsaSigning {
  import opened Modular
  import opened NumberTheory
  import opened Wrappers
  import opened Curve
  import opened Sums
  import opened Scalars
  import opened HdDerive
  import CmpPresigning
  import Presignature

  /** A curve as the signing code sees it: order, threshold of is_positive, and x-coordinate and parity of y by point. */
  datatype CurveMap = CurveMap(algorithm: Algorithm, q: int, threshold: nat, X: Point -> nat, Odd: Point -> bool)

  function Negate(p: Point, q: int): (r: Point)
    requires q > 0
    ensures OnCurve(r, q)
  {
    Point((-p.log) % q)
  }

  ghost predicate Finite(c: CurveMap, p: Point) {
    OnCurve(p, c.q) && p != Infinity
  }

  /**
   A group of prime order in which two points share an x-coordinate exactly when they are opposite,
   and the parity tells them apart.
   */
  ghost predicate PointGroup(c: CurveMap) {
    && Prime(c.q) && c.q > 256
    && (forall p | Finite(c, p) :: c.X(p) < 2 * c.q && c.X(Negate(p, c.q)) == c.X(p) && c.Odd(Negate(p, c.q)) != c.Odd(p))
    && forall p, p' | Finite(c, p) && Finite(c, p') && c.X(p) == c.X(p') :: p' == p || p' == Negate(p, c.q)
  }

  /** One of the three curves. */
  ghost predicate ValidCurve(c: CurveMap) {
    && PointGroup(c)
    && c.algorithm != Ed25519 && c.q == Order(c.algorithm) && c.threshold == Threshold(c.algorithm)
  }

  /** The distance of a logarithm to the nearest multiple of q. */
  function Distance(q: int): Point -> nat {
    (p: Point) => if 0 <= p.log && 2 * p.log < q then p.log else if p.log <= q then q - p.log else 0
  }

  function InFirstHalf(q: int): Point -> bool {
    (p: Point) => 2 * p.log < q
  }

  lemma NegateLog(p: Point, q: int)
    requires 0 < p.log < q
    ensures Negate(p, q).log == q - p.log
  {
    ModUnique(-p.log, -1, q - p.log, q);
  }

  lemma DistanceFacts(q: int, p: Point)
    requires Prime(q) && q > 256 && 0 < p.log < q
    ensures Distance(q)(p) < 2 * q && Distance(q)(Negate(p, q)) == Distance(q)(p) && InFirstHalf(q)(Negate(p, q)) != InFirstHalf(q)(p)
  {
    NegateLog(p, q);
    assert !Divides(2, q);
  }

  lemma DistanceTells(q: int, p: Point, p': Point)
    requires 0 < p.log < q && 0 < p'.log < q && Distance(q)(p) == Distance(q)(p')
    ensures p' == p || p' == Negate(p, q)
  {
    NegateLog(p, q);
  }

  /**
   What is said of a PointGroup is said of something: such groups exist for every prime order above 256,
   with the distance to 0 as the x-coordinate.
   */
  lemma PointGroupExists(a: Algorithm, q: int, threshold: nat)
    requires Prime(q) && q > 256
    ensures PointGroup(CurveMap(a, q, threshold, Distance(q), InFirstHalf(q)))
  {
    var c := CurveMap(a, q, threshold, Distance(q), InFirstHalf(q));
    forall p | Finite(c, p)
      ensures c.X(p) < 2 * q && c.X(Negate(p, q)) == c.X(p) && c.Odd(Negate(p, q)) != c.Odd(p)
    {
      DistanceFacts(q, p);
    }
    forall p, p' | Finite(c, p) && Finite(c, p') && c.X(p) == c.X(p') ensures p' == p || p' == Negate(p, q) {
      DistanceTells(q, p, p');
    }
  }

  // ----- The nonce point -----

  /** GFp_curve_algebra_get_point_projection: the x-coordinate modulo the order, by one subtraction. */
  function Projection(c: CurveMap, p: Point): Option<(int, bool)> {
    if p == Infinity then None
    else if c.X(p) >= c.q then Some((c.X(p) - c.q, true)) else Some((c.X(p), false))
  }

  predicate Positive(c: CurveMap, p: Point) {
    Projection(c, p).Some? && Projection(c, p).value.0 < c.threshold
  }

  ghost predicate NonePositive(c: CurveMap, base: Point, to: nat)
    requires c.q > 0
  {
    forall j | 1 <= j < to :: !Positive(c, PointMul(base, j, c.q))
  }

  /** j is the least counter whose multiple of the base has a positive r. */
  ghost predicate LeastPositive(c: CurveMap, base: Point, j: nat)
    requires c.q > 0
  {
    1 <= j <= 255 && Positive(c, PointMul(base, j, c.q)) && NonePositive(c, base, j)
  }

  ghost function FirstPositive(c: CurveMap, base: Point): (r: Option<nat>)
    requires c.q > 0
    ensures r.Some? ==> LeastPositive(c, base, r.value)
  {
    if j: nat :| LeastPositive(c, base, j) then Some(j) else None
  }

  lemma FirstPositiveIs(c: CurveMap, base: Point, j: nat)
    requires c.q > 0 && LeastPositive(c, base, j)
    ensures FirstPositive(c, base) == Some(j)
  {
  }

  /** The search fails exactly when none of the first 255 multiples is positive. */
  lemma FirstPositiveNone(c: CurveMap, base: Point)
    requires c.q > 0
    ensures FirstPositive(c, base).None? <==> NonePositive(c, base, 256)
  {
    if !NonePositive(c, base, 256) {
      var j :| 1 <= j < 256 && Positive(c, PointMul(base, j, c.q));
      LeastExists(c, base, j);
    }
  }

  lemma {:induction false} LeastExists(c: CurveMap, base: Point, j: nat)
    requires c.q > 0 && 1 <= j <= 255 && Positive(c, PointMul(base, j, c.q))
    ensures exists i: nat :: LeastPositive(c, base, i)
  {
    if NonePositive(c, base, j) {
      assert LeastPositive(c, base, j);
    } else {
      var i :| 1 <= i < j && Positive(c, PointMul(base, i, c.q));
      LeastExists(c, base, i);
    }
  }

  lemma SmallMultiple(c: CurveMap, base: Point, j: nat)
    requires PointGroup(c) && Finite(c, base) && 1 <= j <= 256
    ensures Finite(c, PointMul(base, j, c.q))
    ensures PointMul(base, 1, c.q) == base
    ensures AddPoints(base, PointMul(base, j, c.q), c.q) == PointMul(base, j + 1, c.q)
  {
    ProductNotZero(base.log, j, c.q);
    NextMultiple(base.log, j, c.q);
    ModUnique(base.log * 1, 0, base.log, c.q);
  }

  lemma ProductNotZero(a: int, j: int, q: int)
    requires Prime(q) && 0 < a < q && 0 < j < q
    ensures (a * j) % q != 0
  {
    ModUnique(a, 0, a, q);
    ModUnique(j, 0, j, q);
    PrimeUnit(a, q);
    PrimeUnit(j, q);
    UnitProduct(a, j, q);
    UnitNotZero(a * j, q);
  }

  lemma NextMultiple(a: int, j: int, q: int)
    requires q > 0
    ensures (a + (a * j) % q) % q == (a * (j + 1)) % q
  {
    CongMod(a * j, q);
    CongAdd(a, a, (a * j) % q, a * j, q);
    assert a + a * j == a * (j + 1);
  }

  /** The state of the search for a positive r: the point is the counter's multiple of the base, 0 standing for 256. */
  ghost predicate Searching(c: CurveMap, base: Point, R: Point, counter: nat, r: int, overflow: bool)
    requires c.q > 0
  {
    && counter < 256
    && Finite(c, R) && R == PointMul(base, if counter == 0 then 256 else counter, c.q)
    && Projection(c, R) == Some((r, overflow))
    && NonePositive(c, base, if counter == 0 then 256 else counter)
  }

  lemma SearchStarts(c: CurveMap, base: Point)
    requires PointGroup(c) && Finite(c, base)
    ensures Searching(c, base, base, 1, Projection(c, base).value.0, Projection(c, base).value.1)
  {
    SmallMultiple(c, base, 1);
  }

  lemma NextPoint(c: CurveMap, base: Point, counter: nat)
    requires PointGroup(c) && Finite(c, base) && 1 <= counter <= 255
    ensures AddPoints(base, PointMul(base, counter, c.q), c.q) == PointMul(base, counter + 1, c.q)
    ensures Finite(c, PointMul(base, counter + 1, c.q))
  {
    SmallMultiple(c, base, counter);
    SmallMultiple(c, base, counter + 1);
  }

  /** One round of the search. The counter is a byte and wraps to 0. */
  method Retry(c: CurveMap, base: Point, R: Point, counter: nat, r: int, overflow: bool)
    returns (R': Point, counter': nat, r': int, overflow': bool)
    requires ValidCurve(c) && Finite(c, base) && Searching(c, base, R, counter, r, overflow)
    requires counter != 0 && !Positive(c, R)
    ensures Searching(c, base, R', counter', r', overflow') && counter' == (counter + 1) % 256
  {
    NextPoint(c, base, counter);
    counter' := (counter + 1) % 256;
    R' := AddPoints(base, R, c.q);
    SearchStep(c, base, R, R', counter);
    var projection := Projection(c, R');
    r', overflow' := projection.value.0, projection.value.1;
  }

  lemma SearchStep(c: CurveMap, base: Point, R: Point, R': Point, counter: nat)
    requires c.q > 0 && 1 <= counter <= 255 && NonePositive(c, base, counter) && !Positive(c, R)
    requires R == PointMul(base, counter, c.q) && R' == PointMul(base, counter + 1, c.q) && Finite(c, R')
    ensures Searching(c, base, R', (counter + 1) % 256, Projection(c, R').value.0, Projection(c, R').value.1)
  {
    forall j | 1 <= j < counter + 1 ensures !Positive(c, PointMul(base, j, c.q)) {
      if j == counter { assert PointMul(base, j, c.q) == R; }
    }
  }

  lemma SearchDone(c: CurveMap, base: Point, R: Point, counter: nat, r: int, overflow: bool, positiveR: bool)
    requires c.q > 0 && Searching(c, base, R, counter, r, overflow)
    requires (!positiveR ==> counter == 1) && (positiveR && counter != 0 ==> Positive(c, R))
    ensures positiveR ==> (FirstPositive(c, base).Some? <==> counter != 0)
    ensures counter != 0 ==> R == PointMul(base, counter, c.q) && (positiveR ==> FirstPositive(c, base).value == counter)
  {
    FirstPositiveNone(c, base);
    if positiveR && counter != 0 { FirstPositiveIs(c, base, counter); }
  }

  /** Projects the base, and adds it up until r is positive if that is asked for. */
  method PickNonce(c: CurveMap, base: Point, positiveR: bool) returns (result: Result<(Point, nat, int, bool)>)
    requires ValidCurve(c) && OnCurve(base, c.q)
    ensures result.Success? <==> base != Infinity && (positiveR ==> FirstPositive(c, base).Some?)
    ensures result.Success? ==>
      var counter := if positiveR then FirstPositive(c, base).value else 1;
      var R := PointMul(base, counter, c.q);
      Finite(c, R) && result.value == (R, counter, Projection(c, R).value.0, Projection(c, R).value.1)
  {
    var R := base;
    var projection := Projection(c, R);
    if projection.None? { return Failure(InternalError); }
    var (r, overflow) := projection.value;
    var counter: nat := 1;
    SearchStarts(c, base);
    var positive := IsPositiveScalar(c, R, r);
    while positiveR && !positive && counter != 0
      invariant Searching(c, base, R, counter, r, overflow) && (positive <==> Positive(c, R))
      invariant !positiveR ==> counter == 1
      decreases if counter == 0 then 0 else 256 - counter
    {
      R, counter, r, overflow := Retry(c, base, R, counter, r, overflow);
      positive := IsPositiveScalar(c, R, r);
    }
    SearchDone(c, base, R, counter, r, overflow, positiveR);
    if counter == 0 { return Failure(InternalError); }
    return Success((R, counter, r, overflow));
  }

  method IsPositiveScalar(c: CurveMap, p: Point, r: int) returns (positive: bool)
    requires ValidCurve(c) && Finite(c, p) && Projection(c, p).Some? && r == Projection(c, p).value.0
    ensures positive <==> Positive(c, p)
  {
    OrderFits(c.algorithm, r);
    positive := IsPositiveNumber(c.algorithm, r);
  }

  // ----- One player's share of a signature -----

  /** One block to sign, with the outcome of the key derivation for its path. */
  datatype Block = Block(message: nat, delta: int, derivedKey: Point, randomize: bool, positiveR: bool)

  /** One block as it is asked for; size is the length of its message in bytes. */
  datatype Request = Request(message: nat, size: nat, path: seq<nat>, randomize: bool, positiveR: bool)

  /**
   What a request comes to. The tweak is derived privately, so hardened indices are no obstacle; the
   derived key is computed, publicly, only if the protocol version scales R.
   */
  function DerivedBlock(q: int, root: Root, request: Request): Result<Block>
    requires q > 0
  {
    var end := PrivateEnd(q, root, request.path);
    if end.Failure? || (request.randomize && PublicEnd(q, root, request.path).Failure?) then Failure(InternalError)
    else Success(Block(request.message, end.value.priv, end.value.pub, request.randomize, request.positiveR))
  }

  method DeriveBlock(q: int, root: Root, request: Request) returns (block: Result<Block>)
    requires q > 0
    ensures block == DerivedBlock(q, root, request)
  {
    PublicExactly(q, root, request.path);
    if request.randomize {
      var derived := DerivePublicKey(q, root.hmac, root.pub, root.chain, request.path);
      if derived.Failure? { return Failure(InternalError); }
    }
    var keys := DerivePrivateAndPublicKeys(q, root.hmac, root.pub, 0, root.chain, request.path);
    if keys.Failure? { return Failure(InternalError); }
    var (delta, derived) := keys.value;
    return Success(Block(request.message, delta, if derived.Some? then derived.value else root.pub, request.randomize, request.positiveR));
  }

  /** The derived key belongs to the joint key plus the tweak, along every path; a scaled R needs a path without hardened indices. */
  lemma {:induction false} DerivedBlockMatches(q: int, root: Root, x: int, request: Request)
    requires q > 0 && Cong(root.pub.log, x, q) && DerivedBlock(q, root, request).Success?
    ensures var block := DerivedBlock(q, root, request).value;
      Cong(block.derivedKey.log, x + block.delta, q) && (block.randomize ==> Plain(request.path))
  {
    DerivedKeyMatches(q, root, x, request.path);
    PublicExactly(q, root, request.path);
  }

  /** SHA-256 of R, the derived key and the message, as a number. */
  type Hash = (Point, Point, nat) -> nat

  /** What all players derive alike from the common R: the scaled point, r and v, and the factors to divide by. */
  datatype Nonce = Nonce(point: Point, r: int, v: nat, hash: Option<int>, counter: Option<int>)

  function ScaledBase(R: Point, block: Block, hash: Hash, q: int): Point
    requires q > 0
  {
    if block.randomize then PointMul(R, hash(R, block.derivedKey, block.message), q) else R
  }

  /** sig.v */
  function RecoveryId(overflow: bool, odd: bool): nat {
    (if overflow then 2 else 0) + (if odd then 1 else 0)
  }

  ghost function SharedNonce(c: CurveMap, R: Point, block: Block, hash: Hash): Result<Nonce>
    requires c.q > 0
  {
    var q, base := c.q, ScaledBase(R, block, hash, c.q);
    var hashInverse := if block.randomize then ModInverse(hash(R, block.derivedKey, block.message), q) else Some(1);
    var counter := if block.positiveR then FirstPositive(c, base) else Some(1);
    if hashInverse.None? || base == Infinity || counter.None? then Failure(InternalError)
    else
      var point := PointMul(base, counter.value, q);
      var counterInverse := ModInverse(counter.value, q);
      var projection := Projection(c, point);
      if counterInverse.None? || projection.None? then Failure(InternalError)
      else
        Success(Nonce(point, projection.value.0, RecoveryId(projection.value.1, c.Odd(point)),
                      if block.randomize then hashInverse else None,
                      if counter.value > 1 then counterInverse else None))
  }

  function Scaled(s: int, inverse: Option<int>, q: int): (r: int)
    requires q > 0
    ensures 0 <= s < q ==> 0 <= r < q
  {
    if inverse.Some? then MulMod(s, inverse.value, q) else s
  }

  /** k(m + r*delta) + r(k*x + chi), divided by the hash and the counter. */
  function PartialS(q: int, k: int, x: int, chi: int, block: Block, nonce: Nonce): (s: int)
    requires q > 0
    ensures 0 <= s < q
  {
    var first := MulMod(AddScalars(MulMod(nonce.r, block.delta, q), block.message, q), k, q);
    var second := MulMod(AddScalars(MulMod(k, x, q), chi, q), nonce.r, q);
    Scaled(Scaled(AddScalars(first, second, q), nonce.hash, q), nonce.counter, q)
  }

  /** One block of ecdsa_sign. */
  method SignBlock(c: CurveMap, key: int, k: int, chi: int, R: Point, block: Block, hash: Hash) returns (result: Result<Signature>)
    requires ValidCurve(c) && OnCurve(R, c.q)
    ensures var nonce := SharedNonce(c, R, block, hash);
      && (result.Success? <==> nonce.Success?)
      && (result.Success? ==> result.value.r == nonce.value.r && result.value.v == nonce.value.v
                              && result.value.s == PartialS(c.q, k, key, chi, block, nonce.value))
  {
    var q, base := c.q, R;
    var hashInverse: Option<int> := None;
    if block.randomize {
      var hram := hash(R, block.derivedKey, block.message);
      base := PointMul(R, hram, q);
      hashInverse := ModInverse(hram, q);
      if hashInverse.None? { return Failure(InternalError); }
    }
    var picked := PickNonce(c, base, block.positiveR);
    if picked.Failure? { return Failure(picked.error); }
    var (point, counter, r, overflow) := picked.value;
    var tmp := MulMod(r, block.delta, q);
    tmp := AddScalars(tmp, block.message, q);
    var s := MulMod(tmp, k, q);
    tmp := MulMod(k, key, q);
    tmp := AddScalars(tmp, chi, q);
    tmp := MulMod(tmp, r, q);
    s := AddScalars(s, tmp, q);
    if block.randomize { s := MulMod(s, hashInverse.value, q); }
    CounterInvertible(c, counter);
    if counter > 1 {
      var counterInverse := ModInverse(counter, q);
      if counterInverse.None? { return Failure(InternalError); }
      s := MulMod(s, counterInverse.value, q);
    }
    return Success(Signature(r, s, RecoveryId(overflow, c.Odd(point))));
  }

  lemma CounterInvertible(c: CurveMap, counter: nat)
    requires PointGroup(c) && 1 <= counter <= 255
    ensures Unit(counter, c.q)
  {
    ModUnique(counter, 0, counter, c.q);
    PrimeUnit(counter, c.q);
  }

  // ----- The scaling cancels -----

  function Factor(inverse: Option<int>): int {
    if inverse.Some? then inverse.value else 1
  }

  lemma ScaleUndone(R: int, h: int, hInverse: int, counter: int, cInverse: int, q: int)
    requires q > 0 && Cong(h * hInverse, 1, q) && Cong(counter * cInverse, 1, q)
    ensures Cong((((R * h) % q) * counter) % q * (hInverse * cInverse), R, q)
  {
    CongMod(R * h, q);
    CongMulLeft((R * h) % q, R * h, counter, q);
    CongMod((R * h) % q * counter, q);
    CongMulLeft(((R * h) % q * counter) % q, R * h * counter, hInverse * cInverse, q);
    CongMul(h * hInverse, 1, counter * cInverse, 1, q);
    CongMulLeft((h * hInverse) * (counter * cInverse), 1, R, q);
    FiveFactors(R, h, counter, hInverse, cInverse);
  }

  lemma FiveFactors(R: int, h: int, c: int, h': int, c': int)
    ensures R * h * c * (h' * c') == (h * h') * (c * c') * R
  {
    FourFactors(h, c, h', c');
    assert R * h * c * (h' * c') == R * ((h * c) * (h' * c')) by {
      assert R * h * c == R * (h * c);
      assert R * (h * c) * (h' * c') == R * ((h * c) * (h' * c'));
    }
  }

  lemma NoncePoint(R: Point, base: Point, h: int, h': int, counter: int, c': int, q: int)
    requires q > 0 && base == PointMul(R, h, q) && Cong(h * h', 1, q) && Cong(counter * c', 1, q)
    ensures Cong(PointMul(base, counter, q).log * (h' * c'), R.log, q)
  {
    ScaleUndone(R.log, h, h', counter, c', q);
  }

  lemma TimesOne(R: Point, q: int)
    requires q > 0 && OnCurve(R, q)
    ensures PointMul(R, 1, q) == R
  {
    ModUnique(R.log * 1, 0, R.log, q);
  }

  /** The nonce point divided by the factors is R, and it projects to r and v. */
  lemma NonceFacts(c: CurveMap, R: Point, block: Block, hash: Hash)
    requires PointGroup(c) && OnCurve(R, c.q) && SharedNonce(c, R, block, hash).Success?
    ensures var nonce := SharedNonce(c, R, block, hash).value;
      && Finite(c, nonce.point)
      && Cong(nonce.point.log * (Factor(nonce.hash) * Factor(nonce.counter)), R.log, c.q)
      && (exists overflow: bool :: NonceCoordinates(c, nonce, overflow))
  {
    var q, nonce := c.q, SharedNonce(c, R, block, hash).value;
    var base := ScaledBase(R, block, hash, q);
    var counter := if block.positiveR then FirstPositive(c, base).value else 1;
    var h := if block.randomize then hash(R, block.derivedKey, block.message) else 1;
    TimesOne(R, q);
    NonceFinite(c, base, counter);
    NoncePoint(R, base, h, Factor(nonce.hash), counter, Factor(nonce.counter), q);
    assert NonceCoordinates(c, nonce, Projection(c, nonce.point).value.1);
  }

  lemma NonceFinite(c: CurveMap, base: Point, counter: nat)
    requires PointGroup(c) && Finite(c, base) && 1 <= counter <= 255
    ensures Finite(c, PointMul(base, counter, c.q))
  {
    SmallMultiple(c, base, counter);
  }

  ghost predicate NonceCoordinates(c: CurveMap, nonce: Nonce, overflow: bool) {
    && 0 <= nonce.r < c.q
    && c.X(nonce.point) == nonce.r + (if overflow then c.q else 0)
    && nonce.v == RecoveryId(overflow, c.Odd(nonce.point))
  }

  // ----- What a request's flags decide -----

  /** p is counter times the base: the base itself or, if a positive r is asked for, its least multiple with one. */
  ghost predicate LeastMultiple(c: CurveMap, base: Point, positiveR: bool, p: Point, counter: nat)
    requires c.q > 0
  {
    && 1 <= counter <= 255 && p == PointMul(base, counter, c.q)
    && (if positiveR
        then c.X(p) % c.q < c.threshold && forall j: nat | 1 <= j < counter :: c.X(PointMul(base, j, c.q)) % c.q >= c.threshold
        else counter == 1)
  }

  /** p is the nonce point of a request: its multiple is taken of R, times the hash over the publicly derived key if R is scaled. */
  ghost predicate NonceOfRequest(c: CurveMap, R: Point, root: Root, request: Request, hash: Hash, p: Point, counter: nat)
    requires c.q > 0
  {
    var end := PublicEnd(c.q, root, request.path);
    && (request.randomize ==> end.Success?)
    && LeastMultiple(c, if request.randomize then PointMul(R, hash(R, end.value.pub, request.message), c.q) else R, request.positiveR, p, counter)
  }

  lemma ProjectionIsMod(c: CurveMap, p: Point)
    requires PointGroup(c) && Finite(c, p)
    ensures Projection(c, p) == Some((c.X(p) % c.q, c.X(p) >= c.q))
  {
    ModUnique(c.X(p), if c.X(p) >= c.q then 1 else 0, if c.X(p) >= c.q then c.X(p) - c.q else c.X(p), c.q);
  }

  lemma ChosenMultiple(c: CurveMap, base: Point, positiveR: bool, counter: nat)
    requires PointGroup(c) && Finite(c, base) && (if positiveR then FirstPositive(c, base) == Some(counter) else counter == 1)
    ensures LeastMultiple(c, base, positiveR, PointMul(base, counter, c.q), counter)
  {
    if positiveR {
      NonceFinite(c, base, counter);
      ProjectionIsMod(c, PointMul(base, counter, c.q));
      forall j: nat | 1 <= j < counter ensures c.X(PointMul(base, j, c.q)) % c.q >= c.threshold {
        NonceFinite(c, base, j);
        ProjectionIsMod(c, PointMul(base, j, c.q));
        assert !Positive(c, PointMul(base, j, c.q));
      }
    }
  }

  /** The nonce of a block, in terms of the request it comes from. */
  lemma {:induction false} NonceChosen(c: CurveMap, R: Point, root: Root, request: Request, hash: Hash)
    requires PointGroup(c) && OnCurve(R, c.q) && DerivedBlock(c.q, root, request).Success?
    requires SharedNonce(c, R, DerivedBlock(c.q, root, request).value, hash).Success?
    ensures var nonce := SharedNonce(c, R, DerivedBlock(c.q, root, request).value, hash).value;
      && (exists counter: nat :: NonceOfRequest(c, R, root, request, hash, nonce.point, counter))
      && nonce.r == c.X(nonce.point) % c.q
      && nonce.v == (if c.X(nonce.point) >= c.q then 2 else 0) + (if c.Odd(nonce.point) then 1 else 0)
  {
    var block := DerivedBlock(c.q, root, request).value;
    var nonce, base := SharedNonce(c, R, block, hash).value, ScaledBase(R, block, hash, c.q);
    var counter := if block.positiveR then FirstPositive(c, base).value else 1;
    PublicExactly(c.q, root, request.path);
    NonceFacts(c, R, block, hash);
    ProjectionIsMod(c, nonce.point);
    ChosenMultiple(c, base, block.positiveR, counter);
    assert NonceOfRequest(c, R, root, request, hash, nonce.point, counter);
  }

  // ----- The sum of the partial signatures -----

  lemma ScaledCong(s: int, expected: int, inverse: Option<int>, q: int)
    requires q > 0 && Cong(s, expected, q)
    ensures Cong(Scaled(s, inverse, q), expected * Factor(inverse), q)
  {
    if inverse.Some? { MulCong(s, expected, inverse.value, inverse.value, q); }
  }

  lemma FirstHalf(q: int, k: int, m: int, d: int, r: int)
    requires q > 0
    ensures Cong(MulMod(AddScalars(MulMod(r, d, q), m, q), k, q), (r * d + m) * k, q)
  {
    MulCong(r, r, d, d, q);
    AddCong(MulMod(r, d, q), r * d, m, m, q);
    MulCong(AddScalars(MulMod(r, d, q), m, q), r * d + m, k, k, q);
  }

  lemma SecondHalf(q: int, k: int, x: int, chi: int, r: int)
    requires q > 0
    ensures Cong(MulMod(AddScalars(MulMod(k, x, q), chi, q), r, q), r * (k * x + chi), q)
  {
    MulCong(k, k, x, x, q);
    AddCong(MulMod(k, x, q), k * x, chi, chi, q);
    var sum := AddScalars(MulMod(k, x, q), chi, q);
    MulCongSwapped(sum, k * x + chi, r, q);
  }

  lemma MulCongSwapped(a: int, a': int, r: int, q: int)
    requires q > 0 && Cong(a, a', q)
    ensures Cong(MulMod(a, r, q), r * a', q)
  {
    MulCong(a, a', r, r, q);
    assert a' * r == r * a';
  }

  lemma PartialCong(q: int, k: int, x: int, chi: int, block: Block, nonce: Nonce)
    requires q > 0
    ensures Cong(PartialS(q, k, x, chi, block, nonce),
                 (Factor(nonce.hash) * Factor(nonce.counter)) * ((nonce.r * block.delta + block.message) * k + nonce.r * (k * x + chi)), q)
  {
    FirstHalf(q, k, block.message, block.delta, nonce.r);
    SecondHalf(q, k, x, chi, nonce.r);
    var first := MulMod(AddScalars(MulMod(nonce.r, block.delta, q), block.message, q), k, q);
    var second := MulMod(AddScalars(MulMod(k, x, q), chi, q), nonce.r, q);
    BothScaled(first, (nonce.r * block.delta + block.message) * k, second, nonce.r * (k * x + chi), nonce.hash, nonce.counter, q);
  }

  lemma BothScaled(a: int, a': int, b: int, b': int, f: Option<int>, g: Option<int>, q: int)
    requires q > 0 && Cong(a, a', q) && Cong(b, b', q)
    ensures Cong(Scaled(Scaled(AddScalars(a, b, q), f, q), g, q), (Factor(f) * Factor(g)) * (a' + b'), q)
  {
    var sum, sum' := AddScalars(a, b, q), a' + b';
    AddCong(a, a', b, b', q);
    ScaledCong(sum, sum', f, q);
    ScaledCong(Scaled(sum, f, q), sum' * Factor(f), g, q);
    FactorsFirst(sum', Factor(f), Factor(g));
  }

  lemma FactorsFirst(a: int, f: int, g: int)
    ensures a * f * g == (f * g) * a
  {
  }

  function Partials(q: int, k: nat -> int, x: nat -> int, chi: nat -> int, block: Block, nonce: Nonce): nat -> int
    requires q > 0
  {
    (i: nat) => PartialS(q, k(i), x(i), chi(i), block, nonce)
  }

  /** The first player's s with the others' added, as the combining service computes it. */
  function TotalS(q: int, n: nat, s: nat -> int): int
    requires q > 0
  {
    CmpPresigning.AddOthers(s(0), n, 0, s, q)
  }

  lemma TotalCong(q: int, n: nat, s: nat -> int)
    requires q > 0 && n > 0
    ensures Cong(TotalS(q, n, s), Sum(n, s), q)
  {
    CmpPresigning.AddOthersCong(s(0), n, 0, s, q);
    SumSplit(n, 0, s);
  }

  lemma PartialsSum(q: int, n: nat, k: nat -> int, x: nat -> int, chi: nat -> int, block: Block, nonce: Nonce)
    requires q > 0
    ensures Cong(Sum(n, Partials(q, k, x, chi, block, nonce)),
                 (Factor(nonce.hash) * Factor(nonce.counter))
                 * ((nonce.r * block.delta + block.message) * Sum(n, k) + nonce.r * Sum(n, Presignature.Shares(k, x, chi))), q)
  {
    var a, u, shares := nonce.r * block.delta + block.message, Factor(nonce.hash) * Factor(nonce.counter), Presignature.Shares(k, x, chi);
    var first, second := (i: nat) => a * k(i), (i: nat) => nonce.r * shares(i);
    var both := (i: nat) => first(i) + second(i);
    var scaled := (i: nat) => u * both(i);
    forall i: nat | i < n ensures Cong(Partials(q, k, x, chi, block, nonce)(i), scaled(i), q) {
      PartialCong(q, k(i), x(i), chi(i), block, nonce);
    }
    SumCong(n, Partials(q, k, x, chi, block, nonce), scaled, q);
    SumTimes(n, u, both, scaled);
    SumPlus(n, first, second, both);
    SumTimes(n, a, k, first);
    SumTimes(n, nonce.r, shares, second);
  }

  // ----- Validity -----

  /** ECDSA verification as in section 4.1.4 of SEC 1. */
  ghost predicate Verifies(c: CurveMap, m: int, r: int, s: int, key: Point)
    requires c.q > 0
  {
    && 0 < r < c.q && 0 < s < c.q
    && ModInverse(s, c.q).Some?
    && var w := ModInverse(s, c.q).value;
      var p := AddPoints(GeneratorMul(MulMod(m, w, c.q), c.q), PointMul(key, MulMod(r, w, c.q), c.q), c.q);
      p != Infinity && c.X(p) % c.q == r
  }

  /** The equation s*P = m*G + r*K between a signature, its nonce point and the key. */
  ghost predicate Equation(m: int, r: int, s: int, p: Point, key: Point, q: int) {
    q > 0 && Cong(s * p.log, m + r * key.log, q)
  }

  /** The point that r and v denote. */
  ghost predicate NoncePointOf(c: CurveMap, sig: Signature, p: Point) {
    Finite(c, p) && c.X(p) == sig.r + (if sig.v / 2 % 2 == 1 then c.q else 0) && c.Odd(p) == (sig.v % 2 == 1)
  }

  lemma NoncePointUnique(c: CurveMap, sig: Signature, p: Point, p': Point)
    requires PointGroup(c) && NoncePointOf(c, sig, p) && NoncePointOf(c, sig, p')
    ensures p == p'
  {
  }

  /** Recovery finds the key from the signature alone: r, s and v fit one key only. */
  lemma RecoveredKeyUnique(c: CurveMap, m: int, sig: Signature, key: Point, key': Point)
    requires PointGroup(c) && 0 < sig.r < c.q && OnCurve(key, c.q) && OnCurve(key', c.q)
    requires ValidSignature(c, m, sig, key) && ValidSignature(c, m, sig, key')
    ensures key == key'
  {
    var p :| NoncePointOf(c, sig, p) && Equation(m, sig.r, sig.s, p, key, c.q);
    var p' :| NoncePointOf(c, sig, p') && Equation(m, sig.r, sig.s, p', key', c.q);
    NoncePointUnique(c, sig, p, p');
    CongSub(m + sig.r * key.log, m + sig.r * key'.log, m, m, c.q);
    ModUnique(sig.r, 0, sig.r, c.q);
    PrimeUnit(sig.r, c.q);
    UnitCancel(sig.r, key.log, key'.log, c.q);
    SamePoint(key, key', c.q);
  }

  lemma CheckedPoint(m: int, r: int, s: int, w: int, p: Point, key: Point, q: int)
    requires Equation(m, r, s, p, key, q) && OnCurve(p, q) && InverseOf(s, w, q)
    ensures AddPoints(GeneratorMul(MulMod(m, w, q), q), PointMul(key, MulMod(r, w, q), q), q) == p
  {
    MulCong(m, m, w, w, q);
    CongMod(MulMod(m, w, q), q);
    MulCong(r, r, w, w, q);
    CongMul(key.log, key.log, MulMod(r, w, q), r * w, q);
    CongMod(key.log * MulMod(r, w, q), q);
    var g, k := GeneratorMul(MulMod(m, w, q), q), PointMul(key, MulMod(r, w, q), q);
    AddCong(g.log, m * w, k.log, key.log * (r * w), q);
    CongMulLeft(s * p.log, m + r * key.log, w, q);
    CongMulLeft(s * w, 1, p.log, q);
    Regroup(m, r, s, w, p.log, key.log);
    SamePoint(AddPoints(g, k, q), p, q);
  }

  lemma Regroup(m: int, r: int, s: int, w: int, p: int, k: int)
    ensures (s * p) * w == (s * w) * p && (m + r * k) * w == m * w + k * (r * w)
  {
    assert (r * k) * w == k * (r * w);
  }

  lemma EquationVerifies(c: CurveMap, m: int, r: int, s: int, p: Point, key: Point)
    requires PointGroup(c) && Equation(m, r, s, p, key, c.q) && Finite(c, p)
    requires 0 < r < c.q && 0 < s < c.q && (c.X(p) == r || c.X(p) == r + c.q)
    ensures Verifies(c, m, r, s, key)
  {
    var q := c.q;
    ModUnique(s, 0, s, q);
    PrimeUnit(s, q);
    CheckedPoint(m, r, s, ModInverse(s, q).value, p, key, q);
    ModUnique(c.X(p), if c.X(p) == r then 0 else 1, r, q);
  }

  /** Negating s and the point together keeps the equation. */
  lemma EquationNegated(m: int, r: int, s: int, p: Point, key: Point, q: int)
    requires Equation(m, r, s, p, key, q)
    ensures Equation(m, r, q - s, Negate(p, q), key, q)
  {
    CongMod(-p.log, q);
    CongBy(q - s, -s, 1, q);
    CongMul(q - s, -s, (-p.log) % q, -p.log, q);
    assert (-s) * (-p.log) == s * p.log;
  }

  lemma FlipParityFacts(v: nat)
    requires v < 4
    ensures FlipParity(v) / 2 % 2 == v / 2 % 2 && (FlipParity(v) % 2 == 1 <==> v % 2 == 0)
  {
  }

  /** Normalising a signature moves to the opposite nonce point, and r and v follow. */
  lemma NormalisedEquation(c: CurveMap, m: int, sig: Signature, p: Point, key: Point) returns (p': Point)
    requires PointGroup(c) && sig.v < 4 && NoncePointOf(c, sig, p) && Equation(m, sig.r, sig.s, p, key, c.q)
    ensures var n := NormalisedBy(c.q, c.threshold, sig);
      NoncePointOf(c, n, p') && Equation(m, n.r, n.s, p', key, c.q) && n.r == sig.r
      && (sig.s < c.q ==> n.s < c.q)
  {
    var n := NormalisedBy(c.q, c.threshold, sig);
    if n == sig { return p; }
    p' := Negate(p, c.q);
    EquationNegated(m, sig.r, sig.s, p, key, c.q);
    FlipParityFacts(sig.v);
    NegateFinite(c, p);
  }

  lemma NegateFinite(c: CurveMap, p: Point)
    requires PointGroup(c) && Finite(c, p)
    ensures Finite(c, Negate(p, c.q))
  {
    ModUnique(-p.log, -1, c.q - p.log, c.q);
  }

  lemma JointEquation(R: int, K: int, X: int, S: int, A: int, r: int, u: int, p: int, s: int, q: int)
    requires q > 0 && Cong(R * K, 1, q) && Cong(S, K * X, q) && Cong(p * u, R, q)
    requires Cong(s, u * (A * K + r * S), q)
    ensures Cong(s * p, A + r * X, q)
  {
    CongMul(r, r, S, K * X, q);
    CongAdd(A * K, A * K, r * S, r * (K * X), q);
    var t, e := A * K + r * S, A * K + r * (K * X);
    CongMulLeft(s, u * t, p, q);
    CongMul(t, e, p * u, R, q);
    CongMulLeft(R * K, 1, A + r * X, q);
    Reorder(t, u, p);
    Expand(A, K, r, X, R);
  }

  lemma Reorder(t: int, u: int, p: int)
    ensures u * t * p == t * (p * u)
  {
  }

  lemma Expand(A: int, K: int, r: int, X: int, R: int)
    ensures (A * K + r * (K * X)) * R == (R * K) * (A + r * X)
  {
    assert r * (K * X) == K * (r * X);
    assert (A * K + K * (r * X)) == K * (A + r * X);
    assert K * (A + r * X) * R == (R * K) * (A + r * X);
  }

  lemma MoveDelta(r: int, d: int, m: int, x: int)
    ensures (r * d + m) + r * x == m + r * (x + d)
  {
  }

  /** The summed partial signatures satisfy the signature equation for the derived key and the nonce point. */
  lemma SumEquation(c: CurveMap, n: nat, k: nat -> int, x: nat -> int, chi: nat -> int, R: Point, block: Block, hash: Hash)
    requires PointGroup(c) && n > 0 && Presignature.Good(c.q, n, k, x, chi, R)
    requires Cong(block.derivedKey.log, Sum(n, x) + block.delta, c.q)
    requires SharedNonce(c, R, block, hash).Success?
    ensures var nonce := SharedNonce(c, R, block, hash).value;
      Equation(block.message, nonce.r, TotalS(c.q, n, Partials(c.q, k, x, chi, block, nonce)), nonce.point, block.derivedKey, c.q)
  {
    var q, nonce := c.q, SharedNonce(c, R, block, hash).value;
    var A, K, X, S := nonce.r * block.delta + block.message, Sum(n, k), Sum(n, x), Sum(n, Presignature.Shares(k, x, chi));
    var u, partials := Factor(nonce.hash) * Factor(nonce.counter), Partials(q, k, x, chi, block, nonce);
    var s := TotalS(q, n, partials);
    NonceFacts(c, R, block, hash);
    PartialsSum(q, n, k, x, chi, block, nonce);
    TotalCong(q, n, partials);
    JointEquation(R.log, K, X, S, A, nonce.r, u, nonce.point.log, s, q);
    CongMul(nonce.r, nonce.r, block.derivedKey.log, X + block.delta, q);
    CongAdd(block.message, block.message, nonce.r * block.derivedKey.log, nonce.r * (X + block.delta), q);
    MoveDelta(nonce.r, block.delta, block.message, X);
  }

  /** What a normalised signature is good for. */
  ghost predicate ValidSignature(c: CurveMap, m: int, sig: Signature, key: Point) {
    exists p :: NoncePointOf(c, sig, p) && Equation(m, sig.r, sig.s, p, key, c.q)
  }

  /** ... and it verifies, unless r or s came out zero. */
  ghost predicate GoodSignature(c: CurveMap, m: int, sig: Signature, key: Point) {
    && c.q > 0
    && ValidSignature(c, m, sig, key)
    && (sig.r != 0 && sig.s != 0 ==> Verifies(c, m, sig.r, sig.s, key))
  }

  lemma NormalisedVerifies(c: CurveMap, m: int, sig: Signature, p: Point, key: Point)
    requires PointGroup(c) && sig.v < 4 && NoncePointOf(c, sig, p) && Equation(m, sig.r, sig.s, p, key, c.q)
    requires sig.r < c.q && sig.s < c.q
    ensures GoodSignature(c, m, NormalisedBy(c.q, c.threshold, sig), key)
  {
    var p' := NormalisedEquation(c, m, sig, p, key);
    var n := NormalisedBy(c.q, c.threshold, sig);
    if 0 < n.r && 0 < n.s { EquationVerifies(c, m, n.r, n.s, p', key); }
  }

  /**
   The signature of any number of players verifies under the derived key whenever r and the summed s
   are not zero, and the key can be recovered from it.
   */
  lemma SignatureVerifies(c: CurveMap, n: nat, k: nat -> int, x: nat -> int, chi: nat -> int, R: Point, block: Block, hash: Hash)
    requires PointGroup(c) && n > 0 && Presignature.Good(c.q, n, k, x, chi, R)
    requires Cong(block.derivedKey.log, Sum(n, x) + block.delta, c.q)
    requires SharedNonce(c, R, block, hash).Success?
    ensures
      var nonce := SharedNonce(c, R, block, hash).value;
      var s := TotalS(c.q, n, Partials(c.q, k, x, chi, block, nonce));
      && nonce.r >= 0 && 0 <= s < c.q
      && GoodSignature(c, block.message, NormalisedBy(c.q, c.threshold, Signature(nonce.r, s, nonce.v)), block.derivedKey)
  {
    var q, nonce := c.q, SharedNonce(c, R, block, hash).value;
    var s := TotalS(q, n, Partials(q, k, x, chi, block, nonce));
    NonceFacts(c, R, block, hash);
    SumEquation(c, n, k, x, chi, R, block, hash);
    TotalInRange(q, n, Partials(q, k, x, chi, block, nonce));
    NonceDenoted(c, nonce, s);
    NormalisedVerifies(c, block.message, Signature(nonce.r, s, nonce.v), nonce.point, block.derivedKey);
  }

  lemma NonceDenoted(c: CurveMap, nonce: Nonce, s: nat)
    requires Finite(c, nonce.point) && exists overflow: bool :: NonceCoordinates(c, nonce, overflow)
    ensures 0 <= nonce.r < c.q && nonce.v < 4 && NoncePointOf(c, Signature(nonce.r, s, nonce.v), nonce.point)
  {
    var overflow: bool :| NonceCoordinates(c, nonce, overflow);
  }

  lemma {:induction false} TotalInRange(q: int, n: nat, s: nat -> int)
    requires q > 0 && n > 0 && 0 <= s(0) < q
    ensures 0 <= TotalS(q, n, s) < q
  {
    assert CmpPresigning.AddOthers(s(0), 0, 0, s, q) == s(0);
  }
}
