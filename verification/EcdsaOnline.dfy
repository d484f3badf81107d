/**
 cmp_ecdsa_online_signing_service.cpp: the last two rounds of online signing, and the check of the
 finished signature by GFp_curve_algebra_verify_signature.
 */
module EcdsaOnline {
  import opened Modular
  import opened NumberTheory
  import opened Wrappers
  import opened Curve
  import opened Sums
  import opened Scalars
  import opened EcdsaSigning
  import opened HdDerive
  import opened CmpPresigning
  import Presignature

  /** Online signing does not scale R by a hash. */
  function NoHash(): Hash {
    (R: Point, key: Point, message: nat) => 1
  }

  /** A block for which get_si gives a share: its tweak can be derived, and its point has a usable multiple. */
  ghost predicate Shareable(c: CurveMap, R: Point, root: Root, request: Request)
    requires c.q > 0
  {
    && DerivedBlock(c.q, root, request).Success?
    && SharedNonce(c, R, DerivedBlock(c.q, root, request).value, NoHash()).Success?
  }

  /** One block of cmp_signature_data. */
  class SigningData {
    var k: int
    var chi: int
    var R: Point

    constructor (k: int, chi: int, R: Point)
      ensures this.k == k && this.chi == chi && this.R == R
    {
      this.k, this.chi, this.R := k, chi, R;
    }

    /**
     One block of get_si, after calc_R: the tweak is derived, and the point is replaced by its multiple
     with a positive r.
     */
    method GetSi(c: CurveMap, key: int, root: Root, request: Request) returns (s: Result<int>)
      requires ValidCurve(c) && OnCurve(R, c.q) && !request.randomize
      modifies this`R
      ensures s.Success? <==> Shareable(c, old(R), root, request)
      ensures s.Failure? ==> R == old(R)
      ensures s.Success? ==>
        var block := DerivedBlock(c.q, root, request).value;
        var nonce := SharedNonce(c, old(R), block, NoHash()).value;
        R == nonce.point && s.value == PartialS(c.q, k, key, chi, block, nonce)
      ensures s.Success? ==> exists counter: nat :: NonceOfRequest(c, old(R), root, request, NoHash(), R, counter)
    {
      var derived := DeriveBlock(c.q, root, request);
      if derived.Failure? { return Failure(InternalError); }
      ghost var start := R;
      s := Sign(c, key, derived.value);
      if s.Success? { NonceChosen(c, start, root, request, NoHash()); }
    }

    method Sign(c: CurveMap, key: int, block: Block) returns (s: Result<int>)
      requires ValidCurve(c) && OnCurve(R, c.q) && !block.randomize
      modifies this`R
      ensures var nonce := SharedNonce(c, old(R), block, NoHash());
        && (s.Success? <==> nonce.Success?)
        && (s.Success? ==> R == nonce.value.point && s.value == PartialS(c.q, k, key, chi, block, nonce.value))
        && (s.Failure? ==> R == old(R))
    {
      var q := c.q;
      var picked := PickNonce(c, R, block.positiveR);
      if picked.Failure? { return Failure(picked.error); }
      var (point, counter, r, overflow) := picked.value;
      CounterInvertible(c, counter);
      var tmp := MulMod(r, block.delta, q);
      tmp := AddScalars(tmp, block.message, q);
      var si := MulMod(tmp, k, q);
      tmp := MulMod(k, key, q);
      tmp := AddScalars(tmp, chi, q);
      tmp := MulMod(tmp, r, q);
      si := AddScalars(si, tmp, q);
      if counter > 1 {
        var counterInverse := ModInverse(counter, q);
        if counterInverse.None? { return Failure(InternalError); }
        si := MulMod(si, counterInverse.value, q);
      }
      R := point;
      return Success(si);
    }
  }

  /**
   GFp_curve_algebra_verify_signature. The key is decoded from 33 bytes, which refuses the point at
   infinity. An x-coordinate from the order on is never accepted: the code then subtracts it from the
   order, which fails or leaves zero. A high s is not accepted either.
   */
  method VerifySignature(c: CurveMap, key: Point, m: int, r: int, s: int) returns (ok: bool)
    requires PointGroup(c)
    ensures ok <==> Checked(c, key, m, r, s)
    ensures ok <==>
      && key != Infinity && 0 < r < c.q && 0 < s && 2 * s < c.q
      && exists w :: InverseOf(s, w, c.q) && var log := (m * w + key.log * (r * w)) % c.q; log != 0 && c.X(Point(log)) == r
  {
    CheckedMeans(c, key, m, r, s);
    var q := c.q;
    if r <= 0 || r >= q || s <= 0 || s >= q { return false; }
    if key == Infinity { return false; }
    var w := ModInverse(s, q);
    if w.None? { return false; }
    var u1 := MulMod(m, w.value, q);
    var u2 := MulMod(r, w.value, q);
    var point := AddPoints(GeneratorMul(u1, q), PointMul(key, u2, q), q);
    if point == Infinity { return false; }
    var x: int := c.X(point);
    if x >= q {
      if q < x { return false; }
      x := q - x;
    } else {
      ModUnique(x, 0, x, q);
    }
    return x == r && 2 * s < q;
  }

  /** What the check adds to the equation of section 4.1.4 of SEC 1. */
  ghost predicate Checked(c: CurveMap, key: Point, m: int, r: int, s: int)
    requires c.q > 0
  {
    key != Infinity && Verifies(c, m, r, s, key) && c.X(CheckPoint(c, m, r, s, key)) < c.q && 2 * s < c.q
  }

  /** The point that the verification recomputes. */
  function CheckPoint(c: CurveMap, m: int, r: int, s: int, key: Point): Point
    requires c.q > 0
  {
    if ModInverse(s, c.q).None? then Infinity
    else
      var w := ModInverse(s, c.q).value;
      AddPoints(GeneratorMul(MulMod(m, w, c.q), c.q), PointMul(key, MulMod(r, w, c.q), c.q), c.q)
  }

  /** The check in terms of any inverse of s: the point with logarithm m*w + x*(r*w) has r as its x-coordinate. */
  lemma CheckedWith(c: CurveMap, key: Point, m: int, r: int, s: int, w: int)
    requires PointGroup(c) && InverseOf(s, w, c.q)
    ensures var log := (m * w + key.log * (r * w)) % c.q;
      Checked(c, key, m, r, s) <==> key != Infinity && 0 < r < c.q && 0 < s && 2 * s < c.q && log != 0 && c.X(Point(log)) == r
  {
    RecomputedLog(m, r, ModInverse(s, c.q).value, w, s, key, c.q);
    if 0 < r < c.q { SameRemainder(c, Point((m * w + key.log * (r * w)) % c.q), r); }
  }

  lemma CheckedMeans(c: CurveMap, key: Point, m: int, r: int, s: int)
    requires PointGroup(c)
    ensures Checked(c, key, m, r, s) <==>
      && key != Infinity && 0 < r < c.q && 0 < s && 2 * s < c.q
      && exists w :: InverseOf(s, w, c.q) && var log := (m * w + key.log * (r * w)) % c.q; log != 0 && c.X(Point(log)) == r
  {
    if ModInverse(s, c.q).Some? { CheckedWith(c, key, m, r, s, ModInverse(s, c.q).value); }
    if w :| InverseOf(s, w, c.q) && var log := (m * w + key.log * (r * w)) % c.q; log != 0 && c.X(Point(log)) == r {
      CheckedWith(c, key, m, r, s, w);
    }
  }

  lemma SameRemainder(c: CurveMap, p: Point, r: int)
    requires c.q > 0 && 0 < r < c.q
    ensures c.X(p) < c.q ==> (c.X(p) % c.q == r <==> c.X(p) == r)
  {
    if c.X(p) < c.q { ModUnique(c.X(p), 0, c.X(p), c.q); }
  }

  lemma RecomputedLog(m: int, r: int, w: int, w': int, s: int, key: Point, q: int)
    requires q > 0 && InverseOf(s, w, q) && InverseOf(s, w', q)
    ensures AddPoints(GeneratorMul(MulMod(m, w, q), q), PointMul(key, MulMod(r, w, q), q), q) == Point((m * w' + key.log * (r * w')) % q)
  {
    UnitCancel(s, w, w', q);
    MulCong(m, m, w, w', q);
    CongMod(MulMod(m, w, q), q);
    MulCong(r, r, w, w', q);
    CongMul(key.log, key.log, MulMod(r, w, q), r * w', q);
    CongMod(key.log * MulMod(r, w, q), q);
    AddCong(GeneratorMul(MulMod(m, w, q), q).log, m * w', PointMul(key, MulMod(r, w, q), q).log, key.log * (r * w'), q);
    CongMod(m * w' + key.log * (r * w'), q);
    SamePoint(AddPoints(GeneratorMul(MulMod(m, w, q), q), PointMul(key, MulMod(r, w, q), q), q), Point((m * w' + key.log * (r * w')) % q), q);
  }

  function ListSum(s: seq<nat>): nat -> int {
    (j: nat) => if j < |s| then s[j] else 0
  }

  /** What the shares add up to, normalised, with the r and v of the point. */
  function SummedSignature(c: CurveMap, R: Point, shares: seq<nat>): Signature
    requires c.q > 0 && R != Infinity && Projection(c, R).value.0 >= 0
  {
    var sum := AddOthers(0, |shares|, |shares|, ListSum(shares), c.q);
    NormalisedBy(c.q, c.threshold, Signature(Projection(c, R).value.0, if sum >= 0 then sum else 0,
                                             RecoveryId(Projection(c, R).value.1, c.Odd(R))))
  }

  method SumShares(c: CurveMap, R: Point, shares: seq<nat>) returns (sig: Signature)
    requires ValidCurve(c) && Finite(c, R)
    ensures sig == SummedSignature(c, R, shares)
  {
    var projection := Projection(c, R).value;
    var s: nat := 0;
    var j := 0;
    while j < |shares|
      invariant 0 <= j <= |shares| && s < c.q
      invariant s == AddOthers(0, j, |shares|, ListSum(shares), c.q)
    {
      s := AddScalars(s, shares[j], c.q);
      j := j + 1;
    }
    OrderFits(c.algorithm, s);
    sig := MakeSigSPositive(c.algorithm, Signature(projection.0, s, RecoveryId(projection.1, c.Odd(R))));
  }

  /**
   One block of get_cmp_signature: the shares are added up, the public key is derived, and the result
   has to pass the check.
   */
  method GetCmpSignature(c: CurveMap, R: Point, shares: seq<nat>, message: nat, root: Root, path: seq<nat>) returns (result: Result<Signature>)
    requires ValidCurve(c) && Finite(c, R)
    ensures var sig, end := SummedSignature(c, R, shares), PublicEnd(c.q, root, path);
      && (result.Success? <==> end.Success? && Checked(c, end.value.pub, message, sig.r, sig.s))
      && (result.Success? ==> result.value == sig)
      && (result.Failure? ==> result.error == InternalError)
  {
    var sig := SumShares(c, R, shares);
    var derived := DerivePublicKey(c.q, root.hmac, root.pub, root.chain, path);
    if derived.Failure? { return Failure(InternalError); }
    var ok := VerifySignature(c, derived.value, message, sig.r, sig.s);
    if !ok { return Failure(InternalError); }
    return Success(sig);
  }

  // ----- When an honest signature gets through -----

  /** Adding all shares to zero or the others to the first one is the same. */
  lemma SameSum(q: int, n: nat, s: nat -> int, v: nat -> int)
    requires q > 0 && n > 0 && 0 <= s(0) < q && forall j: nat | j < n :: v(j) == s(j)
    ensures AddOthers(0, n, n, v, q) == TotalS(q, n, s)
  {
    AddOthersCong(0, n, n, v, q);
    SumSplit(n, n, v);
    SumEqual(n, v, s);
    TotalCong(q, n, s);
    TotalInRange(q, n, s);
    var a, b := AddOthers(0, n, n, v, q), TotalS(q, n, s);
    ModUnique(a, 0, a, q);
    ModUnique(b, 0, b, q);
  }

  /** The point that verification recomputes has the nonce point's x-coordinate. */
  lemma CheckPointX(c: CurveMap, m: int, sig: Signature, p: Point, key: Point)
    requires PointGroup(c) && NoncePointOf(c, sig, p) && Equation(m, sig.r, sig.s, p, key, c.q) && 0 < sig.s < c.q
    ensures CheckPoint(c, m, sig.r, sig.s, key) == p
  {
    ModUnique(sig.s, 0, sig.s, c.q);
    PrimeUnit(sig.s, c.q);
    CheckedPoint(m, sig.r, sig.s, ModInverse(sig.s, c.q).value, p, key, c.q);
  }

  lemma AcceptedWhen(c: CurveMap, m: int, sig: Signature, key: Point)
    requires PointGroup(c) && GoodSignature(c, m, sig, key) && sig.r < c.q && sig.s < c.q
    ensures (Verifies(c, m, sig.r, sig.s, key) && c.X(CheckPoint(c, m, sig.r, sig.s, key)) < c.q)
            <==> sig.r != 0 && sig.s != 0 && sig.v / 2 % 2 == 0
  {
    var p :| NoncePointOf(c, sig, p) && Equation(m, sig.r, sig.s, p, key, c.q);
    if 0 < sig.s { CheckPointX(c, m, sig, p, key); }
  }

  /** Every player sent its share. */
  ghost predicate SharesOf(shares: seq<nat>, share: nat -> int) {
    forall j: nat | j < |shares| :: shares[j] == share(j)
  }

  /** The players' formula for s, summed and normalised. */
  function OnlineSignature(c: CurveMap, n: nat, k: nat -> int, x: nat -> int, chi: nat -> int, block: Block, nonce: Nonce): Signature
    requires c.q > 0
  {
    Assembled(c, nonce, TotalS(c.q, n, Partials(c.q, k, x, chi, block, nonce)))
  }

  function Assembled(c: CurveMap, nonce: Nonce, s: int): Signature
    requires c.q > 0
  {
    NormalisedBy(c.q, c.threshold, Signature(if nonce.r >= 0 then nonce.r else 0, if s >= 0 then s else 0, nonce.v))
  }

  /** What the final check wants of it: with v the recovery id before normalisation. */
  predicate Passing(c: CurveMap, sig: Signature, v: nat, key: Point) {
    sig.r != 0 && sig.s != 0 && v < 2 && 2 * sig.s < c.q && key != Infinity
  }

  predicate Usable(c: CurveMap, n: nat, k: nat -> int, x: nat -> int, chi: nat -> int, block: Block, nonce: Nonce)
    requires c.q > 0
  {
    Passing(c, OnlineSignature(c, n, k, x, chi, block, nonce), nonce.v, block.derivedKey)
  }

  /**
   What get_cmp_signature makes of honest shares: it returns their normalised sum exactly when r and s
   are not zero, the x-coordinate of the nonce point is below the order, normalisation has left s in
   the lower half, and the derived key is not the point at infinity.
   */
  lemma OnlineAccepted(c: CurveMap, k: nat -> int, x: nat -> int, chi: nat -> int, R: Point, block: Block, shares: seq<nat>)
    requires PointGroup(c) && shares != [] && Presignature.Good(c.q, |shares|, k, x, chi, R) && !block.randomize
    requires Cong(block.derivedKey.log, Sum(|shares|, x) + block.delta, c.q)
    requires SharedNonce(c, R, block, NoHash()).Success?
    requires SharesOf(shares, Partials(c.q, k, x, chi, block, SharedNonce(c, R, block, NoHash()).value))
    ensures
      var nonce := SharedNonce(c, R, block, NoHash()).value;
      && Finite(c, nonce.point) && Projection(c, nonce.point).value.0 >= 0
      && var sig := SummedSignature(c, nonce.point, shares);
        && sig == OnlineSignature(c, |shares|, k, x, chi, block, nonce)
        && GoodSignature(c, block.message, sig, block.derivedKey)
        && (Checked(c, block.derivedKey, block.message, sig.r, sig.s) <==> Usable(c, |shares|, k, x, chi, block, nonce))
  {
    var nonce := SharedNonce(c, R, block, NoHash()).value;
    SummedIsNormalised(c, k, x, chi, R, block, shares);
    OnlineGood(c, |shares|, k, x, chi, R, block);
    var s := TotalS(c.q, |shares|, Partials(c.q, k, x, chi, block, nonce));
    AssembledChecked(c, block.message, nonce, s, block.derivedKey);
  }

  /** What the first players sent after get_si: shares, and the point that all of them now store. */
  ghost predicate Collected(c: CurveMap, k: nat -> int, x: nat -> int, chi: nat -> int, R: Point, block: Block, point: Point, shares: seq<nat>)
    requires c.q > 0
  {
    && SharedNonce(c, R, block, NoHash()).Success?
    && point == SharedNonce(c, R, block, NoHash()).value.point
    && SharesOf(shares, Partials(c.q, k, x, chi, block, SharedNonce(c, R, block, NoHash()).value))
  }

  /** get_si on one more player. */
  method CollectShare(c: CurveMap, k: nat -> int, x: nat -> int, chi: nat -> int, R: Point, root: Root, request: Request,
                      ghost point: Point, shares: seq<nat>)
    returns (sent: Result<(Point, seq<nat>)>)
    requires ValidCurve(c) && OnCurve(R, c.q) && !request.randomize
    requires shares != [] ==>
      Shareable(c, R, root, request) && Collected(c, k, x, chi, R, DerivedBlock(c.q, root, request).value, point, shares)
    ensures sent.Success? <==> Shareable(c, R, root, request)
    ensures sent.Success? ==> (
      |sent.value.1| == |shares| + 1
      && Collected(c, k, x, chi, R, DerivedBlock(c.q, root, request).value, sent.value.0, sent.value.1))
  {
    var i := |shares|;
    var data := new SigningData(k(i), chi(i), R);
    var share := data.GetSi(c, x(i), root, request);
    if share.Failure? { return Failure(share.error); }
    ghost var block := DerivedBlock(c.q, root, request).value;
    OneMoreShare(shares, share.value, Partials(c.q, k, x, chi, block, SharedNonce(c, R, block, NoHash()).value));
    return Success((data.R, shares + [share.value]));
  }

  lemma OneMoreShare(shares: seq<nat>, s: nat, share: nat -> int)
    requires SharesOf(shares, share) && s == share(|shares|)
    ensures SharesOf(shares + [s], share)
  {
  }

  /** get_si on every player of a presignature: all fail, or all send a share for one point. */
  method CollectShares(c: CurveMap, n: nat, k: nat -> int, x: nat -> int, chi: nat -> int, R: Point, root: Root, request: Request)
    returns (sent: Result<(Point, seq<nat>)>)
    requires ValidCurve(c) && n > 0 && OnCurve(R, c.q) && !request.randomize
    ensures sent.Success? <==> Shareable(c, R, root, request)
    ensures sent.Success? ==> (
      |sent.value.1| == n && Collected(c, k, x, chi, R, DerivedBlock(c.q, root, request).value, sent.value.0, sent.value.1))
  {
    var point, shares := R, [];
    while |shares| < n
      invariant |shares| <= n
      invariant shares != [] ==>
        Shareable(c, R, root, request) && Collected(c, k, x, chi, R, DerivedBlock(c.q, root, request).value, point, shares)
    {
      var next := CollectShare(c, k, x, chi, R, root, request, point, shares);
      if next.Failure? { return Failure(next.error); }
      point, shares := next.value.0, next.value.1;
    }
    return Success((point, shares));
  }

  /** get_cmp_signature on honest shares. */
  method Combine(c: CurveMap, k: nat -> int, x: nat -> int, chi: nat -> int, R: Point, root: Root, request: Request, point: Point, shares: seq<nat>)
    returns (result: Result<Signature>)
    requires ValidCurve(c) && shares != [] && Presignature.Good(c.q, |shares|, k, x, chi, R) && !request.randomize
    requires Cong(root.pub.log, Sum(|shares|, x), c.q) && DerivedBlock(c.q, root, request).Success?
    requires Collected(c, k, x, chi, R, DerivedBlock(c.q, root, request).value, point, shares)
    ensures
      var block := DerivedBlock(c.q, root, request).value;
      var nonce := SharedNonce(c, R, block, NoHash()).value;
      var sig := OnlineSignature(c, |shares|, k, x, chi, block, nonce);
      && (result.Success? <==> Plain(request.path) && Passing(c, sig, nonce.v, block.derivedKey))
      && (result.Success? ==> result.value == sig && GoodSignature(c, block.message, sig, block.derivedKey))
  {
    PublicExactly(c.q, root, request.path);
    DerivedBlockMatches(c.q, root, Sum(|shares|, x), request);
    OnlineAccepted(c, k, x, chi, R, DerivedBlock(c.q, root, request).value, shares);
    result := GetCmpSignature(c, point, shares, request.message, root, request.path);
  }

  /**
   The two rounds together on an honest presignature: a signature comes out exactly when the tweak can
   be derived, the point has a usable multiple, the path has no hardened index and the normalised sum
   passes the check. It is then good for the derived key.
   */
  method SignOnline(c: CurveMap, n: nat, k: nat -> int, x: nat -> int, chi: nat -> int, R: Point, root: Root, request: Request)
    returns (result: Result<Signature>)
    requires ValidCurve(c) && n > 0 && Presignature.Good(c.q, n, k, x, chi, R) && !request.randomize
    requires Cong(root.pub.log, Sum(n, x), c.q)
    ensures result.Success? <==>
      && Shareable(c, R, root, request) && Plain(request.path)
      && var block := DerivedBlock(c.q, root, request).value;
        Usable(c, n, k, x, chi, block, SharedNonce(c, R, block, NoHash()).value)
    ensures result.Success? ==>
      var block := DerivedBlock(c.q, root, request).value;
      && result.value == OnlineSignature(c, n, k, x, chi, block, SharedNonce(c, R, block, NoHash()).value)
      && PublicEnd(c.q, root, request.path).Success?
      && GoodSignature(c, request.message, result.value, PublicEnd(c.q, root, request.path).value.pub)
  {
    PublicExactly(c.q, root, request.path);
    var sent := CollectShares(c, n, k, x, chi, R, root, request);
    if sent.Failure? { return Failure(sent.error); }
    result := Combine(c, k, x, chi, R, root, request, sent.value.0, sent.value.1);
  }

  lemma OnlineGood(c: CurveMap, n: nat, k: nat -> int, x: nat -> int, chi: nat -> int, R: Point, block: Block)
    requires PointGroup(c) && n > 0 && Presignature.Good(c.q, n, k, x, chi, R) && !block.randomize
    requires Cong(block.derivedKey.log, Sum(n, x) + block.delta, c.q)
    requires SharedNonce(c, R, block, NoHash()).Success?
    ensures var nonce := SharedNonce(c, R, block, NoHash()).value;
      GoodSignature(c, block.message, OnlineSignature(c, n, k, x, chi, block, nonce), block.derivedKey)
  {
    SignatureVerifies(c, n, k, x, chi, R, block, NoHash());
  }

  lemma AssembledChecked(c: CurveMap, m: int, nonce: Nonce, s: nat, key: Point)
    requires PointGroup(c) && nonce.v < 4 && 0 <= nonce.r < c.q && s < c.q
    requires GoodSignature(c, m, Assembled(c, nonce, s), key)
    ensures var sig := Assembled(c, nonce, s);
      Checked(c, key, m, sig.r, sig.s) <==> Passing(c, sig, nonce.v, key)
  {
    FlipParityFacts(nonce.v);
    AcceptedWhen(c, m, Assembled(c, nonce, s), key);
  }

  lemma SameShares(q: int, shares: seq<nat>, share: nat -> int)
    requires q > 0 && shares != [] && SharesOf(shares, share) && 0 <= share(0) < q
    ensures AddOthers(0, |shares|, |shares|, ListSum(shares), q) == TotalS(q, |shares|, share)
  {
    forall j: nat | j < |shares| ensures ListSum(shares)(j) == share(j) {
      assert shares[j] == share(j);
    }
    SameSum(q, |shares|, share, ListSum(shares));
  }

  lemma PartialsTotal(q: int, k: nat -> int, x: nat -> int, chi: nat -> int, block: Block, nonce: Nonce, shares: seq<nat>)
    requires q > 0 && shares != [] && SharesOf(shares, Partials(q, k, x, chi, block, nonce))
    ensures AddOthers(0, |shares|, |shares|, ListSum(shares), q) == TotalS(q, |shares|, Partials(q, k, x, chi, block, nonce))
  {
    var share := Partials(q, k, x, chi, block, nonce);
    assert share(0) == PartialS(q, k(0), x(0), chi(0), block, nonce);
    SameShares(q, shares, share);
  }

  lemma SummedIsNormalised(c: CurveMap, k: nat -> int, x: nat -> int, chi: nat -> int, R: Point, block: Block, shares: seq<nat>)
    requires PointGroup(c) && shares != [] && OnCurve(R, c.q) && SharedNonce(c, R, block, NoHash()).Success?
    requires SharesOf(shares, Partials(c.q, k, x, chi, block, SharedNonce(c, R, block, NoHash()).value))
    ensures
      var nonce := SharedNonce(c, R, block, NoHash()).value;
      var s := TotalS(c.q, |shares|, Partials(c.q, k, x, chi, block, nonce));
      && Finite(c, nonce.point) && Projection(c, nonce.point).value.0 == nonce.r >= 0 && nonce.v < 4
      && 0 <= s < c.q && nonce.r < c.q
      && SummedSignature(c, nonce.point, shares) == OnlineSignature(c, |shares|, k, x, chi, block, nonce)
  {
    var nonce := SharedNonce(c, R, block, NoHash()).value;
    PartialsTotal(c.q, k, x, chi, block, nonce, shares);
    NonceFacts(c, R, block, NoHash());
    PartialsInRange(c, |shares|, k, x, chi, block, nonce);
    NonceOfPoint(c, nonce);
  }

  lemma PartialsInRange(c: CurveMap, n: nat, k: nat -> int, x: nat -> int, chi: nat -> int, block: Block, nonce: Nonce)
    requires PointGroup(c) && n > 0 && Finite(c, nonce.point) && exists overflow: bool :: NonceCoordinates(c, nonce, overflow)
    ensures 0 <= TotalS(c.q, n, Partials(c.q, k, x, chi, block, nonce)) < c.q
    ensures 0 <= nonce.r < c.q && nonce.v < 4
  {
    var partials := Partials(c.q, k, x, chi, block, nonce);
    assert partials(0) == PartialS(c.q, k(0), x(0), chi(0), block, nonce);
    TotalInRange(c.q, n, partials);
    NonceDenoted(c, nonce, TotalS(c.q, n, partials));
  }

  /** r and v of the nonce are those that get_cmp_signature reads off the stored point. */
  lemma NonceOfPoint(c: CurveMap, nonce: Nonce)
    requires Finite(c, nonce.point) && exists overflow: bool :: NonceCoordinates(c, nonce, overflow)
    ensures Projection(c, nonce.point).Some? && Projection(c, nonce.point).value.0 == nonce.r
    ensures nonce.v == RecoveryId(Projection(c, nonce.point).value.1, c.Odd(nonce.point))
  {
    var overflow: bool :| NonceCoordinates(c, nonce, overflow);
  }
}
