/** Every honest run of the asymmetric EdDSA protocol ends in a signature under the derived key. */
module EddsaOutcome {
  import opened Modular
  import opened NumberTheory
  import opened Wrappers
  import opened Curve
  import opened Sums
  import opened Eddsa
  import opened EddsaRounds
  import opened CmpPresigning
  import opened HdDerive

  /** One honest run for one block: the nonces and key shares of the servers and of the client. */
  datatype Run = Run(k: nat -> int, x: nat -> int, clientK: int, clientX: int, request: Request)

  function ServerPoints(c: Context, run: Run): nat -> Point
    requires c.q > 0
  {
    (j: nat) => GeneratorMul(run.k(j), c.q)
  }

  /** The servers' joint point as server i computes it, starting from its own. */
  function JointPoint(c: Context, run: Run, i: nat): Point
    requires c.q > 0
  {
    AddOtherPoints(ServerPoints(c, run)(i), c.m, i, ServerPoints(c, run), c.q)
  }

  /** What the client sends, given the joint point that the first server reports. */
  function FromClient(c: Context, run: Run): Result<Signature>
    requires c.q > 0
  {
    ClientSignature(c, run.clientX, run.clientK, JointPoint(c, run, 0), run.request)
  }

  function FromServer(c: Context, run: Run, client: Signature, i: nat): Result<Signature>
    requires ValidContext(c)
  {
    ServerSignature(c, i, run.x(i), BlockData(run.k(i), JointPoint(c, run, i), run.request.message, run.request.path), client)
  }

  /** The s values that the servers send each other. */
  function SValues(c: Context, run: Run, client: Signature): nat -> int
    requires ValidContext(c)
  {
    (i: nat) => if FromServer(c, run, client, i).Success? then FromServer(c, run, client, i).value.s else 0
  }

  /** The s of the finished signature: the single server's, or the sum that get_eddsa_signature forms. */
  function FinalS(c: Context, run: Run, client: Signature): int
    requires ValidContext(c)
  {
    if c.m == 1 then SValues(c, run, client)(0) else AddOthers(0, c.m, c.m, SValues(c, run, client), c.q)
  }

  // ----- All compute one R -----

  lemma {:induction false} JointPointCong(c: Context, run: Run, i: nat)
    requires c.q > 0 && i < c.m
    ensures OnCurve(JointPoint(c, run, i), c.q) && Cong(JointPoint(c, run, i).log, Sum(c.m, run.k), c.q)
  {
    var own, points := ServerPoints(c, run)(i), ServerPoints(c, run);
    assert own == GeneratorMul(run.k(i), c.q);
    AddOtherPointsCong(own, c.m, i, points, c.q);
    AddOtherPointsOnCurve(own, c.m, i, points, c.q);
    forall j: nat | j < c.m && j != i ensures Cong(Logs(points)(j), run.k(j), c.q) { CongMod(run.k(j), c.q); }
    OthersCong(c.m, i, Logs(points), run.k, c.q);
    SumSplit(c.m, i, run.k);
    CongMod(run.k(i), c.q);
    CongAdd(own.log, run.k(i), Others(c.m, i, Logs(points)), Others(c.m, i, run.k), c.q);
  }

  /** Whichever share a server starts from, it reports the same point, so the client's agreement check passes. */
  lemma {:induction false} OneJointPoint(c: Context, run: Run, i: nat, j: nat)
    requires c.q > 0 && i < c.m && j < c.m
    ensures JointPoint(c, run, i) == JointPoint(c, run, j)
  {
    JointPointCong(c, run, i);
    JointPointCong(c, run, j);
    SamePoint(JointPoint(c, run, i), JointPoint(c, run, j), c.q);
  }

  /** The point of the finished signature. */
  function R(c: Context, run: Run): Point
    requires c.q > 0
  {
    AddPoints(GeneratorMul(run.clientK, c.q), JointPoint(c, run, 0), c.q)
  }

  lemma {:induction false} RCong(c: Context, run: Run)
    requires ValidContext(c)
    ensures OnCurve(R(c, run), c.q) && Cong(R(c, run).log, run.clientK + Sum(c.m, run.k), c.q)
  {
    JointPointCong(c, run, 0);
    CongMod(run.clientK, c.q);
    AddCong(GeneratorMul(run.clientK, c.q).log, run.clientK, JointPoint(c, run, 0).log, Sum(c.m, run.k), c.q);
  }

  // ----- The shares -----

  /** The hash that all signers multiply their key shares with. */
  function Hram(c: Context, run: Run): nat
    requires c.q > 0 && DeltaShare(c, run.request.path, c.m + 1).Success?
  {
    c.hram(R(c, run), DeltaShare(c, run.request.path, c.m + 1).value.1, run.request.message)
  }

  lemma {:induction false} ShareCong(c: Context, run: Run, x: int, k: int)
    requires c.q > 0 && SignShare(c, R(c, run), run.request.message, run.request.path, x, k).Success?
    ensures var d := DeltaShare(c, run.request.path, c.m + 1).value.0;
      Cong(SignShare(c, R(c, run), run.request.message, run.request.path, x, k).value, Hram(c, run) * (x + d) + k, c.q)
  {
    var d, h, q := DeltaShare(c, run.request.path, c.m + 1).value.0, Hram(c, run), c.q;
    AddCong(x, x, d, d, q);
    MulCong(h, h, AddScalars(x, d, q), x + d, q);
    AddCong(MulMod(h, AddScalars(x, d, q), q), h * (x + d), k, k, q);
  }

  /** The run goes through for this block: the path derives and the message is not empty. */
  predicate Signable(c: Context, run: Run)
    requires c.q > 0
  {
    DeltaShare(c, run.request.path, c.m + 1).Success? && run.request.message != []
  }

  /** The share of each server before the client's is added. */
  function OwnShares(c: Context, run: Run): nat -> int
    requires c.q > 0 && Signable(c, run)
  {
    (i: nat) => SignShare(c, R(c, run), run.request.message, run.request.path, run.x(i), run.k(i)).value
  }

  lemma {:induction false} ServerSends(c: Context, run: Run, client: Signature, i: nat)
    requires ValidContext(c) && i < c.m && Signable(c, run) && FromClient(c, run) == Success(client)
    ensures FromServer(c, run, client, i) == Success(Signature(R(c, run),
      if i == 0 then AddScalars(OwnShares(c, run)(i), client.s, c.q) else OwnShares(c, run)(i)))
  {
    OneJointPoint(c, run, i, 0);
    assert AddPoints(JointPoint(c, run, i), client.R, c.q) == R(c, run);
  }

  function ExpectedShares(c: Context, run: Run): nat -> int
    requires c.q > 0 && Signable(c, run)
  {
    (i: nat) => Hram(c, run) * (run.x(i) + DeltaShare(c, run.request.path, c.m + 1).value.0) + run.k(i)
  }

  /** The finished s is the sum of all shares, the client's counted once. */
  lemma {:induction false} FinalSum(c: Context, run: Run, client: Signature)
    requires ValidContext(c) && Signable(c, run) && FromClient(c, run) == Success(client)
    ensures Cong(FinalS(c, run, client), Sum(c.m, OwnShares(c, run)) + client.s, c.q)
  {
    var values, own, q := SValues(c, run, client), OwnShares(c, run), c.q;
    forall i: nat | i < c.m ensures values(i) == if i == 0 then AddScalars(own(i), client.s, q) else own(i) {
      ServerSends(c, run, client, i);
    }
    AddCong(own(0), own(0), client.s, client.s, q);
    SumChange(c.m, 0, own, values);
    CongSub(values(0), own(0) + client.s, own(0), own(0), q);
    CongAdd(values(0) - own(0), client.s, Sum(c.m, own), Sum(c.m, own), q);
    if c.m == 1 {
      SumOne(own);
      SumOne(values);
    } else {
      AddOthersCong(0, c.m, c.m, values, q);
      SumSplit(c.m, c.m, values);
    }
  }

  lemma SumOne(f: nat -> int)
    ensures Sum(1, f) == f(0)
  {
    assert Sum(0, f) == 0;
  }

  lemma {:induction false} SharesSum(c: Context, run: Run)
    requires ValidContext(c) && Signable(c, run)
    ensures var d := DeltaShare(c, run.request.path, c.m + 1).value.0;
      Cong(Sum(c.m, OwnShares(c, run)), Hram(c, run) * (Sum(c.m, run.x) + c.m * d) + Sum(c.m, run.k), c.q)
  {
    forall i: nat | i < c.m ensures Cong(OwnShares(c, run)(i), ExpectedShares(c, run)(i), c.q) {
      ShareCong(c, run, run.x(i), run.k(i));
    }
    SumCong(c.m, OwnShares(c, run), ExpectedShares(c, run), c.q);
    ExpectedSum(c, run);
  }

  lemma {:induction false} ExpectedSum(c: Context, run: Run)
    requires c.q > 0 && Signable(c, run)
    ensures var d := DeltaShare(c, run.request.path, c.m + 1).value.0;
      Sum(c.m, ExpectedShares(c, run)) == Hram(c, run) * (Sum(c.m, run.x) + c.m * d) + Sum(c.m, run.k)
  {
    var d, h := DeltaShare(c, run.request.path, c.m + 1).value.0, Hram(c, run);
    SumAffine(c.m, h, d, run.x, run.k, ExpectedShares(c, run));
  }

  lemma {:induction false} SumAffine(n: nat, h: int, d: int, x: nat -> int, k: nat -> int, f: nat -> int)
    requires forall i: nat | i < n :: f(i) == h * (x(i) + d) + k(i)
    ensures Sum(n, f) == h * (Sum(n, x) + n * d) + Sum(n, k)
  {
    if n > 0 {
      SumAffine(n - 1, h, d, x, k, f);
      Distribute(h, Sum(n - 1, x), (n - 1) * d, x(n - 1), d);
    }
  }

  lemma Distribute(h: int, a: int, b: int, c: int, d: int)
    ensures h * (a + b) + h * (c + d) == h * ((a + c) + (b + d))
  {
  }

  // ----- The signature equation -----

  /** s*B == R + H(R, A, M)*A, the check of section 5.1.7 of RFC 8032. */
  predicate Verifies(c: Context, R: Point, s: int, key: Point, message: Message)
    requires c.q > 0
  {
    GeneratorMul(s, c.q) == AddPoints(R, PointMul(key, c.hram(R, key, message), c.q), c.q)
  }

  lemma EquationHolds(s: int, h: int, key: Point, keyLog: int, R: Point, k: int, q: int)
    requires q > 0 && Cong(s, h * keyLog + k, q) && Cong(key.log, keyLog, q) && Cong(R.log, k, q)
    ensures GeneratorMul(s, q) == AddPoints(R, PointMul(key, h, q), q)
  {
    CongMod(s, q);
    MulCong(key.log, keyLog, h, h, q);
    AddCong(R.log, k, PointMul(key, h, q).log, keyLog * h, q);
    assert keyLog * h == h * keyLog;
    SamePoint(GeneratorMul(s, q), AddPoints(R, PointMul(key, h, q), q), q);
  }

  /** The derived key is the sum of all shares plus the tweak that the shares of delta add up to, for every path. */
  lemma {:induction false} DerivedKey(c: Context, path: seq<nat>, x: int, n: nat)
    requires Prime(c.q) && c.q > 255 && 1 <= n <= 255 && Cong(c.pub.log, x, c.q)
    requires DeltaShare(c, path, n).Success?
    ensures Cong(DeltaShare(c, path, n).value.1.log, x + n * DeltaShare(c, path, n).value.0, c.q)
  {
    DeltaSharesSum(c, path, n);
    var d, delta := DeltaShare(c, path, n).value.0, FullDelta(c, path).value;
    DerivedKeyMatches(c.q, RootOf(c), x, path);
    CongAdd(x, x, n * d, delta, c.q);
  }

  lemma FinalEquation(S: int, client: int, final: int, h: int, X: int, m: int, d: int, K: int, kc: int, xc: int, q: int)
    requires q > 0 && Cong(final, S + client, q)
    requires Cong(S, h * (X + m * d) + K, q) && Cong(client, h * (xc + d) + kc, q)
    ensures Cong(final, h * ((X + xc) + (m + 1) * d) + (kc + K), q)
  {
    CongAdd(S, h * (X + m * d) + K, client, h * (xc + d) + kc, q);
    Distribute(h, X, m * d, xc, d);
  }

  /**
   For any number of servers up to 254 and any path, hardened or not, the signers get through exactly
   when the block is signable, and their shares add up to a signature that verifies under the derived key.
   */
  lemma {:induction false} RunVerifies(c: Context, run: Run)
    requires ValidContext(c) && c.m <= 254
    requires Cong(c.pub.log, Sum(c.m, run.x) + run.clientX, c.q)
    ensures FromClient(c, run).Success? <==> Signable(c, run)
    ensures Signable(c, run) ==>
      var client := FromClient(c, run).value;
      && (forall i | 0 <= i < c.m :: FromServer(c, run, client, i).Success? && FromServer(c, run, client, i).value.R == R(c, run))
      && Verifies(c, R(c, run), FinalS(c, run, client), DeltaShare(c, run.request.path, c.m + 1).value.1, run.request.message)
  {
    if Signable(c, run) {
      var client := FromClient(c, run).value;
      forall i | 0 <= i < c.m ensures FromServer(c, run, client, i).Success? && FromServer(c, run, client, i).value.R == R(c, run) {
        ServerSends(c, run, client, i);
      }
      RunEquation(c, run, client);
    }
  }

  lemma {:induction false} RunEquation(c: Context, run: Run, client: Signature)
    requires ValidContext(c) && c.m <= 254
    requires Cong(c.pub.log, Sum(c.m, run.x) + run.clientX, c.q)
    requires Signable(c, run) && FromClient(c, run) == Success(client)
    ensures Verifies(c, R(c, run), FinalS(c, run, client), DeltaShare(c, run.request.path, c.m + 1).value.1, run.request.message)
  {
    var d, h, K, X := DeltaShare(c, run.request.path, c.m + 1).value.0, Hram(c, run), Sum(c.m, run.k), Sum(c.m, run.x);
    var key := DeltaShare(c, run.request.path, c.m + 1).value.1;
    FinalSum(c, run, client);
    SharesSum(c, run);
    ShareCong(c, run, run.clientX, run.clientK);
    FinalEquation(Sum(c.m, OwnShares(c, run)), client.s, FinalS(c, run, client), h, X, c.m, d, K, run.clientK, run.clientX, c.q);
    DerivedKey(c, run.request.path, X + run.clientX, c.m + 1);
    RCong(c, run);
    EquationHolds(FinalS(c, run, client), h, key, (X + run.clientX) + (c.m + 1) * d, R(c, run), run.clientK + K, c.q);
  }

  // ----- The rounds on all blocks produce such runs -----

  lemma {:induction false} SameOtherPoints(start: Point, n: nat, me: nat, v: nat -> Point, w: nat -> Point, q: int)
    requires q > 0 && forall j: nat | j < n && j != me :: v(j) == w(j)
    ensures AddOtherPoints(start, n, me, v, q) == AddOtherPoints(start, n, me, w, q)
  {
    if n > 0 { SameOtherPoints(start, n - 1, me, v, w, q); }
  }

  lemma {:induction false} SameOthers(start: int, n: nat, me: nat, v: nat -> int, w: nat -> int, q: int)
    requires q > 0 && forall j: nat | j < n && j != me :: v(j) == w(j)
    ensures AddOthers(start, n, me, v, q) == AddOthers(start, n, me, w, q)
  {
    if n > 0 { SameOthers(start, n - 1, me, v, w, q); }
  }

  /** What broadcast_r stores for a block is the joint point of its run. */
  lemma {:induction false} StoredPoint(c: Context, run: Run, before: seq<BlockData>, after: seq<BlockData>, Rs: seq<seq<Point>>, id: nat, b: nat)
    requires c.q > 0 && Accumulated(c, before, after, Rs, id, c.m) && b < |after|
    requires before[b].R == ServerPoints(c, run)(id) && forall j: nat | j < c.m :: PointColumn(Rs, b)(j) == ServerPoints(c, run)(j)
    ensures after[b].R == JointPoint(c, run, id)
  {
    SameOtherPoints(before[b].R, c.m, id, PointColumn(Rs, b), ServerPoints(c, run), c.q);
  }

  /**
   What get_eddsa_signature returns for a block verifies, if the servers sent what their run says. As
   the block was finished, its path has no hardened index and the public derivation gives the same key.
   */
  lemma {:induction false} FinishedSignature(c: Context, run: Run, client: Signature, blocks: seq<BlockData>,
                                             partials: seq<seq<Signature>>, sigs: seq<Signature>, b: nat)
    requires ValidContext(c) && 2 <= c.m <= 254 && Signable(c, run)
    requires Cong(c.pub.log, Sum(c.m, run.x) + run.clientX, c.q) && FromClient(c, run) == Success(client)
    requires Rectangular(partials, c.m, |blocks|) && Combined(c, blocks, partials, sigs) && b < |sigs|
    requires blocks[b].R == R(c, run) && blocks[b].path == run.request.path
    requires forall j: nat | j < c.m :: FromServer(c, run, client, j) == Success(partials[j][b])
    ensures Plain(run.request.path) && PublicDerivation(c, run.request.path).Success?
    ensures Verifies(c, sigs[b].R, sigs[b].s, PublicDerivation(c, run.request.path).value.pub, run.request.message)
  {
    RunVerifies(c, run);
    SameOthers(0, c.m, c.m, SColumn(partials, b), SValues(c, run, client), c.q);
    SamePublicKey(c, run.request.path);
  }

  lemma {:induction false} SamePublicKey(c: Context, path: seq<nat>)
    requires c.q > 0 && PublicDerivation(c, path).Success?
    ensures Plain(path)
    ensures DeltaShare(c, path, c.m + 1).Success? ==> DeltaShare(c, path, c.m + 1).value.1 == PublicDerivation(c, path).value.pub
  {
    PublicExactly(c.q, RootOf(c), path);
  }

  /**
   With two servers or more the honest messages for a block are finished exactly when its path has no
   hardened index; with one server broadcast_si has already finished the block, whatever the path.
   */
  lemma {:induction false} FinishedExactly(c: Context, run: Run, client: Signature, data: BlockData, partials: seq<seq<Signature>>, b: nat)
    requires ValidContext(c) && c.m <= 254 && Signable(c, run) && FromClient(c, run) == Success(client)
    requires |partials| == c.m && forall j | 0 <= j < c.m :: b < |partials[j]|
    requires data.R == R(c, run) && data.path == run.request.path
    requires forall j: nat | j < c.m :: FromServer(c, run, client, j) == Success(partials[j][b])
    ensures Finishable(c, data, partials, b) <==> Plain(run.request.path)
  {
    forall j: nat | j < c.m ensures partials[j][b].R == R(c, run) && 0 <= partials[j][b].s < c.q {
      ServerSends(c, run, client, j);
    }
    PublicExactly(c.q, RootOf(c), run.request.path);
    AfterEmpty(c, run.request.path);
  }

  lemma AfterEmpty(c: Context, path: seq<nat>)
    requires c.q > 0 && DeltaShare(c, path, c.m + 1).Success?
    ensures PrivateEnd(c.q, RootOf(c), path).Success?
  {
  }
}
