/**
 cmp_ecdsa_signing_service.cpp: the steps by which n players turn k_i and gamma_i into additive
 shares of (sum k)(sum gamma) and (sum k)(sum x), and into the nonce point R.
 The players' key shares and Paillier keys are fixed; everything else is drawn.
 */
module CmpPresigning {
  import opened Modular
  import opened NumberTheory
  import opened Wrappers
  import opened Curve
  import opened Sums
  import opened Mta
  import P = Paillier

  datatype Party = Party(key: P.PrivateKey, x: nat)

  datatype Config = Config(q: int, parties: seq<Party>)

  ghost predicate ValidConfig(cfg: Config) {
    && Prime(cfg.q) && NumBits(cfg.q) <= 256
    && forall i | 0 <= i < |cfg.parties| ::
      P.ValidKey(cfg.parties[i].key) && LargeEnough(cfg.parties[i].key.n) && cfg.parties[i].x < cfg.q
  }

  /** The two ciphertexts that answer one request: for k*gamma and for k*x. */
  datatype Answer = Answer(kGamma: nat, kX: nat)

  /** What answering draws for each peer: the two betas and their encryption randomness. */
  datatype Draw = Draw(betaGamma: nat, betaX: nat, rGamma: nat, rX: nat)

  /** The randomness of the two commitments that go with each answer, for the own modulus. */
  ghost predicate ValidCommitments(own: int, commitments: seq<(nat, nat)>)
    requires own > 0
  {
    forall j | 0 <= j < |commitments| :: Unit(commitments[j].0, own) && Unit(commitments[j].1, own)
  }

  ghost predicate ValidDraws(cfg: Config, draws: seq<Draw>) {
    && |draws| == |cfg.parties|
    && forall j | 0 <= j < |draws| ::
      && NumBits(draws[j].betaGamma) <= 1280 && NumBits(draws[j].betaX) <= 1280
      && cfg.parties[j].key.n > 0 && Unit(draws[j].rGamma, cfg.parties[j].key.n) && Unit(draws[j].rX, cfg.parties[j].key.n)
  }

  // ----- What the loops over the other players compute -----

  function AddOthers(start: int, n: nat, me: nat, v: nat -> int, q: int): int
    requires q > 0
  {
    if n == 0 then start
    else
      var rest := AddOthers(start, n - 1, me, v, q);
      if n - 1 == me then rest else AddScalars(rest, v(n - 1), q)
  }

  function SubOthers(start: int, n: nat, me: nat, v: nat -> int, q: int): int
    requires q > 0
  {
    if n == 0 then start
    else
      var rest := SubOthers(start, n - 1, me, v, q);
      if n - 1 == me then rest else SubScalars(rest, v(n - 1), q)
  }

  lemma {:induction false} SubOthersEqual(start: int, n: nat, me: nat, v: nat -> int, w: nat -> int, q: int)
    requires q > 0 && forall j: nat | j < n && j != me :: v(j) == w(j)
    ensures SubOthers(start, n, me, v, q) == SubOthers(start, n, me, w, q)
  {
    if n > 0 { SubOthersEqual(start, n - 1, me, v, w, q); }
  }

  function AddOtherPoints(start: Point, n: nat, me: nat, v: nat -> Point, q: int): Point
    requires q > 0
  {
    if n == 0 then start
    else
      var rest := AddOtherPoints(start, n - 1, me, v, q);
      if n - 1 == me then rest else AddPoints(rest, v(n - 1), q)
  }

  lemma {:induction false} AddOthersCong(start: int, n: nat, me: nat, v: nat -> int, q: int)
    requires q > 0
    ensures Cong(AddOthers(start, n, me, v, q), start + Others(n, me, v), q)
  {
    if n > 0 {
      AddOthersCong(start, n - 1, me, v, q);
      if n - 1 != me {
        AddCong(AddOthers(start, n - 1, me, v, q), start + Others(n - 1, me, v), v(n - 1), v(n - 1), q);
      }
    }
  }

  lemma {:induction false} SubOthersCong(start: int, n: nat, me: nat, v: nat -> int, q: int)
    requires q > 0
    ensures Cong(SubOthers(start, n, me, v, q), start - Others(n, me, v), q)
  {
    if n > 0 {
      SubOthersCong(start, n - 1, me, v, q);
      if n - 1 != me {
        SubCong(SubOthers(start, n - 1, me, v, q), start - Others(n - 1, me, v), v(n - 1), v(n - 1), q);
      }
    }
  }

  function Logs(v: nat -> Point): nat -> int {
    (i: nat) => v(i).log
  }

  lemma {:induction false} AddOtherPointsOnCurve(start: Point, n: nat, me: nat, v: nat -> Point, q: int)
    requires q > 0 && OnCurve(start, q)
    ensures OnCurve(AddOtherPoints(start, n, me, v, q), q)
  {
    if n > 0 { AddOtherPointsOnCurve(start, n - 1, me, v, q); }
  }

  lemma {:induction false} AddOtherPointsCong(start: Point, n: nat, me: nat, v: nat -> Point, q: int)
    requires q > 0
    ensures Cong(AddOtherPoints(start, n, me, v, q).log, start.log + Others(n, me, Logs(v)), q)
  {
    if n > 0 {
      AddOtherPointsCong(start, n - 1, me, v, q);
      if n - 1 != me {
        AddCong(AddOtherPoints(start, n - 1, me, v, q).log, start.log + Others(n - 1, me, Logs(v)), v(n - 1).log, v(n - 1).log, q);
      }
    }
  }

  // ----- One player's data, updated in place -----

  function GammaBetas(draws: seq<Draw>, q: int): nat -> int
    requires q > 0
  {
    (j: nat) => if j < |draws| then draws[j].betaGamma % q else 0
  }

  function KeyBetas(draws: seq<Draw>, q: int): nat -> int
    requires q > 0
  {
    (j: nat) => if j < |draws| then draws[j].betaX % q else 0
  }

  function GammaShares(key: P.PrivateKey, answers: seq<Answer>, q: int): nat -> int
    requires key.n > 0 && key.lambda >= 0 && q > 0
  {
    (j: nat) => if j < |answers| then ReceiverShare(key, answers[j].kGamma, q) else 0
  }

  function KeyShares(key: P.PrivateKey, answers: seq<Answer>, q: int): nat -> int
    requires key.n > 0 && key.lambda >= 0 && q > 0
  {
    (j: nat) => if j < |answers| then ReceiverShare(key, answers[j].kX, q) else 0
  }

  function PointsOf(points: seq<Point>): nat -> Point {
    (j: nat) => if j < |points| then points[j] else Infinity
  }

  function NumbersOf(numbers: seq<int>): nat -> int {
    (j: nat) => if j < |numbers| then numbers[j] else 0
  }

  /** The answer of a player to the request of player j. */
  function AnswerFor(n: int, request: int, gamma: nat, x: nat, d: Draw): Answer
    requires n > 0
  {
    Answer(AnswerValue(n, request, gamma, d.betaGamma, d.rGamma), AnswerValue(n, request, x, d.betaX, d.rX))
  }

  /** The result of calc_R: the deltas must match the points, and their sum must be invertible. */
  function NoncePoint(delta: int, DELTA: Point, GAMMA: Point, q: int): Result<Point>
    requires q > 0
  {
    if GeneratorMul(delta, q) != DELTA then Failure(InternalError)
    else
      var inverse := ModInverse(delta, q);
      if inverse.None? then Failure(InternalError) else Success(PointMul(GAMMA, inverse.value, q))
  }

  /** The two answers to one peer, with the betas reduced modulo q. */
  method AnswerPeer(n: int, own: int, request: nat, gamma: nat, x: nat, d: Draw, commitments: (nat, nat), q: int)
    returns (result: Result<(Answer, int, int)>)
    requires LargeEnough(n) && LargeEnough(own) && n > 0 && own > 0 && q > 0
    requires NumBits(d.betaGamma) <= 1280 && NumBits(d.betaX) <= 1280
    requires Unit(d.rGamma, n) && Unit(d.rX, n) && Unit(commitments.0, own) && Unit(commitments.1, own)
    ensures result.Success? <==> Unit(request, n)
    ensures result.Success? ==> result.value == (AnswerFor(n, request, gamma, x, d), d.betaGamma % q, d.betaX % q)
  {
    BetaFits(n, d);
    BetaFits(own, d);
    var first := AnswerRequest(request, n, own, gamma, d.betaGamma, d.rGamma, commitments.0, q);
    if first.Failure? { return Failure(first.error); }
    var second := AnswerRequest(request, n, own, x, d.betaX, d.rX, commitments.1, q);
    return Success((Answer(first.value.0, second.value.0), first.value.2, second.value.2));
  }

  /** Each half of the answer is the request to the power of the secret times an encryption of its beta with its own randomness. */
  ghost predicate RightAnswer(n: int, request: nat, gamma: nat, x: nat, d: Draw, answer: Answer)
    requires n > 0
  {
    && Cong(answer.kGamma, Pow(request, gamma) * ((1 + n * d.betaGamma) * Pow(d.rGamma, n)), n * n)
    && Cong(answer.kX, Pow(request, x) * ((1 + n * d.betaX) * Pow(d.rX, n)), n * n)
  }

  lemma {:induction false} AnswersMean(cfg: Config, me: nat, requests: seq<nat>, gamma: nat, draws: seq<Draw>, answers: seq<Answer>)
    requires ValidConfig(cfg) && me < |cfg.parties| == |requests| == |draws| && Answered(cfg, me, requests, gamma, draws, answers)
    ensures forall j | 0 <= j < |answers| && j != me ::
      RightAnswer(cfg.parties[j].key.n, requests[j], gamma, cfg.parties[me].x, draws[j], answers[j])
  {
    forall j | 0 <= j < |answers| && j != me
      ensures RightAnswer(cfg.parties[j].key.n, requests[j], gamma, cfg.parties[me].x, draws[j], answers[j])
    {
      AnswerValueCong(cfg.parties[j].key.n, requests[j], gamma, draws[j].betaGamma, draws[j].rGamma);
      AnswerValueCong(cfg.parties[j].key.n, requests[j], cfg.parties[me].x, draws[j].betaX, draws[j].rX);
    }
  }

  /** The answers of player me to the first requests, all of them to valid ciphertexts, with a blank for the own one. */
  ghost predicate Answered(cfg: Config, me: nat, requests: seq<nat>, gamma: nat, draws: seq<Draw>, answers: seq<Answer>)
    requires ValidConfig(cfg) && me < |cfg.parties| == |requests| == |draws|
  {
    && |answers| <= |requests|
    && (me < |answers| ==> answers[me] == Answer(0, 0))
    && forall j | 0 <= j < |answers| && j != me ::
      && Unit(requests[j], cfg.parties[j].key.n)
      && answers[j] == AnswerFor(cfg.parties[j].key.n, requests[j], gamma, cfg.parties[me].x, draws[j])
  }

  lemma {:induction false} AnsweredOneMore(cfg: Config, me: nat, requests: seq<nat>, gamma: nat, draws: seq<Draw>, answers: seq<Answer>, answer: Answer)
    requires ValidConfig(cfg) && me < |cfg.parties| == |requests| == |draws| && Answered(cfg, me, requests, gamma, draws, answers)
    requires var j := |answers|; j < |requests| && (j == me ==> answer == Answer(0, 0)) && (j != me ==>
      && Unit(requests[j], cfg.parties[j].key.n)
      && answer == AnswerFor(cfg.parties[j].key.n, requests[j], gamma, cfg.parties[me].x, draws[j]))
    ensures Answered(cfg, me, requests, gamma, draws, answers + [answer])
  {
    var longer := answers + [answer];
    forall j | 0 <= j < |longer| && j != me
      ensures Unit(requests[j], cfg.parties[j].key.n)
      ensures longer[j] == AnswerFor(cfg.parties[j].key.n, requests[j], gamma, cfg.parties[me].x, draws[j])
    {
      if j < |answers| { assert longer[j] == answers[j]; } else { assert longer[j] == answer; }
    }
  }

  /** The answers to all requests but the own one, and the betas to subtract for them. */
  method AnswerAll(cfg: Config, me: nat, requests: seq<nat>, gamma: nat, draws: seq<Draw>, commitments: seq<(nat, nat)>)
    returns (result: Result<(seq<Answer>, seq<int>, seq<int>)>)
    requires ValidConfig(cfg) && me < |cfg.parties| == |requests| && ValidDraws(cfg, draws)
    requires |commitments| == |requests| && ValidCommitments(cfg.parties[me].key.n, commitments)
    ensures result.Success? <==> forall j | 0 <= j < |requests| && j != me :: Unit(requests[j], cfg.parties[j].key.n)
    ensures result.Success? ==>
      var (answers, gammaBetas, keyBetas) := result.value;
      && |answers| == |gammaBetas| == |keyBetas| == |requests|
      && Answered(cfg, me, requests, gamma, draws, answers) && BetasOf(cfg.q, me, draws, gammaBetas, keyBetas)
  {
    var answers: seq<Answer>, gammaBetas: seq<int>, keyBetas: seq<int> := [], [], [];
    while |answers| < |requests|
      invariant |gammaBetas| == |keyBetas| == |answers| <= |requests|
      invariant Answered(cfg, me, requests, gamma, draws, answers)
      invariant BetasOf(cfg.q, me, draws, gammaBetas, keyBetas)
    {
      var j := |answers|;
      var answer, betaGamma, betaX := Answer(0, 0), 0, 0;
      if j != me {
        var next := AnswerPeer(cfg.parties[j].key.n, cfg.parties[me].key.n, requests[j], gamma, cfg.parties[me].x, draws[j], commitments[j], cfg.q);
        if next.Failure? { return Failure(next.error); }
        answer, betaGamma, betaX := next.value.0, next.value.1, next.value.2;
      }
      AnsweredOneMore(cfg, me, requests, gamma, draws, answers, answer);
      BetasOneMore(cfg.q, me, draws, gammaBetas, keyBetas, betaGamma, betaX);
      answers, gammaBetas, keyBetas := answers + [answer], gammaBetas + [betaGamma], keyBetas + [betaX];
    }
    return Success((answers, gammaBetas, keyBetas));
  }

  ghost predicate BetasOf(q: int, me: nat, draws: seq<Draw>, gammaBetas: seq<int>, keyBetas: seq<int>)
    requires q > 0
  {
    && |gammaBetas| == |keyBetas| <= |draws|
    && forall j: nat | j < |gammaBetas| && j != me :: gammaBetas[j] == GammaBetas(draws, q)(j) && keyBetas[j] == KeyBetas(draws, q)(j)
  }

  lemma {:induction false} BetasOneMore(q: int, me: nat, draws: seq<Draw>, gammaBetas: seq<int>, keyBetas: seq<int>, betaGamma: int, betaX: int)
    requires q > 0 && BetasOf(q, me, draws, gammaBetas, keyBetas) && |gammaBetas| < |draws|
    requires var j := |gammaBetas|; j != me ==> betaGamma == draws[j].betaGamma % q && betaX == draws[j].betaX % q
    ensures BetasOf(q, me, draws, gammaBetas + [betaGamma], keyBetas + [betaX])
  {
  }

  /** ecdsa_preprocessing_data */
  class PreprocessingData {
    var k: nat
    var gamma: nat
    var delta: int
    var chi: int
    var GAMMA: Point

    constructor ()
    {
      k, gamma, delta, chi, GAMMA := 0, 0, 0, 0, Infinity;
    }

    /** create_mta_request, for drawn k and gamma and encryption randomness r. */
    method CreateMtaRequest(k: nat, gamma: nat, r: nat, n: int, q: int) returns (request: nat)
      requires q > 0 && n > 0 && Unit(r, n)
      modifies this
      ensures this.k == k && this.gamma == gamma
      ensures delta == MulMod(k, gamma, q) && chi == 0 && GAMMA == GeneratorMul(gamma, q)
      ensures request == P.EncryptValue(n, r, k)
    {
      this.k := k;
      this.gamma := gamma;
      delta := MulMod(k, gamma, q);
      chi := 0;
      GAMMA := GeneratorMul(gamma, q);
      var c := P.Encrypt(n, r, k);
      request := c.value;
    }

    /** create_mta_response: the betas of the answers are subtracted. */
    method CreateMtaResponse(cfg: Config, me: nat, requests: seq<nat>, draws: seq<Draw>, commitments: seq<(nat, nat)>)
      returns (answers: Result<seq<Answer>>)
      requires ValidConfig(cfg) && me < |cfg.parties| == |requests| && ValidDraws(cfg, draws)
      requires |commitments| == |requests| && ValidCommitments(cfg.parties[me].key.n, commitments)
      modifies this`delta, this`chi
      ensures answers.Success? <==> forall j | 0 <= j < |requests| && j != me :: Unit(requests[j], cfg.parties[j].key.n)
      ensures answers.Success? ==>
        && delta == SubOthers(old(delta), |requests|, me, GammaBetas(draws, cfg.q), cfg.q)
        && chi == SubOthers(old(chi), |requests|, me, KeyBetas(draws, cfg.q), cfg.q)
        && |answers.value| == |requests| && Answered(cfg, me, requests, gamma, draws, answers.value)
      ensures answers.Success? ==>
        && Cong(delta, old(delta) - Others(|requests|, me, (j: nat) => if j < |draws| then draws[j].betaGamma else 0), cfg.q)
        && Cong(chi, old(chi) - Others(|requests|, me, (j: nat) => if j < |draws| then draws[j].betaX else 0), cfg.q)
      ensures answers.Success? ==> forall j | 0 <= j < |requests| && j != me ::
        RightAnswer(cfg.parties[j].key.n, requests[j], gamma, cfg.parties[me].x, draws[j], answers.value[j])
    {
      var answered := AnswerAll(cfg, me, requests, gamma, draws, commitments);
      if answered.Failure? { return Failure(answered.error); }
      var (list, gammaBetas, keyBetas) := answered.value;
      SubtractBetas(me, gammaBetas, keyBetas, cfg.q);
      SubOthersEqual(old(delta), |requests|, me, NumbersOf(gammaBetas), GammaBetas(draws, cfg.q), cfg.q);
      SubOthersEqual(old(chi), |requests|, me, NumbersOf(keyBetas), KeyBetas(draws, cfg.q), cfg.q);
      BetasSubtracted(old(delta), |requests|, me, GammaBetas(draws, cfg.q), (j: nat) => if j < |draws| then draws[j].betaGamma else 0, cfg.q);
      BetasSubtracted(old(chi), |requests|, me, KeyBetas(draws, cfg.q), (j: nat) => if j < |draws| then draws[j].betaX else 0, cfg.q);
      AnswersMean(cfg, me, requests, gamma, draws, list);
      return Success(list);
    }

    method SubtractBetas(me: nat, gammaBetas: seq<int>, keyBetas: seq<int>, q: int)
      requires q > 0 && |gammaBetas| == |keyBetas|
      modifies this`delta, this`chi
      ensures delta == SubOthers(old(delta), |gammaBetas|, me, NumbersOf(gammaBetas), q)
      ensures chi == SubOthers(old(chi), |gammaBetas|, me, NumbersOf(keyBetas), q)
    {
      var j := 0;
      while j < |gammaBetas|
        invariant 0 <= j <= |gammaBetas|
        invariant delta == SubOthers(old(delta), j, me, NumbersOf(gammaBetas), q)
        invariant chi == SubOthers(old(chi), j, me, NumbersOf(keyBetas), q)
      {
        if j != me {
          delta := SubScalars(delta, gammaBetas[j], q);
          chi := SubScalars(chi, keyBetas[j], q);
        }
        j := j + 1;
      }
    }

    /** verify_block_and_get_delta: the decrypted shares and the others' GAMMA are added. */
    method VerifyBlockAndGetDelta(key: P.PrivateKey, me: nat, answers: seq<Answer>, GAMMAs: seq<Point>, q: int)
      returns (result: Result<(int, Point)>)
      requires P.ValidKey(key) && q > 0 && |answers| == |GAMMAs|
      modifies this`delta, this`chi, this`GAMMA
      ensures result.Success? <==>
        forall j | 0 <= j < |answers| && j != me :: Unit(answers[j].kGamma, key.n) && Unit(answers[j].kX, key.n)
      ensures result.Success? ==>
        && delta == AddOthers(old(delta), |answers|, me, GammaShares(key, answers, q), q)
        && chi == AddOthers(old(chi), |answers|, me, KeyShares(key, answers, q), q)
        && GAMMA == AddOtherPoints(old(GAMMA), |answers|, me, PointsOf(GAMMAs), q)
        && result.value == (delta, PointMul(GAMMA, k, q))
    {
      var j := 0;
      while j < |answers|
        invariant 0 <= j <= |answers|
        invariant delta == AddOthers(old(delta), j, me, GammaShares(key, answers, q), q)
        invariant chi == AddOthers(old(chi), j, me, KeyShares(key, answers, q), q)
        invariant GAMMA == AddOtherPoints(old(GAMMA), j, me, PointsOf(GAMMAs), q)
        invariant forall i | 0 <= i < j && i != me :: Unit(answers[i].kGamma, key.n) && Unit(answers[i].kX, key.n)
      {
        if j != me {
          var alpha := DecryptResponse(key, answers[j].kGamma, q);
          if alpha.Failure? { return Failure(alpha.error); }
          delta := AddScalars(delta, alpha.value, q);
          alpha := DecryptResponse(key, answers[j].kX, q);
          if alpha.Failure? { return Failure(alpha.error); }
          chi := AddScalars(chi, alpha.value, q);
          GAMMA := AddPoints(GAMMA, GAMMAs[j], q);
        }
        j := j + 1;
      }
      return Success((delta, PointMul(GAMMA, k, q)));
    }

    /**
     calc_R: the sums of what all players sent must belong together, the sum of the deltas must be
     invertible, and then R is GAMMA divided by it.
     */
    method CalcR(me: nat, deltas: seq<int>, DELTAs: seq<Point>, q: int) returns (R: Result<Point>)
      requires q > 0 && |deltas| == |DELTAs|
      modifies this`delta
      ensures R == NoncePoint(AddOthers(old(delta), |deltas|, me, NumbersOf(deltas), q),
                              AddOtherPoints(PointMul(GAMMA, k, q), |deltas|, me, PointsOf(DELTAs), q), GAMMA, q)
      ensures
        var total := old(delta) + Others(|deltas|, me, (j: nat) => if j < |deltas| then deltas[j] else 0);
        var points := GAMMA.log * k + Others(|DELTAs|, me, (j: nat) => if j < |DELTAs| then DELTAs[j].log else 0);
        && (R.Success? <==> Cong(total, points, q) && Unit(total, q))
        && (R.Success? ==> OnCurve(R.value, q) && Cong(R.value.log * total, GAMMA.log, q))
        && (R.Success? ==> Cong(delta * total, 1, q))
        && (R.Failure? ==> R.error == InternalError)
    {
      var DELTA := PointMul(GAMMA, k, q);
      var j := 0;
      while j < |deltas|
        invariant 0 <= j <= |deltas|
        invariant delta == AddOthers(old(delta), j, me, NumbersOf(deltas), q)
        invariant DELTA == AddOtherPoints(PointMul(GAMMA, k, q), j, me, PointsOf(DELTAs), q)
      {
        if j != me {
          delta := AddScalars(delta, deltas[j], q);
          DELTA := AddPoints(DELTA, DELTAs[j], q);
        }
        j := j + 1;
      }
      SentSums(old(delta), PointMul(GAMMA, k, q), |deltas|, me, NumbersOf(deltas), (j: nat) => if j < |deltas| then deltas[j] else 0,
               PointsOf(DELTAs), (j: nat) => if j < |DELTAs| then DELTAs[j].log else 0, GAMMA, k, q);
      if GeneratorMul(delta, q) != DELTA { return Failure(InternalError); }
      var inverse := ModInverse(delta, q);
      if inverse.None? { return Failure(InternalError); }
      InverseOfSum(delta, inverse.value, old(delta) + Others(|deltas|, me, (j: nat) => if j < |deltas| then deltas[j] else 0), q);
      delta := inverse.value;
      return Success(PointMul(GAMMA, delta, q));
    }
  }

  lemma {:induction false} BetasSubtracted(start: int, n: nat, me: nat, reduced: nat -> int, betas: nat -> int, q: int)
    requires q > 0 && forall j: nat | j < n :: reduced(j) == betas(j) % q
    ensures Cong(SubOthers(start, n, me, reduced, q), start - Others(n, me, betas), q)
  {
    SubOthersCong(start, n, me, reduced, q);
    forall j: nat | j < n && j != me ensures Cong(reduced(j), betas(j), q) { CongMod(betas(j), q); }
    OthersCong(n, me, reduced, betas, q);
    CongSub(start, start, Others(n, me, reduced), Others(n, me, betas), q);
  }

  /** What NoncePoint makes of the sums, in terms of what the players sent. */
  lemma {:induction false} SentSums(start: int, own: Point, n: nat, me: nat, sent: nat -> int, deltas: nat -> int,
                                    points: nat -> Point, logs: nat -> int, GAMMA: Point, k: int, q: int)
    requires q > 0 && own == PointMul(GAMMA, k, q)
    requires forall j: nat | j < n :: sent(j) == deltas(j) && points(j).log == logs(j)
    ensures
      var R := NoncePoint(AddOthers(start, n, me, sent, q), AddOtherPoints(own, n, me, points, q), GAMMA, q);
      var total, log := start + Others(n, me, deltas), GAMMA.log * k + Others(n, me, logs);
      && (R.Success? <==> Cong(total, log, q) && Unit(total, q))
      && (R.Success? ==> OnCurve(R.value, q) && Cong(R.value.log * total, GAMMA.log, q))
      && Cong(AddOthers(start, n, me, sent, q), total, q)
  {
    AddOthersCong(start, n, me, sent, q);
    OthersEqual(n, me, sent, deltas);
    AddOtherPointsCong(own, n, me, points, q);
    OthersEqual(n, me, Logs(points), logs);
    AddOtherPointsOnCurve(own, n, me, points, q);
    CongMod(GAMMA.log * k, q);
    CongAdd(own.log, GAMMA.log * k, Others(n, me, logs), Others(n, me, logs), q);
    NoncePointFrom(AddOthers(start, n, me, sent, q), start + Others(n, me, deltas),
                   AddOtherPoints(own, n, me, points, q), GAMMA.log * k + Others(n, me, logs), GAMMA, q);
  }

  lemma NoncePointFrom(delta: int, total: int, DELTA: Point, log: int, GAMMA: Point, q: int)
    requires q > 0 && OnCurve(DELTA, q) && Cong(delta, total, q) && Cong(DELTA.log, log, q)
    ensures var R := NoncePoint(delta, DELTA, GAMMA, q);
      && (R.Success? <==> Cong(total, log, q) && Unit(total, q))
      && (R.Success? ==> OnCurve(R.value, q) && Cong(R.value.log * total, GAMMA.log, q))
  {
    CongMod(delta, q);
    SamePoint(GeneratorMul(delta, q), DELTA, q);
    if Unit(delta, q) { UnitCong(delta, total, q); }
    if Unit(total, q) { UnitCong(total, delta, q); }
    if NoncePoint(delta, DELTA, GAMMA, q).Success? {
      Divided(GAMMA, ModInverse(delta, q).value, delta, total, q);
    }
  }

  lemma InverseOfSum(delta: int, inverse: int, total: int, q: int)
    requires q > 0 && InverseOf(delta, inverse, q) && Cong(delta, total, q)
    ensures Cong(inverse * total, 1, q)
  {
    CongMulLeft(delta, total, inverse, q);
    assert inverse * total == total * inverse;
  }

  lemma Divided(GAMMA: Point, inverse: int, delta: int, total: int, q: int)
    requires q > 0 && InverseOf(delta, inverse, q) && Cong(delta, total, q)
    ensures Cong(PointMul(GAMMA, inverse, q).log * total, GAMMA.log, q)
  {
    CongMod(GAMMA.log * inverse, q);
    CongMul(PointMul(GAMMA, inverse, q).log, GAMMA.log * inverse, total, delta, q);
    assert (GAMMA.log * inverse) * delta == (delta * inverse) * GAMMA.log;
    CongMulLeft(delta * inverse, 1, GAMMA.log, q);
  }

  /** A peer whose delta does not belong to its DELTA is found out: if the sums fit with one delta, they do not with another. */
  lemma {:induction false} MismatchFails(total: int, log: int, n: nat, me: nat, deltas: nat -> int, altered: nat -> int, j: nat, q: int)
    requires q > 0 && j < n && j != me && (forall i: nat | i < n && i != j :: altered(i) == deltas(i))
    requires Cong(total + Others(n, me, deltas), log, q) && !Cong(altered(j), deltas(j), q)
    ensures !Cong(total + Others(n, me, altered), log, q)
  {
    SumSplit(n, me, deltas);
    SumSplit(n, me, altered);
    SumChange(n, j, deltas, altered);
    if me < n { assert altered(me) == deltas(me); }
    assert Others(n, me, altered) == Others(n, me, deltas) + (altered(j) - deltas(j));
    if Cong(total + Others(n, me, altered), log, q) {
      CongSub(total + Others(n, me, altered), log, total + Others(n, me, deltas), log, q);
      CongAdd(altered(j) - deltas(j), 0, deltas(j), deltas(j), q);
    }
  }

  lemma {:induction false} BetaFits(n: int, d: Draw)
    requires LargeEnough(n) && NumBits(d.betaGamma) <= 1280 && NumBits(d.betaX) <= 1280
    ensures n > 1 && d.betaGamma < n && d.betaX < n
  {
    PlaintextBelowHalf(n, 0, 0, d.betaGamma);
    PlaintextBelowHalf(n, 0, 0, d.betaX);
  }
}
