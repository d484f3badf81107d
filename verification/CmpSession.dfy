/**
 A run of the presigning protocol: n players whose steps interleave in any order that the
 messages allow, and what every such run keeps.
 */
module CmpSession {
  import opened Modular
  import opened NumberTheory
  import opened Wrappers
  import opened Curve
  import opened Sums
  import opened Mta
  import opened CmpPresigning
  import P = Paillier

  /** How far a player is: nothing, requested, answered all requests, verified all answers, computed R. */
  datatype Player = Player(
    stage: nat, k: nat, gamma: nat, delta: int, chi: int, GAMMA: Point, request: nat, answers: seq<Answer>, R: Point)

  type Session = seq<Player>

  datatype Action =
    | Request(i: nat, k: nat, gamma: nat, r: nat)
    | Respond(i: nat, draws: seq<Draw>)
    | Verify(i: nat)
    | Finish(i: nat)

  const Idle := Player(0, 0, 0, 0, 0, Infinity, 0, [], Infinity)

  function Start(cfg: Config): Session {
    seq(|cfg.parties|, _ => Idle)
  }

  predicate AllReached(s: Session, stage: nat) {
    forall j | 0 <= j < |s| :: s[j].stage >= stage
  }

  // ----- Messages -----

  function Requests(s: Session): (r: seq<nat>)
    ensures |r| == |s|
  {
    seq(|s|, j requires 0 <= j < |s| => s[j].request)
  }

  /** What the others sent player i. */
  function AnswersTo(s: Session, i: nat): (r: seq<Answer>)
    ensures |r| == |s|
  {
    seq(|s|, j requires 0 <= j < |s| => if i < |s[j].answers| then s[j].answers[i] else Answer(0, 0))
  }

  function SentGAMMAs(s: Session, q: int): (r: seq<Point>)
    requires q > 0
    ensures |r| == |s|
  {
    seq(|s|, j requires 0 <= j < |s| => GeneratorMul(s[j].gamma, q))
  }

  function SentDeltas(s: Session): (r: seq<int>)
    ensures |r| == |s|
  {
    seq(|s|, j requires 0 <= j < |s| => s[j].delta)
  }

  function SentDELTAs(s: Session, q: int): (r: seq<Point>)
    requires q > 0
    ensures |r| == |s|
  {
    seq(|s|, j requires 0 <= j < |s| => PointMul(s[j].GAMMA, s[j].k, q))
  }

  function AllAnswers(cfg: Config, s: Session, i: nat, draws: seq<Draw>): (r: seq<Answer>)
    requires ValidConfig(cfg) && |s| == |cfg.parties| == |draws| && i < |s|
    ensures |r| == |s|
  {
    seq(|s|, j requires 0 <= j < |s| =>
      if j == i then Answer(0, 0) else AnswerFor(cfg.parties[j].key.n, s[j].request, s[i].gamma, cfg.parties[i].x, draws[j]))
  }

  // ----- Steps -----

  /** The result of calc_R for player i. */
  function Nonce(cfg: Config, s: Session, i: nat): Result<Point>
    requires cfg.q > 0 && i < |s|
  {
    NoncePoint(AddOthers(s[i].delta, |s|, i, NumbersOf(SentDeltas(s)), cfg.q),
               AddOtherPoints(PointMul(s[i].GAMMA, s[i].k, cfg.q), |s|, i, PointsOf(SentDELTAs(s, cfg.q)), cfg.q),
               s[i].GAMMA, cfg.q)
  }

  ghost predicate Enabled(cfg: Config, s: Session, a: Action)
    requires ValidConfig(cfg) && |s| == |cfg.parties|
  {
    a.i < |s| &&
    match a
    case Request(i, k, gamma, r) => s[i].stage == 0 && k < cfg.q && gamma < cfg.q && Unit(r, cfg.parties[i].key.n)
    case Respond(i, draws) => s[i].stage == 1 && AllReached(s, 1) && ValidDraws(cfg, draws)
    case Verify(i) => s[i].stage == 2 && AllReached(s, 2)
    case Finish(i) => s[i].stage == 3 && AllReached(s, 3) && Nonce(cfg, s, i).Success?
  }

  /** The step of one player, as the methods of PreprocessingData perform it. */
  function After(cfg: Config, s: Session, a: Action): Player
    requires ValidConfig(cfg) && |s| == |cfg.parties| && a.i < |s|
    requires a.Respond? ==> |a.draws| == |s|
    requires a.Finish? ==> Nonce(cfg, s, a.i).Success?
  {
    var p, n, q := s[a.i], |s|, cfg.q;
    match a
    case Request(i, k, gamma, r) =>
      Player(1, k, gamma, MulMod(k, gamma, q), 0, GeneratorMul(gamma, q), P.EncryptValue(cfg.parties[i].key.n, r, k), [], Infinity)
    case Respond(i, draws) =>
      p.(stage := 2, answers := AllAnswers(cfg, s, i, draws),
         delta := SubOthers(p.delta, n, i, GammaBetas(draws, q), q),
         chi := SubOthers(p.chi, n, i, KeyBetas(draws, q), q))
    case Verify(i) =>
      var key := cfg.parties[i].key;
      p.(stage := 3,
         delta := AddOthers(p.delta, n, i, GammaShares(key, AnswersTo(s, i), q), q),
         chi := AddOthers(p.chi, n, i, KeyShares(key, AnswersTo(s, i), q), q),
         GAMMA := AddOtherPoints(p.GAMMA, n, i, PointsOf(SentGAMMAs(s, q)), q))
    case Finish(i) => p.(stage := 4, R := Nonce(cfg, s, i).value)
  }

  function Apply(cfg: Config, s: Session, a: Action): (r: Session)
    requires ValidConfig(cfg) && |s| == |cfg.parties| && a.i < |s|
    requires a.Respond? ==> |a.draws| == |s|
    requires a.Finish? ==> Nonce(cfg, s, a.i).Success?
    ensures |r| == |s|
  {
    s[a.i := After(cfg, s, a)]
  }

  /** A run: the sessions that a sequence of steps passes through. */
  ghost predicate Run(cfg: Config, trace: seq<Session>, actions: seq<Action>)
    requires ValidConfig(cfg)
  {
    && |trace| == |actions| + 1
    && trace[0] == Start(cfg)
    && (forall t | 0 <= t < |trace| :: |trace[t]| == |cfg.parties|)
    && forall t | 0 <= t < |actions| :: Enabled(cfg, trace[t], actions[t]) && trace[t + 1] == Apply(cfg, trace[t], actions[t])
  }

  // ----- Shares of the two products -----

  /** Which product: k*gamma with shares delta, or k*x with shares chi. */
  datatype Side = GammaSide | KeySide

  function Share(side: Side, p: Player): int {
    if side.GammaSide? then p.delta else p.chi
  }

  function Secret(cfg: Config, side: Side, s: Session, i: nat): int
    requires i < |s| == |cfg.parties|
  {
    if side.GammaSide? then s[i].gamma else cfg.parties[i].x
  }

  /** What a player starts its share with. */
  function Own(side: Side, p: Player): int {
    if side.GammaSide? then p.k * p.gamma else 0
  }

  /** The share player j reads from the answer of player i. */
  function Alpha(cfg: Config, side: Side, s: Session, i: nat, j: nat): int
    requires ValidConfig(cfg) && |s| == |cfg.parties| && i < |s| && j < |s|
  {
    if j < |s[i].answers| then
      ReceiverShare(cfg.parties[j].key, if side.GammaSide? then s[i].answers[j].kGamma else s[i].answers[j].kX, cfg.q)
    else 0
  }

  /** What answering leaves over: the shares sent out minus the products they stand for. */
  function Excess(cfg: Config, side: Side, s: Session, i: nat): nat -> int
    requires ValidConfig(cfg) && |s| == |cfg.parties| && i < |s|
  {
    (j: nat) => if j < |s| then Alpha(cfg, side, s, i, j) - s[j].k * Secret(cfg, side, s, i) else 0
  }

  function Received(cfg: Config, side: Side, s: Session, i: nat): nat -> int
    requires ValidConfig(cfg) && |s| == |cfg.parties| && i < |s|
  {
    (j: nat) => if j < |s| then Alpha(cfg, side, s, j, i) else 0
  }

  /** What player i's share must be congruent to. */
  function Expected(cfg: Config, side: Side, s: Session, i: nat): int
    requires ValidConfig(cfg) && |s| == |cfg.parties| && i < |s|
  {
    Own(side, s[i])
    - (if s[i].stage >= 2 then Others(|s|, i, Excess(cfg, side, s, i)) else 0)
    + (if s[i].stage >= 3 then Others(|s|, i, Received(cfg, side, s, i)) else 0)
  }

  function Gammas(s: Session): nat -> int {
    (j: nat) => if j < |s| then s[j].gamma else 0
  }

  function Ks(s: Session): nat -> int {
    (j: nat) => if j < |s| then s[j].k else 0
  }

  function Keys(cfg: Config): nat -> int {
    (j: nat) => if j < |cfg.parties| then cfg.parties[j].x else 0
  }

  // ----- The invariant -----

  /** The other requesters can decrypt the answers of player i. */
  ghost predicate UnitAnswers(cfg: Config, i: nat, answers: seq<Answer>)
    requires ValidConfig(cfg)
  {
    && |answers| == |cfg.parties|
    && forall j | 0 <= j < |answers| && j != i ::
      Unit(answers[j].kGamma, cfg.parties[j].key.n) && Unit(answers[j].kX, cfg.parties[j].key.n)
  }

  ghost predicate LocalInv(cfg: Config, s: Session, i: nat)
    requires ValidConfig(cfg) && |s| == |cfg.parties| && i < |s|
  {
    var p := s[i];
    && p.stage <= 4
    && (p.stage == 0 ==> p == Idle)
    && p.k < cfg.q && p.gamma < cfg.q
    && (p.stage >= 1 ==> P.Encrypts(cfg.parties[i].key.n, p.request, p.k))
    && (p.stage >= 2 ==> UnitAnswers(cfg, i, p.answers))
    && (p.stage >= 3 ==> Cong(p.GAMMA.log, Sum(|s|, Gammas(s)), cfg.q))
    && (1 <= p.stage < 3 ==> p.GAMMA == GeneratorMul(p.gamma, cfg.q))
    && OnCurve(p.GAMMA, cfg.q)
    && Cong(p.delta, Expected(cfg, GammaSide, s, i), cfg.q)
    && Cong(p.chi, Expected(cfg, KeySide, s, i), cfg.q)
  }

  /** Nobody is two message rounds ahead of anybody. */
  ghost predicate InStep(s: Session) {
    forall i, j | 0 <= i < |s| && 0 <= j < |s| && s[i].stage >= 2 :: s[j].stage + 1 >= s[i].stage
  }

  ghost predicate Inv(cfg: Config, s: Session)
    requires ValidConfig(cfg)
  {
    |s| == |cfg.parties| && InStep(s) && forall i | 0 <= i < |s| :: LocalInv(cfg, s, i)
  }

  lemma {:induction false} StartInv(cfg: Config)
    requires ValidConfig(cfg)
    ensures Inv(cfg, Start(cfg))
  {
    var s := Start(cfg);
    forall i | 0 <= i < |s| ensures LocalInv(cfg, s, i) {
      assert s[i] == Idle;
      assert Expected(cfg, GammaSide, s, i) == 0 && Expected(cfg, KeySide, s, i) == 0;
    }
  }

  // ----- Each step keeps it -----

  /** The inputs of player j's expected shares are the same in both sessions. */
  ghost predicate SameInputs(s: Session, r: Session, j: nat)
    requires |s| == |r| && j < |s|
  {
    && r[j].stage == s[j].stage && r[j].gamma == s[j].gamma && r[j].k == s[j].k && r[j].answers == s[j].answers
    && (s[j].stage >= 2 ==> forall m | 0 <= m < |s| :: r[m].k == s[m].k)
    && (s[j].stage >= 3 ==> forall m | 0 <= m < |s| :: r[m].answers == s[m].answers)
  }

  lemma {:induction false} ExpectedSame(cfg: Config, side: Side, s: Session, r: Session, j: nat)
    requires ValidConfig(cfg) && |s| == |cfg.parties| == |r| && j < |s| && SameInputs(s, r, j)
    ensures Expected(cfg, side, r, j) == Expected(cfg, side, s, j)
  {
    if s[j].stage >= 2 { OthersEqual(|s|, j, Excess(cfg, side, r, j), Excess(cfg, side, s, j)); }
    if s[j].stage >= 3 { OthersEqual(|s|, j, Received(cfg, side, r, j), Received(cfg, side, s, j)); }
  }

  /** Players that a step does not touch keep their part of the invariant. */
  lemma {:induction false} OtherPlayer(cfg: Config, s: Session, r: Session, j: nat)
    requires ValidConfig(cfg) && |s| == |cfg.parties| == |r| && j < |s| && SameInputs(s, r, j)
    requires LocalInv(cfg, s, j) && r[j] == s[j]
    requires s[j].stage >= 3 ==> forall m | 0 <= m < |s| :: r[m].gamma == s[m].gamma
    ensures LocalInv(cfg, r, j)
  {
    ExpectedSame(cfg, GammaSide, s, r, j);
    ExpectedSame(cfg, KeySide, s, r, j);
    if s[j].stage >= 3 { SumEqual(|s|, Gammas(r), Gammas(s)); }
  }

  lemma {:induction false} RequestInv(cfg: Config, s: Session, a: Action)
    requires ValidConfig(cfg) && Inv(cfg, s) && a.Request? && Enabled(cfg, s, a)
    ensures Inv(cfg, Apply(cfg, s, a))
  {
    var r, i, n := Apply(cfg, s, a), a.i, cfg.parties[a.i].key.n;
    assert forall j | 0 <= j < |s| :: s[j].stage <= 1;
    forall j | 0 <= j < |s| && j != i ensures LocalInv(cfg, r, j) { OtherPlayer(cfg, s, r, j); }
    P.EncryptValueCong(n, a.r, a.k);
    assert P.EncryptsWith(n, r[i].request, a.k, a.r);
    CongMod(a.k * a.gamma, cfg.q);
    assert Expected(cfg, GammaSide, r, i) == a.k * a.gamma && Expected(cfg, KeySide, r, i) == 0;
  }

  /** The betas a player subtracts are the excess of its answers. */
  lemma {:induction false} BetasAreExcess(cfg: Config, side: Side, s: Session, r: Session, i: nat, draws: seq<Draw>, j: nat)
    requires ValidConfig(cfg) && Inv(cfg, s) && i < |s| && j < |s| && j != i && AllReached(s, 1) && ValidDraws(cfg, draws)
    requires |r| == |s| && r[i].answers == AllAnswers(cfg, s, i, draws) && r[i].gamma == s[i].gamma
    requires forall m | 0 <= m < |s| :: r[m].k == s[m].k
    ensures Cong((if side.GammaSide? then GammaBetas(draws, cfg.q) else KeyBetas(draws, cfg.q))(j),
                 Excess(cfg, side, r, i)(j), cfg.q)
  {
    var key, d, q := cfg.parties[j].key, draws[j], cfg.q;
    assert LocalInv(cfg, s, j) && LocalInv(cfg, s, i);
    BitsMonotone(s[j].k, q);
    if side.GammaSide? {
      BitsMonotone(s[i].gamma, q);
      OneBeta(key, s[j].request, s[j].k, s[i].gamma, d.betaGamma, d.rGamma, q);
    } else {
      BitsMonotone(cfg.parties[i].x, q);
      OneBeta(key, s[j].request, s[j].k, cfg.parties[i].x, d.betaX, d.rX, q);
    }
  }

  lemma {:induction false} OneBeta(key: P.PrivateKey, request: nat, k: nat, secret: nat, beta: nat, r: int, q: int)
    requires P.ValidKey(key) && LargeEnough(key.n) && q > 0 && P.Encrypts(key.n, request, k) && Unit(r, key.n)
    requires NumBits(k) <= 256 && NumBits(secret) <= 256 && NumBits(beta) <= 1280
    ensures Cong(beta % q, ReceiverShare(key, AnswerValue(key.n, request, secret, beta, r), q) - k * secret, q)
  {
    MtaExact(key, request, k, secret, beta, r, q);
    ExcessIsBeta(ReceiverShare(key, AnswerValue(key.n, request, secret, beta, r), q), k * secret, beta, q);
  }

  lemma {:induction false} ExcessIsBeta(alpha: int, product: int, beta: int, q: int)
    requires q > 0 && alpha == (product + beta) % q
    ensures Cong(beta % q, alpha - product, q)
  {
    CongMod(product + beta, q);
    CongSub(alpha, product + beta, product, product, q);
    CongMod(beta, q);
  }

  lemma {:induction false} RespondShare(cfg: Config, side: Side, s: Session, r: Session, i: nat, draws: seq<Draw>, betas: nat -> int)
    requires ValidConfig(cfg) && Inv(cfg, s) && i < |s| && s[i].stage == 1 && AllReached(s, 1) && ValidDraws(cfg, draws)
    requires |r| == |s| && r[i].answers == AllAnswers(cfg, s, i, draws) && r[i].gamma == s[i].gamma && r[i].stage == 2
    requires forall m | 0 <= m < |s| :: r[m].k == s[m].k
    requires betas == if side.GammaSide? then GammaBetas(draws, cfg.q) else KeyBetas(draws, cfg.q)
    requires Share(side, r[i]) == SubOthers(Share(side, s[i]), |s|, i, betas, cfg.q)
    ensures Cong(Share(side, r[i]), Expected(cfg, side, r, i), cfg.q)
  {
    assert LocalInv(cfg, s, i);
    forall j: nat | j < |s| && j != i ensures Cong(betas(j), Excess(cfg, side, r, i)(j), cfg.q) {
      BetasAreExcess(cfg, side, s, r, i, draws, j);
    }
    SubOthersCong(Share(side, s[i]), |s|, i, betas, cfg.q);
    OthersCong(|s|, i, betas, Excess(cfg, side, r, i), cfg.q);
    CongSub(Share(side, s[i]), Own(side, s[i]), Others(|s|, i, betas), Others(|s|, i, Excess(cfg, side, r, i)), cfg.q);
  }

  lemma {:induction false} RespondUnits(cfg: Config, s: Session, i: nat, draws: seq<Draw>)
    requires ValidConfig(cfg) && Inv(cfg, s) && i < |s| && AllReached(s, 1) && ValidDraws(cfg, draws)
    ensures UnitAnswers(cfg, i, AllAnswers(cfg, s, i, draws))
  {
    var answers := AllAnswers(cfg, s, i, draws);
    forall j | 0 <= j < |answers| && j != i
      ensures Unit(answers[j].kGamma, cfg.parties[j].key.n) && Unit(answers[j].kX, cfg.parties[j].key.n)
    {
      var n, d, request, k := cfg.parties[j].key.n, draws[j], s[j].request, s[j].k;
      assert LocalInv(cfg, s, i) && LocalInv(cfg, s, j);
      AnswerEncrypts(n, request, k, s[i].gamma, d.betaGamma, d.rGamma);
      AnswerEncrypts(n, request, k, cfg.parties[i].x, d.betaX, d.rX);
      P.CiphertextUnit(n, answers[j].kGamma, k * s[i].gamma + d.betaGamma);
      P.CiphertextUnit(n, answers[j].kX, k * cfg.parties[i].x + d.betaX);
    }
  }

  lemma {:induction false} RespondInv(cfg: Config, s: Session, a: Action)
    requires ValidConfig(cfg) && Inv(cfg, s) && a.Respond? && Enabled(cfg, s, a)
    ensures Inv(cfg, Apply(cfg, s, a))
  {
    var r, i := Apply(cfg, s, a), a.i;
    assert forall j | 0 <= j < |s| :: s[j].stage <= 2;
    forall j | 0 <= j < |s| && j != i ensures LocalInv(cfg, r, j) { OtherPlayer(cfg, s, r, j); }
    assert LocalInv(cfg, s, i);
    RespondUnits(cfg, s, i, a.draws);
    RespondShare(cfg, GammaSide, s, r, i, a.draws, GammaBetas(a.draws, cfg.q));
    RespondShare(cfg, KeySide, s, r, i, a.draws, KeyBetas(a.draws, cfg.q));
  }

  lemma {:induction false} VerifyShare(cfg: Config, side: Side, s: Session, r: Session, i: nat, shares: nat -> int)
    requires ValidConfig(cfg) && Inv(cfg, s) && i < |s| && s[i].stage == 2 && AllReached(s, 2)
    requires |r| == |s| && r[i].stage == 3 && r[i].k == s[i].k && r[i].gamma == s[i].gamma
    requires forall m | 0 <= m < |s| :: r[m].k == s[m].k && r[m].answers == s[m].answers
    requires var key, answers := cfg.parties[i].key, AnswersTo(s, i);
      shares == if side.GammaSide? then GammaShares(key, answers, cfg.q) else KeyShares(key, answers, cfg.q)
    requires Share(side, r[i]) == AddOthers(Share(side, s[i]), |s|, i, shares, cfg.q)
    ensures Cong(Share(side, r[i]), Expected(cfg, side, r, i), cfg.q)
  {
    assert LocalInv(cfg, s, i);
    forall j: nat | j < |s| && j != i ensures shares(j) == Received(cfg, side, r, i)(j) {
      assert LocalInv(cfg, s, j);
    }
    AddOthersCong(Share(side, s[i]), |s|, i, shares, cfg.q);
    OthersEqual(|s|, i, shares, Received(cfg, side, r, i));
    OthersEqual(|s|, i, Excess(cfg, side, r, i), Excess(cfg, side, s, i));
    CongAdd(Share(side, s[i]), Expected(cfg, side, s, i), Others(|s|, i, shares), Others(|s|, i, shares), cfg.q);
  }

  lemma {:induction false} VerifyPoint(cfg: Config, s: Session, r: Session, i: nat)
    requires ValidConfig(cfg) && Inv(cfg, s) && i < |s| && s[i].stage == 2
    requires |r| == |s| && forall m | 0 <= m < |s| :: r[m].gamma == s[m].gamma
    requires r[i].GAMMA == AddOtherPoints(s[i].GAMMA, |s|, i, PointsOf(SentGAMMAs(s, cfg.q)), cfg.q)
    ensures Cong(r[i].GAMMA.log, Sum(|s|, Gammas(r)), cfg.q)
  {
    var v := PointsOf(SentGAMMAs(s, cfg.q));
    assert LocalInv(cfg, s, i);
    AddOtherPointsCong(s[i].GAMMA, |s|, i, v, cfg.q);
    forall j: nat | j < |s| && j != i ensures Cong(Logs(v)(j), Gammas(r)(j), cfg.q) {
      CongMod(s[j].gamma, cfg.q);
    }
    OthersCong(|s|, i, Logs(v), Gammas(r), cfg.q);
    CongMod(s[i].gamma, cfg.q);
    SumSplit(|s|, i, Gammas(r));
    CongAdd(s[i].GAMMA.log, s[i].gamma, Others(|s|, i, Logs(v)), Others(|s|, i, Gammas(r)), cfg.q);
  }

  lemma {:induction false} VerifyInv(cfg: Config, s: Session, a: Action)
    requires ValidConfig(cfg) && Inv(cfg, s) && a.Verify? && Enabled(cfg, s, a)
    ensures Inv(cfg, Apply(cfg, s, a))
  {
    var r, i, key, q := Apply(cfg, s, a), a.i, cfg.parties[a.i].key, cfg.q;
    assert forall j | 0 <= j < |s| :: s[j].stage <= 3;
    forall j | 0 <= j < |s| && j != i ensures LocalInv(cfg, r, j) { OtherPlayer(cfg, s, r, j); }
    assert LocalInv(cfg, s, i);
    VerifyShare(cfg, GammaSide, s, r, i, GammaShares(key, AnswersTo(s, i), q));
    VerifyShare(cfg, KeySide, s, r, i, KeyShares(key, AnswersTo(s, i), q));
    VerifyPoint(cfg, s, r, i);
    AddOtherPointsOnCurve(s[i].GAMMA, |s|, i, PointsOf(SentGAMMAs(s, q)), q);
  }

  lemma {:induction false} FinishInv(cfg: Config, s: Session, a: Action)
    requires ValidConfig(cfg) && Inv(cfg, s) && a.Finish? && Enabled(cfg, s, a)
    ensures Inv(cfg, Apply(cfg, s, a))
  {
    var r, i := Apply(cfg, s, a), a.i;
    forall j | 0 <= j < |s| && j != i ensures LocalInv(cfg, r, j) { OtherPlayer(cfg, s, r, j); }
    assert LocalInv(cfg, s, i);
    FinishExpected(cfg, GammaSide, s, r, i);
    FinishExpected(cfg, KeySide, s, r, i);
    SumEqual(|s|, Gammas(r), Gammas(s));
  }

  lemma {:induction false} FinishExpected(cfg: Config, side: Side, s: Session, r: Session, i: nat)
    requires ValidConfig(cfg) && |s| == |cfg.parties| == |r| && i < |s| && s[i].stage == 3
    requires r == s[i := s[i].(stage := 4, R := r[i].R)]
    ensures Expected(cfg, side, r, i) == Expected(cfg, side, s, i)
  {
    OthersEqual(|s|, i, Excess(cfg, side, r, i), Excess(cfg, side, s, i));
    OthersEqual(|s|, i, Received(cfg, side, r, i), Received(cfg, side, s, i));
  }

  lemma {:induction false} StepInv(cfg: Config, s: Session, a: Action)
    requires ValidConfig(cfg) && Inv(cfg, s) && Enabled(cfg, s, a)
    ensures Inv(cfg, Apply(cfg, s, a))
  {
    match a
    case Request(_, _, _, _) => RequestInv(cfg, s, a);
    case Respond(_, _) => RespondInv(cfg, s, a);
    case Verify(_) => VerifyInv(cfg, s, a);
    case Finish(_) => FinishInv(cfg, s, a);
  }

  /** The invariant holds in every session of every run. */
  lemma {:induction false} RunInv(cfg: Config, trace: seq<Session>, actions: seq<Action>, t: nat)
    requires ValidConfig(cfg) && Run(cfg, trace, actions) && t < |trace|
    ensures Inv(cfg, trace[t])
  {
    if t == 0 {
      StartInv(cfg);
    } else {
      RunInv(cfg, trace, actions, t - 1);
      StepInv(cfg, trace[t - 1], actions[t - 1]);
    }
  }
}
