/**
 What every run of the presigning protocol conserves, and what it leaves behind: a presignature
 that is good for signing.
 */
module CmpOutcome {
  import opened Modular
  import opened NumberTheory
  import opened Wrappers
  import opened Curve
  import opened Sums
  import opened CmpPresigning
  import opened CmpSession
  import P = Paillier
  import Presignature

  // ----- Conservation -----

  function ShareList(side: Side, s: Session): nat -> int {
    (i: nat) => if i < |s| then Share(side, s[i]) else 0
  }

  /** k_j times the secret of i, once i has answered j; on the diagonal what i began with. */
  function Credit(cfg: Config, side: Side, s: Session): (nat, nat) -> int
    requires |s| == |cfg.parties|
  {
    (i: nat, j: nat) =>
      if i >= |s| || j >= |s| then 0
      else if i == j then Own(side, s[i])
      else if s[i].stage >= 2 then s[j].k * Secret(cfg, side, s, i) else 0
  }

  /** The shares that player i has sent and player j has not read. */
  function InFlight(cfg: Config, side: Side, s: Session): (nat, nat) -> int
    requires ValidConfig(cfg) && |s| == |cfg.parties|
  {
    (i: nat, j: nat) =>
      if i < |s| && j < |s| && i != j && s[i].stage >= 2 && s[j].stage < 3 then Alpha(cfg, side, s, i, j) else 0
  }

  /** The shares that player i has sent and player j has read. */
  function Read(cfg: Config, side: Side, s: Session): (nat, nat) -> int
    requires ValidConfig(cfg) && |s| == |cfg.parties|
  {
    (i: nat, j: nat) => if i < |s| && j < |s| && i != j && s[j].stage >= 3 then Alpha(cfg, side, s, i, j) else 0
  }

  function Plus(F: (nat, nat) -> int, G: (nat, nat) -> int): (nat, nat) -> int {
    (i: nat, j: nat) => F(i, j) + G(i, j)
  }

  /** The entries that make up the expected share of each player. */
  function Ledger(cfg: Config, side: Side, s: Session): (nat, nat) -> int
    requires ValidConfig(cfg) && |s| == |cfg.parties|
  {
    (i: nat, j: nat) =>
      Credit(cfg, side, s)(i, j) - InFlight(cfg, side, s)(i, j) - Read(cfg, side, s)(i, j) + Read(cfg, side, s)(j, i)
  }

  lemma {:induction false} ExpectedIsRow(cfg: Config, side: Side, s: Session, i: nat)
    requires ValidConfig(cfg) && Inv(cfg, s) && i < |s|
    ensures Sum(|s|, Row(Ledger(cfg, side, s), i)) == Expected(cfg, side, s, i)
  {
    var row, n := Row(Ledger(cfg, side, s), i), |s|;
    var zero: nat -> int := (j: nat) => 0;
    SumSplit(n, i, row);
    OthersAsSum(n, i, zero, zero);
    SumZero(n, zero);
    var received := if s[i].stage >= 3 then Received(cfg, side, s, i) else zero;
    var excess := if s[i].stage >= 2 then Excess(cfg, side, s, i) else zero;
    forall j: nat | j < n && j != i ensures row(j) == received(j) - excess(j) {
      assert s[j].stage >= 2 ==> s[i].stage + 1 >= s[j].stage;
      assert received(j) == Read(cfg, side, s)(j, i);
      assert -excess(j) == Credit(cfg, side, s)(i, j) - InFlight(cfg, side, s)(i, j) - Read(cfg, side, s)(i, j);
    }
    OthersMinus(n, i, received, excess, row);
    assert row(i) == Credit(cfg, side, s)(i, i) == Own(side, s[i]);
  }

  /**
   In every reachable session the shares held plus the shares in flight add up to the products
   that have been accounted for.
   */
  lemma {:induction false} Conservation(cfg: Config, side: Side, s: Session)
    requires ValidConfig(cfg) && Inv(cfg, s)
    ensures Cong(Sum(|s|, ShareList(side, s)) + Total(|s|, InFlight(cfg, side, s)), Total(|s|, Credit(cfg, side, s)), cfg.q)
  {
    var n, ledger, q := |s|, Ledger(cfg, side, s), cfg.q;
    var credit, inFlight, read := Credit(cfg, side, s), InFlight(cfg, side, s), Read(cfg, side, s);
    forall i: nat | i < n ensures Cong(ShareList(side, s)(i), RowSums(n, ledger)(i), q) {
      assert LocalInv(cfg, s, i);
      ExpectedIsRow(cfg, side, s, i);
    }
    SumCong(n, ShareList(side, s), RowSums(n, ledger), q);
    var sent := Plus(ledger, inFlight);
    TotalPlus(n, ledger, inFlight, sent);
    TotalPlus(n, sent, read, Plus(sent, read));
    TotalPlus(n, credit, Flip(read), Plus(sent, read));
    TotalFlip(n, read);
    CongAdd(Sum(n, ShareList(side, s)), Total(n, ledger), Total(n, inFlight), Total(n, inFlight), q);
  }

  // ----- Once everybody has read all answers -----

  function ChiList(s: Session): nat -> int {
    ShareList(KeySide, s)
  }

  lemma {:induction false} Completion(cfg: Config, s: Session)
    requires ValidConfig(cfg) && Inv(cfg, s) && AllReached(s, 3)
    ensures Cong(Sum(|s|, ShareList(GammaSide, s)), Sum(|s|, Ks(s)) * Sum(|s|, Gammas(s)), cfg.q)
    ensures Cong(Sum(|s|, Presignature.Shares(Ks(s), Keys(cfg), ChiList(s))), Sum(|s|, Ks(s)) * Sum(|s|, Keys(cfg)), cfg.q)
  {
    var n := |s|;
    AllRead(cfg, GammaSide, s);
    ProductOfSums(n, Ks(s), Gammas(s), Credit(cfg, GammaSide, s));
    AllRead(cfg, KeySide, s);
    KeySharesSum(cfg, s);
  }

  /** Once all answers are read nothing is in flight. */
  lemma {:induction false} AllRead(cfg: Config, side: Side, s: Session)
    requires ValidConfig(cfg) && Inv(cfg, s) && AllReached(s, 3)
    ensures Cong(Sum(|s|, ShareList(side, s)), Total(|s|, Credit(cfg, side, s)), cfg.q)
  {
    Conservation(cfg, side, s);
    TotalZero(|s|, InFlight(cfg, side, s));
  }

  lemma {:induction false} KeySharesSum(cfg: Config, s: Session)
    requires ValidConfig(cfg) && Inv(cfg, s) && AllReached(s, 3)
    requires Cong(Sum(|s|, ChiList(s)), Total(|s|, Credit(cfg, KeySide, s)), cfg.q)
    ensures Cong(Sum(|s|, Presignature.Shares(Ks(s), Keys(cfg), ChiList(s))), Sum(|s|, Ks(s)) * Sum(|s|, Keys(cfg)), cfg.q)
  {
    var n := |s|;
    KeyCredit(cfg, s);
    SumPlus(n, OwnKeyProducts(cfg, s), ChiList(s), Presignature.Shares(Ks(s), Keys(cfg), ChiList(s)));
    var own := Sum(n, OwnKeyProducts(cfg, s));
    CongAdd(Sum(n, ChiList(s)), Total(n, Credit(cfg, KeySide, s)), own, own, cfg.q);
  }

  function OwnKeyProducts(cfg: Config, s: Session): nat -> int {
    (i: nat) => Ks(s)(i) * Keys(cfg)(i)
  }

  /** The accounted products k_j*x_i lack exactly the players' own ones. */
  lemma {:induction false} KeyCredit(cfg: Config, s: Session)
    requires ValidConfig(cfg) && |s| == |cfg.parties| && AllReached(s, 2)
    ensures Sum(|s|, OwnKeyProducts(cfg, s)) + Total(|s|, Credit(cfg, KeySide, s)) == Sum(|s|, Ks(s)) * Sum(|s|, Keys(cfg))
  {
    var n, credit := |s|, Credit(cfg, KeySide, s);
    var all := (i: nat, j: nat) => Ks(s)(j) * Keys(cfg)(i);
    ProductOfSums(n, Ks(s), Keys(cfg), all);
    forall i: nat | i < n ensures RowSums(n, all)(i) == OwnKeyProducts(cfg, s)(i) + RowSums(n, credit)(i) {
      SumChange(n, i, Row(credit, i), Row(all, i));
    }
    SumPlus(n, OwnKeyProducts(cfg, s), RowSums(n, credit), RowSums(n, all));
  }

  // ----- The nonce point -----

  function Times(c: int, f: nat -> int): nat -> int {
    (j: nat) => c * f(j)
  }

  lemma {:induction false} DeltaPoint(cfg: Config, s: Session, j: nat)
    requires ValidConfig(cfg) && Inv(cfg, s) && AllReached(s, 3) && j < |s|
    ensures Cong(PointMul(s[j].GAMMA, s[j].k, cfg.q).log, Times(Sum(|s|, Gammas(s)), Ks(s))(j), cfg.q)
  {
    assert LocalInv(cfg, s, j);
    MulCong(s[j].GAMMA.log, Sum(|s|, Gammas(s)), s[j].k, s[j].k, cfg.q);
  }

  /** Adding the others' points to one's own gives the sum of all, if each is congruent to an entry. */
  lemma AllPoints(own: Point, n: nat, me: nat, v: nat -> Point, f: nat -> int, q: int)
    requires q > 0 && me < n && OnCurve(own, q) && Cong(own.log, f(me), q)
    requires forall j: nat | j < n && j != me :: Cong(v(j).log, f(j), q)
    ensures OnCurve(AddOtherPoints(own, n, me, v, q), q) && Cong(AddOtherPoints(own, n, me, v, q).log, Sum(n, f), q)
  {
    AddOtherPointsCong(own, n, me, v, q);
    AddOtherPointsOnCurve(own, n, me, v, q);
    OthersCong(n, me, Logs(v), f, q);
    SumSplit(n, me, f);
    CongAdd(own.log, f(me), Others(n, me, Logs(v)), Others(n, me, f), q);
  }

  /** The points the players send add up to the point of the deltas: the check of calc_R passes. */
  lemma {:induction false} DeltaPoints(cfg: Config, s: Session, i: nat)
    requires ValidConfig(cfg) && Inv(cfg, s) && AllReached(s, 3) && i < |s|
    ensures var DELTA := AddOtherPoints(PointMul(s[i].GAMMA, s[i].k, cfg.q), |s|, i, PointsOf(SentDELTAs(s, cfg.q)), cfg.q);
      OnCurve(DELTA, cfg.q) && Cong(DELTA.log, Sum(|s|, Ks(s)) * Sum(|s|, Gammas(s)), cfg.q)
  {
    var n, q, v, c := |s|, cfg.q, PointsOf(SentDELTAs(s, cfg.q)), Sum(|s|, Gammas(s));
    forall j: nat | j < n ensures Cong(PointMul(s[j].GAMMA, s[j].k, q).log, Times(c, Ks(s))(j), q) {
      DeltaPoint(cfg, s, j);
    }
    AllPoints(PointMul(s[i].GAMMA, s[i].k, q), n, i, v, Times(c, Ks(s)), q);
    SumTimes(n, c, Ks(s), Times(c, Ks(s)));
    assert c * Sum(n, Ks(s)) == Sum(n, Ks(s)) * c;
  }

  lemma {:induction false} DeltaSum(cfg: Config, s: Session, i: nat)
    requires ValidConfig(cfg) && Inv(cfg, s) && AllReached(s, 3) && i < |s|
    ensures Cong(AddOthers(s[i].delta, |s|, i, NumbersOf(SentDeltas(s)), cfg.q), Sum(|s|, Ks(s)) * Sum(|s|, Gammas(s)), cfg.q)
  {
    var n, v, shares := |s|, NumbersOf(SentDeltas(s)), ShareList(GammaSide, s);
    AddOthersCong(s[i].delta, n, i, v, cfg.q);
    OthersEqual(n, i, v, shares);
    SumSplit(n, i, shares);
    Completion(cfg, s);
  }

  /** What calc_R returns: an error only if the joint k or the joint gamma is zero, otherwise the inverse of the joint k. */
  lemma {:induction false} NonceIsInverse(cfg: Config, s: Session, i: nat)
    requires ValidConfig(cfg) && Inv(cfg, s) && AllReached(s, 3) && i < |s|
    ensures Nonce(cfg, s, i).Success? <==> Sum(|s|, Ks(s)) % cfg.q != 0 && Sum(|s|, Gammas(s)) % cfg.q != 0
    ensures Nonce(cfg, s, i).Success? ==>
      OnCurve(Nonce(cfg, s, i).value, cfg.q) && Cong(Nonce(cfg, s, i).value.log * Sum(|s|, Ks(s)), 1, cfg.q)
  {
    var q, k, gamma := cfg.q, Sum(|s|, Ks(s)), Sum(|s|, Gammas(s));
    var delta := AddOthers(s[i].delta, |s|, i, NumbersOf(SentDeltas(s)), q);
    var DELTA := AddOtherPoints(PointMul(s[i].GAMMA, s[i].k, q), |s|, i, PointsOf(SentDELTAs(s, q)), q);
    DeltaSum(cfg, s, i);
    DeltaPoints(cfg, s, i);
    CongMod(delta, q);
    SamePoint(GeneratorMul(delta, q), DELTA, q);
    ProductUnit(delta, k, gamma, q);
    assert LocalInv(cfg, s, i);
    if Nonce(cfg, s, i).Success? {
      InverseOfJoint(delta, k, gamma, s[i].GAMMA, ModInverse(delta, q).value, q);
    }
  }

  lemma ProductUnit(delta: int, k: int, gamma: int, q: int)
    requires Prime(q) && Cong(delta, k * gamma, q)
    ensures Unit(delta, q) <==> k % q != 0 && gamma % q != 0
  {
    if Unit(delta, q) {
      UnitCong(delta, k * gamma, q);
      UnitFactor(k, gamma, q);
      UnitNotZero(k, q);
      UnitNotZero(gamma, q);
    }
    if k % q != 0 && gamma % q != 0 {
      PrimeUnit(k, q);
      PrimeUnit(gamma, q);
      UnitProduct(k, gamma, q);
      UnitCong(k * gamma, delta, q);
    }
  }

  lemma InverseOfJoint(delta: int, k: int, gamma: int, GAMMA: Point, inverse: int, q: int)
    requires q > 0 && Cong(delta, k * gamma, q) && Cong(GAMMA.log, gamma, q) && InverseOf(delta, inverse, q)
    ensures Cong(PointMul(GAMMA, inverse, q).log * k, 1, q)
  {
    MulCong(GAMMA.log, gamma, inverse, inverse, q);
    CongMulLeft(PointMul(GAMMA, inverse, q).log, gamma * inverse, k, q);
    CongMulLeft(delta, k * gamma, inverse, q);
    Rearrange(gamma, inverse, k);
  }

  lemma Rearrange(gamma: int, inverse: int, k: int)
    ensures gamma * inverse * k == k * gamma * inverse
  {
    assert gamma * inverse * k == k * (gamma * inverse);
  }

  // ----- Whole runs -----

  ghost predicate GoodNonces(cfg: Config, s: Session)
    requires ValidConfig(cfg)
  {
    forall i | 0 <= i < |s| && s[i].stage == 4 :: OnCurve(s[i].R, cfg.q) && Cong(s[i].R.log * Sum(|s|, Ks(s)), 1, cfg.q)
  }

  lemma {:induction false} StepNonces(cfg: Config, s: Session, a: Action)
    requires ValidConfig(cfg) && Inv(cfg, s) && GoodNonces(cfg, s) && Enabled(cfg, s, a)
    ensures GoodNonces(cfg, Apply(cfg, s, a))
  {
    var r := Apply(cfg, s, a);
    if a.Finish? {
      SumEqual(|s|, Ks(r), Ks(s));
      NonceIsInverse(cfg, s, a.i);
    } else {
      forall i | 0 <= i < |s| ensures r[i].stage < 4 {
        assert LocalInv(cfg, s, i);
        assert s[a.i].stage < 3;
      }
    }
  }

  lemma {:induction false} RunNonces(cfg: Config, trace: seq<Session>, actions: seq<Action>, t: nat)
    requires ValidConfig(cfg) && Run(cfg, trace, actions) && t < |trace|
    ensures GoodNonces(cfg, trace[t])
  {
    if t > 0 {
      RunNonces(cfg, trace, actions, t - 1);
      RunInv(cfg, trace, actions, t - 1);
      StepNonces(cfg, trace[t - 1], actions[t - 1]);
    }
  }

  /** In every session of every run nothing has been lost, neither from the deltas nor from the chis. */
  lemma {:induction false} RunConservation(cfg: Config, trace: seq<Session>, actions: seq<Action>, t: nat, side: Side)
    requires ValidConfig(cfg) && Run(cfg, trace, actions) && t < |trace|
    ensures var s := trace[t];
      Cong(Sum(|s|, ShareList(side, s)) + Total(|s|, InFlight(cfg, side, s)), Total(|s|, Credit(cfg, side, s)), cfg.q)
  {
    RunInv(cfg, trace, actions, t);
    Conservation(cfg, side, trace[t]);
  }

  /** Whoever finishes, in whatever order, holds the same R, and it fits the shares of all. */
  lemma {:induction false} RunOutcome(cfg: Config, trace: seq<Session>, actions: seq<Action>, t: nat, i: nat)
    requires ValidConfig(cfg) && Run(cfg, trace, actions) && t < |trace| && i < |trace[t]| && trace[t][i].stage == 4
    ensures var s := trace[t];
      Presignature.Good(cfg.q, |s|, Ks(s), Keys(cfg), ChiList(s), s[i].R)
    ensures forall j | 0 <= j < |trace[t]| && trace[t][j].stage == 4 :: trace[t][j].R == trace[t][i].R
  {
    var s := trace[t];
    RunInv(cfg, trace, actions, t);
    RunNonces(cfg, trace, actions, t);
    assert AllReached(s, 3);
    Completion(cfg, s);
    forall j | 0 <= j < |s| && s[j].stage == 4 ensures s[j].R == s[i].R {
      Presignature.InverseUnique(cfg.q, s[j].R, s[i].R, Sum(|s|, Ks(s)));
    }
  }

  /** The messages of honest players are never refused: every ciphertext sent is invertible. */
  lemma {:induction false} RunMessages(cfg: Config, trace: seq<Session>, actions: seq<Action>, t: nat, i: nat)
    requires ValidConfig(cfg) && Run(cfg, trace, actions) && t < |trace| && i < |trace[t]|
    ensures trace[t][i].stage >= 1 ==> Unit(trace[t][i].request, cfg.parties[i].key.n)
    ensures AllReached(trace[t], 2) ==> forall j | 0 <= j < |trace[t]| && j != i ::
      Unit(AnswersTo(trace[t], i)[j].kGamma, cfg.parties[i].key.n) && Unit(AnswersTo(trace[t], i)[j].kX, cfg.parties[i].key.n)
  {
    RunInv(cfg, trace, actions, t);
    HonestMessages(cfg, trace[t], i);
  }

  lemma {:induction false} HonestMessages(cfg: Config, s: Session, i: nat)
    requires ValidConfig(cfg) && Inv(cfg, s) && i < |s|
    ensures s[i].stage >= 1 ==> Unit(s[i].request, cfg.parties[i].key.n)
    ensures AllReached(s, 2) ==> forall j | 0 <= j < |s| && j != i ::
      Unit(AnswersTo(s, i)[j].kGamma, cfg.parties[i].key.n) && Unit(AnswersTo(s, i)[j].kX, cfg.parties[i].key.n)
  {
    assert LocalInv(cfg, s, i);
    if s[i].stage >= 1 { P.CiphertextUnit(cfg.parties[i].key.n, s[i].request, s[i].k); }
    if AllReached(s, 2) {
      forall j | 0 <= j < |s| && j != i
        ensures Unit(AnswersTo(s, i)[j].kGamma, cfg.parties[i].key.n) && Unit(AnswersTo(s, i)[j].kX, cfg.parties[i].key.n)
      {
        assert LocalInv(cfg, s, j);
      }
    }
  }
}
