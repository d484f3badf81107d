/**
 The steps of the presigning protocol as one player's object takes them: run on the messages of a
 session, each method succeeds and leaves the object as the step of the session leaves the player.
 */
module CmpRefinement {
  import opened NumberTheory
  import opened Wrappers
  import opened Curve
  import opened CmpPresigning
  import opened CmpSession
  import opened CmpOutcome

  /** The object holds the data of the player. */
  ghost predicate Holds(data: PreprocessingData, p: Player)
    reads data
  {
    data.k == p.k && data.gamma == p.gamma && data.delta == p.delta && data.chi == p.chi && data.GAMMA == p.GAMMA
  }

  method RequestRefines(cfg: Config, s: Session, i: nat, k: nat, gamma: nat, r: nat) returns (data: PreprocessingData, request: nat)
    requires ValidConfig(cfg) && Inv(cfg, s) && Enabled(cfg, s, Action.Request(i, k, gamma, r))
    ensures var after := Apply(cfg, s, Action.Request(i, k, gamma, r));
      fresh(data) && Holds(data, after[i]) && request == after[i].request
  {
    data := new PreprocessingData();
    request := data.CreateMtaRequest(k, gamma, r, cfg.parties[i].key.n, cfg.q);
  }

  method RespondRefines(cfg: Config, s: Session, i: nat, draws: seq<Draw>, commitments: seq<(nat, nat)>, data: PreprocessingData)
    returns (answers: Result<seq<Answer>>)
    requires ValidConfig(cfg) && Inv(cfg, s) && Enabled(cfg, s, Respond(i, draws)) && Holds(data, s[i])
    requires |commitments| == |s| && ValidCommitments(cfg.parties[i].key.n, commitments)
    modifies data
    ensures var after := Apply(cfg, s, Respond(i, draws));
      Holds(data, after[i]) && answers == Success(after[i].answers)
  {
    ghost var after := Apply(cfg, s, Respond(i, draws));
    forall j | 0 <= j < |s| ensures Unit(Requests(s)[j], cfg.parties[j].key.n) { HonestMessages(cfg, s, j); }
    answers := data.CreateMtaResponse(cfg, i, Requests(s), draws, commitments);
    SameAnswers(cfg, s, i, draws, answers.value);
  }

  /** The answers built one by one are those of the session. */
  lemma {:induction false} SameAnswers(cfg: Config, s: Session, i: nat, draws: seq<Draw>, answers: seq<Answer>)
    requires ValidConfig(cfg) && |s| == |cfg.parties| == |draws| && i < |s| && |answers| == |s|
    requires Answered(cfg, i, Requests(s), s[i].gamma, draws, answers)
    ensures answers == AllAnswers(cfg, s, i, draws)
  {
    forall j | 0 <= j < |s| ensures answers[j] == AllAnswers(cfg, s, i, draws)[j] {
      assert Requests(s)[j] == s[j].request;
    }
  }

  method VerifyRefines(cfg: Config, s: Session, i: nat, data: PreprocessingData) returns (sent: Result<(int, Point)>)
    requires ValidConfig(cfg) && Inv(cfg, s) && Enabled(cfg, s, Verify(i)) && Holds(data, s[i])
    modifies data
    ensures var after := Apply(cfg, s, Verify(i));
      Holds(data, after[i]) && sent == Success((SentDeltas(after)[i], SentDELTAs(after, cfg.q)[i]))
  {
    HonestMessages(cfg, s, i);
    sent := data.VerifyBlockAndGetDelta(cfg.parties[i].key, i, AnswersTo(s, i), SentGAMMAs(s, cfg.q), cfg.q);
  }

  /** calc_R turns the object's delta into its inverse; the session keeps the one that was sent. */
  method FinishRefines(cfg: Config, s: Session, i: nat, data: PreprocessingData) returns (R: Result<Point>)
    requires ValidConfig(cfg) && Inv(cfg, s) && i < |s| && s[i].stage == 3 && AllReached(s, 3) && Holds(data, s[i])
    modifies data
    ensures R == Nonce(cfg, s, i)
    ensures R.Success? ==> Enabled(cfg, s, Finish(i)) && R.value == Apply(cfg, s, Finish(i))[i].R
    ensures data.k == s[i].k && data.chi == s[i].chi
  {
    R := data.CalcR(i, SentDeltas(s), SentDELTAs(s, cfg.q), cfg.q);
  }
}
