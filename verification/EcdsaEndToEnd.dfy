/** From presigning through any number of refreshes and a key derivation to a valid signature. */
module EcdsaEndToEnd {
  import opened Modular
  import opened Wrappers
  import opened Curve
  import opened Sums
  import CmpPresigning
  import CmpSession
  import CmpOutcome
  import Presignature
  import Refresh
  import HdDerive
  import Scalars
  import opened EcdsaSigning
  import opened EcdsaService

  /** What the players hold for one presignature: k, key share and chi of each. */
  datatype Holdings = Holdings(k: nat -> int, x: nat -> int, chi: nat -> int)

  /** The holdings after the first n refreshes. */
  function Refreshed(rounds: seq<Refresh.Round>, start: Holdings, n: nat): Holdings
    requires n <= |rounds| && forall i | 0 <= i < |rounds| :: rounds[i].q > 0
  {
    if n == 0 then start
    else
      var h, c := Refreshed(rounds, start, n - 1), rounds[n - 1];
      Holdings(Refresh.Ks(c, h.k), Refresh.Keys(c, h.x), Refresh.Chis(c, h.k, h.x, h.chi))
  }

  ghost predicate HonestRounds(rounds: seq<Refresh.Round>, q: int, players: nat) {
    forall i | 0 <= i < |rounds| :: rounds[i].q == q && rounds[i].n == players && Refresh.Delivered(rounds[i])
  }

  lemma {:induction false} RefreshesKeepGood(rounds: seq<Refresh.Round>, start: Holdings, n: nat, q: int, players: nat, R: Point)
    requires n <= |rounds| && HonestRounds(rounds, q, players)
    requires Presignature.Good(q, players, start.k, start.x, start.chi, R)
    ensures var h := Refreshed(rounds, start, n);
      Presignature.Good(q, players, h.k, h.x, h.chi, R) && Cong(Sum(players, h.x), Sum(players, start.x), q)
  {
    if n > 0 {
      RefreshesKeepGood(rounds, start, n - 1, q, players, R);
      var h := Refreshed(rounds, start, n - 1);
      Refresh.RefreshKeepsGood(rounds[n - 1], h.k, h.x, h.chi, R);
    }
  }

  /**
   Take any interleaved run of the presigning protocol in which a player has finished with a point R,
   any honest refreshes after it, and any request whose path derives, hardened or not (with R scaled,
   not). If every player then signs with what it holds, the combining service accepts, and its
   signature is good for the derived key.
   */
  lemma {:induction false} EndToEnd(cfg: CmpPresigning.Config, trace: seq<CmpSession.Session>, actions: seq<CmpSession.Action>, t: nat, i: nat,
                                    rounds: seq<Refresh.Round>, c: CurveMap, root: HdDerive.Root, request: Request, hash: Hash,
                                    sigs: seq<Scalars.Signature>, sig: Scalars.Signature)
    requires CmpPresigning.ValidConfig(cfg) && CmpSession.Run(cfg, trace, actions)
    requires t < |trace| && i < |trace[t]| && trace[t][i].stage == 4
    requires PointGroup(c) && c.q == cfg.q && HonestRounds(rounds, cfg.q, |cfg.parties|)
    requires Cong(root.pub.log, Sum(|cfg.parties|, CmpSession.Keys(cfg)), cfg.q) && DerivedBlock(cfg.q, root, request).Success?
    requires |sigs| == |cfg.parties|
    requires
      var s, block := trace[t], DerivedBlock(cfg.q, root, request).value;
      var h := Refreshed(rounds, Holdings(CmpSession.Ks(s), CmpSession.Keys(cfg), CmpOutcome.ChiList(s)), |rounds|);
      forall j: nat | j < |sigs| :: SignedBlock(c, h.x(j), Stored(h.k(j), h.chi(j), s[i].R), block, hash, sigs[j])
    ensures SameNonce(sigs)
    ensures HdDerive.PrivateEnd(cfg.q, root, request.path).Success?
    ensures Combines(c.q, c.threshold, sigs, sig) ==>
      GoodSignature(c, request.message, sig, HdDerive.PrivateEnd(cfg.q, root, request.path).value.pub)
  {
    var s, n := trace[t], |cfg.parties|;
    var start := Holdings(CmpSession.Ks(s), CmpSession.Keys(cfg), CmpOutcome.ChiList(s));
    var h := Refreshed(rounds, start, |rounds|);
    CmpOutcome.RunOutcome(cfg, trace, actions, t, i);
    RefreshesKeepGood(rounds, start, |rounds|, cfg.q, n, s[i].R);
    var block := DerivedBlock(cfg.q, root, request).value;
    DerivedBlockMatches(cfg.q, root, Sum(n, CmpSession.Keys(cfg)), request);
    CongAdd(Sum(n, h.x), Sum(n, start.x), block.delta, block.delta, cfg.q);
    SignAndCombine(c, h.k, h.x, h.chi, s[i].R, block, hash, sigs, sig);
  }
}
