/** All rounds of the asymmetric EdDSA protocol on all blocks of a request, chained by their contracts. */
module EddsaProtocol {
  import opened Modular
  import opened Wrappers
  import opened Curve
  import opened Sums
  import opened Eddsa
  import opened EddsaRounds
  import opened EddsaOutcome

  /**
   What is sent and stored in the course of a request: the servers' blocks after each round, by
   server, the client's answer, the servers' shares and the finished signatures.
   */
  datatype Transcript = Transcript(
    drawn: seq<seq<BlockData>>, joint: seq<seq<BlockData>>, client: seq<Signature>,
    partials: seq<seq<Signature>>, signed: seq<seq<BlockData>>, finished: seq<Signature>)

  function Revealed(data: seq<seq<BlockData>>): (r: seq<seq<Point>>)
    ensures |r| == |data|
  {
    seq(|data|, i requires 0 <= i < |data| => Points(data[i]))
  }

  function Requests(runs: seq<Run>): (r: seq<Request>)
    ensures |r| == |runs|
  {
    seq(|runs|, b requires 0 <= b < |runs| => runs[b].request)
  }

  /** eddsa_sign_offline: server i starts block b with its nonce and its own point. */
  ghost predicate Drawn(c: Context, runs: seq<Run>, t: Transcript)
    requires c.q > 0
  {
    && Rectangular(t.drawn, c.m, |runs|)
    && forall i, b | 0 <= i < c.m && 0 <= b < |runs| ::
      t.drawn[i][b] == BlockData(runs[b].k(i), GeneratorMul(runs[b].k(i), c.q), runs[b].request.message, runs[b].request.path)
  }

  /** broadcast_r on every server, by its contract. */
  ghost predicate Joined(c: Context, runs: seq<Run>, t: Transcript)
    requires c.q > 0 && Rectangular(t.drawn, c.m, |runs|)
  {
    && Rectangular(t.joint, c.m, |runs|)
    && forall i | 0 <= i < c.m :: Accumulated(c, t.drawn[i], t.joint[i], Revealed(t.drawn), i, c.m)
  }

  /** eddsa_sign_offline on the client, by its contract, on the points of the first server. */
  ghost predicate Answered(c: Context, runs: seq<Run>, x: int, stored: map<nat, int>, index: nat, t: Transcript)
    requires c.q > 0 && c.m >= 1 && Rectangular(t.joint, c.m, |runs|)
  {
    && |t.client| == |runs|
    && ClientSigned(c, x, stored, index, Points(t.joint[0]), Requests(runs), t.client)
    && forall b | 0 <= b < |runs| :: index + b in stored && stored[index + b] == runs[b].clientK && x == runs[b].clientX
  }

  /** broadcast_si on every server, by its contract. */
  ghost predicate Signed(c: Context, runs: seq<Run>, t: Transcript)
    requires ValidContext(c) && Rectangular(t.joint, c.m, |runs|) && |t.client| == |runs|
  {
    && Rectangular(t.partials, c.m, |runs|) && Rectangular(t.signed, c.m, |runs|)
    && forall i, b | 0 <= i < c.m && 0 <= b < |runs| ::
      && ServerSignature(c, i, runs[b].x(i), t.joint[i][b], t.client[b]) == Success(t.partials[i][b])
      && t.signed[i][b] == t.joint[i][b].(R := if c.m == 1 then t.joint[i][b].R else t.partials[i][b].R)
  }

  /** A run up to the answers of the servers, with shares of the key. */
  ghost predicate Answering(c: Context, runs: seq<Run>, x: int, stored: map<nat, int>, index: nat, t: Transcript) {
    && ValidContext(c) && c.m <= 254
    && Drawn(c, runs, t) && Joined(c, runs, t) && Answered(c, runs, x, stored, index, t) && Signed(c, runs, t)
    && forall b | 0 <= b < |runs| :: Cong(c.pub.log, Sum(c.m, runs[b].x) + runs[b].clientX, c.q)
  }

  /** A run of all rounds with two servers or more in which get_eddsa_signature on the first one has succeeded. */
  ghost predicate Completed(c: Context, runs: seq<Run>, x: int, stored: map<nat, int>, index: nat, t: Transcript) {
    && Answering(c, runs, x, stored, index, t) && c.m >= 2
    && |t.finished| == |runs| && Combined(c, t.signed[0], t.partials, t.finished)
  }

  /** After broadcast_r, server i holds for block b what its run says. */
  lemma {:induction false} JointBlock(c: Context, runs: seq<Run>, t: Transcript, i: nat, b: nat)
    requires c.q > 0 && Drawn(c, runs, t) && Joined(c, runs, t) && i < c.m && b < |runs|
    ensures t.joint[i][b] == BlockData(runs[b].k(i), JointPoint(c, runs[b], i), runs[b].request.message, runs[b].request.path)
  {
    var Rs := Revealed(t.drawn);
    forall j: nat | j < c.m ensures PointColumn(Rs, b)(j) == ServerPoints(c, runs[b])(j) {
      assert t.drawn[j][b].R == GeneratorMul(runs[b].k(j), c.q);
    }
    assert t.drawn[i][b].R == ServerPoints(c, runs[b])(i);
    StoredPoint(c, runs[b], t.drawn[i], t.joint[i], Rs, i, b);
  }

  /** So all servers send the client the same points, and its agreement check passes. */
  lemma {:induction false} ServersAgree(c: Context, runs: seq<Run>, t: Transcript, i: nat)
    requires c.q > 0 && Drawn(c, runs, t) && Joined(c, runs, t) && i < c.m
    ensures Points(t.joint[i]) == Points(t.joint[0])
  {
    forall b | 0 <= b < |runs| ensures t.joint[i][b].R == t.joint[0][b].R {
      JointBlock(c, runs, t, i, b);
      JointBlock(c, runs, t, 0, b);
      OneJointPoint(c, runs[b], i, 0);
    }
  }

  /** What the client and the servers send for block b is what the run of that block says. */
  lemma {:induction false} SentAsInRun(c: Context, runs: seq<Run>, x: int, stored: map<nat, int>, index: nat, t: Transcript, b: nat)
    requires Answering(c, runs, x, stored, index, t) && b < |runs|
    ensures FromClient(c, runs[b]) == Success(t.client[b])
    ensures forall i: nat | i < c.m :: FromServer(c, runs[b], t.client[b], i) == Success(t.partials[i][b])
  {
    JointBlock(c, runs, t, 0, b);
    assert ClientSignable(c, x, stored, index, Points(t.joint[0]), Requests(runs), b);
    forall i: nat | i < c.m ensures FromServer(c, runs[b], t.client[b], i) == Success(t.partials[i][b]) {
      JointBlock(c, runs, t, i, b);
    }
  }

  /** Every block of a completed request ends in a signature that verifies under its derived key. */
  lemma {:induction false} CompletedVerifies(c: Context, runs: seq<Run>, x: int, stored: map<nat, int>, index: nat, t: Transcript, b: nat)
    requires Completed(c, runs, x, stored, index, t) && b < |runs|
    ensures var path := runs[b].request.path;
      PublicDerivation(c, path).Success?
      && Verifies(c, t.finished[b].R, t.finished[b].s, PublicDerivation(c, path).value.pub, runs[b].request.message)
  {
    var run, client := runs[b], t.client[b];
    SentAsInRun(c, runs, x, stored, index, t, b);
    RunVerifies(c, run);
    JointBlock(c, runs, t, 0, b);
    assert FromServer(c, run, client, 0) == Success(t.partials[0][b]);
    FinishedSignature(c, run, client, t.signed[0], t.partials, t.finished, b);
  }

  /**
   With a single server every block of a request ends in broadcast_si, along hardened paths too: what
   the server returns verifies under the key that the private derivation reaches.
   */
  lemma {:induction false} SingleServerVerifies(c: Context, runs: seq<Run>, x: int, stored: map<nat, int>, index: nat, t: Transcript, b: nat)
    requires Answering(c, runs, x, stored, index, t) && c.m == 1 && b < |runs|
    ensures var path := runs[b].request.path;
      DeltaShare(c, path, 2).Success?
      && Verifies(c, t.partials[0][b].R, t.partials[0][b].s, DeltaShare(c, path, 2).value.1, runs[b].request.message)
  {
    var run, client := runs[b], t.client[b];
    SentAsInRun(c, runs, x, stored, index, t, b);
    RunVerifies(c, run);
    assert FromServer(c, run, client, 0) == Success(t.partials[0][b]);
  }
}
