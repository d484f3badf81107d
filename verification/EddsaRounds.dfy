/** The rounds of the asymmetric EdDSA protocol, on all blocks of a request. */
module EddsaRounds {
  import opened Modular
  import opened Wrappers
  import opened Curve
  import opened Eddsa
  import opened HdDerive
  import opened CmpPresigning
  import opened KeyStore

  /** Everybody's point for block b. */
  function PointColumn(Rs: seq<seq<Point>>, b: nat): nat -> Point {
    (j: nat) => if j < |Rs| && b < |Rs[j]| then Rs[j][b] else Infinity
  }

  /** m lists of one length */
  predicate Rectangular<T>(lists: seq<seq<T>>, m: nat, count: nat) {
    |lists| == m && forall j | 0 <= j < m :: |lists[j]| == count
  }

  /** The commitments of player j open to its points. */
  predicate Opens(c: Context, commitments: seq<int>, points: seq<Point>, j: nat, start: nat) {
    |commitments| == |points| && forall b | 0 <= b < |points| :: commitments[b] == c.commitTo(start + b, j, points[b])
  }

  /** data with the points of the first j servers, other than the server itself, added to the nonce points. */
  ghost predicate Accumulated(c: Context, before: seq<BlockData>, data: seq<BlockData>, Rs: seq<seq<Point>>, id: nat, j: nat)
    requires c.q > 0
  {
    && |data| == |before|
    && forall b | 0 <= b < |data| :: data[b] == before[b].(R := AddOtherPoints(before[b].R, j, id, PointColumn(Rs, b), c.q))
  }

  /** Adds the points of player j to all blocks, unless a commitment does not open. */
  method AddPlayer(c: Context, before: seq<BlockData>, data: seq<BlockData>, Rs: seq<seq<Point>>, commitments: seq<int>, id: nat, j: nat, start: nat)
    returns (result: Option<seq<BlockData>>)
    requires c.q > 0 && j < |Rs| && |Rs[j]| == |data| == |commitments| && Accumulated(c, before, data, Rs, id, j)
    ensures result.Some? <==> Opens(c, commitments, Rs[j], j, start)
    ensures result.Some? ==> Accumulated(c, before, result.value, Rs, id, j + 1)
  {
    var after := data;
    var b := 0;
    while b < |data|
      invariant 0 <= b <= |data| == |after|
      invariant forall i | 0 <= i < b :: commitments[i] == c.commitTo(start + i, j, Rs[j][i])
      invariant forall i | 0 <= i < b :: after[i] == before[i].(R := AddOtherPoints(before[i].R, j + 1, id, PointColumn(Rs, i), c.q))
      invariant forall i | b <= i < |data| :: after[i] == data[i]
    {
      if commitments[b] != c.commitTo(start + b, j, Rs[j][b]) { return None; }
      if j != id {
        after := after[b := after[b].(R := AddPoints(after[b].R, Rs[j][b], c.q))];
      }
      b := b + 1;
    }
    return Some(after);
  }

  predicate AllOpen(c: Context, commitments: seq<seq<int>>, Rs: seq<seq<Point>>, start: nat, n: nat)
    requires n <= |commitments| && n <= |Rs|
  {
    forall j | 0 <= j < n :: Opens(c, commitments[j], Rs[j], j, start)
  }

  function Points(data: seq<BlockData>): (r: seq<Point>)
    ensures |r| == |data|
  {
    seq(|data|, b requires 0 <= b < |data| => data[b].R)
  }

  /** The stored state of one server for one request (asymmetric_eddsa_signing_metadata). */
  class Server {
    const id: nat
    var blocks: seq<BlockData>

    constructor (id: nat, blocks: seq<BlockData>)
      ensures this.id == id && this.blocks == blocks
    {
      this.id, this.blocks := id, blocks;
    }

    /** broadcast_r: opens the commitments and adds the other servers' points to the own ones. */
    method BroadcastR(c: Context, Rs: seq<seq<Point>>, commitments: seq<seq<int>>, start: nat) returns (result: Result<seq<Point>>)
      requires ValidContext(c) && Rectangular(commitments, c.m, |blocks|)
      modifies this`blocks
      ensures result.Success? <==> Rectangular(Rs, c.m, |blocks|) && AllOpen(c, commitments, Rs, start, c.m)
      ensures result.Success? <==>
        && |Rs| == c.m && (forall j | 0 <= j < |Rs| :: |Rs[j]| == |old(blocks)|)
        && forall j, b | 0 <= j < c.m && 0 <= b < |old(blocks)| && b < |Rs[j]| :: commitments[j][b] == c.commitTo(start + b, j, Rs[j][b])
      ensures result.Success? ==> Accumulated(c, old(blocks), blocks, Rs, id, c.m) && result.value == Points(blocks)
      ensures result.Failure? ==> blocks == old(blocks)
    {
      if |Rs| != c.m { return Failure(InvalidParameter); }
      if exists j | 0 <= j < |Rs| :: |Rs[j]| != |blocks| { return Failure(InvalidParameter); }
      var data := blocks;
      var j := 0;
      while j < c.m
        invariant 0 <= j <= c.m && blocks == old(blocks)
        invariant Accumulated(c, blocks, data, Rs, id, j) && AllOpen(c, commitments, Rs, start, j)
      {
        var added := AddPlayer(c, blocks, data, Rs, commitments[j], id, j, start);
        if added.None? { return Failure(InvalidParameter); }
        data := added.value;
        j := j + 1;
      }
      blocks := data;
      return Success(Points(data));
    }

    /** broadcast_si: the own share for every block, with the client's added by the first server or to finish. */
    method BroadcastSi(c: Context, x: int, partials: seq<Signature>, commitments: seq<int>, start: nat)
      returns (result: Result<(seq<Signature>, bool)>)
      requires ValidContext(c) && |commitments| == |blocks|
      modifies this`blocks
      ensures result.Success? ==> |partials| == |blocks| == |old(blocks)| && |result.value.0| == |blocks|
      ensures result.Success? ==> result.value.1 == (c.m == 1)
      ensures result.Success? ==> forall b | 0 <= b < |blocks| ::
        && old(blocks)[b].message != [] && (c.m == 1 ==> 0 <= partials[b].s < c.q)
        && result.value.0[b].R == Point((old(blocks)[b].R.log + partials[b].R.log) % c.q)
      ensures result.Success? ==> forall b | 0 <= b < |blocks| ::
        && commitments[b] == c.commitTo(start + b, c.m, partials[b].R)
        && ServerSignature(c, id, x, old(blocks)[b], partials[b]) == Success(result.value.0[b])
        && blocks[b] == old(blocks)[b].(R := if c.m == 1 then old(blocks)[b].R else result.value.0[b].R)
      ensures result.Failure? ==> blocks == old(blocks)
      ensures |partials| == |old(blocks)|
        && (forall b | 0 <= b < |partials| :: commitments[b] == c.commitTo(start + b, c.m, partials[b].R)
                                              && ServerSignature(c, id, x, old(blocks)[b], partials[b]).Success?)
        ==> result.Success?
    {
      if |partials| != |blocks| { return Failure(InvalidParameter); }
      var finish := c.m == 1;
      var sigs: seq<Signature> := [];
      var data := blocks;
      var i := 0;
      while i < |partials|
        invariant 0 <= i == |sigs| <= |partials| == |data| && blocks == old(blocks)
        invariant forall b | 0 <= b < i ::
          && commitments[b] == c.commitTo(start + b, c.m, partials[b].R)
          && ServerSignature(c, id, x, blocks[b], partials[b]) == Success(sigs[b])
          && data[b] == blocks[b].(R := if finish then blocks[b].R else sigs[b].R)
        invariant forall b | i <= b < |data| :: data[b] == blocks[b]
      {
        if commitments[i] != c.commitTo(start + i, c.m, partials[i].R) { return Failure(InvalidParameter); }
        var sig := SignAsServer(c, id, x, blocks[i], partials[i]);
        if sig.Failure? { return Failure(sig.error); }
        if !finish { data := data[i := data[i].(R := sig.value.R)]; }
        sigs := sigs + [sig.value];
        i := i + 1;
      }
      blocks := data;
      return Success((sigs, finish));
    }
  }

  /** One block of broadcast_si. */
  function ServerSignature(c: Context, id: nat, x: int, data: BlockData, client: Signature): Result<Signature>
    requires ValidContext(c)
  {
    var R := AddPoints(data.R, client.R, c.q);
    var share := SignShare(c, R, data.message, data.path, x, data.k);
    if share.Failure? then Failure(share.error)
    else if c.m == 1 && !(0 <= client.s < c.q) then Failure(InvalidParameter)
    else if c.m == 1 || id == 0 then Success(Signature(R, AddScalars(share.value, client.s, c.q)))
    else Success(Signature(R, share.value))
  }

  method SignAsServer(c: Context, id: nat, x: int, data: BlockData, client: Signature) returns (sig: Result<Signature>)
    requires ValidContext(c)
    ensures sig == ServerSignature(c, id, x, data, client)
  {
    var R := AddPoints(data.R, client.R, c.q);
    var share := Share(c, R, data.message, data.path, x, data.k);
    if share.Failure? { return Failure(share.error); }
    var s := share.value;
    if c.m == 1 {
      if !(0 <= client.s < c.q) { return Failure(InvalidParameter); }
      s := ModAddQuick(s, client.s, c.q);
    } else if id == 0 {
      s := AddScalars(s, client.s, c.q);
    }
    return Success(Signature(R, s));
  }

  // ----- get_eddsa_signature -----

  /** The servers' s for block b. */
  function SColumn(partials: seq<seq<Signature>>, b: nat): nat -> int {
    (j: nat) => if j < |partials| && b < |partials[j]| then partials[j][b].s else 0
  }

  /** The first n servers sent the stored point and a reduced s for block b. */
  predicate Consistent(c: Context, R: Point, partials: seq<seq<Signature>>, b: nat, n: nat)
    requires n <= |partials| && forall j | 0 <= j < n :: b < |partials[j]|
  {
    forall j | 0 <= j < n :: partials[j][b].R == R && 0 <= partials[j][b].s < c.q
  }

  /** The derivation of the public key that get_eddsa_signature makes for a block. */
  function PublicDerivation(c: Context, path: seq<nat>): Result<Level>
    requires c.q > 0
  {
    PublicEnd(c.q, RootOf(c), path)
  }

  /** The servers agree on block b, and its public key can be derived. */
  predicate Finishable(c: Context, data: BlockData, partials: seq<seq<Signature>>, b: nat)
    requires c.q > 0 && forall j | 0 <= j < |partials| :: b < |partials[j]|
  {
    Consistent(c, data.R, partials, b, |partials|) && PublicDerivation(c, data.path).Success?
  }

  method CombineBlock(c: Context, data: BlockData, partials: seq<seq<Signature>>, b: nat) returns (sig: Result<Signature>)
    requires c.q > 0 && forall j | 0 <= j < |partials| :: b < |partials[j]|
    ensures sig.Success? <==> Finishable(c, data, partials, b)
    ensures sig.Failure? ==> sig.error == if Consistent(c, data.R, partials, b, |partials|) then InternalError else InvalidParameter
    ensures sig.Success? ==> sig.value == Signature(data.R, AddOthers(0, |partials|, |partials|, SColumn(partials, b), c.q))
  {
    var s := 0;
    var j := 0;
    while j < |partials|
      invariant 0 <= j <= |partials| && 0 <= s < c.q
      invariant Consistent(c, data.R, partials, b, j)
      invariant s == AddOthers(0, j, |partials|, SColumn(partials, b), c.q)
    {
      if partials[j][b].R != data.R { return Failure(InvalidParameter); }
      if !(0 <= partials[j][b].s < c.q) { return Failure(InvalidParameter); }
      s := ModAddQuick(s, partials[j][b].s, c.q);
      j := j + 1;
    }
    var derived := DerivePublicKey(c.q, c.hmac, c.pub, c.chain, data.path);
    if derived.Failure? { return Failure(InternalError); }
    return Success(Signature(data.R, s));
  }

  ghost predicate Combined(c: Context, blocks: seq<BlockData>, partials: seq<seq<Signature>>, sigs: seq<Signature>)
    requires c.q > 0 && Rectangular(partials, c.m, |blocks|)
  {
    && |sigs| <= |blocks|
    && forall b | 0 <= b < |sigs| ::
      Finishable(c, blocks[b], partials, b)
      && sigs[b] == Signature(blocks[b].R, AddOthers(0, c.m, c.m, SColumn(partials, b), c.q))
  }

  lemma {:induction false} CombinedOneMore(c: Context, blocks: seq<BlockData>, partials: seq<seq<Signature>>, sigs: seq<Signature>, sig: Signature)
    requires c.q > 0 && Rectangular(partials, c.m, |blocks|) && Combined(c, blocks, partials, sigs) && |sigs| < |blocks|
    requires Finishable(c, blocks[|sigs|], partials, |sigs|)
    requires sig == Signature(blocks[|sigs|].R, AddOthers(0, c.m, c.m, SColumn(partials, |sigs|), c.q))
    ensures Combined(c, blocks, partials, sigs + [sig])
  {
    var longer := sigs + [sig];
    forall b | 0 <= b < |longer|
      ensures Finishable(c, blocks[b], partials, b)
      ensures longer[b] == Signature(blocks[b].R, AddOthers(0, c.m, c.m, SColumn(partials, b), c.q))
    {
      if b < |sigs| { assert longer[b] == sigs[b]; } else { assert longer[b] == sig; }
    }
  }

  /** What get_eddsa_signature asks of a request, in terms of what the servers sent. */
  lemma {:induction false} FinishableMeans(c: Context, blocks: seq<BlockData>, partials: seq<seq<Signature>>)
    requires c.q > 0 && Rectangular(partials, c.m, |blocks|)
    ensures |partials| == c.m && forall j | 0 <= j < |partials| :: |partials[j]| == |blocks|
    ensures forall b | 0 <= b < |blocks| ::
      Finishable(c, blocks[b], partials, b) <==>
        && PublicEnd(c.q, RootOf(c), blocks[b].path).Success?
        && forall j | 0 <= j < |partials| :: partials[j][b].R == blocks[b].R && 0 <= partials[j][b].s < c.q
  {
    forall b | 0 <= b < |blocks|
      ensures Finishable(c, blocks[b], partials, b) <==>
        && PublicEnd(c.q, RootOf(c), blocks[b].path).Success?
        && forall j | 0 <= j < |partials| :: partials[j][b].R == blocks[b].R && 0 <= partials[j][b].s < c.q
    {
      assert Finishable(c, blocks[b], partials, b) <==>
        Consistent(c, blocks[b].R, partials, b, |partials|) && PublicEnd(c.q, RootOf(c), blocks[b].path).Success?;
    }
  }

  method GetSignature(c: Context, blocks: seq<BlockData>, partials: seq<seq<Signature>>) returns (result: Result<seq<Signature>>)
    requires c.q > 0
    ensures result.Success? <==>
      Rectangular(partials, c.m, |blocks|) && forall b | 0 <= b < |blocks| :: Finishable(c, blocks[b], partials, b)
    ensures result.Failure? ==> result.error == InvalidParameter || result.error == InternalError
    ensures result.Success? ==> |result.value| == |blocks| && Combined(c, blocks, partials, result.value)
  {
    if |partials| != c.m { return Failure(InvalidParameter); }
    if exists j | 0 <= j < |partials| :: |partials[j]| != |blocks| { return Failure(InvalidParameter); }
    var sigs: seq<Signature> := [];
    while |sigs| < |blocks|
      invariant Combined(c, blocks, partials, sigs)
    {
      var sig := CombineBlock(c, blocks[|sigs|], partials, |sigs|);
      if sig.Failure? { return Failure(sig.error); }
      CombinedOneMore(c, blocks, partials, sigs, sig.value);
      sigs := sigs + [sig.value];
    }
    return Success(sigs);
  }

  /** With a hardened index in a path, get_eddsa_signature refuses the block whatever the servers sent. */
  lemma {:induction false} HardenedNotFinishable(c: Context, data: BlockData, partials: seq<seq<Signature>>, b: nat)
    requires c.q > 0 && (forall j | 0 <= j < |partials| :: b < |partials[j]|) && !Plain(data.path)
    ensures !Finishable(c, data, partials, b)
  {
    PublicExactly(c.q, RootOf(c), data.path);
  }

  // ----- The client -----

  datatype Request = Request(message: Message, path: seq<nat>)

  /** The servers agree on all points, and the hashes that go with the points are right. */
  predicate Agreed(c: Context, Rs: seq<seq<Point>>, hashes: seq<int>, n: nat)
    requires n <= |Rs| && n <= |hashes|
  {
    forall j | 0 <= j < n :: Rs[j] == Rs[0] && hashes[j] == c.commitToAll(j, Rs[j])
  }

  /** One block of the client's eddsa_sign_offline: its own point, and its share for the joint one. */
  function ClientSignature(c: Context, x: int, k: int, servers: Point, request: Request): Result<Signature>
    requires c.q > 0
  {
    var own := GeneratorMul(k, c.q);
    var share := SignShare(c, AddPoints(own, servers, c.q), request.message, request.path, x, k);
    if share.Failure? then Failure(share.error) else Success(Signature(own, share.value))
  }

  predicate ClientSignable(c: Context, x: int, stored: map<nat, int>, index: nat, points: seq<Point>, requests: seq<Request>, i: nat)
    requires c.q > 0 && i < |points| == |requests|
  {
    index + i in stored && ClientSignature(c, x, stored[index + i], points[i], requests[i]).Success?
  }

  ghost predicate ClientSigned(c: Context, x: int, stored: map<nat, int>, index: nat, points: seq<Point>, requests: seq<Request>, sigs: seq<Signature>)
    requires c.q > 0 && |points| == |requests|
  {
    && |sigs| <= |requests|
    && forall i | 0 <= i < |sigs| ::
      && ClientSignable(c, x, stored, index, points, requests, i)
      && ClientSignature(c, x, stored[index + i], points[i], requests[i]).value == sigs[i]
  }

  lemma {:induction false} ClientSignedOneMore(c: Context, x: int, stored: map<nat, int>, index: nat, points: seq<Point>, requests: seq<Request>,
                                               sigs: seq<Signature>, sig: Signature)
    requires c.q > 0 && |points| == |requests| && |sigs| < |requests|
    requires ClientSigned(c, x, stored, index, points, requests, sigs) && ClientSignable(c, x, stored, index, points, requests, |sigs|)
    requires ClientSignature(c, x, stored[index + |sigs|], points[|sigs|], requests[|sigs|]).value == sig
    ensures ClientSigned(c, x, stored, index, points, requests, sigs + [sig])
  {
    var longer := sigs + [sig];
    forall i | 0 <= i < |longer|
      ensures ClientSignable(c, x, stored, index, points, requests, i)
      ensures ClientSignature(c, x, stored[index + i], points[i], requests[i]).value == longer[i]
    {
      if i < |sigs| { assert longer[i] == sigs[i]; } else { assert longer[i] == sig; }
    }
  }

  const MAX_BLOCKS := 1000

  /** All players of the key sign, the client and at least one server. */
  predicate AllSign(metadata: Metadata, players: set<nat>) {
    2 <= |players| == metadata.n && players <= metadata.players
  }

  /**
   The client's eddsa_sign_offline: all players must sign, the servers must agree, then every block is
   signed. Keys are shared additively, so t is n, and the servers are all players but the client.
   */
  method SignAsClient(c: Context, metadata: Metadata, players: set<nat>, x: int, stored: map<nat, int>, index: nat,
                      Rs: seq<seq<Point>>, hashes: seq<int>, requests: seq<Request>)
    returns (result: Result<seq<Signature>>)
    requires ValidContext(c) && |hashes| == |Rs| && metadata.t == metadata.n
    requires 2 <= metadata.n ==> c.m == metadata.n - 1
    ensures result.Success? <==>
      && AllSign(metadata, players) && |requests| <= MAX_BLOCKS
      && Rectangular(Rs, c.m, |requests|) && Agreed(c, Rs, hashes, c.m)
      && forall i | 0 <= i < |requests| :: ClientSignable(c, x, stored, index, Rs[0], requests, i)
    ensures result.Success? ==>
      && 2 <= |players| == metadata.n && players <= metadata.players && |requests| <= 1000
      && |Rs| == c.m && forall j | 0 <= j < |Rs| :: |Rs[j]| == |requests| && Rs[j] == Rs[0] && hashes[j] == c.commitToAll(j, Rs[j])
    ensures result.Success? ==> |result.value| == |requests| && ClientSigned(c, x, stored, index, Rs[0], requests, result.value)
  {
    if |players| != metadata.n || |players| < 2 { return Failure(InvalidParameter); }
    if exists p | p in players :: p !in metadata.players { return Failure(InvalidParameter); }
    if |Rs| != metadata.t - 1 { return Failure(InvalidParameter); }
    if |requests| > MAX_BLOCKS { return Failure(InvalidParameter); }
    var j := 0;
    while j < |Rs|
      invariant 0 <= j <= |Rs|
      invariant forall i | 0 <= i < j :: |Rs[i]| == |requests|
      invariant Agreed(c, Rs, hashes, j)
    {
      if |Rs[j]| != |requests| {
        assert !Rectangular(Rs, c.m, |requests|);
        return Failure(InvalidParameter);
      }
      if Rs[j] != Rs[0] || c.commitToAll(j, Rs[j]) != hashes[j] {
        assert !Agreed(c, Rs, hashes, c.m);
        return Failure(InvalidParameter);
      }
      j := j + 1;
    }
    result := SignAll(c, x, stored, index, Rs[0], requests);
  }

  method SignAll(c: Context, x: int, stored: map<nat, int>, index: nat, points: seq<Point>, requests: seq<Request>)
    returns (result: Result<seq<Signature>>)
    requires c.q > 0 && |points| == |requests|
    ensures result.Success? <==> forall i | 0 <= i < |requests| :: ClientSignable(c, x, stored, index, points, requests, i)
    ensures result.Success? ==> |result.value| == |requests| && ClientSigned(c, x, stored, index, points, requests, result.value)
  {
    var sigs: seq<Signature> := [];
    while |sigs| < |requests|
      invariant ClientSigned(c, x, stored, index, points, requests, sigs)
    {
      var i := |sigs|;
      var sig := SignOne(c, x, stored, index + i, points[i], requests[i]);
      if sig.Failure? {
        assert !ClientSignable(c, x, stored, index, points, requests, i);
        return Failure(sig.error);
      }
      ClientSignedOneMore(c, x, stored, index, points, requests, sigs, sig.value);
      sigs := sigs + [sig.value];
    }
    return Success(sigs);
  }

  method SignOne(c: Context, x: int, stored: map<nat, int>, index: nat, servers: Point, request: Request) returns (sig: Result<Signature>)
    requires c.q > 0
    ensures sig.Success? <==> index in stored && ClientSignature(c, x, stored[index], servers, request).Success?
    ensures sig.Success? ==> sig == ClientSignature(c, x, stored[index], servers, request)
  {
    if index !in stored { return Failure(GeneralError); }
    var k := stored[index];
    var own := GeneratorMul(k, c.q);
    var share := Share(c, AddPoints(own, servers, c.q), request.message, request.path, x, k);
    if share.Failure? { return Failure(share.error); }
    return Success(Signature(own, share.value));
  }
}
