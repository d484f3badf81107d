/**
 cmp_ecdsa_offline_signing_service.cpp: ecdsa_sign over all blocks of a request, and
 ecdsa_offline_signature, which puts the players' partial signatures together.
 */
module EcdsaService {
  import opened Wrappers
  import opened Curve
  import opened Scalars
  import opened EcdsaSigning
  import opened HdDerive
  import opened KeyStore
  import opened Sums
  import CmpPresigning
  import Modular
  import Presignature

  datatype Stored = Stored(k: int, chi: int, R: Point)

  /** The partial signature of one block. */
  ghost predicate SignedBlock(c: CurveMap, key: int, data: Stored, block: Block, hash: Hash, sig: Signature)
    requires c.q > 0
  {
    var nonce := SharedNonce(c, data.R, block, hash);
    && nonce.Success?
    && sig.r == nonce.value.r && sig.v == nonce.value.v
    && sig.s == PartialS(c.q, data.k, key, data.chi, block, nonce.value)
  }

  predicate AllowedSigners(metadata: Metadata, players: set<nat>) {
    metadata.t <= |players| <= metadata.n && players <= metadata.players
  }

  /** The requests for one key, and the presignatures that are stored for them from index on. */
  datatype Batch = Batch(root: Root, stored: map<nat, Stored>, index: nat, requests: seq<Request>)

  /** Block i can be signed: it has 32 bytes, its presignature is there, its path derives, and there is a nonce. */
  ghost predicate Signable(c: CurveMap, batch: Batch, hash: Hash, i: nat)
    requires c.q > 0 && i < |batch.requests|
  {
    && batch.requests[i].size == 32 && batch.index + i in batch.stored
    && DerivedBlock(c.q, batch.root, batch.requests[i]).Success?
    && SharedNonce(c, batch.stored[batch.index + i].R, DerivedBlock(c.q, batch.root, batch.requests[i]).value, hash).Success?
  }

  ghost predicate SignedAt(c: CurveMap, key: int, batch: Batch, hash: Hash, i: nat, sig: Signature)
    requires c.q > 0 && i < |batch.requests|
  {
    && Signable(c, batch, hash, i)
    && SignedBlock(c, key, batch.stored[batch.index + i], DerivedBlock(c.q, batch.root, batch.requests[i]).value, hash, sig)
  }

  ghost predicate SignedFirst(c: CurveMap, key: int, batch: Batch, hash: Hash, sigs: seq<Signature>)
    requires c.q > 0
  {
    |sigs| <= |batch.requests| && forall i | 0 <= i < |sigs| :: SignedAt(c, key, batch, hash, i, sigs[i])
  }

  lemma {:induction false} SignedOneMore(c: CurveMap, key: int, batch: Batch, hash: Hash, sigs: seq<Signature>, sig: Signature)
    requires c.q > 0 && SignedFirst(c, key, batch, hash, sigs) && |sigs| < |batch.requests|
    requires SignedAt(c, key, batch, hash, |sigs|, sig)
    ensures SignedFirst(c, key, batch, hash, sigs + [sig])
  {
    var longer := sigs + [sig];
    forall i | 0 <= i < |longer| ensures SignedAt(c, key, batch, hash, i, longer[i]) {
      if i < |sigs| { assert longer[i] == sigs[i]; } else { assert longer[i] == sig; }
    }
  }

  lemma AllSignable(c: CurveMap, key: int, batch: Batch, hash: Hash, sigs: seq<Signature>)
    requires c.q > 0 && SignedFirst(c, key, batch, hash, sigs)
    ensures forall i | 0 <= i < |sigs| :: Signable(c, batch, hash, i)
  {
    forall i | 0 <= i < |sigs| ensures Signable(c, batch, hash, i) {
      assert SignedAt(c, key, batch, hash, i, sigs[i]);
    }
  }

  /** r and v are those of the nonce point that the request's own flags lead to from the stored R. */
  ghost predicate NonceAsAsked(c: CurveMap, batch: Batch, hash: Hash, i: nat, sig: Signature)
    requires c.q > 0 && i < |batch.requests|
  {
    batch.index + i in batch.stored && AsAsked(c, batch.stored[batch.index + i].R, batch.root, batch.requests[i], hash, sig)
  }

  ghost predicate AsAsked(c: CurveMap, R: Point, root: Root, request: Request, hash: Hash, sig: Signature)
    requires c.q > 0
  {
    exists p, counter: nat ::
      && NonceOfRequest(c, R, root, request, hash, p, counter)
      && sig.r == c.X(p) % c.q && sig.v == (if c.X(p) >= c.q then 2 else 0) + (if c.Odd(p) then 1 else 0)
  }

  lemma {:induction false} AllAsAsked(c: CurveMap, key: int, batch: Batch, hash: Hash, sigs: seq<Signature>)
    requires PointGroup(c) && ValidStore(c, batch) && SignedFirst(c, key, batch, hash, sigs)
    ensures forall i | 0 <= i < |sigs| :: batch.requests[i].size == 32 && NonceAsAsked(c, batch, hash, i, sigs[i])
  {
    forall i | 0 <= i < |sigs| ensures batch.requests[i].size == 32 && NonceAsAsked(c, batch, hash, i, sigs[i]) {
      assert SignedAt(c, key, batch, hash, i, sigs[i]);
      NonceChosen(c, batch.stored[batch.index + i].R, batch.root, batch.requests[i], hash);
    }
  }

  ghost predicate ValidStore(c: CurveMap, batch: Batch) {
    forall i | i in batch.stored :: OnCurve(batch.stored[i].R, c.q)
  }

  /** ecdsa_sign: block i uses the presignature stored at index + i. */
  method EcdsaSign(c: CurveMap, key: int, metadata: Metadata, players: set<nat>, batch: Batch, hash: Hash)
    returns (result: Result<seq<Signature>>)
    requires ValidCurve(c) && ValidStore(c, batch)
    ensures result.Success? <==>
      AllowedSigners(metadata, players) && forall i | 0 <= i < |batch.requests| :: Signable(c, batch, hash, i)
    ensures result.Success? ==> |result.value| == |batch.requests| && SignedFirst(c, key, batch, hash, result.value)
    ensures result.Success? ==> metadata.t <= |players| <= metadata.n && players <= metadata.players
    ensures result.Success? ==> forall i | 0 <= i < |batch.requests| ::
      batch.requests[i].size == 32 && NonceAsAsked(c, batch, hash, i, result.value[i])
  {
    if |players| < metadata.t || |players| > metadata.n { return Failure(InvalidParameter); }
    if exists p | p in players :: p !in metadata.players { return Failure(InvalidParameter); }
    var sigs: seq<Signature> := [];
    while |sigs| < |batch.requests|
      invariant SignedFirst(c, key, batch, hash, sigs)
    {
      var sig := SignNext(c, key, batch, hash, |sigs|);
      if sig.Failure? { return Failure(sig.error); }
      SignedOneMore(c, key, batch, hash, sigs, sig.value);
      sigs := sigs + [sig.value];
    }
    AllSignable(c, key, batch, hash, sigs);
    AllAsAsked(c, key, batch, hash, sigs);
    return Success(sigs);
  }

  method SignNext(c: CurveMap, key: int, batch: Batch, hash: Hash, i: nat) returns (sig: Result<Signature>)
    requires ValidCurve(c) && ValidStore(c, batch) && i < |batch.requests|
    ensures sig.Success? <==> Signable(c, batch, hash, i)
    ensures sig.Success? ==> SignedAt(c, key, batch, hash, i, sig.value)
  {
    if batch.requests[i].size != 32 { return Failure(InvalidParameter); }
    if batch.index + i !in batch.stored { return Failure(GeneralError); }
    var data := batch.stored[batch.index + i];
    var block := DeriveBlock(c.q, batch.root, batch.requests[i]);
    if block.Failure? { return Failure(block.error); }
    sig := SignBlock(c, key, data.k, data.chi, data.R, block.value, hash);
  }

  // ----- ecdsa_offline_signature -----

  /** The players' partial signatures of block i. */
  function PlayersOf(partials: seq<seq<Signature>>, i: nat): (r: seq<Signature>)
    ensures |r| == |partials|
  {
    seq(|partials|, j requires 0 <= j < |partials| => if i < |partials[j]| then partials[j][i] else Signature(0, 0, 0))
  }

  function SOf(sigs: seq<Signature>): nat -> int {
    (j: nat) => if j < |sigs| then sigs[j].s else 0
  }

  predicate SameNonce(sigs: seq<Signature>) {
    forall j | 0 <= j < |sigs| :: sigs[j].r == sigs[0].r && sigs[j].v == sigs[0].v
  }

  /** sig is the normalised sum of the partial signatures. */
  ghost predicate Combines(q: nat, t: nat, sigs: seq<Signature>, sig: Signature)
    requires q > 0 && sigs != []
  {
    var s := TotalS(q, |sigs|, SOf(sigs));
    s >= 0 && sig == NormalisedBy(q, t, Signature(sigs[0].r, s, sigs[0].v))
  }

  /** Equal r and v are required, and the s are added to the first player's. */
  method AddPartials(q: int, sigs: seq<Signature>) returns (result: Result<Signature>)
    requires q > 0 && sigs != []
    ensures result.Success? <==> SameNonce(sigs)
    ensures result.Success? ==> result.value.r == sigs[0].r && result.value.v == sigs[0].v
    ensures result.Success? ==> result.value.s == TotalS(q, |sigs|, SOf(sigs))
    ensures result.Success? ==> result.value.s < q || result.value.s == sigs[0].s
  {
    var first := sigs[0];
    var s: nat := first.s;
    var j := 0;
    while j < |sigs|
      invariant 0 <= j <= |sigs|
      invariant s == CmpPresigning.AddOthers(first.s, j, 0, SOf(sigs), q)
      invariant s < q || s == first.s
      invariant forall m | 0 <= m < j :: sigs[m].r == first.r && sigs[m].v == first.v
    {
      if j != 0 {
        if first.r != sigs[j].r { return Failure(InvalidParameter); }
        if first.v != sigs[j].v { return Failure(InvalidParameter); }
        s := AddScalars(s, sigs[j].s, q);
      }
      j := j + 1;
    }
    return Success(Signature(first.r, s, first.v));
  }

  method Combine(a: Algorithm, sigs: seq<Signature>) returns (result: Result<Signature>)
    requires sigs != [] && Order(a) > 0 && Fits(a, sigs[0].s)
    ensures result.Success? <==> SameNonce(sigs)
    ensures result.Failure? ==> result.error == InvalidParameter
    ensures result.Success? ==> Combines(Order(a), Threshold(a), sigs, result.value)
  {
    var sum := AddPartials(Order(a), sigs);
    if sum.Failure? { return Failure(InvalidParameter); }
    if sum.value.s < Order(a) { OrderFits(a, sum.value.s); }
    var sig := MakeSigSPositive(a, sum.value);
    return Success(sig);
  }

  ghost predicate CombinesFirst(q: nat, t: nat, blocks: seq<seq<Signature>>, sigs: seq<Signature>)
    requires q > 0
  {
    && |sigs| <= |blocks|
    && forall i | 0 <= i < |sigs| :: blocks[i] != [] && SameNonce(blocks[i]) && Combines(q, t, blocks[i], sigs[i])
  }

  lemma {:induction false} CombinesOneMore(q: nat, t: nat, blocks: seq<seq<Signature>>, sigs: seq<Signature>, sig: Signature)
    requires q > 0 && CombinesFirst(q, t, blocks, sigs) && |sigs| < |blocks|
    requires blocks[|sigs|] != [] && SameNonce(blocks[|sigs|]) && Combines(q, t, blocks[|sigs|], sig)
    ensures CombinesFirst(q, t, blocks, sigs + [sig])
  {
    forall i | 0 <= i < |sigs + [sig]|
      ensures blocks[i] != [] && SameNonce(blocks[i]) && Combines(q, t, blocks[i], (sigs + [sig])[i])
    {
      if i < |sigs| { assert (sigs + [sig])[i] == sigs[i]; } else { assert (sigs + [sig])[i] == sig; }
    }
  }

  predicate AllFit(a: Algorithm, blocks: seq<seq<Signature>>) {
    forall i | 0 <= i < |blocks| :: blocks[i] != [] && Fits(a, blocks[i][0].s)
  }

  predicate AllSameNonce(blocks: seq<seq<Signature>>) {
    forall i | 0 <= i < |blocks| :: SameNonce(blocks[i])
  }

  /** All blocks in order, up to the first that fails. */
  method CombineAll(a: Algorithm, blocks: seq<seq<Signature>>) returns (result: Result<seq<Signature>>)
    requires Order(a) > 0 && AllFit(a, blocks)
    ensures result.Success? <==> AllSameNonce(blocks)
    ensures result.Failure? ==> result.error == InvalidParameter
    ensures result.Success? ==> |result.value| == |blocks| && CombinesFirst(Order(a), Threshold(a), blocks, result.value)
  {
    var sigs: seq<Signature> := [];
    while |sigs| < |blocks|
      invariant CombinesFirst(Order(a), Threshold(a), blocks, sigs)
    {
      var sig := Combine(a, blocks[|sigs|]);
      if sig.Failure? { return Failure(InvalidParameter); }
      CombinesOneMore(Order(a), Threshold(a), blocks, sigs, sig.value);
      sigs := sigs + [sig.value];
    }
    return Success(sigs);
  }

  /** The players' lists fit together: there is something to combine, and they are of one length. */
  predicate WellFormed(a: Algorithm, partials: seq<seq<Signature>>) {
    partials != [] && partials[0] != [] && a != Ed25519 && forall j | 0 <= j < |partials| :: |partials[j]| == |partials[0]|
  }

  function Blocks(partials: seq<seq<Signature>>): (r: seq<seq<Signature>>)
    ensures partials != [] ==> |r| == |partials[0]| && forall i | 0 <= i < |r| :: r[i] != [] && r[i] == PlayersOf(partials, i)
  {
    if partials == [] then [] else seq(|partials[0]|, i requires 0 <= i < |partials[0]| => PlayersOf(partials, i))
  }

  /** r and v agree within every block exactly when every player's agree with the first player's. */
  lemma {:induction false} NoncesMatch(partials: seq<seq<Signature>>)
    requires partials != [] && forall j | 0 <= j < |partials| :: |partials[j]| == |partials[0]|
    ensures AllSameNonce(Blocks(partials)) <==>
      forall i, j | 0 <= i < |partials[0]| && 0 <= j < |partials| && i < |partials[j]| ::
        partials[j][i].r == partials[0][i].r && partials[j][i].v == partials[0][i].v
  {
    var blocks := Blocks(partials);
    if AllSameNonce(blocks) {
      forall i, j | 0 <= i < |partials[0]| && 0 <= j < |partials| && i < |partials[j]|
        ensures partials[j][i].r == partials[0][i].r && partials[j][i].v == partials[0][i].v
      {
        assert SameNonce(blocks[i]) && blocks[i][j] == partials[j][i] && blocks[i][0] == partials[0][i];
      }
    } else {
      var i :| 0 <= i < |blocks| && !SameNonce(blocks[i]);
      var j :| 0 <= j < |blocks[i]| && !(blocks[i][j].r == blocks[i][0].r && blocks[i][j].v == blocks[i][0].v);
      assert blocks[i][j] == partials[j][i] && blocks[i][0] == partials[0][i];
    }
  }

  /** What ecdsa_offline_signature combines, in terms of the lists it is given. */
  lemma {:induction false} CombinableMeans(a: Algorithm, partials: seq<seq<Signature>>)
    ensures WellFormed(a, partials) && AllSameNonce(Blocks(partials)) <==>
      && |partials| > 0 && |partials[0]| > 0 && a != Ed25519
      && (forall j | 0 <= j < |partials| :: |partials[j]| == |partials[0]|)
      && forall i, j | 0 <= i < |partials[0]| && 0 <= j < |partials| && i < |partials[j]| ::
        partials[j][i].r == partials[0][i].r && partials[j][i].v == partials[0][i].v
  {
    if partials != [] && forall j | 0 <= j < |partials| :: |partials[j]| == |partials[0]| { NoncesMatch(partials); }
  }

  /** ecdsa_offline_signature */
  method OfflineSignature(a: Algorithm, partials: seq<seq<Signature>>) returns (result: Result<seq<Signature>>)
    requires Order(a) > 0 && AllFit(a, Blocks(partials))
    ensures result.Success? <==> WellFormed(a, partials) && AllSameNonce(Blocks(partials))
    ensures result.Failure? ==> result.error == InvalidParameter
    ensures result.Success? ==>
      |result.value| == |Blocks(partials)| && CombinesFirst(Order(a), Threshold(a), Blocks(partials), result.value)
  {
    if |partials| == 0 { return Failure(InvalidParameter); }
    var count := |partials[0]|;
    if count == 0 { return Failure(InvalidParameter); }
    if a == Ed25519 { return Failure(InvalidParameter); }
    if exists j | 0 <= j < |partials| :: |partials[j]| != count { return Failure(InvalidParameter); }
    result := CombineAll(a, Blocks(partials));
  }

  /**
   From shares to signature: if every player signs a block with a good presignature, the combining
   service accepts, and what it returns is valid for the derived key.
   */
  lemma {:induction false} SignAndCombine(c: CurveMap, k: nat -> int, x: nat -> int, chi: nat -> int, R: Point,
                                          block: Block, hash: Hash, sigs: seq<Signature>, sig: Signature)
    requires PointGroup(c) && sigs != [] && Presignature.Good(c.q, |sigs|, k, x, chi, R)
    requires Modular.Cong(block.derivedKey.log, Sum(|sigs|, x) + block.delta, c.q)
    requires forall j: nat | j < |sigs| :: SignedBlock(c, x(j), Stored(k(j), chi(j), R), block, hash, sigs[j])
    ensures SameNonce(sigs)
    ensures Combines(c.q, c.threshold, sigs, sig) ==> GoodSignature(c, block.message, sig, block.derivedKey)
  {
    var n, nonce := |sigs|, SharedNonce(c, R, block, hash).value;
    PartialsMatch(c, k, x, chi, R, block, hash, sigs);
    SameTotal(c.q, n, SOf(sigs), Partials(c.q, k, x, chi, block, nonce));
    SignatureVerifies(c, n, k, x, chi, R, block, hash);
    var s := TotalS(c.q, n, Partials(c.q, k, x, chi, block, nonce));
    if Combines(c.q, c.threshold, sigs, sig) {
      CombinesTo(c.q, c.threshold, sigs, sig, s, nonce.r, nonce.v);
    }
  }

  lemma CombinesTo(q: nat, t: nat, sigs: seq<Signature>, sig: Signature, s: nat, r: nat, v: nat)
    requires q > 0 && sigs != [] && Combines(q, t, sigs, sig)
    requires TotalS(q, |sigs|, SOf(sigs)) == s && sigs[0].r == r && sigs[0].v == v
    ensures sig == NormalisedBy(q, t, Signature(r, s, v))
  {
  }

  lemma {:induction false} PartialsMatch(c: CurveMap, k: nat -> int, x: nat -> int, chi: nat -> int, R: Point,
                                         block: Block, hash: Hash, sigs: seq<Signature>)
    requires c.q > 0 && sigs != []
    requires forall j: nat | j < |sigs| :: SignedBlock(c, x(j), Stored(k(j), chi(j), R), block, hash, sigs[j])
    ensures SharedNonce(c, R, block, hash).Success?
    ensures var nonce := SharedNonce(c, R, block, hash).value;
      && (forall j: nat | j < |sigs| :: sigs[j].r == nonce.r && sigs[j].v == nonce.v)
      && forall j: nat | j < |sigs| :: SOf(sigs)(j) == Partials(c.q, k, x, chi, block, nonce)(j)
  {
    assert SignedBlock(c, x(0), Stored(k(0), chi(0), R), block, hash, sigs[0]);
    var nonce := SharedNonce(c, R, block, hash).value;
    forall j: nat | j < |sigs|
      ensures sigs[j].r == nonce.r && sigs[j].v == nonce.v && SOf(sigs)(j) == Partials(c.q, k, x, chi, block, nonce)(j)
    {
      assert SignedBlock(c, x(j), Stored(k(j), chi(j), R), block, hash, sigs[j]);
    }
  }

  lemma {:induction false} SameTotal(q: int, n: nat, s: nat -> int, t: nat -> int)
    requires q > 0 && n > 0 && forall j: nat | j < n :: s(j) == t(j)
    ensures TotalS(q, n, s) == TotalS(q, n, t)
  {
    SameAddOthers(s(0), n, s, t, q);
  }

  lemma {:induction false} SameAddOthers(start: int, n: nat, s: nat -> int, t: nat -> int, q: int)
    requires q > 0 && forall j: nat | j < n :: s(j) == t(j)
    ensures CmpPresigning.AddOthers(start, n, 0, s, q) == CmpPresigning.AddOthers(start, n, 0, t, q)
  {
    if n > 0 { SameAddOthers(start, n - 1, s, t, q); }
  }
}
