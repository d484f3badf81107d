/**
 cmp_setup_service.cpp and commitments.c: the commit and reveal rounds of key setup, and what two
 players that both get through them agree on.
 */
module Setup {
  import opened Bytes
  import opened Endian
  import opened Wrappers
  import opened Curve

  /** commitments_commitment_t */
  datatype Commitment = Commitment(salt: seq<byte>, hash: seq<byte>)

  /** setup_decommitment; X and the Schnorr point are encoded points as they were sent. */
  datatype Decommitment = Decommitment(
    ack: seq<byte>, seed: seq<byte>, X: seq<byte>, schnorrR: seq<byte>, paillier: seq<byte>, ringPedersen: seq<byte>)

  /**
   The hash, the decoding of points, the test that two serialized keys are well-formed and large
   enough, and the key id with its players.
   */
  datatype Context = Context(
    q: int, hash: seq<byte> -> seq<byte>, decode: seq<byte> -> Option<Point>, goodKeys: (seq<byte>, seq<byte>) -> bool,
    keyId: seq<byte>, players: set<nat>)

  /** Collision-free hashing. */
  ghost predicate CollisionFree(c: Context) {
    forall a, b | c.hash(a) == c.hash(b) :: a == b
  }

  // ----- std::map iterates its keys in ascending order -----

  predicate IsMin(s: set<nat>, m: nat) {
    m in s && forall x | x in s :: m <= x
  }

  lemma {:induction false} MinExists(s: set<nat>) returns (m: nat)
    requires s != {}
    ensures IsMin(s, m)
    decreases |s|
  {
    var a :| a in s;
    m := a;
    if s - {a} != {} {
      var rest := MinExists(s - {a});
      m := if a <= rest then a else rest;
    }
    forall x | x in s ensures m <= x {
      assert x == a || x in s - {a};
    }
  }

  lemma SomeMin(s: set<nat>)
    requires s != {}
    ensures exists m :: IsMin(s, m)
  {
    var m := MinExists(s);
  }

  ghost function Min(s: set<nat>): (m: nat)
    requires s != {}
    ensures IsMin(s, m)
  {
    SomeMin(s);
    var m :| IsMin(s, m);
    m
  }

  ghost function Sorted(s: set<nat>): (r: seq<nat>)
    ensures forall x :: x in r <==> x in s
    decreases |s|
  {
    if s == {} then [] else [Min(s)] + Sorted(s - {Min(s)})
  }

  lemma {:induction false} SortedStep(s: set<nat>)
    requires s != {}
    ensures Sorted(s) != [] && Sorted(s)[0] == Min(s) && Sorted(s)[1..] == Sorted(s - {Min(s)})
  {
  }

  method FindMin(s: set<nat>) returns (m: nat)
    requires s != {}
    ensures m == Min(s)
  {
    SomeMin(s);
    m :| m in s && forall x | x in s :: m <= x;
  }

  // ----- Hashed messages -----

  /** A uint64_t id in memory. */
  function IdBytes(id: nat): (s: seq<byte>)
    ensures |s| == 8
  {
    Encode(id, 8)
  }

  lemma {:induction false} IdBytesInjective(a: nat, b: nat)
    requires a < Pow256(8) && b < Pow256(8) && IdBytes(a) == IdBytes(b)
    ensures a == b
  {
    EncodeValue(a, 8);
    EncodeValue(b, 8);
  }

  predicate Sized(c: Commitment) {
    |c.salt| == 32 && |c.hash| == 32
  }

  /** One player's part of the hashed list of commitments. */
  function Record(id: nat, c: Commitment): (s: seq<byte>)
    requires Sized(c)
    ensures |s| == 72
  {
    IdBytes(id) + c.salt + c.hash
  }

  function Records(ids: seq<nat>, commitments: map<nat, Commitment>): (s: seq<byte>)
    requires forall id | id in ids :: id in commitments && Sized(commitments[id])
  {
    if ids == [] then [] else Record(ids[0], commitments[ids[0]]) + Records(ids[1..], commitments)
  }

  predicate SizedMap(commitments: map<nat, Commitment>) {
    forall id | id in commitments :: id < Pow256(8) && Sized(commitments[id])
  }

  lemma {:induction false} RecordsStep(bytes: seq<byte>, todo: set<nat>, commitments: map<nat, Commitment>)
    requires todo != {} && todo <= commitments.Keys && SizedMap(commitments)
    ensures bytes + Records(Sorted(todo), commitments) ==
      (bytes + Record(Min(todo), commitments[Min(todo)])) + Records(Sorted(todo - {Min(todo)}), commitments)
  {
    SortedStep(todo);
  }

  /** ack_message */
  ghost function Ack(c: Context, commitments: map<nat, Commitment>): seq<byte>
    requires SizedMap(commitments)
  {
    c.hash(Records(Sorted(commitments.Keys), commitments))
  }

  /** Everything a commitment binds; the two keys at the end have no length in front. */
  function Committed(c: Context, id: nat, salt: seq<byte>, d: Decommitment): seq<byte> {
    salt + (c.keyId + (IdBytes(id) + (d.seed + (d.X + (d.schnorrR + (d.paillier + d.ringPedersen))))))
  }

  /** create_setup_commitment in verifying mode: no part may be empty, and the hash has to match. */
  predicate Opens(c: Context, id: nat, commitment: Commitment, d: Decommitment) {
    && c.keyId != [] && d.paillier != [] && d.ringPedersen != []
    && c.hash(Committed(c, id, commitment.salt, d)) == commitment.hash
  }

  // ----- The exclusive or of the seeds, the sum of the shares -----

  function XorSeed(a: seq<byte>, b: seq<byte>): (r: seq<byte>)
    requires |a| == |b|
    ensures |r| == |a|
  {
    seq<byte>(|a|, i requires 0 <= i < |a| => XorByte(a[i], b[i]))
  }

  /** Seeds have 32 bytes and encoded points 33. */
  predicate SizedOpening(d: Decommitment) {
    |d.seed| == 32 && |d.X| == 33 && |d.schnorrR| == 33
  }

  predicate SizedOpenings(decommitments: map<nat, Decommitment>) {
    forall id | id in decommitments :: SizedOpening(decommitments[id])
  }

  function XorSeeds(start: seq<byte>, ids: seq<nat>, decommitments: map<nat, Decommitment>): seq<byte>
    requires |start| == 32 && SizedOpenings(decommitments) && forall id | id in ids :: id in decommitments
    decreases |ids|
  {
    if ids == [] then start else XorSeeds(XorSeed(start, decommitments[ids[0]].seed), ids[1..], decommitments)
  }

  /** Adding up encoded points; None if one of them does not decode. */
  function SumShares(c: Context, start: Point, ids: seq<nat>, shares: map<nat, seq<byte>>): Option<Point>
    requires c.q > 0 && forall id | id in ids :: id in shares
    decreases |ids|
  {
    if ids == [] then Some(start)
    else
      var X := c.decode(shares[ids[0]]);
      if X.None? then None else SumShares(c, AddPoints(start, X.value, c.q), ids[1..], shares)
  }

  // ----- One player's persisted data -----

  /** The decommitment of a player passes all checks of verify_and_load_setup_decommitments. */
  predicate Passes(c: Context, id: nat, commitment: Commitment, d: Decommitment, ack: seq<byte>) {
    id in c.players && Opens(c, id, commitment, d) && d.ack == ack && c.goodKeys(d.paillier, d.ringPedersen)
  }

  predicate PassesAt(c: Context, id: nat, commitments: map<nat, Commitment>, decommitments: map<nat, Decommitment>, ack: seq<byte>)
    requires id in commitments
  {
    id in decommitments && Passes(c, id, commitments[id], decommitments[id], ack)
  }

  predicate AllPass(c: Context, ids: set<nat>, commitments: map<nat, Commitment>, decommitments: map<nat, Decommitment>, ack: seq<byte>)
    requires ids <= commitments.Keys
  {
    forall id | id in ids :: PassesAt(c, id, commitments, decommitments, ack)
  }

  lemma {:induction false} OneMorePasses(c: Context, ids: set<nat>, id: nat, commitments: map<nat, Commitment>,
                                         decommitments: map<nat, Decommitment>, ack: seq<byte>)
    requires ids <= commitments.Keys && id in commitments && AllPass(c, ids, commitments, decommitments, ack)
    requires PassesAt(c, id, commitments, decommitments, ack)
    ensures AllPass(c, ids + {id}, commitments, decommitments, ack)
  {
  }

  lemma {:induction false} OneFails(c: Context, ids: set<nat>, id: nat, commitments: map<nat, Commitment>,
                                    decommitments: map<nat, Decommitment>, ack: seq<byte>)
    requires ids <= commitments.Keys && id in ids
    requires !PassesAt(c, id, commitments, decommitments, ack)
    ensures !AllPass(c, ids, commitments, decommitments, ack)
  {
  }

  ghost predicate Accepted(c: Context, commitments: map<nat, Commitment>, decommitments: map<nat, Decommitment>)
    requires SizedMap(commitments)
  {
    && |decommitments| == |commitments|
    && AllPass(c, commitments.Keys, commitments, decommitments, Ack(c, commitments))
  }

  /** The public shares of some players. */
  function SharesOf(ids: set<nat>, decommitments: map<nat, Decommitment>): map<nat, seq<byte>> {
    map id | id in ids && id in decommitments :: decommitments[id].X
  }

  function SchnorrRsOf(ids: set<nat>, decommitments: map<nat, Decommitment>): map<nat, seq<byte>> {
    map id | id in ids && id in decommitments :: decommitments[id].schnorrR
  }

  lemma OneMoved(done: set<nat>, todo: set<nat>, id: nat)
    requires id in todo
    ensures (done + {id}) + (todo - {id}) == done + todo
  {
  }

  lemma SharesOneMore(before: map<nat, seq<byte>>, ids: set<nat>, id: nat, decommitments: map<nat, Decommitment>)
    requires id in decommitments
    ensures (before + SharesOf(ids, decommitments))[id := decommitments[id].X] == before + SharesOf(ids + {id}, decommitments)
  {
  }

  lemma SchnorrRsOneMore(before: map<nat, seq<byte>>, ids: set<nat>, id: nat, decommitments: map<nat, Decommitment>)
    requires id in decommitments
    ensures (before + SchnorrRsOf(ids, decommitments))[id := decommitments[id].schnorrR] == before + SchnorrRsOf(ids + {id}, decommitments)
  {
  }

  class Player {
    const me: nat
    var commitments: map<nat, Commitment>
    var shares: map<nat, seq<byte>>
    var schnorrRs: map<nat, seq<byte>>
    var seed: seq<byte>
    var publicKey: Point

    constructor (me: nat, publicKey: Point)
      ensures this.me == me && this.publicKey == publicKey && shares == map[] && schnorrRs == map[]
    {
      this.me, this.publicKey := me, publicKey;
      commitments, shares, schnorrRs, seed := map[], map[], map[], [];
    }

    method HashRecords(c: Context, commitments: map<nat, Commitment>) returns (ack: seq<byte>)
      requires SizedMap(commitments)
      ensures ack == Ack(c, commitments)
    {
      var bytes: seq<byte>, todo := [], commitments.Keys;
      while todo != {}
        invariant todo <= commitments.Keys
        invariant bytes + Records(Sorted(todo), commitments) == Records(Sorted(commitments.Keys), commitments)
        decreases |todo|
      {
        var id := FindMin(todo);
        RecordsStep(bytes, todo, commitments);
        bytes := bytes + Record(id, commitments[id]);
        todo := todo - {id};
      }
      assert bytes + [] == bytes;
      ack := c.hash(bytes);
    }

    /** store_setup_commitments: checks the list and the own entry, and makes the own decommitment acknowledge the list. */
    method StoreCommitments(c: Context, commitments: map<nat, Commitment>, own: Decommitment) returns (result: Result<Decommitment>)
      requires SizedMap(commitments) && me in c.players
      modifies this`commitments
      ensures result.Success? <==> commitments.Keys == c.players && Opens(c, me, commitments[me], own)
      ensures result.Success? ==> this.commitments == commitments && result.value == own.(ack := Ack(c, commitments))
      ensures result.Failure? ==> this.commitments == old(this.commitments)
    {
      if |commitments| != |c.players| { return Failure(InvalidParameter); }
      if exists id | id in c.players :: id !in commitments { return Failure(InvalidParameter); }
      SubsetOfSameSize(c.players, commitments.Keys);
      if |c.keyId| == 0 || |own.paillier| == 0 || |own.ringPedersen| == 0 { return Failure(InvalidParameter); }
      if c.hash(Committed(c, me, commitments[me].salt, own)) != commitments[me].hash { return Failure(VerificationFailed); }
      var ack := HashRecords(c, commitments);
      this.commitments := commitments;
      return Success(own.(ack := ack));
    }

    /** verify_and_load_setup_decommitments */
    method LoadDecommitments(c: Context, decommitments: map<nat, Decommitment>) returns (ok: bool)
      requires SizedMap(commitments)
      modifies this`shares
      ensures ok <==> Accepted(c, commitments, decommitments)
      ensures ok ==> shares == old(shares) + SharesOf(commitments.Keys, decommitments)
      ensures ok ==> forall id | id in commitments :: id in decommitments && id in shares && shares[id] == decommitments[id].X
    {
      if |decommitments| != |commitments| { return false; }
      var ack := HashRecords(c, commitments);
      ok := LoadAll(c, decommitments, ack);
    }

    method LoadAll(c: Context, decommitments: map<nat, Decommitment>, ack: seq<byte>) returns (ok: bool)
      modifies this`shares
      ensures ok <==> AllPass(c, commitments.Keys, commitments, decommitments, ack)
      ensures ok ==> shares == old(shares) + SharesOf(commitments.Keys, decommitments)
    {
      var all, todo, done := commitments, commitments.Keys, {};
      ghost var before := shares;
      while todo != {}
        invariant done + todo == all.Keys
        invariant AllPass(c, done, all, decommitments, ack)
        invariant shares == before + SharesOf(done, decommitments)
        decreases |todo|
      {
        var id := FindMin(todo);
        var pass := CheckDecommitment(c, id, all, decommitments, ack);
        if !pass {
          OneFails(c, all.Keys, id, all, decommitments, ack);
          return false;
        }
        OneMorePasses(c, done, id, all, decommitments, ack);
        LoadShare(id, decommitments, before, done);
        OneMoved(done, todo, id);
        todo, done := todo - {id}, done + {id};
      }
      assert done == all.Keys;
      return true;
    }

    method LoadShare(id: nat, decommitments: map<nat, Decommitment>, ghost before: map<nat, seq<byte>>, ghost done: set<nat>)
      requires id in decommitments && shares == before + SharesOf(done, decommitments)
      modifies this`shares
      ensures shares == before + SharesOf(done + {id}, decommitments)
    {
      SharesOneMore(before, done, id, decommitments);
      shares := shares[id := decommitments[id].X];
    }

    method CheckDecommitment(c: Context, id: nat, commitments: map<nat, Commitment>, decommitments: map<nat, Decommitment>, ack: seq<byte>)
      returns (ok: bool)
      requires id in commitments
      ensures ok <==> PassesAt(c, id, commitments, decommitments, ack)
    {
      if id !in decommitments { return false; }
      var d, commitment := decommitments[id], commitments[id];
      if |c.keyId| == 0 || |d.paillier| == 0 || |d.ringPedersen| == 0 { return false; }
      if c.hash(Committed(c, id, commitment.salt, d)) != commitment.hash { return false; }
      if ack != d.ack { return false; }
      if id !in c.players { return false; }
      return c.goodKeys(d.paillier, d.ringPedersen);
    }

    /** generate_setup_proofs, up to the proofs themselves: the joint seed and the players' Schnorr points. */
    method CombineSeeds(c: Context, decommitments: map<nat, Decommitment>) returns (ok: bool)
      requires SizedMap(commitments) && SizedOpenings(decommitments)
      modifies this`shares, this`seed, this`schnorrRs
      ensures ok <==> Accepted(c, commitments, decommitments)
      ensures ok ==> seed == JointSeed(decommitments)
      ensures ok ==> shares == old(shares) + SharesOf(commitments.Keys, decommitments)
      ensures ok ==> schnorrRs == old(schnorrRs) + SchnorrRsOf(decommitments.Keys, decommitments)
      ensures ok ==> forall id | id in commitments :: id in decommitments && id in shares && shares[id] == decommitments[id].X
      ensures ok ==> forall id | id in commitments :: id in schnorrRs && schnorrRs[id] == decommitments[id].schnorrR
    {
      ok := LoadDecommitments(c, decommitments);
      if ok { FoldDecommitments(decommitments); }
    }

    method FoldDecommitments(decommitments: map<nat, Decommitment>)
      requires SizedOpenings(decommitments)
      modifies this`seed, this`schnorrRs
      ensures seed == JointSeed(decommitments)
      ensures schnorrRs == old(schnorrRs) + SchnorrRsOf(decommitments.Keys, decommitments)
    {
      seed := Zeros32();
      var todo, done := decommitments.Keys, {};
      while todo != {}
        invariant done + todo == decommitments.Keys && |seed| == 32
        invariant XorSeeds(seed, Sorted(todo), decommitments) == JointSeed(decommitments)
        invariant schnorrRs == old(schnorrRs) + SchnorrRsOf(done, decommitments)
        decreases |todo|
      {
        var id := FindMin(todo);
        SortedStep(todo);
        seed := XorSeed(seed, decommitments[id].seed);
        SchnorrRsOneMore(old(schnorrRs), done, id, decommitments);
        schnorrRs := schnorrRs[id := decommitments[id].schnorrR];
        todo, done := todo - {id}, done + {id};
      }
      assert Sorted(todo) == [] && done == decommitments.Keys;
    }

    /** verify_setup_proofs, after the proofs: a public key that is already set has to be the sum of the shares. */
    method SetPublicKey(c: Context) returns (ok: bool)
      requires c.q > 0 && c.players <= shares.Keys
      modifies this`publicKey
      ensures ok <==> JointKey(c, shares).Some? && (old(publicKey) == Infinity || old(publicKey) == JointKey(c, shares).value)
      ensures ok ==> publicKey == JointKey(c, shares).value
      ensures !ok ==> publicKey == old(publicKey)
    {
      var sum, todo := Infinity, c.players;
      while todo != {}
        invariant todo <= c.players
        invariant SumShares(c, sum, Sorted(todo), shares) == JointKey(c, shares) && publicKey == old(publicKey)
        decreases |todo|
      {
        var id := FindMin(todo);
        SortedStep(todo);
        var X := c.decode(shares[id]);
        if X.None? { return false; }
        sum := AddPoints(sum, X.value, c.q);
        todo := todo - {id};
      }
      assert Sorted(todo) == [];
      if publicKey != Infinity {
        if sum != publicKey { return false; }
      } else {
        publicKey := sum;
      }
      return true;
    }
  }

  function Zeros32(): (s: seq<byte>)
    ensures |s| == 32
  {
    seq<byte>(32, i => 0)
  }

  ghost function JointSeed(decommitments: map<nat, Decommitment>): seq<byte>
    requires SizedOpenings(decommitments)
  {
    XorSeeds(Zeros32(), Sorted(decommitments.Keys), decommitments)
  }

  ghost function JointKey(c: Context, shares: map<nat, seq<byte>>): Option<Point>
    requires c.q > 0 && c.players <= shares.Keys
  {
    SumShares(c, Infinity, Sorted(c.players), shares)
  }

  lemma {:induction false} SubsetOfSameSize(a: set<nat>, b: set<nat>)
    requires a <= b && |a| == |b|
    ensures a == b
  {
    assert b == a + (b - a);
    assert |b - a| == 0;
  }

  // ----- Agreement -----

  lemma {:induction false} RecordInjective(a: nat, c: Commitment, b: nat, d: Commitment)
    requires Sized(c) && Sized(d) && a < Pow256(8) && b < Pow256(8) && Record(a, c) == Record(b, d)
    ensures a == b && c == d
  {
    var r, r' := Record(a, c), Record(b, d);
    assert r[..8] == IdBytes(a) && r'[..8] == IdBytes(b);
    assert r[8..40] == c.salt && r'[8..40] == d.salt;
    assert r[40..] == c.hash && r'[40..] == d.hash;
    IdBytesInjective(a, b);
  }

  /** The hashed list determines the ids and the commitments. */
  lemma {:induction false} RecordsInjective(ids: seq<nat>, a: map<nat, Commitment>, ids': seq<nat>, b: map<nat, Commitment>)
    requires SizedMap(a) && SizedMap(b) && (forall id | id in ids :: id in a) && (forall id | id in ids' :: id in b)
    requires Records(ids, a) == Records(ids', b)
    ensures ids == ids' && forall id | id in ids :: a[id] == b[id]
    decreases |ids|
  {
    if ids != [] && ids' != [] {
      var x, y := Record(ids[0], a[ids[0]]), Record(ids'[0], b[ids'[0]]);
      assert Records(ids, a)[..72] == x && Records(ids', b)[..72] == y;
      assert Records(ids, a)[72..] == Records(ids[1..], a) && Records(ids', b)[72..] == Records(ids'[1..], b);
      RecordInjective(ids[0], a[ids[0]], ids'[0], b[ids'[0]]);
      RecordsInjective(ids[1..], a, ids'[1..], b);
      assert ids == [ids[0]] + ids[1..] && ids' == [ids'[0]] + ids'[1..];
    }
  }

  /** Equal acknowledgements come from equal commitment maps. */
  lemma {:induction false} AckBinds(c: Context, a: map<nat, Commitment>, b: map<nat, Commitment>)
    requires CollisionFree(c) && SizedMap(a) && SizedMap(b) && Ack(c, a) == Ack(c, b)
    ensures a == b
  {
    var ids, ids' := Sorted(a.Keys), Sorted(b.Keys);
    assert Records(ids, a) == Records(ids', b);
    RecordsInjective(ids, a, ids', b);
    assert forall id | id in a :: id in ids;
    assert forall id | id in b :: id in ids';
    assert a.Keys == b.Keys;
  }

  /** Equal in every field of fixed length, and in the concatenation of the two keys. */
  predicate SameOpening(d: Decommitment, e: Decommitment) {
    d.seed == e.seed && d.X == e.X && d.schnorrR == e.schnorrR && d.paillier + d.ringPedersen == e.paillier + e.ringPedersen
  }

  lemma {:induction false} SplitAt(a: seq<byte>, b: seq<byte>, x: seq<byte>, y: seq<byte>)
    requires |a| == |b| && a + x == b + y
    ensures a == b && x == y
  {
    assert a == (a + x)[..|a|] && b == (b + y)[..|b|];
    assert x == (a + x)[|a|..] && y == (b + y)[|b|..];
  }

  /** A commitment opens to one value of each field of fixed length. */
  lemma {:induction false} CommitmentBinds(c: Context, id: nat, commitment: Commitment, d: Decommitment, e: Decommitment)
    requires CollisionFree(c) && SizedOpening(d) && SizedOpening(e) && Opens(c, id, commitment, d) && Opens(c, id, commitment, e)
    ensures SameOpening(d, e)
  {
    var keys, keys' := d.paillier + d.ringPedersen, e.paillier + e.ringPedersen;
    var R, R' := d.schnorrR + keys, e.schnorrR + keys';
    var X, X' := d.X + R, e.X + R';
    var seed, seed' := d.seed + X, e.seed + X';
    assert Committed(c, id, commitment.salt, d) == Committed(c, id, commitment.salt, e);
    SplitAt(commitment.salt, commitment.salt, c.keyId + (IdBytes(id) + seed), c.keyId + (IdBytes(id) + seed'));
    SplitAt(c.keyId, c.keyId, IdBytes(id) + seed, IdBytes(id) + seed');
    SplitAt(IdBytes(id), IdBytes(id), seed, seed');
    SplitAt(d.seed, e.seed, X, X');
    SplitAt(d.X, e.X, R, R');
    SplitAt(d.schnorrR, e.schnorrR, keys, keys');
  }

  /** With equal lengths the two keys agree as well. */
  lemma {:induction false} SameKeys(d: Decommitment, e: Decommitment)
    requires SameOpening(d, e)
    ensures |d.paillier| == |e.paillier| <==> d.paillier == e.paillier && d.ringPedersen == e.ringPedersen
  {
    if |d.paillier| == |e.paillier| { SplitAt(d.paillier, e.paillier, d.ringPedersen, e.ringPedersen); }
  }

  /** Otherwise they need not: a byte can move from one key to the other under the same commitment. */
  lemma {:induction false} KeysCanShift(c: Context, id: nat, salt: seq<byte>, seed: seq<byte>, X: seq<byte>, R: seq<byte>)
    ensures
      var d, e := Decommitment([], seed, X, R, [1], [2, 3]), Decommitment([], seed, X, R, [1, 2], [3]);
      && c.hash(Committed(c, id, salt, d)) == c.hash(Committed(c, id, salt, e))
      && d.paillier != e.paillier
  {
    var whole: seq<byte> := [1, 2, 3];
    var d, e := Decommitment([], seed, X, R, [1], [2, 3]), Decommitment([], seed, X, R, [1, 2], [3]);
    assert d.paillier + d.ringPedersen == whole && e.paillier + e.ringPedersen == whole;
  }

  lemma {:induction false} SameXorSeeds(start: seq<byte>, ids: seq<nat>, a: map<nat, Decommitment>, b: map<nat, Decommitment>)
    requires |start| == 32 && SizedOpenings(a) && SizedOpenings(b)
    requires forall id | id in ids :: id in a && id in b && a[id].seed == b[id].seed
    ensures XorSeeds(start, ids, a) == XorSeeds(start, ids, b)
    decreases |ids|
  {
    if ids != [] { SameXorSeeds(XorSeed(start, a[ids[0]].seed), ids[1..], a, b); }
  }

  // ----- What acceptance and the joint values mean -----

  /** What a player checks of the others' openings before it takes them. */
  lemma {:induction false} AcceptedMeans(c: Context, commitments: map<nat, Commitment>, decommitments: map<nat, Decommitment>)
    requires SizedMap(commitments)
    ensures Accepted(c, commitments, decommitments) <==>
      && |decommitments| == |commitments|
      && forall id | id in commitments ::
        && id in decommitments && id in c.players && c.keyId != []
        && var d := decommitments[id];
          && d.paillier != [] && d.ringPedersen != [] && c.goodKeys(d.paillier, d.ringPedersen)
          && d.ack == c.hash(Records(Sorted(commitments.Keys), commitments))
          && c.hash(commitments[id].salt + (c.keyId + (Encode(id, 8) + (d.seed + (d.X + (d.schnorrR + (d.paillier + d.ringPedersen)))))))
             == commitments[id].hash
  {
    if AllPass(c, commitments.Keys, commitments, decommitments, Ack(c, commitments)) {
      forall id | id in commitments ensures PassesAt(c, id, commitments, decommitments, Ack(c, commitments)) {}
    }
  }

  /** A commitment binds its opening to one player: no opening of it passes for two. */
  lemma {:induction false} CommitmentBindsPlayer(c: Context, id: nat, id': nat, commitment: Commitment, d: Decommitment, e: Decommitment)
    requires CollisionFree(c) && id < Pow256(8) && id' < Pow256(8)
    requires Opens(c, id, commitment, d) && Opens(c, id', commitment, e)
    ensures id == id'
  {
    var rest := d.seed + (d.X + (d.schnorrR + (d.paillier + d.ringPedersen)));
    var rest' := e.seed + (e.X + (e.schnorrR + (e.paillier + e.ringPedersen)));
    assert Committed(c, id, commitment.salt, d) == Committed(c, id', commitment.salt, e);
    SplitAt(commitment.salt, commitment.salt, c.keyId + (IdBytes(id) + rest), c.keyId + (IdBytes(id') + rest'));
    SplitAt(c.keyId, c.keyId, IdBytes(id) + rest, IdBytes(id') + rest');
    SplitAt(IdBytes(id), IdBytes(id'), rest, rest');
    IdBytesInjective(id, id');
  }

  lemma XorSeedSwitch(s: seq<byte>, a: seq<byte>, b: seq<byte>)
    requires |s| == |a| == |b|
    ensures XorSeed(XorSeed(s, a), b) == XorSeed(XorSeed(s, b), a)
  {
    forall k | 0 <= k < |s| ensures XorSeed(XorSeed(s, a), b)[k] == XorSeed(XorSeed(s, b), a)[k] {
      XorSwitch(s[k], a[k], b[k]);
    }
  }

  lemma {:induction false} XorSeedsShift(start: seq<byte>, v: seq<byte>, ids: seq<nat>, d: map<nat, Decommitment>)
    requires |start| == |v| == 32 && SizedOpenings(d) && forall id | id in ids :: id in d
    ensures |XorSeeds(start, ids, d)| == 32 && XorSeeds(XorSeed(start, v), ids, d) == XorSeed(XorSeeds(start, ids, d), v)
    decreases |ids|
  {
    if ids != [] {
      XorSeedSwitch(start, v, d[ids[0]].seed);
      XorSeedsShift(XorSeed(start, d[ids[0]].seed), v, ids[1..], d);
    }
  }

  lemma {:induction false} WithoutPlayer(start: seq<byte>, s: set<nat>, p: nat, d: map<nat, Decommitment>)
    requires |start| == 32 && SizedOpenings(d) && p in s && s <= d.Keys
    ensures |XorSeeds(start, Sorted(s - {p}), d)| == 32
    ensures XorSeeds(start, Sorted(s), d) == XorSeed(XorSeeds(start, Sorted(s - {p}), d), d[p].seed)
    decreases |s|
  {
    var m := Min(s);
    FirstOfSorted(start, s, d);
    if m == p {
      XorSeedsShift(start, d[p].seed, Sorted(s - {p}), d);
    } else {
      MinWithout(s, p);
      FirstOfSorted(start, s - {p}, d);
      WithoutPlayer(XorSeed(start, d[m].seed), s - {m}, p, d);
    }
  }

  lemma {:induction false} FirstOfSorted(start: seq<byte>, s: set<nat>, d: map<nat, Decommitment>)
    requires |start| == 32 && SizedOpenings(d) && s != {} && s <= d.Keys
    ensures XorSeeds(start, Sorted(s), d) == XorSeeds(XorSeed(start, d[Min(s)].seed), Sorted(s - {Min(s)}), d)
  {
    SortedStep(s);
  }

  lemma {:induction false} MinWithout(s: set<nat>, p: nat)
    requires p in s && Min(s) != p
    ensures Min(s) in s - {p} && Min(s - {p}) == Min(s) && s - {p} - {Min(s)} == s - {Min(s)} - {p}
  {
    assert Min(s) in s - {p};
    assert IsMin(s - {p}, Min(s - {p})) && IsMin(s, Min(s));
  }

  /** The joint seed takes in every player's seed once, byte by byte, in whatever order; without players it is zero. */
  lemma {:induction false} JointSeedMeans(d: map<nat, Decommitment>, p: nat)
    requires SizedOpenings(d)
    ensures JointSeed(map[]) == seq<byte>(32, _ => 0)
    ensures p in d ==>
      && |JointSeed(d)| == |JointSeed(d - {p})| == 32
      && forall k | 0 <= k < 32 :: JointSeed(d)[k] == XorByte(JointSeed(d - {p})[k], d[p].seed[k])
  {
    assert Sorted({}) == [];
    if p in d {
      WithoutPlayer(Zeros32(), d.Keys, p, d);
      assert (d - {p}).Keys == d.Keys - {p};
      SameXorSeeds(Zeros32(), Sorted(d.Keys - {p}), d, d - {p});
    }
  }

  /** So every player's seed decides the joint one: changing it changes the result. */
  lemma {:induction false} SeedCounts(d: map<nat, Decommitment>, p: nat, other: Decommitment)
    requires SizedOpenings(d) && SizedOpening(other) && p in d && JointSeed(d[p := other]) == JointSeed(d)
    ensures other.seed == d[p].seed
  {
    var e := d[p := other];
    JointSeedMeans(d, p);
    JointSeedMeans(e, p);
    assert e - {p} == d - {p};
    var rest := JointSeed(d - {p});
    forall k | 0 <= k < 32 ensures other.seed[k] == d[p].seed[k] {
      assert XorByte(rest[k], other.seed[k]) == XorByte(rest[k], d[p].seed[k]);
      SameXor(rest[k], other.seed[k], d[p].seed[k]);
    }
  }

  lemma SameXor(a: byte, b: byte, b': byte)
    requires XorByte(a, b) == XorByte(a, b')
    ensures b == b'
  {
    XorCommutative(a, b);
    XorCommutative(a, b');
    XorCancel(b, a);
    XorCancel(b', a);
  }

  /** The joint key exists exactly when every share decodes. */
  lemma {:induction false} JointKeyDecodes(c: Context, start: Point, ids: seq<nat>, shares: map<nat, seq<byte>>)
    requires c.q > 0 && forall id | id in ids :: id in shares
    ensures SumShares(c, start, ids, shares).Some? <==> forall id | id in ids :: c.decode(shares[id]).Some?
    decreases |ids|
  {
    if ids != [] {
      var X := c.decode(shares[ids[0]]);
      if X.Some? {
        JointKeyDecodes(c, AddPoints(start, X.value, c.q), ids[1..], shares);
        assert ids == [ids[0]] + ids[1..];
      }
    }
  }

  lemma {:induction false} AcceptedKeys(c: Context, commitments: map<nat, Commitment>, decommitments: map<nat, Decommitment>)
    requires SizedMap(commitments) && Accepted(c, commitments, decommitments)
    ensures commitments.Keys == decommitments.Keys
  {
    assert commitments.Keys <= decommitments.Keys;
    assert |commitments.Keys| == |commitments| && |decommitments.Keys| == |decommitments|;
    SubsetOfSameSize(commitments.Keys, decommitments.Keys);
  }

  /** Two accepted sets of decommitments for the same commitments open to the same values. */
  lemma {:induction false} SameOpenings(c: Context, a: map<nat, Commitment>, da: map<nat, Decommitment>, db: map<nat, Decommitment>)
    requires CollisionFree(c) && SizedMap(a) && SizedOpenings(da) && SizedOpenings(db) && Accepted(c, a, da) && Accepted(c, a, db)
    ensures da.Keys == a.Keys && db.Keys == a.Keys && forall id | id in a :: SameOpening(da[id], db[id])
  {
    AcceptedKeys(c, a, da);
    AcceptedKeys(c, a, db);
    forall id | id in a ensures SameOpening(da[id], db[id]) {
      assert PassesAt(c, id, a, da, Ack(c, a)) && PassesAt(c, id, a, db, Ack(c, a));
      CommitmentBinds(c, id, a[id], da[id], db[id]);
    }
  }

  lemma {:induction false} SameResults(ids: set<nat>, da: map<nat, Decommitment>, db: map<nat, Decommitment>)
    requires SizedOpenings(da) && SizedOpenings(db) && da.Keys == ids && db.Keys == ids && forall id | id in ids :: SameOpening(da[id], db[id])
    ensures JointSeed(da) == JointSeed(db)
    ensures SharesOf(ids, da) == SharesOf(ids, db) && SchnorrRsOf(ids, da) == SchnorrRsOf(ids, db)
  {
    SameXorSeeds(Zeros32(), Sorted(ids), da, db);
  }

  /**
   Two players that both get through: if the second received the acknowledgement that the first one
   sent, they hold the same commitments, and for every player, honest or not, the same share, the
   same Schnorr point and the same seed. So they compute the same joint seed.
   */
  lemma {:induction false} Agreement(c: Context, a: map<nat, Commitment>, da: map<nat, Decommitment>,
                                     b: map<nat, Commitment>, db: map<nat, Decommitment>, first: nat)
    requires CollisionFree(c) && SizedMap(a) && SizedMap(b) && SizedOpenings(da) && SizedOpenings(db)
    requires Accepted(c, a, da) && Accepted(c, b, db)
    requires first in b && first in db && db[first].ack == Ack(c, a)
    ensures a == b && da.Keys == db.Keys == a.Keys
    ensures forall id | id in a :: SameOpening(da[id], db[id])
    ensures JointSeed(da) == JointSeed(db)
    ensures SharesOf(a.Keys, da) == SharesOf(a.Keys, db) && SchnorrRsOf(a.Keys, da) == SchnorrRsOf(a.Keys, db)
  {
    AckBinds(c, a, b);
    SameOpenings(c, a, da, db);
    SameResults(a.Keys, da, db);
  }

  /** ... and, once the shares of all players are there, the same public key. */
  lemma {:induction false} SamePublicKey(c: Context, a: map<nat, Commitment>, da: map<nat, Decommitment>,
                                         b: map<nat, Commitment>, db: map<nat, Decommitment>, first: nat)
    requires c.q > 0 && CollisionFree(c) && SizedMap(a) && SizedMap(b) && SizedOpenings(da) && SizedOpenings(db)
    requires Accepted(c, a, da) && Accepted(c, b, db) && a.Keys == c.players
    requires first in b && first in db && db[first].ack == Ack(c, a)
    ensures c.players <= SharesOf(a.Keys, da).Keys && c.players <= SharesOf(b.Keys, db).Keys
    ensures JointKey(c, SharesOf(a.Keys, da)) == JointKey(c, SharesOf(b.Keys, db))
  {
    Agreement(c, a, da, b, db, first);
  }
}
