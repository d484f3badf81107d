/**
 cmp_offline_refresh_service.cpp: the participants exchange pairwise seeds and shift their key
 shares and presignatures by pseudorandom values that cancel over all of them.
 Players are numbered 0, ..., n-1 in the order of their ids.
 */
module Refresh {
  import opened Modular
  import opened Wrappers
  import opened Curve
  import opened Sums
  import Presignature

  type Seed = seq<int>

  /** The suffix of the request id that a PRF is keyed with. */
  datatype Tag = TagX | TagK | TagChi

  /** A seeded PRF at an index, as a number. */
  type Prf = (Seed, Tag, nat) -> nat

  /** encrypted_seeds: what each participant sent to each other one, already decrypted. */
  type SeedTable = map<nat, map<nat, Seed>>

  // ----- The seeds a player works with -----

  /** The players other than me that take part, in order. */
  function Peers(n: nat, me: nat, participants: set<nat>): seq<nat> {
    if n == 0 then []
    else Peers(n - 1, me, participants) + if n - 1 in participants && n - 1 != me then [n - 1] else []
  }

  function Received(me: nat, table: SeedTable, j: nat): Seed {
    if j in table && me in table[j] then table[j][me] else []
  }

  function Sent(stored: map<nat, Seed>, j: nat): Seed {
    if j in stored then stored[j] else []
  }

  function ReceivedSeeds(me: nat, table: SeedTable, peers: seq<nat>): (r: seq<Seed>)
    ensures |r| == |peers|
    ensures forall t | 0 <= t < |r| :: r[t] == Received(me, table, peers[t])
  {
    if peers == [] then []
    else ReceivedSeeds(me, table, peers[..|peers| - 1]) + [Received(me, table, peers[|peers| - 1])]
  }

  function SentSeeds(stored: map<nat, Seed>, peers: seq<nat>): (r: seq<Seed>)
    ensures |r| == |peers|
    ensures forall t | 0 <= t < |r| :: r[t] == Sent(stored, peers[t])
  {
    if peers == [] then []
    else SentSeeds(stored, peers[..|peers| - 1]) + [Sent(stored, peers[|peers| - 1])]
  }

  /** One step for each pair of seeds, received and sent. */
  function Along(step: (int, nat, nat) -> int, value: Seed -> nat, start: int, others: seq<Seed>, mine: seq<Seed>, count: nat): int
    requires count <= |others| == |mine|
  {
    if count == 0 then start
    else step(Along(step, value, start, others, mine, count - 1), value(others[count - 1]), value(mine[count - 1]))
  }

  /** Adding the value of a seed received and subtracting that of a seed sent. */
  function Exchanged(q: int): (int, nat, nat) -> int
    requires q > 0
  {
    (v: int, a: nat, b: nat) => SubScalars(AddScalars(v, a, q), b, q)
  }

  function ValueAt(prf: Prf, tag: Tag, index: nat): Seed -> nat {
    (seed: Seed) => prf(seed, tag, index)
  }

  /** Adding the values of the seeds received and subtracting those of the seeds sent. */
  function Shift(start: int, others: seq<Seed>, mine: seq<Seed>, count: nat, prf: Prf, tag: Tag, index: nat, q: int): int
    requires q > 0 && count <= |others| == |mine|
  {
    Along(Exchanged(q), ValueAt(prf, tag, index), start, others, mine, count)
  }

  // ----- The steps of one player -----

  method ShiftAll(start: int, others: seq<Seed>, mine: seq<Seed>, prf: Prf, tag: Tag, index: nat, q: int) returns (value: int)
    requires q > 0 && |others| == |mine|
    ensures value == Shift(start, others, mine, |mine|, prf, tag, index, q)
  {
    value := start;
    var i := 0;
    while i != |mine|
      invariant 0 <= i <= |mine|
      invariant value == Shift(start, others, mine, i, prf, tag, index, q)
    {
      value := AddScalars(value, prf(others[i], tag, index), q);
      value := SubScalars(value, prf(mine[i], tag, index), q);
      i := i + 1;
    }
  }

  /** cmp_signature_preprocessed_data */
  class Preprocessed {
    var k: int
    var chi: int
    const R: Point

    constructor (k: int, chi: int, R: Point)
      ensures this.k == k && this.chi == chi && this.R == R
    {
      this.k, this.chi, this.R := k, chi, R;
    }

    /** The transformation of one stored presignature. */
    method Transform(x: int, newX: int, others: seq<Seed>, mine: seq<Seed>, prf: Prf, index: nat, q: int)
      requires q > 0 && |others| == |mine|
      modifies this
      ensures k == Shift(old(k), others, mine, |mine|, prf, TagK, index, q)
      ensures chi == NewChi(old(k), x, old(chi), k, newX, others, mine, prf, index, q)
      ensures Cong(k, old(k) + Sum(|mine|, (t: nat) =>
        if t < |others| && t < |mine| then prf(others[t], TagK, index) - prf(mine[t], TagK, index) else 0), q)
      ensures Cong(chi, old(chi) + old(k) * x - k * newX + Sum(|mine|, (t: nat) =>
        if t < |others| && t < |mine| then prf(others[t], TagChi, index) - prf(mine[t], TagChi, index) else 0), q)
    {
      AlongCong(k, others, mine, |mine|, prf, TagK, index, q, (t: nat) =>
        if t < |others| && t < |mine| then prf(others[t], TagK, index) - prf(mine[t], TagK, index) else 0);
      var newK := ShiftAll(k, others, mine, prf, TagK, index, q);
      var product := MulMod(k, x, q);
      var newChi := AddScalars(chi, product, q);
      product := MulMod(newK, newX, q);
      newChi := SubScalars(newChi, product, q);
      AlongCong(newChi, others, mine, |mine|, prf, TagChi, index, q, (t: nat) =>
        if t < |others| && t < |mine| then prf(others[t], TagChi, index) - prf(mine[t], TagChi, index) else 0);
      MovedAlong(k, x, chi, newK, newX, Sum(|mine|, (t: nat) =>
        if t < |others| && t < |mine| then prf(others[t], TagChi, index) - prf(mine[t], TagChi, index) else 0), q);
      newChi := ShiftAll(newChi, others, mine, prf, TagChi, index, q);
      chi := newChi;
      k := newK;
    }
  }

  /** chi after the own product is taken in with the old and out with the new factors. */
  function Moved(k: int, x: int, chi: int, newK: int, newX: int, q: int): int
    requires q > 0
  {
    SubScalars(AddScalars(chi, MulMod(k, x, q), q), MulMod(newK, newX, q), q)
  }

  function NewChi(k: int, x: int, chi: int, newK: int, newX: int, others: seq<Seed>, mine: seq<Seed>, prf: Prf, index: nat, q: int): int
    requires q > 0 && |others| == |mine|
  {
    Shift(Moved(k, x, chi, newK, newX, q), others, mine, |mine|, prf, TagChi, index, q)
  }

  /** The conditions under which a refresh goes through for player me. */
  /** A shift adds the values of the seeds received and subtracts those of the seeds sent. */
  lemma {:induction false} AlongCong(start: int, others: seq<Seed>, mine: seq<Seed>, count: nat, prf: Prf, tag: Tag, index: nat, q: int, gain: nat -> int)
    requires q > 0 && count <= |others| == |mine|
    requires forall t: nat | t < count :: gain(t) == prf(others[t], tag, index) - prf(mine[t], tag, index)
    ensures Cong(Shift(start, others, mine, count, prf, tag, index, q), start + Sum(count, gain), q)
  {
    if count > 0 {
      AlongCong(start, others, mine, count - 1, prf, tag, index, q, gain);
      ShiftStep(Shift(start, others, mine, count - 1, prf, tag, index, q), start + Sum(count - 1, gain),
                prf(others[count - 1], tag, index), prf(mine[count - 1], tag, index), q);
    }
  }

  lemma MovedAlong(k: int, x: int, chi: int, newK: int, newX: int, sum: int, q: int)
    requires q > 0
    ensures Cong(Moved(k, x, chi, newK, newX, q) + sum, chi + k * x - newK * newX + sum, q)
  {
    CongMod(k * x, q);
    CongMod(newK * newX, q);
    AddCong(chi, chi, MulMod(k, x, q), k * x, q);
    SubCong(AddScalars(chi, MulMod(k, x, q), q), chi + k * x, MulMod(newK, newX, q), newK * newX, q);
    CongAdd(Moved(k, x, chi, newK, newX, q), chi + k * x - newK * newX, sum, sum, q);
  }

  predicate Acceptable(n: nat, me: nat, table: SeedTable, stored: map<nat, Seed>) {
    && |table| <= n
    && (forall j | j in table :: j < n)
    && forall j | j in table && j != me && j < n :: Usable(me, table, stored, j)
  }

  /** Player j sent a seed of the right length and was sent one. */
  predicate Usable(me: nat, table: SeedTable, stored: map<nat, Seed>, j: nat) {
    j in table && me in table[j] && |table[j][me]| == 32 && j in stored
  }

  /** The seeds received from and sent to the other participants. */
  /** Which participants refresh_key goes ahead with. */
  lemma AcceptableMeans(n: nat, me: nat, table: SeedTable, stored: map<nat, Seed>)
    ensures Acceptable(n, me, table, stored) <==>
      && |table| <= n && (forall j | j in table :: j < n)
      && forall j | j in table && j != me :: me in table[j] && |table[j][me]| == 32 && j in stored
  {
    if forall j | j in table && j != me && j < n :: Usable(me, table, stored, j) {
      forall j | j in table && j != me && j < n ensures me in table[j] && |table[j][me]| == 32 && j in stored {
        assert Usable(me, table, stored, j);
      }
    }
  }

  method CollectSeeds(n: nat, me: nat, table: SeedTable, stored: map<nat, Seed>) returns (result: Result<(seq<Seed>, seq<Seed>)>)
    ensures result.Success? <==> forall j | j in table && j != me && j < n :: Usable(me, table, stored, j)
    ensures result.Success? ==>
      var peers := Peers(n, me, table.Keys);
      result.value == (ReceivedSeeds(me, table, peers), SentSeeds(stored, peers))
  {
    ghost var peers: seq<nat> := [];
    var others, mine: seq<Seed> := [], [];
    var j := 0;
    while j < n
      invariant 0 <= j <= n
      invariant peers == Peers(j, me, table.Keys)
      invariant others == ReceivedSeeds(me, table, peers) && mine == SentSeeds(stored, peers)
      invariant forall i | i in table && i != me && i < j :: Usable(me, table, stored, i)
    {
      if j in table && j != me {
        if me !in table[j] || |table[j][me]| != 32 { return Failure(InvalidParameter); }
        if j !in stored { return Failure(GeneralError); }
        SeedsExtend(me, table, stored, peers, j);
        others := others + [table[j][me]];
        mine := mine + [stored[j]];
        peers := peers + [j];
      }
      j := j + 1;
    }
    return Success((others, mine));
  }

  lemma {:induction false} SeedsExtend(me: nat, table: SeedTable, stored: map<nat, Seed>, peers: seq<nat>, j: nat)
    ensures ReceivedSeeds(me, table, peers + [j]) == ReceivedSeeds(me, table, peers) + [Received(me, table, j)]
    ensures SentSeeds(stored, peers + [j]) == SentSeeds(stored, peers) + [Sent(stored, j)]
  {
    assert (peers + [j])[..|peers|] == peers;
  }

  /** refresh_key: the new key share and the seeds for the presignatures. */
  method RefreshKey(n: nat, me: nat, table: SeedTable, stored: map<nat, Seed>, x: int, prf: Prf, q: int)
    returns (result: Result<(int, seq<Seed>, seq<Seed>)>)
    requires q > 0
    ensures result.Success? <==> Acceptable(n, me, table, stored)
    ensures result.Success? ==>
      var peers := Peers(n, me, table.Keys);
      var others, mine := ReceivedSeeds(me, table, peers), SentSeeds(stored, peers);
      result.value == (Shift(x, others, mine, |mine|, prf, TagX, 0, q), others, mine)
  {
    if |table| > n { return Failure(InvalidParameter); }
    if exists j | j in table :: j >= n { return Failure(InvalidParameter); }
    var seeds := CollectSeeds(n, me, table, stored);
    if seeds.Failure? { return Failure(seeds.error); }
    var (others, mine) := seeds.value;
    var newX := ShiftAll(x, others, mine, prf, TagX, 0, q);
    return Success((newX, others, mine));
  }

  // ----- What a shift amounts to -----

  /** What player me gains from player j. */
  function Gain(me: nat, table: SeedTable, stored: map<nat, Seed>, prf: Prf, tag: Tag, index: nat): nat -> int {
    (j: nat) =>
      if j in table then prf(Received(me, table, j), tag, index) - prf(Sent(stored, j), tag, index) else 0
  }

  /** The steps of player me, player by player instead of along its lists of seeds. */
  function ByPlayer(step: (int, nat, nat) -> int, value: Seed -> nat, start: int, n: nat, me: nat, table: SeedTable, stored: map<nat, Seed>): int {
    if n == 0 then start
    else
      var before := ByPlayer(step, value, start, n - 1, me, table, stored);
      if n - 1 in table && n - 1 != me then step(before, value(Received(me, table, n - 1)), value(Sent(stored, n - 1))) else before
  }

  function ShiftBy(start: int, n: nat, me: nat, table: SeedTable, stored: map<nat, Seed>, prf: Prf, tag: Tag, index: nat, q: int): int
    requires q > 0
  {
    ByPlayer(Exchanged(q), ValueAt(prf, tag, index), start, n, me, table, stored)
  }

  lemma {:induction false} AlongExtend(step: (int, nat, nat) -> int, value: Seed -> nat, start: int,
                                       others: seq<Seed>, mine: seq<Seed>, o: Seed, m: Seed, count: nat)
    requires count <= |others| == |mine|
    ensures Along(step, value, start, others + [o], mine + [m], count) == Along(step, value, start, others, mine, count)
  {
    if count > 0 { AlongExtend(step, value, start, others, mine, o, m, count - 1); }
  }

  lemma {:induction false} AlongStep(step: (int, nat, nat) -> int, value: Seed -> nat, start: int,
                                     others: seq<Seed>, mine: seq<Seed>, o: Seed, m: Seed)
    requires |others| == |mine|
    ensures Along(step, value, start, others + [o], mine + [m], |others| + 1)
         == step(Along(step, value, start, others, mine, |others|), value(o), value(m))
  {
    AlongExtend(step, value, start, others, mine, o, m, |others|);
  }

  function AlongPeers(step: (int, nat, nat) -> int, value: Seed -> nat, start: int, n: nat, me: nat, table: SeedTable, stored: map<nat, Seed>): int {
    var peers := Peers(n, me, table.Keys);
    Along(step, value, start, ReceivedSeeds(me, table, peers), SentSeeds(stored, peers), |peers|)
  }

  lemma {:induction false} AlongPeersStep(step: (int, nat, nat) -> int, value: Seed -> nat, start: int, n: nat, me: nat,
                                          table: SeedTable, stored: map<nat, Seed>)
    requires n in table && n != me
    ensures AlongPeers(step, value, start, n + 1, me, table, stored)
         == step(AlongPeers(step, value, start, n, me, table, stored), value(Received(me, table, n)), value(Sent(stored, n)))
  {
    var peers := Peers(n, me, table.Keys);
    assert Peers(n + 1, me, table.Keys) == peers + [n];
    SeedsExtend(me, table, stored, peers, n);
    AlongStep(step, value, start, ReceivedSeeds(me, table, peers), SentSeeds(stored, peers), Received(me, table, n), Sent(stored, n));
  }

  /** Both ways of going through the participants come to the same. */
  lemma {:induction false} ByPlayerIsAlong(step: (int, nat, nat) -> int, value: Seed -> nat, start: int, n: nat, me: nat,
                                           table: SeedTable, stored: map<nat, Seed>)
    ensures AlongPeers(step, value, start, n, me, table, stored) == ByPlayer(step, value, start, n, me, table, stored)
  {
    if n > 0 {
      ByPlayerIsAlong(step, value, start, n - 1, me, table, stored);
      if n - 1 in table && n - 1 != me {
        AlongPeersStep(step, value, start, n - 1, me, table, stored);
      } else {
        assert Peers(n, me, table.Keys) == Peers(n - 1, me, table.Keys);
      }
    }
  }

  lemma {:induction false} ShiftStep(value: int, expected: int, a: int, b: int, q: int)
    requires q > 0 && Cong(value, expected, q)
    ensures Cong(SubScalars(AddScalars(value, a, q), b, q), expected + (a - b), q)
  {
    AddCong(value, expected, a, a, q);
    SubCong(AddScalars(value, a, q), expected + a, b, b, q);
  }

  /** What refresh_key does to the key share, in terms of the seeds in the table and in store. */
  lemma {:induction false} KeyMoves(n: nat, me: nat, table: SeedTable, stored: map<nat, Seed>, x: int, prf: Prf, q: int, gain: nat -> int)
    requires q > 0
    requires forall j: nat | j in table && j != me :: me in table[j] && j in stored
    requires forall j: nat | j in table && j != me :: gain(j) == prf(table[j][me], TagX, 0) - prf(stored[j], TagX, 0)
    requires forall j: nat | j !in table :: gain(j) == 0
    ensures
      var peers := Peers(n, me, table.Keys);
      Cong(Shift(x, ReceivedSeeds(me, table, peers), SentSeeds(stored, peers), |peers|, prf, TagX, 0, q), x + Others(n, me, gain), q)
  {
    ByPlayerIsAlong(Exchanged(q), ValueAt(prf, TagX, 0), x, n, me, table, stored);
    ShiftCong(x, n, me, table, stored, prf, TagX, 0, q);
    forall j: nat | j < n && j != me ensures Gain(me, table, stored, prf, TagX, 0)(j) == gain(j) {
      if j in table { assert gain(j) == prf(Received(me, table, j), TagX, 0) - prf(Sent(stored, j), TagX, 0); }
    }
    OthersEqual(n, me, Gain(me, table, stored, prf, TagX, 0), gain);
  }

  /** A shift adds what the player gains from the others. */
  lemma {:induction false} ShiftCong(start: int, n: nat, me: nat, table: SeedTable, stored: map<nat, Seed>, prf: Prf, tag: Tag, index: nat, q: int)
    requires q > 0
    ensures Cong(ShiftBy(start, n, me, table, stored, prf, tag, index, q), start + Others(n, me, Gain(me, table, stored, prf, tag, index)), q)
  {
    if n > 0 {
      ShiftCong(start, n - 1, me, table, stored, prf, tag, index, q);
      if n - 1 in table && n - 1 != me {
        ShiftStep(ShiftBy(start, n - 1, me, table, stored, prf, tag, index, q),
                  start + Others(n - 1, me, Gain(me, table, stored, prf, tag, index)),
                  prf(Received(me, table, n - 1), tag, index), prf(Sent(stored, n - 1), tag, index), q);
      }
    }
  }

  // ----- Over all players -----

  /** One refresh, seen from outside: what everybody sent and stored, and the presignature index. */
  datatype Round = Round(q: int, n: nat, table: SeedTable, stored: nat -> map<nat, Seed>, prf: Prf, index: nat)

  /** Everybody received what everybody else stored. */
  ghost predicate Delivered(c: Round) {
    && c.q > 1
    && forall i, j | i in c.table && j in c.table && i != j ::
      i < c.n && j < c.n && Received(i, c.table, j) == Sent(c.stored(j), i)
  }

  /** Every player's change, row by row; a player outside the exchange has none. */
  function Exchange(c: Round, tag: Tag, index: nat): (nat, nat) -> int {
    (i: nat, j: nat) => if i in c.table && i != j then Gain(i, c.table, c.stored(i), c.prf, tag, index)(j) else 0
  }

  function Incoming(c: Round, tag: Tag, index: nat): (nat, nat) -> int {
    (i: nat, j: nat) => if i in c.table && j in c.table && i != j then c.prf(Received(i, c.table, j), tag, index) else 0
  }

  lemma {:induction false} ExchangeEntry(c: Round, tag: Tag, index: nat, i: nat, j: nat)
    requires Delivered(c)
    ensures Incoming(c, tag, index)(i, j) == Exchange(c, tag, index)(i, j) + Flip(Incoming(c, tag, index))(i, j)
  {
    var gain := Gain(i, c.table, c.stored(i), c.prf, tag, index);
    if i in c.table && i != j {
      assert Exchange(c, tag, index)(i, j) == gain(j);
      if j in c.table {
        assert Received(j, c.table, i) == Sent(c.stored(i), j);
      }
    }
  }

  /** The changes of all players cancel. */
  lemma {:induction false} ExchangeCancels(c: Round, tag: Tag, index: nat)
    requires Delivered(c)
    ensures Total(c.n, Exchange(c, tag, index)) == 0
  {
    var incoming := Incoming(c, tag, index);
    TotalFlip(c.n, incoming);
    forall i: nat, j: nat | i < c.n && j < c.n ensures incoming(i, j) == Exchange(c, tag, index)(i, j) + Flip(incoming)(i, j) {
      ExchangeEntry(c, tag, index, i, j);
    }
    TotalPlus(c.n, Exchange(c, tag, index), Flip(incoming), incoming);
  }

  function Change(c: Round, tag: Tag, index: nat): nat -> int {
    RowSums(c.n, Exchange(c, tag, index))
  }

  lemma {:induction false} ShiftByChange(c: Round, tag: Tag, index: nat, i: nat, start: int)
    requires c.q > 0 && i in c.table
    ensures Cong(ShiftBy(start, c.n, i, c.table, c.stored(i), c.prf, tag, index, c.q), start + Change(c, tag, index)(i), c.q)
  {
    var gain := Gain(i, c.table, c.stored(i), c.prf, tag, index);
    ShiftCong(start, c.n, i, c.table, c.stored(i), c.prf, tag, index, c.q);
    OthersAsSum(c.n, i, gain, Row(Exchange(c, tag, index), i));
  }

  lemma {:induction false} OutsiderUnchanged(c: Round, tag: Tag, index: nat, i: nat)
    requires i !in c.table
    ensures Change(c, tag, index)(i) == 0
  {
    SumZero(c.n, Row(Exchange(c, tag, index), i));
  }

  /** v with every participant's entry shifted. */
  function Shifted(c: Round, tag: Tag, index: nat, v: nat -> int): nat -> int
    requires c.q > 0
  {
    (i: nat) => if i in c.table then ShiftBy(v(i), c.n, i, c.table, c.stored(i), c.prf, tag, index, c.q) else v(i)
  }

  function Keys(c: Round, x: nat -> int): nat -> int
    requires c.q > 0
  {
    Shifted(c, TagX, 0, x)
  }

  function Ks(c: Round, k: nat -> int): nat -> int
    requires c.q > 0
  {
    Shifted(c, TagK, c.index, k)
  }

  function Chis(c: Round, k: nat -> int, x: nat -> int, chi: nat -> int): nat -> int
    requires c.q > 0
  {
    (i: nat) =>
      if i in c.table then
        var peers := Peers(c.n, i, c.table.Keys);
        NewChi(k(i), x(i), chi(i), Ks(c, k)(i), Keys(c, x)(i),
               ReceivedSeeds(i, c.table, peers), SentSeeds(c.stored(i), peers), c.prf, c.index, c.q)
      else chi(i)
  }

  /** Values that each move by the player's change keep their sum. */
  lemma {:induction false} ChangeKeepsSum(c: Round, tag: Tag, index: nat, v: nat -> int, w: nat -> int)
    requires Delivered(c) && forall i: nat | i < c.n :: Cong(w(i), v(i) + Change(c, tag, index)(i), c.q)
    ensures Cong(Sum(c.n, w), Sum(c.n, v), c.q)
  {
    var change := Change(c, tag, index);
    var moved := (i: nat) => v(i) + change(i);
    SumCong(c.n, w, moved, c.q);
    SumPlus(c.n, v, change, moved);
    ExchangeCancels(c, tag, index);
  }

  lemma {:induction false} ShiftedSum(c: Round, tag: Tag, index: nat, v: nat -> int)
    requires Delivered(c)
    ensures Cong(Sum(c.n, Shifted(c, tag, index, v)), Sum(c.n, v), c.q)
  {
    forall i: nat | i < c.n ensures Cong(Shifted(c, tag, index, v)(i), v(i) + Change(c, tag, index)(i), c.q) {
      if i in c.table { ShiftByChange(c, tag, index, i, v(i)); } else { OutsiderUnchanged(c, tag, index, i); }
    }
    ChangeKeepsSum(c, tag, index, v, Shifted(c, tag, index, v));
  }

  lemma MovedCong(k: int, x: int, chi: int, newK: int, newX: int, q: int)
    requires q > 0
    ensures Cong(newK * newX + Moved(k, x, chi, newK, newX, q), k * x + chi, q)
  {
    var product, newProduct := k * x, newK * newX;
    CongMod(product, q);
    CongMod(newProduct, q);
    AddCong(chi, chi, product % q, product, q);
    SubCong(AddScalars(chi, product % q, q), chi + product, newProduct % q, newProduct, q);
    CongAdd(newProduct, newProduct, Moved(k, x, chi, newK, newX, q), chi + product - newProduct, q);
  }

  lemma ShareMoves(k: int, x: int, chi: int, newK: int, newX: int, newChi: int, change: int, q: int)
    requires q > 0 && Cong(newChi, Moved(k, x, chi, newK, newX, q) + change, q)
    ensures Cong(newK * newX + newChi, k * x + chi + change, q)
  {
    MovedCong(k, x, chi, newK, newX, q);
    var product, moved := newK * newX, Moved(k, x, chi, newK, newX, q);
    CongAdd(product, product, newChi, moved + change, q);
    CongAdd(product + moved, k * x + chi, change, change, q);
  }

  /** A participant's new chi, as a shift of the moved one. */
  lemma {:induction false} ChiIsShifted(c: Round, k: nat -> int, x: nat -> int, chi: nat -> int, i: nat)
    requires c.q > 0 && i in c.table
    ensures Chis(c, k, x, chi)(i) ==
      ShiftBy(Moved(k(i), x(i), chi(i), Ks(c, k)(i), Keys(c, x)(i), c.q), c.n, i, c.table, c.stored(i), c.prf, TagChi, c.index, c.q)
  {
    ByPlayerIsAlong(Exchanged(c.q), ValueAt(c.prf, TagChi, c.index), Moved(k(i), x(i), chi(i), Ks(c, k)(i), Keys(c, x)(i), c.q),
                    c.n, i, c.table, c.stored(i));
  }

  lemma {:induction false} RefreshedShare(c: Round, k: nat -> int, x: nat -> int, chi: nat -> int, i: nat)
    requires c.q > 0
    ensures Cong(Presignature.Shares(Ks(c, k), Keys(c, x), Chis(c, k, x, chi))(i),
                 Presignature.Shares(k, x, chi)(i) + Change(c, TagChi, c.index)(i), c.q)
  {
    if i in c.table {
      RefreshedParticipant(c, k, x, chi, i);
    } else {
      OutsiderUnchanged(c, TagChi, c.index, i);
    }
  }

  lemma {:induction false} RefreshedParticipant(c: Round, k: nat -> int, x: nat -> int, chi: nat -> int, i: nat)
    requires c.q > 0 && i in c.table
    ensures Cong(Ks(c, k)(i) * Keys(c, x)(i) + Chis(c, k, x, chi)(i), k(i) * x(i) + chi(i) + Change(c, TagChi, c.index)(i), c.q)
  {
    var newK, newX := Ks(c, k)(i), Keys(c, x)(i);
    ChiIsShifted(c, k, x, chi, i);
    ShiftByChange(c, TagChi, c.index, i, Moved(k(i), x(i), chi(i), newK, newX, c.q));
    ShareMoves(k(i), x(i), chi(i), newK, newX, Chis(c, k, x, chi)(i), Change(c, TagChi, c.index)(i), c.q);
  }

  /** A presignature that was good stays good with its old R, whoever took part in the refresh; the joint key and joint k stay. */
  lemma {:induction false} RefreshKeepsGood(c: Round, k: nat -> int, x: nat -> int, chi: nat -> int, R: Point)
    requires Delivered(c) && Presignature.Good(c.q, c.n, k, x, chi, R)
    ensures Presignature.Good(c.q, c.n, Ks(c, k), Keys(c, x), Chis(c, k, x, chi), R)
    ensures Cong(Sum(c.n, Keys(c, x)), Sum(c.n, x), c.q) && Cong(Sum(c.n, Ks(c, k)), Sum(c.n, k), c.q)
  {
    var k', x', chi' := Ks(c, k), Keys(c, x), Chis(c, k, x, chi);
    ShiftedSum(c, TagK, c.index, k);
    ShiftedSum(c, TagX, 0, x);
    forall i: nat | i < c.n
      ensures Cong(Presignature.Shares(k', x', chi')(i), Presignature.Shares(k, x, chi)(i) + Change(c, TagChi, c.index)(i), c.q)
    {
      RefreshedShare(c, k, x, chi, i);
    }
    ChangeKeepsSum(c, TagChi, c.index, Presignature.Shares(k, x, chi), Presignature.Shares(k', x', chi'));
    CongMul(Sum(c.n, k'), Sum(c.n, k), Sum(c.n, x'), Sum(c.n, x), c.q);
    CongMul(R.log, R.log, Sum(c.n, k'), Sum(c.n, k), c.q);
  }
}
