/** cmp_setup_service.cpp: add_user_request and add_user, by which the holders of a key share it out to new players. */
module AddUser {
  import opened Modular
  import opened Wrappers
  import opened Curve
  import opened Sums
  import opened KeyStore
  import Bytes
  import Setup

  /** add_user_data: the public key and the shares for the new players, decrypted. */
  datatype NewShares = NewShares(publicKey: Point, shares: map<nat, int>)

  predicate Distinct(ids: seq<nat>) {
    forall i, j | 0 <= i < j < |ids| :: ids[i] != ids[j]
  }

  /** The share left over after n random ones. */
  function LastShare(x: int, draws: seq<int>, n: nat, q: int): int
    requires q > 0 && n <= |draws|
  {
    if n == 0 then x else SubScalars(LastShare(x, draws, n - 1, q), draws[n - 1], q)
  }

  /** The first n players get the drawn scalars. */
  function DrawnShares(ids: seq<nat>, draws: seq<int>, n: nat): map<nat, int>
    requires n <= |draws| && n <= |ids|
  {
    if n == 0 then map[] else DrawnShares(ids, draws, n - 1)[ids[n - 1] := draws[n - 1]]
  }

  /** The shares of one holder for all new players. */
  function SplitKey(x: int, ids: seq<nat>, draws: seq<int>, q: int): map<nat, int>
    requires q > 0 && |ids| == |draws| + 1
  {
    DrawnShares(ids, draws, |draws|)[ids[|ids| - 1] := LastShare(x, draws, |draws|, q)]
  }

  /** A stored key: its metadata, the public key and the own share. */
  datatype StoredKey = StoredKey(metadata: Metadata, publicKey: Point, x: int)

  /** The old key is there and the new one is not. */
  predicate Replaceable(store: map<nat, StoredKey>, keyId: nat, newKeyId: nat) {
    keyId in store && newKeyId !in store
  }

  /** The algorithm is that of the key, and nobody holds the key already. */
  predicate NewPlayers(key: StoredKey, algorithm: int, ids: seq<nat>) {
    key.metadata.algorithm == algorithm && forall i | 0 <= i < |ids| :: ids[i] !in key.metadata.players
  }

  /** add_user_request; t is a uint8_t and is compared with the number of players cut to one. */
  method AddUserRequest(store: map<nat, StoredKey>, keyId: nat, newKeyId: nat, algorithm: int, ids: seq<nat>, t: nat, draws: seq<int>, q: int)
    returns (result: Result<NewShares>)
    requires q > 0 && t < 256 && |ids| <= |draws| + 1
    ensures result.Success? <==>
      Distinct(ids) && t == |ids| && t > 1 && Replaceable(store, keyId, newKeyId) && NewPlayers(store[keyId], algorithm, ids)
    ensures result.Success? ==> keyId in store && newKeyId !in store && store[keyId].metadata.algorithm == algorithm
    ensures result.Success? ==> forall i, j | 0 <= i < |ids| && 0 <= j < |ids| && ids[i] == ids[j] :: i == j
    ensures result.Success? ==> forall i | 0 <= i < |ids| :: ids[i] !in store[keyId].metadata.players
    ensures result.Failure? ==>
      result.error == if Distinct(ids) && t == |ids| % 256 && !Replaceable(store, keyId, newKeyId) then BadKey else InvalidParameter
    ensures result.Success? ==>
      result.value == NewShares(store[keyId].publicKey, SplitKey(store[keyId].x, ids, draws[..|ids| - 1], q))
  {
    if exists i, j | 0 <= i < |ids| && 0 <= j < |ids| :: i < j && ids[i] == ids[j] { return Failure(InvalidParameter); }
    var n := |ids| % 256;
    if t != n { return Failure(InvalidParameter); }
    if keyId !in store || newKeyId in store { return Failure(BadKey); }
    if t <= 1 || t > |ids| { return Failure(InvalidParameter); }
    if |ids| > 255 { return Failure(InvalidParameter); }
    var key := store[keyId];
    if key.metadata.algorithm != algorithm { return Failure(InvalidParameter); }
    if exists i | 0 <= i < |ids| :: ids[i] in key.metadata.players { return Failure(InvalidParameter); }
    var last, shares := key.x, map[];
    var i := 0;
    while i < n - 1
      invariant 0 <= i <= n - 1
      invariant last == LastShare(key.x, draws[..n - 1], i, q) && shares == DrawnShares(ids, draws[..n - 1], i)
    {
      last := SubScalars(last, draws[i], q);
      shares := shares[ids[i] := draws[i]];
      i := i + 1;
    }
    shares := shares[ids[n - 1] := last];
    return Success(NewShares(key.publicKey, shares));
  }

  /** Every player but the last gets the number drawn for it, and the last one what is left of the key. */
  lemma {:induction false} SplitMeans(x: int, ids: seq<nat>, draws: seq<int>, q: int, f: nat -> int)
    requires q > 0 && |ids| == |draws| + 1 && Distinct(ids) && forall i: nat | i < |draws| :: f(i) == draws[i]
    ensures var shares := SplitKey(x, ids, draws, q);
      && (forall i | 0 <= i < |ids| :: ids[i] in shares)
      && (forall i | 0 <= i < |draws| :: shares[ids[i]] == draws[i])
      && Cong(shares[ids[|draws|]], x - Sum(|draws|, f), q)
  {
    forall i | 0 <= i < |draws| ensures ids[i] in DrawnShares(ids, draws, |draws|) && DrawnShares(ids, draws, |draws|)[ids[i]] == draws[i] {
      DrawnAt(ids, draws, |draws|, i);
    }
    LeftOver(x, draws, |draws|, q, f);
  }

  lemma {:induction false} DrawnAt(ids: seq<nat>, draws: seq<int>, n: nat, i: nat)
    requires i < n <= |draws| && n <= |ids| && Distinct(ids)
    ensures ids[i] in DrawnShares(ids, draws, n) && DrawnShares(ids, draws, n)[ids[i]] == draws[i]
  {
    if i < n - 1 { DrawnAt(ids, draws, n - 1, i); }
  }

  lemma {:induction false} LeftOver(x: int, draws: seq<int>, n: nat, q: int, f: nat -> int)
    requires q > 0 && n <= |draws| && forall i: nat | i < n :: f(i) == draws[i]
    ensures Cong(LastShare(x, draws, n, q), x - Sum(n, f), q)
  {
    if n > 0 {
      LeftOver(x, draws, n - 1, q, f);
      SubCong(LastShare(x, draws, n - 1, q), x - Sum(n - 1, f), draws[n - 1], draws[n - 1], q);
    }
  }

  /** The key of a new player: the sum of what the first n holders sent. */
  function NewKey(data: seq<NewShares>, me: nat, n: nat, q: int): int
    requires q > 0 && n <= |data| && forall i | 0 <= i < n :: me in data[i].shares
  {
    if n == 0 then 0 else AddScalars(NewKey(data, me, n - 1, q), data[n - 1].shares[me], q)
  }

  lemma {:induction false} NewKeyMeans(data: seq<NewShares>, me: nat, n: nat, q: int, f: nat -> int)
    requires q > 0 && n <= |data| && forall i: nat | i < n :: me in data[i].shares && f(i) == data[i].shares[me]
    ensures Cong(NewKey(data, me, n, q), Sum(n, f), q)
  {
    if n > 0 {
      NewKeyMeans(data, me, n - 1, q, f);
      AddCong(NewKey(data, me, n - 1, q), Sum(n - 1, f), f(n - 1), f(n - 1), q);
    }
  }

  /** All holders sent shares for the same players, me among them, and the same public key. */
  predicate Consistent(data: seq<NewShares>, me: nat) {
    && data != []
    && forall i | 0 <= i < |data| ::
      && data[i].publicKey == data[0].publicKey && data[i].shares.Keys == data[0].shares.Keys && me in data[i].shares
  }

  /** add_user, up to the commitments: the new key share and the public key to check it against. */
  method AddUser(store: map<nat, StoredKey>, keyId: nat, me: nat, data: seq<NewShares>, t: nat, q: int) returns (result: Result<(int, Point)>)
    requires q > 0
    ensures result.Success? <==> Consistent(data, me) && t == |data[0].shares| && 2 <= t <= 255 && keyId !in store
    ensures result.Success? ==> data != [] && forall i | 0 <= i < |data| ::
      && data[i].publicKey == data[0].publicKey && me in data[i].shares
      && forall id :: id in data[i].shares <==> id in data[0].shares
    ensures result.Failure? && keyId !in store ==> result.error == InvalidParameter
    ensures keyId in store && Consistent(data, me) && t == |data[0].shares| && 2 <= t <= 255 ==> result == Failure(BadKey)
    ensures result.Success? ==> result.value == (NewKey(data, me, |data|, q), data[0].publicKey)
  {
    if |data| == 0 { return Failure(InvalidParameter); }
    var n := |data[0].shares|;
    var i := 0;
    while i < |data|
      invariant 0 <= i <= |data|
      invariant forall j | 0 <= j < i :: |data[j].shares| == n
    {
      if n != |data[i].shares| { return Failure(InvalidParameter); }
      i := i + 1;
    }
    if n == 0 || t == 0 || t > n || n > 255 || n <= 1 { return Failure(InvalidParameter); }
    if t != n { return Failure(InvalidParameter); }
    if keyId in store { return Failure(BadKey); }
    var key := 0;
    i := 0;
    while i < |data|
      invariant 0 <= i <= |data|
      invariant forall j | 0 <= j < i ::
        data[j].publicKey == data[0].publicKey && data[j].shares.Keys == data[0].shares.Keys && me in data[j].shares
      invariant key == NewKey(data, me, i, q)
    {
      if data[i].publicKey != data[0].publicKey { return Failure(InvalidParameter); }
      if exists id | id in data[i].shares :: id !in data[0].shares { return Failure(InvalidParameter); }
      SameKeys(data[i].shares, data[0].shares);
      if me !in data[i].shares { return Failure(InvalidParameter); }
      key := AddScalars(key, data[i].shares[me], q);
      i := i + 1;
    }
    return Success((key, data[0].publicKey));
  }

  lemma SameKeys(a: map<nat, int>, b: map<nat, int>)
    requires |a| == |b| && forall id | id in a :: id in b
    ensures a.Keys == b.Keys
  {
    assert |a.Keys| == |a| && |b.Keys| == |b|;
    Setup.SubsetOfSameSize(a.Keys, b.Keys);
  }

  // ----- The shares of one holder add up to its key -----

  function SumOver(ids: seq<nat>, f: map<nat, int>): int
    requires forall id | id in ids :: id in f
  {
    if ids == [] then 0 else f[ids[0]] + SumOver(ids[1..], f)
  }

  lemma {:induction false} SumOverConcat(a: seq<nat>, b: seq<nat>, f: map<nat, int>)
    requires (forall id | id in a :: id in f) && (forall id | id in b :: id in f)
    ensures forall id | id in a + b :: id in f
    ensures SumOver(a + b, f) == SumOver(a, f) + SumOver(b, f)
  {
    if a == [] {
      assert a + b == b;
    } else {
      assert (a + b)[1..] == a[1..] + b;
      SumOverConcat(a[1..], b, f);
    }
  }

  lemma {:induction false} SumOverUpdate(ids: seq<nat>, f: map<nat, int>, id: nat, v: int)
    requires id !in ids && forall i | i in ids :: i in f
    ensures SumOver(ids, f[id := v]) == SumOver(ids, f)
  {
    if ids != [] { SumOverUpdate(ids[1..], f, id, v); }
  }

  lemma {:induction false} DrawnKeys(ids: seq<nat>, draws: seq<int>, n: nat)
    requires n <= |draws| && n <= |ids|
    ensures forall id :: id in DrawnShares(ids, draws, n) <==> id in ids[..n]
  {
    if n > 0 {
      DrawnKeys(ids, draws, n - 1);
      assert ids[..n] == ids[..n - 1] + [ids[n - 1]];
    }
  }

  function DrawnTotal(draws: seq<int>, n: nat): int
    requires n <= |draws|
  {
    if n == 0 then 0 else DrawnTotal(draws, n - 1) + draws[n - 1]
  }

  lemma {:induction false} DrawnSum(ids: seq<nat>, draws: seq<int>, n: nat)
    requires n <= |draws| && n <= |ids| && Distinct(ids)
    ensures var f := DrawnShares(ids, draws, n); (forall id | id in ids[..n] :: id in f) && SumOver(ids[..n], f) == DrawnTotal(draws, n)
  {
    DrawnKeys(ids, draws, n);
    if n > 0 {
      var before, first, id, v := DrawnShares(ids, draws, n - 1), ids[..n - 1], ids[n - 1], draws[n - 1];
      DrawnSum(ids, draws, n - 1);
      assert ids[..n] == first + [id];
      SumOverConcat(first, [id], before[id := v]);
      SumOverUpdate(first, before, id, v);
      SumOverOne(id, before[id := v]);
    }
  }

  /** The remainder makes up what the drawn shares leave of the key. */
  lemma {:induction false} LastShareCong(x: int, draws: seq<int>, n: nat, q: int)
    requires q > 0 && n <= |draws|
    ensures Cong(DrawnTotal(draws, n) + LastShare(x, draws, n, q), x, q)
  {
    if n > 0 {
      LastShareCong(x, draws, n - 1, q);
      MoveShare(DrawnTotal(draws, n - 1), LastShare(x, draws, n - 1, q), draws[n - 1], x, q);
    }
  }

  lemma SumOverOne(id: nat, f: map<nat, int>)
    requires id in f
    ensures SumOver([id], f) == f[id]
  {
    assert [id][1..] == [];
  }

  lemma MoveShare(sum: int, last: int, v: int, x: int, q: int)
    requires q > 0 && Cong(sum + last, x, q)
    ensures Cong(sum + v + SubScalars(last, v, q), x, q)
  {
    SubCong(last, last, v, v, q);
    CongAdd(sum + v, sum + v, SubScalars(last, v, q), last - v, q);
  }

  lemma {:induction false} SplitSum(x: int, ids: seq<nat>, draws: seq<int>, q: int)
    requires q > 0 && |ids| == |draws| + 1 && Distinct(ids)
    ensures forall id :: id in SplitKey(x, ids, draws, q) <==> id in ids
    ensures Cong(SumOver(ids, SplitKey(x, ids, draws, q)), x, q)
  {
    var n, last := |draws|, LastShare(x, draws, |draws|, q);
    var drawn, id := DrawnShares(ids, draws, n), ids[n];
    DrawnKeys(ids, draws, n);
    DrawnSum(ids, draws, n);
    LastShareCong(x, draws, n, q);
    assert ids == ids[..n] + [id];
    SumOverConcat(ids[..n], [id], drawn[id := last]);
    SumOverUpdate(ids[..n], drawn, id, last);
    SumOverOne(id, drawn[id := last]);
  }

  // ----- The order of the players does not matter -----

  /** Any member of a set can be taken out of its sum. */
  lemma {:induction false} SumPick(s: set<nat>, id: nat, f: map<nat, int>)
    requires id in s && s <= f.Keys
    ensures SumOver(Setup.Sorted(s), f) == f[id] + SumOver(Setup.Sorted(s - {id}), f)
    decreases |s|
  {
    var m := Setup.Min(s);
    Setup.SortedStep(s);
    if id != m {
      SumPick(s - {m}, id, f);
      assert s - {m} - {id} == s - {id} - {m};
      SameMin(s, id);
      Setup.SortedStep(s - {id});
    }
  }

  lemma SameMin(s: set<nat>, id: nat)
    requires id in s && id != Setup.Min(s)
    ensures s - {id} != {} && Setup.Min(s - {id}) == Setup.Min(s)
  {
    assert Setup.Min(s) in s - {id};
  }

  function IdSet(ids: seq<nat>): set<nat> {
    set id | id in ids
  }

  lemma {:induction false} SumAnyOrder(ids: seq<nat>, f: map<nat, int>)
    requires Distinct(ids) && IdSet(ids) <= f.Keys
    ensures (forall id | id in ids :: id in f) && SumOver(ids, f) == SumOver(Setup.Sorted(IdSet(ids)), f)
  {
    assert forall id | id in ids :: id in IdSet(ids);
    if ids != [] {
      assert IdSet(ids[1..]) == IdSet(ids) - {ids[0]};
      SumAnyOrder(ids[1..], f);
      SumPick(IdSet(ids), ids[0], f);
    } else {
      assert IdSet(ids) == {};
    }
  }

  // ----- All holders and all new players -----

  predicate Covered(data: seq<NewShares>, ids: seq<nat>) {
    forall i, id | 0 <= i < |data| && id in ids :: id in data[i].shares
  }

  lemma CoveredParts(data: seq<NewShares>, ids: seq<nat>)
    requires Covered(data, ids) && ids != []
    ensures Covered(data, ids[1..]) && forall i | 0 <= i < |data| :: ids[0] in data[i].shares
  {
    assert ids[0] in ids;
    assert forall id | id in ids[1..] :: id in ids;
  }

  /** The sum of the new keys of some players. */
  function SumKeys(ids: seq<nat>, data: seq<NewShares>, n: nat, q: int): int
    requires q > 0 && n <= |data| && Covered(data, ids)
  {
    if ids == [] then 0
    else
      CoveredParts(data, ids);
      NewKey(data, ids[0], n, q) + SumKeys(ids[1..], data, n, q)
  }

  function SentBy(ids: seq<nat>, data: seq<NewShares>): nat -> int
    requires Covered(data, ids)
  {
    (i: nat) => if i < |data| then SumOver(ids, data[i].shares) else 0
  }

  lemma {:induction false} OneMoreHolder(ids: seq<nat>, data: seq<NewShares>, n: nat, q: int)
    requires q > 0 && n < |data| && Covered(data, ids)
    ensures Cong(SumKeys(ids, data, n + 1, q), SumKeys(ids, data, n, q) + SumOver(ids, data[n].shares), q)
  {
    if ids != [] {
      CoveredParts(data, ids);
      OneMoreHolder(ids[1..], data, n, q);
      var before, share := NewKey(data, ids[0], n, q), data[n].shares[ids[0]];
      AddCong(before, before, share, share, q);
      CongAdd(AddScalars(before, share, q), before + share, SumKeys(ids[1..], data, n + 1, q),
              SumKeys(ids[1..], data, n, q) + SumOver(ids[1..], data[n].shares), q);
    }
  }

  lemma {:induction false} SumKeysZero(ids: seq<nat>, data: seq<NewShares>, q: int)
    requires q > 0 && Covered(data, ids)
    ensures SumKeys(ids, data, 0, q) == 0
  {
    if ids != [] {
      CoveredParts(data, ids);
      SumKeysZero(ids[1..], data, q);
    }
  }

  lemma {:induction false} KeysFromShares(ids: seq<nat>, data: seq<NewShares>, n: nat, q: int)
    requires q > 0 && n <= |data| && Covered(data, ids)
    ensures Cong(SumKeys(ids, data, n, q), Sum(n, SentBy(ids, data)), q)
  {
    if n == 0 {
      SumKeysZero(ids, data, q);
    } else {
      KeysFromShares(ids, data, n - 1, q);
      OneMoreHolder(ids, data, n - 1, q);
      var sent := SumOver(ids, data[n - 1].shares);
      CongAdd(SumKeys(ids, data, n - 1, q), Sum(n - 1, SentBy(ids, data)), sent, sent, q);
    }
  }

  /** Every holder split its key honestly among the players ids, in an order of its own. */
  ghost predicate HonestSplit(data: seq<NewShares>, x: nat -> int, players: set<nat>, q: int)
    requires q > 0
  {
    forall i: nat | i < |data| :: exists ids, draws :: SplitsTo(data[i].shares, x(i), players, ids, draws, q)
  }

  ghost predicate SplitsTo(shares: map<nat, int>, x: int, players: set<nat>, ids: seq<nat>, draws: seq<int>, q: int)
    requires q > 0
  {
    Distinct(ids) && IdSet(ids) == players && |ids| == |draws| + 1 && shares == SplitKey(x, ids, draws, q)
  }

  lemma {:induction false} HonestShares(shares: map<nat, int>, x: int, players: set<nat>, ids: seq<nat>, draws: seq<int>, q: int)
    requires q > 0 && SplitsTo(shares, x, players, ids, draws, q)
    ensures shares.Keys == players && Cong(SumOver(Setup.Sorted(players), shares), x, q)
  {
    SplitSum(x, ids, draws, q);
    assert forall id :: id in ids <==> id in IdSet(ids);
    assert shares.Keys == players;
    SumAnyOrder(ids, shares);
  }

  lemma {:induction false} HonestCovers(data: seq<NewShares>, x: nat -> int, players: set<nat>, q: int)
    requires q > 0 && HonestSplit(data, x, players, q)
    ensures Covered(data, Setup.Sorted(players))
    ensures forall i: nat | i < |data| :: Cong(SentBy(Setup.Sorted(players), data)(i), x(i), q)
  {
    forall i: nat | i < |data| ensures data[i].shares.Keys == players && Cong(SumOver(Setup.Sorted(players), data[i].shares), x(i), q) {
      var ids, draws :| SplitsTo(data[i].shares, x(i), players, ids, draws, q);
      HonestShares(data[i].shares, x(i), players, ids, draws, q);
    }
  }

  /** The new keys add up to the old ones, however many of either there are. */
  lemma {:induction false} AddUserConserves(data: seq<NewShares>, x: nat -> int, players: set<nat>, q: int)
    requires q > 0 && HonestSplit(data, x, players, q)
    ensures Covered(data, Setup.Sorted(players))
    ensures Cong(SumKeys(Setup.Sorted(players), data, |data|, q), Sum(|data|, x), q)
  {
    var ids := Setup.Sorted(players);
    HonestCovers(data, x, players, q);
    KeysFromShares(ids, data, |data|, q);
    SumCong(|data|, SentBy(ids, data), x, q);
  }

  // ----- The public key check -----

  /** The public shares that the new players reveal decode to their new keys times the generator. */
  ghost predicate PublicShares(c: Setup.Context, shares: map<nat, seq<Bytes.byte>>, data: seq<NewShares>)
    requires c.q > 0 && Covered(data, Setup.Sorted(c.players))
  {
    forall id | id in Setup.Sorted(c.players) ::
      id in shares && (forall i | 0 <= i < |data| :: id in data[i].shares)
      && c.decode(shares[id]) == Some(GeneratorMul(NewKey(data, id, |data|, c.q), c.q))
  }

  lemma {:induction false} SharesSum(c: Setup.Context, start: Point, ids: seq<nat>, shares: map<nat, seq<Bytes.byte>>, data: seq<NewShares>)
    requires c.q > 0 && Covered(data, ids) && OnCurve(start, c.q)
    requires forall id | id in ids ::
      id in shares && (forall i | 0 <= i < |data| :: id in data[i].shares)
      && c.decode(shares[id]) == Some(GeneratorMul(NewKey(data, id, |data|, c.q), c.q))
    ensures var sum := Setup.SumShares(c, start, ids, shares);
      sum.Some? && OnCurve(sum.value, c.q) && Cong(sum.value.log, start.log + SumKeys(ids, data, |data|, c.q), c.q)
    decreases |ids|
  {
    if ids != [] {
      CoveredParts(data, ids);
      var key, rest := NewKey(data, ids[0], |data|, c.q), SumKeys(ids[1..], data, |data|, c.q);
      var X := GeneratorMul(key, c.q);
      assert c.decode(shares[ids[0]]) == Some(X);
      var next := AddPoints(start, X, c.q);
      CongMod(key, c.q);
      AddCong(start.log, start.log, X.log, key, c.q);
      SharesSum(c, next, ids[1..], shares, data);
      CongAdd(next.log, start.log + key, rest, rest, c.q);
    }
  }

  /** So the check that the new public shares add up to the stored public key passes. */
  lemma {:induction false} PublicKeyKept(c: Setup.Context, data: seq<NewShares>, x: nat -> int, publicKey: Point, shares: map<nat, seq<Bytes.byte>>)
    requires c.q > 0 && HonestSplit(data, x, c.players, c.q)
    requires OnCurve(publicKey, c.q) && Cong(publicKey.log, Sum(|data|, x), c.q)
    requires c.players <= shares.Keys
    ensures Covered(data, Setup.Sorted(c.players))
    ensures PublicShares(c, shares, data) ==> Setup.JointKey(c, shares) == Some(publicKey)
  {
    AddUserConserves(data, x, c.players, c.q);
    if PublicShares(c, shares, data) {
      SharesSum(c, Infinity, Setup.Sorted(c.players), shares, data);
      SamePoint(Setup.JointKey(c, shares).value, publicKey, c.q);
    }
  }
}
