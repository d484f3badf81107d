/**
 asymmetric_eddsa_cosigner.cpp, asymmetric_eddsa_cosigner_server.cpp and asymmetric_eddsa_cosigner_client.cpp:
 one client and m servers sign with additive shares of a key.
 The servers are numbered 0, ..., m-1 in the order of their ids. Scalars are numbers, so the
 conversions between byte orders do nothing here.
 */
module Eddsa {
  import opened Modular
  import opened NumberTheory
  import opened Wrappers
  import opened Curve
  import opened HdDerive

  type Message = seq<int>

  /** What everybody knows: the group order, the functions, the public key, and the number of servers. */
  datatype Context = Context(
    q: int, m: nat, hmac: Hmac, hram: (Point, Point, Message) -> nat, pub: Point, chain: Chain,
    commitTo: (nat, nat, Point) -> int, commitToAll: (nat, seq<Point>) -> int)

  ghost predicate ValidContext(c: Context) {
    Prime(c.q) && c.q > 255 && c.m >= 1
  }

  /** asymmetric_eddsa_signature_data */
  datatype BlockData = BlockData(k: int, R: Point, message: Message, path: seq<nat>)

  /** eddsa_signature */
  datatype Signature = Signature(R: Point, s: int)

  // ----- The tweak of a derived key, shared out equally -----

  /** The uint8_t that the number of signers is passed as. */
  function SplitFactor(n: nat): nat {
    n % 256
  }

  /** derivation_key_delta: one signer's part of the tweak, and the derived key. */
  function DeltaShare(c: Context, path: seq<nat>, n: nat): Result<(int, Point)>
    requires c.q > 0
  {
    if path == [] then Success((0, c.pub))
    else
      var end := After(c.q, c.hmac, Level(c.pub, 0, c.chain), path, |path|, true);
      if end.Failure? then Failure(InternalError)
      else if SplitFactor(n) > 1 then
        var inverse := ModInverse(SplitFactor(n), c.q);
        if inverse.None? then Failure(InternalError)
        else Success((MulMod(end.value.priv, inverse.value, c.q), end.value.pub))
      else Success((end.value.priv, end.value.pub))
  }

  method DerivationKeyDelta(c: Context, path: seq<nat>, n: nat) returns (result: Result<(int, Point)>)
    requires c.q > 0
    ensures result == DeltaShare(c, path, n)
  {
    if |path| == 0 { return Success((0, c.pub)); }
    var keys := DerivePrivateAndPublicKeys(c.q, c.hmac, c.pub, 0, c.chain, path);
    if keys.Failure? { return Failure(InternalError); }
    var (delta, derived) := keys.value;
    var split := SplitFactor(n);
    if split > 1 {
      var inverse := ModInverse(split, c.q);
      if inverse.None? { return Failure(InternalError); }
      delta := MulMod(delta, inverse.value, c.q);
    }
    return Success((delta, derived.value));
  }

  function RootOf(c: Context): Root {
    Root(c.hmac, c.pub, c.chain)
  }

  function FullDelta(c: Context, path: seq<nat>): Result<int>
    requires c.q > 0
  {
    DerivationDelta(c.q, RootOf(c), path)
  }

  /** Up to 255 signers, the parts of the tweak add up to the tweak. */
  lemma DeltaSharesSum(c: Context, path: seq<nat>, n: nat)
    requires Prime(c.q) && c.q > 255 && 1 <= n <= 255
    ensures DeltaShare(c, path, n).Success? <==> FullDelta(c, path).Success?
    ensures FullDelta(c, path).Success? ==> Cong(n * DeltaShare(c, path, n).value.0, FullDelta(c, path).value, c.q)
  {
    ModUnique(n, 0, n, c.q);
    PrimeUnit(n, c.q);
    if path != [] && FullDelta(c, path).Success? && n > 1 {
      ShareOut(FullDelta(c, path).value, n, ModInverse(n, c.q).value, c.q);
    }
  }

  lemma ShareOut(delta: int, n: int, inverse: int, q: int)
    requires q > 0 && InverseOf(n, inverse, q)
    ensures Cong(n * MulMod(delta, inverse, q), delta, q)
  {
    var share := MulMod(delta, inverse, q);
    MulCong(delta, delta, inverse, inverse, q);
    CongMulLeft(share, delta * inverse, n, q);
    CongMulLeft(n * inverse, 1, delta, q);
    ThreeFactors(share, n, delta, inverse);
  }

  lemma ThreeFactors(share: int, n: int, delta: int, inverse: int)
    ensures share * n == n * share && delta * inverse * n == (n * inverse) * delta
  {
    assert delta * inverse * n == delta * (n * inverse);
  }

  /**
   About the cast to uint8_t alone: from 256 signers on the factor has wrapped, and the parts add up
   only if the tweak is zero. No stored key gets there: setup refuses more than 255 players.
   */
  lemma DeltaSharesWrap(c: Context, path: seq<nat>, n: nat)
    requires Prime(c.q) && c.q > 255 && 256 <= n < c.q && path != [] && FullDelta(c, path).Success?
    ensures DeltaShare(c, path, n).Success?
    ensures Cong(n * DeltaShare(c, path, n).value.0, FullDelta(c, path).value, c.q) <==> FullDelta(c, path).value % c.q == 0
  {
    var delta, split, q := FullDelta(c, path).value, SplitFactor(n), c.q;
    var share := DeltaShare(c, path, n);
    ModUnique(split, 0, split, q);
    var factor: nat := if split > 1 then split else 1;
    if split > 1 {
      PrimeUnit(split, q);
      ShareOut(delta, split, ModInverse(split, q).value, q);
    }
    WrongMultiple(n, factor, share.value.0, delta, q);
  }

  lemma WrongMultiple(n: int, factor: int, share: int, delta: int, q: int)
    requires Prime(q) && 0 < factor < n < q && Cong(factor * share, delta, q)
    ensures Cong(n * share, delta, q) <==> delta % q == 0
  {
    var d := n - factor;
    assert n * share - factor * share == d * share;
    ModUnique(d, 0, d, q);
    ModUnique(factor, 0, factor, q);
    PrimeUnit(d, q);
    PrimeUnit(factor, q);
    assert 0 % q == 0;
    if Cong(n * share, delta, q) {
      CongSub(n * share, delta, factor * share, delta, q);
      UnitCancelZero(d, share, q);
      MultipleOfZero(factor, share, q);
    }
    if delta % q == 0 {
      UnitCancelZero(factor, share, q);
      MultipleOfZero(n, share, q);
    }
  }

  lemma UnitCancelZero(d: int, share: int, q: int)
    requires q > 0 && Unit(d, q) && Cong(d * share, 0, q)
    ensures Cong(share, 0, q)
  {
    assert d * 0 == 0;
    UnitCancel(d, share, 0, q);
  }

  lemma MultipleOfZero(d: int, share: int, q: int)
    requires q > 0 && Cong(share, 0, q)
    ensures Cong(d * share, 0, q)
  {
    CongMulLeft(share, 0, d, q);
    assert share * d == d * share;
  }

  // ----- Nonces -----

  /**
   The nonce loop of eddsa_sign_offline on the server. The status that ends the search is not reset
   between blocks, so a drawn nonce serves every block of the call.
   */
  method DrawNonces(draw: nat -> Option<nat>, count: nat) returns (nonces: Result<seq<nat>>)
    ensures nonces.Success? <==> count == 0 || exists t | 0 <= t < 1024 :: draw(t).Some?
    ensures nonces.Success? ==> |nonces.value| == count
    ensures nonces.Success? && count > 0 ==> exists t: nat | t < 1024 ::
      && draw(t).Some? && (forall u: nat | u < t :: draw(u).None?)
      && forall i | 0 <= i < count :: nonces.value[i] == draw(t).value
  {
    var ks: seq<nat> := [];
    var k, drawn, used := 0, false, 0;
    ghost var at := 0;
    while |ks| < count
      invariant |ks| <= count
      invariant forall i | 0 <= i < |ks| :: ks[i] == k
      invariant ks != [] ==> drawn
      invariant drawn ==> at < 1024 && draw(at) == Some(k) && forall u: nat | u < at :: draw(u).None?
      invariant !drawn ==> used == 0
    {
      var j := 0;
      while j < 1024 && !drawn
        invariant 0 <= j <= 1024
        invariant drawn ==> at < 1024 && draw(at) == Some(k) && forall u: nat | u < at :: draw(u).None?
        invariant !drawn ==> used == j && forall u: nat | u < j :: draw(u).None?
        invariant ks != [] ==> drawn && forall i | 0 <= i < |ks| :: ks[i] == k
      {
        j := j + 1;
        if draw(used).Some? {
          k, drawn := draw(used).value, true;
          at := used;
        }
        used := used + 1;
      }
      if !drawn { return Failure(InternalError); }
      ks := ks + [k];
    }
    return Success(ks);
  }

  // ----- One signer's share of s -----

  /** hram * (x + delta) + k, for the common R. */
  function SignShare(c: Context, R: Point, message: Message, path: seq<nat>, x: int, k: int): Result<int>
    requires c.q > 0
  {
    var tweak := DeltaShare(c, path, c.m + 1);
    if tweak.Failure? then Failure(tweak.error)
    else if message == [] then Failure(InvalidParameter)
    else Success(AddScalars(MulMod(c.hram(R, tweak.value.1, message), AddScalars(x, tweak.value.0, c.q), c.q), k, c.q))
  }

  method Share(c: Context, R: Point, message: Message, path: seq<nat>, x: int, k: int) returns (s: Result<int>)
    requires c.q > 0
    ensures s == SignShare(c, R, message, path, x, k)
  {
    var tweak := DerivationKeyDelta(c, path, c.m + 1);
    if tweak.Failure? { return Failure(tweak.error); }
    if |message| == 0 { return Failure(InvalidParameter); }
    var hram := c.hram(R, tweak.value.1, message);
    var key := AddScalars(x, tweak.value.0, c.q);
    return Success(AddScalars(MulMod(hram, key, c.q), k, c.q));
  }
}
