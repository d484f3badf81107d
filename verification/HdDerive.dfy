/** hd_derive.cpp: child key derivation along a path, for public keys alone and for private and public keys. */
module HdDerive {
  import opened Modular
  import opened Wrappers
  import opened Curve

  type Chain = seq<int>

  /** What is hashed at one level: the private key at a hardened index, the public key otherwise. */
  datatype HashInput = FromPrivate(key: int, child: nat) | FromPublic(pub: Point, child: nat)

  /** HMAC-SHA512 split in half: a number and the next chain code. None is a failing HMAC call. */
  type Hmac = (HashInput, Chain) -> Option<(nat, Chain)>

  datatype Level = Level(pub: Point, priv: int, chain: Chain)

  function IsHardened(child: nat): bool {
    child / 0x8000_0000 != 0
  }

  function HashForDerive(pub: Point, priv: int, child: nat): HashInput {
    if IsHardened(child) then FromPrivate(priv, child) else FromPublic(pub, child)
  }

  /** derive_next_key_level_; without derive_private the private part is left alone. */
  function NextLevel(q: int, hmac: Hmac, at: Level, child: nat, derivePrivate: bool): Result<Level>
    requires q > 0
  {
    if IsHardened(child) && !derivePrivate then Failure(HardenedPublic)
    else
      var hash := hmac(HashForDerive(at.pub, at.priv, child), at.chain);
      if hash.None? then Failure(InternalError)
      else
        var (tweak, chain) := hash.value;
        Success(Level(AddPoints(at.pub, GeneratorMul(tweak, q), q),
                      if derivePrivate then AddScalars(at.priv, tweak, q) else at.priv, chain))
  }

  /** Where the first n levels of a path lead, or the first error. */
  function After(q: int, hmac: Hmac, start: Level, path: seq<nat>, n: nat, derivePrivate: bool): Result<Level>
    requires q > 0 && n <= |path|
  {
    if n == 0 then Success(start)
    else
      var before := After(q, hmac, start, path, n - 1, derivePrivate);
      if before.Failure? then before else NextLevel(q, hmac, before.value, path[n - 1], derivePrivate)
  }

  lemma {:induction false} FailureStays(q: int, hmac: Hmac, start: Level, path: seq<nat>, n: nat, m: nat, derivePrivate: bool)
    requires q > 0 && n <= m <= |path| && After(q, hmac, start, path, n, derivePrivate).Failure?
    ensures After(q, hmac, start, path, m, derivePrivate) == After(q, hmac, start, path, n, derivePrivate)
  {
    if n < m { FailureStays(q, hmac, start, path, n, m - 1, derivePrivate); }
  }

  /**
   Derivation from the front, level by level. At an index below 2^31 the public key is hashed, above the
   private one, with the index and under the chain code; the left half of the hash moves the keys, and
   the right half is the chain code of the next level.
   */
  lemma {:induction false} FirstChild(q: int, hmac: Hmac, pub: Point, priv: int, chain: Chain, path: seq<nat>, n: nat, derivePrivate: bool)
    requires q > 0 && 0 < n <= |path|
    ensures
      var end := After(q, hmac, Level(pub, priv, chain), path, n, derivePrivate);
      var hash := hmac(if path[0] < 0x8000_0000 then FromPublic(pub, path[0]) else FromPrivate(priv, path[0]), chain);
      && (path[0] >= 0x8000_0000 && !derivePrivate ==> end == Failure(HardenedPublic))
      && ((path[0] < 0x8000_0000 || derivePrivate) && hash.None? ==> end == Failure(InternalError))
      && ((path[0] < 0x8000_0000 || derivePrivate) && hash.Some? ==>
            end == After(q, hmac, Level(Point((pub.log + hash.value.0 % q) % q), if derivePrivate then (priv + hash.value.0) % q else priv, hash.value.1),
                         path[1..], n - 1, derivePrivate))
  {
    if n > 1 {
      FirstChild(q, hmac, pub, priv, chain, path, n - 1, derivePrivate);
      assert path[1..][n - 2] == path[n - 1];
    } else {
      assert After(q, hmac, Level(pub, priv, chain), path, 0, derivePrivate) == Success(Level(pub, priv, chain));
    }
  }

  /** derive_public_key_generic */
  method DerivePublicKey(q: int, hmac: Hmac, pub: Point, chain: Chain, path: seq<nat>) returns (key: Result<Point>)
    requires q > 0
    ensures var end := After(q, hmac, Level(pub, 0, chain), path, |path|, false);
      key == if end.Success? then Success(end.value.pub) else Failure(end.error)
    ensures path == [] ==> key == Success(pub)
    ensures path != [] && path[0] >= 0x8000_0000 ==> key == Failure(HardenedPublic)
    ensures |path| == 1 && path[0] < 0x8000_0000 ==>
      var hash := hmac(FromPublic(pub, path[0]), chain);
      key == if hash.None? then Failure(InternalError) else Success(Point((pub.log + hash.value.0 % q) % q))
  {
    if path != [] { FirstChild(q, hmac, pub, 0, chain, path, |path|, false); }
    if |path| == 0 { return Success(pub); }
    var at := Level(pub, 0, chain);
    var i := 0;
    while i < |path|
      invariant 0 <= i <= |path|
      invariant After(q, hmac, Level(pub, 0, chain), path, i, false) == Success(at)
    {
      var next := NextLevel(q, hmac, at, path[i], false);
      if next.Failure? {
        FailureStays(q, hmac, Level(pub, 0, chain), path, i + 1, |path|, false);
        return Failure(next.error);
      }
      at := next.value;
      i := i + 1;
    }
    return Success(at.pub);
  }

  /**
   derive_private_and_public_keys: every failure is reported as a general error, and an empty path
   leaves the public key unset.
   */
  method DerivePrivateAndPublicKeys(q: int, hmac: Hmac, pub: Point, priv: int, chain: Chain, path: seq<nat>)
    returns (keys: Result<(int, Option<Point>)>)
    requires q > 0
    ensures var end := After(q, hmac, Level(pub, priv, chain), path, |path|, true);
      && (end.Failure? ==> keys == Failure(GeneralError))
      && (end.Success? ==> keys == Success((end.value.priv, if path == [] then None else Some(end.value.pub))))
    ensures path == [] ==> keys == Success((priv, None))
    ensures |path| == 1 ==>
      var hash := hmac(if path[0] < 0x8000_0000 then FromPublic(pub, path[0]) else FromPrivate(priv, path[0]), chain);
      keys == if hash.None? then Failure(GeneralError)
              else Success(((priv + hash.value.0) % q, Some(Point((pub.log + hash.value.0 % q) % q))))
  {
    if path != [] { FirstChild(q, hmac, pub, priv, chain, path, |path|, true); }
    if |path| == 0 { return Success((priv, None)); }
    var at := Level(pub, priv, chain);
    var i := 0;
    while i < |path|
      invariant 0 <= i <= |path|
      invariant After(q, hmac, Level(pub, priv, chain), path, i, true) == Success(at)
    {
      var next := NextLevel(q, hmac, at, path[i], true);
      if next.Failure? {
        FailureStays(q, hmac, Level(pub, priv, chain), path, i + 1, |path|, true);
        return Failure(GeneralError);
      }
      at := next.value;
      i := i + 1;
    }
    return Success((at.priv, Some(at.pub)));
  }

  // ----- Derivation is homomorphic along paths without hardened indices -----

  predicate Plain(path: seq<nat>) {
    forall i | 0 <= i < |path| :: !IsHardened(path[i])
  }

  /** Two ends agree on everything but the private part. */
  predicate SamePublic(a: Result<Level>, b: Result<Level>) {
    && (a.Success? <==> b.Success?)
    && (a.Success? ==> a.value.pub == b.value.pub && a.value.chain == b.value.chain)
    && (a.Failure? ==> b.error == a.error)
  }

  /** The public-only derivation returns the same point as the private one, from any private key. */
  lemma {:induction false} PublicAlone(q: int, hmac: Hmac, pub: Point, x: int, y: int, chain: Chain, path: seq<nat>, n: nat, derivePrivate: bool)
    requires q > 0 && Plain(path) && n <= |path|
    ensures SamePublic(After(q, hmac, Level(pub, x, chain), path, n, true), After(q, hmac, Level(pub, y, chain), path, n, derivePrivate))
  {
    if n > 0 { PublicAlone(q, hmac, pub, x, y, chain, path, n - 1, derivePrivate); }
  }

  /**
   Deriving from private key x adds the same delta as deriving from 0, and the delta is also what
   the public key moves by.
   */
  lemma {:induction false} Homomorphic(q: int, hmac: Hmac, pub: Point, x: int, chain: Chain, path: seq<nat>, n: nat)
    requires q > 0 && Plain(path) && n <= |path|
    ensures
      var fromX := After(q, hmac, Level(pub, x, chain), path, n, true);
      var fromZero := After(q, hmac, Level(pub, 0, chain), path, n, true);
      && SamePublic(fromX, fromZero)
      && (fromX.Success? ==>
            && Cong(fromX.value.priv, x + fromZero.value.priv, q)
            && Cong(fromX.value.pub.log, pub.log + fromZero.value.priv, q))
  {
    PublicAlone(q, hmac, pub, x, 0, chain, path, n, true);
    if n > 0 {
      Homomorphic(q, hmac, pub, x, chain, path, n - 1);
      var beforeX := After(q, hmac, Level(pub, x, chain), path, n - 1, true);
      var beforeZero := After(q, hmac, Level(pub, 0, chain), path, n - 1, true);
      if After(q, hmac, Level(pub, x, chain), path, n, true).Success? {
        var tweak := hmac(FromPublic(beforeX.value.pub, path[n - 1]), beforeX.value.chain).value.0;
        TweakMoves(beforeX.value.pub, pub.log, beforeX.value.priv, x, beforeZero.value.priv, tweak, q);
      }
    }
  }

  lemma TweakMoves(p: Point, pub: int, priv: int, x: int, delta: int, tweak: int, q: int)
    requires q > 0 && Cong(priv, x + delta, q) && Cong(p.log, pub + delta, q)
    ensures Cong(AddScalars(priv, tweak, q), x + AddScalars(delta, tweak, q), q)
    ensures Cong(AddPoints(p, GeneratorMul(tweak, q), q).log, pub + AddScalars(delta, tweak, q), q)
  {
    AddCong(delta, delta, tweak, tweak, q);
    AddCong(priv, x + delta, tweak, tweak, q);
    CongAdd(x, x, AddScalars(delta, tweak, q), delta + tweak, q);
    CongMod(tweak, q);
    AddCong(p.log, pub + delta, tweak % q, tweak, q);
    CongAdd(pub, pub, AddScalars(delta, tweak, q), delta + tweak, q);
  }

  /** Along every path, hardened or not, private derivation moves both keys by the same amount. */
  lemma {:induction false} KeysMoveTogether(q: int, hmac: Hmac, pub: Point, x: int, chain: Chain, path: seq<nat>, n: nat)
    requires q > 0 && n <= |path|
    ensures var end := After(q, hmac, Level(pub, x, chain), path, n, true);
      end.Success? ==> Cong(end.value.pub.log, pub.log + (end.value.priv - x), q)
  {
    if n > 0 && After(q, hmac, Level(pub, x, chain), path, n, true).Success? {
      KeysMoveTogether(q, hmac, pub, x, chain, path, n - 1);
      var before := After(q, hmac, Level(pub, x, chain), path, n - 1, true).value;
      var tweak := hmac(HashForDerive(before.pub, before.priv, path[n - 1]), before.chain).value.0;
      BothMove(before.pub, before.priv, pub.log, x, tweak, q);
    }
  }

  lemma BothMove(p: Point, priv: int, pub: int, x: int, tweak: int, q: int)
    requires q > 0 && Cong(p.log, pub + (priv - x), q)
    ensures Cong(AddPoints(p, GeneratorMul(tweak, q), q).log, pub + (AddScalars(priv, tweak, q) - x), q)
  {
    CongMod(tweak, q);
    AddCong(p.log, pub + (priv - x), tweak % q, tweak, q);
    AddCong(priv, priv, tweak, tweak, q);
    CongAdd(pub - x, pub - x, AddScalars(priv, tweak, q), priv + tweak, q);
  }

  /** Public derivation gets through only along paths without hardened indices. */
  lemma {:induction false} PublicNeedsPlain(q: int, hmac: Hmac, start: Level, path: seq<nat>, n: nat)
    requires q > 0 && n <= |path| && After(q, hmac, start, path, n, false).Success?
    ensures forall i | 0 <= i < n :: !IsHardened(path[i])
  {
    if n > 0 { PublicNeedsPlain(q, hmac, start, path, n - 1); }
  }

  // ----- Hardened indices -----

  /** Public derivation gets as far as the first hardened index. */
  lemma {:induction false} HardenedPublicFails(q: int, hmac: Hmac, pub: Point, chain: Chain, path: seq<nat>, h: nat)
    requires q > 0 && h < |path| && IsHardened(path[h]) && After(q, hmac, Level(pub, 0, chain), path, h, false).Success?
    ensures After(q, hmac, Level(pub, 0, chain), path, |path|, false) == Failure(HardenedPublic)
  {
    FailureStays(q, hmac, Level(pub, 0, chain), path, h + 1, |path|, false);
  }

  /** A hash that moves only the private key 1 at hardened indices. */
  function MovesOne(): Hmac {
    (input: HashInput, chain: Chain) => Some((if input.FromPrivate? && input.key == 1 then 1 else 0, chain))
  }

  function HardenedIn(path: seq<nat>, n: nat): bool
    requires n <= |path|
  {
    exists i | 0 <= i < n :: IsHardened(path[i])
  }

  lemma {:induction false} MovesOneEnds(q: int, pub: Point, chain: Chain, path: seq<nat>, n: nat)
    requires q > 1 && n <= |path|
    ensures
      var fromOne := After(q, MovesOne(), Level(pub, 1, chain), path, n, true);
      var fromZero := After(q, MovesOne(), Level(pub, 0, chain), path, n, true);
      && fromOne.Success? && fromZero.Success?
      && fromZero.value.priv == 0
      && fromOne.value.priv == if HardenedIn(path, n) then 2 % q else 1
  {
    if n > 0 {
      var h := IsHardened(path[n - 1]);
      MovesOneEnds(q, pub, chain, path, n - 1);
      assert HardenedIn(path, n) <==> HardenedIn(path, n - 1) || h;
      MovesOneStep(q, After(q, MovesOne(), Level(pub, 0, chain), path, n - 1, true).value, path[n - 1]);
      MovesOneStep(q, After(q, MovesOne(), Level(pub, 1, chain), path, n - 1, true).value, path[n - 1]);
      SmallResidues(q);
    }
  }

  lemma MovesOneStep(q: int, at: Level, child: nat)
    requires q > 0
    ensures var next := NextLevel(q, MovesOne(), at, child, true);
      next.Success? && next.value.priv == AddScalars(at.priv, if IsHardened(child) && at.priv == 1 then 1 else 0, q)
  {
  }

  lemma SmallResidues(q: int)
    requires q > 1
    ensures 0 % q == 0 && 1 % q == 1 && 2 % q != 1 && (2 % q) % q == 2 % q
  {
    ModSmall(1, q);
    ModSmall(2, q);
    ModSmall(2 % q, q);
  }

  /** With a hardened index anywhere in the path, no sum rule holds for every hash: here 1 + delta is missed. */
  lemma {:induction false} HardenedNotHomomorphic(q: int, pub: Point, chain: Chain, path: seq<nat>)
    requires q > 1 && !Plain(path)
    ensures
      var fromOne := After(q, MovesOne(), Level(pub, 1, chain), path, |path|, true);
      var fromZero := After(q, MovesOne(), Level(pub, 0, chain), path, |path|, true);
      fromOne.Success? && fromZero.Success? && !Cong(fromOne.value.priv, 1 + fromZero.value.priv, q)
  {
    MovesOneEnds(q, pub, chain, path, |path|);
    CongMod(2, q);
    ModSmall(1, q);
    ModSmall(2, q);
  }

  // ----- The tweak used in signing -----

  /** What a stored key is derived from. */
  datatype Root = Root(hmac: Hmac, pub: Point, chain: Chain)

  /** Where the private derivation from 0 leads. */
  function PrivateEnd(q: int, root: Root, path: seq<nat>): Result<Level>
    requires q > 0
  {
    After(q, root.hmac, Level(root.pub, 0, root.chain), path, |path|, true)
  }

  /** Where the public derivation leads. */
  function PublicEnd(q: int, root: Root, path: seq<nat>): Result<Level>
    requires q > 0
  {
    After(q, root.hmac, Level(root.pub, 0, root.chain), path, |path|, false)
  }

  /** derivation_key_delta: what deriving from the private key 0 gives. */
  function DerivationDelta(q: int, root: Root, path: seq<nat>): Result<int>
    requires q > 0
  {
    var end := PrivateEnd(q, root, path);
    if end.Failure? then Failure(InternalError) else Success(end.value.priv)
  }

  /** The public derivation gets through exactly where the private one does and no index is hardened, and to the same key. */
  lemma {:induction false} PublicExactly(q: int, root: Root, path: seq<nat>)
    requires q > 0
    ensures PublicEnd(q, root, path).Success? <==> PrivateEnd(q, root, path).Success? && Plain(path)
    ensures PublicEnd(q, root, path).Success? ==> PublicEnd(q, root, path).value.pub == PrivateEnd(q, root, path).value.pub
    ensures PrivateEnd(q, root, path) == After(q, root.hmac, Level(root.pub, 0, root.chain), path, |path|, true)
    ensures PublicEnd(q, root, path) == After(q, root.hmac, Level(root.pub, 0, root.chain), path, |path|, false)
  {
    if PublicEnd(q, root, path).Success? { PublicNeedsPlain(q, root.hmac, Level(root.pub, 0, root.chain), path, |path|); }
    if Plain(path) { PublicAlone(q, root.hmac, root.pub, 0, 0, root.chain, path, |path|, false); }
  }

  /** Along every path, the key that the private derivation reaches belongs to the joint private key plus the tweak. */
  lemma {:induction false} DerivedKeyMatches(q: int, root: Root, x: int, path: seq<nat>)
    requires q > 0 && Cong(root.pub.log, x, q)
    ensures DerivationDelta(q, root, path).Success? <==> PrivateEnd(q, root, path).Success?
    ensures DerivationDelta(q, root, path).Success? ==>
      Cong(PrivateEnd(q, root, path).value.pub.log, x + DerivationDelta(q, root, path).value, q)
  {
    var end := PrivateEnd(q, root, path);
    if end.Success? {
      KeysMoveTogether(q, root.hmac, root.pub, 0, root.chain, path, |path|);
      CongAdd(root.pub.log, x, end.value.priv, end.value.priv, q);
    }
  }
}
