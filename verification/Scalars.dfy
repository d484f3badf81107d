/**
 Scalars as 32 big-endian bytes: comparison with the group order, range checks and the
 normalisation of signatures.
 */
module Scalars {
  import opened Bytes
  import opened Wrappers
  import opened Endian

  datatype Algorithm = Secp256k1 | Secp256r1 | Stark | Ed25519

  function Field(a: Algorithm): (f: seq<byte>)
    ensures |f| == 32
  {
    match a
    case Secp256k1 => [
      0xff, 0xff, 0xff, 0xff, 0xff, 0xff, 0xff, 0xff, 0xff, 0xff, 0xff, 0xff, 0xff, 0xff, 0xff, 0xfe,
      0xba, 0xae, 0xdc, 0xe6, 0xaf, 0x48, 0xa0, 0x3b, 0xbf, 0xd2, 0x5e, 0x8c, 0xd0, 0x36, 0x41, 0x41]
    case Secp256r1 => [
      0xff, 0xff, 0xff, 0xff, 0x00, 0x00, 0x00, 0x00, 0xff, 0xff, 0xff, 0xff, 0xff, 0xff, 0xff, 0xff,
      0xbc, 0xe6, 0xfa, 0xad, 0xa7, 0x17, 0x9e, 0x84, 0xf3, 0xb9, 0xca, 0xc2, 0xfc, 0x63, 0x25, 0x51]
    case Stark => [
      0x08, 0x00, 0x00, 0x00, 0x00, 0x00, 0x00, 0x10, 0xff, 0xff, 0xff, 0xff, 0xff, 0xff, 0xff, 0xff,
      0xb7, 0x81, 0x12, 0x6d, 0xca, 0xe7, 0xb2, 0x32, 0x1e, 0x66, 0xa2, 0x41, 0xad, 0xc6, 0x4d, 0x2f]
    case Ed25519 => [
      0x10, 0x00, 0x00, 0x00, 0x00, 0x00, 0x00, 0x00, 0x00, 0x00, 0x00, 0x00, 0x00, 0x00, 0x00, 0x00,
      0x14, 0xde, 0xf9, 0xde, 0xa2, 0xf7, 0x9c, 0xd6, 0x58, 0x12, 0x63, 0x1a, 0x5c, 0xf5, 0xd3, 0xed]
  }

  /** ED25519_FIELD_LITTLE_ENDIAN: the bytes of the order in reverse. */
  function Ed25519LittleEndian(): (f: seq<byte>)
    ensures |f| == 32
  {
    Reversed(Field(Ed25519))
  }

  function Order(a: Algorithm): nat {
    BigEndian(Field(a))
  }

  /** in_field of ed25519_algebra.c, against an order given in little-endian bytes. */
  method InFieldEd25519(val: seq<byte>, field: seq<byte>) returns (borrow: nat)
    requires |val| == |field| == 32
    ensures borrow == if BigEndian(val) < BigEndian(Reversed(field)) then 1 else 0
  {
    ghost var order := Reversed(field);
    borrow := 0;
    var i := 0;
    while i < 8
      invariant 0 <= i <= 8
      invariant borrow == if BigEndian(val[4 * (8 - i)..]) < BigEndian(order[4 * (8 - i)..]) then 1 else 0
    {
      LittleWordIsWord(field, i);
      BorrowStep(val, order, 7 - i, borrow);
      borrow := NextBorrow(Word(val, 7 - i), LittleWord(field, i), borrow);
      i := i + 1;
    }
    assert val[0..] == val && order[0..] == order;
  }

  // ----- reduce -----

  /** The mask that reduce applies to the first byte, as the number of values it leaves. */
  function FirstByteRange(a: Algorithm): nat {
    match a
    case Stark => 0x10
    case Ed25519 => 0x20
    case _ => 0x100
  }

  /** The power of two that the mask reduces by. */
  function Range(a: Algorithm): (r: nat)
    ensures r > 0
  {
    FirstByteRange(a) * Pow256(|Field(a)| - 1)
  }

  function Masked(a: Algorithm, val: seq<byte>): (r: seq<byte>)
    requires |val| == 32
    ensures |r| == 32
  {
    [val[0] % FirstByteRange(a)] + val[1..]
  }

  /** Masking the first byte takes the number modulo a power of two. */
  lemma {:induction false} MaskIsMod(val: seq<byte>, m: nat)
    requires |val| > 0 && 0 < m <= 256
    ensures m * Pow256(|val| - 1) > 0
    ensures BigEndian([val[0] % m] + val[1..]) == BigEndian(val) % (m * Pow256(|val| - 1))
  {
    assert val == [val[0]] + val[1..];
    BigEndianConcat([val[0]], val[1..]);
    BigEndianConcat([val[0] % m], val[1..]);
    OneByte(val[0]);
    OneByte(val[0] % m);
    BigEndianBelow(val[1..]);
    ModHigh(val[0], m, Pow256(|val| - 1), BigEndian(val[1..]));
  }

  function Zeros(n: nat): (r: seq<byte>)
    ensures |r| == n
  {
    seq(n, i => 0)
  }

  /** The range check that reduce performs on a masked scalar. */
  method BelowOrder(a: Algorithm, val: seq<byte>) returns (below: bool)
    requires |val| == 32
    ensures below <==> BigEndian(val) < Order(a)
  {
    var borrow;
    if a == Ed25519 {
      ReversedTwice(Field(a));
      borrow := InFieldEd25519(val, Ed25519LittleEndian());
    } else {
      borrow := InField(val, Field(a));
    }
    below := borrow == 1;
  }

  /**
   reduce of the four algebras: a range check, after the unused top bits of the two short orders
   are dropped. Only the Ed25519 one clears its output on failure.
   */
  method Reduce(a: Algorithm, res: array<byte>, val: array<byte>) returns (ok: bool)
    requires res.Length == val.Length == 32
    modifies res
    ensures ok <==> BigEndian(old(val[..])) % Range(a) < Order(a)
    ensures ok ==> BigEndian(res[..]) == BigEndian(old(val[..])) % Range(a)
    ensures !ok ==> res[..] == if a == Ed25519 then Zeros(32) else old(res[..])
  {
    var tmp := Masked(a, val[..]);
    MaskIsMod(val[..], FirstByteRange(a));
    ok := BelowOrder(a, tmp);
    if ok {
      CopyTo(res, tmp);
    } else if a == Ed25519 {
      CopyTo(res, Zeros(32));
    }
  }

  method CopyTo(res: array<byte>, bytes: seq<byte>)
    requires res.Length == |bytes|
    modifies res
    ensures res[..] == bytes
  {
    forall i | 0 <= i < res.Length { res[i] := bytes[i]; }
  }

  // ----- is_positive -----

  /** is_greater_or_equal: the first difference decides. */
  method IsGreaterOrEqual(a: seq<byte>, b: seq<byte>, len: nat) returns (r: Result<bool>)
    requires len <= |a| && len <= |b|
    ensures r.Failure? <==> len == 0
    ensures r.Success? ==> (r.value <==> BigEndian(a[..len]) >= BigEndian(b[..len]))
  {
    if len == 0 { return Failure(InternalError); }
    var i := 0;
    while i < len
      invariant 0 <= i <= len
      invariant a[..i] == b[..i]
    {
      if a[i] != b[i] {
        assert a[..len][..i] == a[..i] && b[..len][..i] == b[..i];
        FirstDifference(a[..len], b[..len], i);
      }
      if a[i] < b[i] { return Success(false); }
      if a[i] > b[i] { return Success(true); }
      i := i + 1;
    }
    return Success(true);
  }

  lemma {:induction false} FirstDifference(a: seq<byte>, b: seq<byte>, i: nat)
    requires |a| == |b| && i < |a| && a[..i] == b[..i] && a[i] != b[i]
    ensures BigEndian(a) >= BigEndian(b) <==> a[i] > b[i]
  {
    var n := i + 1;
    assert a == a[..n] + a[n..] && b == b[..n] + b[n..];
    BigEndianConcat(a[..n], a[n..]);
    BigEndianConcat(b[..n], b[n..]);
    BigEndianBelow(a[n..]);
    BigEndianBelow(b[n..]);
    assert a[..n][..i] == a[..i] && b[..n][..i] == b[..i];
    var p := Pow256(|a| - n);
    HighPartsFirst(BigEndian(a[..n]), BigEndian(b[..n]), BigEndian(a[n..]), BigEndian(b[n..]), p);
    HighPartsFirst(BigEndian(b[..n]), BigEndian(a[..n]), BigEndian(b[n..]), BigEndian(a[n..]), p);
  }

  /** The leading bytes that is_positive compares with. */
  function ThresholdPrefix(a: Algorithm): seq<byte> {
    match a
    case Stark => [4]
    case Secp256r1 => [0x7F, 0xFF, 0xFF, 0xFF, 0x80, 0x00, 0x00, 0x00]
    case _ => [0x80]
  }

  /** is_positive accepts exactly the numbers below this one. */
  function Threshold(a: Algorithm): nat {
    BigEndian(ThresholdPrefix(a) + Zeros(|Field(a)| - |ThresholdPrefix(a)|))
  }

  lemma {:induction false} ThresholdValue(a: Algorithm)
    ensures Threshold(a) == BigEndian(ThresholdPrefix(a)) * Pow256(|Field(a)| - |ThresholdPrefix(a)|)
  {
    ZerosAppended(ThresholdPrefix(a), |Field(a)| - |ThresholdPrefix(a)|);
  }

  /** The thresholds: 2^250, 0x7FFFFFFF80000000 * 2^192 and 2^255; Pow256(k) is 2^(8k). */
  lemma {:induction false} ThresholdNumbers(len: nat)
    requires len == 32
    ensures Threshold(Stark) == 4 * Pow256(len - 1)
    ensures Threshold(Secp256r1) == 0x7FFF_FFFF_8000_0000 * Pow256(len - 8)
    ensures Threshold(Secp256k1) == 0x80 * Pow256(len - 1)
  {
    ThresholdValue(Stark);
    ThresholdValue(Secp256r1);
    ThresholdValue(Secp256k1);
    OneByte(4);
    OneByte(0x80);
    R1PrefixNumber(ThresholdPrefix(Secp256r1));
  }

  lemma {:induction false} R1PrefixNumber(p: seq<byte>)
    requires p == ThresholdPrefix(Secp256r1)
    ensures BigEndian(p) == 0x7FFF_FFFF_8000_0000
  {
    EightBytes(p);
    WordBytes(p, 0);
    WordBytes(p, 1);
  }

  /** The ranges that masking leaves: 2^252 for Stark, 2^253 for Ed25519, 2^256 otherwise. */
  lemma {:induction false} RangeNumbers(len: nat)
    requires len == 32
    ensures Range(Stark) == 0x10 * Pow256(len - 1) && Range(Ed25519) == 0x20 * Pow256(len - 1)
    ensures Range(Secp256k1) == 0x100 * Pow256(len - 1) && Range(Secp256r1) == 0x100 * Pow256(len - 1)
  {
  }

  lemma {:induction false} ZerosAppended(p: seq<byte>, n: nat)
    ensures BigEndian(p + Zeros(n)) == BigEndian(p) * Pow256(n)
  {
    BigEndianConcat(p, Zeros(n));
    ZerosValue(n);
  }

  lemma {:induction false} ZerosValue(n: nat)
    ensures BigEndian(Zeros(n)) == 0
  {
    if n > 0 {
      assert Zeros(n)[..n - 1] == Zeros(n - 1);
      ZerosValue(n - 1);
    }
  }

  method IsPositive(a: Algorithm, n: seq<byte>) returns (r: bool)
    requires |n| == 32
    ensures r <==> BigEndian(n) < Threshold(a)
  {
    if a == Secp256r1 {
      var prefix := ThresholdPrefix(a);
      ThresholdValue(a);
      PrefixDecides(n, |prefix|, BigEndian(prefix));
      var ge := IsGreaterOrEqual(n, prefix, |prefix|);
      assert prefix[..|prefix|] == prefix;
      return ge.value == false;
    }
    FirstByteDecides(a, n);
    if a == Stark { return n[0] < 4; }
    return n[0] / 0x80 % 2 == 0;
  }

  lemma {:induction false} FirstByteDecides(a: Algorithm, n: seq<byte>)
    requires |n| == 32 && a != Secp256r1
    ensures BigEndian(n) < Threshold(a) <==> n[0] < if a == Stark then 4 else 0x80
  {
    var prefix := ThresholdPrefix(a);
    ThresholdValue(a);
    PrefixDecides(n, |prefix|, BigEndian(prefix));
    assert n[..1] == [n[0]];
    OneByte(n[0]);
    OneByte(prefix[0]);
  }

  /** A scalar has 32 bytes, but need not be below the order. */
  predicate Fits(a: Algorithm, n: nat) {
    n < Pow256(|Field(a)|)
  }

  /** BN_bn2binpad to the length of a scalar */
  function ToBytes(a: Algorithm, n: nat): (s: seq<byte>)
    ensures |s| == 32
  {
    Encode(n, |Field(a)|)
  }

  method IsPositiveNumber(a: Algorithm, n: nat) returns (r: bool)
    requires Fits(a, n)
    ensures r <==> n < Threshold(a)
  {
    EncodeValue(n, |Field(a)|);
    r := IsPositive(a, ToBytes(a, n));
  }

  // ----- The thresholds against half the order -----

  lemma {:induction false} OrderOdd(a: Algorithm)
    ensures Order(a) % 2 == 1
  {
    LastByte(Field(a));
  }

  lemma {:induction false} LastByte(s: seq<byte>)
    requires s != []
    ensures BigEndian(s) % 2 == s[|s| - 1] % 2
  {
  }

  lemma {:induction false} R1Prefix()
    ensures BigEndian(Field(Secp256r1)[..8]) == 2 * BigEndian(ThresholdPrefix(Secp256r1))
  {
    var f, p := Field(Secp256r1)[..8], ThresholdPrefix(Secp256r1);
    EightBytes(f);
    EightBytes(p);
    R1Words(f, p);
  }

  lemma {:induction false} R1Words(f: seq<byte>, p: seq<byte>)
    requires f == Field(Secp256r1)[..8] && p == ThresholdPrefix(Secp256r1)
    ensures Word(f, 0) == 0xFFFFFFFF && Word(f, 1) == 0 && Word(p, 0) == 0x7FFFFFFF && Word(p, 1) == 0x80000000
  {
    WordBytes(f, 0);
    WordBytes(f, 1);
    WordBytes(p, 0);
    WordBytes(p, 1);
  }

  lemma Associate(c: int, x: int, p: int)
    ensures c * (x * p) == (c * x) * p
  {
  }

  lemma {:induction false} PrefixBound(f: seq<byte>, p: seq<byte>, c: nat)
    requires |p| <= |f| && c * BigEndian(p) <= BigEndian(f[..|p|])
    ensures c * (BigEndian(p) * Pow256(|f| - |p|)) <= BigEndian(f)
  {
    var x, y, q := c * BigEndian(p), BigEndian(f[..|p|]), Pow256(|f| - |p|);
    PrefixDecides(f, |p|, y);
    HighPartsFirst(x, y, 0, 0, q);
    Associate(c, BigEndian(p), q);
  }

  /** For secp256r1 and Stark the threshold is at most half the order. */
  lemma {:induction false} ThresholdLow(a: Algorithm)
    requires a == Secp256r1 || a == Stark
    ensures 2 * Threshold(a) <= Order(a)
  {
    var f, p := Field(a), ThresholdPrefix(a);
    if a == Secp256r1 {
      R1Prefix();
    } else {
      assert f[..1] == [8];
      OneByte(8);
      OneByte(4);
    }
    PrefixBound(f, p, 2);
    ThresholdValue(a);
  }

  /** For secp256k1 it is 2^255, above half the order and below the order. */
  lemma {:induction false} ThresholdHigh()
    ensures Order(Secp256k1) / 2 + 1 < Threshold(Secp256k1) <= Order(Secp256k1)
  {
    var f, p := Field(Secp256k1), ThresholdPrefix(Secp256k1);
    assert f[..1] == [255];
    OneByte(255);
    OneByte(0x80);
    PrefixBound(f, p, 1);
    ThresholdValue(Secp256k1);
    BelowTop(f, 16);
  }

  /** A number whose bytes are not all 255 before the last one is well below the next power of 256. */
  lemma {:induction false} BelowTop(f: seq<byte>, k: nat)
    requires 1 <= k < |f| && f[k - 1] < 255
    ensures BigEndian(f) + 256 <= Pow256(|f|)
  {
    var high := f[..k];
    BigEndianBelow(high[..k - 1]);
    assert BigEndian(high) + 2 <= Pow256(k);
    PrefixDecides(f, k, BigEndian(high) + 1);
    Pow256Add(k, |f| - k);
    HighPartsFirst(BigEndian(high) + 1, Pow256(k), 255, 0, Pow256(|f| - k));
  }

  lemma {:induction false} OrderFits(a: Algorithm, n: nat)
    requires n < Order(a)
    ensures Fits(a, n)
  {
    BigEndianBelow(Field(a));
  }

  // ----- make_sig_s_positive -----

  datatype Signature = Signature(r: nat, s: nat, v: nat)

  /** GFp_curve_algebra_abs */
  function Abs(q: nat, val: nat): nat {
    if val > q / 2 && q - val >= 0 then q - val else val
  }

  /** make_sig_s_positive */
  method MakeSigSPositive(a: Algorithm, sig: Signature) returns (r: Signature)
    requires Fits(a, sig.s)
    ensures r == Normalised(a, sig)
    ensures r.r == sig.r && (r.s == sig.s || r.s + sig.s == Order(a))
    ensures r.s != sig.s <==> Threshold(a) <= sig.s <= Order(a) && Order(a) / 2 < sig.s
    ensures r.v == if r.s == sig.s then sig.v else if sig.v % 2 == 0 then sig.v + 1 else sig.v - 1
  {
    var positive := IsPositiveNumber(a, sig.s);
    OrderOdd(a);
    r := NegateIfHigh(Order(a), Threshold(a), sig, positive);
  }

  method NegateIfHigh(q: nat, ghost t: nat, sig: Signature, positive: bool) returns (r: Signature)
    requires q % 2 == 1 && (positive <==> sig.s < t)
    ensures r == NormalisedBy(q, t, sig)
  {
    if positive { return sig; }
    var parity := sig.s % 2;
    var s := Abs(q, sig.s);
    XorParity(sig.v, parity, s % 2);
    var v := Xor(sig.v, Xor(parity, s % 2));
    return Signature(sig.r, s, v);
  }

  lemma XorParity(v: nat, a: nat, b: nat)
    requires a < 2 && b < 2
    ensures Xor(a, b) == if a == b then 0 else 1
    ensures Xor(v, Xor(a, b)) == if a == b then v else if v % 2 == 0 then v + 1 else v - 1
  {
    assert Xor(0, 0) == 0;
    XorZero(v);
    XorZero(v / 2);
  }

  lemma {:induction false} XorZero(v: nat)
    ensures Xor(v, 0) == v
  {
    if v > 0 { XorZero(v / 2); }
  }

  function FlipParity(v: nat): nat {
    if v % 2 == 0 then v + 1 else v - 1
  }

  /** The result of make_sig_s_positive: the other one of s and q - s, with the parity of R flipped, if s is high. */
  function NormalisedBy(q: nat, t: nat, sig: Signature): Signature {
    if t <= sig.s && q / 2 < sig.s <= q then Signature(sig.r, q - sig.s, FlipParity(sig.v)) else sig
  }

  function Normalised(a: Algorithm, sig: Signature): Signature {
    NormalisedBy(Order(a), Threshold(a), sig)
  }

  /** When the result is low: always for secp256r1 and Stark; for secp256k1 unless s lies between half the order and 2^255. */
  lemma NormalisedIsLow(a: Algorithm, sig: Signature)
    requires a != Ed25519 && sig.s < Order(a)
    ensures Normalised(a, sig).s <= Order(a) / 2 <==> !(Order(a) / 2 < sig.s < Threshold(a))
    ensures a != Secp256k1 ==> Normalised(a, sig).s <= Order(a) / 2
  {
    if a != Secp256k1 { ThresholdLow(a); }
    OrderOdd(a);
  }

  /** secp256k1 has such s: the code leaves q / 2 + 1 as it is. */
  lemma HighSecp256k1(v: nat)
    ensures var sig := Signature(1, Order(Secp256k1) / 2 + 1, v);
      sig.s < Order(Secp256k1) && Normalised(Secp256k1, sig) == sig
  {
    ThresholdHigh();
  }
}
