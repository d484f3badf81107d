/** Sequences of bytes as big-endian numbers, and comparing them word by word. */
module Endian {
  import opened Bytes
  import opened Modular

  function BigEndian(s: seq<byte>): nat {
    if s == [] then 0 else BigEndian(s[..|s| - 1]) * 256 + s[|s| - 1]
  }

  /** 256 to the power n */
  function Pow256(n: nat): (r: nat)
    ensures r > 0
  {
    if n == 0 then 1 else Pow256(n - 1) * 256
  }

  lemma {:induction false} OneByte(a: byte)
    ensures BigEndian([a]) == a
  {
    assert [a][..0] == [];
  }

  lemma {:induction false} BigEndianBelow(s: seq<byte>)
    ensures BigEndian(s) < Pow256(|s|)
  {
    if s != [] { BigEndianBelow(s[..|s| - 1]); }
  }

  lemma Shuffle(a: nat, p: nat, b: nat, d: nat)
    ensures (a * p + b) * 256 + d == a * (p * 256) + (b * 256 + d)
  {
  }

  lemma {:induction false} BigEndianConcat(a: seq<byte>, b: seq<byte>)
    ensures BigEndian(a + b) == BigEndian(a) * Pow256(|b|) + BigEndian(b)
  {
    if b == [] {
      assert a + b == a;
    } else {
      var c := b[..|b| - 1];
      BigEndianConcat(a, c);
      assert (a + b)[..|a + b| - 1] == a + c;
      Shuffle(BigEndian(a), Pow256(|c|), BigEndian(c), b[|b| - 1]);
    }
  }

  lemma Difference(x: int, y: int, p: int)
    ensures x * p + (y - x) * p == y * p
  {
  }

  /** Numbers with a common low part bound compare by their high parts first. */
  lemma HighPartsFirst(x: nat, y: nat, low: nat, low': nat, p: nat)
    requires low < p && low' < p
    ensures x < y ==> x * p + low < y * p + low'
    ensures x == y ==> (x * p + low < y * p + low' <==> low < low')
  {
    MultipleGrows(y - x, p);
    Difference(x, y, p);
  }

  /** The first k bytes decide a comparison with a number that has only zeros after them. */
  lemma {:induction false} PrefixDecides(s: seq<byte>, k: nat, t: nat)
    requires k <= |s|
    ensures BigEndian(s[..k]) < t <==> BigEndian(s) < t * Pow256(|s| - k)
  {
    assert s == s[..k] + s[k..];
    BigEndianConcat(s[..k], s[k..]);
    BigEndianBelow(s[k..]);
    var x := BigEndian(s[..k]);
    HighPartsFirst(x, t, BigEndian(s[k..]), 0, Pow256(|s| - k));
    HighPartsFirst(t, x, 0, BigEndian(s[k..]), Pow256(|s| - k));
  }

  // ----- Borrow loops -----

  /** The i-th 32-bit word, most significant first. */
  function Word(s: seq<byte>, i: nat): nat
    requires 4 * i + 4 <= |s|
  {
    BigEndian(s[4 * i..4 * i + 4])
  }

  lemma {:induction false} WordBelow(s: seq<byte>, i: nat)
    requires 4 * i + 4 <= |s|
    ensures Word(s, i) < 0x1_0000_0000
  {
    BigEndianBelow(s[4 * i..4 * i + 4]);
    assert Pow256(4) == 0x1_0000_0000;
  }

  /** The borrow of a 64-bit subtraction: ((v1 - v2 - borrow) >> 32) & 1 in uint64_t. */
  function NextBorrow(v1: nat, v2: nat, borrow: nat): nat {
    (v1 - v2 - borrow) % 0x1_0000_0000_0000_0000 / 0x1_0000_0000 % 2
  }

  lemma BorrowIsNegative(v1: nat, v2: nat, borrow: nat)
    requires v1 < 0x1_0000_0000 && v2 < 0x1_0000_0000 && borrow <= 1
    ensures NextBorrow(v1, v2, borrow) == if v1 < v2 + borrow then 1 else 0
  {
    var d := v1 - v2 - borrow;
    if d < 0 {
      assert d % 0x1_0000_0000_0000_0000 == d + 0x1_0000_0000_0000_0000;
      assert (d + 0x1_0000_0000_0000_0000) / 0x1_0000_0000 == 0xffff_ffff;
    }
  }

  lemma {:induction false} BorrowStep(val: seq<byte>, field: seq<byte>, i: nat, borrow: nat)
    requires |val| == |field| && 4 * i + 4 <= |val|
    requires borrow == if BigEndian(val[4 * i + 4..]) < BigEndian(field[4 * i + 4..]) then 1 else 0
    ensures NextBorrow(Word(val, i), Word(field, i), borrow) == if BigEndian(val[4 * i..]) < BigEndian(field[4 * i..]) then 1 else 0
  {
    assert val[4 * i..] == val[4 * i..4 * i + 4] + val[4 * i + 4..];
    assert field[4 * i..] == field[4 * i..4 * i + 4] + field[4 * i + 4..];
    var x, y, low, low' := Word(val, i), Word(field, i), BigEndian(val[4 * i + 4..]), BigEndian(field[4 * i + 4..]);
    var p := Pow256(|val| - 4 * i - 4);
    BigEndianConcat(val[4 * i..4 * i + 4], val[4 * i + 4..]);
    BigEndianConcat(field[4 * i..4 * i + 4], field[4 * i + 4..]);
    BigEndianBelow(val[4 * i + 4..]);
    BigEndianBelow(field[4 * i + 4..]);
    WordBelow(val, i);
    WordBelow(field, i);
    BorrowIsNegative(x, y, borrow);
    HighPartsFirst(x, y, low, low', p);
    HighPartsFirst(y, x, low', low, p);
  }

  /** in_field of GFp_curve_algebra.c: 1 exactly when val is below the order. */
  method InField(val: seq<byte>, field: seq<byte>) returns (borrow: nat)
    requires |val| == |field| == 32
    ensures borrow == if BigEndian(val) < BigEndian(field) then 1 else 0
  {
    borrow := 0;
    var i := 8;
    while i > 0
      invariant 0 <= i <= 8
      invariant borrow == if BigEndian(val[4 * i..]) < BigEndian(field[4 * i..]) then 1 else 0
    {
      BorrowStep(val, field, i - 1, borrow);
      borrow := NextBorrow(Word(val, i - 1), Word(field, i - 1), borrow);
      i := i - 1;
    }
    assert val[0..] == val && field[0..] == field;
  }

  /** Four bytes from the least significant up. */
  function Join(a: int, b: int, c: int, d: int): int {
    a + 0x100 * (b + 0x100 * (c + 0x100 * d))
  }

  /** A 32-bit word of little-endian bytes, least significant first. */
  function LittleWord(s: seq<byte>, i: nat): int
    requires 4 * i + 4 <= |s|
  {
    Join(s[4 * i], s[4 * i + 1], s[4 * i + 2], s[4 * i + 3])
  }

  lemma {:induction false} FourBytes(a: byte, b: byte, c: byte, d: byte)
    ensures BigEndian([a, b, c, d]) == Join(d, c, b, a)
  {
    assert [a, b, c, d][..3] == [a, b, c];
    assert [a, b, c][..2] == [a, b];
    assert [a, b][..1] == [a];
    OneByte(a);
    var first, second := BigEndian([a, b]), BigEndian([a, b, c]);
    assert first == a * 256 + b;
    assert second == first * 256 + c;
  }

  lemma {:induction false} WordBytes(s: seq<byte>, i: nat)
    requires 4 * i + 4 <= |s|
    ensures Word(s, i) == Join(s[4 * i + 3], s[4 * i + 2], s[4 * i + 1], s[4 * i])
  {
    var j := 4 * i;
    assert s[j..j + 4] == [s[j], s[j + 1], s[j + 2], s[j + 3]];
    FourBytes(s[j], s[j + 1], s[j + 2], s[j + 3]);
  }

  function Reversed(s: seq<byte>): (r: seq<byte>)
    ensures |r| == |s|
  {
    seq(|s|, i requires 0 <= i < |s| => s[|s| - 1 - i])
  }

  lemma ReversedTwice(s: seq<byte>)
    ensures Reversed(Reversed(s)) == s
  {
  }

  lemma {:induction false} LittleWordIsWord(s: seq<byte>, i: nat)
    requires |s| == 32 && i < 8
    ensures LittleWord(s, i) == Word(Reversed(s), 7 - i)
  {
    WordBytes(Reversed(s), 7 - i);
  }

  lemma Regroup(k: int, m: int, r: int, p: int, low: int)
    ensures (k * m + r) * p + low == k * (m * p) + (r * p + low)
  {
    assert (k * m) * p == k * (m * p);
  }

  lemma ModHigh(x: nat, m: nat, p: nat, low: nat)
    requires m > 0 && low < p
    ensures m * p > 0 && (x * p + low) % (m * p) == x % m * p + low
  {
    Regroup(x / m, m, x % m, p, low);
    MultipleGrows(m, p);
    HighPartsFirst(x % m, m, low, 0, p);
    ModUnique(x * p + low, x / m, x % m * p + low, m * p);
  }

  function Encode(n: nat, len: nat): (s: seq<byte>)
    ensures |s| == len
  {
    if len == 0 then [] else Encode(n / 256, len - 1) + [n % 256]
  }

  lemma {:induction false} EncodeValue(n: nat, len: nat)
    requires n < Pow256(len)
    ensures BigEndian(Encode(n, len)) == n
  {
    if len > 0 {
      EncodeValue(n / 256, len - 1);
      var s := Encode(n, len);
      assert s[..len - 1] == Encode(n / 256, len - 1);
    }
  }

  lemma {:induction false} Pow256Add(m: nat, n: nat)
    ensures Pow256(m + n) == Pow256(m) * Pow256(n)
  {
    if n > 0 {
      Pow256Add(m, n - 1);
      assert Pow256(m) * Pow256(n - 1) * 256 == Pow256(m) * (Pow256(n - 1) * 256);
    }
  }

  lemma {:induction false} EightBytes(s: seq<byte>)
    requires |s| == 8
    ensures BigEndian(s) == Word(s, 0) * 0x1_0000_0000 + Word(s, 1)
  {
    assert s == s[0..4] + s[4..8];
    BigEndianConcat(s[0..4], s[4..8]);
    Pow256Four(|s[4..8]|);
  }

  lemma {:induction false} Pow256Four(n: nat)
    requires n == 4
    ensures Pow256(n) == 0x1_0000_0000
  {
    assert Pow256(n - 3) == 256;
    assert Pow256(n - 2) == 256 * 256;
    assert Pow256(n - 1) == 256 * 256 * 256;
  }
}
