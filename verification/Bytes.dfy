/** Bytes as numbers below 256, with the exclusive or used on them. */
module Bytes {
  type byte = x: int | 0 <= x < 256

  function Pow2(n: nat): (r: nat)
    ensures r > 0
  {
    if n == 0 then 1 else 2 * Pow2(n - 1)
  }

  /** Bitwise exclusive or. */
  function Xor(a: nat, b: nat): nat
    decreases a + b
  {
    if a == 0 && b == 0 then 0 else 2 * Xor(a / 2, b / 2) + (a % 2 + b % 2) % 2
  }

  lemma {:induction false} XorBelow(a: nat, b: nat, bits: nat)
    requires a < Pow2(bits) && b < Pow2(bits)
    ensures Xor(a, b) < Pow2(bits)
    decreases bits
  {
    if bits > 0 && (a != 0 || b != 0) { XorBelow(a / 2, b / 2, bits - 1); }
  }

  lemma {:induction false} XorCommutative(a: nat, b: nat)
    ensures Xor(a, b) == Xor(b, a)
    decreases a + b
  {
    if a != 0 || b != 0 { XorCommutative(a / 2, b / 2); }
  }

  lemma XorHalves(a: nat, b: nat)
    ensures Xor(a, b) / 2 == Xor(a / 2, b / 2)
    ensures Xor(a, b) % 2 == (a % 2 + b % 2) % 2
  {
  }

  /** A second exclusive or with the same number cancels the first. */
  lemma {:induction false} XorCancel(a: nat, b: nat)
    ensures Xor(Xor(a, b), b) == a
    decreases a + b
  {
    if a != 0 || b != 0 {
      XorHalves(a, b);
      XorHalves(Xor(a, b), b);
      XorCancel(a / 2, b / 2);
      SameHalves(Xor(a, b), Xor(Xor(a, b), b), a, b);
    }
  }

  /** Two exclusive ors may be made in either order. */
  lemma {:induction false} XorSwitch(a: nat, b: nat, c: nat)
    ensures Xor(Xor(a, b), c) == Xor(Xor(a, c), b)
    decreases a + b + c
  {
    if a + b + c > 0 {
      XorSwitch(a / 2, b / 2, c / 2);
      XorSwitchStep(a, b, c, Xor(Xor(a / 2, b / 2), c / 2));
    }
  }

  lemma {:induction false} XorSwitchStep(a: nat, b: nat, c: nat, half: nat)
    requires Xor(Xor(a / 2, b / 2), c / 2) == half && Xor(Xor(a / 2, c / 2), b / 2) == half
    ensures Xor(Xor(a, b), c) == Xor(Xor(a, c), b)
  {
    XorTwice(a, b, c, half);
    XorTwice(a, c, b, half);
    Parities(a % 2, b % 2, c % 2);
    EqualHalves(Xor(Xor(a, b), c), Xor(Xor(a, c), b));
  }

  lemma {:induction false} XorTwice(a: nat, b: nat, c: nat, half: nat)
    requires Xor(Xor(a / 2, b / 2), c / 2) == half
    ensures Xor(Xor(a, b), c) / 2 == half
    ensures Xor(Xor(a, b), c) % 2 == (a % 2 + b % 2 + c % 2) % 2
  {
    XorHalves(a, b);
    XorHalves(Xor(a, b), c);
    Parities(a % 2, b % 2, c % 2);
  }

  lemma Parities(a: nat, b: nat, c: nat)
    requires a < 2 && b < 2 && c < 2
    ensures ((a + b) % 2 + c) % 2 == (a + b + c) % 2 == (a + c + b) % 2
  {
  }

  lemma EqualHalves(x: nat, y: nat)
    requires x / 2 == y / 2 && x % 2 == y % 2
    ensures x == y
  {
  }

  lemma SameHalves(x: nat, y: nat, a: nat, b: nat)
    requires x % 2 == (a % 2 + b % 2) % 2 && y % 2 == (x % 2 + b % 2) % 2 && y / 2 == a / 2
    ensures y == a
  {
  }

  function XorByte(a: byte, b: byte): byte {
    assert Pow2(8) == 256;
    XorBelow(a, b, 8);
    Xor(a, b)
  }

  /** The two cancellations that the xor swap uses. */
  lemma XorSwap(a: byte, b: byte)
    ensures XorByte(b, XorByte(a, b)) == a && XorByte(XorByte(a, b), a) == b
  {
    XorCommutative(b, Xor(a, b));
    XorCancel(a, b);
    XorCommutative(a, b);
    XorCancel(b, a);
  }
}
