/** What the players' stored presignatures have to satisfy together. */
module Presignature {
  import opened Modular
  import opened NumberTheory
  import opened Curve
  import opened Sums

  /** k_i*x_i + chi_i, player i's share of (sum k)(sum x). */
  function Shares(k: nat -> int, x: nat -> int, chi: nat -> int): nat -> int {
    (i: nat) => k(i) * x(i) + chi(i)
  }

  /** R is the inverse of the joint k, and the shares add up to the product of the joint k and the joint key. */
  ghost predicate Good(q: int, n: nat, k: nat -> int, x: nat -> int, chi: nat -> int, R: Point) {
    && q > 1
    && OnCurve(R, q)
    && Cong(R.log * Sum(n, k), 1, q)
    && Cong(Sum(n, Shares(k, x, chi)), Sum(n, k) * Sum(n, x), q)
  }

  /** The joint k determines R. */
  lemma InverseUnique(q: int, R: Point, R': Point, k: int)
    requires q > 1 && OnCurve(R, q) && OnCurve(R', q) && Cong(R.log * k, 1, q) && Cong(R'.log * k, 1, q)
    ensures R == R'
  {
    assert k * R.log == R.log * k && k * R'.log == R'.log * k;
    assert InverseOf(k, R.log, q);
    UnitCancel(k, R.log, R'.log, q);
    SamePoint(R, R', q);
  }
}
