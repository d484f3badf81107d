/**
 The prime-order group of an elliptic curve. Every point is a multiple of the generator,
 so a point is its discrete logarithm and the group operations are those of the integers
 modulo the order q.
 */
module Curve {
  import opened Modular

  datatype Point = Point(log: int)

  const Infinity := Point(0)

  ghost predicate OnCurve(p: Point, q: int) {
    0 <= p.log < q
  }

  /** algebra->generator_mul and generator_mul_data */
  function GeneratorMul(s: int, q: int): (p: Point)
    requires q > 0
    ensures OnCurve(p, q)
  {
    Point(s % q)
  }

  /** algebra->add_points */
  function AddPoints(a: Point, b: Point, q: int): (p: Point)
    requires q > 0
    ensures OnCurve(p, q)
  {
    Point((a.log + b.log) % q)
  }

  /** algebra->point_mul */
  function PointMul(a: Point, s: int, q: int): (p: Point)
    requires q > 0
    ensures OnCurve(p, q)
  {
    Point((a.log * s) % q)
  }

  /** algebra->add_scalars and sub_scalars; mul_scalars is MulMod. */
  function AddScalars(a: int, b: int, q: int): (r: int)
    requires q > 0
    ensures 0 <= r < q
  {
    (a + b) % q
  }

  function SubScalars(a: int, b: int, q: int): (r: int)
    requires q > 0
    ensures 0 <= r < q
  {
    (a - b) % q
  }

  lemma AddCong(a: int, a': int, b: int, b': int, q: int)
    requires q > 0 && Cong(a, a', q) && Cong(b, b', q)
    ensures Cong(AddScalars(a, b, q), a' + b', q)
  {
    CongAdd(a, a', b, b', q);
    CongMod(a + b, q);
  }

  lemma SubCong(a: int, a': int, b: int, b': int, q: int)
    requires q > 0 && Cong(a, a', q) && Cong(b, b', q)
    ensures Cong(SubScalars(a, b, q), a' - b', q)
  {
    CongSub(a, a', b, b', q);
    CongMod(a - b, q);
  }

  lemma MulCong(a: int, a': int, b: int, b': int, q: int)
    requires q > 0 && Cong(a, a', q) && Cong(b, b', q)
    ensures Cong(MulMod(a, b, q), a' * b', q)
  {
    CongMul(a, a', b, b', q);
    CongMod(a * b, q);
  }

  /** Points are equal exactly when their logarithms are congruent. */
  lemma SamePoint(a: Point, b: Point, q: int)
    requires OnCurve(a, q) && OnCurve(b, q)
    ensures a == b <==> Cong(a.log, b.log, q)
  {
    ModUnique(a.log, 0, a.log, q);
    ModUnique(b.log, 0, b.log, q);
  }
}
