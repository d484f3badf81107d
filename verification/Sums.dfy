/** Finite sums over the players 0, ..., n-1. */
module Sums {
  import opened Modular
  import opened NumberTheory

  function Sum(n: nat, f: nat -> int): int {
    if n == 0 then 0 else Sum(n - 1, f) + f(n - 1)
  }

  /** The sum that leaves one player out. */
  function Others(n: nat, me: nat, f: nat -> int): int {
    if n == 0 then 0 else Others(n - 1, me, f) + if n - 1 == me then 0 else f(n - 1)
  }

  function Row(F: (nat, nat) -> int, i: nat): nat -> int {
    (j: nat) => F(i, j)
  }

  function Column(F: (nat, nat) -> int, j: nat): nat -> int {
    (i: nat) => F(i, j)
  }

  function RowSums(m: nat, F: (nat, nat) -> int): nat -> int {
    (i: nat) => Sum(m, Row(F, i))
  }

  function ColumnSums(n: nat, F: (nat, nat) -> int): nat -> int {
    (j: nat) => Sum(n, Column(F, j))
  }

  lemma SumEqual(n: nat, f: nat -> int, g: nat -> int)
    requires forall i: nat | i < n :: f(i) == g(i)
    ensures Sum(n, f) == Sum(n, g)
  {
    if n > 0 { SumEqual(n - 1, f, g); }
  }

  lemma SumPlus(n: nat, f: nat -> int, g: nat -> int, h: nat -> int)
    requires forall i: nat | i < n :: h(i) == f(i) + g(i)
    ensures Sum(n, h) == Sum(n, f) + Sum(n, g)
  {
    if n > 0 { SumPlus(n - 1, f, g, h); }
  }

  lemma SumTimes(n: nat, c: int, f: nat -> int, g: nat -> int)
    requires forall i: nat | i < n :: g(i) == c * f(i)
    ensures Sum(n, g) == c * Sum(n, f)
  {
    if n > 0 {
      SumTimes(n - 1, c, f, g);
      assert c * (Sum(n - 1, f) + f(n - 1)) == c * Sum(n - 1, f) + c * f(n - 1);
    }
  }

  lemma SumZero(n: nat, f: nat -> int)
    requires forall i: nat | i < n :: f(i) == 0
    ensures Sum(n, f) == 0
  {
    if n > 0 { SumZero(n - 1, f); }
  }

  lemma SumCong(n: nat, f: nat -> int, g: nat -> int, q: int)
    requires q > 0 && forall i: nat | i < n :: Cong(f(i), g(i), q)
    ensures Cong(Sum(n, f), Sum(n, g), q)
  {
    if n > 0 {
      SumCong(n - 1, f, g, q);
      CongAdd(Sum(n - 1, f), Sum(n - 1, g), f(n - 1), g(n - 1), q);
    }
  }

  /** Changing one entry changes the sum by the difference. */
  lemma SumChange(n: nat, me: nat, f: nat -> int, g: nat -> int)
    requires me < n && forall i: nat | i < n && i != me :: f(i) == g(i)
    ensures Sum(n, g) == Sum(n, f) - f(me) + g(me)
  {
    if n - 1 == me {
      SumEqual(n - 1, f, g);
    } else {
      SumChange(n - 1, me, f, g);
    }
  }

  lemma SumSplit(n: nat, me: nat, f: nat -> int)
    ensures Sum(n, f) == Others(n, me, f) + if me < n then f(me) else 0
  {
    if n > 0 { SumSplit(n - 1, me, f); }
  }

  lemma OthersEqual(n: nat, me: nat, f: nat -> int, g: nat -> int)
    requires forall i: nat | i < n && i != me :: f(i) == g(i)
    ensures Others(n, me, f) == Others(n, me, g)
  {
    if n > 0 { OthersEqual(n - 1, me, f, g); }
  }

  lemma OthersCong(n: nat, me: nat, f: nat -> int, g: nat -> int, q: int)
    requires q > 0 && forall i: nat | i < n && i != me :: Cong(f(i), g(i), q)
    ensures Cong(Others(n, me, f), Others(n, me, g), q)
  {
    if n > 0 {
      OthersCong(n - 1, me, f, g, q);
      if n - 1 != me { CongAdd(Others(n - 1, me, f), Others(n - 1, me, g), f(n - 1), g(n - 1), q); }
    }
  }

  /** Leaving a player out is summing with that entry set to zero. */
  lemma OthersAsSum(n: nat, me: nat, f: nat -> int, g: nat -> int)
    requires forall i: nat | i < n :: g(i) == if i == me then 0 else f(i)
    ensures Others(n, me, f) == Sum(n, g)
  {
    if n > 0 { OthersAsSum(n - 1, me, f, g); }
  }

  lemma OthersMinus(n: nat, me: nat, f: nat -> int, g: nat -> int, h: nat -> int)
    requires forall i: nat | i < n && i != me :: h(i) == f(i) - g(i)
    ensures Others(n, me, h) == Others(n, me, f) - Others(n, me, g)
  {
    if n > 0 { OthersMinus(n - 1, me, f, g, h); }
  }

  /** Adding up by rows and by columns gives the same. */
  lemma SumSwap(n: nat, m: nat, F: (nat, nat) -> int)
    ensures Sum(n, RowSums(m, F)) == Sum(m, ColumnSums(n, F))
  {
    if m == 0 {
      SumZero(n, RowSums(0, F));
    } else {
      SumSwap(n, m - 1, F);
      forall i: nat | i < n ensures RowSums(m, F)(i) == RowSums(m - 1, F)(i) + Column(F, m - 1)(i) {
        assert RowSums(m, F)(i) == Sum(m - 1, Row(F, i)) + Row(F, i)(m - 1);
      }
      SumPlus(n, RowSums(m - 1, F), Column(F, m - 1), RowSums(m, F));
    }
  }

  /** The sum of all pairwise products is the product of the sums. */
  lemma ProductOfSums(n: nat, f: nat -> int, g: nat -> int, F: (nat, nat) -> int)
    requires forall i: nat, j: nat | i < n && j < n :: F(i, j) == f(j) * g(i)
    ensures Sum(n, RowSums(n, F)) == Sum(n, f) * Sum(n, g)
  {
    forall i: nat | i < n ensures RowSums(n, F)(i) == Sum(n, f) * g(i) {
      forall j: nat | j < n ensures Row(F, i)(j) == g(i) * f(j) {
        assert Row(F, i)(j) == F(i, j) == f(j) * g(i);
        assert f(j) * g(i) == g(i) * f(j);
      }
      SumTimes(n, g(i), f, Row(F, i));
      assert g(i) * Sum(n, f) == Sum(n, f) * g(i);
    }
    SumTimes(n, Sum(n, f), g, RowSums(n, F));
  }

  /** The sum of all entries of an n by n table. */
  function Total(n: nat, F: (nat, nat) -> int): int {
    Sum(n, RowSums(n, F))
  }

  function Flip(F: (nat, nat) -> int): (nat, nat) -> int {
    (i: nat, j: nat) => F(j, i)
  }

  lemma TotalFlip(n: nat, F: (nat, nat) -> int)
    ensures Total(n, Flip(F)) == Total(n, F)
  {
    SumSwap(n, n, F);
    forall j: nat | j < n ensures RowSums(n, Flip(F))(j) == ColumnSums(n, F)(j) {
      SumEqual(n, Row(Flip(F), j), Column(F, j));
    }
    SumEqual(n, RowSums(n, Flip(F)), ColumnSums(n, F));
  }

  lemma TotalPlus(n: nat, F: (nat, nat) -> int, G: (nat, nat) -> int, H: (nat, nat) -> int)
    requires forall i: nat, j: nat | i < n && j < n :: H(i, j) == F(i, j) + G(i, j)
    ensures Total(n, H) == Total(n, F) + Total(n, G)
  {
    forall i: nat | i < n ensures RowSums(n, H)(i) == RowSums(n, F)(i) + RowSums(n, G)(i) {
      SumPlus(n, Row(F, i), Row(G, i), Row(H, i));
    }
    SumPlus(n, RowSums(n, F), RowSums(n, G), RowSums(n, H));
  }

  lemma TotalZero(n: nat, F: (nat, nat) -> int)
    requires forall i: nat, j: nat | i < n && j < n :: F(i, j) == 0
    ensures Total(n, F) == 0
  {
    forall i: nat | i < n ensures RowSums(n, F)(i) == 0 {
      SumZero(n, Row(F, i));
    }
    SumZero(n, RowSums(n, F));
  }

  // ----- Products -----

  function Prod(n: nat, f: nat -> int): int {
    if n == 0 then 1 else Prod(n - 1, f) * f(n - 1)
  }

  lemma ProdOne(f: nat -> int)
    ensures Prod(1, f) == f(0)
  {
    assert Prod(0, f) == 1;
  }

  lemma {:induction false} ProdEqual(n: nat, f: nat -> int, g: nat -> int)
    requires forall i: nat | i < n :: f(i) == g(i)
    ensures Prod(n, f) == Prod(n, g)
  {
    if n > 0 { ProdEqual(n - 1, f, g); }
  }

  lemma {:induction false} ProdCong(n: nat, f: nat -> int, g: nat -> int, q: int)
    requires q > 0 && forall i: nat | i < n :: Cong(f(i), g(i), q)
    ensures Cong(Prod(n, f), Prod(n, g), q)
  {
    if n > 0 {
      ProdCong(n - 1, f, g, q);
      CongMul(Prod(n - 1, f), Prod(n - 1, g), f(n - 1), g(n - 1), q);
    }
  }

  lemma {:induction false} ProdPow(n: nat, f: nat -> int, g: nat -> int, e: nat)
    requires forall i: nat | i < n :: g(i) == Pow(f(i), e)
    ensures Prod(n, g) == Pow(Prod(n, f), e)
  {
    if n == 0 {
      PowOne(e);
    } else {
      ProdPow(n - 1, f, g, e);
      PowProduct(Prod(n - 1, f), f(n - 1), e);
    }
  }

  /** A power with a sum as its exponent. */
  lemma {:induction false} PowSum(t: int, n: nat, x: nat -> int, f: nat -> int)
    requires forall i: nat | i < n :: x(i) >= 0 && f(i) == Pow(t, x(i))
    ensures Sum(n, x) >= 0 && Pow(t, Sum(n, x)) == Prod(n, f)
  {
    if n > 0 {
      PowSum(t, n - 1, x, f);
      PowAdd(t, Sum(n - 1, x), x(n - 1));
    }
  }

  lemma {:induction false} ProdUnit(n: nat, f: nat -> int, q: int)
    requires q > 0 && forall i: nat | i < n :: Unit(f(i), q)
    ensures Unit(Prod(n, f), q)
  {
    if n == 0 {
      UnitOne(q);
    } else {
      ProdUnit(n - 1, f, q);
      UnitProduct(Prod(n - 1, f), f(n - 1), q);
    }
  }

  lemma {:induction false} ProdSplit(n: nat, j: nat, f: nat -> int, rest: nat -> int)
    requires j < n && forall i: nat | i < n :: rest(i) == if i == j then 1 else f(i)
    ensures Prod(n, f) == Prod(n, rest) * f(j)
  {
    if j == n - 1 {
      ProdEqual(n - 1, f, rest);
    } else {
      ProdSplit(n - 1, j, f, rest);
      assert Prod(n - 1, rest) * f(j) * f(n - 1) == Prod(n - 1, rest) * f(n - 1) * f(j);
    }
  }

  /** If two products agree, and all factors but one agree and are invertible, so does that one. */
  lemma {:induction false} ProdCancel(n: nat, j: nat, f: nat -> int, g: nat -> int, q: int)
    requires q > 0 && j < n && Cong(Prod(n, f), Prod(n, g), q)
    requires forall i: nat | i < n && i != j :: Unit(f(i), q) && Cong(f(i), g(i), q)
    ensures Cong(f(j), g(j), q)
  {
    var f', g' := (i: nat) => if i == j then 1 else f(i), (i: nat) => if i == j then 1 else g(i);
    ProdSplit(n, j, f, f');
    ProdSplit(n, j, g, g');
    UnitOne(q);
    ProdUnit(n, f', q);
    ProdCong(n, f', g', q);
    CongMulLeft(Prod(n, f'), Prod(n, g'), g(j), q);
    UnitCancel(Prod(n, f'), f(j), g(j), q);
  }
}
