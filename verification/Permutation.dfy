/**
 generate_permutation of algebra_utils.c: whatever the random bytes, the in-place swaps
 leave a permutation that is one single cycle.
 */
module Permutation {
  import opened Bytes

  function Swap(s: seq<int>, i: nat, j: nat): (r: seq<int>)
    requires i < |s| && j < |s|
    ensures |r| == |s|
  {
    s[i := s[j]][j := s[i]]
  }

  /** The swaps for positions i, i-1, ..., 1, each with an earlier position. */
  function Shuffled(s: seq<int>, i: nat, random: seq<int>): (r: seq<int>)
    requires i < |s| && i < |random|
    requires forall k | 0 <= k < |random| :: random[k] >= 0
    ensures |r| == |s|
    decreases i
  {
    if i == 0 then s else Shuffled(Swap(s, i, random[i] % i), i - 1, random)
  }

  function Identity(n: nat): (r: seq<int>) {
    seq(n, i => i)
  }

  function Singletons(n: nat): (r: seq<seq<int>>)
    ensures |r| == n && forall m | 0 <= m < n :: r[m] == [m]
  {
    seq(n, i => [i])
  }

  // ----- Cycles -----

  function Next(t: nat, n: nat): nat
    requires t < n
  {
    if t + 1 < n then t + 1 else 0
  }

  /** Following s from c[0] runs through c and comes back. */
  ghost predicate IsCycle(s: seq<int>, c: seq<int>) {
    && |c| > 0
    && (forall t | 0 <= t < |c| :: 0 <= c[t] < |s|)
    && (forall t | 0 <= t < |c| :: s[c[t]] == c[Next(t, |c|)])
  }

  ghost predicate Distinct(c: seq<int>) {
    forall t, u | 0 <= t < u < |c| :: c[t] != c[u]
  }

  /** One cycle visits every position exactly once. */
  ghost predicate SingleCycle(s: seq<int>) {
    exists c :: IsCycle(s, c) && Distinct(c) && (forall v | 0 <= v < |s| :: v in c)
  }

  ghost predicate Disjoint(c: seq<int>, d: seq<int>) {
    forall v | v in c :: v !in d
  }

  ghost predicate Visited(cs: seq<seq<int>>, v: int) {
    exists m | 0 <= m < |cs| :: v in cs[m]
  }

  /** cs[m] is the cycle through position m; together they visit every position once. */
  ghost predicate Cycles(s: seq<int>, cs: seq<seq<int>>) {
    && (forall m | 0 <= m < |cs| :: IsCycle(s, cs[m]) && cs[m][0] == m && Distinct(cs[m]))
    && (forall m, k | 0 <= m < k < |cs| :: Disjoint(cs[m], cs[k]))
    && (forall v | 0 <= v < |s| :: Visited(cs, v))
  }

  /** The cycle of i spliced into the cycle of j, right after j. */
  function Merge(cj: seq<int>, ci: seq<int>): (c: seq<int>)
    requires |ci| > 0 && |cj| > 0
    ensures |c| == |ci| + |cj| && c[0] == cj[0] && c[|ci|] == ci[0]
    ensures forall t | 1 <= t < |ci| :: c[t] == ci[t]
    ensures forall t | |ci| < t < |c| :: c[t] == cj[t - |ci|]
  {
    cj[..1] + ci[1..] + ci[..1] + cj[1..]
  }

  lemma MergeIsCycle(s: seq<int>, ci: seq<int>, cj: seq<int>)
    requires IsCycle(s, ci) && IsCycle(s, cj) && Distinct(ci) && Distinct(cj) && Disjoint(cj, ci)
    ensures IsCycle(Swap(s, ci[0], cj[0]), Merge(cj, ci))
  {
    var r, c := Swap(s, ci[0], cj[0]), Merge(cj, ci);
    var a, b := |ci|, |cj|;
    assert cj[0] in cj;
    forall t | 0 <= t < |c| ensures 0 <= c[t] < |r| && r[c[t]] == c[Next(t, |c|)] {
      if t == 0 {
        assert s[ci[0]] == ci[Next(0, a)];
      } else if t < a {
        assert ci[t] in ci && ci[t] != cj[0];
        assert s[ci[t]] == ci[Next(t, a)];
      } else if t == a {
        assert ci[0] in ci && ci[0] != cj[0];
        assert s[cj[0]] == cj[Next(0, b)];
      } else {
        assert cj[t - a] in cj && ci[0] in ci;
        assert s[cj[t - a]] == cj[Next(t - a, b)];
      }
    }
  }

  lemma MergeElements(cj: seq<int>, ci: seq<int>, v: int)
    requires |ci| > 0 && |cj| > 0
    ensures v in Merge(cj, ci) <==> v in cj || v in ci
  {
    var c, a := Merge(cj, ci), |ci|;
    if v in cj {
      var t :| 0 <= t < |cj| && cj[t] == v;
      assert c[if t == 0 then 0 else a + t] == v;
    }
    if v in ci {
      var t :| 0 <= t < |ci| && ci[t] == v;
      assert c[if t == 0 then a else t] == v;
    }
  }

  lemma MergeDistinct(cj: seq<int>, ci: seq<int>)
    requires |ci| > 0 && |cj| > 0 && Distinct(ci) && Distinct(cj) && Disjoint(cj, ci)
    ensures Distinct(Merge(cj, ci))
  {
    var c, a := Merge(cj, ci), |ci|;
    forall t, u | 0 <= t < u < |c| ensures c[t] != c[u] {
      if t == 0 || t > a {
        assert c[t] in cj;
        if 0 < u <= a { assert c[u] in ci; }
      } else {
        assert c[t] in ci;
        if u > a { assert c[u] in cj; }
      }
    }
  }

  lemma OtherCycle(s: seq<int>, c: seq<int>, i: nat, j: nat)
    requires i < |s| && j < |s| && IsCycle(s, c) && i !in c && j !in c
    ensures IsCycle(Swap(s, i, j), c)
  {
  }

  lemma MergedCycles(s: seq<int>, cs: seq<seq<int>>, i: nat, j: nat, ds: seq<seq<int>>)
    requires Cycles(s, cs) && |cs| == i + 1 && j < i < |s| && ds == cs[..i][j := Merge(cs[j], cs[i])]
    ensures forall m | 0 <= m < |ds| :: IsCycle(Swap(s, i, j), ds[m]) && ds[m][0] == m && Distinct(ds[m])
  {
    MergeIsCycle(s, cs[i], cs[j]);
    MergeDistinct(cs[j], cs[i]);
    forall m | 0 <= m < |ds| ensures IsCycle(Swap(s, i, j), ds[m]) && ds[m][0] == m && Distinct(ds[m]) {
      if m != j {
        assert cs[i][0] in cs[i] && cs[j][0] in cs[j];
        assert Disjoint(cs[m], cs[i]);
        assert j !in cs[m] by { if j < m { assert Disjoint(cs[j], cs[m]); } else { assert Disjoint(cs[m], cs[j]); } }
        OtherCycle(s, cs[m], i, j);
      }
    }
  }

  lemma MergedDisjoint(s: seq<int>, cs: seq<seq<int>>, i: nat, j: nat, ds: seq<seq<int>>)
    requires Cycles(s, cs) && |cs| == i + 1 && j < i < |s| && ds == cs[..i][j := Merge(cs[j], cs[i])]
    ensures forall m, k | 0 <= m < k < |ds| :: Disjoint(ds[m], ds[k])
  {
    forall v ensures v in Merge(cs[j], cs[i]) <==> v in cs[j] || v in cs[i] { MergeElements(cs[j], cs[i], v); }
    forall m, k | 0 <= m < k < |ds| ensures Disjoint(ds[m], ds[k]) {
      assert Disjoint(cs[m], cs[k]) && Disjoint(cs[m], cs[i]) && Disjoint(cs[k], cs[i]);
      assert m != j ==> ds[m] == cs[m];
      assert k != j ==> ds[k] == cs[k];
    }
  }

  lemma MergedVisits(s: seq<int>, cs: seq<seq<int>>, i: nat, j: nat, ds: seq<seq<int>>)
    requires Cycles(s, cs) && |cs| == i + 1 && j < i < |s| && ds == cs[..i][j := Merge(cs[j], cs[i])]
    ensures forall v | 0 <= v < |s| :: Visited(ds, v)
  {
    forall v ensures v in Merge(cs[j], cs[i]) <==> v in cs[j] || v in cs[i] { MergeElements(cs[j], cs[i], v); }
    forall v | 0 <= v < |s| ensures Visited(ds, v) {
      assert Visited(cs, v);
      var m :| 0 <= m < |cs| && v in cs[m];
      assert v in ds[if m == i then j else m];
    }
  }

  /** A swap of the last open position with an earlier one merges their two cycles. */
  lemma SwapMerges(s: seq<int>, cs: seq<seq<int>>, i: nat, j: nat)
    requires Cycles(s, cs) && |cs| == i + 1 && j < i < |s|
    ensures Cycles(Swap(s, i, j), cs[..i][j := Merge(cs[j], cs[i])])
  {
    var ds := cs[..i][j := Merge(cs[j], cs[i])];
    MergedCycles(s, cs, i, j, ds);
    MergedDisjoint(s, cs, i, j, ds);
    MergedVisits(s, cs, i, j, ds);
  }

  lemma {:induction false} ShuffledCycle(s: seq<int>, cs: seq<seq<int>>, i: nat, random: seq<int>)
    requires Cycles(s, cs) && |cs| == i + 1 && i < |s| && i < |random|
    requires forall k | 0 <= k < |random| :: random[k] >= 0
    ensures SingleCycle(Shuffled(s, i, random))
    decreases i
  {
    if i == 0 {
      forall v | 0 <= v < |s| ensures v in cs[0] { assert Visited(cs, v); }
    } else {
      var j := random[i] % i;
      SwapMerges(s, cs, i, j);
      ShuffledCycle(Swap(s, i, j), cs[..i][j := Merge(cs[j], cs[i])], i - 1, random);
    }
  }

  /** The place i gets what stood at random[i] % i, and is not touched again; nor are the places after it. */
  lemma {:induction false} ShuffledPlace(s: seq<int>, i: nat, random: seq<int>, k: nat)
    requires i <= k < |s| && i < |random| && forall m | 0 <= m < |random| :: random[m] >= 0
    ensures Shuffled(s, i, random)[k] == if k == i && i > 0 then s[random[i] % i] else s[k]
    decreases i
  {
    if i > 0 { ShuffledPlace(Swap(s, i, random[i] % i), i - 1, random, k); }
  }

  /** The bytes decide the permutation: two calls give the same one only if they swap the same places throughout. */
  lemma {:induction false} ShufflesDiffer(s: seq<int>, i: nat, random: seq<int>, random': seq<int>)
    requires i < |s| && i < |random| && i < |random'| && Distinct(s)
    requires (forall k | 0 <= k < |random| :: random[k] >= 0) && forall k | 0 <= k < |random'| :: random'[k] >= 0
    requires Shuffled(s, i, random) == Shuffled(s, i, random')
    ensures forall k | 1 <= k <= i :: random[k] % k == random'[k] % k
    decreases i
  {
    if i > 0 {
      ShuffledPlace(s, i, random, i);
      ShuffledPlace(s, i, random', i);
      var j := random[i] % i;
      assert j == random'[i] % i;
      SwapDistinct(s, i, j);
      ShufflesDiffer(Swap(s, i, j), i - 1, random, random');
    }
  }

  lemma SwapDistinct(s: seq<int>, i: nat, j: nat)
    requires i < |s| && j < |s| && Distinct(s)
    ensures Distinct(Swap(s, i, j))
  {
  }

  lemma IdentityCycles(n: nat)
    ensures Cycles(Identity(n), Singletons(n))
  {
    var s, cs := Identity(n), Singletons(n);
    forall m | 0 <= m < n ensures IsCycle(s, cs[m]) && cs[m][0] == m && Distinct(cs[m]) {
      assert cs[m] == [m] && s[m] == m;
    }
    forall v | 0 <= v < n ensures Visited(cs, v) {
      assert v in cs[v];
    }
  }

  /** Whatever the random numbers, the identity becomes one single cycle. */
  lemma ShuffledIdentity(n: nat, random: seq<int>)
    requires 0 < n <= |random|
    requires forall k | 0 <= k < |random| :: random[k] >= 0
    ensures SingleCycle(Shuffled(Identity(n), n - 1, random))
  {
    IdentityCycles(n);
    ShuffledCycle(Identity(n), Singletons(n), n - 1, random);
  }

  /** A single cycle is a permutation, and moves every position when there are several. */
  lemma SingleCycleFacts(s: seq<int>)
    requires SingleCycle(s)
    ensures Distinct(s) && forall v | 0 <= v < |s| :: 0 <= s[v] < |s|
    ensures |s| > 1 ==> forall v | 0 <= v < |s| :: s[v] != v
  {
    var c :| IsCycle(s, c) && Distinct(c) && (forall v | 0 <= v < |s| :: v in c);
    forall v, w | 0 <= v < w < |s| ensures s[v] != s[w] {
      assert v in c && w in c;
      var t :| 0 <= t < |c| && c[t] == v;
      var u :| 0 <= u < |c| && c[u] == w;
      assert Next(t, |c|) != Next(u, |c|);
    }
    forall v | 0 <= v < |s| ensures 0 <= s[v] < |s| && (|s| > 1 ==> s[v] != v) {
      assert v in c;
      var t :| 0 <= t < |c| && c[t] == v;
      assert s[c[t]] == c[Next(t, |c|)];
      if |s| > 1 {
        assert 0 in c && 1 in c;
        assert |c| > 1;
      }
    }
  }

  // ----- The byte buffer -----

  /** a[i] ^= a[j] */
  method XorAssign(a: array<byte>, i: nat, j: nat)
    requires i < a.Length && j < a.Length
    modifies a
    ensures a[i] == XorByte(old(a[i]), old(a[j]))
    ensures forall k | 0 <= k < a.Length && k != i :: a[k] == old(a[k])
  {
    a[i] := XorByte(a[i], a[j]);
  }

  /** INPLACE_SWAP: three xor assignments exchange two different positions. */
  method XorSwapAt(a: array<byte>, i: nat, j: nat)
    requires j < i < a.Length
    modifies a
    ensures a[..] == Swap(old(a[..]), i, j)
  {
    XorSwap(a[i], a[j]);
    XorAssign(a, i, j);
    XorAssign(a, j, i);
    XorAssign(a, i, j);
  }

  /** The first loop of generate_permutation. */
  method FillIdentity(permutation: array<byte>)
    requires permutation.Length < 256
    modifies permutation
    ensures permutation[..] == Identity(permutation.Length)
  {
    var i := 0;
    while i < permutation.Length
      invariant 0 <= i <= permutation.Length
      invariant forall k | 0 <= k < i :: permutation[k] == k
    {
      permutation[i] := i;
      i := i + 1;
    }
  }

  /** generate_permutation: the in-place xor swaps perform the shuffle. */
  method GeneratePermutation(permutation: array<byte>, random: seq<byte>, randomOk: bool) returns (ok: bool)
    requires 0 < permutation.Length < 256 && |random| == permutation.Length
    modifies permutation
    ensures ok == randomOk
    ensures ok ==> permutation[..] == Shuffled(Identity(permutation.Length), permutation.Length - 1, random)
    ensures ok ==> SingleCycle(permutation[..])
  {
    FillIdentity(permutation);
    var i := permutation.Length - 1;
    if !randomOk {
      return false;
    }
    ghost var n := permutation.Length;
    while i > 0
      invariant 0 <= i < n
      invariant Shuffled(permutation[..], i, random) == Shuffled(Identity(n), n - 1, random)
    {
      var j := random[i] % i;
      XorSwapAt(permutation, i, j);
      i := i - 1;
    }
    ShuffledIdentity(n, random);
    return true;
  }
}
