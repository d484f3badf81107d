/**
 generate_tough_prime of algebra_utils.c: primes of the form 2*f1*...*fk + 1 whose factors
 are different entries of a pool of sub-primes.
 */
module ToughPrime {
  import opened Wrappers
  import opened Bytes
  import opened Permutation
  import opened Modular
  import opened Sums

  const POOL_INCREASE := 15
  const MAX_TRIES := 2000
  const MAX_CYCLES := 100

  /** What OpenSSL supplies: primes and random bytes per cycle and trial, and the primality test. */
  datatype Source = Source(
    safePrime: Option<int>,
    subPrime: (nat, nat) -> Option<int>,
    randomByte: (nat, nat, nat) -> byte,
    randomOk: (nat, nat) -> bool,
    isPrime: int -> bool)

  /** pool_size is a uint8_t. */
  function PoolSize(factors: nat): (r: nat)
    ensures r < 256
  {
    (factors + POOL_INCREASE) % 256
  }

  /** Of the factor counts the size check lets through, 241 alone wraps the pool to size 0. */
  lemma PoolHoldsFactors(factors: nat)
    requires 4 <= factors <= 256 - POOL_INCREASE
    ensures PoolSize(factors) >= factors <==> factors <= 240
    ensures PoolSize(241) == 0
  {
  }

  function Product(pool: seq<int>, idx: seq<int>): int
    requires forall k | 0 <= k < |idx| :: 0 <= idx[k] < |pool|
  {
    if idx == [] then 1 else Product(pool, idx[..|idx| - 1]) * pool[idx[|idx| - 1]]
  }

  /** A choice of `factors` different pool entries. */
  ghost predicate Selection(idx: seq<int>, factors: nat, pool: seq<int>) {
    |idx| == factors && Distinct(idx) && forall k | 0 <= k < |idx| :: 0 <= idx[k] < |pool|
  }

  /** p - 1 is twice the product of `factors` different pool entries. */
  ghost predicate BuiltFrom(p: int, factors: nat, pool: seq<int>) {
    exists idx :: Selection(idx, factors, pool) && p == 2 * Product(pool, idx) + 1
  }

  lemma {:induction false} OddProduct(pool: seq<int>, idx: seq<int>)
    requires forall k | 0 <= k < |idx| :: 0 <= idx[k] < |pool|
    requires forall k | 0 <= k < |pool| :: pool[k] % 2 == 1
    ensures Product(pool, idx) % 2 == 1
  {
    if idx != [] {
      OddProduct(pool, idx[..|idx| - 1]);
      OddTimesOdd(Product(pool, idx[..|idx| - 1]), pool[idx[|idx| - 1]]);
    }
  }

  lemma OddTimesOdd(x: int, y: int)
    requires x % 2 == 1 && y % 2 == 1
    ensures x * y % 2 == 1
  {
    var a, b := x / 2, y / 2;
    var k := 2 * (a * b) + a + b;
    assert x * y == (2 * a + 1) * y == 2 * (a * y) + y;
    assert a * y == a * (2 * b + 1) == 2 * (a * b) + a;
    assert x * y == 2 * k + 1;
  }

  /** Odd sub-primes make the prime 3 modulo 4. */
  lemma BuiltIsThreeModFour(p: int, factors: nat, pool: seq<int>)
    requires BuiltFrom(p, factors, pool)
    requires forall k | 0 <= k < |pool| :: pool[k] % 2 == 1
    ensures p % 4 == 3
  {
    var idx :| Selection(idx, factors, pool) && p == 2 * Product(pool, idx) + 1;
    OddProduct(pool, idx);
    TwiceOddPlusOne(Product(pool, idx));
  }

  lemma TwiceOddPlusOne(x: int)
    requires x % 2 == 1
    ensures (2 * x + 1) % 4 == 3
  {
  }

  ghost predicate PoolOf(pool: seq<int>, src: Source, cycle: nat, size: nat) {
    |pool| == size && forall k | 0 <= k < size :: src.subPrime(cycle, k) == Some(pool[k])
  }

  /** What a composite result promises. */
  ghost predicate Tough(p: int, bitsize: nat, factors: nat, add: Option<nat>, rem: Option<nat>, src: Source) {
    && p >= 0 && NumBits(p) == bitsize && src.isPrime(p)
    && (add.Some? && rem.Some? ==> add.value > 0 && p % add.value == rem.value)
    && exists cycle: nat, pool :: PoolOf(pool, src, cycle, PoolSize(factors)) && BuiltFrom(p, factors, pool)
  }

  /** The pool of one cycle, None when a prime could not be generated. */
  method FillPool(src: Source, cycle: nat, size: nat) returns (pool: seq<int>, ok: bool)
    ensures ok ==> PoolOf(pool, src, cycle, size)
  {
    pool := [];
    while |pool| < size
      invariant |pool| <= size && PoolOf(pool, src, cycle, |pool|)
    {
      var prime := src.subPrime(cycle, |pool|);
      if prime.None? { return pool, false; }
      pool := pool + [prime.value];
    }
    return pool, true;
  }

  /** The product loop over the first entries of the permutation. */
  method Multiply(pool: seq<int>, permutation: seq<int>, factors: nat) returns (p: int)
    requires |permutation| == |pool| && factors <= |pool| && SingleCycle(permutation)
    ensures BuiltFrom(p, factors, pool)
    ensures p == 2 * Prod(factors, (k: nat) =>
      if k < |permutation| && 0 <= permutation[k] < |pool| then pool[permutation[k]] else 1) + 1
  {
    p := 2;
    SingleCycleFacts(permutation);
    var k := 0;
    while k < factors
      invariant 0 <= k <= factors
      invariant p == 2 * Product(pool, permutation[..k])
    {
      ProductNext(pool, permutation, k);
      p := p * pool[permutation[k]];
      k := k + 1;
    }
    p := p + 1;
    assert Selection(permutation[..factors], factors, pool);
    assert permutation[..factors] == permutation[..factors][..factors];
    ProductMeans(pool, permutation[..factors], (k: nat) =>
      if k < |permutation| && 0 <= permutation[k] < |pool| then pool[permutation[k]] else 1);
  }

  lemma {:induction false} ProductMeans(pool: seq<int>, idx: seq<int>, f: nat -> int)
    requires forall k: nat | k < |idx| :: 0 <= idx[k] < |pool| && f(k) == pool[idx[k]]
    ensures Product(pool, idx) == Prod(|idx|, f)
  {
    if idx != [] { ProductMeans(pool, idx[..|idx| - 1], f); }
  }

  lemma ProductNext(pool: seq<int>, order: seq<int>, k: nat)
    requires k < |order| && forall v | 0 <= v < |order| :: 0 <= order[v] < |pool|
    ensures 2 * Product(pool, order[..k + 1]) == 2 * Product(pool, order[..k]) * pool[order[k]]
  {
    var idx := order[..k + 1];
    assert idx[..|idx| - 1] == order[..k] && idx[|idx| - 1] == order[k];
  }

  method GenerateToughPrime(bitsize: nat, subBits: nat, add: Option<nat>, rem: Option<nat>, src: Source)
    returns (r: Result<int>)
    requires bitsize != 241 * subBits
    ensures bitsize == 0 || subBits == 0 || subBits > 0x8000 || bitsize % subBits != 0 ==> r == Failure(InvalidParameter)
    ensures bitsize > 240 * subBits ==> r == Failure(InvalidParameter)
    ensures r.Success? && bitsize < 4 * subBits ==> src.safePrime == Some(r.value)
    ensures r.Success? && bitsize >= 4 * subBits ==> Tough(r.value, bitsize, bitsize / subBits, add, rem, src)
  {
    if bitsize == 0 || subBits == 0 || subBits > 0x8000 || bitsize % subBits != 0 {
      return Failure(InvalidParameter);
    }
    assert bitsize == (bitsize / subBits) * subBits;
    if bitsize < 4 * subBits {
      return if src.safePrime.Some? then Success(src.safePrime.value) else Failure(InternalError);
    }
    var factors := bitsize / subBits;
    FactorRange(bitsize, subBits, factors);
    if bitsize > (256 - POOL_INCREASE) * subBits {
      return Failure(InvalidParameter);
    }
    var poolSize := PoolSize(factors);
    var permutation := new byte[poolSize](_ => 0);
    var cycle := 0;
    while cycle < MAX_CYCLES
      invariant 0 <= cycle
    {
      var pool, ok := FillPool(src, cycle, poolSize);
      if !ok { return Failure(InternalError); }
      var trial := 0;
      while trial < MAX_TRIES
        invariant 0 <= trial
      {
        var random := seq(poolSize, k requires 0 <= k < poolSize => src.randomByte(cycle, trial, k));
        ok := GeneratePermutation(permutation, random, src.randomOk(cycle, trial));
        if !ok { return Failure(InternalError); }
        var p := Multiply(pool, permutation[..], factors);
        trial := trial + 1;
        if p < 0 || NumBits(p) != bitsize { continue; }
        if add.Some? && rem.Some? {
          if add.value == 0 { return Failure(InternalError); }
          if p % add.value != rem.value { continue; }
        }
        if src.isPrime(p) { return Success(p); }
      }
      cycle := cycle + 1;
    }
    return Failure(InternalError);
  }

  lemma FactorRange(bitsize: nat, subBits: nat, factors: nat)
    requires subBits > 0 && bitsize == factors * subBits && bitsize != 241 * subBits && bitsize >= 4 * subBits
    ensures factors >= 4 && factors != 241
    ensures bitsize > 240 * subBits <==> factors > 241
    ensures bitsize > 241 * subBits <==> factors > 241
  {
    ProductOrder(factors, 4, subBits);
    ProductOrder(factors, 240, subBits);
    ProductOrder(factors, 241, subBits);
  }

  lemma ProductOrder(a: int, b: int, c: int)
    requires c > 0
    ensures a < b <==> a * c < b * c
  {
    MultipleGrows(b - a, c);
    assert (b - a) * c == b * c - a * c;
  }
}
