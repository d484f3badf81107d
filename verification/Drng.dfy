/** drng.c: a stream of bytes from a chain of SHA-512 hashes. */
module Drng {
  import opened Bytes
  import opened Wrappers

  type Digest = d: seq<byte> | |d| == 64 witness seq(64, _ => 0)

  /** SHA-512 */
  type Hash = seq<byte> -> Digest

  // ----- The stream -----

  /** The n-th hash of the chain: each one's second half is hashed to the next. */
  function Link(hash: Hash, origin: Digest, n: nat): Digest {
    if n == 0 then origin else hash(Link(hash, origin, n - 1)[32..])
  }

  /** Byte k of the stream: the first halves of the hashes, one after the other. */
  function StreamByte(hash: Hash, origin: Digest, k: nat): byte {
    Link(hash, origin, k / 32)[k % 32]
  }

  function Stream(hash: Hash, origin: Digest, start: nat, length: nat): (s: seq<byte>)
    ensures |s| == length
  {
    seq<byte>(length, i requires 0 <= i < length => StreamByte(hash, origin, start + i))
  }

  lemma StreamConcat(hash: Hash, origin: Digest, start: nat, a: nat, b: nat)
    ensures Stream(hash, origin, start, a) + Stream(hash, origin, start + a, b) == Stream(hash, origin, start, a + b)
  {
  }

  /** Within one block the stream is a slice of the hash. */
  lemma StreamInBlock(hash: Hash, origin: Digest, block: nat, pos: nat, length: nat)
    requires pos + length <= 32
    ensures Stream(hash, origin, 32 * block + pos, length) == Link(hash, origin, block)[pos..pos + length]
  {
    var s := Stream(hash, origin, 32 * block + pos, length);
    forall i | 0 <= i < length ensures s[i] == Link(hash, origin, block)[pos + i] {
      BlockOf(block, pos + i);
      assert s[i] == StreamByte(hash, origin, 32 * block + (pos + i));
    }
  }

  /**
   What the generator hands out: first the first half of the digest it starts from, and after that what
   a generator hands out that starts from the hash of the second half.
   */
  lemma {:induction false} StreamUnfolds(hash: Hash, origin: Digest, start: nat, length: nat)
    ensures start + length <= 32 ==> Stream(hash, origin, start, length) == origin[start..start + length]
    ensures Stream(hash, origin, start + 32, length) == Stream(hash, hash(origin[32..]), start, length)
  {
    forall i | 0 <= i < length
      ensures Stream(hash, origin, start + 32, length)[i] == Stream(hash, hash(origin[32..]), start, length)[i]
    {
      ByteUnfolds(hash, origin, start + i);
    }
    if start + length <= 32 {
      StreamInBlock(hash, origin, 0, start, length);
      assert Link(hash, origin, 0) == origin;
    }
  }

  lemma {:induction false} ByteUnfolds(hash: Hash, origin: Digest, k: nat)
    ensures StreamByte(hash, origin, k + 32) == StreamByte(hash, hash(origin[32..]), k)
  {
    assert (k + 32) / 32 == k / 32 + 1 && (k + 32) % 32 == k % 32;
    LinkUnfolds(hash, origin, k / 32);
  }

  lemma {:induction false} LinkUnfolds(hash: Hash, origin: Digest, n: nat)
    ensures Link(hash, origin, n + 1) == Link(hash, hash(origin[32..]), n)
  {
    if n > 0 {
      LinkUnfolds(hash, origin, n - 1);
    } else {
      assert Link(hash, origin, 0) == origin;
    }
  }

  lemma BlockOf(block: nat, i: nat)
    requires i < 32
    ensures (32 * block + i) / 32 == block && (32 * block + i) % 32 == i
  {
  }

  // ----- The generator -----

  /** drng_t; data and seed are the halves of one array, as they are in memory. */
  class Generator {
    const hash: Hash
    const state: array<byte>
    var pos: nat
    ghost var origin: Digest
    ghost var block: nat
    /** Everything read so far. */
    ghost var output: seq<byte>

    ghost predicate Valid()
      reads this, state
    {
      && state.Length == 64 && pos <= 32
      && state[..] == Link(hash, origin, block)
      && output == Stream(hash, origin, 0, 32 * block + pos)
    }

    constructor (hash: Hash, seed: seq<byte>)
      ensures Valid() && fresh(state) && this.hash == hash && origin == hash(seed) && output == []
    {
      this.hash := hash;
      state := new byte[64] (i requires 0 <= i < 64 => hash(seed)[i]);
      pos, block, origin, output := 0, 0, hash(seed), [];
      new;
      assert state[..] == hash(seed);
    }

    /** memcpy from the data to the output */
    method CopyOut(rand: array<byte>, at: nat, size: nat)
      requires state.Length == 64 && pos + size <= 32 && at + size <= rand.Length && rand != state
      modifies rand
      ensures rand[..] == old(rand[..at]) + state[pos..pos + size] + old(rand[at + size..])
    {
      forall i | 0 <= i < size { rand[at + i] := state[pos + i]; }
    }

    /** The next hash replaces data and seed. */
    method Refill()
      requires Valid() && pos == 32
      modifies this`pos, this`block, state
      ensures Valid() && pos == 0 && block == old(block) + 1 && output == old(output)
    {
      var next := hash(state[32..]);
      forall i | 0 <= i < 64 { state[i] := next[i]; }
      pos, block := 0, block + 1;
      assert state[..] == next;
    }

    /** Hands out bytes of the current block. */
    method Take(rand: array<byte>, at: nat, size: nat)
      requires Valid() && pos + size <= 32 && at + size <= rand.Length && rand != state
      modifies this`pos, this`output, rand
      ensures Valid() && pos == old(pos) + size
      ensures rand[..] == old(rand[..at]) + rand[at..at + size] + old(rand[at + size..])
      ensures output == old(output) + rand[at..at + size]
    {
      StreamInBlock(hash, origin, block, pos, size);
      StreamConcat(hash, origin, 0, 32 * block + pos, size);
      CopyOut(rand, at, size);
      assert rand[at..at + size] == state[pos..pos + size];
      output := output + state[pos..pos + size];
      pos := pos + size;
    }

    /** drng_read_deterministic_rand: the next bytes of the stream; a buffer inside the generator is refused. */
    method Read(rand: array<byte>, length: nat) returns (ok: bool)
      requires Valid() && length <= rand.Length
      modifies this`pos, this`block, this`output, state, rand
      ensures ok <==> length > 0 && rand != state
      ensures Valid() && (!ok ==> output == old(output) && state[..] == old(state[..]) && rand[..] == old(rand[..]))
      ensures ok ==> output == old(output) + rand[..length] && rand[length..] == old(rand[length..])
    {
      if length == 0 { return false; }
      if rand == state { return false; }
      var at, left := 0, length;
      while left > 32 - pos
        invariant Valid() && 0 <= at && 0 <= left && at + left == length
        invariant output == old(output) + rand[..at] && rand[length..] == old(rand[length..])
        decreases left, pos
      {
        var size := 32 - pos;
        Take(rand, at, size);
        assert rand[..at + size] == rand[..at] + rand[at..at + size];
        at := at + size;
        left := left - size;
        Refill();
      }
      Take(rand, at, left);
      assert rand[..length] == rand[..at] + rand[at..at + left];
      return true;
    }
  }

  /** drng_new */
  method New(hash: Hash, seed: seq<byte>) returns (rng: Option<Generator>)
    ensures rng.Some? <==> seed != []
    ensures rng.Some? ==> fresh(rng.value) && fresh(rng.value.state) && rng.value.Valid()
    ensures rng.Some? ==> rng.value.hash == hash && rng.value.origin == hash(seed) && rng.value.output == []
  {
    if |seed| == 0 { return None; }
    var g := new Generator(hash, seed);
    return Some(g);
  }

  /** Two generators from one seed that have handed out equally many bytes have handed out the same ones. */
  lemma ChunksDoNotMatter(a: Generator, b: Generator)
    requires a.Valid() && b.Valid() && a.hash == b.hash && a.origin == b.origin && |a.output| == |b.output|
    ensures a.output == b.output
  {
  }
}
