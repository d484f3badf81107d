/**
 keccak1600.c: the buffering around the Keccak sponge. The permutation itself is a parameter:
 what one block does to the state, and what is squeezed out of it.
 */
module Keccak {
  import opened Bytes

  datatype Sponge<!S> = Sponge(zero: S, absorb: (S, seq<byte>) -> S, squeeze: (S, nat, nat) -> seq<byte>)

  // ----- Blocks -----

  /** What is left of n after taking r as often as possible. */
  function Rest(n: nat, r: nat): (k: nat)
    requires r > 0
    ensures k < r && k <= n
  {
    if n < r then n else Rest(n - r, r)
  }

  /** The state after all whole blocks of the data. */
  function Absorbed<S>(f: (S, seq<byte>) -> S, s: S, data: seq<byte>, r: nat): S
    requires r > 0
    decreases |data|
  {
    if |data| < r then s else Absorbed(f, f(s, data[..r]), data[r..], r)
  }

  lemma {:induction false} RestAdd(n: nat, m: nat, r: nat)
    requires r > 0 && Rest(n, r) == 0
    ensures Rest(n + m, r) == Rest(m, r)
  {
    if n > 0 { RestAdd(n - r, m, r); }
  }

  lemma {:induction false} RestOfWhole(n: nat, r: nat)
    requires r > 0
    ensures Rest(n - Rest(n, r), r) == 0
  {
    if n >= r { RestOfWhole(n - r, r); }
  }

  /** Absorbing whole blocks first and the remaining data later gives the same state. */
  lemma {:induction false} AbsorbedConcat<S>(f: (S, seq<byte>) -> S, s: S, a: seq<byte>, b: seq<byte>, r: nat)
    requires r > 0 && Rest(|a|, r) == 0
    ensures Absorbed(f, s, a + b, r) == Absorbed(f, Absorbed(f, s, a, r), b, r)
    decreases |a|
  {
    if a == [] {
      assert a + b == b;
    } else {
      assert (a + b)[..r] == a[..r] && (a + b)[r..] == a[r..] + b;
      AbsorbedConcat(f, f(s, a[..r]), a[r..], b, r);
    }
  }

  /** An incomplete block at the end does not matter. */
  lemma {:induction false} AbsorbedTail<S>(f: (S, seq<byte>) -> S, s: S, a: seq<byte>, b: seq<byte>, r: nat)
    requires r > 0 && Rest(|a|, r) == 0 && |b| < r
    ensures Absorbed(f, s, a + b, r) == Absorbed(f, s, a, r)
  {
    AbsorbedConcat(f, s, a, b, r);
  }

  // ----- Padding -----

  function Zeros(n: nat): (z: seq<byte>)
    ensures |z| == n && forall i | 0 <= i < n :: z[i] == 0
  {
    if n == 0 then [] else Zeros(n - 1) + [0]
  }

  /** x | 0x80 */
  function WithTopBit(x: byte): byte {
    if x >= 0x80 then x else x + 0x80
  }

  /** What final appends: the pad byte, zeros and 0x80, the last two sharing a byte if only one is left. */
  function Padding(n: nat, r: nat, pad: byte): (p: seq<byte>)
    requires n < r
    ensures |p| == r - n
  {
    if n == r - 1 then [WithTopBit(pad)] else [pad] + Zeros(r - n - 2) + [0x80]
  }

  function Padded(message: seq<byte>, r: nat, pad: byte): seq<byte>
    requires r > 0
  {
    message + Padding(Rest(|message|, r), r, pad)
  }

  lemma {:induction false} PaddedIsWhole(message: seq<byte>, r: nat, pad: byte)
    requires r > 0
    ensures Rest(|Padded(message, r, pad)|, r) == 0
  {
    var n := Rest(|message|, r);
    RestOfWhole(|message|, r);
    RestAdd(|message| - n, r, r);
  }

  function StripZeros(s: seq<byte>): seq<byte> {
    if s != [] && s[|s| - 1] == 0 then StripZeros(s[..|s| - 1]) else s
  }

  function DropLast(s: seq<byte>): seq<byte> {
    if s == [] then [] else s[..|s| - 1]
  }

  /** The inverse of padding, for pad bytes between 1 and 0x7f. */
  function Unpadded(p: seq<byte>): seq<byte> {
    if p == [] then []
    else if p[|p| - 1] != 0x80 then DropLast(p)
    else DropLast(StripZeros(DropLast(p)))
  }

  lemma {:induction false} StripAppended(s: seq<byte>, n: nat)
    ensures StripZeros(s + Zeros(n)) == StripZeros(s)
  {
    if n == 0 {
      assert s + Zeros(0) == s;
    } else {
      assert (s + Zeros(n))[..|s + Zeros(n)| - 1] == s + Zeros(n - 1);
      StripAppended(s, n - 1);
    }
  }

  /** Padding loses nothing: different messages give different padded messages. */
  lemma {:induction false} UnpadPadded(message: seq<byte>, r: nat, pad: byte)
    requires r > 0 && 0 < pad < 0x80
    ensures Unpadded(Padded(message, r, pad)) == message
  {
    var n, p := Rest(|message|, r), Padded(message, r, pad);
    if n == r - 1 {
      assert DropLast(p) == message;
    } else {
      var zeros := Zeros(r - n - 2);
      assert DropLast(p) == (message + [pad]) + zeros;
      StripAppended(message + [pad], r - n - 2);
      assert DropLast(message + [pad]) == message;
    }
  }

  // ----- The context -----

  /** (KECCAK1600_WIDTH - md_size_in_bits * 2) / 8 in size_t. */
  function BlockSize(mdBits: nat): nat {
    (1600 - mdBits * 2) % 0x1_0000_0000_0000_0000 / 8
  }

  /** KECCAK1600_CTX */
  class Context<S> {
    const sponge: Sponge<S>
    const buf: array<byte>
    var A: S
    var blockSize: nat
    var mdSize: nat
    var num: nat
    var pad: byte
    /** Everything passed to update so far. */
    ghost var message: seq<byte>

    constructor (sponge: Sponge<S>)
      ensures this.sponge == sponge && fresh(buf) && buf.Length == 168
    {
      this.sponge, A := sponge, sponge.zero;
      blockSize, mdSize, num, pad, message := 0, 0, 0, 0, [];
      buf := new byte[168] (_ => 0);
    }

    /** The absorbed blocks and the buffered bytes make up the message. */
    ghost predicate Valid()
      reads this, buf
    {
      && 0 < blockSize <= buf.Length == 168 && num < blockSize && num <= |message|
      && var whole := |message| - num;
        && Rest(whole, blockSize) == 0
        && A == Absorbed(sponge.absorb, sponge.zero, message[..whole], blockSize)
        && buf[..num] == message[whole..]
    }

    /** keccak1600_init */
    method Init(mdBits: nat, pad: byte) returns (ok: bool)
      requires buf.Length == 168
      modifies this
      ensures ok <==> BlockSize(mdBits) <= 168
      ensures ok ==> blockSize == BlockSize(mdBits) && mdSize == mdBits / 8 && this.pad == pad && message == []
      ensures ok && blockSize > 0 ==> Valid()
    {
      var bsz := BlockSize(mdBits);
      if bsz <= buf.Length {
        A := sponge.zero;
        num := 0;
        blockSize := bsz;
        mdSize := mdBits / 8;
        this.pad := pad;
        message := [];
        return true;
      }
      return false;
    }

    /** SHA3_absorb: all whole blocks of the input; the length of what is left over. */
    method Absorb(inp: seq<byte>, r: nat) returns (rem: nat)
      requires r > 0
      modifies this`A
      ensures A == Absorbed(sponge.absorb, old(A), inp, r) && rem == Rest(|inp|, r)
    {
      var data := inp;
      while |data| >= r
        invariant Absorbed(sponge.absorb, A, data, r) == Absorbed(sponge.absorb, old(A), inp, r)
        invariant Rest(|data|, r) == Rest(|inp|, r)
        decreases |data|
      {
        A := sponge.absorb(A, data[..r]);
        data := data[r..];
      }
      rem := |data|;
    }

    /** memcpy into the buffer */
    method CopyToBuffer(at: nat, bytes: seq<byte>)
      requires at + |bytes| <= buf.Length
      modifies buf
      ensures buf[..] == old(buf[..at]) + bytes + old(buf[at + |bytes|..])
    {
      forall i | 0 <= i < |bytes| { buf[at + i] := bytes[i]; }
    }

    /** keccak1600_update */
    method Update(inp: seq<byte>)
      requires Valid()
      modifies this`A, this`num, this`message, buf
      ensures Valid() && message == old(message) + inp
    {
      if |inp| == 0 {
        assert message + inp == message;
        return;
      }
      var bsz, rest := blockSize, inp;
      if num != 0 {
        var rem := bsz - num;
        if |inp| < rem {
          Extend(inp);
          return;
        }
        FillAndAbsorb(inp[..rem]);
        rest := inp[rem..];
        assert old(message) + inp == message + rest;
      }
      AbsorbRest(rest);
    }

    /** The input fits into the buffer without filling it. */
    method Extend(inp: seq<byte>)
      requires Valid() && num + |inp| < blockSize
      modifies this`num, this`message, buf
      ensures Valid() && message == old(message) + inp
    {
      var whole := |message| - num;
      CopyToBuffer(num, inp);
      ghost var longer := message + inp;
      assert longer[..whole] == message[..whole] && longer[whole..] == message[whole..] + inp;
      message := longer;
      num := num + |inp|;
    }

    /** The input fills the buffer, which is absorbed. */
    method FillAndAbsorb(inp: seq<byte>)
      requires Valid() && |inp| == blockSize - num
      modifies this`A, this`num, this`message, buf
      ensures Valid() && num == 0 && message == old(message) + inp
    {
      ghost var whole := |message| - num;
      ghost var first := message[..whole];
      CopyToBuffer(num, inp);
      var block := buf[..blockSize];
      assert block == message[whole..] + inp;
      AbsorbedConcat(sponge.absorb, sponge.zero, first, block, blockSize);
      var rem := Absorb(block, blockSize);
      assert message == first + message[whole..];
      assert message + inp == first + block;
      RestAdd(whole, blockSize, blockSize);
      message := message + inp;
      num := 0;
      assert message[..|message|] == message;
    }

    /** With an empty buffer, whole blocks are absorbed directly and the remainder is kept. */
    method AbsorbRest(inp: seq<byte>)
      requires Valid() && num == 0
      modifies this`A, this`num, this`message, buf
      ensures Valid() && message == old(message) + inp
    {
      var rem := |inp|;
      ghost var before := message;
      assert before[..|before|] == before;
      if |inp| >= blockSize {
        rem := Absorb(inp, blockSize);
      }
      AbsorbedAll(sponge.absorb, sponge.zero, before, inp, blockSize);
      var tail := inp[|inp| - rem..];
      message := message + inp;
      assert message[|message| - rem..] == tail;
      if rem != 0 {
        CopyToBuffer(0, tail);
        num := rem;
      }
    }

    /** The buffer becomes the last block of the padded message. */
    method PadBuffer()
      requires 0 < blockSize <= buf.Length && num < blockSize
      modifies buf
      ensures buf[..blockSize] == old(buf[..num]) + Padding(num, blockSize, pad)
    {
      CopyToBuffer(num, Zeros(blockSize - num));
      buf[num] := pad;
      buf[blockSize - 1] := WithTopBit(buf[blockSize - 1]);
    }

    /** keccak1600_final: the digest is that of the padded message. */
    method Final() returns (md: seq<byte>)
      requires Valid()
      modifies this`A, buf
      ensures md == sponge.squeeze(Absorbed(sponge.absorb, sponge.zero, Padded(message, blockSize, pad), blockSize), mdSize, blockSize)
    {
      PadBuffer();
      LastBlock(sponge.absorb, sponge.zero, message, num, blockSize, pad);
      var rem := Absorb(buf[..blockSize], blockSize);
      md := sponge.squeeze(A, mdSize, blockSize);
    }
  }

  /** What absorbing the whole blocks of an input makes of a state that has absorbed whole blocks before. */
  lemma {:induction false} AbsorbedAll<S>(f: (S, seq<byte>) -> S, zero: S, before: seq<byte>, inp: seq<byte>, r: nat)
    requires r > 0 && Rest(|before|, r) == 0
    ensures var whole := |before + inp| - Rest(|inp|, r);
      && Rest(whole, r) == 0
      && Absorbed(f, zero, (before + inp)[..whole], r) == Absorbed(f, Absorbed(f, zero, before, r), inp, r)
    ensures |inp| < r ==> Absorbed(f, Absorbed(f, zero, before, r), inp, r) == Absorbed(f, zero, before, r)
  {
    var cut := |inp| - Rest(|inp|, r);
    RestOfWhole(|inp|, r);
    RestAdd(|before|, cut, r);
    assert inp == inp[..cut] + inp[cut..];
    AbsorbedConcat(f, zero, before, inp[..cut], r);
    AbsorbedTail(f, Absorbed(f, zero, before, r), inp[..cut], inp[cut..], r);
    assert (before + inp)[..|before| + cut] == before + inp[..cut];
  }

  lemma {:induction false} LastBlock<S>(f: (S, seq<byte>) -> S, zero: S, message: seq<byte>, num: nat, r: nat, pad: byte)
    requires r > 0 && num < r && num <= |message| && Rest(|message| - num, r) == 0
    ensures var whole := |message| - num;
      Absorbed(f, zero, Padded(message, r, pad), r) == Absorbed(f, Absorbed(f, zero, message[..whole], r), message[whole..] + Padding(num, r, pad), r)
  {
    var whole := |message| - num;
    var block := message[whole..] + Padding(num, r, pad);
    NumIsRest(|message|, num, r);
    assert Padded(message, r, pad) == message[..whole] + block;
    AbsorbedConcat(f, zero, message[..whole], block, r);
  }

  /** The number of buffered bytes is determined by the length of the message. */
  lemma {:induction false} NumIsRest(length: nat, num: nat, r: nat)
    requires r > 0 && num < r && num <= length && Rest(length - num, r) == 0
    ensures num == Rest(length, r)
  {
    RestAdd(length - num, num, r);
  }

  /** One block is absorbed by one application of f, and what is short of a block not at all. */
  lemma {:induction false} OneBlock<S>(f: (S, seq<byte>) -> S, s: S, data: seq<byte>, r: nat)
    requires r > 0 && |data| <= r
    ensures Absorbed(f, s, data, r) == if |data| == r then f(s, data) else s
  {
    if |data| == r {
      assert data[..r] == data && data[r..] == [];
      assert Absorbed(f, f(s, data), [], r) == f(s, data);
    }
  }

  /** The rates of SHA3 and Keccak: 1600 bits less twice the digest. */
  lemma Rates()
    ensures BlockSize(224) == 144 && BlockSize(256) == 136 && BlockSize(384) == 104 && BlockSize(512) == 72
  {
  }

  /** A message of less than a block: the sponge takes in the message, the pad byte, zeros and the bit 0x80, all in one block. */
  lemma {:induction false} ShortMessage<S>(f: (S, seq<byte>) -> S, zero: S, message: seq<byte>, r: nat, pad: byte)
    requires |message| < r
    ensures |message| + 1 < r ==>
      Absorbed(f, zero, Padded(message, r, pad), r) == f(zero, message + [pad] + seq(r - |message| - 2, _ => 0) + [0x80])
    ensures |message| + 1 == r ==>
      Absorbed(f, zero, Padded(message, r, pad), r) == f(zero, message + [if pad >= 0x80 then pad else pad + 0x80])
  {
    OneBlock(f, zero, Padded(message, r, pad), r);
    if |message| + 1 < r {
      assert Zeros(r - |message| - 2) == seq(r - |message| - 2, _ => 0);
      assert Padded(message, r, pad) == message + [pad] + Zeros(r - |message| - 2) + [0x80];
    }
  }

  /** Two contexts fed the same message in whatever pieces are in the same state. */
  lemma {:induction false} ChunksDoNotMatter<S>(a: Context<S>, b: Context<S>)
    requires a.Valid() && b.Valid() && a.sponge == b.sponge && a.blockSize == b.blockSize && a.message == b.message
    ensures a.num == b.num && a.A == b.A && a.buf[..a.num] == b.buf[..b.num]
  {
    NumIsRest(|a.message|, a.num, a.blockSize);
    NumIsRest(|b.message|, b.num, b.blockSize);
  }
}
