/** ChaCha20 of src/net/crypto.c against section 2.4 of RFC 8439. Words are numbers below 2^32. */
module ChaCha20 {
  import opened Bits
  import opened Bytes

  const SIZE: nat := 64

  // ---------------------------------------------------------------- sections 2.1 to 2.3: the block function

  function Rotl(x: nat, n: nat): nat
    requires 0 < n < 32
  {
    Or(U32(x * Pow2(n)), Quotient(x, Pow2(32 - n)))
  }

  /** The quarter round on words `a`, `b`, `c`, `d` of the matrix. */
  function Quarter(x: seq<nat>, a: nat, b: nat, c: nat, d: nat): (y: seq<nat>)
    requires a < |x| && b < |x| && c < |x| && d < |x|
    ensures |y| == |x|
  {
    var a1 := U32(x[a] + x[b]);
    var d1 := Rotl(Xor(x[d], a1), 16);
    var c1 := U32(x[c] + d1);
    var b1 := Rotl(Xor(x[b], c1), 12);
    var a2 := U32(a1 + b1);
    var d2 := Rotl(Xor(d1, a2), 8);
    var c2 := U32(c1 + d2);
    var b2 := Rotl(Xor(b1, c2), 7);
    x[a := a2][b := b2][c := c2][d := d2]
  }

  /** A column round, then a diagonal round. */
  function DoubleRound(x: seq<nat>): (y: seq<nat>)
    requires |x| == 16
    ensures |y| == 16
  {
    var c := Quarter(Quarter(Quarter(Quarter(x, 0, 4, 8, 12), 1, 5, 9, 13), 2, 6, 10, 14), 3, 7, 11, 15);
    Quarter(Quarter(Quarter(Quarter(c, 0, 5, 10, 15), 1, 6, 11, 12), 2, 7, 8, 13), 3, 4, 9, 14)
  }

  function DoubleRounds(x: seq<nat>, n: nat): (y: seq<nat>)
    requires |x| == 16
    ensures |y| == 16
  {
    hide DoubleRound;
    if n == 0 then x else DoubleRound(DoubleRounds(x, n - 1))
  }

  function AddWords(x: seq<nat>, y: seq<nat>): (z: seq<nat>)
    requires |x| == |y|
    ensures |z| == |x|
  {
    seq(|x|, i requires 0 <= i < |x| => U32(x[i] + y[i]))
  }

  function Serialise(x: seq<nat>): (s: seq<Byte>)
    ensures |s| == 4 * |x|
  {
    if x == [] then [] else ToLE(4, x[0]) + Serialise(x[1..])
  }

  /** 64 bytes of key stream: twenty rounds, feed-forward, little-endian words. */
  function KeyBlock(x: seq<nat>): (s: seq<Byte>)
    requires |x| == 16
    ensures |s| == SIZE
  {
    hide DoubleRounds;
    Serialise(AddWords(DoubleRounds(x, 10), x))
  }

  /** `chacha20_block`. */
  method Block(state: seq<nat>) returns (out: seq<Byte>)
    requires |state| == 16
    ensures out == KeyBlock(state)
  {
    hide DoubleRound;
    var x := state;
    var i := 0;
    while i < 10
      invariant 0 <= i <= 10 && |x| == 16
      invariant x == DoubleRounds(state, i)
    {
      x := DoubleRound(x);
      i := i + 1;
    }
    out := Serialise(AddWords(x, state));
  }

  // ---------------------------------------------------------------- section 2.4: the stream

  type BlockFunction = seq<nat> -> seq<Byte>

  ghost function ChaChaBlock(): BlockFunction {
    (x: seq<nat>) => if |x| == 16 then KeyBlock(x) else []
  }

  /** The constants "expand 32-byte k", the key, the block counter and the nonce. */
  function InitialState(key: seq<Byte>, nonce: seq<Byte>, counter: nat): (x: seq<nat>)
    requires |key| == 32 && |nonce| == 12
    ensures |x| == 16
  {
    [0x6170_7865, 0x3320_646e, 0x7962_2d32, 0x6b20_6574,
     Load32(key, 0), Load32(key, 4), Load32(key, 8), Load32(key, 12),
     Load32(key, 16), Load32(key, 20), Load32(key, 24), Load32(key, 28),
     counter, Load32(nonce, 0), Load32(nonce, 4), Load32(nonce, 8)]
  }

  /** The state whose block counter has advanced by `k`, in 32 bits. */
  ghost function Advanced(init: seq<nat>, k: nat): (x: seq<nat>)
    requires |init| == 16
    ensures |x| == 16
  {
    init[12 := U32(init[12] + k)]
  }

  /** The `i`-th byte of the key stream. */
  ghost function StreamByte(f: BlockFunction, init: seq<nat>, i: nat): Byte
    requires |init| == 16
  {
    var b := f(Advanced(init, i / SIZE));
    if i % SIZE < |b| then b[i % SIZE] else 0
  }

  /** `data` enciphered (or deciphered) from position `n` of the key stream. */
  ghost function XorStream(f: BlockFunction, init: seq<nat>, n: nat, data: seq<Byte>): (out: seq<Byte>)
    requires |init| == 16
    ensures |out| == |data|
  {
    seq(|data|, i requires 0 <= i < |data| => XorByte(data[i], StreamByte(f, init, n + i)))
  }

  /** How the data is chunked does not matter. */
  lemma XorStreamJoin(f: BlockFunction, init: seq<nat>, n: nat, a: seq<Byte>, b: seq<Byte>)
    requires |init| == 16
    ensures XorStream(f, init, n, a + b) == XorStream(f, init, n, a) + XorStream(f, init, n + |a|, b)
  {
    hide XorByte, StreamByte;
  }

  /** Deciphering what was enciphered gives the data back. */
  lemma XorStreamInverse(f: BlockFunction, init: seq<nat>, n: nat, data: seq<Byte>)
    requires |init| == 16
    ensures XorStream(f, init, n, XorStream(f, init, n, data)) == data
  {
    var c := XorStream(f, init, n, data);
    forall i | 0 <= i < |data| ensures XorByte(c[i], StreamByte(f, init, n + i)) == data[i] {
      XorCancels(data[i], StreamByte(f, init, n + i));
    }
  }

  // ---------------------------------------------------------------- streaming

  class Context {
    var state: seq<nat>
    const keystream: array<Byte>
    var pos: nat
    ghost var init: seq<nat>
    ghost var used: nat
    ghost var blocks: nat

    /** `used` bytes of the stream from `init` are spent, `blocks` blocks generated. */
    ghost predicate Valid()
      reads this, keystream
    {
      && |init| == 16 && state == Advanced(init, blocks)
      && keystream.Length == SIZE && pos <= SIZE && used + (SIZE - pos) == SIZE * blocks
      && forall i: nat | pos <= i < SIZE :: keystream[i] == StreamByte(ChaChaBlock(), init, used + (i - pos))
    }

    /** `crypto_chacha20_init`. */
    constructor (key: seq<Byte>, nonce: seq<Byte>, counter: nat)
      requires |key| == 32 && |nonce| == 12 && counter < 0x1_0000_0000
      ensures Valid() && init == InitialState(key, nonce, counter) && used == 0 && fresh(keystream)
    {
      state := InitialState(key, nonce, counter);
      keystream := new Byte[64](_ => 0);
      pos := SIZE;
      init, used, blocks := InitialState(key, nonce, counter), 0, 0;
    }

    method Refill()
      requires Valid() && pos == SIZE
      modifies this, keystream
      ensures Valid() && pos == 0 && init == old(init) && used == old(used)
    {
      hide KeyBlock;
      var out := Block(state);
      forall i | 0 <= i < SIZE { keystream[i] := out[i]; }
      CounterStep(init, blocks);
      state := state[12 := U32(state[12] + 1)];
      pos := 0;
      forall i: nat | i < SIZE ensures keystream[i] == StreamByte(ChaChaBlock(), init, used + i) {
        BlockIndex(blocks, i);
      }
      blocks := blocks + 1;
    }

    /** `crypto_chacha20_xor`; `src` and `dst` may be the same buffer. */
    method Xor(src: array<Byte>, dst: array<Byte>, len: nat)
      requires Valid() && len <= src.Length && len <= dst.Length && src != keystream && dst != keystream
      modifies this, keystream, dst
      ensures Valid() && init == old(init) && used == old(used) + len
      ensures dst[..len] == XorStream(ChaChaBlock(), init, old(used), old(src[..len])) && dst[len..] == old(dst[len..])
    {
      hide StreamByte, ChaChaBlock, Advanced, XorByte;
      ghost var input, n0 := src[..len], used;
      var p := 0;
      while p < len
        invariant 0 <= p <= len && Valid() && init == old(init) && used == n0 + p
        invariant forall i: nat | i < p :: dst[i] == XorByte(input[i], StreamByte(ChaChaBlock(), init, n0 + i))
        invariant forall i | p <= i < len :: src[i] == input[i]
        invariant dst[len..] == old(dst[len..])
      {
        if pos >= SIZE { Refill(); }
        var avail := SIZE - pos;
        var chunk := if len - p < avail then len - p else avail;
        XorChunk(src, dst, p, chunk, n0, input);
        p := p + chunk;
      }
    }

    method XorChunk(src: array<Byte>, dst: array<Byte>, p: nat, chunk: nat, ghost n0: nat, ghost input: seq<Byte>)
      requires Valid() && p + chunk <= |input| <= src.Length && |input| <= dst.Length && src != keystream
        && dst != keystream
      requires chunk <= SIZE - pos && used == n0 + p
      requires forall i | p <= i < |input| :: src[i] == input[i]
      modifies this, dst
      ensures Valid() && init == old(init) && used == n0 + p + chunk
      ensures forall i | 0 <= i < p :: dst[i] == old(dst[i])
      ensures forall i: nat | p <= i < p + chunk :: dst[i] == XorByte(input[i], StreamByte(ChaChaBlock(), init, n0 + i))
      ensures forall i | p + chunk <= i < |input| :: src[i] == input[i]
      ensures dst[|input|..] == old(dst[|input|..])
    {
      hide StreamByte, ChaChaBlock, Advanced, XorByte;
      var i := 0;
      while i < chunk
        invariant 0 <= i <= chunk && Valid() && init == old(init) && used == n0 + p && pos == old(pos)
        invariant forall j | 0 <= j < p :: dst[j] == old(dst[j])
        invariant forall j: nat | p <= j < p + i :: dst[j] == XorByte(input[j], StreamByte(ChaChaBlock(), init, n0 + j))
        invariant forall j | p + i <= j < |input| :: src[j] == input[j]
        invariant dst[|input|..] == old(dst[|input|..])
      {
        assert keystream[pos + i] == StreamByte(ChaChaBlock(), init, used + ((pos + i) - pos));
        dst[p + i] := XorByte(src[p + i], keystream[pos + i]);
        i := i + 1;
      }
      pos := pos + chunk;
      used := used + chunk;
    }
  }

  lemma CounterStep(init: seq<nat>, k: nat)
    requires |init| == 16
    ensures Advanced(init, k)[12 := U32(Advanced(init, k)[12] + 1)] == Advanced(init, k + 1)
  {
  }

  lemma BlockIndex(k: nat, i: nat)
    requires i < SIZE
    ensures (SIZE * k + i) / SIZE == k && (SIZE * k + i) % SIZE == i
  {
  }
}
