/** SHA-256 of src/net/crypto.c against FIPS 180-4. Words are numbers below 2^32. */
module Sha256 {
  import opened Bits
  import opened Bytes

  const BLOCK: nat := 64

  // ---------------------------------------------------------------- section 4.1.2: functions

  function Shr(x: nat, n: nat): nat { Quotient(x, Pow2(n)) }

  function Rotr(x: nat, n: nat): nat
    requires 0 < n < 32
  {
    Or(Shr(x, n), U32(x * Pow2(32 - n)))
  }

  function Ch(e: nat, f: nat, g: nat): nat { Xor(And(e, f), And(if e <= 0xffff_ffff then 0xffff_ffff - e else 0, g)) }

  function Maj(a: nat, b: nat, c: nat): nat { Xor(Xor(And(a, b), And(a, c)), And(b, c)) }

  function Sum0(a: nat): nat { Xor(Xor(Rotr(a, 2), Rotr(a, 13)), Rotr(a, 22)) }

  function Sum1(e: nat): nat { Xor(Xor(Rotr(e, 6), Rotr(e, 11)), Rotr(e, 25)) }

  function Sigma0(x: nat): nat { Xor(Xor(Rotr(x, 7), Rotr(x, 18)), Shr(x, 3)) }

  function Sigma1(x: nat): nat { Xor(Xor(Rotr(x, 17), Rotr(x, 19)), Shr(x, 10)) }

  /** Row `r` of the table of round constants. */
  function ConstantRow(r: nat): (row: seq<nat>)
    requires r < 8
    ensures |row| == 8
  {
    match r
    case 0 =>
      [0x428a_2f98, 0x7137_4491, 0xb5c0_fbcf, 0xe9b5_dba5, 0x3956_c25b, 0x59f1_11f1, 0x923f_82a4, 0xab1c_5ed5]
    case 1 =>
      [0xd807_aa98, 0x1283_5b01, 0x2431_85be, 0x550c_7dc3, 0x72be_5d74, 0x80de_b1fe, 0x9bdc_06a7, 0xc19b_f174]
    case 2 =>
      [0xe49b_69c1, 0xefbe_4786, 0x0fc1_9dc6, 0x240c_a1cc, 0x2de9_2c6f, 0x4a74_84aa, 0x5cb0_a9dc, 0x76f9_88da]
    case 3 =>
      [0x983e_5152, 0xa831_c66d, 0xb003_27c8, 0xbf59_7fc7, 0xc6e0_0bf3, 0xd5a7_9147, 0x06ca_6351, 0x1429_2967]
    case 4 =>
      [0x27b7_0a85, 0x2e1b_2138, 0x4d2c_6dfc, 0x5338_0d13, 0x650a_7354, 0x766a_0abb, 0x81c2_c92e, 0x9272_2c85]
    case 5 =>
      [0xa2bf_e8a1, 0xa81a_664b, 0xc24b_8b70, 0xc76c_51a3, 0xd192_e819, 0xd699_0624, 0xf40e_3585, 0x106a_a070]
    case 6 =>
      [0x19a4_c116, 0x1e37_6c08, 0x2748_774c, 0x34b0_bcb5, 0x391c_0cb3, 0x4ed8_aa4a, 0x5b9c_ca4f, 0x682e_6ff3]
    case _ =>
      [0x748f_82ee, 0x78a5_636f, 0x84c8_7814, 0x8cc7_0208, 0x90be_fffa, 0xa450_6ceb, 0xbef9_a3f7, 0xc671_78f2]
  }

  function RoundConstant(t: nat): nat
    requires t < 64
  {
    ConstantRow(t / 8)[t % 8]
  }

  /** The eight working variables, or the hash value. */
  datatype Hash = Hash(a: nat, b: nat, c: nat, d: nat, e: nat, f: nat, g: nat, h: nat)

  const IV: Hash := Hash(
    0x6a09_e667, 0xbb67_ae85, 0x3c6e_f372, 0xa54f_f53a, 0x510e_527f, 0x9b05_688c, 0x1f83_d9ab, 0x5be0_cd19)

  // ---------------------------------------------------------------- section 6.2.2: compression

  /** The `n`-byte string of a number, most significant byte first. */
  function ToBE(n: nat, x: nat): (s: seq<Byte>)
    ensures |s| == n
  {
    if n == 0 then [] else ToBE(n - 1, x / 256) + [x % 256]
  }

  /** `load_u32_be`. */
  function Word(b: seq<Byte>, t: nat): nat
    requires 4 * t + 4 <= |b|
  {
    var w: nat, x: nat, y: nat, z: nat := b[4 * t], b[4 * t + 1], b[4 * t + 2], b[4 * t + 3];
    Or(Or(Or(w * 0x100_0000, x * 0x1_0000), y * 0x100), z)
  }

  /** The number a byte string stands for, most significant byte first. */
  function BE(s: seq<Byte>): nat {
    if s == [] then 0 else BE(s[..|s| - 1]) * 256 + s[|s| - 1]
  }

  lemma BEFour(s: seq<Byte>)
    requires |s| == 4
    ensures var w: nat, x: nat, y: nat, z: nat := s[0], s[1], s[2], s[3];
      BE(s) == w * 0x100_0000 + x * 0x1_0000 + y * 0x100 + z
  {
    assert BE(s) == BE(s[..3]) * 256 + s[3];
    assert BE(s[..3]) == BE(s[..2]) * 256 + s[2] by { assert s[..3][..2] == s[..2]; }
    assert BE(s[..2]) == BE(s[..1]) * 256 + s[1] by { assert s[..2][..1] == s[..1]; }
    assert BE(s[..1]) == s[0] by { assert s[..1][..0] == []; }
  }

  /** A word of the block is the big-endian number of its four bytes. */
  lemma WordValue(b: seq<Byte>, t: nat)
    requires 4 * t + 4 <= |b|
    ensures Word(b, t) == BE(b[4 * t..4 * t + 4]) < 0x1_0000_0000
  {
    hide BE, Or, Pow2;
    var w: nat, x: nat, y: nat, z: nat := b[4 * t], b[4 * t + 1], b[4 * t + 2], b[4 * t + 3];
    BEFour(b[4 * t..4 * t + 4]);
    Pow2Literals();
    OrCommutes(w * 0x100_0000, x * 0x1_0000);
    OrDisjoint(x * 0x1_0000, w, 24);
    OrCommutes(w * 0x100_0000 + x * 0x1_0000, y * 0x100);
    OrDisjoint(y * 0x100, w * 0x100 + x, 16);
    OrCommutes(w * 0x100_0000 + x * 0x1_0000 + y * 0x100, z);
    OrDisjoint(z, w * 0x1_0000 + x * 0x100 + y, 8);
  }

  function Schedule(b: seq<Byte>, t: nat): nat
    requires |b| == BLOCK && t < 64
  {
    if t < 16 then Word(b, t)
    else U32(Sigma1(Schedule(b, t - 2)) + Schedule(b, t - 7) + Sigma0(Schedule(b, t - 15)) + Schedule(b, t - 16))
  }

  function Round(v: Hash, k: nat, w: nat): Hash {
    var t1 := U32(v.h + Sum1(v.e) + Ch(v.e, v.f, v.g) + k + w);
    var t2 := U32(Sum0(v.a) + Maj(v.a, v.b, v.c));
    Hash(U32(t1 + t2), v.a, v.b, v.c, U32(v.d + t1), v.e, v.f, v.g)
  }

  /** The working variables after `t` rounds. */
  function Rounds(v: Hash, b: seq<Byte>, t: nat): Hash
    requires |b| == BLOCK && t <= 64
  {
    if t == 0 then v else Round(Rounds(v, b, t - 1), RoundConstant(t - 1), Schedule(b, t - 1))
  }

  function AddHash(x: Hash, y: Hash): Hash {
    Hash(U32(x.a + y.a), U32(x.b + y.b), U32(x.c + y.c), U32(x.d + y.d),
         U32(x.e + y.e), U32(x.f + y.f), U32(x.g + y.g), U32(x.h + y.h))
  }

  function CompressBlock(st: Hash, b: seq<Byte>): Hash
    requires |b| == BLOCK
  {
    AddHash(st, Rounds(st, b, |b|))  // 64 rounds
  }

  /** The message schedule of `sha256_compress`. */
  method FillSchedule(block: seq<Byte>) returns (W: array<nat>)
    requires |block| == BLOCK
    ensures W.Length == 64 && forall i: nat | i < 64 :: W[i] == Schedule(block, i)
  {
    hide Word, Sigma0, Sigma1, U32;
    W := new nat[64](_ => 0);
    var t := 0;
    while t < 16
      invariant 0 <= t <= 16
      invariant forall i: nat | i < t :: W[i] == Schedule(block, i)
    {
      W[t] := Word(block, t);
      t := t + 1;
    }
    while t < 64
      invariant 16 <= t <= 64
      invariant forall i: nat | i < t :: W[i] == Schedule(block, i)
    {
      W[t] := U32(Sigma1(W[t - 2]) + W[t - 7] + Sigma0(W[t - 15]) + W[t - 16]);
      t := t + 1;
    }
  }

  /** One pass of the round loop. */
  method OneRound(v: Hash, k: nat, w: nat) returns (out: Hash)
    ensures out == Round(v, k, w)
  {
    hide Sum0, Sum1, Ch, Maj, U32;
    var a: nat, b: nat, c: nat, d: nat, e: nat, f: nat, g: nat, h: nat := v.a, v.b, v.c, v.d, v.e, v.f, v.g, v.h;
    var t1 := U32(h + Sum1(e) + Ch(e, f, g) + k + w);
    var t2 := U32(Sum0(a) + Maj(a, b, c));
    h := g;
    g := f;
    f := e;
    e := U32(d + t1);
    d := c;
    c := b;
    b := a;
    a := U32(t1 + t2);
    out := Hash(a, b, c, d, e, f, g, h);
  }

  /** `sha256_compress`. */
  method Compress(st: Hash, block: seq<Byte>) returns (out: Hash)
    requires |block| == BLOCK
    ensures out == CompressBlock(st, block)
  {
    hide Round, RoundConstant, Schedule, U32;
    var W := FillSchedule(block);
    var v := st;
    var t := 0;
    while t < 64
      invariant 0 <= t <= 64
      invariant v == Rounds(st, block, t)
      invariant W.Length == 64 && forall i: nat | i < 64 :: W[i] == Schedule(block, i)
    {
      v := OneRound(v, RoundConstant(t), W[t]);
      t := t + 1;
    }
    out := AddHash(st, v);
  }

  // ---------------------------------------------------------------- sections 5.1.1 and 6.2: padding, whole messages

  /** A one bit, zeros up to 64 bits before a block boundary, the length in bits. */
  ghost function Padding(n: nat): (s: seq<Byte>)
    ensures (n + |s|) % BLOCK == 0
  {
    hide ToBE;
    PaddingLength(n);
    [0x80] + Zeros((119 - n % BLOCK) % BLOCK) + ToBE(8, 8 * n)
  }

  lemma PaddingLength(n: nat)
    ensures (n + (1 + (119 - n % 64) % 64 + 8)) % 64 == 0
  {
    var r := n % 64;
    assert (119 - r) % 64 == if r <= 55 then 55 - r else 119 - r;
  }

  type Compression = (Hash, seq<Byte>) -> Hash

  ghost function Sha256Compression(): Compression {
    (st: Hash, b: seq<Byte>) => if |b| == BLOCK then CompressBlock(st, b) else st
  }

  /** The hash value after the blocks of `msg`. */
  ghost function Chain(f: Compression, st: Hash, msg: seq<Byte>): Hash
    requires |msg| % BLOCK == 0
    decreases |msg|
  {
    if msg == [] then st else Chain(f, f(st, msg[..BLOCK]), msg[BLOCK..])
  }

  function Digest(v: Hash): (s: seq<Byte>)
    ensures |s| == 32
  {
    ToBE(4, v.a) + ToBE(4, v.b) + ToBE(4, v.c) + ToBE(4, v.d) + ToBE(4, v.e) + ToBE(4, v.f) + ToBE(4, v.g)
      + ToBE(4, v.h)
  }

  ghost function Sha(msg: seq<Byte>): (s: seq<Byte>)
    ensures |s| == 32
  {
    Digest(Chain(Sha256Compression(), IV, msg + Padding(|msg|)))
  }

  lemma {:induction false} ChainJoin(f: Compression, st: Hash, a: seq<Byte>, b: seq<Byte>)
    requires |a| % BLOCK == 0 && |b| % BLOCK == 0
    ensures |a + b| % BLOCK == 0 && Chain(f, st, a + b) == Chain(f, Chain(f, st, a), b)
    decreases |a|
  {
    if a == [] {
      assert a + b == b;
    } else {
      assert (a + b)[..BLOCK] == a[..BLOCK] && (a + b)[BLOCK..] == a[BLOCK..] + b;
      ChainJoin(f, f(st, a[..BLOCK]), a[BLOCK..], b);
    }
  }

  lemma ChainOne(f: Compression, st: Hash, b: seq<Byte>)
    requires |b| == BLOCK
    ensures Chain(f, st, b) == f(st, b)
  {
    assert b[..BLOCK] == b && b[BLOCK..] == [];
  }

  /** One more block on the chain. */
  lemma ChainStep(f: Compression, msg: seq<Byte>, b: seq<Byte>)
    requires |msg| % BLOCK == 0 && |b| == BLOCK
    ensures |msg + b| % BLOCK == 0 && Chain(f, IV, msg + b) == f(Chain(f, IV, msg), b)
  {
    ChainJoin(f, IV, msg, b);
    ChainOne(f, Chain(f, IV, msg), b);
  }

  // ---------------------------------------------------------------- streaming

  class Context {
    var state: Hash
    var count: nat
    const buf: array<Byte>
    var bufLen: nat
    ghost var absorbed: seq<Byte>

    /** The chaining value after the whole blocks `full`. */
    ghost predicate Core(full: seq<Byte>)
      reads `state
    {
      |full| % BLOCK == 0 && state == Chain(Sha256Compression(), IV, full)
    }

    /** The context stands for the bytes absorbed so far; `count` is their number of bits in a 64-bit counter. */
    ghost predicate Valid()
      reads this, buf
    {
      Buffered() && count == U64(8 * |absorbed|)
    }

    /** The whole blocks are absorbed and the bytes after them wait in the buffer. */
    ghost predicate Buffered()
      reads `state, `bufLen, `absorbed, buf
    {
      && buf.Length == BLOCK && bufLen == |absorbed| % BLOCK
      && Core(absorbed[..|absorbed| - bufLen])
      && buf[..bufLen] == absorbed[|absorbed| - bufLen..]
    }

    constructor ()
      ensures Valid() && absorbed == [] && fresh(buf)
    {
      hide Sha256Compression, Chain, Core, Buffered;
      state := IV;
      count := 0;
      buf := new Byte[64](_ => 0);
      bufLen := 0;
      absorbed := [];
      new;
      Started();
    }

    lemma Started()
      requires state == IV && count == bufLen == 0 && absorbed == [] && buf.Length == BLOCK
      ensures Valid()
    {
      hide Sha256Compression, Chain;
      ChainNone();
      assert absorbed[..|absorbed| - bufLen] == [] && buf[..bufLen] == absorbed[|absorbed| - bufLen..];
    }

    method AbsorbBlock(p: seq<Byte>, ghost full: seq<Byte>)
      requires Core(full) && |p| == BLOCK
      modifies this`state
      ensures Core(full + p)
    {
      hide CompressBlock;
      ChainStep(Sha256Compression(), full, p);
      state := Compress(state, p);
    }

    /** `crypto_sha256_update`. */
    method Update(data: seq<Byte>)
      requires Valid()
      modifies this, buf
      ensures Valid() && absorbed == old(absorbed) + data
    {
      hide Buffered, U64;
      CountStep(|absorbed|, |data|);
      count := U64(count + U64(|data| * 8));
      Absorb(data);
    }

    method Absorb(data: seq<Byte>)
      requires Buffered()
      modifies this`state, this`bufLen, this`absorbed, buf
      ensures Buffered() && absorbed == old(absorbed) + data
    {
      hide Core;
      var p := 0;
      ghost var m0 := absorbed;
      if bufLen > 0 {
        var need := BLOCK - bufLen;
        if |data| < need {
          Append(data);
          return;
        }
        CompleteBlock(data[..need]);
        p := need;
      }
      assert p == 0 ==> m0 + data[..p] == m0[..|m0| - bufLen];
      p := AbsorbBlocks(data, p, m0);
      Keep(data, p);
    }

    /** The bytes after the last whole block wait in the buffer. */
    method Keep(data: seq<Byte>, p: nat)
      requires p <= |data| && |data| - p < BLOCK && |absorbed + data[..p]| % BLOCK == 0 && buf.Length == BLOCK
      requires Core(absorbed + data[..p]) && (p == |data| ==> bufLen == 0)
      modifies this`bufLen, this`absorbed, buf
      ensures Buffered() && absorbed == old(absorbed) + data
    {
      hide Core;
      Rest(absorbed, data, p, BLOCK);
      var rest := |data| - p;
      if rest > 0 {
        forall i | 0 <= i < rest { buf[i] := data[p + i]; }
        bufLen := rest;
      }
      absorbed := absorbed + data;
    }

    method Append(data: seq<Byte>)
      requires Buffered() && bufLen + |data| < BLOCK
      modifies this`bufLen, this`absorbed, buf
      ensures Buffered() && absorbed == old(absorbed) + data
    {
      hide Core;
      Tail(absorbed, data, BLOCK);
      forall i | 0 <= i < |data| { buf[bufLen + i] := data[i]; }
      bufLen := bufLen + |data|;
      absorbed := absorbed + data;
    }

    method CompleteBlock(first: seq<Byte>)
      requires buf.Length == BLOCK && bufLen == |absorbed| % BLOCK && Core(absorbed[..|absorbed| - bufLen])
      requires buf[..bufLen] == absorbed[|absorbed| - bufLen..] && bufLen > 0 && |first| == BLOCK - bufLen
      modifies this`state, this`bufLen, buf
      ensures bufLen == 0 && Core(absorbed + first) && |absorbed + first| % BLOCK == 0
    {
      hide Core;
      ghost var full := absorbed[..|absorbed| - bufLen];
      forall i | 0 <= i < |first| { buf[bufLen + i] := first[i]; }
      assert buf[..] == buf[..bufLen] + first;
      assert full + buf[..] == absorbed + first;
      AbsorbBlock(buf[..], full);
      bufLen := 0;
    }

    method AbsorbBlocks(data: seq<Byte>, start: nat, ghost m0: seq<Byte>) returns (p: nat)
      requires start <= |data| && Core(m0 + data[..start]) && |m0 + data[..start]| % BLOCK == 0
      modifies this`state
      ensures start <= p <= |data| && |data| - p < BLOCK && Core(m0 + data[..p]) && |m0 + data[..p]| % BLOCK == 0
    {
      hide Core;
      p := start;
      while |data| - p >= BLOCK
        invariant start <= p <= |data|
        invariant Core(m0 + data[..p]) && |m0 + data[..p]| % BLOCK == 0
      {
        AbsorbBlock(data[p..p + BLOCK], m0 + data[..p]);
        assert m0 + data[..p] + data[p..p + BLOCK] == m0 + data[..p + BLOCK];
        p := p + BLOCK;
      }
    }

    /** `crypto_sha256_final`: whatever the calls that fed the message, the digest is that of the whole. */
    method Final() returns (digest: seq<Byte>)
      requires Valid()
      modifies this, buf
      ensures digest == Sha(old(absorbed))
    {
      hide Core, Digest, ToBE, U64;
      ghost var m := absorbed;
      ghost var full, tail := m[..|m| - bufLen], m[|m| - bufLen..];
      ghost var done := full;
      buf[bufLen] := 0x80;
      bufLen := bufLen + 1;
      assert buf[..bufLen] == tail + [0x80];
      if bufLen > 56 {
        forall i | bufLen <= i < BLOCK { buf[i] := 0; }
        assert buf[..] == tail + [0x80] + Zeros(BLOCK - |tail| - 1);
        AbsorbBlock(buf[..], full);
        done := full + buf[..];
        bufLen := 0;
      }
      var pad := buf[..bufLen] + Zeros(56 - bufLen) + ToBE(8, count);
      AbsorbBlock(pad, done);
      Padded(m, full, tail, done, pad, count);
      CoreFacts(done + pad);
      digest := Digest(state);
    }

    lemma CoreFacts(full: seq<Byte>)
      requires Core(full)
      ensures |full| % BLOCK == 0 && state == Chain(Sha256Compression(), IV, full)
    {
    }
  }

  lemma ChainNone()
    ensures Chain(Sha256Compression(), IV, []) == IV
  {
  }

  lemma CountStep(n: nat, k: nat)
    ensures U64(U64(8 * n) + U64(k * 8)) == U64(8 * (n + k))
  {
  }

  /** The one or two final blocks are the tail of the message and its padding. */
  lemma Padded(m: seq<Byte>, full: seq<Byte>, tail: seq<Byte>, done: seq<Byte>, pad: seq<Byte>, count: nat)
    requires m == full + tail && |full| % BLOCK == 0 && |tail| < BLOCK && count == U64(8 * |m|)
    requires if |tail| + 1 > 56
      then done == full + (tail + [0x80] + Zeros(BLOCK - |tail| - 1)) && pad == [] + Zeros(56) + ToBE(8, count)
      else done == full && pad == (tail + [0x80]) + Zeros(56 - |tail| - 1) + ToBE(8, count)
    ensures done + pad == m + Padding(|m|)
  {
    hide ToBE, Zeros;
    LengthField(|m|);
    var k, len := (119 - |m| % BLOCK) % BLOCK, ToBE(8, count);
    TailLength(|full|, |tail|);
    if |tail| + 1 > 56 {
      PaddedLong(full, tail, k, len);
    } else {
      PaddedShort(full, tail, k, len);
    }
  }

  lemma TailLength(f: nat, t: nat)
    requires f % 64 == 0 && t < 64
    ensures (f + t) % 64 == t
    ensures (119 - (f + t) % 64) % 64 == if t + 1 > 56 then 119 - t else 55 - t
  {
  }

  lemma PaddedShort(full: seq<Byte>, tail: seq<Byte>, k: nat, len: seq<Byte>)
    requires k == 56 - |tail| - 1
    ensures full + ((tail + [0x80]) + Zeros(k) + len) == full + tail + ([0x80] + Zeros(k) + len)
  {
  }

  lemma PaddedLong(full: seq<Byte>, tail: seq<Byte>, k: nat, len: seq<Byte>)
    requires |tail| < BLOCK && k == (BLOCK - |tail| - 1) + 56
    ensures full + (tail + [0x80] + Zeros(BLOCK - |tail| - 1)) + ([] + Zeros(56) + len)
      == full + tail + ([0x80] + Zeros(k) + len)
  {
    assert Zeros(BLOCK - |tail| - 1) + Zeros(56) == Zeros(k);
  }

  /** The length field holds the low 64 bits of the bit count. */
  lemma LengthField(n: nat)
    ensures ToBE(8, U64(8 * n)) == ToBE(8, 8 * n)
  {
    assert Pow256(8) == 0x1_0000_0000_0000_0000;
    TruncateBE(8, 8 * n);
  }

  lemma {:induction false} TruncateBE(k: nat, x: nat)
    ensures ToBE(k, x % Pow256(k)) == ToBE(k, x)
  {
    if k > 0 {
      var p := Pow256(k - 1);
      TruncateBE(k - 1, x / 256);
      ModSplit(x, p);
    }
  }

  lemma ModSplit(x: nat, p: nat)
    requires p > 0
    ensures (x % (256 * p)) % 256 == x % 256 && (x % (256 * p)) / 256 == (x / 256) % p
  {
    var y := x / 256;
    DivMod(y, p);
    var r := 256 * (y % p) + x % 256;
    assert x == (256 * p) * (y / p) + r by { assert 256 * (p * (y / p)) == (256 * p) * (y / p); }
    ModUnique(x, 256 * p, y / p, r);
  }
}
