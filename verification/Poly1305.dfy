/** Poly1305 of src/net/crypto.c: the streaming context against section 2.5 of RFC 8439. */
module Poly1305 {
  import opened Bits
  import opened Bytes
  import opened Poly1305Limbs

  // ---------------------------------------------------------------- specification

  const CLAMP: nat := 0x0fff_fffc_0fff_fffc_0fff_fffc_0fff_ffff

  ghost function R(key: seq<Byte>): nat
    requires |key| == 32
  {
    And(LE(key[..16]), CLAMP)
  }

  /** A block of 1 to 16 bytes with a one bit put in front of it. */
  ghost function BlockValue(b: seq<Byte>): nat { LE(b) + Pow256(|b|) }

  ghost function Fold(r: nat, acc: nat, v: nat): nat { ((acc + v) * r) % P }

  ghost function Horner(r: nat, acc: nat, msg: seq<Byte>): nat
    decreases |msg|
  {
    if msg == [] then acc
    else
      var n := if |msg| < 16 then |msg| else 16;
      Horner(r, Fold(r, acc, BlockValue(msg[..n])), msg[n..])
  }

  ghost function Mac(key: seq<Byte>, msg: seq<Byte>): seq<Byte>
    requires |key| == 32
  {
    ToLE(16, (Horner(R(key), 0, msg) + LE(key[16..])) % TWO128)
  }

  lemma {:induction false} HornerJoin(r: nat, acc: nat, a: seq<Byte>, b: seq<Byte>)
    requires |a| % 16 == 0
    ensures Horner(r, acc, a + b) == Horner(r, Horner(r, acc, a), b)
    decreases |a|
  {
    hide Fold;
    if a == [] {
      assert a + b == b;
    } else {
      assert (a + b)[..16] == a[..16] && (a + b)[16..] == a[16..] + b;
      HornerJoin(r, Fold(r, acc, BlockValue(a[..16])), a[16..], b);
    }
  }

  lemma HornerBlock(r: nat, acc: nat, b: seq<Byte>)
    requires 0 < |b| <= 16
    ensures Horner(r, acc, b) == Fold(r, acc, BlockValue(b))
  {
    assert b[..|b|] == b && b[|b|..] == [];
  }

  // ---------------------------------------------------------------- Horner's rule is the polynomial

  ghost function Power(r: nat, n: nat): nat {
    if n == 0 then 1 else Mul(r, Power(r, n - 1))
  }

  ghost function BlockCount(msg: seq<Byte>): nat { (|msg| + 15) / 16 }

  /** The sum of the padded blocks, the first multiplied by r^q, ..., the last (of q) by r. */
  ghost function Polynomial(r: nat, msg: seq<Byte>): nat
    decreases |msg|
  {
    if msg == [] then 0
    else
      var n := if |msg| < 16 then |msg| else 16;
      Mul(BlockValue(msg[..n]), Power(r, BlockCount(msg))) + Polynomial(r, msg[n..])
  }

  lemma {:induction false} HornerIsPolynomial(r: nat, acc: nat, msg: seq<Byte>)
    requires acc < P
    ensures Horner(r, acc, msg) == (Mul(acc, Power(r, BlockCount(msg))) + Polynomial(r, msg)) % P
    decreases |msg|
  {
    if msg == [] {
      ModUnique(acc, P, 0, acc);
    } else {
      var n := if |msg| < 16 then |msg| else 16;
      var v, q, rest := BlockValue(msg[..n]), BlockCount(msg), msg[n..];
      var w := Power(r, q - 1);
      assert BlockCount(rest) == q - 1;
      assert Polynomial(r, msg) == Mul(v, Power(r, q)) + Polynomial(r, rest);
      assert Power(r, q) == Mul(r, w);
      hide Power, Polynomial, Mul, Fold, BlockValue;
      FoldBound(r, acc, v);
      HornerIsPolynomial(r, Fold(r, acc, v), rest);
      FoldMul(r, acc, v, w, Polynomial(r, rest));
    }
  }

  lemma FoldBound(r: nat, acc: nat, v: nat)
    ensures Fold(r, acc, v) < P
  {
  }

  lemma FoldMul(r: nat, acc: nat, v: nat, w: nat, p: nat)
    ensures (Mul(Fold(r, acc, v), w) + p) % P == (Mul(acc, Mul(r, w)) + (Mul(v, Mul(r, w)) + p)) % P
  {
    var x := (acc + v) * r;
    var q := x / P;
    DivMod(x, P);
    assert x * w == (x % P) * w + P * (q * w) by { Spread2(x % P, q, w); }
    assert x * w == acc * (r * w) + v * (r * w) by { Regroup(acc, v, r, w); }
    ModMultiple(x * w + p, (x % P) * w + p, P, q * w);
  }

  lemma Spread2(y: nat, q: nat, w: nat)
    ensures (P * q + y) * w == y * w + P * (q * w)
  {
  }

  lemma Regroup(a: nat, v: nat, r: nat, w: nat)
    ensures ((a + v) * r) * w == a * (r * w) + v * (r * w)
  {
    assert ((a + v) * r) * w == (a + v) * (r * w);
  }

  /** The tag in the form of the RFC: the clamped polynomial modulo 2^130 - 5, plus s, modulo 2^128. */
  lemma MacIsPolynomial(key: seq<Byte>, msg: seq<Byte>)
    requires |key| == 32
    ensures Mac(key, msg) == ToLE(16, (Polynomial(R(key), msg) % P + LE(key[16..])) % TWO128)
  {
    HornerIsPolynomial(R(key), 0, msg);
  }

  // ---------------------------------------------------------------- clamping

  lemma {:induction false} AndBelow(a: nat, b: nat)
    ensures And(a, b) <= a
    decreases a
  {
    if a != 0 && b != 0 { AndBelow(a / 2, b / 2); }
  }

  function AndByte(a: Byte, b: Byte): Byte {
    AndBelow(a, b);
    And(a, b)
  }

  ghost function AndBytes(a: seq<Byte>, b: seq<Byte>): (r: seq<Byte>)
    requires |a| == |b|
    ensures |r| == |a|
  {
    if a == [] then [] else [AndByte(a[0], b[0])] + AndBytes(a[1..], b[1..])
  }

  /** Bitwise AND of byte strings is bitwise AND of the numbers they denote. */
  lemma {:induction false} AndBytesValue(a: seq<Byte>, b: seq<Byte>)
    requires |a| == |b|
    ensures LE(AndBytes(a, b)) == And(LE(a), LE(b))
  {
    if a != [] {
      AndBytesValue(a[1..], b[1..]);
      assert AndBytes(a, b)[1..] == AndBytes(a[1..], b[1..]);
      Pow2Literals();
      AndSplit(a[0], LE(a[1..]), b[0], LE(b[1..]), 8);
    }
  }

  lemma {:induction false} AndBytesAt(a: seq<Byte>, b: seq<Byte>, i: nat)
    requires i < |a| == |b|
    ensures AndBytes(a, b)[i] == AndByte(a[i], b[i])
  {
    if i > 0 { AndBytesAt(a[1..], b[1..], i - 1); }
  }

  ghost function ClampByte(i: nat): Byte {
    if i in {3, 7, 11, 15} then 0x0f else if i in {4, 8, 12} then 0xfc else 0xff
  }

  ghost function ClampBytes(): (r: seq<Byte>)
    ensures |r| == 16
  {
    seq(16, (i: nat) => ClampByte(i))
  }

  lemma ClampValue()
    ensures LE(ClampBytes()) == CLAMP
  {
    hide LE;
    var c := ClampBytes();
    LEFour(c[0..4]); LEFour(c[4..8]); LEFour(c[8..12]); LEFour(c[12..16]);
    LESixteen(c);
  }

  /** `poly1305_clamp_r`. */
  function ClampKey(k: seq<Byte>): (r: seq<Byte>)
    requires |k| == 16
    ensures |r| == 16
  {
    k[3 := AndByte(k[3], 0x0f)][7 := AndByte(k[7], 0x0f)][11 := AndByte(k[11], 0x0f)][15 := AndByte(k[15], 0x0f)]
     [4 := AndByte(k[4], 0xfc)][8 := AndByte(k[8], 0xfc)][12 := AndByte(k[12], 0xfc)]
  }

  /** Clamping byte by byte clears the bits section 2.5.1 of RFC 8439 wants cleared. */
  lemma ClampKeyValue(k: seq<Byte>)
    requires |k| == 16
    ensures LE(ClampKey(k)) == And(LE(k), CLAMP)
  {
    hide And, LE, ClampKey;
    var c := ClampKey(k);
    forall i: nat | i < 16 ensures c[i] == AndBytes(k, ClampBytes())[i] {
      AndBytesAt(k, ClampBytes(), i);
      ClampAt(k, i);
    }
    assert c == AndBytes(k, ClampBytes());
    AndBytesValue(k, ClampBytes());
    ClampValue();
  }

  lemma ClampAt(k: seq<Byte>, i: nat)
    requires |k| == 16 && i < 16
    ensures ClampKey(k)[i] == AndByte(k[i], ClampByte(i))
  {
    hide AndByte;
    AndOnes(k[i]);
  }

  lemma AndOnes(x: Byte)
    ensures AndByte(x, 255) == x
  {
    hide And, Pow2;
    Pow2Literals();
    AndMask(x, 8);
  }

  // ---------------------------------------------------------------- streaming

  lemma FoldSame(r: nat, x: nat, v: nat, y: nat)
    requires Same((x + v) * r, y)
    ensures y % P == Fold(r, x % P, v)
  {
    var z := (x + v) * r;
    ModSame(z, y);
    var q := x / P;
    DivMod(x, P);
    assert z == (x % P + v) * r + P * (q * r) by { Spread2(x % P + v, q, r); }
    ModMultiple(z, (x % P + v) * r, P, q * r);
  }

  lemma ModSame(x: nat, y: nat)
    requires Same(x, y)
    ensures x % P == y % P
  {
    var k := (x - y) / P;
    assert x - y == P * k;
    DivMod(y, P);
    assert x == P * (y / P + k) + y % P;
    ModUnique(x, P, y / P + k, y % P);
  }

  class Context {
    var r: Limbs
    var rr: Limbs
    var h: Limbs
    var s: seq<Byte>
    const buf: array<Byte>
    var bufLen: nat
    ghost var key: seq<Byte>
    ghost var absorbed: seq<Byte>

    /** The accumulator has absorbed the whole blocks `full`. */
    ghost predicate Core(full: seq<Byte>)
      reads `key, `s, `r, `rr, `h
    {
      && |key| == 32 && s == key[16..]
      && Multiplier(r) && rr == Times5(r) && Val(r) == R(key)
      && Reduced(h) && |full| % 16 == 0 && Val(h) % P == Horner(R(key), 0, full)
    }

    /** The context stands for the bytes absorbed so far. */
    ghost predicate Valid()
      reads this, buf
    {
      && buf.Length == 16 && bufLen == |absorbed| % 16
      && Core(absorbed[..|absorbed| - bufLen])
      && buf[..bufLen] == absorbed[|absorbed| - bufLen..]
    }

    lemma CoreFacts(full: seq<Byte>)
      requires Core(full)
      ensures |key| == 32 && s == key[16..] && Multiplier(r) && rr == Times5(r) && Val(r) == R(key)
      ensures Reduced(h) && |full| % 16 == 0 && Val(h) % P == Horner(R(key), 0, full)
    {
    }

    constructor (k: seq<Byte>)
      requires |k| == 32
      ensures Valid() && key == k && absorbed == [] && fresh(buf)
    {
      hide ClampKey, Cut, And, Load32, R, LE, Val;
      ZeroVal();
      var c := ClampKey(k[..16]);
      var cut := Cut(Load32(c, 0), Load32(c, 4), Load32(c, 8), Load32(c, 12));
      r := cut.(a4 := And(cut.a4, MASK26));
      rr := Times5(cut.(a4 := And(cut.a4, MASK26)));
      h := Limbs(0, 0, 0, 0, 0);
      s := k[16..];
      buf := new Byte[16](_ => 0);
      bufLen := 0;
      key, absorbed := k, [];
      InitKey(k);
    }

    /** One whole block. */
    method AbsorbBlock(p: seq<Byte>, ghost full: seq<Byte>)
      requires Core(full) && |p| == 16
      modifies this`h
      ensures Core(full + p)
    {
      hide Val, LE, Same, Fold, Horner, R;
      ghost var x := Val(h);
      FullBlock(p);
      h := Block(h, r, rr, p, 1, BlockValue(p));
      FoldSame(Val(r), x, BlockValue(p), Val(h));
      HornerJoin(R(key), 0, full, p);
      HornerBlock(R(key), Horner(R(key), 0, full), p);
    }

    /** `crypto_poly1305_update`. */
    method Update(data: seq<Byte>)
      requires Valid()
      modifies this, buf
      ensures Valid() && key == old(key) && absorbed == old(absorbed) + data
    {
      hide Core;
      var p := 0;
      ghost var m0 := absorbed;
      if bufLen > 0 {
        var need := 16 - bufLen;
        if |data| < need {
          forall i | 0 <= i < |data| { buf[bufLen + i] := data[i]; }
          bufLen := bufLen + |data|;
          absorbed := absorbed + data;
          Tail(m0, data, 16);
          return;
        }
        CompleteBlock(data[..need]);
        p := need;
      }
      assert p == 0 ==> m0 + data[..p] == m0[..|m0| - bufLen];
      p := AbsorbBlocks(data, p, m0);
      var rest := |data| - p;
      if rest > 0 {
        forall i | 0 <= i < rest { buf[i] := data[p + i]; }
        bufLen := rest;
      }
      absorbed := m0 + data;
      Rest(m0, data, p, 16);
    }

    method CompleteBlock(first: seq<Byte>)
      requires Valid() && bufLen > 0 && |first| == 16 - bufLen
      modifies this`h, this`bufLen, buf
      ensures bufLen == 0 && Core(absorbed + first) && |absorbed + first| % 16 == 0
    {
      hide Core;
      ghost var full := absorbed[..|absorbed| - bufLen];
      forall i | 0 <= i < |first| { buf[bufLen + i] := first[i]; }
      assert buf[..] == buf[..bufLen] + first;
      assert full + buf[..] == absorbed + first;
      AbsorbBlock(buf[..], full);
      bufLen := 0;
    }

    method AbsorbBlocks(data: seq<Byte>, start: nat, ghost m0: seq<Byte>) returns (p: nat)
      requires start <= |data| && Core(m0 + data[..start]) && |m0 + data[..start]| % 16 == 0
      modifies this`h
      ensures start <= p <= |data| && |data| - p < 16 && Core(m0 + data[..p]) && |m0 + data[..p]| % 16 == 0
    {
      hide Core;
      p := start;
      while |data| - p >= 16
        invariant start <= p <= |data|
        invariant Core(m0 + data[..p]) && |m0 + data[..p]| % 16 == 0
      {
        AbsorbBlock(data[p..p + 16], m0 + data[..p]);
        assert m0 + data[..p] + data[p..p + 16] == m0 + data[..p + 16];
        p := p + 16;
      }
    }

    /** `crypto_poly1305_final`: whatever the calls that fed the message, the tag is the MAC of the whole. */
    method Final() returns (tag: seq<Byte>)
      requires Valid()
      modifies this, buf
      ensures tag == Mac(old(key), old(absorbed))
    {
      hide Core, Val, Same, Horner, R, BlockValue, LE, ToLE;
      ghost var m := absorbed;
      ghost var full := m[..|m| - bufLen];
      assert full + m[|m| - bufLen..] == m;
      if bufLen > 0 {
        ghost var tail := m[|m| - bufLen..];
        buf[bufLen] := 1;
        forall i | bufLen < i < 16 { buf[i] := 0; }
        PaddedTail(tail, buf[..]);
        ghost var x := Val(h);
        CoreFacts(full);
        h := Block(h, r, rr, buf[..], 0, BlockValue(tail));
        TailStep(key, full, tail, x, Val(r), Val(h));
      } else {
        CoreFacts(full);
        assert full == m;
      }
      tag := Finish(h, s);
    }
  }

  /** A partial block ends in a one byte and zeros: the same number as the block with its one bit. */
  lemma PaddedTail(tail: seq<Byte>, b: seq<Byte>)
    requires |tail| < 16 && |b| == 16 && b[..|tail|] == tail && b[|tail|] == 1
      && forall i | |tail| < i < 16 :: b[i] == 0
    ensures LE(b) == BlockValue(tail)
  {
    var z := seq(15 - |tail|, _ => 0);
    assert b == (tail + [1]) + z;
    LEZeros(tail + [1], 15 - |tail|);
    LEJoin(tail, [1]);
    assert LE([1]) == 1;
  }

  lemma TailStep(key: seq<Byte>, full: seq<Byte>, tail: seq<Byte>, x: nat, r: nat, y: nat)
    requires |key| == 32 && |full| % 16 == 0 && 0 < |tail| < 16 && r == R(key) && x % P == Horner(R(key), 0, full)
    requires Same((x + BlockValue(tail)) * r, y)
    ensures y % P == Horner(R(key), 0, full + tail)
  {
    hide R, Same, Fold, Horner, BlockValue;
    FoldSame(r, x, BlockValue(tail), y);
    HornerJoin(r, 0, full, tail);
    HornerBlock(r, Horner(r, 0, full), tail);
  }

  lemma ZeroVal()
    ensures Val(Limbs(0, 0, 0, 0, 0)) == 0
  {
  }

  lemma FullBlock(p: seq<Byte>)
    requires |p| == 16
    ensures BlockValue(p) == LE(p) + TWO128
  {
    assert Pow256(8) == TWO64;
    assert Pow256(12) == 0x1_0000_0000_0000_0000_0000_0000;
  }

  lemma InitKey(k: seq<Byte>)
    requires |k| == 32
    ensures
      var c := ClampKey(k[..16]);
      var cut := Cut(Load32(c, 0), Load32(c, 4), Load32(c, 8), Load32(c, 12));
      var r := cut.(a4 := And(cut.a4, MASK26));
      Multiplier(r) && Val(r) == R(k)
  {
    hide Cut, And, Load32, LE;
    var c := ClampKey(k[..16]);
    ClampKeyValue(k[..16]);
    Load32Value(c, 0); Load32Value(c, 4); Load32Value(c, 8); Load32Value(c, 12);
    LESixteen(c);
    CutValue(Load32(c, 0), Load32(c, 4), Load32(c, 8), Load32(c, 12));
    var cut := Cut(Load32(c, 0), Load32(c, 4), Load32(c, 8), Load32(c, 12));
    Mask26(cut.a4);
  }
}
