/** Little-endian byte strings as numbers. */
module Bytes {
  import opened Bits

  function Pow256(n: nat): (r: nat)
    ensures r >= 1
  {
    if n == 0 then 1 else 256 * Pow256(n - 1)
  }

  /** The number a byte string denotes, least significant byte first. */
  function LE(s: seq<Byte>): nat {
    if s == [] then 0 else s[0] + 256 * LE(s[1..])
  }

  /** The `n`-byte string of a number, least significant byte first. */
  function ToLE(n: nat, x: nat): (s: seq<Byte>)
    ensures |s| == n
  {
    if n == 0 then [] else [x % 256] + ToLE(n - 1, x / 256)
  }

  lemma {:induction false} LEBound(s: seq<Byte>)
    ensures LE(s) < Pow256(|s|)
  {
    if s != [] { LEBound(s[1..]); }
  }

  lemma {:induction false} LEJoin(a: seq<Byte>, b: seq<Byte>)
    ensures LE(a + b) == LE(a) + Pow256(|a|) * LE(b)
  {
    if a == [] {
      assert a + b == b;
    } else {
      LEJoin(a[1..], b);
      assert (a + b)[1..] == a[1..] + b;
      Scale(Pow256(|a| - 1), LE(b));
    }
  }

  lemma Scale(p: nat, x: nat)
    ensures 256 * (p * x) == (256 * p) * x
  {
  }

  function Zeros(n: nat): (s: seq<Byte>)
    ensures |s| == n
  {
    seq(n, _ => 0)
  }

  /** Zero bytes at the end do not change the number. */
  lemma {:induction false} LEZeros(a: seq<Byte>, n: nat)
    ensures LE(a + seq(n, _ => 0)) == LE(a)
  {
    LEJoin(a, seq(n, _ => 0));
    ZerosLE(n);
  }

  lemma {:induction false} ZerosLE(n: nat)
    ensures LE(seq(n, _ => 0)) == 0
  {
    if n > 0 {
      assert seq(n, _ => 0)[1..] == seq(n - 1, _ => 0);
      ZerosLE(n - 1);
    }
  }

  lemma {:induction false} RoundTrip(n: nat, x: nat)
    requires x < Pow256(n)
    ensures LE(ToLE(n, x)) == x
  {
    if n > 0 {
      RoundTrip(n - 1, x / 256);
      assert ToLE(n, x)[1..] == ToLE(n - 1, x / 256);
    }
  }

  lemma {:induction false} RoundTripBytes(s: seq<Byte>)
    ensures ToLE(|s|, LE(s)) == s
  {
    if s != [] {
      RoundTripBytes(s[1..]);
      assert LE(s) % 256 == s[0] && LE(s) / 256 == LE(s[1..]);
    }
  }

  lemma {:induction false} ToLEJoin(a: nat, b: nat, x: nat, y: nat)
    requires x < Pow256(a)
    ensures ToLE(a, x) + ToLE(b, y) == ToLE(a + b, x + Pow256(a) * y)
  {
    if a > 0 {
      ToLEJoin(a - 1, b, x / 256, y);
      Scale(Pow256(a - 1), y);
      LowByte(x, Pow256(a - 1) * y);
      JoinFirst(a, b, x, y);
    }
  }

  lemma LowByte(x: nat, w: nat)
    ensures (x + 256 * w) % 256 == x % 256 && (x + 256 * w) / 256 == x / 256 + w
  {
    ModUnique(x + 256 * w, 256, x / 256 + w, x % 256);
  }

  lemma JoinFirst(a: nat, b: nat, x: nat, y: nat)
    requires a > 0 && var z, w := x + Pow256(a) * y, Pow256(a - 1) * y;
      && z % 256 == x % 256 && z / 256 == x / 256 + w
      && ToLE(a - 1, x / 256) + ToLE(b, y) == ToLE(a - 1 + b, x / 256 + w)
    ensures ToLE(a, x) + ToLE(b, y) == ToLE(a + b, x + Pow256(a) * y)
  {
    hide Pow256;
    var z := x + Pow256(a) * y;
    assert ToLE(a, x) == [x % 256] + ToLE(a - 1, x / 256);
    assert ToLE(a + b, z) == [z % 256] + ToLE(a + b - 1, z / 256);
  }

  /** `load_u32_le`: four bytes shifted into place and ORed together. */
  function Load32(s: seq<Byte>, at: nat): (r: nat)
    requires at + 4 <= |s|
  {
    var a: nat, b: nat, c: nat, d: nat := s[at], s[at + 1], s[at + 2], s[at + 3];
    Or(Or(Or(a, b * 0x100), c * 0x1_0000), d * 0x100_0000)
  }

  lemma LEFour(s: seq<Byte>)
    requires |s| == 4
    ensures var a: nat, b: nat, c: nat, d: nat := s[0], s[1], s[2], s[3];
      LE(s) == a + b * 0x100 + c * 0x1_0000 + d * 0x100_0000
  {
    assert LE(s) == s[0] + 256 * LE(s[1..]);
    assert LE(s[1..]) == s[1] + 256 * LE(s[2..]) by { assert s[1..][1..] == s[2..]; }
    assert LE(s[2..]) == s[2] + 256 * LE(s[3..]) by { assert s[2..][1..] == s[3..]; }
    assert LE(s[3..]) == s[3] by { assert s[3..][1..] == []; }
  }

  lemma Load32Value(s: seq<Byte>, at: nat)
    requires at + 4 <= |s|
    ensures Load32(s, at) == LE(s[at..at + 4]) < 0x1_0000_0000
  {
    hide LE, Or, Pow2;
    var a: nat, b: nat, c: nat, d: nat := s[at], s[at + 1], s[at + 2], s[at + 3];
    LEFour(s[at..at + 4]);
    Pow2Literals();
    OrDisjoint(a, b, 8);
    OrDisjoint(a + b * 0x100, c, 16);
    OrDisjoint(a + b * 0x100 + c * 0x1_0000, d, 24);
  }

  /** Sixteen bytes are four little-endian words. */
  lemma LESixteen(s: seq<Byte>)
    requires |s| == 16
    ensures LE(s) == LE(s[0..4]) + 0x1_0000_0000 * LE(s[4..8]) + 0x1_0000_0000_0000_0000 * LE(s[8..12])
                   + 0x1_0000_0000_0000_0000_0000_0000 * LE(s[12..16])
  {
    hide LE;
    LEWord(s);
    LEWord(s[4..]);
    LEWord(s[8..]);
    assert s[4..][..4] == s[4..8] && s[4..][4..] == s[8..];
    assert s[8..][..4] == s[8..12] && s[8..][4..] == s[12..];
    assert s[12..] == s[12..16] && s[..4] == s[0..4];
  }

  lemma LEWord(s: seq<Byte>)
    requires |s| >= 4
    ensures LE(s) == LE(s[..4]) + 0x1_0000_0000 * LE(s[4..])
  {
    LEJoin(s[..4], s[4..]);
    assert s == s[..4] + s[4..];
    Pow256Four();
  }

  lemma Pow256Four()
    ensures Pow256(4) == 0x1_0000_0000
  {
    assert Pow256(2) == 0x1_0000;
  }

  lemma {:induction false} XorBound(a: nat, b: nat, k: nat)
    requires a < Pow2(k) && b < Pow2(k)
    ensures Xor(a, b) < Pow2(k)
    decreases k
  {
    if k > 0 && a > 0 && b > 0 { XorBound(a / 2, b / 2, k - 1); }
  }

  function XorByte(a: Byte, b: Byte): Byte {
    Pow2Literals();
    XorBound(a, b, 8);
    Xor(a, b)
  }

  // ---------------------------------------------------------------- messages taken block by block

  /** More data that does not fill the open block joins it. */
  lemma Tail(m: seq<Byte>, data: seq<Byte>, block: nat)
    requires block > 0 && |m| % block + |data| < block
    ensures var n, k := |m| % block, |m| % block + |data|;
      && n <= |m| && |m + data| % block == k
      && (m + data)[..|m + data| - k] == m[..|m| - n]
      && (m + data)[|m + data| - k..] == m[|m| - n..] + data
  {
    DivMod(|m|, block);
    ModUnique(|m| + |data|, block, |m| / block, |m| % block + |data|);
  }

  /** What is left after whole blocks opens the next one. */
  lemma Rest(m: seq<Byte>, data: seq<Byte>, p: nat, block: nat)
    requires p <= |data| && |data| - p < block && |m + data[..p]| % block == 0
    ensures var n := |data| - p;
      && |m + data| % block == n
      && (m + data)[..|m + data| - n] == m + data[..p]
      && (m + data)[|m + data| - n..] == data[p..]
  {
    DivMod(|m| + p, block);
    ModUnique(|m| + |data|, block, (|m| + p) / block, |data| - p);
  }
}
