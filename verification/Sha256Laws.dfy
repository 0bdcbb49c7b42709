/** What the tables and functions of SHA-256 are, in the words of FIPS 180-4: roots of the first primes, operations bit
    by bit, and the compression as two recurrences. */
module Sha256Laws {
  import opened Bits
  import opened BitLaws
  import opened Bytes
  import opened Sha256

  // ---------------------------------------------------------------- section 4.1.2, bit by bit

  lemma RotrBit(x: nat, n: nat, i: nat)
    requires x < 0x1_0000_0000 && 0 < n < 32 && i < 32
    ensures Rotr(x, n) < 0x1_0000_0000 && Bit(Rotr(x, n), i) == Bit(x, (i + n) % 32)
  {
    hide Or, Pow2, Turned, Bit;
    RotateValue(x, n);
    BitTurned(x, n, i);
  }

  lemma ShrBit(x: nat, n: nat, i: nat)
    requires x < 0x1_0000_0000 && n < 32 && i < 32
    ensures Shr(x, n) < 0x1_0000_0000 && Bit(Shr(x, n), i) == if i + n < 32 then Bit(x, i + n) else 0
  {
    hide Pow2, Bit;
    HighPart(x, n);
    BitSplit(x, n, i + n);
    Pow2Full();
    Shorter(32 - n);
    if i + n >= 32 { BitAbove(Shr(x, n), 32 - n, i); }
  }

  /** Choose between `f` and `g` by `e`. */
  lemma ChBit(e: nat, f: nat, g: nat, i: nat)
    requires e < 0x1_0000_0000 && i < 32
    ensures Bit(Ch(e, f, g), i) == if Bit(e, i) == 1 then Bit(f, i) else Bit(g, i)
  {
    hide And, Xor, Pow2, Bit;
    Pow2Full();
    BitNot(e, 32, i);
    BitAnd(e, f, i);
    BitAnd(0xffff_ffff - e, g, i);
    BitXor(And(e, f), And(0xffff_ffff - e, g), i);
  }

  /** What at least two of the three say. */
  lemma MajBit(a: nat, b: nat, c: nat, i: nat)
    ensures Bit(Maj(a, b, c), i) == if Bit(a, i) + Bit(b, i) + Bit(c, i) >= 2 then 1 else 0
  {
    hide And, Xor, Bit;
    BitAnd(a, b, i);
    BitAnd(a, c, i);
    BitAnd(b, c, i);
    BitXor(And(a, b), And(a, c), i);
    BitXor(Xor(And(a, b), And(a, c)), And(b, c), i);
  }

  lemma Xor3Bit(x: nat, y: nat, z: nat, i: nat)
    requires x < 0x1_0000_0000 && y < 0x1_0000_0000 && z < 0x1_0000_0000
    ensures Xor(Xor(x, y), z) < 0x1_0000_0000
    ensures Bit(Xor(Xor(x, y), z), i) == (Bit(x, i) + Bit(y, i) + Bit(z, i)) % 2
  {
    hide Xor, Bit, Pow2;
    Pow2Full();
    XorBound(x, y, 32);
    XorBound(Xor(x, y), z, 32);
    BitXor(x, y, i);
    BitXor(Xor(x, y), z, i);
  }

  lemma SumBits(x: nat, i: nat)
    requires x < 0x1_0000_0000 && i < 32
    ensures Sum0(x) < 0x1_0000_0000 && Sum1(x) < 0x1_0000_0000
    ensures Bit(Sum0(x), i) == (Bit(x, (i + 2) % 32) + Bit(x, (i + 13) % 32) + Bit(x, (i + 22) % 32)) % 2
    ensures Bit(Sum1(x), i) == (Bit(x, (i + 6) % 32) + Bit(x, (i + 11) % 32) + Bit(x, (i + 25) % 32)) % 2
  {
    hide Rotr, Xor, Bit;
    RotrBit(x, 2, i);
    RotrBit(x, 13, i);
    RotrBit(x, 22, i);
    Xor3Bit(Rotr(x, 2), Rotr(x, 13), Rotr(x, 22), i);
    RotrBit(x, 6, i);
    RotrBit(x, 11, i);
    RotrBit(x, 25, i);
    Xor3Bit(Rotr(x, 6), Rotr(x, 11), Rotr(x, 25), i);
  }

  /** Bit `i` of a word shifted right by `n`. */
  function Shifted(x: nat, i: nat, n: nat): nat { if i + n < 32 then Bit(x, i + n) else 0 }

  lemma SigmaBits(x: nat, i: nat)
    requires x < 0x1_0000_0000 && i < 32
    ensures Sigma0(x) < 0x1_0000_0000 && Sigma1(x) < 0x1_0000_0000
    ensures Bit(Sigma0(x), i) == (Bit(x, (i + 7) % 32) + Bit(x, (i + 18) % 32) + Shifted(x, i, 3)) % 2
    ensures Bit(Sigma1(x), i) == (Bit(x, (i + 17) % 32) + Bit(x, (i + 19) % 32) + Shifted(x, i, 10)) % 2
  {
    hide Rotr, Shr, Xor, Bit;
    RotrBit(x, 7, i);
    RotrBit(x, 18, i);
    ShrBit(x, 3, i);
    Xor3Bit(Rotr(x, 7), Rotr(x, 18), Shr(x, 3), i);
    RotrBit(x, 17, i);
    RotrBit(x, 19, i);
    ShrBit(x, 10, i);
    Xor3Bit(Rotr(x, 17), Rotr(x, 19), Shr(x, 10), i);
  }

  // ---------------------------------------------------------------- sections 4.2.2 and 5.3.3: the constants

  predicate IsPrime(n: nat) { n >= 2 && forall d | 2 <= d < n :: n % d != 0 }

  function PrimeRow(r: nat): (row: seq<nat>)
    requires r < 8
    ensures |row| == 8
  {
    match r
    case 0 => [2, 3, 5, 7, 11, 13, 17, 19]
    case 1 => [23, 29, 31, 37, 41, 43, 47, 53]
    case 2 => [59, 61, 67, 71, 73, 79, 83, 89]
    case 3 => [97, 101, 103, 107, 109, 113, 127, 131]
    case 4 => [137, 139, 149, 151, 157, 163, 167, 173]
    case 5 => [179, 181, 191, 193, 197, 199, 211, 223]
    case 6 => [227, 229, 233, 239, 241, 251, 257, 263]
    case _ => [269, 271, 277, 281, 283, 293, 307, 311]
  }

  /** The first 64 primes. */
  function Prime(t: nat): nat
    requires t < 64
  {
    PrimeRow(t / 8)[t % 8]
  }

  predicate NoSmallFactor(n: nat) {
    n % 2 != 0 && n % 3 != 0 && n % 5 != 0 && n % 7 != 0 && n % 11 != 0 && n % 13 != 0 && n % 17 != 0
  }

  /** Up to 18 squared the primes up to 17 decide. */
  lemma PrimeTest(n: nat)
    requires 17 < n < 324
    ensures IsPrime(n) <==> NoSmallFactor(n)
  {
    if NoSmallFactor(n) {
      forall d | 2 <= d < n ensures n % d != 0 {
        if n % d == 0 {
          var e := n / d;
          DivMod(n, d);
          assert e >= 18 && d >= 18 ==> d * e >= 18 * 18;
          if d < 18 {
            SmallFactor(n, d, e);
          } else {
            assert e >= 2 by { assert e <= 1 ==> d * e <= d; }
            SmallFactor(n, e, d);
          }
        }
      }
    }
  }

  lemma SmallFactor(n: nat, d: nat, e: nat)
    requires 2 <= d < 18 && n == d * e
    ensures !NoSmallFactor(n)
  {
    var p := if d % 2 == 0 then 2 else if d % 3 == 0 then 3 else d;
    assert d == p * (d / p) && p in {2, 3, 5, 7, 11, 13, 17};
    Divides(n, p, d / p, e);
    OneOf(n, p);
  }

  lemma Divides(n: nat, p: nat, k: nat, e: nat)
    requires p > 0 && n == (p * k) * e
    ensures n % p == 0
  {
    assert n == p * (k * e);
    ModUnique(n, p, k * e, 0);
  }

  lemma OneOf(n: nat, p: nat)
    requires p in {2, 3, 5, 7, 11, 13, 17} && n % p == 0
    ensures !NoSmallFactor(n)
  {
  }

  predicate AllComposite(lo: nat, hi: nat)
    decreases hi - lo
  {
    lo >= hi || (!NoSmallFactor(lo) && AllComposite(lo + 1, hi))
  }

  lemma {:induction false} CompositeAt(lo: nat, hi: nat, n: nat)
    requires AllComposite(lo, hi) && lo <= n < hi
    ensures !NoSmallFactor(n)
    decreases n - lo
  {
    if lo < n { CompositeAt(lo + 1, hi, n); }
  }

  /** From `lo` on, `p` is the first number without a small factor. */
  predicate First(lo: nat, p: nat) { 17 < lo <= p < 324 && AllComposite(lo, p) && NoSmallFactor(p) }

  predicate Follows(t: nat)
    requires 7 <= t < 64
  {
    First(if t == 7 then 18 else Prime(t - 1) + 1, Prime(t))
  }

  lemma FirstSeven(n: nat)
    requires n <= 18
    ensures IsPrime(n) <==> n in {2, 3, 5, 7, 11, 13, 17}
  {
    if n in {2, 3, 5, 7, 11, 13, 17} {
      forall d | 2 <= d < n ensures n % d != 0 { SmallRemainder(n, d); }
    } else if n >= 2 {
      assert n % (if n % 2 == 0 then 2 else 3) == 0;
    }
  }

  lemma SmallRemainder(n: nat, d: nat)
    requires n in {2, 3, 5, 7, 11, 13, 17} && 2 <= d < n
    ensures n % d != 0
  {
    match d
    case 2 => case 3 => case 4 => case 5 => case 6 => case 7 => case 8 => case 9 => case 10 =>
    case 11 => case 12 => case 13 => case 14 => case 15 => case 16 =>
  }

  function Cube(c: nat): nat { c * c * c }

  function Square(c: nat): nat { c * c }

  /** The whole part of the cube root of `p`. */
  function Whole(p: nat): nat {
    if p < 8 then 1 else if p < 27 then 2 else if p < 64 then 3 else if p < 125 then 4 else if p < 216 then 5 else 6
  }

  predicate RootAt(t: nat)
    requires t < 64
  {
    var c := Whole(Prime(t)) * 0x1_0000_0000 + RoundConstant(t);
    RoundConstant(t) < 0x1_0000_0000
    && Cube(c) <= Prime(t) * 0x1_0000_0000_0000_0000_0000_0000 < Cube(c + 1)
  }

  lemma Roots0()
    ensures RootAt(0) && RootAt(1) && RootAt(2) && RootAt(3) && RootAt(4) && RootAt(5)
  {
  }

  lemma Roots1()
    ensures RootAt(6) && RootAt(7) && RootAt(8) && RootAt(9) && RootAt(10) && RootAt(11)
  {
  }

  lemma Roots2()
    ensures RootAt(12) && RootAt(13) && RootAt(14) && RootAt(15) && RootAt(16) && RootAt(17)
  {
  }

  lemma Roots3()
    ensures RootAt(18) && RootAt(19) && RootAt(20) && RootAt(21) && RootAt(22) && RootAt(23)
  {
  }

  lemma Roots4()
    ensures RootAt(24) && RootAt(25) && RootAt(26) && RootAt(27) && RootAt(28) && RootAt(29)
  {
  }

  lemma Roots5()
    ensures RootAt(30) && RootAt(31) && RootAt(32) && RootAt(33) && RootAt(34) && RootAt(35)
  {
  }

  lemma Roots6()
    ensures RootAt(36) && RootAt(37) && RootAt(38) && RootAt(39) && RootAt(40) && RootAt(41)
  {
  }

  lemma Roots7()
    ensures RootAt(42) && RootAt(43) && RootAt(44) && RootAt(45) && RootAt(46) && RootAt(47)
  {
  }

  lemma Roots8()
    ensures RootAt(48) && RootAt(49) && RootAt(50) && RootAt(51) && RootAt(52) && RootAt(53)
  {
  }

  lemma Roots9()
    ensures RootAt(54) && RootAt(55) && RootAt(56) && RootAt(57) && RootAt(58) && RootAt(59)
  {
  }

  lemma Roots10()
    ensures RootAt(60) && RootAt(61) && RootAt(62) && RootAt(63)
  {
  }

  lemma Roots(t: nat)
    requires t < 64
    ensures RootAt(t)
  {
    hide RootAt;
    if t < 6 { Roots0(); } else if t < 12 { Roots1(); } else if t < 18 { Roots2(); }
    else if t < 24 { Roots3(); } else if t < 30 { Roots4(); } else if t < 36 { Roots5(); }
    else if t < 42 { Roots6(); } else if t < 48 { Roots7(); } else if t < 54 { Roots8(); }
    else if t < 60 { Roots9(); } else { Roots10(); }
  }

  lemma Firsts0()
    ensures First(18, 19) && First(20, 23) && First(24, 29) && First(30, 31) && First(32, 37)
    ensures First(38, 41) && First(42, 43) && First(44, 47) && First(48, 53)
  {
  }

  lemma Firsts1()
    ensures First(54, 59) && First(60, 61) && First(62, 67) && First(68, 71)
    ensures First(72, 73) && First(74, 79) && First(80, 83) && First(84, 89)
  {
  }

  lemma Firsts2()
    ensures First(90, 97) && First(98, 101) && First(102, 103) && First(104, 107)
    ensures First(108, 109) && First(110, 113) && First(114, 127) && First(128, 131)
  {
  }

  lemma Firsts3()
    ensures First(132, 137) && First(138, 139) && First(140, 149) && First(150, 151)
    ensures First(152, 157) && First(158, 163) && First(164, 167) && First(168, 173)
  {
  }

  lemma Firsts4()
    ensures First(174, 179) && First(180, 181) && First(182, 191) && First(192, 193)
    ensures First(194, 197) && First(198, 199) && First(200, 211) && First(212, 223)
  {
  }

  lemma Firsts5()
    ensures First(224, 227) && First(228, 229) && First(230, 233) && First(234, 239)
    ensures First(240, 241) && First(242, 251) && First(252, 257) && First(258, 263)
  {
  }

  lemma Firsts6()
    ensures First(264, 269) && First(270, 271) && First(272, 277) && First(278, 281)
    ensures First(282, 283) && First(284, 293) && First(294, 307) && First(308, 311)
  {
  }

  lemma Next0()
    ensures Follows(7) && Follows(8) && Follows(9) && Follows(10) && Follows(11)
    ensures Follows(12) && Follows(13) && Follows(14) && Follows(15)
  {
    hide First;
    Firsts0();
  }

  lemma Next1()
    ensures Follows(16) && Follows(17) && Follows(18) && Follows(19) && Follows(20) && Follows(21)
    ensures Follows(22) && Follows(23) && Follows(24) && Follows(25) && Follows(26) && Follows(27)
    ensures Follows(28) && Follows(29) && Follows(30) && Follows(31)
  {
    hide First;
    Firsts1();
    Firsts2();
  }

  lemma Next2()
    ensures Follows(32) && Follows(33) && Follows(34) && Follows(35) && Follows(36) && Follows(37)
    ensures Follows(38) && Follows(39) && Follows(40) && Follows(41) && Follows(42) && Follows(43)
    ensures Follows(44) && Follows(45) && Follows(46) && Follows(47)
  {
    hide First;
    Firsts3();
    Firsts4();
  }

  lemma Next3()
    ensures Follows(48) && Follows(49) && Follows(50) && Follows(51) && Follows(52) && Follows(53)
    ensures Follows(54) && Follows(55) && Follows(56) && Follows(57) && Follows(58) && Follows(59)
    ensures Follows(60) && Follows(61) && Follows(62) && Follows(63)
  {
    hide First;
    Firsts5();
    Firsts6();
  }

  lemma Next(t: nat)
    requires 7 <= t < 64
    ensures Follows(t)
  {
    hide Follows;
    if t < 16 { Next0(); } else if t < 32 { Next1(); } else if t < 48 { Next2(); } else { Next3(); }
  }

  lemma FirstPrimes(t: nat)
    requires t < 8
    ensures t < 7 ==> Prime(t) == [2, 3, 5, 7, 11, 13, 17][t]
  {
  }

  /** The table lists the primes in order from 2 on, and leaves none out. */
  lemma PrimesInOrder(t: nat)
    requires t < 64
    ensures IsPrime(Prime(t)) && Prime(0) == 2
    ensures t > 0 ==> Prime(t - 1) < Prime(t) && forall n | Prime(t - 1) < n < Prime(t) :: !IsPrime(n)
  {
    hide Prime, IsPrime;
    FirstPrimes(0);
    if t < 7 {
      FirstPrimes(t);
      FirstSeven(Prime(t));
      if t > 0 { FirstPrimes(t - 1); }
      forall n | t > 0 && Prime(t - 1) < n < Prime(t) ensures !IsPrime(n) { FirstSeven(n); }
    } else {
      Next(t);
      PrimeTest(Prime(t));
      FirstPrimes(6);
      forall n | Prime(t - 1) < n < Prime(t) ensures !IsPrime(n) {
        CompositeAt(if t == 7 then 18 else Prime(t - 1) + 1, Prime(t), n);
        PrimeTest(n);
      }
    }
  }

  /** The round constants are the first 32 bits of the fractional parts of the cube roots of the first 64 primes: with
      `q` before the point, the cube root of the prime lies between this 32-bit fraction and the next one. */
  lemma ConstantsAreCubeRoots(t: nat)
    requires t < 64
    ensures RoundConstant(t) < 0x1_0000_0000
    ensures exists q: nat :: var c := q * 0x1_0000_0000 + RoundConstant(t);
      Cube(c) <= Prime(t) * 0x1_0000_0000_0000_0000_0000_0000 < Cube(c + 1)
  {
    hide Cube, Prime, RoundConstant, Whole;
    Roots(t);
    var q := Whole(Prime(t));
    assert var c := q * 0x1_0000_0000 + RoundConstant(t);
      Cube(c) <= Prime(t) * 0x1_0000_0000_0000_0000_0000_0000 < Cube(c + 1);
  }

  /** The initial hash value is the same of the square roots of the first eight primes. */
  lemma InitialIsSquareRoots(t: nat)
    requires t < 8
    ensures var h := [IV.a, IV.b, IV.c, IV.d, IV.e, IV.f, IV.g, IV.h][t];
      && h < 0x1_0000_0000
      && exists q: nat :: var c := q * 0x1_0000_0000 + h;
        Square(c) <= Prime(t) * 0x1_0000_0000_0000_0000 < Square(c + 1)
  {
    var h, q := [IV.a, IV.b, IV.c, IV.d, IV.e, IV.f, IV.g, IV.h][t], if t < 2 then 1 else if t < 4 then 2
      else if t < 6 then 3 else 4;
    assert var c := q * 0x1_0000_0000 + h; Square(c) <= Prime(t) * 0x1_0000_0000_0000_0000 < Square(c + 1);
  }

  // ---------------------------------------------------------------- section 6.2.2 as recurrences

  /** The schedule written down word after word. */
  ghost function Expanded(b: seq<Byte>, n: nat): (w: seq<nat>)
    requires |b| == BLOCK && 16 <= n
    ensures |w| == n
    decreases n
  {
    if n == 16 then seq(16, t requires 0 <= t < 16 => BE(b[4 * t..4 * t + 4]))
    else
      var w := Expanded(b, n - 1);
      w + [(Sigma1(w[n - 3]) + w[n - 8] + Sigma0(w[n - 16]) + w[n - 17]) % 0x1_0000_0000]
  }

  lemma {:induction false} ScheduleExpands(b: seq<Byte>, n: nat, t: nat)
    requires |b| == BLOCK && 16 <= n <= 64 && t < n
    ensures Schedule(b, t) == Expanded(b, n)[t]
    decreases n, t
  {
    hide Word, Sigma0, Sigma1, BE, Schedule, Expanded;
    if t < 16 && n == 16 {
      FirstWords(b, t);
    } else {
      Grown(b, n);
      if t < n - 1 {
        ScheduleExpands(b, n - 1, t);
      } else {
        ScheduleExpands(b, n - 1, n - 3);
        ScheduleExpands(b, n - 1, n - 8);
        ScheduleExpands(b, n - 1, n - 16);
        ScheduleExpands(b, n - 1, n - 17);
        ScheduleStep(b, t);
      }
    }
  }

  lemma FirstWords(b: seq<Byte>, t: nat)
    requires |b| == BLOCK && t < 16
    ensures Schedule(b, t) == Expanded(b, 16)[t]
  {
    hide Word, BE;
    WordValue(b, t);
  }

  lemma ScheduleStep(b: seq<Byte>, t: nat)
    requires |b| == BLOCK && 16 <= t < 64
    ensures Schedule(b, t) ==
      U32(Sigma1(Schedule(b, t - 2)) + Schedule(b, t - 7) + Sigma0(Schedule(b, t - 15)) + Schedule(b, t - 16))
  {
    hide Word, Sigma0, Sigma1, U32;
  }

  lemma Grown(b: seq<Byte>, n: nat)
    requires |b| == BLOCK && 16 < n
    ensures var w := Expanded(b, n - 1);
      Expanded(b, n) == w + [U32(Sigma1(w[n - 3]) + w[n - 8] + Sigma0(w[n - 16]) + w[n - 17])]
  {
    hide Sigma0, Sigma1, BE;
  }

  /** Of the eight working variables two are new in each round and the others are the ones of the rounds before: `A(t)`
      and `E(t)` are the new ones after `t` rounds, from `t == -3` on. */
  ghost function A(v: Hash, b: seq<Byte>, t: int): nat
    requires |b| == BLOCK && -3 <= t <= 64
    decreases t + 3, 1
  {
    if t <= 0 then [v.a, v.b, v.c, v.d][-t]
    else
      hide Sum0, Maj;
      (Temp(v, b, t) + Sum0(A(v, b, t - 1)) + Maj(A(v, b, t - 1), A(v, b, t - 2), A(v, b, t - 3))) % 0x1_0000_0000
  }

  ghost function E(v: Hash, b: seq<Byte>, t: int): nat
    requires |b| == BLOCK && -3 <= t <= 64
    decreases t + 3, 1
  {
    if t <= 0 then [v.e, v.f, v.g, v.h][-t] else (A(v, b, t - 4) + Temp(v, b, t)) % 0x1_0000_0000
  }

  ghost function Temp(v: Hash, b: seq<Byte>, t: int): nat
    requires |b| == BLOCK && 0 < t <= 64
    decreases t + 3, 0
  {
    hide Sum1, Ch, Expanded;
    E(v, b, t - 4) + Sum1(E(v, b, t - 1)) + Ch(E(v, b, t - 1), E(v, b, t - 2), E(v, b, t - 3))
      + RoundConstant(t - 1) + Expanded(b, 64)[t - 1]
  }

  lemma RoundValue(v: Hash, k: nat, w: nat)
    ensures var temp := v.h + Sum1(v.e) + Ch(v.e, v.f, v.g) + k + w;
      Round(v, k, w) ==
        Hash(U32(temp + Sum0(v.a) + Maj(v.a, v.b, v.c)), v.a, v.b, v.c, U32(v.d + temp), v.e, v.f, v.g)
  {
    hide Sum0, Sum1, Ch, Maj, U32;
    var temp := v.h + Sum1(v.e) + Ch(v.e, v.f, v.g) + k + w;
    SumMod(temp, Sum0(v.a) + Maj(v.a, v.b, v.c), v.d);
  }

  lemma SumMod(x: nat, y: nat, d: nat)
    ensures U32(U32(x) + U32(y)) == U32(x + y) && U32(d + U32(x)) == U32(d + x)
  {
  }

  lemma NewVariables(v: Hash, b: seq<Byte>, t: nat)
    requires |b| == BLOCK && 0 < t <= 64
    ensures A(v, b, t) ==
      U32(Temp(v, b, t) + Sum0(A(v, b, t - 1)) + Maj(A(v, b, t - 1), A(v, b, t - 2), A(v, b, t - 3)))
    ensures E(v, b, t) == U32(A(v, b, t - 4) + Temp(v, b, t))
  {
    hide Sum0, Maj, Temp;
  }

  /** The eight working variables after `t` rounds are the last four of either sequence. */
  ghost function Window(v: Hash, b: seq<Byte>, t: nat): Hash
    requires |b| == BLOCK && t <= 64
  {
    Hash(A(v, b, t), A(v, b, t - 1), A(v, b, t - 2), A(v, b, t - 3),
         E(v, b, t), E(v, b, t - 1), E(v, b, t - 2), E(v, b, t - 3))
  }

  lemma WindowStarts(v: Hash, b: seq<Byte>)
    requires |b| == BLOCK
    ensures Window(v, b, 0) == v
  {
  }

  lemma {:induction false} RoundsRecur(v: Hash, b: seq<Byte>, t: nat)
    requires |b| == BLOCK && t <= 64
    ensures Rounds(v, b, t) == Window(v, b, t)
  {
    hide Sum0, Sum1, Ch, Maj, Round, RoundConstant, Schedule, Expanded, A, E, U32;
    if t == 0 {
      WindowStarts(v, b);
    } else {
      RoundsRecur(v, b, t - 1);
      ScheduleExpands(b, 64, t - 1);
      NewVariables(v, b, t);
      RoundValue(Window(v, b, t - 1), RoundConstant(t - 1), Schedule(b, t - 1));
    }
  }

  /** `sha256_compress`: the new hash value is the old one plus the last four of either sequence. */
  lemma CompressRecurs(v: Hash, b: seq<Byte>)
    requires |b| == BLOCK
    ensures var out, w := CompressBlock(v, b), Window(v, b, 64);
      && out.a == U32(v.a + w.a) && out.b == U32(v.b + w.b) && out.c == U32(v.c + w.c) && out.d == U32(v.d + w.d)
      && out.e == U32(v.e + w.e) && out.f == U32(v.f + w.f) && out.g == U32(v.g + w.g) && out.h == U32(v.h + w.h)
  {
    hide Window, Rounds;
    RoundsRecur(v, b, 64);
  }

  // ---------------------------------------------------------------- bytes

  lemma {:induction false} BEBack(n: nat, x: nat)
    ensures BE(ToBE(n, x)) == x % Pow256(n)
    decreases n
  {
    if n > 0 {
      BEBack(n - 1, x / 256);
      var s := ToBE(n, x);
      assert s[..|s| - 1] == ToBE(n - 1, x / 256);
      ModSplit(x, Pow256(n - 1));
      DivMod(x % (256 * Pow256(n - 1)), 256);
    }
  }

  lemma BEWord(x: nat)
    requires x < 0x1_0000_0000
    ensures BE(ToBE(4, x)) == x
  {
    hide BE, ToBE;
    BEBack(4, x);
    assert Pow256(4) == 0x1_0000_0000;
  }

  /** The digest is the eight words, most significant byte first. */
  lemma DigestWords(v: Hash, i: nat)
    requires i < 8 && forall w | w in [v.a, v.b, v.c, v.d, v.e, v.f, v.g, v.h] :: w < 0x1_0000_0000
    ensures BE(Digest(v)[4 * i..4 * i + 4]) == [v.a, v.b, v.c, v.d, v.e, v.f, v.g, v.h][i]
  {
    hide BE, ToBE;
    var ws := [v.a, v.b, v.c, v.d, v.e, v.f, v.g, v.h];
    assert ws[i] in ws;
    assert Digest(v)[4 * i..4 * i + 4] == ToBE(4, ws[i]);
    BEWord(ws[i]);
  }

  /** Section 5.1.1: a one bit, the fewest zeros that fill up to 8 bytes before the end of a block, and there the length
      in bits. */
  lemma PaddingShape(n: nat)
    ensures var p := Padding(n);
      && 9 <= |p| <= 72 && (n + |p|) % 64 == 0
      && p[0] == 0x80 && (forall i | 1 <= i < |p| - 8 :: p[i] == 0)
      && BE(p[|p| - 8..]) == (8 * n) % 0x1_0000_0000_0000_0000
  {
    hide BE, ToBE;
    var p := Padding(n);
    assert p[|p| - 8..] == ToBE(8, 8 * n);
    BEBack(8, 8 * n);
    assert Pow256(8) == 0x1_0000_0000_0000_0000;
  }

  /** Different messages, shorter than 2^61 bytes, are never padded to the same blocks. */
  lemma PaddingInjective(m: seq<Byte>, m': seq<Byte>)
    requires |m| < 0x2000_0000_0000_0000 && |m'| < 0x2000_0000_0000_0000
    requires m + Padding(|m|) == m' + Padding(|m'|)
    ensures m == m'
  {
    hide Padding, BE;
    var p, p', all := Padding(|m|), Padding(|m'|), m + Padding(|m|);
    PaddingShape(|m|);
    PaddingShape(|m'|);
    assert all[|all| - 8..] == p[|p| - 8..];
    assert all[|all| - 8..] == p'[|p'| - 8..] by { assert all == m' + p'; }
    assert m == all[..|m|] && m' == all[..|m'|];
  }
}
