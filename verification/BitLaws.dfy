/** Words bit by bit: which bit of the result each operation of `Bits` sets, and rotations. */
module BitLaws {
  import opened Bits

  /** Bit `i` of a number. */
  function Bit(x: nat, i: nat): (b: nat)
    ensures b < 2
    decreases i
  {
    if i == 0 then x % 2 else Bit(x / 2, i - 1)
  }

  lemma {:induction false} BitXor(a: nat, b: nat, i: nat)
    ensures Bit(Xor(a, b), i) == (Bit(a, i) + Bit(b, i)) % 2
    decreases i
  {
    hide Xor;
    XorStep(a, b);
    Halves(Xor(a / 2, b / 2), (a + b) % 2);
    if i > 0 { BitXor(a / 2, b / 2, i - 1); }
  }

  lemma {:induction false} BitAnd(a: nat, b: nat, i: nat)
    ensures Bit(And(a, b), i) == Bit(a, i) * Bit(b, i)
    decreases i
  {
    hide And;
    AndStep(a, b);
    Halves(And(a / 2, b / 2), (a % 2) * (b % 2));
    if i > 0 { BitAnd(a / 2, b / 2, i - 1); }
  }

  /** The complement of a word of `k` bits. */
  lemma {:induction false} BitNot(x: nat, k: nat, i: nat)
    requires x < Pow2(k) && i < k
    ensures Bit(Pow2(k) - 1 - x, i) == 1 - Bit(x, i)
    decreases k
  {
    Pow2Step(k);
    var y := Pow2(k) - 1 - x;
    assert y == 2 * (Pow2(k - 1) - 1 - x / 2) + (1 - x % 2);
    Halves(Pow2(k - 1) - 1 - x / 2, 1 - x % 2);
    if i > 0 { BitNot(x / 2, k - 1, i - 1); }
  }

  /** Bits of two numbers put next to each other. */
  lemma {:induction false} BitJoin(lo: nat, hi: nat, k: nat, i: nat)
    requires lo < Pow2(k)
    ensures Bit(lo + hi * Pow2(k), i) == if i < k then Bit(lo, i) else Bit(hi, i - k)
    decreases k
  {
    if k > 0 {
      var m := Pow2(k - 1);
      Pow2Step(k);
      Double(hi, m);
      Halves(lo / 2 + hi * m, lo % 2);
      assert lo + hi * Pow2(k) == 2 * (lo / 2 + hi * m) + lo % 2;
      if i > 0 { BitJoin(lo / 2, hi, k - 1, i - 1); }
    }
  }

  lemma BitSplit(x: nat, k: nat, i: nat)
    ensures Bit(x, i) == if i < k then Bit(Remainder(x, Pow2(k)), i) else Bit(Quotient(x, Pow2(k)), i - k)
  {
    hide Bit, Pow2;
    DivMod(x, Pow2(k));
    BitJoin(Remainder(x, Pow2(k)), Quotient(x, Pow2(k)), k, i);
  }

  lemma {:induction false} BitAbove(x: nat, k: nat, i: nat)
    requires x < Pow2(k) && k <= i
    ensures Bit(x, i) == 0
    decreases i
  {
    if k > 0 { BitAbove(x / 2, k - 1, i - 1); } else if i > 0 { BitAbove(0, 0, i - 1); }
  }

  /** A word of `k` bits is known by its bits. */
  lemma {:induction false} SameBits(x: nat, y: nat, k: nat)
    requires x < Pow2(k) && y < Pow2(k) && forall i | 0 <= i < k :: Bit(x, i) == Bit(y, i)
    ensures x == y
    decreases k
  {
    if k > 0 {
      Pow2Step(k);
      forall i | 0 <= i < k - 1 ensures Bit(x / 2, i) == Bit(y / 2, i) {
        assert Bit(x, i + 1) == Bit(y, i + 1);
      }
      SameBits(x / 2, y / 2, k - 1);
      assert Bit(x, 0) == Bit(y, 0);
    }
  }

  // ---------------------------------------------------------------- rotations of 32-bit words

  /** The low `k` bits change places with the rest. */
  function Turned(x: nat, k: nat): nat
    requires k <= 32
  {
    Quotient(x, Pow2(k)) + Remainder(x, Pow2(k)) * Pow2(32 - k)
  }

  lemma {:induction false} Pow2Add(a: nat, b: nat)
    ensures Pow2(a + b) == Pow2(a) * Pow2(b)
    decreases a
  {
    if a > 0 {
      Pow2Add(a - 1, b);
      assert (2 * Pow2(a - 1)) * Pow2(b) == 2 * (Pow2(a - 1) * Pow2(b));
    }
  }

  lemma Shorter(k: nat)
    requires k <= 32
    ensures Pow2(k) <= Pow2(32)
  {
    hide Pow2;
    Pow2Add(k, 32 - k);
    assert Pow2(k) * Pow2(32 - k) >= Pow2(k);
  }

  lemma Pow2Full()
    ensures Pow2(32) == 0x1_0000_0000
  {
    hide Pow2;
    Pow2Literals();
    Pow2Add(16, 16);
  }

  /** The part of a word above its low `k` bits. */
  lemma HighPart(x: nat, k: nat)
    requires x < 0x1_0000_0000 && k <= 32
    ensures Quotient(x, Pow2(k)) < Pow2(32 - k)
  {
    hide Pow2;
    Pow2Full();
    Pow2Add(k, 32 - k);
    DivMod(x, Pow2(k));
    Smaller(Pow2(k), x / Pow2(k), Pow2(32 - k));
  }

  /** Two shifts and an OR, as the code writes a rotation. */
  lemma RotateValue(x: nat, k: nat)
    requires x < 0x1_0000_0000 && 0 < k < 32
    ensures Or(Quotient(x, Pow2(k)), U32(x * Pow2(32 - k))) == Turned(x, k) < 0x1_0000_0000
    ensures Or(U32(x * Pow2(32 - k)), Quotient(x, Pow2(k))) == Turned(x, k)
  {
    hide Or, Pow2;
    var hi, lo, m := Quotient(x, Pow2(k)), Remainder(x, Pow2(k)), Pow2(32 - k);
    Pow2Full();
    Pow2Add(k, 32 - k);
    HighPart(x, k);
    ModAddScale(0, x, Pow2(k), m, 0x1_0000_0000);
    OrDisjoint(hi, lo, 32 - k);
    OrCommutes(hi, lo * m);
    Fits(hi, lo, m, Pow2(k));
  }

  lemma Fits(hi: nat, lo: nat, m: nat, n: nat)
    requires hi < m && lo < n
    ensures hi + lo * m < n * m
  {
    assert (n - 1 - lo) * m >= 0;
    assert n * m == m + lo * m + (n - 1 - lo) * m;
  }

  /** Bit `i` of a word turned by `k` was `k` places further up, around the end. */
  lemma BitTurned(x: nat, k: nat, i: nat)
    requires x < 0x1_0000_0000 && k <= 32 && i < 32
    ensures Bit(Turned(x, k), i) == Bit(x, (i + k) % 32)
  {
    hide Bit, Pow2;
    HighPart(x, k);
    BitJoin(Quotient(x, Pow2(k)), Remainder(x, Pow2(k)), 32 - k, i);
    BitSplit(x, k, (i + k) % 32);
  }

  /** Turning a word by `k` and then by the rest leaves it as it was. */
  lemma TurnBack(x: nat, k: nat)
    requires x < 0x1_0000_0000 && 0 < k < 32
    ensures Turned(Turned(x, k), 32 - k) == x
  {
    hide Pow2;
    var hi, lo, m, n := Quotient(x, Pow2(k)), Remainder(x, Pow2(k)), Pow2(32 - k), Pow2(k);
    HighPart(x, k);
    DivMod(x, n);
    ModUnique(hi + lo * m, m, lo, hi);
    assert lo + hi * n == x;
  }
}
