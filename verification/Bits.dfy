/** Unsigned machine arithmetic on natural numbers: bitwise operators defined bit by bit, and what masks,
    shifts and disjoint ORs mean as arithmetic. */
module Bits {

  type Byte = x: nat | x < 256

  function Pow2(n: nat): (r: nat)
    ensures r >= 1
  {
    if n == 0 then 1 else 2 * Pow2(n - 1)
  }

  function Quotient(x: nat, d: nat): nat
    requires d > 0
  {
    x / d
  }

  function Remainder(x: nat, d: nat): nat
    requires d > 0
  {
    x % d
  }

  function U32(x: nat): nat { x % 0x1_0000_0000 }

  function U64(x: nat): nat { x % 0x1_0000_0000_0000_0000 }

  lemma NoWrap64(x: nat)
    requires x < 0x1_0000_0000_0000_0000
    ensures U64(x) == x
  {
  }

  lemma NoWrap32(x: nat)
    requires x < 0x1_0000_0000
    ensures U32(x) == x
  {
  }

  function And(a: nat, b: nat): nat
    decreases a
  {
    if a == 0 || b == 0 then 0 else (a % 2) * (b % 2) + 2 * And(a / 2, b / 2)
  }

  function Or(a: nat, b: nat): nat
    decreases a + b
  {
    if a == 0 then b else if b == 0 then a
    else (if a % 2 == 1 || b % 2 == 1 then 1 else 0) + 2 * Or(a / 2, b / 2)
  }

  function Xor(a: nat, b: nat): nat
    decreases a + b
  {
    if a == 0 then b else if b == 0 then a
    else (a + b) % 2 + 2 * Xor(a / 2, b / 2)
  }

  lemma XorStep(a: nat, b: nat)
    ensures Xor(a, b) == (a + b) % 2 + 2 * Xor(a / 2, b / 2)
  {
  }

  lemma {:induction false} XorCancels(a: nat, b: nat)
    ensures Xor(Xor(a, b), b) == a
    decreases a + b
  {
    if a != 0 || b != 0 {
      XorCancels(a / 2, b / 2);
      hide Xor;
      XorStep(a, b);
      Halves(Xor(a / 2, b / 2), (a + b) % 2);
      XorStep(Xor(a, b), b);
      Parity(a, b, Xor(a / 2, b / 2));
    }
  }

  lemma Parity(a: nat, b: nat, y: nat)
    ensures ((a + b) % 2 + 2 * y + b) % 2 == a % 2
  {
  }

  lemma Halves(x: nat, bit: nat)
    requires bit < 2
    ensures (2 * x + bit) / 2 == x && (2 * x + bit) % 2 == bit
  {
  }

  lemma {:induction false} OrCommutes(a: nat, b: nat)
    ensures Or(a, b) == Or(b, a)
    decreases a + b
  {
    if a != 0 && b != 0 { OrCommutes(a / 2, b / 2); }
  }

  lemma OrDisjoint(a: nat, b: nat, k: nat)
    requires a < Pow2(k)
    ensures Or(a, b * Pow2(k)) == a + b * Pow2(k)
  {
    hide Or, Pow2;
    OrSplit(a, 0, 0, b, k);
    OrZero(a);
    OrZero(b);
  }

  lemma {:induction false} AndMask(a: nat, k: nat)
    ensures And(a, Pow2(k) - 1) == a % Pow2(k)
    decreases k
  {
    if k > 0 {
      AndMask(a / 2, k - 1);
      AndMaskStep(a, k);
    }
  }

  lemma AndMaskStep(a: nat, k: nat)
    requires k > 0 && And(a / 2, Pow2(k - 1) - 1) == (a / 2) % Pow2(k - 1)
    ensures And(a, Pow2(k) - 1) == a % Pow2(k)
  {
    hide And, Pow2;
    var m := Pow2(k - 1);
    Pow2Step(k);
    AndStep(a, 2 * m - 1);
    Halves(m - 1, 1);
    ModHalf(a, m);
  }

  lemma ModHalf(a: nat, m: nat)
    requires m > 0
    ensures a % (2 * m) == a % 2 + 2 * ((a / 2) % m)
  {
    var q, r := (a / 2) / m, (a / 2) % m;
    assert a / 2 == m * q + r;
    assert a == 2 * m * q + (2 * r + a % 2);
    ModUnique(a, 2 * m, q, 2 * r + a % 2);
  }

  lemma ModUnique(a: int, m: int, q: int, r: int)
    requires m > 0 && a == m * q + r && 0 <= r < m
    ensures a % m == r && a / m == q
  {
    var d := a / m - q;
    assert m * d == r - a % m;
    assert d >= 1 ==> m * d >= m;
    assert d <= -1 ==> m * d <= -m;
  }

  /** Bitwise AND works on the low and the high parts separately. */
  lemma {:induction false} AndSplit(a: nat, b: nat, c: nat, d: nat, k: nat)
    requires a < Pow2(k) && c < Pow2(k)
    ensures And(a + b * Pow2(k), c + d * Pow2(k)) == And(a, c) + And(b, d) * Pow2(k)
    decreases k
  {
    if k > 0 {
      AndSplit(a / 2, b, c / 2, d, k - 1);
      Pow2Step(k);
      AndSplitStep(a, b, c, d, Pow2(k - 1));
    }
  }

  lemma AndSplitStep(a: nat, b: nat, c: nat, d: nat, m: nat)
    requires And(a / 2 + b * m, c / 2 + d * m) == And(a / 2, c / 2) + And(b, d) * m
    ensures And(a + b * (2 * m), c + d * (2 * m)) == And(a, c) + And(b, d) * (2 * m)
  {
    hide And;
    Double(b, m);
    Double(d, m);
    Double(And(b, d), m);
    AndBits(a / 2 + b * m, a % 2, c / 2 + d * m, c % 2);
    AndBits(a / 2, a % 2, c / 2, c % 2);
  }

  lemma AndBits(x: nat, p: nat, y: nat, q: nat)
    requires p < 2 && q < 2
    ensures And(2 * x + p, 2 * y + q) == p * q + 2 * And(x, y)
  {
    Halves(x, p);
    Halves(y, q);
    AndStep(2 * x + p, 2 * y + q);
  }

  /** Or works on the bits below and above bit `k` separately. */
  lemma {:induction false} OrSplit(a: nat, b: nat, c: nat, d: nat, k: nat)
    requires a < Pow2(k) && c < Pow2(k)
    ensures Or(a + b * Pow2(k), c + d * Pow2(k)) == Or(a, c) + Or(b, d) * Pow2(k)
    decreases k
  {
    hide Or, Pow2;
    if k == 0 {
      Pow2Zero();
      OrZero(0);
    } else {
      var m := Pow2(k - 1);
      Pow2Step(k);
      OrSplit(a / 2, b, c / 2, d, k - 1);
      Double(b, m);
      Double(d, m);
      Double(Or(b, d), m);
      OrBits(a / 2 + b * m, a % 2, c / 2 + d * m, c % 2);
      OrBits(a / 2, a % 2, c / 2, c % 2);
    }
  }

  lemma Pow2Zero()
    ensures Pow2(0) == 1
  {
  }

  lemma OrZero(x: nat)
    ensures Or(x, 0) == x && Or(0, x) == x
  {
  }

  lemma OrBits(x: nat, p: nat, y: nat, q: nat)
    requires p < 2 && q < 2
    ensures Or(2 * x + p, 2 * y + q) == (if p == 1 || q == 1 then 1 else 0) + 2 * Or(x, y)
  {
    Halves(x, p);
    Halves(y, q);
    OrStep(2 * x + p, 2 * y + q);
  }

  lemma OrStep(a: nat, b: nat)
    ensures Or(a, b) == (if a % 2 == 1 || b % 2 == 1 then 1 else 0) + 2 * Or(a / 2, b / 2)
  {
  }

  lemma Double(b: nat, m: nat)
    ensures b * (2 * m) == 2 * (b * m)
  {
  }

  lemma Pow2Step(k: nat)
    requires k > 0
    ensures Pow2(k) == 2 * Pow2(k - 1)
  {
  }

  lemma AndStep(a: nat, b: nat)
    ensures And(a, b) == (a % 2) * (b % 2) + 2 * And(a / 2, b / 2)
  {
  }

  lemma Pow2Literals()
    ensures Pow2(6) == 0x40 && Pow2(8) == 0x100 && Pow2(12) == 0x1000 && Pow2(16) == 0x1_0000
    ensures Pow2(18) == 0x4_0000 && Pow2(24) == 0x100_0000 && Pow2(26) == 0x400_0000
  {
    assert Pow2(6) == 0x40;
    assert Pow2(12) == 0x1000;
    assert Pow2(18) == 0x4_0000;
    assert Pow2(24) == 0x100_0000;
  }

  lemma DivMod(h: nat, m: nat)
    requires m > 0
    ensures h == m * (h / m) + h % m && h % m < m
  {
  }

  lemma Smaller(m: nat, q: nat, n: nat)
    requires m * q < m * n
    ensures q < n
  {
    assert q >= n ==> m * q >= m * n;
  }

  lemma ModAddScale(lo: nat, h: nat, m: nat, k: nat, n: nat)
    requires m > 0 && lo < k && n == m * k
    ensures (lo + h * k) % n == lo + (h % m) * k
  {
    var q, r := h / m, h % m;
    DivMod(h, m);
    Spread(m, q, r, k);
    ModUnique(lo + h * k, n, q, lo + r * k);
  }

  lemma Spread(m: nat, q: nat, r: nat, k: nat)
    requires r < m
    ensures (m * q + r) * k == (m * k) * q + r * k && r * k + k <= m * k
  {
    assert (m * q) * k == (m * k) * q;
    assert (r + 1) * k <= m * k;
  }

  lemma ModMod(h: nat, b: nat, c: nat, n: nat)
    requires b > 0 && c > 0 && n == b * c
    ensures (h % n) % b == h % b
  {
    var q, r := h / n, h % n;
    DivMod(h, n);
    DivMod(r, b);
    assert h == b * (c * q + r / b) + r % b by { assert (b * c) * q == b * (c * q); }
    ModUnique(h, b, c * q + r / b, r % b);
  }
}
