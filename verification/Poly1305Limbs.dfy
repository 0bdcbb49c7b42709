/** The 26-bit limb arithmetic of src/net/crypto.c against arithmetic modulo 2^130 - 5. */
module Poly1305Limbs {
  import opened Bits
  import opened Bytes

  const B: nat := 0x400_0000
  const P: nat := 0x3_ffff_ffff_ffff_ffff_ffff_ffff_ffff_fffb

  /** Five limbs in base 2^26, not necessarily reduced. */
  datatype Limbs = Limbs(a0: nat, a1: nat, a2: nat, a3: nat, a4: nat)

  function Val(x: Limbs): nat {
    x.a0 + x.a1 * 0x400_0000 + x.a2 * 0x10_0000_0000_0000 + x.a3 * 0x4000_0000_0000_0000_0000
         + x.a4 * 0x100_0000_0000_0000_0000_0000_0000
  }

  /** Invariant of the accumulator after each block. */
  predicate Reduced(h: Limbs) {
    h.a0 < B && h.a1 < B + 0x400 && h.a2 < B && h.a3 < B && h.a4 < B
  }

  /** Multiplier limbs, as clamping leaves them. */
  predicate Multiplier(r: Limbs) {
    r.a0 < B && r.a1 < B && r.a2 < B && r.a3 < B && r.a4 < B
  }

  /** The accumulator plus one block. */
  predicate Summed(h: Limbs) {
    h.a0 < 2 * B && h.a1 < 2 * B + 0x400 && h.a2 < 2 * B && h.a3 < 2 * B && h.a4 < 2 * B
  }

  /** Equal modulo 2^130 - 5. */
  predicate Same(x: int, y: int) { (x - y) % P == 0 }

  lemma SameMultiple(x: int, y: int, k: int)
    requires x == y + P * k
    ensures Same(x, y)
  {
    ModUnique(x - y, P, k, 0);
  }

  /** Multiplication under a name, so that proofs can treat products as unknowns. */
  function Mul(x: nat, y: nat): nat { x * y }

  lemma MulComm(x: nat, y: nat)
    ensures Mul(x, y) == Mul(y, x)
  {
  }

  lemma MulFive(x: nat, y: nat)
    ensures Mul(x, 5 * y) == 5 * Mul(x, y)
  {
  }

  lemma Distribute(x: nat, r: Limbs)
    ensures Mul(x, Val(r)) == Mul(x, r.a0) + Mul(x, r.a1) * 0x400_0000 + Mul(x, r.a2) * 0x10_0000_0000_0000
      + Mul(x, r.a3) * 0x4000_0000_0000_0000_0000 + Mul(x, r.a4) * 0x100_0000_0000_0000_0000_0000_0000
  {
  }

  /** Schoolbook product of two limb vectors, with 2^130 folded to 5. */
  function Columns(h: Limbs, r: Limbs, rr: Limbs): Limbs {
    Limbs(Mul(h.a0, r.a0) + Mul(h.a1, rr.a4) + Mul(h.a2, rr.a3) + Mul(h.a3, rr.a2) + Mul(h.a4, rr.a1),
          Mul(h.a0, r.a1) + Mul(h.a1, r.a0) + Mul(h.a2, rr.a4) + Mul(h.a3, rr.a3) + Mul(h.a4, rr.a2),
          Mul(h.a0, r.a2) + Mul(h.a1, r.a1) + Mul(h.a2, r.a0) + Mul(h.a3, rr.a4) + Mul(h.a4, rr.a3),
          Mul(h.a0, r.a3) + Mul(h.a1, r.a2) + Mul(h.a2, r.a1) + Mul(h.a3, r.a0) + Mul(h.a4, rr.a4),
          Mul(h.a0, r.a4) + Mul(h.a1, r.a3) + Mul(h.a2, r.a2) + Mul(h.a3, r.a1) + Mul(h.a4, r.a0))
  }

  function Times5(r: Limbs): Limbs { Limbs(5 * r.a0, 5 * r.a1, 5 * r.a2, 5 * r.a3, 5 * r.a4) }

  /** The parts of the product at 2^130 and above. */
  function Overflow(h: Limbs, r: Limbs): nat {
    (Mul(h.a1, r.a4) + Mul(h.a2, r.a3) + Mul(h.a3, r.a2) + Mul(h.a4, r.a1))
      + (Mul(h.a2, r.a4) + Mul(h.a3, r.a3) + Mul(h.a4, r.a2)) * 0x400_0000
      + (Mul(h.a3, r.a4) + Mul(h.a4, r.a3)) * 0x10_0000_0000_0000
      + Mul(h.a4, r.a4) * 0x4000_0000_0000_0000_0000
  }

  /** With the product, its rows and the twenty-five limb products as unknowns, folding is a linear identity. */
  lemma FoldColumns(v: nat, w0: nat, w1: nat, w2: nat, w3: nat, w4: nat,
    p00: nat, p01: nat, p02: nat, p03: nat, p04: nat, p10: nat, p11: nat, p12: nat, p13: nat, p14: nat, p20: nat,
    p21: nat, p22: nat, p23: nat, p24: nat, p30: nat, p31: nat, p32: nat, p33: nat, p34: nat, p40: nat, p41: nat,
    p42: nat, p43: nat, p44: nat)
    requires Row(v, w0, w1, w2, w3, w4)
    requires Row(w0, p00, p01, p02, p03, p04) && Row(w1, p10, p11, p12, p13, p14) && Row(w2, p20, p21, p22, p23, p24)
    requires Row(w3, p30, p31, p32, p33, p34) && Row(w4, p40, p41, p42, p43, p44)
    ensures v == (p00 + 5 * p14 + 5 * p23 + 5 * p32 + 5 * p41)
       + (p01 + p10 + 5 * p24 + 5 * p33 + 5 * p42) * 0x4000000
       + (p02 + p11 + p20 + 5 * p34 + 5 * p43) * 0x10000000000000
       + (p03 + p12 + p21 + p30 + 5 * p44) * 0x40000000000000000000
       + (p04 + p13 + p22 + p31 + p40) * 0x100000000000000000000000000
       + P * ((p14 + p23 + p32 + p41) + (p24 + p33 + p42) * 0x4000000 + (p34 + p43) * 0x10000000000000
           + (p44) * 0x40000000000000000000)
  {
  }

  ghost predicate Row(w: nat, p0: nat, p1: nat, p2: nat, p3: nat, p4: nat) {
    w == p0 + p1 * 0x4000000 + p2 * 0x10000000000000 + p3 * 0x40000000000000000000
         + p4 * 0x100000000000000000000000000
  }

  /** The product is made of five rows, each of them of five limb products. */
  lemma Rows(h: Limbs, r: Limbs)
    ensures var v := Val(r);
      && Mul(Val(h), v) == Mul(v, Val(h))
      && Row(Mul(v, Val(h)), Mul(v, h.a0), Mul(v, h.a1), Mul(v, h.a2), Mul(v, h.a3), Mul(v, h.a4))
      && RowOf(h.a0, r) && RowOf(h.a1, r) && RowOf(h.a2, r) && RowOf(h.a3, r) && RowOf(h.a4, r)
  {
    hide Mul;
    var v := Val(r);
    Distribute(v, h);
    MulComm(v, Val(h));
    OneRow(h.a0, r);
    OneRow(h.a1, r);
    OneRow(h.a2, r);
    OneRow(h.a3, r);
    OneRow(h.a4, r);
  }

  ghost predicate RowOf(a: nat, r: Limbs) {
    Row(Mul(Val(r), a), Mul(a, r.a0), Mul(a, r.a1), Mul(a, r.a2), Mul(a, r.a3), Mul(a, r.a4))
  }

  lemma OneRow(a: nat, r: Limbs)
    ensures RowOf(a, r)
  {
    hide Mul;
    MulComm(Val(r), a);
    Distribute(a, r);
  }

  lemma Fives(h: Limbs, r: Limbs)
    ensures Columns(h, r, Times5(r)) == Limbs(
      Mul(h.a0, r.a0) + 5 * Mul(h.a1, r.a4) + 5 * Mul(h.a2, r.a3) + 5 * Mul(h.a3, r.a2) + 5 * Mul(h.a4, r.a1),
      Mul(h.a0, r.a1) + Mul(h.a1, r.a0) + 5 * Mul(h.a2, r.a4) + 5 * Mul(h.a3, r.a3) + 5 * Mul(h.a4, r.a2),
      Mul(h.a0, r.a2) + Mul(h.a1, r.a1) + Mul(h.a2, r.a0) + 5 * Mul(h.a3, r.a4) + 5 * Mul(h.a4, r.a3),
      Mul(h.a0, r.a3) + Mul(h.a1, r.a2) + Mul(h.a2, r.a1) + Mul(h.a3, r.a0) + 5 * Mul(h.a4, r.a4),
      Mul(h.a0, r.a4) + Mul(h.a1, r.a3) + Mul(h.a2, r.a2) + Mul(h.a3, r.a1) + Mul(h.a4, r.a0))
  {
    hide Mul;
    MulFive(h.a1, r.a4);
    MulFive(h.a2, r.a3); MulFive(h.a2, r.a4);
    MulFive(h.a3, r.a2); MulFive(h.a3, r.a3); MulFive(h.a3, r.a4);
    MulFive(h.a4, r.a1); MulFive(h.a4, r.a2); MulFive(h.a4, r.a3); MulFive(h.a4, r.a4);
  }

  lemma ColumnsValue(h: Limbs, r: Limbs)
    ensures Mul(Val(h), Val(r)) == Val(Columns(h, r, Times5(r))) + P * Overflow(h, r)
  {
    hide Mul;
    var v := Val(r);
    Rows(h, r);
    Fives(h, r);
    FoldColumns(Mul(v, Val(h)), Mul(v, h.a0), Mul(v, h.a1), Mul(v, h.a2), Mul(v, h.a3), Mul(v, h.a4),
      Mul(h.a0, r.a0), Mul(h.a0, r.a1), Mul(h.a0, r.a2), Mul(h.a0, r.a3), Mul(h.a0, r.a4), Mul(h.a1, r.a0),
      Mul(h.a1, r.a1), Mul(h.a1, r.a2), Mul(h.a1, r.a3), Mul(h.a1, r.a4), Mul(h.a2, r.a0), Mul(h.a2, r.a1),
      Mul(h.a2, r.a2), Mul(h.a2, r.a3), Mul(h.a2, r.a4), Mul(h.a3, r.a0), Mul(h.a3, r.a1), Mul(h.a3, r.a2),
      Mul(h.a3, r.a3), Mul(h.a3, r.a4), Mul(h.a4, r.a0), Mul(h.a4, r.a1), Mul(h.a4, r.a2), Mul(h.a4, r.a3),
      Mul(h.a4, r.a4));
  }

  const K: nat := 0x20001000000000  // (2^27 + 2^10) * 2^26

  lemma MulBound(x: nat, y: nat)
    requires x < 2 * B + 0x400 && y < B
    ensures Mul(x, y) <= K && Mul(x, 5 * y) <= 5 * K
  {
    MulMonotone(x, 2 * B + 0x400, y);
    MulFive(x, y);
  }

  lemma MulMonotone(x: nat, m: nat, y: nat)
    requires x <= m
    ensures Mul(x, y) <= Mul(m, y)
  {
    assert (m - x) * y >= 0;
  }

  lemma ColumnsBound(h: Limbs, r: Limbs)
    requires Summed(h) && Multiplier(r)
    ensures var d := Columns(h, r, Times5(r));
      d.a0 <= 25 * K && d.a1 <= 25 * K && d.a2 <= 25 * K && d.a3 <= 25 * K && d.a4 <= 5 * K
  {
    hide Mul;
    MulBound(h.a0, r.a0); MulBound(h.a0, r.a1); MulBound(h.a0, r.a2); MulBound(h.a0, r.a3); MulBound(h.a0, r.a4);
    MulBound(h.a1, r.a0); MulBound(h.a1, r.a1); MulBound(h.a1, r.a2); MulBound(h.a1, r.a3); MulBound(h.a1, r.a4);
    MulBound(h.a2, r.a0); MulBound(h.a2, r.a1); MulBound(h.a2, r.a2); MulBound(h.a2, r.a3); MulBound(h.a2, r.a4);
    MulBound(h.a3, r.a0); MulBound(h.a3, r.a1); MulBound(h.a3, r.a2); MulBound(h.a3, r.a3); MulBound(h.a3, r.a4);
    MulBound(h.a4, r.a0); MulBound(h.a4, r.a1); MulBound(h.a4, r.a2); MulBound(h.a4, r.a3); MulBound(h.a4, r.a4);
  }

  /** The bits of a limb sum above, and below, bit 26. */
  function Hi(x: nat): nat { x / 0x400_0000 }
  function Lo(x: nat): nat { x % 0x400_0000 }

  lemma HiLo(x: nat)
    ensures x == 0x400_0000 * Hi(x) + Lo(x) && Lo(x) < 0x400_0000 && Hi(x) <= x
  {
  }

  /** The carry chain of `poly1305_multiply`, on columns that fit 64 bits. */
  function Carry(d: Limbs): Limbs {
    var d1 := d.a1 + Hi(d.a0);
    var d2 := d.a2 + Hi(d1);
    var d3 := d.a3 + Hi(d2);
    var d4 := d.a4 + Hi(d3);
    var c := Hi(d4) * 5 + Lo(d.a0);
    Limbs(Lo(c), Lo(d1) + Hi(c), Lo(d2), Lo(d3), Lo(d4))
  }

  /** Carrying changes the value by a multiple of 2^130 - 5 and reduces the limbs. */
  lemma CarryValue(d: Limbs) returns (q: nat)
    requires d.a0 <= 25 * K && d.a1 <= 25 * K && d.a2 <= 25 * K && d.a3 <= 25 * K && d.a4 <= 5 * K
    ensures Reduced(Carry(d)) && Val(d) == Val(Carry(d)) + P * q
  {
    hide Hi, Lo, Val;
    var d1 := d.a1 + Hi(d.a0);
    var d2 := d.a2 + Hi(d1);
    var d3 := d.a3 + Hi(d2);
    var d4 := d.a4 + Hi(d3);
    var c := Hi(d4) * 5 + Lo(d.a0);
    CarryBounds(d);
    q := Hi(d4);
    HiLo(d.a0); HiLo(d1); HiLo(d2); HiLo(d3); HiLo(d4); HiLo(c);
    CarryLinear(d, Hi(d.a0), Hi(d1), Hi(d2), Hi(d3), q, Hi(c), Lo(d.a0), Carry(d), Lo(d1));
  }

  /** No carry exceeds what its limb can take, and the one into the second limb is below 2^10. */
  lemma CarryBounds(d: Limbs)
    requires d.a0 <= 25 * K && d.a1 <= 25 * K && d.a2 <= 25 * K && d.a3 <= 25 * K && d.a4 <= 5 * K
    ensures
      var d1 := d.a1 + Hi(d.a0);
      var d2 := d.a2 + Hi(d1);
      var d3 := d.a3 + Hi(d2);
      var d4 := d.a4 + Hi(d3);
      var c := Hi(d4) * 5 + Lo(d.a0);
      && d1 <= 26 * K && d2 <= 26 * K && d3 <= 26 * K && d4 <= 6 * K && c < 0x400 * 0x400_0000 && Hi(c) < 0x400
  {
    hide Hi, Lo;
    var d1 := d.a1 + Hi(d.a0);
    HiBound(d.a0);
    var d2 := d.a2 + Hi(d1);
    HiBound(d1);
    var d3 := d.a3 + Hi(d2);
    HiBound(d2);
    var d4 := d.a4 + Hi(d3);
    HiBound(d3);
    HiLo(d4);
    HiLo(d.a0);
    HiLo(Hi(d4) * 5 + Lo(d.a0));
  }

  lemma HiBound(x: nat)
    requires x <= 26 * K
    ensures Hi(x) <= K
  {
  }

  /** With quotients and remainders as unknowns, the carry chain is a linear identity. */
  lemma CarryLinear(d: Limbs, q0: nat, q1: nat, q2: nat, q3: nat, q4: nat, qc: nat, r0: nat, h: Limbs, r1: nat)
    requires d.a0 == 0x400_0000 * q0 + r0
    requires d.a1 + q0 == 0x400_0000 * q1 + r1
    requires d.a2 + q1 == 0x400_0000 * q2 + h.a2
    requires d.a3 + q2 == 0x400_0000 * q3 + h.a3
    requires d.a4 + q3 == 0x400_0000 * q4 + h.a4
    requires q4 * 5 + r0 == 0x400_0000 * qc + h.a0
    requires h.a1 == r1 + qc
    ensures Val(d) == Val(h) + P * q4
  {
  }

  /** `poly1305_multiply`: every sum fits its machine word, so none of the wraps takes effect. */
  method Multiply(h: Limbs, r: Limbs, rr: Limbs) returns (h': Limbs)
    requires Summed(h) && Multiplier(r) && rr == Times5(r)
    ensures Reduced(h') && Same(Val(h) * Val(r), Val(h'))
  {
    hide Mul, U64, Same, Carry;
    var d0 := U64(Mul(h.a0, r.a0) + Mul(h.a1, rr.a4) + Mul(h.a2, rr.a3) + Mul(h.a3, rr.a2) + Mul(h.a4, rr.a1));
    var d1 := U64(Mul(h.a0, r.a1) + Mul(h.a1, r.a0) + Mul(h.a2, rr.a4) + Mul(h.a3, rr.a3) + Mul(h.a4, rr.a2));
    var d2 := U64(Mul(h.a0, r.a2) + Mul(h.a1, r.a1) + Mul(h.a2, r.a0) + Mul(h.a3, rr.a4) + Mul(h.a4, rr.a3));
    var d3 := U64(Mul(h.a0, r.a3) + Mul(h.a1, r.a2) + Mul(h.a2, r.a1) + Mul(h.a3, r.a0) + Mul(h.a4, rr.a4));
    var d4 := U64(Mul(h.a0, r.a4) + Mul(h.a1, r.a3) + Mul(h.a2, r.a2) + Mul(h.a3, r.a1) + Mul(h.a4, r.a0));
    ghost var d := Columns(h, r, rr);
    ColumnsBound(h, r);
    NoWrap64(d.a0); NoWrap64(d.a1); NoWrap64(d.a2); NoWrap64(d.a3); NoWrap64(d.a4);
    h' := PropagateCarries(Limbs(d0, d1, d2, d3, d4));
    ghost var q := CarryValue(d);
    ColumnsValue(h, r);
    SameProduct(h, r, h', Overflow(h, r) + q);
  }

  lemma SameProduct(h: Limbs, r: Limbs, h': Limbs, k: nat)
    requires Mul(Val(h), Val(r)) == Val(h') + P * k
    ensures Same(Val(h) * Val(r), Val(h'))
  {
    SameMultiple(Val(h) * Val(r), Val(h'), k);
  }

  method PropagateCarries(d: Limbs) returns (h: Limbs)
    requires d.a0 <= 25 * K && d.a1 <= 25 * K && d.a2 <= 25 * K && d.a3 <= 25 * K && d.a4 <= 5 * K
    ensures h == Carry(d)
  {
    hide U32, U64, Low26, Hi, Lo;
    CarryFits(d);
    NoWrap64(d.a1 + Hi(d.a0));
    var d1 := U64(d.a1 + Hi(d.a0));
    var h0 := Low26(d.a0);
    NoWrap64(d.a2 + Hi(d1));
    var d2 := U64(d.a2 + Hi(d1));
    var h1 := Low26(d1);
    NoWrap64(d.a3 + Hi(d2));
    var d3 := U64(d.a3 + Hi(d2));
    var h2 := Low26(d2);
    NoWrap64(d.a4 + Hi(d3));
    var d4 := U64(d.a4 + Hi(d3));
    var h3 := Low26(d3);
    NoWrap64(Hi(d4) * 5);
    var c := U64(Hi(d4) * 5);
    var h4 := Low26(d4);
    NoWrap64(c + h0);
    c := U64(c + h0);
    h0 := Low26(c);
    NoWrap32(Hi(c));
    NoWrap32(h1 + Hi(c));
    h1 := U32(h1 + U32(Hi(c)));
    h := Limbs(h0, h1, h2, h3, h4);
  }

  /** Every sum of the carry chain fits its machine word. */
  lemma CarryFits(d: Limbs)
    requires d.a0 <= 25 * K && d.a1 <= 25 * K && d.a2 <= 25 * K && d.a3 <= 25 * K && d.a4 <= 5 * K
    ensures
      var d1 := d.a1 + Hi(d.a0);
      var d2 := d.a2 + Hi(d1);
      var d3 := d.a3 + Hi(d2);
      var d4 := d.a4 + Hi(d3);
      var c := Hi(d4) * 5 + Lo(d.a0);
      && d1 < 0x1_0000_0000_0000_0000 && d2 < 0x1_0000_0000_0000_0000 && d3 < 0x1_0000_0000_0000_0000
      && d4 < 0x1_0000_0000_0000_0000 && Hi(d4) * 5 < 0x1_0000_0000_0000_0000 && c < 0x1_0000_0000_0000_0000
      && Hi(c) < 0x1_0000_0000 && Lo(d1) + Hi(c) < 0x1_0000_0000
  {
    hide Hi, Lo;
    CarryBounds(d);
    HiLo(d.a0);
    HiLo(d.a1 + Hi(d.a0));
  }

  /** The low 26 bits of a 64-bit word, as a 32-bit word. */
  function Low26(x: nat): (r: nat)
    ensures r == Lo(x)
  {
    NoWrap32(x % 0x400_0000);
    U32(x % 0x400_0000)
  }

  // ---------------------------------------------------------------- loading

  const MASK26: nat := 0x3ff_ffff

  /** Four 32-bit words cut into 26-bit limbs, as `poly1305_load_block` and `crypto_poly1305_init` do. */
  function Cut(c0: nat, c1: nat, c2: nat, c3: nat): Limbs {
    Limbs(And(c0, MASK26),
          And(Or(c0 / 0x400_0000, U32(c1 * 0x40)), MASK26),
          And(Or(c1 / 0x10_0000, U32(c2 * 0x1000)), MASK26),
          And(Or(c2 / 0x4000, U32(c3 * 0x4_0000)), MASK26),
          c3 / 0x100)
  }

  lemma Mask26(x: nat)
    ensures And(x, MASK26) == x % 0x400_0000
  {
    Pow2Literals();
    AndMask(x, 26);
  }

  lemma Wrap32(x: nat)
    ensures U32(x) == x % 0x1_0000_0000
  {
  }

  lemma Piece6(lo: nat, hi: nat)
    requires lo < 0x40 && hi < 0x1_0000_0000
    ensures And(Or(lo, U32(hi * 0x40)), MASK26) == lo + (hi % 0x10_0000) * 0x40
  {
    hide And, Or, U32;
    Pow2Literals();
    ModAddScale(0, hi, 0x400_0000, 0x40, 0x1_0000_0000);
    ModAddScale(lo, hi % 0x400_0000, 0x10_0000, 0x40, 0x400_0000);
    ModMod(hi, 0x10_0000, 0x40, 0x400_0000);
    Wrap32(hi * 0x40);
    OrDisjoint(lo, hi % 0x400_0000, 6);
    Mask26(lo + (hi % 0x400_0000) * 0x40);
  }

  lemma Piece12(lo: nat, hi: nat)
    requires lo < 0x1000 && hi < 0x1_0000_0000
    ensures And(Or(lo, U32(hi * 0x1000)), MASK26) == lo + (hi % 0x4000) * 0x1000
  {
    hide And, Or, U32;
    Pow2Literals();
    ModAddScale(0, hi, 0x10_0000, 0x1000, 0x1_0000_0000);
    ModAddScale(lo, hi % 0x10_0000, 0x4000, 0x1000, 0x400_0000);
    ModMod(hi, 0x4000, 0x40, 0x10_0000);
    Wrap32(hi * 0x1000);
    OrDisjoint(lo, hi % 0x10_0000, 12);
    Mask26(lo + (hi % 0x10_0000) * 0x1000);
  }

  lemma Piece18(lo: nat, hi: nat)
    requires lo < 0x4_0000 && hi < 0x1_0000_0000
    ensures And(Or(lo, U32(hi * 0x4_0000)), MASK26) == lo + (hi % 0x100) * 0x4_0000
  {
    hide And, Or, U32;
    Pow2Literals();
    ModAddScale(0, hi, 0x4000, 0x4_0000, 0x1_0000_0000);
    ModAddScale(lo, hi % 0x4000, 0x100, 0x4_0000, 0x400_0000);
    ModMod(hi, 0x100, 0x40, 0x4000);
    Wrap32(hi * 0x4_0000);
    OrDisjoint(lo, hi % 0x4000, 18);
    Mask26(lo + (hi % 0x4000) * 0x4_0000);
  }

  lemma CutValue(c0: nat, c1: nat, c2: nat, c3: nat)
    requires c0 < 0x1_0000_0000 && c1 < 0x1_0000_0000 && c2 < 0x1_0000_0000 && c3 < 0x1_0000_0000
    ensures var m := Cut(c0, c1, c2, c3);
      && m.a0 < B && m.a1 < B && m.a2 < B && m.a3 < B && m.a4 < 0x100_0000
      && Val(m) == c0 + 0x1_0000_0000 * c1 + 0x1_0000_0000_0000_0000 * c2 + 0x1_0000_0000_0000_0000_0000_0000 * c3
  {
    hide And, Or, U32;
    Mask26(c0);
    Piece6(c0 / 0x400_0000, c1);
    Piece12(c1 / 0x10_0000, c2);
    Piece18(c2 / 0x4000, c3);
  }

  /** `poly1305_load_block`. */
  function LoadBlock(p: seq<Byte>, padbit: nat): Limbs
    requires |p| == 16
  {
    var m := Cut(Load32(p, 0), Load32(p, 4), Load32(p, 8), Load32(p, 12));
    m.(a4 := Or(m.a4, padbit * 0x100_0000))
  }

  /** The limbs of a block denote its little-endian value plus 2^128 if `padbit` is set. */
  lemma LoadBlockValue(p: seq<Byte>, padbit: nat)
    requires |p| == 16 && padbit <= 1
    ensures var m := LoadBlock(p, padbit);
      && m.a0 < B && m.a1 < B && m.a2 < B && m.a3 < B && m.a4 < B
      && Val(m) == LE(p) + padbit * 0x1_0000_0000_0000_0000_0000_0000_0000_0000
  {
    hide Cut, Or, Load32, LE, Pow2;
    Load32Value(p, 0);
    Load32Value(p, 4);
    Load32Value(p, 8);
    Load32Value(p, 12);
    LESixteen(p);
    CutValue(Load32(p, 0), Load32(p, 4), Load32(p, 8), Load32(p, 12));
    Pow2Literals();
    OrDisjoint(Cut(Load32(p, 0), Load32(p, 4), Load32(p, 8), Load32(p, 12)).a4, padbit, 24);
  }

  function Add(h: Limbs, m: Limbs): Limbs {
    Limbs(U32(h.a0 + m.a0), U32(h.a1 + m.a1), U32(h.a2 + m.a2), U32(h.a3 + m.a3), U32(h.a4 + m.a4))
  }

  lemma AddValue(h: Limbs, m: Limbs)
    requires Reduced(h) && m.a0 < B && m.a1 < B && m.a2 < B && m.a3 < B && m.a4 < B
    ensures Summed(Add(h, m)) && Val(Add(h, m)) == Val(h) + Val(m)
  {
    hide U32;
    NoWrap32(h.a0 + m.a0);
    NoWrap32(h.a1 + m.a1);
    NoWrap32(h.a2 + m.a2);
    NoWrap32(h.a3 + m.a3);
    NoWrap32(h.a4 + m.a4);
  }

  /** `poly1305_block`: one step of Horner's rule with the block's value `v`, up to multiples of 2^130 - 5. */
  method Block(h: Limbs, r: Limbs, rr: Limbs, p: seq<Byte>, padbit: nat, ghost v: nat) returns (h': Limbs)
    requires Reduced(h) && Multiplier(r) && rr == Times5(r) && |p| == 16 && padbit <= 1
    requires v == LE(p) + padbit * 0x1_0000_0000_0000_0000_0000_0000_0000_0000
    ensures Reduced(h') && Same((Val(h) + v) * Val(r), Val(h'))
  {
    hide LoadBlock, LE, Same, Val, Add;
    var m := LoadBlock(p, padbit);
    LoadBlockValue(p, padbit);
    AddValue(h, m);
    h' := Multiply(Add(h, m), r, rr);
  }

  // ---------------------------------------------------------------- final reduction

  predicate Canonical(h: Limbs) {
    h.a0 < B && h.a1 < B && h.a2 < B && h.a3 < B && h.a4 < B
  }

  /** The normalising pass of `crypto_poly1305_final`. */
  function Normalise(h: Limbs): Limbs {
    var h2 := U32(h.a2 + h.a1 / 0x400_0000);
    var h3 := U32(h.a3 + h2 / 0x400_0000);
    var h4 := U32(h.a4 + h3 / 0x400_0000);
    var h0 := U32(h.a0 + U32((h4 / 0x400_0000) * 5));
    Limbs(And(h0, MASK26), U32(And(h.a1, MASK26) + h0 / 0x400_0000), And(h2, MASK26), And(h3, MASK26), And(h4, MASK26))
  }

  /** One pass is enough: only an oversized second limb can carry, and then it has room for the carry that returns. */
  lemma NormaliseValue(h: Limbs) returns (q: nat)
    requires Reduced(h)
    ensures Canonical(Normalise(h)) && Val(h) == Val(Normalise(h)) + P * q
  {
    hide And, U32;
    NoWrap32(h.a2 + h.a1 / 0x400_0000);
    var h2 := h.a2 + h.a1 / 0x400_0000;
    NoWrap32(h.a3 + h2 / 0x400_0000);
    var h3 := h.a3 + h2 / 0x400_0000;
    NoWrap32(h.a4 + h3 / 0x400_0000);
    var h4 := h.a4 + h3 / 0x400_0000;
    NoWrap32((h4 / 0x400_0000) * 5);
    NoWrap32(h.a0 + (h4 / 0x400_0000) * 5);
    var h0 := h.a0 + (h4 / 0x400_0000) * 5;
    Mask26(h.a1); Mask26(h2); Mask26(h3); Mask26(h4); Mask26(h0);
    q := h4 / 0x400_0000;
    NormaliseCarry(h.a1, h2, h3, h4, h0, h.a0);
    NoWrap32(h.a1 % 0x400_0000 + h0 / 0x400_0000);
    NormaliseLinear(h, h.a1 / 0x400_0000, h2 / 0x400_0000, h3 / 0x400_0000, q, h0 / 0x400_0000, h.a1 % 0x400_0000,
        Normalise(h));
  }

  /** A carry reaches the top only out of the second limb, which is then small enough to take it back. */
  lemma NormaliseCarry(a1: nat, h2: nat, h3: nat, h4: nat, h0: nat, a0: nat)
    requires a1 < B + 0x400 && a0 < B
    requires h2 < B + a1 / 0x400_0000 && h3 < B + h2 / 0x400_0000 && h4 < B + h3 / 0x400_0000
      && h0 == a0 + (h4 / 0x400_0000) * 5
    ensures a1 % 0x400_0000 + h0 / 0x400_0000 < B
  {
    if a1 < B {
      assert a1 / 0x400_0000 == 0 && h2 / 0x400_0000 == 0 && h3 / 0x400_0000 == 0 && h4 / 0x400_0000 == 0;
    } else {
      assert a1 % 0x400_0000 < 0x400;
    }
  }

  lemma NormaliseLinear(h: Limbs, q1: nat, q2: nat, q3: nat, q4: nat, q0: nat, r1: nat, n: Limbs)
    requires h.a1 == 0x400_0000 * q1 + r1
    requires h.a2 + q1 == 0x400_0000 * q2 + n.a2
    requires h.a3 + q2 == 0x400_0000 * q3 + n.a3
    requires h.a4 + q3 == 0x400_0000 * q4 + n.a4
    requires h.a0 + q4 * 5 == 0x400_0000 * q0 + n.a0
    requires n.a1 == r1 + q0
    ensures Val(h) == Val(n) + P * q4
  {
  }

  /** `h + 5`, carried; the top limb keeps its overflow. */
  function PlusFive(h: Limbs): Limbs {
    var g0 := U32(h.a0 + 5);
    var g1 := U32(h.a1 + g0 / 0x400_0000);
    var g2 := U32(h.a2 + g1 / 0x400_0000);
    var g3 := U32(h.a3 + g2 / 0x400_0000);
    Limbs(And(g0, MASK26), And(g1, MASK26), And(g2, MASK26), And(g3, MASK26), U32(h.a4 + g3 / 0x400_0000))
  }

  lemma PlusFiveValue(h: Limbs)
    requires Canonical(h)
    ensures var g := PlusFive(h);
      g.a0 < B && g.a1 < B && g.a2 < B && g.a3 < B && g.a4 <= B && Val(g) == Val(h) + 5
  {
    hide And, U32;
    NoWrap32(h.a0 + 5);
    var g0 := h.a0 + 5;
    NoWrap32(h.a1 + g0 / 0x400_0000);
    var g1 := h.a1 + g0 / 0x400_0000;
    NoWrap32(h.a2 + g1 / 0x400_0000);
    var g2 := h.a2 + g1 / 0x400_0000;
    NoWrap32(h.a3 + g2 / 0x400_0000);
    var g3 := h.a3 + g2 / 0x400_0000;
    NoWrap32(h.a4 + g3 / 0x400_0000);
    Mask26(g0); Mask26(g1); Mask26(g2); Mask26(g3);
  }

  const ONES: nat := 0xffff_ffff

  /** Branch-free choice between two words by an all-ones or all-zeros mask. */
  function Select(x: nat, y: nat, mask: nat): nat
    requires mask <= ONES
  {
    Or(And(x, ONES - mask), And(y, mask))
  }

  lemma SelectValue(x: nat, y: nat)
    requires x <= ONES && y <= ONES
    ensures Select(x, y, 0) == x && Select(x, y, ONES) == y
  {
    Ones32(x);
    Ones32(y);
  }

  lemma Ones32(x: nat)
    requires x <= ONES
    ensures And(x, ONES) == x
  {
    hide And, Pow2;
    Pow2High();
    AndMask(x, 32);
  }

  function Choose(h: Limbs, g: Limbs): Limbs
    requires g.a4 <= B
  {
    var mask := U32(0x1_0000_0000 - g.a4 / 0x400_0000);
    Limbs(Select(h.a0, g.a0, mask), Select(h.a1, g.a1, mask), Select(h.a2, g.a2, mask), Select(h.a3, g.a3, mask),
          Select(h.a4, g.a4, mask))
  }

  lemma ChooseIs(h: Limbs, g: Limbs)
    requires h.a0 < B && h.a1 < B && h.a2 < B && h.a3 < B && h.a4 < B
    requires g.a0 < B && g.a1 < B && g.a2 < B && g.a3 < B && g.a4 <= B
    ensures Choose(h, g) == if g.a4 < B then h else g
  {
    hide Select;
    SelectValue(h.a0, g.a0); SelectValue(h.a1, g.a1); SelectValue(h.a2, g.a2);
    SelectValue(h.a3, g.a3); SelectValue(h.a4, g.a4);
  }

  /** The masked subtraction yields the canonical residue, but for a multiple of 2^130 in the top limb. */
  lemma ChooseValue(h: Limbs) returns (q: nat)
    requires Canonical(h)
    ensures PlusFive(h).a4 <= B
    ensures var r := Choose(h, PlusFive(h));
      && r.a0 < B && r.a1 < B && r.a2 < B && r.a3 < B && r.a4 <= B
      && Val(r) == Val(h) % P + q * 0x4_0000_0000_0000_0000_0000_0000_0000_0000
  {
    hide Choose, PlusFive;
    PlusFiveValue(h);
    var g := PlusFive(h);
    ChooseIs(h, g);
    if g.a4 < B {
      q := 0;
      ModUnique(Val(h), P, 0, Val(h));
    } else {
      q := 1;
      ModUnique(Val(h), P, 1, Val(h) - P);
    }
  }

  // ---------------------------------------------------------------- the tag

  const TWO64: nat := 0x1_0000_0000_0000_0000
  const TWO128: nat := 0x1_0000_0000_0000_0000_0000_0000_0000_0000

  /** Limbs back into two 64-bit words; what exceeds 128 bits is shifted out. */
  function Words(h: Limbs): (nat, nat) {
    (Or(Or(h.a0, h.a1 * 0x400_0000), U64(h.a2 * 0x10_0000_0000_0000)),
     Or(Or(h.a2 / 0x1000, h.a3 * 0x4000), U64(h.a4 * 0x100_0000_0000)))
  }

  lemma WordsValue(h: Limbs)
    requires h.a0 < B && h.a1 < B && h.a2 < B && h.a3 < B && h.a4 <= B
    ensures var (lo, hi) := Words(h);
      lo < TWO64 && hi < TWO64 && lo + TWO64 * hi == Val(h) % TWO128
  {
    hide Or, U64;
    Pow2Literals();
    Pow2High();
    Wrap64(h.a2 * 0x10_0000_0000_0000);
    Wrap64(h.a4 * 0x100_0000_0000);
    ModAddScale(0, h.a2, 0x1000, 0x10_0000_0000_0000, TWO64);
    ModAddScale(0, h.a4, 0x100_0000, 0x100_0000_0000, TWO64);
    OrDisjoint(h.a0, h.a1, 26);
    OrDisjoint(h.a0 + h.a1 * 0x400_0000, h.a2 % 0x1000, 52);
    OrDisjoint(h.a2 / 0x1000, h.a3, 14);
    OrDisjoint(h.a2 / 0x1000 + h.a3 * 0x4000, h.a4 % 0x100_0000, 40);
    WordsSum(h);
  }

  lemma WordsSum(h: Limbs)
    requires h.a0 < B && h.a1 < B && h.a2 < B && h.a3 < B && h.a4 <= B
    ensures
      var lo := h.a0 + h.a1 * 0x400_0000 + (h.a2 % 0x1000) * 0x10_0000_0000_0000;
      var hi := h.a2 / 0x1000 + h.a3 * 0x4000 + (h.a4 % 0x100_0000) * 0x100_0000_0000;
      lo < TWO64 && hi < TWO64 && lo + TWO64 * hi == Val(h) % TWO128
  {
    var lo := h.a0 + h.a1 * 0x400_0000 + (h.a2 % 0x1000) * 0x10_0000_0000_0000;
    var hi := h.a2 / 0x1000 + h.a3 * 0x4000 + (h.a4 % 0x100_0000) * 0x100_0000_0000;
    ModUnique(Val(h), TWO128, h.a4 / 0x100_0000, lo + TWO64 * hi);
  }

  lemma Wrap64(x: nat)
    ensures U64(x) == x % TWO64
  {
  }

  lemma Pow2High()
    ensures Pow2(14) == 0x4000 && Pow2(32) == 0x1_0000_0000 && Pow2(40) == 0x100_0000_0000
      && Pow2(52) == 0x10_0000_0000_0000
  {
    Pow2Literals();
    assert Pow2(14) == 0x4000;
    assert Pow2(32) == 0x1_0000_0000;
    assert Pow2(38) == 0x40_0000_0000;
    assert Pow2(40) == 0x100_0000_0000;
    assert Pow2(46) == 0x4000_0000_0000;
  }

  /** 128-bit addition in two 64-bit words, the carry recognised by wrap-around. */
  function AddWords(h0: nat, h1: nat, s0: nat, s1: nat): (nat, nat) {
    var lo := U64(h0 + s0);
    (lo, U64(h1 + s1 + if lo < s0 then 1 else 0))
  }

  lemma AddWordsValue(h0: nat, h1: nat, s0: nat, s1: nat)
    requires h0 < TWO64 && h1 < TWO64 && s0 < TWO64 && s1 < TWO64
    ensures var (lo, hi) := AddWords(h0, h1, s0, s1);
      lo < TWO64 && hi < TWO64 && lo + TWO64 * hi == (h0 + TWO64 * h1 + s0 + TWO64 * s1) % TWO128
  {
    var lo := U64(h0 + s0);
    var c := if lo < s0 then 1 else 0;
    assert h0 + s0 == lo + TWO64 * c;
    var hi := U64(h1 + s1 + c);
    var q := (h1 + s1 + c) / TWO64;
    ModUnique(h0 + TWO64 * h1 + s0 + TWO64 * s1, TWO128, q, lo + TWO64 * hi);
  }

  /** The canonical residue of the accumulator, modulo 2^128, in two words. */
  method Residue(h: Limbs) returns (h0: nat, h1: nat)
    requires Reduced(h)
    ensures h0 < TWO64 && h1 < TWO64 && h0 + TWO64 * h1 == (Val(h) % P) % TWO128
  {
    hide Normalise, PlusFive, Choose, Words, Val;
    ghost var q := NormaliseValue(h);
    var n := Normalise(h);
    ModMultiple(Val(h), Val(n), P, q);
    ghost var q2 := ChooseValue(n);
    var r := Choose(n, PlusFive(n));
    WordsValue(r);
    ModTag(Val(r), Val(h) % P, q2);
    var (w0, w1) := Words(r);
    h0, h1 := w0, w1;
  }

  /** The arithmetic of `crypto_poly1305_final` after the last block: the tag is the canonical residue of the
      accumulator plus `s`, modulo 2^128, least significant byte first. */
  method Finish(h: Limbs, s: seq<Byte>) returns (tag: seq<Byte>)
    requires Reduced(h) && |s| == 16
    ensures tag == ToLE(16, (Val(h) % P + LE(s)) % TWO128)
  {
    hide AddWords, LE, ToLE, Load32, Or, Val;
    var h0, h1 := Residue(h);
    var s0 := Or(Load32(s, 0), Load32(s, 4) * 0x1_0000_0000);
    var s1 := Or(Load32(s, 8), Load32(s, 12) * 0x1_0000_0000);
    KeyWords(s);
    AddWordsValue(h0, h1, s0, s1);
    var (t0, t1) := AddWords(h0, h1, s0, s1);
    tag := ToLE(8, t0) + ToLE(8, t1);
    TagBytes(t0, t1);
    ModSum(Val(h) % P, LE(s));
  }

  lemma TagBytes(t0: nat, t1: nat)
    requires t0 < TWO64
    ensures ToLE(8, t0) + ToLE(8, t1) == ToLE(16, t0 + TWO64 * t1)
  {
    assert Pow256(8) == TWO64;
    hide ToLE;
    ToLEJoin(8, 8, t0, t1);
  }

  lemma ModSum(a: nat, s: nat)
    ensures (a % TWO128 + s) % TWO128 == (a + s) % TWO128
  {
    ModMultiple(a + s, a % TWO128 + s, TWO128, a / TWO128);
  }

  lemma ModMultiple(x: nat, y: nat, m: nat, q: nat)
    requires m > 0 && x == y + m * q
    ensures x % m == y % m
  {
    DivMod(y, m);
    assert x == m * (y / m + q) + y % m by { assert m * (y / m + q) == m * (y / m) + m * q; }
    ModUnique(x, m, y / m + q, y % m);
  }

  lemma KeyWords(s: seq<Byte>)
    requires |s| == 16
    ensures
      var s0 := Or(Load32(s, 0), Load32(s, 4) * 0x1_0000_0000);
      var s1 := Or(Load32(s, 8), Load32(s, 12) * 0x1_0000_0000);
      s0 < TWO64 && s1 < TWO64 && s0 + TWO64 * s1 == LE(s)
  {
    hide Or, Load32, LE, Pow2;
    Pow2High();
    Load32Value(s, 0); Load32Value(s, 4); Load32Value(s, 8); Load32Value(s, 12);
    OrDisjoint(Load32(s, 0), Load32(s, 4), 32);
    OrDisjoint(Load32(s, 8), Load32(s, 12), 32);
    LESixteen(s);
  }

  lemma ModTag(x: nat, a: nat, q: nat)
    requires x == a + q * 0x4_0000_0000_0000_0000_0000_0000_0000_0000
    ensures x % TWO128 == a % TWO128
  {
    ModMultiple(x, a, TWO128, 4 * q);
  }
}
