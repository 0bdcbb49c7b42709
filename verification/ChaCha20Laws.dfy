/** What the block function of ChaCha20 is made of: rotations bit by bit, a quarter round that can be undone, and rounds
    on the columns and diagonals of a matrix. */
module ChaCha20Laws {
  import opened Bits
  import opened BitLaws
  import opened Bytes
  import opened ChaCha20

  // ---------------------------------------------------------------- section 2.1: the quarter round

  lemma RotlTurns(x: nat, n: nat)
    requires x < 0x1_0000_0000 && 0 < n < 32
    ensures Rotl(x, n) == Turned(x, 32 - n) < 0x1_0000_0000
  {
    hide Or, Pow2, Turned;
    RotateValue(x, 32 - n);
  }

  /** Bit `i` moves up by `n` places, around the end. */
  lemma RotlBit(x: nat, n: nat, i: nat)
    requires x < 0x1_0000_0000 && 0 < n < 32 && i < 32
    ensures Bit(Rotl(x, n), (i + n) % 32) == Bit(x, i)
  {
    hide Rotl, Turned, Bit;
    RotlTurns(x, n);
    BitTurned(x, 32 - n, (i + n) % 32);
    assert ((i + n) % 32 + (32 - n)) % 32 == i;
  }

  function Minus(x: nat, y: nat): nat
    requires y <= 0x1_0000_0000
  {
    U32(x + 0x1_0000_0000 - y)
  }

  lemma MinusBack(x: nat, y: nat)
    requires x < 0x1_0000_0000 && y < 0x1_0000_0000
    ensures Minus(U32(x + y), y) == x
  {
  }

  /** Undoing one line of the quarter round, `y := (y ^ s) <<< n`. */
  lemma LineBack(y: nat, s: nat, n: nat)
    requires y < 0x1_0000_0000 && s < 0x1_0000_0000 && 0 < n < 32
    ensures var z := Rotl(Xor(y, s), n); z < 0x1_0000_0000 && Xor(Rotl(z, 32 - n), s) == y
  {
    hide Rotl, Xor, Turned, Pow2;
    Pow2Full();
    XorBound(y, s, 32);
    RotlTurns(Xor(y, s), n);
    RotlTurns(Rotl(Xor(y, s), n), 32 - n);
    TurnBack(Xor(y, s), 32 - n);
    XorCancels(y, s);
  }

  datatype Four = Four(a: nat, b: nat, c: nat, d: nat)

  predicate IsWords(q: Four) {
    q.a < 0x1_0000_0000 && q.b < 0x1_0000_0000 && q.c < 0x1_0000_0000 && q.d < 0x1_0000_0000
  }

  /** What a quarter round makes of the four words it works on. */
  function Mixed(q: Four): Four {
    hide Rotl, Xor;
    var y := Quarter([q.a, q.b, q.c, q.d], 0, 1, 2, 3);
    Four(y[0], y[1], y[2], y[3])
  }

  /** The lines of the quarter round undone, last one first: rotations by 7, 8, 12 and 16 to the right. */
  function Unmixed(q: Four): Four
    requires IsWords(q)
  {
    var b1 := Xor(Rotl(q.b, 32 - 7), q.c);
    var c1 := Minus(q.c, q.d);
    var d1 := Xor(Rotl(q.d, 32 - 8), q.a);
    var a1 := if b1 < 0x1_0000_0000 then Minus(q.a, b1) else 0;
    var b0 := Xor(Rotl(b1, 32 - 12), c1);
    var c0 := if d1 < 0x1_0000_0000 then Minus(c1, d1) else 0;
    var d0 := Xor(Rotl(d1, 32 - 16), a1);
    Four(if b0 < 0x1_0000_0000 then Minus(a1, b0) else 0, b0, c0, d0)
  }

  /** The quarter round is a permutation of four words. */
  lemma MixBack(q: Four)
    requires IsWords(q)
    ensures IsWords(Mixed(q)) && Unmixed(Mixed(q)) == q
  {
    hide Rotl, Xor, Minus;
    var a1 := U32(q.a + q.b);
    LineBack(q.d, a1, 16);
    var d1 := Rotl(Xor(q.d, a1), 16);
    var c1 := U32(q.c + d1);
    LineBack(q.b, c1, 12);
    var b1 := Rotl(Xor(q.b, c1), 12);
    var a2 := U32(a1 + b1);
    LineBack(d1, a2, 8);
    var d2 := Rotl(Xor(d1, a2), 8);
    var c2 := U32(c1 + d2);
    LineBack(b1, c2, 7);
    MinusBack(q.a, q.b);
    MinusBack(q.c, d1);
    MinusBack(a1, b1);
    MinusBack(c1, d2);
    assert Mixed(q) == Four(a2, Rotl(Xor(b1, c2), 7), c2, d2);
  }

  // ---------------------------------------------------------------- section 2.3: rounds on the matrix

  function At(x: seq<nat>, a: nat, b: nat, c: nat, d: nat): Four
    requires |x| == 16 && a < 16 && b < 16 && c < 16 && d < 16
  {
    Four(x[a], x[b], x[c], x[d])
  }

  predicate Others(a: nat, b: nat, c: nat, d: nat, i: nat) { i != a && i != b && i != c && i != d }

  /** A quarter round mixes its four words and leaves the others alone. */
  lemma QuarterAt(x: seq<nat>, a: nat, b: nat, c: nat, d: nat)
    requires |x| == 16 && a < 16 && b < 16 && c < 16 && d < 16
    requires a != b && a != c && a != d && b != c && b != d && c != d
    ensures var y := Quarter(x, a, b, c, d);
      At(y, a, b, c, d) == Mixed(At(x, a, b, c, d)) && forall i | 0 <= i < 16 && Others(a, b, c, d, i) :: y[i] == x[i]
  {
    hide Rotl, Xor;
  }

  function Column(x: seq<nat>, c: nat): Four
    requires |x| == 16 && c < 4
  {
    At(x, c, 4 + c, 8 + c, 12 + c)
  }

  /** One more to the right in each row, around the end. */
  function Diagonal(x: seq<nat>, c: nat): Four
    requires |x| == 16 && c < 4
  {
    At(x, c, 4 + (c + 1) % 4, 8 + (c + 2) % 4, 12 + (c + 3) % 4)
  }

  lemma ColumnRound(x: seq<nat>)
    requires |x| == 16
    ensures var y := Quarter(Quarter(Quarter(Quarter(x, 0, 4, 8, 12), 1, 5, 9, 13), 2, 6, 10, 14), 3, 7, 11, 15);
      forall c | 0 <= c < 4 :: Column(y, c) == Mixed(Column(x, c))
  {
    hide Quarter, Mixed;
    var x1 := Quarter(x, 0, 4, 8, 12);
    var x2 := Quarter(x1, 1, 5, 9, 13);
    var x3 := Quarter(x2, 2, 6, 10, 14);
    QuarterAt(x, 0, 4, 8, 12);
    QuarterAt(x1, 1, 5, 9, 13);
    QuarterAt(x2, 2, 6, 10, 14);
    QuarterAt(x3, 3, 7, 11, 15);
  }

  lemma DiagonalRound(x: seq<nat>)
    requires |x| == 16
    ensures var y := Quarter(Quarter(Quarter(Quarter(x, 0, 5, 10, 15), 1, 6, 11, 12), 2, 7, 8, 13), 3, 4, 9, 14);
      forall c | 0 <= c < 4 :: Diagonal(y, c) == Mixed(Diagonal(x, c))
  {
    hide Quarter, Mixed;
    var x1 := Quarter(x, 0, 5, 10, 15);
    var x2 := Quarter(x1, 1, 6, 11, 12);
    var x3 := Quarter(x2, 2, 7, 8, 13);
    QuarterAt(x, 0, 5, 10, 15);
    QuarterAt(x1, 1, 6, 11, 12);
    QuarterAt(x2, 2, 7, 8, 13);
    QuarterAt(x3, 3, 4, 9, 14);
  }

  /** A double round mixes every column, then every diagonal. */
  lemma DoubleRoundMixes(x: seq<nat>) returns (mid: seq<nat>)
    requires |x| == 16
    ensures |mid| == 16 && var y := DoubleRound(x);
      && (forall c | 0 <= c < 4 :: Column(mid, c) == Mixed(Column(x, c)))
      && (forall c | 0 <= c < 4 :: Diagonal(y, c) == Mixed(Diagonal(mid, c)))
  {
    hide Quarter, Mixed, Column, Diagonal;
    mid := Quarter(Quarter(Quarter(Quarter(x, 0, 4, 8, 12), 1, 5, 9, 13), 2, 6, 10, 14), 3, 7, 11, 15);
    ColumnRound(x);
    DiagonalRound(mid);
  }

  ghost function Ascii(s: string): (b: seq<Byte>)
    ensures |b| == |s|
  {
    seq(|s|, i requires 0 <= i < |s| => if s[i] as int < 256 then s[i] as int else 0)
  }

  lemma {:induction false} SerialiseJoin(x: seq<nat>, y: seq<nat>)
    ensures Serialise(x + y) == Serialise(x) + Serialise(y)
  {
    hide ToLE;
    if x == [] {
      assert x + y == y;
    } else {
      assert (x + y)[1..] == x[1..] + y;
      SerialiseJoin(x[1..], y);
    }
  }

  lemma {:induction false} LoadAll(s: seq<Byte>, x: seq<nat>)
    requires |s| == 4 * |x| && forall i | 0 <= i < |x| :: x[i] == Load32(s, 4 * i)
    ensures Serialise(x) == s
    decreases |x|
  {
    hide ToLE, Load32, LE;
    if x != [] {
      Load32Value(s, 0);
      RoundTripBytes(s[..4]);
      forall i | 0 <= i < |x[1..]| ensures x[1..][i] == Load32(s[4..], 4 * i) {
        Load32Value(s, 4 * (i + 1));
        Load32Value(s[4..], 4 * i);
        assert s[4..][4 * i..4 * i + 4] == s[4 * (i + 1)..4 * (i + 1) + 4];
      }
      LoadAll(s[4..], x[1..]);
    }
  }

  lemma Constants()
    ensures Serialise([0x6170_7865, 0x3320_646e, 0x7962_2d32, 0x6b20_6574]) == Ascii("expand 32-byte k")
  {
    hide Load32, LE;
    var s := Ascii("expand 32-byte k");
    assert s == [0x65, 0x78, 0x70, 0x61, 0x6e, 0x64, 0x20, 0x33, 0x32, 0x2d, 0x62, 0x79, 0x74, 0x65, 0x20, 0x6b];
    forall i | 0 <= i < 4 ensures [0x6170_7865, 0x3320_646e, 0x7962_2d32, 0x6b20_6574][i] == Load32(s, 4 * i) {
      Load32Value(s, 4 * i);
      LEFour(s[4 * i..4 * i + 4]);
    }
    LoadAll(s, [0x6170_7865, 0x3320_646e, 0x7962_2d32, 0x6b20_6574]);
  }

  /** `row` starts with `x`, and each state comes from the one before by a double round. */
  ghost predicate RoundRow(x: seq<nat>, row: seq<seq<nat>>) {
    && |row| > 0 && row[0] == x
    && (forall i | 0 <= i < |row| :: |row[i]| == 16)
    && (forall i | 0 < i < |row| :: row[i] == DoubleRound(row[i - 1]))
  }

  lemma {:induction false} RowTo(x: seq<nat>, n: nat) returns (row: seq<seq<nat>>)
    requires |x| == 16
    ensures RoundRow(x, row) && |row| == n + 1 && row[n] == DoubleRounds(x, n)
  {
    hide DoubleRound;
    if n == 0 {
      row := [x];
    } else {
      var before := RowTo(x, n - 1);
      row := before + [DoubleRound(before[n - 1])];
    }
  }

  /** Ten double rounds, and the words they started from are added to the result. */
  lemma TwentyRounds(x: seq<nat>) returns (row: seq<seq<nat>>)
    requires |x| == 16
    ensures RoundRow(x, row) && |row| == 11
    ensures KeyBlock(x) == Serialise(seq(16, i requires 0 <= i < 16 => (x[i] + row[10][i]) % 0x1_0000_0000))
  {
    hide DoubleRound, Serialise, DoubleRounds;
    row := RowTo(x, 10);
    assert AddWords(row[10], x) == seq(16, i requires 0 <= i < 16 => (x[i] + row[10][i]) % 0x1_0000_0000);
  }

  /** The initial state is the constant, the key, the block counter and the nonce, in the order of their bytes. */
  lemma InitialBytes(key: seq<Byte>, nonce: seq<Byte>, counter: nat)
    requires |key| == 32 && |nonce| == 12
    ensures Serialise(InitialState(key, nonce, counter)) == Ascii("expand 32-byte k") + key + ToLE(4, counter) + nonce
  {
    hide ToLE, Load32, InitialState, Ascii, Serialise;
    var x := InitialState(key, nonce, counter);
    InitialParts(key, nonce, counter);
    Constants();
    LoadAll(key, x[4..12]);
    SerialiseOne(counter);
    LoadAll(nonce, x[13..]);
    SerialiseJoin(x[..4], x[4..12]);
    SerialiseJoin(x[..12], [counter]);
    SerialiseJoin(x[..13], x[13..]);
    assert x[..4] + x[4..12] == x[..12] && x[..12] + [counter] == x[..13] && x[..13] + x[13..] == x;
  }

  lemma InitialParts(key: seq<Byte>, nonce: seq<Byte>, counter: nat)
    requires |key| == 32 && |nonce| == 12
    ensures var x := InitialState(key, nonce, counter);
      && x[..4] == [0x6170_7865, 0x3320_646e, 0x7962_2d32, 0x6b20_6574] && x[12] == counter
      && (forall i | 0 <= i < 8 :: x[4..12][i] == Load32(key, 4 * i))
      && (forall i | 0 <= i < 3 :: x[13..][i] == Load32(nonce, 4 * i))
  {
    hide Load32;
  }

  lemma SerialiseOne(w: nat)
    ensures Serialise([w]) == ToLE(4, w)
  {
    hide ToLE;
    assert [w][1..] == [];
  }
}
