/** The order of x modulo the generator, and with it the pairs of flipped bits the CRC detects. */
module CrcOrder {
  import opened Word
  import opened Gf2
  import opened Crc
  import opened CrcTheorems

  // ---------------------------------------------------------------------------
  // Powers of x as registers
  // ---------------------------------------------------------------------------

  const O := false
  const I := true

  /** The register that stands for the polynomial 1. */
  function Unit(): Reg {
    Zeros(15) + [true]
  }

  /** x^n modulo the generator. */
  function Power(n: nat): Reg {
    Shifts(Unit(), n)
  }

  /** The polynomial with the given coefficients, highest first, times w. */
  function Product(bits: seq<bool>, w: Reg): Reg {
    if |bits| == 0 then Zeros(16)
    else Xor(Shift(Product(bits[..|bits| - 1], w)), Times1(bits[|bits| - 1], w))
  }

  function Times1(b: bool, w: Reg): Reg {
    if b then w else Zeros(16)
  }

  lemma ShiftOfZeros()
    ensures Shift(Zeros(16)) == Zeros(16)
  {
    assert Zeros(16)[1..] + [false] == Zeros(16);
  }

  lemma Times1Laws(b: bool, v: Reg, w: Reg)
    ensures Times1(b, Shift(w)) == Shift(Times1(b, w))
    ensures Times1(b, Xor(v, w)) == Xor(Times1(b, v), Times1(b, w))
  {
    ShiftOfZeros();
    assert Xor(Zeros(16), Zeros(16)) == Zeros(16);
  }

  lemma {:induction false} ProductShift(bits: seq<bool>, w: Reg)
    ensures Product(bits, Shift(w)) == Shift(Product(bits, w))
  {
    ShiftOfZeros();
    if |bits| > 0 {
      var front, b := bits[..|bits| - 1], bits[|bits| - 1];
      ProductShift(front, w);
      Times1Laws(b, w, w);
      ShiftXor(Shift(Product(front, w)), Times1(b, w));
      hide Shift, Times1;
    }
  }

  lemma {:induction false} ProductShifts(bits: seq<bool>, w: Reg, n: nat)
    ensures Product(bits, Shifts(w, n)) == Shifts(Product(bits, w), n)
  {
    hide Product;
    if n > 0 {
      ProductShifts(bits, w, n - 1);
      ProductShift(bits, Shifts(w, n - 1));
    }
  }

  lemma {:induction false} ProductXor(bits: seq<bool>, v: Reg, w: Reg)
    ensures Product(bits, Xor(v, w)) == Xor(Product(bits, v), Product(bits, w))
  {
    assert Xor(Zeros(16), Zeros(16)) == Zeros(16);
    if |bits| > 0 {
      var front, b := bits[..|bits| - 1], bits[|bits| - 1];
      ProductXor(front, v, w);
      Times1Laws(b, v, w);
      ShiftXor(Product(front, v), Product(front, w));
      hide Shift, Times1;
      XorSwap(Shift(Product(front, v)), Shift(Product(front, w)), Times1(b, v), Times1(b, w));
    }
  }

  /** While the top bit is clear a shift only moves the bits. */
  lemma ShiftPadded(k: nat, bits: seq<bool>)
    requires k >= 1 && k + |bits| == 16
    ensures Shift(Zeros(k) + bits) == Zeros(k - 1) + (bits + [O])
  {
    var w: Reg := Zeros(k) + bits;
    assert !w[0];
    assert w[1..] + [false] == Zeros(k - 1) + (bits + [O]);
  }

  lemma LastBit(k: nat, bits: seq<bool>, b: bool)
    requires k + |bits| == 15
    ensures Xor(Zeros(k) + (bits + [O]), Times1(b, Unit())) == Zeros(k) + (bits + [b])
  {}

  /** Up to sixteen coefficients are their own remainder. */
  lemma {:induction false} ProductUnit(bits: seq<bool>)
    requires |bits| <= 16
    ensures Product(bits, Unit()) == Zeros(16 - |bits|) + bits
  {
    if |bits| > 0 {
      hide Shift, Times1;
      var n := |bits| - 1;
      ProductUnit(bits[..n]);
      ShiftPadded(16 - n, bits[..n]);
      LastBit(15 - n, bits[..n], bits[n]);
      assert bits == bits[..n] + [bits[n]];
      hide Xor, Zeros;
    } else {
      assert Zeros(16) + bits == Zeros(16);
    }
  }

  lemma PowerSum(m: nat, n: nat)
    ensures Power(m + n) == Product(Power(m), Power(n))
  {
    hide Product, Shifts;
    ShiftsSum(Unit(), m, n);
    ProductUnit(Power(m));
    assert Zeros(0) + Power(m) == Power(m);
    ProductShifts(Power(m), Unit(), n);
  }

  // ---------------------------------------------------------------------------
  // Squares
  // ---------------------------------------------------------------------------

  /** The square of a polynomial: the same coefficients at twice the exponents. */
  function Squared(bits: seq<bool>): Reg {
    if |bits| == 0 then Zeros(16)
    else Xor(Shift(Shift(Squared(bits[..|bits| - 1]))), Times1(bits[|bits| - 1], Unit()))
  }

  lemma {:induction false} SquareIsProduct(bits: seq<bool>)
    ensures Product(bits, Product(bits, Unit())) == Squared(bits)
  {
    if |bits| > 0 {
      var front, b := bits[..|bits| - 1], bits[|bits| - 1];
      var f := Product(front, Unit());
      SquareIsProduct(front);
      ProductXor(front, Shift(f), Times1(b, Unit()));
      ProductShift(front, f);
      ProductTimes1(front, b);
      hide Product, Squared;
      CrossTerms(Shift(Product(front, f)), f, b);
      hide Shift;
      assert Product(bits, Unit()) == Xor(Shift(f), Times1(b, Unit())) by { ProductSnoc(bits, Unit()); }
      ProductSnoc(bits, Product(bits, Unit()));
      SquaredSnoc(bits);
    }
  }

  lemma ProductSnoc(bits: seq<bool>, w: Reg)
    requires |bits| > 0
    ensures Product(bits, w) == Xor(Shift(Product(bits[..|bits| - 1], w)), Times1(bits[|bits| - 1], w))
  {}

  lemma SquaredSnoc(bits: seq<bool>)
    requires |bits| > 0
    ensures Squared(bits) == Xor(Shift(Shift(Squared(bits[..|bits| - 1]))), Times1(bits[|bits| - 1], Unit()))
  {}

  lemma ProductTimes1(bits: seq<bool>, b: bool)
    ensures Product(bits, Times1(b, Unit())) == Times1(b, Product(bits, Unit()))
  {
    if !b {
      ProductZeros(bits);
    }
  }

  lemma {:induction false} ProductZeros(bits: seq<bool>)
    ensures Product(bits, Zeros(16)) == Zeros(16)
  {
    ShiftOfZeros();
    assert Xor(Zeros(16), Zeros(16)) == Zeros(16);
    if |bits| > 0 {
      ProductZeros(bits[..|bits| - 1]);
    }
  }

  /** The two mixed terms of a square cancel. */
  lemma CrossTerms(p: Reg, f: Reg, b: bool)
    ensures Xor(Shift(Xor(p, Times1(b, f))), Times1(b, Xor(Shift(f), Times1(b, Unit()))))
      == Xor(Shift(p), Times1(b, Unit()))
  {
    ShiftXor(p, Times1(b, f));
    ShiftOfZeros();
    hide Shift;
    if b {
      Cancelled(Shift(p), Shift(f), Unit());
    } else {
      assert Xor(Shift(p), Zeros(16)) == Shift(p);
    }
  }

  lemma Cancelled(a: Reg, b: Reg, c: Reg)
    ensures Xor(Xor(a, b), Xor(b, c)) == Xor(a, c)
  {}

  /** Eight coefficients spread out to twice their exponents. */
  function Spread(y: seq<bool>): Reg
    requires |y| == 8
  {
    seq(16, i requires 0 <= i < 16 => i % 2 == 1 && y[i / 2])
  }

  function Interleaved(y: seq<bool>): (r: seq<bool>)
    ensures |r| == 2 * |y|
  {
    if |y| == 0 then [] else Interleaved(y[..|y| - 1]) + [O] + [y[|y| - 1]]
  }

  /** The square of a register in one formula. */
  function Square(w: Reg): Reg {
    Xor(Nibble(Nibble(Nibble(Nibble(Spread(w[..8]))))), Spread(w[8..]))
  }

  lemma TwoMore(w: Reg, n: nat)
    ensures Shifts(w, n + 2) == Shift(Shift(Shifts(w, n)))
  {
    assert Shifts(w, n + 2) == Shift(Shifts(w, n + 1));
  }

  lemma XorNothing(w: Reg)
    ensures Xor(w, Zeros(16)) == w
  {}

  lemma {:induction false} SquaredAppend(x: seq<bool>, y: seq<bool>)
    ensures Squared(x + y) == Xor(Shifts(Squared(x), 2 * |y|), Squared(y))
  {
    hide Shift, Shifts, Squared, Xor;
    if |y| == 0 {
      SquaredNothing(x, y);
    } else {
      SquaredAppend(x, y[..|y| - 1]);
      SquaredStep(x, y[..|y| - 1], y[|y| - 1]);
      assert y == y[..|y| - 1] + [y[|y| - 1]];
    }
  }

  lemma SquaredNothing(x: seq<bool>, y: seq<bool>)
    requires y == []
    ensures Squared(x + y) == Xor(Shifts(Squared(x), 2 * |y|), Squared(y))
  {
    assert x + y == x;
    XorNothing(Squared(x));
  }

  lemma SquaredStep(x: seq<bool>, front: seq<bool>, b: bool)
    requires Squared(x + front) == Xor(Shifts(Squared(x), 2 * |front|), Squared(front))
    ensures Squared(x + (front + [b])) == Xor(Shifts(Squared(x), 2 * |front + [b]|), Squared(front + [b]))
  {
    hide Shift, Shifts, Squared, Xor, Times1, Unit;
    var s, q, u := Shifts(Squared(x), 2 * |front|), Squared(front), Times1(b, Unit());
    ShiftXor(s, q);
    ShiftXor(Shift(s), Shift(q));
    TwoMore(Squared(x), 2 * |front|);
    var y, z := front + [b], x + (front + [b]);
    SquaredSnoc(y);
    SquaredSnoc(z);
    assert y[..|y| - 1] == front && z[..|z| - 1] == x + front && z[|z| - 1] == b;
    XorThree(Shift(Shift(s)), Shift(Shift(q)), u);
  }

  lemma XorThree(a: Reg, b: Reg, c: Reg)
    ensures Xor(Xor(a, b), c) == Xor(a, Xor(b, c))
  {}

  /** The exponents of eight spread coefficients stay below sixteen. */
  lemma {:induction false} SquaredSmall(y: seq<bool>)
    requires |y| <= 8
    ensures Squared(y) == Zeros(16 - 2 * |y|) + Interleaved(y)
  {
    if |y| > 0 {
      hide Squared, Zeros;
      SquaredSmall(y[..|y| - 1]);
      SmallStep(y, 16 - 2 * |y|);
    } else {
      assert Zeros(16) + Interleaved(y) == Zeros(16);
    }
  }

  lemma SmallStep(y: seq<bool>, k: nat)
    requires 0 < |y| <= 8 && k == 16 - 2 * |y|
    requires Squared(y[..|y| - 1]) == Zeros(k + 2) + Interleaved(y[..|y| - 1])
    ensures Squared(y) == Zeros(k) + Interleaved(y)
  {
    hide Shift, Times1, Xor, Zeros, Unit;
    var v, b := Interleaved(y[..|y| - 1]), y[|y| - 1];
    ShiftPadded(k + 2, v);
    ShiftPadded(k + 1, v + [O]);
    LastBit(k, v + [O], b);
    SquaredSnoc(y);
    hide Squared;
    assert Interleaved(y) == v + [O] + [b];
  }

  lemma {:induction false} InterleavedAt(y: seq<bool>, k: nat)
    requires k < |y|
    ensures Interleaved(y)[2 * k] == O && Interleaved(y)[2 * k + 1] == y[k]
  {
    if k < |y| - 1 {
      InterleavedAt(y[..|y| - 1], k);
    }
  }

  lemma SpreadIsInterleaved(y: seq<bool>)
    requires |y| == 8
    ensures Interleaved(y) == Spread(y)
  {
    hide Interleaved;
    var v, w := Interleaved(y), Spread(y);
    forall i | 0 <= i < 16 ensures v[i] == w[i] {
      InterleavedAt(y, i / 2);
    }
  }

  lemma SpreadIsSquared(y: seq<bool>)
    requires |y| == 8
    ensures Squared(y) == Spread(y)
  {
    hide Squared, Interleaved, Spread;
    SquaredSmall(y);
    SpreadIsInterleaved(y);
    assert Zeros(0) == [];
  }

  lemma SquareIsSquared(w: Reg)
    ensures Squared(w) == Square(w)
  {
    hide Squared, Spread, Nibble, Shifts, Shift;
    var x, y := w[..8], w[8..];
    assert w == x + y;
    SquaredAppend(x, y);
    SpreadIsSquared(x);
    SpreadIsSquared(y);
    ShiftsSum(Spread(x), 8, 8);
    ZeroByteShifts(Spread(x));
    ZeroByteShifts(Shifts(Spread(x), 8));
  }

  // ---------------------------------------------------------------------------
  // Registers as records, to calculate with
  // ---------------------------------------------------------------------------

  /** The sixteen bits of a register, highest first. */
  datatype Register = Register(
    b15: bool, b14: bool, b13: bool, b12: bool, b11: bool, b10: bool, b9: bool, b8: bool,
    b7: bool, b6: bool, b5: bool, b4: bool, b3: bool, b2: bool, b1: bool, b0: bool)

  function Of(w: Reg): Register {
    Register(w[0], w[1], w[2], w[3], w[4], w[5], w[6], w[7],
             w[8], w[9], w[10], w[11], w[12], w[13], w[14], w[15])
  }

  function NibbleOf(w: Register): Register {
    Register(w.b15 != w.b11, w.b14 != w.b10, w.b13 != w.b9, w.b12 != w.b8, w.b7, w.b6, w.b5, w.b15 != w.b4,
             w.b14 != w.b3, w.b13 != w.b2, w.b12 != w.b1, w.b0, w.b15, w.b14, w.b13, w.b12)
  }

  function FeedOf(w: Register): Register {
    Register(w.b14, w.b13, w.b12, w.b11 != w.b15, w.b10, w.b9, w.b8, w.b7,
             w.b6, w.b5, w.b4 != w.b15, w.b3, w.b2, w.b1, w.b0, w.b15)
  }

  function SpreadHigh(w: Register): Register {
    Register(O, w.b15, O, w.b14, O, w.b13, O, w.b12, O, w.b11, O, w.b10, O, w.b9, O, w.b8)
  }

  function SpreadLow(w: Register): Register {
    Register(O, w.b7, O, w.b6, O, w.b5, O, w.b4, O, w.b3, O, w.b2, O, w.b1, O, w.b0)
  }

  function XorOf(v: Register, w: Register): Register {
    Register(v.b15 != w.b15, v.b14 != w.b14, v.b13 != w.b13, v.b12 != w.b12, v.b11 != w.b11, v.b10 != w.b10,
             v.b9 != w.b9, v.b8 != w.b8, v.b7 != w.b7, v.b6 != w.b6, v.b5 != w.b5, v.b4 != w.b4,
             v.b3 != w.b3, v.b2 != w.b2, v.b1 != w.b1, v.b0 != w.b0)
  }

  /** The high half of a square, bit by bit. */
  function HighOf(w: Register): Register {
    Register(
      w.b13, (w.b13 != w.b11) != w.b9, w.b12, (w.b12 != w.b10) != w.b8, (w.b15 != w.b13) != w.b11,
      w.b15 != w.b13, (w.b14 != w.b12) != w.b10, (w.b15 != w.b14) != w.b12,
      ((w.b15 != w.b13) != w.b11) != w.b9, ((w.b15 != w.b14) != w.b13) != w.b11,
      ((w.b14 != w.b12) != w.b10) != w.b8, (w.b14 != w.b12) != w.b10, w.b15,
      ((w.b15 != w.b13) != w.b11) != w.b9, w.b14, ((w.b14 != w.b12) != w.b10) != w.b8)
  }

  function SquareOf(w: Register): Register {
    XorOf(HighOf(w), SpreadLow(w))
  }

  function MovedOf(w: Register): Register {
    Register(w.b14, w.b13, w.b12, w.b11, w.b10, w.b9, w.b8, w.b7, w.b6, w.b5, w.b4, w.b3, w.b2, w.b1, w.b0, O)
  }

  lemma OfMoved(w: Reg)
    ensures Of(w[1..] + [false]) == MovedOf(Of(w)) && Of(w).b15 == w[0]
  {}

  lemma OfTaps()
    ensures Of(Taps()) == Register(O, O, O, I, O, O, O, O, O, O, I, O, O, O, O, I)
  {}

  lemma FeedIsXor(w: Register)
    ensures FeedOf(w)
      == if w.b15 then XorOf(MovedOf(w), Register(O, O, O, I, O, O, O, O, O, O, I, O, O, O, O, I)) else MovedOf(w)
  {}

  lemma OfShift(w: Reg)
    ensures Of(Shift(w)) == FeedOf(Of(w))
  {
    hide Of, Taps, Xor, FeedOf, XorOf, MovedOf;
    var x := w[1..] + [false];
    OfMoved(w);
    FeedIsXor(Of(w));
    if w[0] {
      OfTaps();
      OfXor(x, Taps());
      assert Shift(w) == Xor(x, Taps());
    } else {
      assert Shift(w) == x;
    }
  }

  lemma OfXor(v: Reg, w: Reg)
    ensures Of(Xor(v, w)) == XorOf(Of(v), Of(w))
  {}

  lemma OfSpreads(w: Reg)
    ensures Of(Spread(w[..8])) == SpreadHigh(Of(w)) && Of(Spread(w[8..])) == SpreadLow(Of(w))
  {}

  lemma NibbleIsFeeds(w: Register)
    ensures NibbleOf(w) == FeedOf(FeedOf(FeedOf(FeedOf(w))))
  {}

  lemma OfFourShifts(w: Reg)
    ensures Of(Nibble(w)) == NibbleOf(Of(w))
  {
    hide Of, Shift, Shifts, FeedOf, Nibble, NibbleOf;
    NibbleIsShifts(w);
    TwoMore(w, 2);
    TwoMore(w, 0);
    NoShift(w);
    OfShift(w);
    OfShift(Shift(w));
    OfShift(Shift(Shift(w)));
    OfShift(Shift(Shift(Shift(w))));
    NibbleIsFeeds(Of(w));
  }

  lemma NoShift(w: Reg)
    ensures Shifts(w, 0) == w
  {}

  /** The spread high half times x^8 and times x^16, bit by bit. */
  lemma HighHalfMoved(w: Register)
    ensures NibbleOf(NibbleOf(SpreadHigh(w))) == Register(
        O, (w.b15 != w.b13) != w.b11, O, (w.b14 != w.b12) != w.b10, w.b15, w.b9, w.b14, w.b8,
        w.b15 != w.b13, w.b15, w.b14 != w.b12, w.b14, O, w.b15 != w.b13, O, w.b14 != w.b12)
  {}

  lemma HighOfSpread(w: Register)
    ensures HighOf(w) == NibbleOf(NibbleOf(NibbleOf(NibbleOf(SpreadHigh(w)))))
  {
    HighHalfMoved(w);
    hide SpreadHigh;
  }

  lemma OfSquare(w: Reg)
    ensures Of(Square(w)) == SquareOf(Of(w))
  {
    hide Nibble, Spread, Of, Xor, NibbleOf, SpreadHigh, SpreadLow, XorOf, HighOf;
    OfSpreads(w);
    HighOfSpread(Of(w));
    var a := Spread(w[..8]);
    OfFourShifts(a);
    OfFourShifts(Nibble(a));
    OfFourShifts(Nibble(Nibble(a)));
    OfFourShifts(Nibble(Nibble(Nibble(a))));
    OfXor(Nibble(Nibble(Nibble(Nibble(a)))), Spread(w[8..]));
  }

  /** From one power to twice its exponent, and one more. */
  lemma PowerDouble(n: nat, w: Register)
    requires Of(Power(n)) == w
    ensures Of(Power(2 * n)) == SquareOf(w) && Of(Power(2 * n + 1)) == FeedOf(SquareOf(w))
  {
    hide Product, Squared, Square, SquareOf, FeedOf, Of, Shift, Xor, Zeros, Power;
    PowerSum(n, n);
    assert Power(n + n) == Power(2 * n);
    PowerSquare(Power(n));
    OfSquare(Power(n));
    NextPower(2 * n);
    OfShift(Power(2 * n));
  }

  lemma PowerSquare(w: Reg)
    ensures Product(w, w) == Square(w)
  {
    hide Product, Squared, Square;
    ProductUnit(w);
    assert Zeros(0) + w == w;
    SquareIsProduct(w);
    SquareIsSquared(w);
  }

  lemma SmallPower(n: nat)
    requires n <= 15
    ensures Power(n) == Zeros(15 - n) + ([true] + Zeros(n))
  {
    if n > 0 {
      SmallPower(n - 1);
      ShiftPadded(16 - n, [true] + Zeros(n - 1));
      assert [true] + Zeros(n - 1) + [O] == [true] + Zeros(n);
    } else {
      assert [true] + Zeros(0) == [true];
    }
  }

  /** The powers the calculations start from. */
  lemma FirstPowers()
    ensures Of(Power(9)) == X9
    ensures Of(Power(13)) == X13
    ensures Of(Power(16)) == X16
  {
    hide Power, Shift, FeedOf;
    SmallPower(9);
    SmallPower(13);
    SmallPower(15);
    NextPower(15);
    OfShift(Power(15));
    TopPower();
  }

  lemma TopPower()
    ensures FeedOf(Of(Zeros(0) + ([true] + Zeros(15)))) == Register(O, O, O, I, O, O, O, O, O, O, I, O, O, O, O, I)
  {}

  lemma NextPower(n: nat)
    ensures Power(n + 1) == Shift(Power(n))
  {}

  // ---------------------------------------------------------------------------
  // The order, 32767 = 7 * 31 * 151
  // ---------------------------------------------------------------------------

  // The powers of x on the way, one squaring apart.
  const X9 := Register(O, O, O, O, O, O, I, O, O, O, O, O, O, O, O, O)
  const X13 := Register(O, O, I, O, O, O, O, O, O, O, O, O, O, O, O, O)
  const X16 := Register(O, O, O, I, O, O, O, O, O, O, I, O, O, O, O, I)
  const X18 := Register(O, I, O, O, O, O, O, O, I, O, O, O, O, I, O, O)
  const X27 := Register(I, O, O, O, I, O, O, I, I, O, I, O, I, O, O, I)
  const X32 := Register(O, O, I, I, O, I, I, I, O, O, I, I, O, O, O, O)
  const X33 := Register(O, I, I, O, I, I, I, O, O, I, I, O, O, O, O, O)
  const X36 := Register(O, I, O, O, O, O, I, I, O, I, I, O, O, O, I, I)
  const X54 := Register(O, O, O, I, O, O, O, I, O, I, I, O, I, O, O, O)
  const X64 := Register(I, O, I, I, I, O, O, O, O, I, I, O, O, O, O, I)
  const X66 := Register(I, I, O, O, O, O, O, I, I, I, O, O, O, I, I, O)
  const X73 := Register(I, O, O, O, I, I, I, I, I, O, I, O, O, I, I, O)
  const X108 := Register(O, O, I, I, O, I, I, I, O, I, O, I, O, O, O, O)
  const X128 := Register(I, O, I, O, I, I, I, O, I, I, I, I, I, I, O, O)
  const X132 := Register(O, I, O, O, I, I, I, O, I, O, O, O, I, O, I, O)
  const X146 := Register(O, I, O, O, O, O, I, I, I, O, O, O, I, O, O, O)
  const X217 := Register(O, I, O, O, I, O, O, O, I, I, I, O, O, O, I, I)
  const X256 := Register(I, O, O, O, I, I, I, O, O, O, I, O, I, O, O, I)
  const X264 := Register(O, I, O, I, I, O, O, I, O, I, O, O, O, I, I, O)
  const X292 := Register(O, O, O, I, O, O, I, I, I, O, O, I, O, I, I, O)
  const X512 := Register(O, O, O, I, O, O, I, I, I, I, I, I, I, I, O, O)
  const X528 := Register(O, I, I, I, I, O, O, O, I, O, I, I, O, O, I, I)
  const X585 := Register(O, I, O, O, O, I, O, I, O, O, O, O, O, O, O, O)
  const X1024 := Register(O, O, I, I, O, I, I, O, I, I, O, O, O, I, O, O)
  const X1057 := Register(I, I, I, I, O, O, I, O, I, O, I, O, I, I, I, I)
  const X1170 := Register(O, O, O, O, O, O, O, I, O, I, I, O, O, O, I, I)
  const X2048 := Register(I, I, I, I, I, I, O, I, O, I, O, I, O, O, O, O)
  const X2340 := Register(O, O, O, O, O, I, O, O, O, O, I, O, O, I, O, O)
  const X4096 := Register(I, O, I, O, I, O, I, O, I, O, O, I, I, I, I, O)
  const X4681 := Register(O, O, I, O, I, I, O, O, O, I, O, O, O, O, I, O)
  const X8192 := Register(I, O, O, O, I, O, O, O, O, O, O, I, I, I, O, O)
  const X16384 := Register(O, I, O, O, O, I, O, O, O, I, O, I, I, O, O, O)
  const X32768 := Register(O, O, O, O, O, O, O, O, O, O, O, O, O, O, I, O)

  lemma Squares1024()
    ensures SquareOf(X16) == X32
    ensures SquareOf(X32) == X64
    ensures SquareOf(X64) == X128
    ensures SquareOf(X128) == X256
    ensures SquareOf(X256) == X512
    ensures SquareOf(X512) == X1024
  {}

  lemma Squares32768()
    ensures SquareOf(X1024) == X2048
    ensures SquareOf(X2048) == X4096
    ensures SquareOf(X4096) == X8192
    ensures SquareOf(X8192) == X16384
    ensures SquareOf(X16384) == X32768
  {}

  lemma Squares4681()
    ensures SquareOf(X9) == X18
    ensures SquareOf(X18) == X36
    ensures FeedOf(SquareOf(X36)) == X73
    ensures SquareOf(X73) == X146
    ensures SquareOf(X146) == X292
    ensures FeedOf(SquareOf(X292)) == X585
    ensures SquareOf(X585) == X1170
    ensures SquareOf(X1170) == X2340
    ensures FeedOf(SquareOf(X2340)) == X4681
  {}

  lemma Squares1057()
    ensures FeedOf(SquareOf(X16)) == X33
    ensures SquareOf(X33) == X66
    ensures SquareOf(X66) == X132
    ensures SquareOf(X132) == X264
    ensures SquareOf(X264) == X528
    ensures FeedOf(SquareOf(X528)) == X1057
  {}

  lemma Squares217()
    ensures FeedOf(SquareOf(X13)) == X27
    ensures SquareOf(X27) == X54
    ensures SquareOf(X54) == X108
    ensures FeedOf(SquareOf(X108)) == X217
  {}

  lemma Reach1024()
    ensures Of(Power(1024)) == X1024
  {
    hide Power, Of, SquareOf, FeedOf;
    FirstPowers();
    Squares1024();
    PowerDouble(16, X16);
    PowerDouble(32, X32);
    PowerDouble(64, X64);
    PowerDouble(128, X128);
    PowerDouble(256, X256);
    PowerDouble(512, X512);
  }

  lemma Reach32768()
    ensures Of(Power(32768)) == X32768
  {
    hide Power, Of, SquareOf, FeedOf;
    Reach1024();
    Squares32768();
    PowerDouble(1024, X1024);
    PowerDouble(2048, X2048);
    PowerDouble(4096, X4096);
    PowerDouble(8192, X8192);
    PowerDouble(16384, X16384);
  }

  lemma Reach4681()
    ensures Of(Power(4681)) == X4681
  {
    hide Power, Of, SquareOf, FeedOf;
    FirstPowers();
    Squares4681();
    PowerDouble(9, X9);
    PowerDouble(18, X18);
    PowerDouble(36, X36);
    PowerDouble(73, X73);
    PowerDouble(146, X146);
    PowerDouble(292, X292);
    PowerDouble(585, X585);
    PowerDouble(1170, X1170);
    PowerDouble(2340, X2340);
  }

  lemma Reach1057()
    ensures Of(Power(1057)) == X1057
  {
    hide Power, Of, SquareOf, FeedOf;
    FirstPowers();
    Squares1057();
    PowerDouble(16, X16);
    PowerDouble(33, X33);
    PowerDouble(66, X66);
    PowerDouble(132, X132);
    PowerDouble(264, X264);
    PowerDouble(528, X528);
  }

  lemma Reach217()
    ensures Of(Power(217)) == X217
  {
    hide Power, Of, SquareOf, FeedOf;
    FirstPowers();
    Squares217();
    PowerDouble(13, X13);
    PowerDouble(27, X27);
    PowerDouble(54, X54);
    PowerDouble(108, X108);
  }

  function BitAt(w: Register, k: nat): bool
    requires k < 16
  {
    if k < 8 then
      if k < 4 then if k < 2 then if k == 0 then w.b15 else w.b14 else if k == 2 then w.b13 else w.b12
      else if k < 6 then if k == 4 then w.b11 else w.b10 else if k == 6 then w.b9 else w.b8
    else if k < 12 then if k < 10 then if k == 8 then w.b7 else w.b6 else if k == 10 then w.b5 else w.b4
    else if k < 14 then if k == 12 then w.b3 else w.b2 else if k == 14 then w.b1 else w.b0
  }

  lemma OfAt(w: Reg, k: nat)
    requires k < 16
    ensures w[k] == BitAt(Of(w), k)
  {}

  lemma SameRegister(v: Reg, w: Reg)
    requires Of(v) == Of(w)
    ensures v == w
  {
    hide Of, BitAt;
    forall k: nat | k < 16 ensures v[k] == w[k] {
      OfAt(v, k);
      OfAt(w, k);
    }
  }

  lemma FullTurn()
    ensures Power(32767) == Unit()
  {
    hide Power, Of, Shift, Unit;
    Reach32768();
    NextPower(32767);
    OfShift(Power(32767));
    OfUnit();
    SameRegister(Power(32767), Unit());
  }

  lemma OfUnit()
    ensures Of(Unit()) == Register(O, O, O, O, O, O, O, O, O, O, O, O, O, O, O, I)
  {}

  lemma NoPart()
    ensures Power(4681) != Unit() && Power(1057) != Unit() && Power(217) != Unit()
  {
    hide Power, Of, Unit;
    Reach4681();
    Reach1057();
    Reach217();
    OfUnit();
  }

  ghost predicate Back(n: nat) {
    Power(n) == Unit()
  }

  /** A way back can be left out. */
  lemma BackSkips(a: nat, n: nat)
    requires Back(a)
    ensures Back(a + n) <==> Back(n)
  {
    ShiftsSum(Unit(), a, n);
  }

  lemma {:induction false} BackMultiple(a: nat, k: nat)
    requires Back(a)
    ensures Back(k * a)
  {
    hide Back;
    if k > 0 {
      BackMultiple(a, k - 1);
      BackSkips(a, (k - 1) * a);
      assert k * a == a + (k - 1) * a;
    } else {
      BackNow();
    }
  }

  lemma BackNow()
    ensures Back(0)
  {}

  lemma BackRest(a: nat, k: nat, r: nat)
    requires Back(a) && Back(k * a + r)
    ensures Back(r)
  {
    BackMultiple(a, k);
    BackSkips(k * a, r);
  }

  predicate Prime(p: nat) {
    p > 1 && forall j | 1 < j < p :: p % j != 0
  }

  lemma Euclid(p: nat, m: nat, k: nat)
    requires 0 < k < p
    ensures m * p == (p / k) * (m * k) + m * (p % k)
  {
    var q, r := p / k, p % k;
    assert p == q * k + r;
    assert m * p == m * (q * k) + m * r;
    assert m * (q * k) == q * (m * k);
  }

  /** Euclid's algorithm on the exponents. */
  lemma {:induction false} Descend(p: nat, m: nat, k: nat)
    requires Prime(p) && 0 < k < p && Back(m * p) && Back(m * k)
    ensures Back(m)
    decreases k
  {
    hide Back;
    if k == 1 {
      assert m * 1 == m;
    } else {
      Euclid(p, m, k);
      BackRest(m * k, p / k, m * (p % k));
      Descend(p, m, p % k);
    }
  }

  lemma Spread3(p: nat, m: nat, r: nat)
    requires p > 0
    ensures m * r == (r / p) * (m * p) + m * (r % p)
  {
    var q, k := r / p, r % p;
    assert r == q * p + k;
    assert m * r == m * (q * p) + m * k;
    assert m * (q * p) == q * (m * p);
  }

  /** An exponent that a prime does not divide leads back already after the rest of the order. */
  lemma PartOf(p: nat, m: nat, r: nat)
    requires Prime(p) && Back(m * p) && Back(r) && r % p != 0
    ensures Back(m)
  {
    hide Back;
    BackMultiple(r, m);
    Spread3(p, m, r);
    BackRest(m * p, r / p, m * (r % p));
    Descend(p, m, r % p);
  }

  /** A composite number below 169 has a divisor of at most 12. */
  lemma SmallDivisor(p: nat, j: nat) returns (k: nat)
    requires 1 < j < p < 169 && p % j == 0
    ensures 2 <= k <= 12 && p % k == 0
  {
    var q := p / j;
    assert p == q * j;
    k := if j <= 12 then j else q;
    Factors(p, q, j);
  }

  lemma Factors(p: nat, q: nat, j: nat)
    requires p == q * j && 1 < j < p < 169
    ensures q >= 2 && p % q == 0 && (j > 12 ==> q <= 12)
  {
    assert q == 0 ==> p == 0;
    assert q == 1 ==> p == j;
    if j > 12 {
      Larger(q, j);
    }
    QuotientOf(p, q, j, 0);
  }

  lemma Larger(q: nat, j: nat)
    requires j > 12
    ensures q * j >= 13 * q
  {
    assert q * j == 13 * q + q * (j - 13);
  }

  lemma NoSmallDivisor(k: nat)
    requires 2 <= k <= 12
    ensures 31 % k != 0 && 151 % k != 0
  {
    match k
    case 2 => case 3 => case 4 => case 5 => case 6 => case 7 =>
    case 8 => case 9 => case 10 => case 11 => case 12 =>
    case _ =>
  }

  lemma Primes()
    ensures Prime(7) && Prime(31) && Prime(151)
  {
    forall j | 1 < j < 151 ensures 151 % j != 0 {
      if 151 % j == 0 {
        var k := SmallDivisor(151, j);
        NoSmallDivisor(k);
      }
    }
    forall j | 1 < j < 31 ensures 31 % j != 0 {
      if 31 % j == 0 {
        var k := SmallDivisor(31, j);
        NoSmallDivisor(k);
      }
    }
  }

  lemma Coprime(r: nat)
    requires r % 7 == 0 && r % 31 == 0 && r % 151 == 0
    ensures r % 32767 == 0
  {
    var a, b, c := r / 7, r / 31, r / 151;
    assert r == 7 * a && r == 31 * b && r == 151 * c;
    var d := 9 * b - 2 * a;
    assert r == 217 * d;
    Multiple(r, 135 * c - 194 * d);
  }

  lemma Multiple(r: nat, k: int)
    requires r == 32767 * k
    ensures r % 32767 == 0
  {}

  /** x^n is 1 modulo the generator exactly for the multiples of 32767. */
  lemma OrderOfX(n: nat)
    ensures Power(n) == Unit() <==> n % 32767 == 0
  {
    hide Power, Unit, Prime;
    FullTurn();
    assert Back(32767);
    var k, r := n / 32767, n % 32767;
    assert n == k * 32767 + r;
    BackMultiple(32767, k);
    BackSkips(k * 32767, r);
    if r == 0 {
      BackNow();
    } else if Back(n) {
      Primes();
      NoPart();
      if r % 7 != 0 {
        PartOf(7, 4681, r);
      } else if r % 31 != 0 {
        PartOf(31, 1057, r);
      } else if r % 151 != 0 {
        PartOf(151, 217, r);
      } else {
        Coprime(r);
      }
    }
  }

  // ---------------------------------------------------------------------------
  // Pairs of flipped bits
  // ---------------------------------------------------------------------------

  /** The two bit strings differ in exactly the two given positions. */
  ghost predicate DifferAt(x: seq<bool>, y: seq<bool>, i: nat, j: nat) {
    && |x| == |y| && i < j < |x|
    && forall k | 0 <= k < |x| :: x[k] != y[k] <==> k == i || k == j
  }

  function TwoOnes(before: nat, between: nat, after: nat): seq<bool> {
    Zeros(before) + [true] + Zeros(between) + [true] + Zeros(after)
  }

  lemma DifferenceShape(x: seq<bool>, y: seq<bool>, i: nat, j: nat)
    requires DifferAt(x, y, i, j)
    ensures i < j < |x| && Xor(x, y) == TwoOnes(i, j - i - 1, |x| - j - 1)
  {}

  lemma ShiftsSame(v: Reg, w: Reg, n: nat)
    ensures Shifts(v, n) == Shifts(w, n) <==> v == w
  {
    ShiftInZeros(v, n);
    ShiftInZeros(w, n);
    SameAfter(v, w, Zeros(n));
  }

  lemma XorEmpty(v: Reg, w: Reg)
    ensures Xor(v, w) == Zeros(16) <==> v == w
  {
    if Xor(v, w) == Zeros(16) {
      forall i | 0 <= i < 16 ensures v[i] == w[i] { assert !Xor(v, w)[i]; }
    }
  }

  /** One message bit into a register. */
  lemma OneIn(w: Reg)
    ensures ShiftIn(w, [true]) == Shift(Xor(w, Power(15)))
  {
    assert [true][..0] == [];
    SmallPower(15);
    hide Shift, Power;
    assert Pad([true]) == Zeros(0) + ([true] + Zeros(15));
  }

  lemma PowerAfter(m: nat, n: nat)
    ensures Shifts(Power(m), n) == Power(m + n)
  {
    ShiftsSum(Unit(), m, n);
  }

  /** Two ones leave nothing behind exactly when their distance is a way back to 1. */
  lemma TwoOnesVisible(before: nat, between: nat, after: nat)
    ensures ShiftIn(Zeros(16), TwoOnes(before, between, after)) == Zeros(16) <==> Power(between + 1) == Unit()
  {
    hide ShiftIn, Shift, Shifts, Power, Xor, Zeros, Unit;
    var empty: Reg := Zeros(16);
    var a, b := Zeros(before) + [true], Zeros(before) + [true] + Zeros(between);
    ShiftInAppend(empty, b + [true], Zeros(after));
    ShiftInAppend(empty, b, [true]);
    ShiftInAppend(empty, a, Zeros(between));
    ShiftInAppend(empty, Zeros(before), [true]);
    ShiftInZeros(empty, before);
    ShiftsZero(before);
    OneIn(empty);
    XorZeros(Power(15));
    NextPower(15);
    ShiftInZeros(Power(16), between);
    PowerAfter(16, between);
    OneIn(Power(16 + between));
    SecondOne(between);
    var w := Shift(Xor(Power(16 + between), Power(15)));
    ShiftInZeros(w, after);
    ShiftsZero(after);
    ShiftsSame(w, empty, after);
  }

  lemma SamePower(m: nat, n: nat)
    ensures Power(m + n) == Power(n) <==> Power(m) == Unit()
  {
    hide Shifts, Power, Unit;
    PowerAfter(m, n);
    PowerAfter(0, n);
    FirstPower();
    ShiftsSame(Power(m), Unit(), n);
  }

  lemma SecondOne(between: nat)
    ensures Shift(Xor(Power(16 + between), Power(15))) == Zeros(16) <==> Power(between + 1) == Unit()
  {
    hide Shift, Shifts, Power, Xor, Zeros, Unit;
    var v := Xor(Power(16 + between), Power(15));
    ShiftOfZeros();
    if Shift(v) == Zeros(16) {
      ShiftInjective(v);
    }
    XorEmpty(Power(16 + between), Power(15));
    SamePower(between + 1, 15);
  }

  lemma FirstPower()
    ensures Power(0) == Unit()
  {}

  /** Two flipped bits keep the CRC exactly when their distance is a multiple of 32767. */
  lemma TwoFlips(x: seq<u8>, y: seq<u8>, i: nat, j: nat)
    requires |x| == |y| && DifferAt(BitsOf(x), BitsOf(y), i, j)
    ensures Crc16(x) == Crc16(y) <==> (j - i) % 32767 == 0
  {
    hide ShiftIn, Power, Crc16, BitsOf, TwoOnes, DifferAt, Xor, Zeros, Unit;
    SameCrc(x, y);
    DifferenceShape(BitsOf(x), BitsOf(y), i, j);
    TwoOnesVisible(i, j - i - 1, |BitsOf(x)| - j - 1);
    OrderOfX(j - i);
  }

  // ---------------------------------------------------------------------------
  // One flipped bit of the data, one of its CRC
  // ---------------------------------------------------------------------------

  /** The two bit strings differ in exactly the given position. */
  ghost predicate FlipAt(x: seq<bool>, y: seq<bool>, i: nat) {
    |x| == |y| && i < |x| && forall k | 0 <= k < |x| :: x[k] != y[k] <==> k == i
  }

  lemma FlipShape(x: seq<bool>, y: seq<bool>, i: nat)
    requires FlipAt(x, y, i)
    ensures i < |x| == |y| && Xor(x, y) == Zeros(i) + [true] + Zeros(|x| - i - 1)
  {}

  /** A single one leaves a power of x behind. */
  lemma OneLeaves(before: nat, after: nat)
    ensures ShiftIn(Zeros(16), Zeros(before) + [true] + Zeros(after)) == Power(16 + after)
  {
    hide ShiftIn, Shift, Shifts, Power, Xor, Zeros;
    var empty: Reg := Zeros(16);
    ShiftInAppend(empty, Zeros(before) + [true], Zeros(after));
    ShiftInAppend(empty, Zeros(before), [true]);
    ShiftInZeros(empty, before);
    ShiftsZero(before);
    OneIn(empty);
    XorZeros(Power(15));
    NextPower(15);
    ShiftInZeros(Power(16), after);
    PowerAfter(16, after);
  }

  lemma CrcDifference(x: seq<u8>, y: seq<u8>)
    requires |x| == |y|
    ensures Xor(Bits(Crc16(x), 16), Bits(Crc16(y), 16)) == ShiftIn(Zeros(16), Xor(BitsOf(x), BitsOf(y)))
  {
    hide ShiftIn, Crc16, Bits, BitsOf;
    Crc16IsShiftIn(x);
    Crc16IsShiftIn(y);
    ShiftInXor(InitBits(), InitBits(), BitsOf(x), BitsOf(y));
    assert Xor(InitBits(), InitBits()) == Zeros(16);
  }

  lemma SameDifference(a: Reg, b: Reg, c: Reg)
    ensures Xor(a, b) == Xor(a, c) <==> b == c
  {
    if Xor(a, b) == Xor(a, c) {
      forall i | 0 <= i < 16 ensures b[i] == c[i] { assert Xor(a, b)[i] == Xor(a, c)[i]; }
    }
  }

  /** One flipped bit of the data and one of its CRC go together exactly when their distance,
      with the CRC behind the data, is a multiple of 32767. */
  lemma SplitFlips(x: seq<u8>, y: seq<u8>, crc: u16, i: nat, k: nat)
    requires FlipAt(BitsOf(x), BitsOf(y), i) && FlipAt(Bits(Crc16(x), 16), Bits(crc, 16), k)
    ensures Crc16(y) == crc <==> (8 * |x| - i + k) % 32767 == 0
  {
    hide ShiftIn, Power, Crc16, Bits, BitsOf, Xor, Zeros, Unit, FlipAt;
    var after := 8 * |x| - i - 1;
    FlipShape(BitsOf(x), BitsOf(y), i);
    FlipShape(Bits(Crc16(x), 16), Bits(crc, 16), k);
    CrcDifference(x, y);
    OneLeaves(i, after);
    SmallPower(15 - k);
    assert Zeros(k) + [true] + Zeros(15 - k) == Zeros(k) + ([true] + Zeros(15 - k));
    SameDifference(Bits(Crc16(x), 16), Bits(Crc16(y), 16), Bits(crc, 16));
    if Bits(Crc16(y), 16) == Bits(crc, 16) {
      SameWord(Crc16(y), crc);
    }
    SamePower(after + 1 + k, 15 - k);
    OrderOfX(after + 1 + k);
  }

  // ---------------------------------------------------------------------------
  // Up to three flipped bits
  // ---------------------------------------------------------------------------

  lemma {:induction false} NoOnes(bits: seq<bool>, k: nat)
    requires Ones(bits) == 0 && k < |bits|
    ensures !bits[k]
  {
    if k < |bits| - 1 {
      NoOnes(bits[..|bits| - 1], k);
    }
  }

  lemma {:induction false} TheOne(bits: seq<bool>) returns (i: nat)
    requires Ones(bits) == 1
    ensures i < |bits| && forall k | 0 <= k < |bits| :: bits[k] <==> k == i
  {
    var front := bits[..|bits| - 1];
    if bits[|bits| - 1] {
      i := |bits| - 1;
      forall k | 0 <= k < |front| ensures !bits[k] { NoOnes(front, k); }
    } else {
      i := TheOne(front);
    }
  }

  lemma {:induction false} TheTwo(bits: seq<bool>) returns (i: nat, j: nat)
    requires Ones(bits) == 2
    ensures i < j < |bits| && forall k | 0 <= k < |bits| :: bits[k] <==> k == i || k == j
  {
    var front := bits[..|bits| - 1];
    if bits[|bits| - 1] {
      i := TheOne(front);
      j := |bits| - 1;
    } else {
      i, j := TheTwo(front);
    }
  }

  lemma OddFlipsChangeCrc(x: seq<u8>, y: seq<u8>)
    requires |x| == |y| && OddOnes(Xor(BitsOf(x), BitsOf(y)))
    ensures Crc16(x) != Crc16(y)
  {
    hide Crc16, BitsOf, Ones;
    OddXor(BitsOf(x), BitsOf(y));
    CrcParity(x);
    CrcParity(y);
  }

  /** One, two or three flipped bits always change the CRC of up to 32767 bits. */
  lemma FewFlipsChangeCrc(x: seq<u8>, y: seq<u8>)
    requires |x| == |y| && 8 * |x| <= 32767 && 1 <= Ones(Xor(BitsOf(x), BitsOf(y))) <= 3
    ensures Crc16(x) != Crc16(y)
  {
    hide Crc16, BitsOf, Ones;
    var e := Xor(BitsOf(x), BitsOf(y));
    if Ones(e) == 2 {
      var i, j := TheTwo(e);
      assert forall k | 0 <= k < |e| :: e[k] <==> BitsOf(x)[k] != BitsOf(y)[k];
      TwoFlips(x, y, i, j);
    } else {
      OddFlipsChangeCrc(x, y);
    }
  }
}
