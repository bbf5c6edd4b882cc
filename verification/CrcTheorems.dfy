/** What the checksum of the end-to-end protection layer guarantees. */
module CrcTheorems {
  import opened Word
  import opened Gf2
  import opened Crc

  /** The generator x^16 + x^12 + x^5 + 1. */
  const GENERATOR: Poly := {16, 12, 5, 0}

  // ---------------------------------------------------------------------------
  // The CRC is the remainder of a polynomial division
  // ---------------------------------------------------------------------------

  /** The message times x^16 with the initial register folded into its leading coefficients. */
  function Dividend(m: seq<bool>): Poly {
    Add(MulXn(PolyOf(m), 16), MulXn(PolyOf(InitBits()), |m|))
  }

  /** A sixteen-bit word is the CRC of the data exactly when it is the remainder. */
  lemma CrcIsRemainder(data: seq<u8>, r: u16)
    ensures Crc16(data) == r <==> IsRemainder(Dividend(BitsOf(data)), GENERATOR, 16, PolyOf(Bits(r, 16)))
  {
    var m := BitsOf(data);
    var w := ShiftIn(InitBits(), m);
    Crc16IsShiftIn(data);
    RegisterIsRemainder(InitBits(), m);
    if IsRemainder(Dividend(m), GENERATOR, 16, PolyOf(Bits(r, 16))) {
      RemainderUnique(Dividend(m), GENERATOR, 16, PolyOf(w), PolyOf(Bits(r, 16)));
      PolyOfInjective(w, Bits(r, 16));
      SameWord(Crc16(data), r);
    }
  }

  lemma SameWord(x: u16, y: u16)
    requires Bits(x, 16) == Bits(y, 16)
    ensures x == y
  {
    Pow2Values();
    BitsInjective(x, y, 16);
  }

  lemma RegisterIsRemainder(w: Reg, m: seq<bool>)
    ensures IsRemainder(Add(MulXn(PolyOf(m), 16), MulXn(PolyOf(w), |m|)), GENERATOR, 16, PolyOf(ShiftIn(w, m)))
  {
    var q := Divide(w, m);
  }

  /** Each register step is one step of long division; q collects the quotient. */
  lemma {:induction false} Divide(w: Reg, m: seq<bool>) returns (q: seq<bool>)
    ensures Add(MulXn(PolyOf(m), 16), MulXn(PolyOf(w), |m|)) == Add(Times(q, GENERATOR), PolyOf(ShiftIn(w, m)))
  {
    if |m| == 0 {
      q := [];
      MulXnZero(16);
      assert PolyOf(m) == {};
      assert Add({}, PolyOf(w)) == PolyOf(w);
    } else {
      var front, b := m[..|m| - 1], m[|m| - 1];
      var p := Divide(w, front);
      var r := ShiftIn(w, front);
      q := p + [r[0] != b];
      assert front + [b] == m;
      DividendSnoc(w, front, b);
      DivideStep(Add(MulXn(PolyOf(front), 16), MulXn(PolyOf(w), |front|)), Times(p, GENERATOR), r, b);
      TimesSnoc(p, r[0] != b);
    }
  }

  lemma TimesSnoc(q: seq<bool>, b: bool)
    ensures Times(q + [b], GENERATOR) == Add(MulX(Times(q, GENERATOR)), Scale(b, GENERATOR))
  {
    assert (q + [b])[..|q|] == q;
  }

  lemma DivideStep(d: Poly, product: Poly, r: Reg, b: bool)
    requires d == Add(product, PolyOf(r))
    ensures Add(MulX(d), Scale(b, {16}))
         == Add(Add(MulX(product), Scale(r[0] != b, GENERATOR)), PolyOf(Shift(Xor(r, Pad([b])))))
  {
    MulXAdd(product, PolyOf(r));
    FeedPoly(r, b);
    Cancel(MulX(product), MulX(PolyOf(r)), Scale(b, {16}), Scale(r[0] != b, GENERATOR));
  }

  lemma Cancel(a: Poly, b: Poly, f: Poly, g: Poly)
    ensures Add(Add(a, b), f) == Add(Add(a, g), Add(Add(b, f), g))
  {}

  lemma {:induction false} MulXnZero(n: nat)
    ensures MulXn({}, n) == {}
  {
    if n > 0 {
      MulXnZero(n - 1);
      assert MulX({}) == {};
    }
  }

  lemma {:induction false} MulXnOfX(p: Poly, n: nat)
    ensures MulXn(MulX(p), n) == MulX(MulXn(p, n))
  {
    if n > 0 {
      MulXnOfX(p, n - 1);
    }
  }

  lemma {:induction false} MulXnOne(n: nat)
    ensures MulXn({0}, n) == {n}
  {
    if n > 0 {
      MulXnOne(n - 1);
      assert MulX({n - 1}) == {n};
    }
  }

  lemma DividendSnoc(w: Reg, m: seq<bool>, b: bool)
    ensures Add(MulXn(PolyOf(m + [b]), 16), MulXn(PolyOf(w), |m| + 1))
         == Add(MulX(Add(MulXn(PolyOf(m), 16), MulXn(PolyOf(w), |m|))), Scale(b, {16}))
  {
    PolyOfSnoc(m, b);
    MulXnAdd(MulX(PolyOf(m)), Scale(b, {0}), 16);
    MulXnOfX(PolyOf(m), 16);
    MulXnZero(16);
    MulXnOne(16);
    var x, y := MulXn(PolyOf(m), 16), MulXn(PolyOf(w), |m|);
    assert MulXn(Scale(b, {0}), 16) == Scale(b, {16});
    MulXAdd(x, y);
    assert Add(Add(MulX(x), Scale(b, {16})), MulX(y)) == Add(Add(MulX(x), MulX(y)), Scale(b, {16}));
  }

  lemma PolyOfXor(x: seq<bool>, y: seq<bool>)
    requires |x| == |y|
    ensures PolyOf(Xor(x, y)) == Add(PolyOf(x), PolyOf(y))
  {
    forall e: nat ensures e in PolyOf(Xor(x, y)) <==> e in Add(PolyOf(x), PolyOf(y)) {
      assert Coefficient(Xor(x, y), e) <==> Coefficient(x, e) != Coefficient(y, e);
    }
  }

  lemma PolyOfInjective(x: seq<bool>, y: seq<bool>)
    requires |x| == |y| && PolyOf(x) == PolyOf(y)
    ensures x == y
  {
    forall i | 0 <= i < |x| ensures x[i] == y[i] {
      var e := |x| - 1 - i;
      assert e in PolyOf(x) <==> e in PolyOf(y);
      assert Coefficient(x, e) == x[i] && Coefficient(y, e) == y[i];
    }
  }

  lemma PolyOfTaps()
    ensures PolyOf(Taps()) == {12, 5, 0}
  {
    forall e: nat ensures e in PolyOf(Taps()) <==> e in {12, 5, 0} {
      if e < 16 { assert Coefficient(Taps(), e) == Taps()[15 - e]; }
    }
  }

  lemma PolyOfCons(b: bool, x: seq<bool>)
    ensures PolyOf([b] + x) == Add(Scale(b, {|x|}), PolyOf(x))
  {
    var y := [b] + x;
    forall e: nat ensures e in PolyOf(y) <==> e in Add(Scale(b, {|x|}), PolyOf(x)) {
      assert Coefficient(y, e) <==> Coefficient(x, e) || (b && e == |x|);
    }
  }

  /** One register step: times x, plus the message bit, reduced by the generator when x^16 appears. */
  lemma FeedPoly(w: Reg, b: bool)
    ensures PolyOf(Shift(Xor(w, Pad([b]))))
         == Add(Add(MulX(PolyOf(w)), Scale(b, {16})), Scale(w[0] != b, GENERATOR))
  {
    var v, rest := Xor(w, Pad([b])), w[1..];
    assert v == [w[0] != b] + rest && w == [w[0]] + rest;
    var m := MulX(PolyOf(rest));
    assert MulX(PolyOf(w)) == Add(Scale(w[0], {16}), m) by {
      PolyOfCons(w[0], rest);
      MulXAdd(Scale(w[0], {15}), PolyOf(rest));
      assert MulX(Scale(w[0], {15})) == Scale(w[0], {16});
    }
    assert PolyOf(Shift(v)) == Add(m, Scale(v[0], {12, 5, 0})) by {
      PolyOfSnoc(rest, false);
      PolyOfXor(rest + [false], Taps());
      PolyOfTaps();
      assert Add(m, {}) == m;
    }
    Reduce(m, w[0], b);
  }

  lemma Reduce(m: Poly, top: bool, b: bool)
    ensures Add(m, Scale(top != b, {12, 5, 0}))
         == Add(Add(Add(Scale(top, {16}), m), Scale(b, {16})), Scale(top != b, GENERATOR))
  {}

  // ---------------------------------------------------------------------------
  // Which alterations change the CRC
  // ---------------------------------------------------------------------------

  /** Two messages of one length have different registers exactly when the difference
      alone, shifted into an empty register, leaves something. */
  lemma DifferenceDecides(w: Reg, x: seq<bool>, y: seq<bool>)
    requires |x| == |y|
    ensures ShiftIn(w, x) == ShiftIn(w, y) <==> ShiftIn(Zeros(16), Xor(x, y)) == Zeros(16)
  {
    ShiftInXor(w, w, x, y);
    assert Xor(w, w) == Zeros(16);
    var a, b := ShiftIn(w, x), ShiftIn(w, y);
    assert Xor(a, b) == Zeros(16) <==> a == b by {
      if Xor(a, b) == Zeros(16) {
        forall i | 0 <= i < 16 ensures a[i] == b[i] { assert !Xor(a, b)[i]; }
      }
    }
  }

  /** An alteration goes unnoticed exactly when the generator divides its polynomial times x^16. */
  lemma UndetectedErrors(x: seq<u8>, y: seq<u8>)
    requires |x| == |y|
    ensures Crc16(x) == Crc16(y)
       <==> IsRemainder(MulXn(PolyOf(Xor(BitsOf(x), BitsOf(y))), 16), GENERATOR, 16, {})
  {
    var e := Xor(BitsOf(x), BitsOf(y));
    SameCrc(x, y);
    PolyOfZeros(16);
    MulXnZero(|e|);
    var p, r := MulXn(PolyOf(e), 16), ShiftIn(Zeros(16), e);
    assert Add(p, {}) == p;
    RegisterIsRemainder(Zeros(16), e);
    if IsRemainder(p, GENERATOR, 16, {}) {
      RemainderUnique(p, GENERATOR, 16, PolyOf(r), {});
      PolyOfInjective(r, Zeros(16));
    }
  }

  lemma SameCrc(x: seq<u8>, y: seq<u8>)
    requires |x| == |y|
    ensures Crc16(x) == Crc16(y) <==> ShiftIn(Zeros(16), Xor(BitsOf(x), BitsOf(y))) == Zeros(16)
  {
    Crc16IsShiftIn(x);
    Crc16IsShiftIn(y);
    DifferenceDecides(InitBits(), BitsOf(x), BitsOf(y));
    if Bits(Crc16(x), 16) == Bits(Crc16(y), 16) {
      SameWord(Crc16(x), Crc16(y));
    }
  }

  lemma PolyOfZeros(n: nat)
    ensures PolyOf(Zeros(n)) == {}
  {}

  lemma ShiftInjective(w: Reg)
    requires Shift(w) == Zeros(16)
    ensures w == Zeros(16)
  {
    var s := w[1..] + [false];
    assert Shift(w)[15] == w[0];
    assert s == Zeros(16);
    forall i | 1 <= i < 16 ensures !w[i] { assert !s[i - 1]; }
  }

  lemma {:induction false} ShiftsInjective(w: Reg, n: nat)
    requires Shifts(w, n) == Zeros(16)
    ensures w == Zeros(16)
  {
    if n > 0 {
      ShiftInjective(Shifts(w, n - 1));
      ShiftsInjective(w, n - 1);
    }
  }

  lemma {:induction false} ShiftInZeros(w: Reg, n: nat)
    ensures ShiftIn(w, Zeros(n)) == Shifts(w, n)
  {
    if n > 0 {
      assert Zeros(n)[..n - 1] == Zeros(n - 1);
      ShiftInZeros(w, n - 1);
      var v := ShiftIn(w, Zeros(n - 1));
      assert Xor(v, Pad([false])) == v;
    }
  }

  lemma {:induction false} ShiftsZero(n: nat)
    ensures Shifts(Zeros(16), n) == Zeros(16)
  {
    if n > 0 {
      ShiftsZero(n - 1);
      assert Zeros(16)[1..] + [false] == Zeros(16);
    }
  }

  /** The two bit strings differ, and only inside sixteen consecutive positions. */
  ghost predicate BurstAt(x: seq<bool>, y: seq<bool>, start: nat) {
    && |x| == |y|
    && x != y
    && forall i | 0 <= i < |x| && x[i] != y[i] :: start <= i < start + 16
  }

  /** Every burst of at most sixteen bits changes the CRC, whatever the length of the data. */
  lemma BurstChangesCrc(x: seq<u8>, y: seq<u8>, start: nat)
    requires |x| == |y| && BurstAt(BitsOf(x), BitsOf(y), start)
    ensures Crc16(x) != Crc16(y)
  {
    var before, burst, after, i := BurstShape(BitsOf(x), BitsOf(y), start);
    BurstLeavesTrace(before, burst, after, i);
    SameCrc(x, y);
  }

  lemma BurstShape(x: seq<bool>, y: seq<bool>, start: nat)
    returns (before: nat, burst: seq<bool>, after: nat, i: nat)
    requires BurstAt(x, y, start)
    ensures |burst| <= 16 && i < |burst| && burst[i]
    ensures Xor(x, y) == Zeros(before) + burst + Zeros(after)
  {
    var e := Xor(x, y);
    var k :| 0 <= k < |x| && x[k] != y[k];
    var stop := if start + 16 <= |e| then start + 16 else |e|;
    before, burst, after, i := start, e[start..stop], |e| - stop, k - start;
  }

  lemma BurstLeavesTrace(before: nat, burst: seq<bool>, after: nat, i: nat)
    requires |burst| <= 16 && i < |burst| && burst[i]
    ensures ShiftIn(Zeros(16), Zeros(before) + burst + Zeros(after)) != Zeros(16)
  {
    var empty: Reg, w := Zeros(16), ShiftIn(Zeros(16), burst);
    assert ShiftIn(empty, Zeros(before)) == empty by {
      ShiftInZeros(empty, before);
      ShiftsZero(before);
    }
    ShiftInAppend(empty, Zeros(before) + burst, Zeros(after));
    ShiftInAppend(empty, Zeros(before), burst);
    ShiftInZeros(w, after);
    if Shifts(w, after) == empty {
      ShiftsInjective(w, after);
      ShortBurstVisible(burst, i);
    }
  }

  lemma ShortBurstVisible(burst: seq<bool>, i: nat)
    requires |burst| <= 16 && i < |burst| && burst[i]
    ensures ShiftIn(Zeros(16), burst) != Zeros(16)
  {
    ShiftInIsShifts(Zeros(16), burst);
    PadVisible(burst, i);
    XorZeros(Pad(burst));
    if ShiftIn(Zeros(16), burst) == Zeros(16) {
      ShiftsInjective(Pad(burst), |burst|);
    }
  }

  lemma PadVisible(burst: seq<bool>, i: nat)
    requires |burst| <= 16 && i < |burst| && burst[i]
    ensures Pad(burst) != Zeros(16)
  {
    assert Pad(burst)[i] != Zeros(16)[i];
  }

  lemma XorZeros(w: Reg)
    ensures Xor(Zeros(16), w) == w
  {}

  // ---------------------------------------------------------------------------
  // Parity
  // ---------------------------------------------------------------------------

  /** The number of one bits. */
  function Ones(bits: seq<bool>): nat {
    if |bits| == 0 then 0 else Ones(bits[..|bits| - 1]) + if bits[|bits| - 1] then 1 else 0
  }

  predicate OddOnes(bits: seq<bool>) {
    Ones(bits) % 2 == 1
  }

  lemma {:induction false} OnesAppend(x: seq<bool>, y: seq<bool>)
    ensures Ones(x + y) == Ones(x) + Ones(y)
  {
    if |y| == 0 {
      assert x + y == x;
    } else {
      assert (x + y)[..|x + y| - 1] == x + y[..|y| - 1];
      OnesAppend(x, y[..|y| - 1]);
    }
  }

  lemma {:induction false} OddXor(x: seq<bool>, y: seq<bool>)
    requires |x| == |y|
    ensures OddOnes(Xor(x, y)) <==> OddOnes(x) != OddOnes(y)
  {
    if |x| > 0 {
      var n := |x| - 1;
      assert Xor(x, y)[..n] == Xor(x[..n], y[..n]);
      OddXor(x[..n], y[..n]);
    }
  }

  lemma OnesOfTaps()
    ensures Ones(Taps()) == 3
  {
    var t := Taps();
    for k := 0 to 16
      invariant Ones(t[..k]) == if k <= 3 then 0 else if k <= 10 then 1 else if k <= 15 then 2 else 3
    {
      assert t[..k + 1][..k] == t[..k];
    }
    assert t[..16] == t;
  }

  lemma ShiftKeepsParity(w: Reg)
    ensures OddOnes(Shift(w)) == OddOnes(w)
  {
    var s := w[1..] + [false];
    assert w == [w[0]] + w[1..];
    OnesAppend([w[0]], w[1..]);
    OnesAppend(w[1..], [false]);
    assert Ones([w[0]]) == if w[0] then 1 else 0;
    OddXor(s, Taps());
    OnesOfTaps();
  }

  lemma {:induction false} OnesOfZeros(n: nat)
    ensures Ones(Zeros(n)) == 0
  {
    if n > 0 {
      assert Zeros(n)[..n - 1] == Zeros(n - 1);
      OnesOfZeros(n - 1);
    }
  }

  lemma {:induction false} ShiftInParity(w: Reg, m: seq<bool>)
    ensures OddOnes(ShiftIn(w, m)) <==> OddOnes(w) != OddOnes(m)
  {
    if |m| > 0 {
      var n := |m| - 1;
      ShiftInParity(w, m[..n]);
      var r, p := ShiftIn(w, m[..n]), Pad([m[n]]);
      hide Shift, Xor, Pad;
      OddXor(r, p);
      OddPad(m[n]);
      ShiftKeepsParity(Xor(r, p));
    }
  }

  lemma OddPad(b: bool)
    ensures OddOnes(Pad([b])) == b
  {
    OnesAppend([b], Zeros(15));
    OnesOfZeros(15);
    assert Ones([b]) == if b then 1 else 0;
  }

  lemma {:induction false} OnesOfAllOnes(n: nat)
    ensures Ones(seq(n, _ => true)) == n
  {
    if n > 0 {
      OnesOfAllOnes(n - 1);
      assert seq(n, _ => true)[..n - 1] == seq(n - 1, _ => true);
    }
  }

  /** The CRC has an even number of ones together with the data it covers. */
  lemma CrcParity(data: seq<u8>)
    ensures OddOnes(Bits(Crc16(data), 16)) == OddOnes(BitsOf(data))
  {
    hide Crc16, ShiftIn, BitsOf, Bits;
    Crc16IsShiftIn(data);
    ShiftInParity(InitBits(), BitsOf(data));
    OnesOfAllOnes(16);
  }

  // ---------------------------------------------------------------------------
  // What two zero bytes inside the data change
  // ---------------------------------------------------------------------------

  /** Four zero bits, as one formula in the bits of the register. */
  function Nibble(w: Reg): Reg {
    [w[0] != w[4], w[1] != w[5], w[2] != w[6], w[3] != w[7], w[8], w[9], w[10], w[0] != w[11],
     w[1] != w[12], w[2] != w[13], w[3] != w[14], w[15], w[0], w[1], w[2], w[3]]
  }

  /** One zero bit, in the same way. */
  function Feed(w: Reg): Reg {
    [w[1], w[2], w[3], w[4] != w[0], w[5], w[6], w[7], w[8],
     w[9], w[10], w[11] != w[0], w[12], w[13], w[14], w[15], w[0]]
  }

  lemma ShiftIsFeed(w: Reg)
    ensures Shift(w) == Feed(w)
  {
    var x := w[1..] + [false];
    assert w[0] ==> Shift(w) == Xor(x, Taps());
    hide Shift;
  }

  lemma FourFeeds(w: Reg)
    ensures Nibble(w) == Feed(Feed(Feed(Feed(w))))
  {}

  lemma NibbleIsShifts(w: Reg)
    ensures Nibble(w) == Shifts(w, 4)
  {
    hide Shift, Feed, Nibble;
    assert Shifts(w, 4) == Shift(Shifts(w, 3)) && Shifts(w, 3) == Shift(Shifts(w, 2));
    assert Shifts(w, 2) == Shift(Shifts(w, 1)) && Shifts(w, 1) == Shift(w);
    hide Shifts;
    ShiftIsFeed(w);
    ShiftIsFeed(Shifts(w, 1));
    ShiftIsFeed(Shifts(w, 2));
    ShiftIsFeed(Shifts(w, 3));
    FourFeeds(w);
  }

  lemma {:induction false} ShiftsSum(w: Reg, m: nat, n: nat)
    ensures Shifts(w, m + n) == Shifts(Shifts(w, m), n)
  {
    if n > 0 {
      ShiftsSum(w, m, n - 1);
    }
  }

  lemma ZeroByteShifts(w: Reg)
    ensures Shifts(w, 8) == Nibble(Nibble(w))
  {
    hide Shifts, Nibble;
    ShiftsSum(w, 4, 4);
    NibbleIsShifts(w);
    NibbleIsShifts(Shifts(w, 4));
  }

  /** The two registers that sixteen zero bits bring back. */
  const FIXED: u16 := 0xF01F

  function FixedBits(): Reg {
    [true, true, true, true, false, false, false, false, false, false, false, true, true, true, true, true]
  }

  lemma FixedPoints(w: Reg)
    ensures Shifts(w, 16) == w <==> w == Zeros(16) || w == FixedBits()
  {
    hide Shifts, Nibble, FixedBits, Zeros;
    ShiftsSum(w, 8, 8);
    ZeroByteShifts(w);
    ZeroByteShifts(Shifts(w, 8));
    if Shifts(w, 16) == w {
      FixedOnly(w);
    }
    if w == Zeros(16) || w == FixedBits() {
      FixedBack(w);
    }
  }

  lemma FixedBack(w: Reg)
    requires w == Zeros(16) || w == FixedBits()
    ensures Nibble(Nibble(Nibble(Nibble(w)))) == w
  {
    if w == Zeros(16) {
      assert Nibble(w) == w;
    }
  }

  lemma FixedOnly(w: Reg)
    requires Nibble(Nibble(Nibble(Nibble(w)))) == w
    ensures w == Zeros(16) || w == FixedBits()
  {
    var a := Nibble(w);
    var b := Nibble(a);
    var c := Nibble(b);
    var d := Nibble(c);
    assert forall i | 0 <= i < 16 :: d[i] == w[i];
    var f := FixedBits();
    if w[0] {
      forall i | 0 <= i < 16 ensures w[i] == f[i] {}
    } else {
      forall i | 0 <= i < 16 ensures w[i] == Zeros(16)[i] {}
    }
  }

  lemma SameAfter(v: Reg, w: Reg, m: seq<bool>)
    ensures ShiftIn(v, m) == ShiftIn(w, m) <==> v == w
  {
    ShiftInXor(v, w, m, m);
    assert Xor(m, m) == Zeros(|m|);
    ShiftInZeros(Xor(v, w), |m|);
    hide ShiftIn;
    if ShiftIn(v, m) == ShiftIn(w, m) {
      assert Xor(ShiftIn(v, m), ShiftIn(w, m)) == Zeros(16);
      ShiftsInjective(Xor(v, w), |m|);
      forall i | 0 <= i < 16 ensures v[i] == w[i] { assert !Xor(v, w)[i]; }
    }
  }

  lemma {:induction false} BitsOfAppend(x: seq<u8>, y: seq<u8>)
    ensures BitsOf(x + y) == BitsOf(x) + BitsOf(y)
  {
    if |y| == 0 {
      assert x + y == x;
    } else {
      assert (x + y)[..|x + y| - 1] == x + y[..|y| - 1];
      BitsOfAppend(x, y[..|y| - 1]);
    }
  }

  lemma BitsOfByte(b: u8)
    ensures BitsOf([b]) == Bits(b, 8)
  {
    assert [b][..0] == [];
  }

  lemma ZeroBytes()
    ensures BitsOf([0, 0]) == Zeros(16)
  {
    var z: u8 := 0;
    BitsOfByte(z);
    BitsOfZero(8);
    assert seq(8, _ => false) == Zeros(8);
    hide BitsOf, Bits;
    BitsOfAppend([z], [z]);
    assert [z] + [z] == [z, z];
    assert Zeros(8) + Zeros(8) == Zeros(16);
  }

  lemma HexDigits()
    ensures Bits(0, 4) == [false, false, false, false] && Bits(1, 4) == [false, false, false, true]
    ensures Bits(0xF, 4) == [true, true, true, true]
  {}

  lemma FixedWord()
    ensures Bits(FIXED, 16) == FixedBits()
  {
    Pow2Values();
    HexDigits();
    hide Bits, Pow2;
    BitsJoin(0xF, 0, 4, 4);
    BitsJoin(1, 0xF, 4, 4);
    BitsJoin(0xF0, 0x1F, 8, 8);
  }

  lemma SlotRegisters(r: u16)
    ensures ShiftIn(Bits(r, 16), Zeros(16)) == Bits(r, 16) <==> r == 0 || r == FIXED
  {
    ShiftInZeros(Bits(r, 16), 16);
    FixedPoints(Bits(r, 16));
    BitsOfZero(16);
    FixedWord();
    hide ShiftIn, Shifts, Bits, FixedBits;
    assert seq(16, _ => false) == Zeros(16);
    if Bits(r, 16) == Zeros(16) {
      SameWord(r, 0);
    } else if Bits(r, 16) == FixedBits() {
      SameWord(r, FIXED);
    }
  }

  /** Two zero bytes after a header leave the CRC as it would be without them exactly when the
      header alone has one of two CRCs, whatever follows. */
  lemma ZeroSlotUnseen(head: seq<u8>, payload: seq<u8>)
    ensures Crc16(head + [0, 0] + payload) == Crc16(head + payload) <==> Crc16(head) == 0 || Crc16(head) == FIXED
  {
    hide ShiftIn, BitsOf, Bits, Crc16;
    var w := Bits(Crc16(head), 16);
    Crc16IsShiftIn(head);
    Crc16IsShiftIn(head + payload);
    Crc16IsShiftIn(head + [0, 0] + payload);
    BitsOfAppend(head, payload);
    BitsOfAppend(head + [0, 0], payload);
    BitsOfAppend(head, [0, 0]);
    ZeroBytes();
    ShiftInAppend(InitBits(), BitsOf(head), BitsOf(payload));
    ShiftInAppend(InitBits(), BitsOf(head) + Zeros(16), BitsOf(payload));
    ShiftInAppend(InitBits(), BitsOf(head), Zeros(16));
    SameAfter(ShiftIn(w, Zeros(16)), w, BitsOf(payload));
    SlotRegisters(Crc16(head));
    if Bits(Crc16(head + [0, 0] + payload), 16) == Bits(Crc16(head + payload), 16) {
      SameWord(Crc16(head + [0, 0] + payload), Crc16(head + payload));
    }
  }

  lemma ZeroByteIn(w: Reg)
    ensures ShiftIn(w, Bits(0, 8)) == Nibble(Nibble(w))
  {
    BitsOfZero(8);
    assert seq(8, _ => false) == Zeros(8);
    ShiftInZeros(w, 8);
    ZeroByteShifts(w);
  }

  /** The registers after up to eight zero bytes. */
  function AfterZeros(n: nat): Reg {
    if n == 0 then InitBits() else Nibble(Nibble(AfterZeros(n - 1)))
  }

  lemma {:induction false} CrcOfZeros(data: seq<u8>)
    requires forall b | b in data :: b == 0
    ensures Bits(Crc16(data), 16) == AfterZeros(|data|)
  {
    hide ShiftIn, Bits, Nibble;
    Crc16IsShiftIn(data);
    if |data| > 0 {
      var front, b := data[..|data| - 1], data[|data| - 1];
      assert b in data;
      forall c | c in front ensures c == 0 { assert c in data; }
      CrcOfZeros(front);
      Crc16IsShiftIn(front);
      ShiftInAppend(InitBits(), BitsOf(front), Bits(b, 8));
      ZeroByteIn(AfterZeros(|front|));
    } else {
      EmptyRegister();
    }
  }

  lemma EmptyRegister()
    ensures ShiftIn(InitBits(), BitsOf([])) == InitBits()
  {}

  lemma NextZeros(n: nat, w: Reg)
    requires AfterZeros(n) == w
    ensures AfterZeros(n + 1) == Nibble(Nibble(w))
  {}

  lemma FourZeros()
    ensures AfterZeros(4) == [true, false, false, false, false, true, false, false,
                              true, true, false, false, false, false, false, false]
  {
    hide AfterZeros;
    var r0: Reg := [true, true, true, true, true, true, true, true,
                    true, true, true, true, true, true, true, true];
    var r1: Reg := [true, true, true, false, false, false, false, true,
                    true, true, true, true, false, false, false, false];
    var r2: Reg := [false, false, false, true, true, true, false, true,
                    false, false, false, false, true, true, true, true];
    var r3: Reg := [true, true, false, false, true, true, false, false,
                    true, false, false, true, true, true, false, false];
    StartRegister();
    assert r0 == InitBits();
    NextZeros(0, r0);
    assert Nibble(Nibble(r0)) == r1;
    NextZeros(1, r1);
    assert Nibble(Nibble(r1)) == r2;
    NextZeros(2, r2);
    assert Nibble(Nibble(r2)) == r3;
    NextZeros(3, r3);
  }

  lemma StartRegister()
    ensures AfterZeros(0) == InitBits()
  {}

  lemma EightZeros()
    ensures AfterZeros(8) != Zeros(16) && AfterZeros(8) != FixedBits()
  {
    hide AfterZeros;
    FourZeros();
    var r4: Reg := [true, false, false, false, false, true, false, false,
                    true, true, false, false, false, false, false, false];
    var r5: Reg := [false, false, false, true, false, false, false, true,
                    false, false, false, false, true, true, false, false];
    var r6: Reg := [false, false, false, false, true, true, true, false,
                    false, false, false, true, false, false, false, false];
    var r7: Reg := [true, true, true, true, false, false, false, true,
                    true, true, false, false, true, true, true, false];
    NextZeros(4, r4);
    assert Nibble(Nibble(r4)) == r5;
    NextZeros(5, r5);
    assert Nibble(Nibble(r5)) == r6;
    NextZeros(6, r6);
    assert Nibble(Nibble(r6)) == r7;
    NextZeros(7, r7);
    var r8 := Nibble(Nibble(r7));
    assert r8[2] && !r8[0];
  }

  /** A header of eight zero bytes is none of the two. */
  lemma ZeroHeaderMoves(head: seq<u8>)
    requires |head| == 8 && forall b | b in head :: b == 0
    ensures Crc16(head) != 0 && Crc16(head) != FIXED
  {
    hide Crc16, AfterZeros, Bits, FixedBits, Zeros;
    CrcOfZeros(head);
    EightZeros();
    BitsOfZeroWord();
    FixedWord();
  }

  lemma BitsOfZeroWord()
    ensures Bits(0, 16) == Zeros(16)
  {
    BitsOfZero(16);
    assert seq(16, _ => false) == Zeros(16);
  }
}
