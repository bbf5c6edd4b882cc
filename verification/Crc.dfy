/** The bitwise CRC-16/CCITT-FALSE of the end-to-end protection layer: polynomial 0x1021,
    initial register 0xFFFF, no reflection, no final exclusive or. */
module Crc {
  import opened Gf2
  import opened Word

  const INIT: u16 := 0xFFFF

  // ---------------------------------------------------------------------------
  // The register algorithm
  // ---------------------------------------------------------------------------

  function Round(r: u16): u16 {
    if r >= 0x8000 then Xor16(Shl16(r), 0x1021) else Shl16(r)
  }

  function Rounds(r: u16, n: nat): u16 {
    if n == 0 then r else Round(Rounds(r, n - 1))
  }

  function Absorb(r: u16, b: u8): u16 {
    Rounds(Xor16(r, 0x100 * (b as int)), 8)
  }

  function CrcFrom(r: u16, data: seq<u8>): u16 {
    if |data| == 0 then r else Absorb(CrcFrom(r, data[..|data| - 1]), data[|data| - 1])
  }

  function Crc16(data: seq<u8>): u16 {
    CrcFrom(INIT, data)
  }

  method ComputeCrc16(data: seq<u8>) returns (crc: u16)
    ensures crc == Crc16(data)
  {
    crc := INIT;
    for k := 0 to |data|
      invariant crc == CrcFrom(INIT, data[..k])
    {
      assert data[..k + 1][..k] == data[..k];
      crc := Xor16(crc, 0x100 * (data[k] as int));
      ghost var start := crc;
      for i := 0 to 8
        invariant crc == Rounds(start, i)
      {
        if crc >= 0x8000 {
          crc := Xor16(Shl16(crc), 0x1021);
        } else {
          crc := Shl16(crc);
        }
      }
    }
    assert data[..|data|] == data;
  }

  // ---------------------------------------------------------------------------
  // The same computation on bits, most significant first
  // ---------------------------------------------------------------------------

  /** The content of the register as sixteen bits. */
  type Reg = w: seq<bool> | |w| == 16 witness Zeros(16)

  /** A byte string as the bit string the CRC reads. */
  function BitsOf(data: seq<u8>): (bits: seq<bool>)
    ensures |bits| == 8 * |data|
  {
    if |data| == 0 then [] else BitsOf(data[..|data| - 1]) + Bits(data[|data| - 1], 8)
  }

  /** The feedback taps of 0x1021. */
  function Taps(): Reg {
    [false, false, false, true, false, false, false, false,
     false, false, true, false, false, false, false, true]
  }

  function Shift(w: Reg): Reg {
    if w[0] then Xor(w[1..] + [false], Taps()) else w[1..] + [false]
  }

  function Shifts(w: Reg, n: nat): Reg {
    if n == 0 then w else Shift(Shifts(w, n - 1))
  }

  /** The bits at the top of a register that is otherwise zero. */
  function Pad(bits: seq<bool>): Reg
    requires |bits| <= 16
  {
    bits + Zeros(16 - |bits|)
  }

  /** The linear feedback shift register, one message bit per step. */
  function ShiftIn(w: Reg, bits: seq<bool>): Reg {
    if |bits| == 0 then w
    else Shift(Xor(ShiftIn(w, bits[..|bits| - 1]), Pad([bits[|bits| - 1]])))
  }

  // ---------------------------------------------------------------------------
  // The shift register is linear
  // ---------------------------------------------------------------------------

  lemma ShiftXor(a: Reg, b: Reg)
    ensures Shift(Xor(a, b)) == Xor(Shift(a), Shift(b))
  {
    var x, y := Shift(Xor(a, b)), Xor(Shift(a), Shift(b));
    forall i | 0 <= i < 16 ensures x[i] == y[i] {}
  }

  lemma {:induction false} ShiftsXor(a: Reg, b: Reg, n: nat)
    ensures Shifts(Xor(a, b), n) == Xor(Shifts(a, n), Shifts(b, n))
  {
    if n > 0 {
      ShiftsXor(a, b, n - 1);
      ShiftXor(Shifts(a, n - 1), Shifts(b, n - 1));
    }
  }

  lemma XorSwap(a: seq<bool>, b: seq<bool>, c: seq<bool>, d: seq<bool>)
    requires |a| == |b| == |c| == |d|
    ensures Xor(Xor(a, b), Xor(c, d)) == Xor(Xor(a, c), Xor(b, d))
  {}

  /** The register is XOR-linear in its start value and its input together. */
  lemma {:induction false} ShiftInXor(v: Reg, w: Reg, x: seq<bool>, y: seq<bool>)
    requires |x| == |y|
    ensures ShiftIn(Xor(v, w), Xor(x, y)) == Xor(ShiftIn(v, x), ShiftIn(w, y))
  {
    if |x| > 0 {
      var n := |x| - 1;
      assert Xor(x, y)[..n] == Xor(x[..n], y[..n]);
      ShiftInXor(v, w, x[..n], y[..n]);
      var p, q := Pad([x[n]]), Pad([y[n]]);
      assert Pad([x[n] != y[n]]) == Xor(p, q);
      XorSwap(ShiftIn(v, x[..n]), ShiftIn(w, y[..n]), p, q);
      ShiftXor(Xor(ShiftIn(v, x[..n]), p), Xor(ShiftIn(w, y[..n]), q));
    }
  }

  lemma {:induction false} ShiftInAppend(w: Reg, x: seq<bool>, y: seq<bool>)
    ensures ShiftIn(w, x + y) == ShiftIn(ShiftIn(w, x), y)
  {
    if |y| == 0 {
      assert x + y == x;
    } else {
      assert (x + y)[..|x + y| - 1] == x + y[..|y| - 1];
      ShiftInAppend(w, x, y[..|y| - 1]);
    }
  }

  lemma {:induction false} ShiftsDelay(n: nat, b: bool, j: nat)
    requires j <= n <= 15
    ensures Shifts(Pad(Zeros(n) + [b]), j) == Pad(Zeros(n - j) + [b])
  {
    if j > 0 {
      ShiftsDelay(n, b, j - 1);
      assert Pad(Zeros(n - j + 1) + [b])[1..] + [false] == Pad(Zeros(n - j) + [b]);
    }
  }

  /** Up to sixteen message bits may be folded into the register at once. */
  lemma {:induction false} ShiftInIsShifts(w: Reg, bits: seq<bool>)
    requires |bits| <= 16
    ensures ShiftIn(w, bits) == Shifts(Xor(w, Pad(bits)), |bits|)
  {
    if |bits| == 0 {
      assert Xor(w, Pad(bits)) == w;
    } else {
      var n := |bits| - 1;
      var front, b := bits[..n], bits[n];
      ShiftInIsShifts(w, front);
      ShiftsDelay(n, b, n);
      assert Zeros(0) + [b] == [b];
      ShiftsXor(Xor(w, Pad(front)), Pad(Zeros(n) + [b]), n);
      assert Xor(Xor(w, Pad(front)), Pad(Zeros(n) + [b])) == Xor(w, Pad(bits));
    }
  }

  // ---------------------------------------------------------------------------
  // The byte-wise loop computes the shift register
  // ---------------------------------------------------------------------------

  lemma XorSnoc(x: seq<bool>, p: bool, y: seq<bool>, q: bool)
    requires |x| == |y|
    ensures Xor(x + [p], y + [q]) == Xor(x, y) + [p != q]
  {}

  lemma {:induction false} BitsXor(x: nat, y: nat, n: nat)
    ensures Bits(XorNat(x, y), n) == Xor(Bits(x, n), Bits(y, n))
  {
    hide XorNat;
    if n > 0 {
      hide Xor;
      BitsXor(x / 2, y / 2, n - 1);
      XorNatHalves(x, y);
      XorSnoc(Bits(x / 2, n - 1), x % 2 == 1, Bits(y / 2, n - 1), y % 2 == 1);
    }
  }

  lemma BitsShl(r: u16)
    ensures Bits(Shl16(r), 16) == Bits(r, 16)[1..] + [false]
    ensures Bits(r, 16)[0] <==> r >= 0x8000
  {
    Pow2Values();
    BitsTop(r, 15);
    var low := if r >= 0x8000 then r - 0x8000 else r;
    assert Shl16(r) == 2 * low;
    assert Bits(2 * low, 16) == Bits(low, 15) + [false];
  }

  lemma Nibbles()
    ensures Bits(0, 4) == [false, false, false, false]
    ensures Bits(1, 4) == [false, false, false, true]
    ensures Bits(2, 4) == [false, false, true, false]
  {}

  lemma BitsOfTaps()
    ensures Bits(0x1021, 16) == Taps()
  {
    Pow2Values();
    Nibbles();
    hide Bits, Pow2;
    var i, o, z := 1, 2, 0;
    BitsJoin(i, z, 4, 4);
    BitsJoin(o, i, 4, 4);
    var high, low := 0x10 * i + z, 0x10 * o + i;
    BitsJoin(high, low, 8, 8);
  }

  lemma BitsRound(r: u16)
    ensures Bits(Round(r), 16) == Shift(Bits(r, 16))
  {
    BitsShl(r);
    BitsXor(Shl16(r), 0x1021, 16);
    BitsOfTaps();
  }

  lemma {:induction false} BitsRounds(r: u16, n: nat)
    ensures Bits(Rounds(r, n), 16) == Shifts(Bits(r, 16), n)
  {
    if n > 0 {
      BitsRounds(r, n - 1);
      BitsRound(Rounds(r, n - 1));
    }
  }

  lemma {:induction false} CrcIsShiftIn(r: u16, data: seq<u8>)
    ensures Bits(CrcFrom(r, data), 16) == ShiftIn(Bits(r, 16), BitsOf(data))
  {
    if |data| > 0 {
      var front, b := data[..|data| - 1], data[|data| - 1];
      CrcIsShiftIn(r, front);
      var c := CrcFrom(r, front);
      AbsorbIsShiftIn(c, b);
      ShiftInAppend(Bits(r, 16), BitsOf(front), Bits(b, 8));
    }
  }

  /** The initial register, 0xFFFF, as bits. */
  function InitBits(): Reg {
    seq(16, _ => true)
  }

  lemma {:induction false} BitsOfAllOnes(n: nat)
    ensures Bits(Pow2(n) - 1, n) == seq(n, _ => true)
  {
    if n > 0 {
      BitsOfAllOnes(n - 1);
      var x := Pow2(n) - 1;
      assert x / 2 == Pow2(n - 1) - 1 && x % 2 == 1;
    }
  }

  lemma Crc16IsShiftIn(data: seq<u8>)
    ensures Bits(Crc16(data), 16) == ShiftIn(InitBits(), BitsOf(data))
  {
    var w: u16 := INIT;
    CrcIsShiftIn(w, data);
    assert Bits(w, 16) == InitBits() by {
      BitsOfAllOnes(16);
      Pow2Values();
    }
  }

  lemma AbsorbIsShiftIn(r: u16, b: u8)
    ensures Bits(Absorb(r, b), 16) == ShiftIn(Bits(r, 16), Bits(b, 8))
  {
    hide Bits, Pow2, XorNat, ShiftIn, Shifts, Rounds;
    Pow2Values();
    BitsJoin(b, 0, 8, 8);
    BitsOfZero(8);
    BitsXor(r, 0x100 * (b as int), 16);
    BitsRounds(Xor16(r, 0x100 * (b as int)), 8);
    ShiftInIsShifts(Bits(r, 16), Bits(b, 8));
  }
}
