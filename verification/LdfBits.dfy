/** Signal extraction: a bit loop over a frame payload, and the slice of a little-endian number
    it computes (LIN Specification 2.1, section 2.2.3). */
module LdfBits {
  import opened Word

  /** Offsets and widths are 64-bit machine words, and so is the extracted value. */
  type usize = x: int | 0 <= x < WORD

  function Min(x: nat, y: nat): nat {
    if x <= y then x else y
  }

  function Quotient(x: nat, m: nat): nat
    requires m > 0
  {
    x / m
  }

  function ShiftRight(x: nat, k: nat): nat {
    Quotient(x, Pow2(k))
  }

  function BitAt(x: nat, k: nat): (b: nat)
    ensures b < 2
  {
    ShiftRight(x, k) % 2
  }

  /** The j-th bit of a payload, low bit of the first byte first; bytes past the end read as zero. */
  function DataBit(data: seq<u8>, j: nat): (b: nat)
    ensures b < 2
  {
    if j / 8 < |data| then BitAt(data[j / 8], j % 8) else 0
  }

  /** The i-th bit of a field. Its position wraps around like the machine word it is kept in. */
  function FieldBit(data: seq<u8>, offset: nat, i: nat): (b: nat)
    ensures b < 2
  {
    DataBit(data, (offset + i) % WORD)
  }

  /** The first n bits of the field at an offset, as a number. */
  function Extracted(data: seq<u8>, offset: nat, n: nat): nat {
    if n == 0 then 0 else Extracted(data, offset, n - 1) + Pow2(n - 1) * FieldBit(data, offset, n - 1)
  }

  method ExtractBits(data: seq<u8>, bitOffset: usize, bitWidth: usize) returns (val: nat)
    ensures val == Extracted(data, bitOffset, Min(bitWidth, 64))
    ensures val < WORD
  {
    hide ShiftRight, BitAt, Pow2;
    val := 0;
    var i := 0;
    while i < bitWidth && i < 64
      invariant i <= Min(bitWidth, 64)
      invariant val == Extracted(data, bitOffset, i)
    {
      ExtractedBound(data, bitOffset, i);
      TimesBit(Pow2(i), FieldBit(data, bitOffset, i));
      var position := (bitOffset + i) % WORD;
      var byteIdx, bitIdx := position / 8, position % 8;
      if byteIdx < |data| && BitAt(data[byteIdx], bitIdx) != 0 {
        val := SetBit(val, i);
      }
      i := i + 1;
    }
    ExtractedBound(data, bitOffset, i);
    Pow2Monotone(i, 64);
    Pow2Of64();
  }

  /** `val |= 1 << i` */
  function SetBit(val: nat, i: nat): (r: nat)
    ensures val < Pow2(i) ==> r == val + Pow2(i)
  {
    assert val < Pow2(i) ==> ShiftRight(val, i) == 0 by {
      if val < Pow2(i) { SmallQuotient(val, Pow2(i)); }
    }
    if BitAt(val, i) == 1 then val else val + Pow2(i)
  }

  function LittleEndian(data: seq<u8>): nat {
    if |data| == 0 then 0 else data[0] as nat + 0x100 * LittleEndian(data[1..])
  }

  // ---------------------------------------------------------------------------
  // Powers and quotients
  // ---------------------------------------------------------------------------

  lemma SmallQuotient(x: nat, m: nat)
    requires x < m
    ensures x / m == 0 && x % m == x
  {}

  lemma {:induction false} Pow2Monotone(m: nat, n: nat)
    requires m <= n
    ensures Pow2(m) <= Pow2(n)
  {
    if m < n {
      Pow2Monotone(m, n - 1);
    }
  }

  lemma {:induction false} Pow2Sum(m: nat, n: nat)
    ensures Pow2(m + n) == Pow2(m) * Pow2(n)
  {
    if m > 0 {
      Pow2Sum(m - 1, n);
      Associate(2, Pow2(m - 1), Pow2(n));
    }
  }

  lemma Pow2Of64()
    ensures Pow2(64) == WORD
  {
    Pow2Values();
    Pow2Sum(16, 16);
    Pow2Sum(32, 32);
  }

  lemma DivideTwice(x: nat, m: nat, n: nat)
    requires m > 0 && n > 0
    ensures m * n > 0 && x / (m * n) == x / m / n
  {
    var q, r := x / m, x % m;
    var p, s := q / n, q % n;
    Division(x, m);
    Division(q, n);
    Recombined(x, m, n, q, r, p, s);
    Within(m, n, s, r);
    QuotientOf(x, m * n, p, m * s + r);
  }

  lemma Division(x: nat, m: nat)
    requires m > 0
    ensures x == m * (x / m) + x % m
  {}

  lemma Recombined(x: nat, m: nat, n: nat, q: nat, r: nat, p: nat, s: nat)
    requires x == m * q + r && q == n * p + s
    ensures x == (m * n) * p + (m * s + r)
  {
    Distribute(m, n, p, s);
  }

  lemma Within(m: nat, n: nat, s: nat, r: nat)
    requires r < m && s < n
    ensures m * s + r < m * n
  {
    assert m * s + m == m * (s + 1);
    assert m * (s + 1) <= m * n;
  }

  /** One more low bit of a number. */
  lemma LowBits(x: nat, n: nat)
    ensures Low(x, n + 1) == Low(x, n) + Pow2(n) * BitAt(x, n)
  {
    var m := Pow2(n);
    var q, r := x / m, x % m;
    var p, b := q / 2, q % 2;
    Division(x, m);
    Division(q, 2);
    Recombined(x, m, 2, q, r, p, b);
    Within(m, 2, b, r);
    QuotientOf(x, m * 2, p, m * b + r);
  }

  // ---------------------------------------------------------------------------
  // The payload as a little-endian number
  // ---------------------------------------------------------------------------

  lemma ShiftTwice(x: nat, m: nat, n: nat)
    ensures ShiftRight(ShiftRight(x, m), n) == ShiftRight(x, m + n)
  {
    Pow2Sum(m, n);
    DivideTwice(x, Pow2(m), Pow2(n));
  }

  lemma BitOfShifted(x: nat, m: nat, n: nat)
    ensures BitAt(ShiftRight(x, m), n) == BitAt(x, m + n)
  {
    ShiftTwice(x, m, n);
    hide ShiftRight;
  }

  /** The low eight bits do not see what is above them. */
  lemma BitOfByte(low: nat, rest: nat, j: nat)
    requires j < 8 && low < 0x100
    ensures BitAt(low + 0x100 * rest, j) == BitAt(low, j)
  {
    var m, k := Pow2(j), Pow2(7 - j);
    Pow2Sum(j, 8 - j);
    Pow2Values();
    assert Pow2(8 - j) == 2 * k;
    hide Pow2;
    Above(low, rest, m, k);
  }

  lemma Above(low: nat, rest: nat, m: nat, k: nat)
    requires m > 0 && m * (2 * k) == 0x100
    ensures (low + 0x100 * rest) / m % 2 == low / m % 2
  {
    AboveBits(low, rest, m, k);
  }

  lemma AboveBits(low: nat, high: nat, m: nat, k: nat)
    requires m > 0
    ensures (low + (m * (2 * k)) * high) / m % 2 == low / m % 2
  {
    var q, r := low / m, low % m;
    Division(low, m);
    Distribute(m, 2 * k, high, q);
    QuotientOf(low + (m * (2 * k)) * high, m, (2 * k) * high + q, r);
    Associate(2, k, high);
    EvenPlus(k * high, q);
  }

  lemma EvenPlus(x: nat, q: nat)
    ensures (2 * x + q) % 2 == q % 2
  {}

  lemma {:induction false} DataBitIsNumberBit(data: seq<u8>, j: nat)
    ensures DataBit(data, j) == BitAt(LittleEndian(data), j)
  {
    if |data| == 0 {
      SmallQuotient(0, Pow2(j));
    } else if j < 8 {
      BitOfByte(data[0], LittleEndian(data[1..]), j);
    } else {
      DataBitIsNumberBit(data[1..], j - 8);
      BitOfShifted(LittleEndian(data), 8, j - 8);
      Pow2Values();
      assert ShiftRight(LittleEndian(data), 8) == LittleEndian(data[1..]);
      hide ShiftRight, Pow2, BitAt;
      assert j / 8 - 1 == (j - 8) / 8 && j % 8 == (j - 8) % 8;
    }
  }

  // ---------------------------------------------------------------------------
  // What a signal value is
  // ---------------------------------------------------------------------------

  /** The low n bits of a number. */
  function Low(x: nat, n: nat): nat {
    x % Pow2(n)
  }

  /** The bits of a little-endian number from an offset on. */
  function Slice(data: seq<u8>, offset: nat, n: nat): nat {
    Low(ShiftRight(LittleEndian(data), offset), n)
  }

  lemma {:induction false} ExtractedIsSlice(data: seq<u8>, offset: nat, n: nat)
    requires offset + n <= WORD
    ensures Extracted(data, offset, n) == Slice(data, offset, n)
  {
    hide ShiftRight;
    if n > 0 {
      hide Pow2;
      ExtractedIsSlice(data, offset, n - 1);
      LowBits(ShiftRight(LittleEndian(data), offset), n - 1);
      BitOfShifted(LittleEndian(data), offset, n - 1);
      DataBitIsNumberBit(data, offset + n - 1);
      SmallQuotient(offset + (n - 1), WORD);
      hide BitAt, DataBit, LittleEndian;
    }
  }

  /** value has n bits, and each is the bit of the payload at its position: the offset plus the
      place, wrapped around like a machine word, low bit of the first byte first; there are only
      zeros past the end. */
  predicate ReadsField(value: nat, data: seq<u8>, offset: nat, n: nat) {
    && value < Pow2(n)
    && forall i: nat | i < n ::
         value / Pow2(i) % 2 == 1 <==>
           var p := (offset + i) % WORD; p / 8 < |data| && data[p / 8] / Pow2(p % 8) % 2 == 1
  }

  lemma FieldBitIsRead(data: seq<u8>, offset: nat, i: nat)
    ensures FieldBit(data, offset, i) == 1 <==>
      var p := (offset + i) % WORD; p / 8 < |data| && data[p / 8] / Pow2(p % 8) % 2 == 1
  {}

  /** Adding a bit above the n low ones. */
  lemma BitAbove(x: nat, n: nat, b: nat, i: nat)
    requires x < Pow2(n) && b < 2 && i <= n
    ensures BitAt(x + Pow2(n) * b, i) == if i < n then BitAt(x, i) else b
  {
    if i < n {
      Pow2Sum(i, n - i);
      assert Pow2(n - i) == 2 * Pow2(n - i - 1);
      hide Pow2;
      AboveBits(x, b, Pow2(i), Pow2(n - i - 1));
    } else {
      hide Pow2;
      QuotientOf(x + Pow2(n) * b, Pow2(n), b, x);
    }
  }

  lemma {:induction false} ExtractedAt(data: seq<u8>, offset: nat, n: nat, i: nat)
    requires i < n
    ensures BitAt(Extracted(data, offset, n), i) == FieldBit(data, offset, i)
  {
    hide BitAt, FieldBit, Pow2;
    ExtractedBound(data, offset, n - 1);
    BitAbove(Extracted(data, offset, n - 1), n - 1, FieldBit(data, offset, n - 1), i);
    if i < n - 1 {
      ExtractedAt(data, offset, n - 1, i);
    }
  }

  /** Extraction reads the bits of the field, wherever they are. */
  lemma ExtractedIsRead(data: seq<u8>, offset: nat, n: nat)
    ensures ReadsField(Extracted(data, offset, n), data, offset, n)
  {
    ExtractedBound(data, offset, n);
    var v := Extracted(data, offset, n);
    forall i: nat | i < n
      ensures v / Pow2(i) % 2 == 1 <==>
        var p := (offset + i) % WORD; p / 8 < |data| && data[p / 8] / Pow2(p % 8) % 2 == 1
    {
      hide Extracted, Pow2, FieldBit;
      ExtractedAt(data, offset, n, i);
      FieldBitIsRead(data, offset, i);
      assert BitAt(v, i) == v / Pow2(i) % 2;
    }
  }

  lemma {:induction false} ExtractedPositive(data: seq<u8>, offset: nat, n: nat, i: nat)
    requires i < n && FieldBit(data, offset, i) == 1
    ensures Extracted(data, offset, n) > 0
  {
    hide FieldBit, Pow2;
    if i < n - 1 {
      ExtractedPositive(data, offset, n - 1, i);
    }
  }

  /** Extraction is the slice of the little-endian number, for every payload, exactly when the
      position does not run over the machine word; a negative offset in a description does. */
  lemma ExtractionIsSlice(bitOffset: usize, bitWidth: usize)
    ensures (forall data :: Extracted(data, bitOffset, Min(bitWidth, 64)) == Slice(data, bitOffset, Min(bitWidth, 64)))
       <==> bitOffset + Min(bitWidth, 64) <= WORD
  {
    var n := Min(bitWidth, 64);
    hide Extracted, Slice;
    if bitOffset + n <= WORD {
      forall data ensures Extracted(data, bitOffset, n) == Slice(data, bitOffset, n) {
        ExtractedIsSlice(data, bitOffset, n);
      }
    } else {
      Wrapped(bitOffset, n);
      assert Extracted([1], bitOffset, n) != Slice([1], bitOffset, n);
    }
  }

  /** A field that runs over the machine word reads the first bit of the payload. */
  lemma Wrapped(offset: usize, n: nat)
    requires offset > 0 && offset + n > WORD
    ensures Extracted([1], offset, n) > 0 && Slice([1], offset, n) == 0
  {
    assert DataBit([1], 0) == 1;
    assert FieldBit([1], offset, WORD - offset) == 1;
    ExtractedPositive([1], offset, n, WORD - offset);
    assert LittleEndian([1]) == 1;
    Pow2Monotone(1, offset);
    SmallQuotient(1, Pow2(offset));
    SmallQuotient(0, Pow2(n));
    hide Extracted, LittleEndian;
  }

  /** Adjacent fields put together are the wider field. */
  lemma {:induction false} ExtractionConcatenates(data: seq<u8>, offset: nat, m: nat, n: nat)
    ensures Extracted(data, offset, m + n)
      == Extracted(data, offset, m) + Pow2(m) * Extracted(data, offset + m, n)
  {
    if n > 0 {
      hide FieldBit, Pow2;
      ExtractionConcatenates(data, offset, m, n - 1);
      SameFieldBit(data, offset, m, n - 1);
      Pow2Sum(m, n - 1);
      Combine(Extracted(data, offset, m), Pow2(m), Extracted(data, offset + m, n - 1), Pow2(n - 1),
              FieldBit(data, offset + m, n - 1));
    }
  }

  lemma SameFieldBit(data: seq<u8>, offset: nat, m: nat, i: nat)
    ensures FieldBit(data, offset, m + i) == FieldBit(data, offset + m, i)
  {}

  lemma Combine(a: nat, p: nat, b: nat, q: nat, f: nat)
    ensures (a + p * b) + (p * q) * f == a + p * (b + q * f)
  {
    Associate(p, q, f);
    Distribute(p, 1, b, q * f);
  }

  /** The same bits in the places an extraction reads. */
  predicate SameField(data: seq<u8>, other: seq<u8>, offset: nat, n: nat) {
    forall i | 0 <= i < n :: FieldBit(data, offset, i) == FieldBit(other, offset, i)
  }

  lemma {:induction false} ExtractedBound(data: seq<u8>, offset: nat, n: nat)
    ensures Extracted(data, offset, n) < Pow2(n)
  {
    if n > 0 {
      ExtractedBound(data, offset, n - 1);
      TimesBit(Pow2(n - 1), FieldBit(data, offset, n - 1));
    }
  }

  lemma TimesBit(x: nat, b: nat)
    requires b < 2
    ensures x * b == if b == 1 then x else 0
  {}

  /** Two payloads give the same value exactly when they agree on the bits of the field: nothing
      outside it matters, and every bit inside it does. */
  lemma {:induction false} ExtractionReadsField(data: seq<u8>, other: seq<u8>, offset: nat, n: nat)
    ensures Extracted(data, offset, n) == Extracted(other, offset, n) <==> SameField(data, other, offset, n)
  {
    hide FieldBit;
    if n > 0 {
      hide Pow2;
      ExtractionReadsField(data, other, offset, n - 1);
      ExtractedBound(data, offset, n - 1);
      ExtractedBound(other, offset, n - 1);
      TimesBit(Pow2(n - 1), FieldBit(data, offset, n - 1));
      TimesBit(Pow2(n - 1), FieldBit(other, offset, n - 1));
    }
  }
}
