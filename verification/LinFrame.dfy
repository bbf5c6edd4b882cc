/** LIN frames: protected identifier, checksum, structural validation and filters. */
module LinFrame {
  import opened Word
  import opened Wrappers

  const LIN_MAX_DATA_LEN := 8
  const LIN_MAX_ID: u8 := 0x3F
  const LIN_DIAG_REQUEST_ID: u8 := 0x3C
  const LIN_DIAG_RESPONSE_ID: u8 := 0x3D

  datatype Error = Closed | PayloadTooLarge | InvalidFrame | NoResponse

  datatype ChecksumType = Classic | Enhanced

  datatype Frame = Frame(id: u8, data: seq<u8>, checksum: u8, checksumType: ChecksumType)

  datatype Filter = Filter(id: u8, all: bool) {
    predicate Matches(f: Frame) {
      all || f.id == id
    }
  }

  // ---------------------------------------------------------------------------
  // Protected identifier (LIN Specification 2.1, section 2.3.1.3)
  // ---------------------------------------------------------------------------

  function P0(id: nat): (p: nat)
    ensures p < 2
  {
    XorNat(XorNat(XorNat(id, id / 2), id / 4), id / 16) % 2
  }

  /** The complemented parity: the low bit of the bitwise negation. */
  function P1(id: nat): (p: nat)
    ensures p < 2
  {
    1 - XorNat(XorNat(XorNat(id / 2, id / 8), id / 16), id / 32) % 2
  }

  function ProtectId(raw: u8): (pid: u8) {
    var id := raw % 0x40;
    id + 0x40 * P0(id) + 0x80 * P1(id)
  }

  function VerifyPid(pid: u8): Result<u8, Error> {
    var id := pid % 0x40;
    if ProtectId(id) != pid then Err(InvalidFrame) else Ok(id)
  }

  predicate Odd(x: nat) {
    x % 2 == 1
  }

  predicate Bit(x: nat, i: nat) {
    if i == 0 then Odd(x) else Bit(x / 2, i - 1)
  }

  /** The two parity equations over the eight bits of a protected identifier: bit 6 makes the
      sum over its group even, bit 7 makes the sum over its group odd. */
  predicate ParityHolds(pid: u8) {
    && (Bit(pid, 6) == (((Bit(pid, 0) != Bit(pid, 1)) != Bit(pid, 2)) != Bit(pid, 4)))
    && (Bit(pid, 7) != (((Bit(pid, 1) != Bit(pid, 3)) != Bit(pid, 4)) != Bit(pid, 5)))
  }

  lemma XorOdd(x: nat, y: nat)
    ensures Odd(XorNat(x, y)) <==> Odd(x) != Odd(y)
  {
    hide XorNat;
    XorNatHalves(x, y);
    OddSum(x, y);
  }

  lemma OddSum(x: nat, y: nat)
    ensures (x + y) % 2 == 1 <==> (x % 2 == 1) != (y % 2 == 1)
  {}

  lemma XorOfFour(a: nat, b: nat, c: nat, d: nat)
    ensures Odd(XorNat(XorNat(XorNat(a, b), c), d)) <==> (((Odd(a) != Odd(b)) != Odd(c)) != Odd(d))
  {
    hide Odd;
    XorOdd(a, b);
    XorOdd(XorNat(a, b), c);
    XorOdd(XorNat(XorNat(a, b), c), d);
  }

  lemma HalvesOfHalf(x: nat)
    ensures x / 4 == x / 2 / 2 && x / 8 == x / 2 / 4 && x / 16 == x / 2 / 8 && x / 32 == x / 2 / 16
  {}

  /** Shifting right brings a higher bit to the bottom. */
  lemma ShiftedBits(x: nat)
    ensures Odd(x) == Bit(x, 0) && Odd(x / 2) == Bit(x, 1) && Odd(x / 4) == Bit(x, 2) && Odd(x / 8) == Bit(x, 3)
    ensures Odd(x / 16) == Bit(x, 4) && Odd(x / 32) == Bit(x, 5)
  {
    hide Odd;
    HalvesOfHalf(x);
    HalvesOfHalf(x / 2);
    HalvesOfHalf(x / 4);
    HalvesOfHalf(x / 8);
    var h := x / 2;
    assert Bit(h, 1) == Bit(x, 2) && Bit(h, 2) == Bit(x, 3) && Bit(h, 3) == Bit(x, 4) && Bit(h, 4) == Bit(x, 5);
    assert Bit(h, 2) == Bit(h / 2, 1) && Bit(h, 3) == Bit(h / 2, 2) && Bit(h, 4) == Bit(h / 2, 3);
    assert Bit(h / 2, 2) == Bit(h / 4, 1) && Bit(h / 2, 3) == Bit(h / 4, 2) == Bit(h / 8, 1);
  }

  lemma ParityBits(id: nat)
    ensures P0(id) == 1 <==> (((Bit(id, 0) != Bit(id, 1)) != Bit(id, 2)) != Bit(id, 4))
    ensures P1(id) == 0 <==> (((Bit(id, 1) != Bit(id, 3)) != Bit(id, 4)) != Bit(id, 5))
  {
    hide XorNat, Bit;
    XorOfFour(id, id / 2, id / 4, id / 16);
    XorOfFour(id / 2, id / 8, id / 16, id / 32);
    ShiftedBits(id);
  }

  /** A word put above n bits does not disturb them. */
  lemma {:induction false} BitOfJoin(x: nat, n: nat, h: nat, i: nat)
    requires x < Pow2(n)
    ensures Bit(x + Pow2(n) * h, i) == if i < n then Bit(x, i) else Bit(h, i - n)
  {
    if n > 0 {
      var y := x + Pow2(n) * h;
      assert y == x + 2 * (Pow2(n - 1) * h);
      assert y / 2 == x / 2 + Pow2(n - 1) * h;
      if i > 0 {
        BitOfJoin(x / 2, n - 1, h, i - 1);
      }
    }
  }

  lemma BitsOfPid(id: nat, high: nat)
    requires id < 0x40
    ensures var b := id + 0x40 * high;
      && (forall i: nat | i < 6 :: Bit(b, i) == Bit(id, i))
      && Bit(b, 6) == (high % 2 == 1) && Bit(b, 7) == (high / 2 % 2 == 1)
  {
    Pow2Values();
    hide Pow2;
    var b := id + 0x40 * high;
    forall i: nat ensures Bit(b, i) == if i < 6 then Bit(id, i) else Bit(high, i - 6) {
      BitOfJoin(id, 6, high, i);
    }
    assert Bit(b, 6) == Bit(high, 0) && Bit(b, 7) == Bit(high, 1);
    assert Bit(high, 0) == Odd(high) && Bit(high, 1) == Bit(high / 2, 0) == Odd(high / 2);
  }

  lemma PidEquations(pid: u8)
    ensures ProtectId(pid % 0x40) == pid <==> ParityHolds(pid)
  {
    hide Bit, P0, P1;
    var id, high := pid % 0x40, pid / 0x40;
    ParityBits(id);
    BitsOfPid(id, high);
    assert pid == id + 0x40 * high;
    assert ProtectId(id) == pid <==> P0(id) == high % 2 && P1(id) == high / 2;
  }

  lemma PidRange(id: u8)
    requires id <= LIN_MAX_ID
    ensures 1 <= ProtectId(id) <= 254 && ProtectId(id) % 0x40 == id
  {
    hide Bit, P0, P1;
    ParityBits(id);
    LowBits(id, P0(id) + 2 * P1(id));
    if id == 0 {
      ZeroBits();
    } else if id == 0x3F {
      BitsOf63();
    }
  }

  lemma LowBits(id: nat, high: nat)
    requires id < 0x40
    ensures (id + 0x40 * high) % 0x40 == id && (id + 0x40 * high) / 0x40 == high
  {}

  lemma ZeroBits()
    ensures !Bit(0, 1) && !Bit(0, 3) && !Bit(0, 4) && !Bit(0, 5)
  {}

  lemma BitsOf63()
    ensures Bit(63, 0) && Bit(63, 1) && Bit(63, 2) && Bit(63, 4)
  {}

  /** A byte verifies exactly when both parity equations hold, and then it is the protected
      identifier of its own low six bits and of no other identifier. */
  lemma PidIsParityCode(pid: u8, id: u8)
    ensures VerifyPid(pid).Ok? <==> ParityHolds(pid)
    ensures VerifyPid(pid) == Err(InvalidFrame) <==> !ParityHolds(pid)
    ensures VerifyPid(pid) == Ok(id) <==> id <= LIN_MAX_ID && pid == ProtectId(id)
    ensures id <= LIN_MAX_ID ==> 1 <= ProtectId(id) <= 254
  {
    PidEquations(pid);
    if id <= LIN_MAX_ID {
      PidRange(id);
    }
  }

  /** Bits above the sixth are ignored when an identifier is protected. */
  lemma PidOfAnyByte(raw: u8)
    ensures VerifyPid(ProtectId(raw)) == Ok(raw % 0x40)
  {
    LowSix(raw);
    PidIsParityCode(ProtectId(raw), raw % 0x40);
    hide VerifyPid, ProtectId, ParityHolds;
  }

  lemma LowSix(raw: u8)
    ensures ProtectId(raw) == ProtectId(raw % 0x40)
  {
    hide P0, P1;
    assert raw % 0x40 % 0x40 == raw % 0x40;
  }

  /** The golden vectors; identifier 0x10 gives 0x50. */
  lemma KnownVectors()
    ensures ProtectId(0x00) == 0x80 && ProtectId(0x01) == 0xC1 && ProtectId(0x10) == 0x50
    ensures ProtectId(0x12) == 0x92 && ProtectId(0x3F) == 0xBF && ProtectId(0x3C) == 0x3C
  {
    hide ProtectId;
    assert ParityHolds(0x80) && ParityHolds(0xC1) && ParityHolds(0x50);
    assert ParityHolds(0x92) && ParityHolds(0xBF) && ParityHolds(0x3C);
    hide ParityHolds;
    PidEquations(0x80);
    PidEquations(0xC1);
    PidEquations(0x50);
    PidEquations(0x92);
    PidEquations(0xBF);
    PidEquations(0x3C);
  }

  /** The byte with bit k inverted. */
  function Flip(x: nat, k: nat): nat {
    if k == 0 then 2 * (x / 2) + 1 - x % 2 else 2 * Flip(x / 2, k - 1) + x % 2
  }

  lemma {:induction false} FlipBit(x: nat, k: nat, i: nat)
    ensures Bit(Flip(x, k), i) == (Bit(x, i) != (i == k))
  {
    FlipParts(x, k);
    hide Flip, Odd;
    if i > 0 && k > 0 {
      FlipBit(x / 2, k - 1, i - 1);
    }
  }

  lemma FlipParts(x: nat, k: nat)
    ensures Odd(Flip(x, k)) == (Odd(x) != (k == 0))
    ensures Flip(x, k) / 2 == if k == 0 then x / 2 else Flip(x / 2, k - 1)
  {}

  /** Flipping any one of the eight bits of a protected identifier makes verification fail. */
  lemma PidDetectsBitFlip(id: u8, k: nat, flipped: u8)
    requires id <= LIN_MAX_ID && k < 8 && flipped == Flip(ProtectId(id), k)
    ensures VerifyPid(flipped) == Err(InvalidFrame)
  {
    var pid := ProtectId(id);
    PidRange(id);
    PidEquations(pid);
    PidEquations(flipped);
    hide ProtectId, Bit, Flip;
    FlipBit(pid, k, 0);
    FlipBit(pid, k, 1);
    FlipBit(pid, k, 2);
    FlipBit(pid, k, 3);
    FlipBit(pid, k, 4);
    FlipBit(pid, k, 5);
    FlipBit(pid, k, 6);
    FlipBit(pid, k, 7);
  }

  // ---------------------------------------------------------------------------
  // Checksum (LIN Specification 2.1, section 2.3.1.5)
  // ---------------------------------------------------------------------------

  /** Subtract 0xFF, not 0x100, when the sum leaves the byte. */
  function Carry(sum: u16): u16 {
    if sum > 0xFF then sum - 0xFF else sum
  }

  function CarrySum(start: u8, data: seq<u8>): (s: u8) {
    if |data| == 0 then start else Carry(CarrySum(start, data[..|data| - 1]) + data[|data| - 1])
  }

  function Start(pid: u8, ct: ChecksumType): u8 {
    if ct == Enhanced then pid else 0
  }

  function CalcChecksum(pid: u8, data: seq<u8>, ct: ChecksumType): u8 {
    0xFF - CarrySum(Start(pid, ct), data)
  }

  method ComputeChecksum(pid: u8, data: seq<u8>, ct: ChecksumType) returns (checksum: u8)
    ensures checksum == CalcChecksum(pid, data, ct)
    ensures checksum == match ct case Classic => Complement(Total(data)) case Enhanced => Complement(Total(data) + pid)
  {
    var sum: u16 := if ct == Enhanced then pid else 0;
    for k := 0 to |data|
      invariant 0 <= sum <= 0xFF
      invariant sum == CarrySum(Start(pid, ct), data[..k])
    {
      assert data[..k + 1][..k] == data[..k];
      sum := sum + data[k];
      if sum > 0xFF {
        sum := sum - 0xFF;
      }
    }
    assert data[..|data|] == data;
    checksum := 0xFF - sum;
    ChecksumClosedForm(pid, data, ct);
  }

  function Total(data: seq<u8>): nat {
    if |data| == 0 then 0 else Total(data[..|data| - 1]) + data[|data| - 1]
  }

  /** The checksum of data whose covered bytes add up to the given total. */
  function Complement(total: nat): u8 {
    if total == 0 then 0xFF else 0xFE - (total - 1) % 0xFF
  }

  /** The carry-around loop removes whole multiples of 0xFF, and never empties a non-zero sum. */
  lemma {:induction false} Carries(start: u8, data: seq<u8>) returns (n: nat)
    ensures CarrySum(start, data) + 0xFF * n == start + Total(data)
    ensures CarrySum(start, data) == 0 <==> start + Total(data) == 0
  {
    n := 0;
    if |data| > 0 {
      n := Carries(start, data[..|data| - 1]);
      if CarrySum(start, data[..|data| - 1]) + data[|data| - 1] > 0xFF {
        n := n + 1;
      }
    }
  }

  lemma ComplementOf(s: nat, n: nat)
    requires s <= 0xFF && (s == 0 ==> n == 0)
    ensures Complement(s + 0xFF * n) == 0xFF - s
  {
    if s > 0 {
      Residue(s - 1, n);
    }
  }

  lemma Residue(r: nat, n: nat)
    requires r < 0xFF
    ensures (r + 0xFF * n) % 0xFF == r
  {}

  lemma ClosedFrom(start: u8, data: seq<u8>)
    ensures 0xFF - CarrySum(start, data) == Complement(Total(data) + start)
  {
    hide CarrySum, Total, Complement;
    var n := Carries(start, data);
    ComplementOf(CarrySum(start, data), n);
    assert CarrySum(start, data) + 0xFF * n == Total(data) + start;
  }

  /** The carry-around loop has a closed form in the plain sum of the bytes. A Classic checksum
      does not see the protected identifier, an Enhanced one counts it like a byte of data. */
  lemma ChecksumClosedForm(pid: u8, data: seq<u8>, ct: ChecksumType)
    ensures CalcChecksum(pid, data, Classic) == Complement(Total(data))
    ensures CalcChecksum(pid, data, Enhanced) == Complement(Total(data) + pid)
    ensures CalcChecksum(pid, data, ct) == Complement(Total(data) + Start(pid, ct))
  {
    hide CarrySum, Total, Complement;
    ClosedFrom(0, data);
    ClosedFrom(pid, data);
  }

  lemma ComplementCollisions(s: nat, t: nat)
    ensures Complement(s) == Complement(t) <==> s % 0xFF == t % 0xFF && (s == 0 <==> t == 0)
  {
    if s > 0 && t > 0 {
      PredecessorResidue(s);
      PredecessorResidue(t);
    }
  }

  lemma PredecessorResidue(s: nat)
    requires s > 0
    ensures s % 0xFF == if (s - 1) % 0xFF == 0xFE then 0 else (s - 1) % 0xFF + 1
  {
    var r, n := (s - 1) % 0xFF, (s - 1) / 0xFF;
    if r < 0xFE {
      Residue(r + 1, n);
    } else {
      Residue(0, n + 1);
    }
  }

  /** Two inputs collide exactly when their totals agree modulo 255 and are zero together. */
  lemma ChecksumCollisions(p: u8, x: seq<u8>, ct: ChecksumType, q: u8, y: seq<u8>, du: ChecksumType)
    ensures var s, t := Total(x) + Start(p, ct), Total(y) + Start(q, du);
      CalcChecksum(p, x, ct) == CalcChecksum(q, y, du) <==> s % 0xFF == t % 0xFF && (s == 0 <==> t == 0)
  {
    hide CarrySum, Total, Complement;
    ChecksumClosedForm(p, x, ct);
    ChecksumClosedForm(q, y, du);
    ComplementCollisions(Total(x) + Start(p, ct), Total(y) + Start(q, du));
  }

  /** The order of the data bytes is irrelevant. */
  lemma ChecksumIgnoresOrder(pid: u8, x: seq<u8>, y: seq<u8>, ct: ChecksumType)
    requires multiset(x) == multiset(y)
    ensures CalcChecksum(pid, x, ct) == CalcChecksum(pid, y, ct)
  {
    TotalOfMultiset(x, y);
    ChecksumCollisions(pid, x, ct, pid, y, ct);
  }

  lemma {:induction false} TotalOfMultiset(x: seq<u8>, y: seq<u8>)
    requires multiset(x) == multiset(y)
    ensures Total(x) == Total(y)
  {
    if |x| == 0 {
      assert |multiset(y)| == |multiset(x)|;
    } else {
      var front, b := x[..|x| - 1], x[|x| - 1];
      assert x == front + [b] && b in x;
      var before, after := SplitAt(y, b);
      SameRest(front, b, before, after);
      TotalOfMultiset(front, before + after);
      TotalAround(before, b, after);
    }
  }

  lemma SplitAt<T>(y: seq<T>, b: T) returns (before: seq<T>, after: seq<T>)
    requires b in multiset(y)
    ensures y == before + [b] + after
  {
    var i :| 0 <= i < |y| && y[i] == b;
    before, after := y[..i], y[i + 1..];
  }

  lemma SameRest<T>(front: seq<T>, b: T, before: seq<T>, after: seq<T>)
    requires multiset(front + [b]) == multiset(before + [b] + after)
    ensures multiset(front) == multiset(before + after)
  {
    assert multiset(front + [b]) - multiset{b} == multiset(front);
    assert multiset(before + [b] + after) - multiset{b} == multiset(before + after);
  }

  lemma TotalAround(before: seq<u8>, b: u8, after: seq<u8>)
    ensures Total(before + [b] + after) == Total(before + after) + b
  {
    TotalAppend(before, after);
    TotalAppend(before + [b], after);
    TotalSnoc(before, b);
  }

  lemma TotalSnoc(x: seq<u8>, b: u8)
    ensures Total(x + [b]) == Total(x) + b
  {
    assert (x + [b])[..|x|] == x;
  }

  lemma {:induction false} TotalAppend(x: seq<u8>, y: seq<u8>)
    ensures Total(x + y) == Total(x) + Total(y)
  {
    if |y| == 0 {
      assert x + y == x;
    } else {
      TotalAppend(x, y[..|y| - 1]);
      assert x + y == (x + y[..|y| - 1]) + [y[|y| - 1]];
      TotalSnoc(x + y[..|y| - 1], y[|y| - 1]);
    }
  }

  /** A receiver adding the checksum byte to its own sum sees 0xFF for the right byte, and for
      one wrong byte only: 0xFF in place of 0x00 when the data alone sum to 0xFF. */
  lemma ReceiverSum(pid: u8, data: seq<u8>, ct: ChecksumType, c: u8)
    ensures var s := CarrySum(Start(pid, ct), data);
      Carry(s + c) == 0xFF <==> c == CalcChecksum(pid, data, ct) || (s == 0xFF && c == 0xFF)
  {}

  /** Replacing one data byte goes unnoticed exactly when it swaps 0x00 and 0xFF and the other
      covered bytes are not all zero. */
  lemma SingleByteError(pid: u8, data: seq<u8>, ct: ChecksumType, i: nat, b: u8)
    requires i < |data|
    ensures var others := Total(data) + Start(pid, ct) - data[i];
      CalcChecksum(pid, data[i := b], ct) == CalcChecksum(pid, data, ct) <==>
        b == data[i] || (((b == 0x00 && data[i] == 0xFF) || (b == 0xFF && data[i] == 0x00)) && others > 0)
  {
    var x, y := data[..i], data[i + 1..];
    assert data == x + [data[i]] + y && data[i := b] == x + [b] + y;
    TotalAround(x, data[i], y);
    TotalAround(x, b, y);
    ChecksumCollisions(pid, data[i := b], ct, pid, data, ct);
    ResidueSwap(Total(x + y) + Start(pid, ct), b, data[i]);
  }

  lemma ResidueSwap(rest: nat, b: u8, c: u8)
    ensures ((rest + b) % 0xFF == (rest + c) % 0xFF && (rest + b == 0 <==> rest + c == 0))
         == (b == c || (((b == 0 && c == 0xFF) || (b == 0xFF && c == 0)) && rest > 0))
  {
    if (rest + b) % 0xFF == (rest + c) % 0xFF {
      var m, n := (rest + b) / 0xFF, (rest + c) / 0xFF;
      assert b - c == 0xFF * (m - n);
    }
    if b == 0xFF && c == 0 {
      Residue(rest % 0xFF, rest / 0xFF + 1);
    }
    if b == 0 && c == 0xFF {
      Residue(rest % 0xFF, rest / 0xFF + 1);
    }
  }

  /** Whatever the data, different identifiers give different Enhanced checksums, none of them 0xFF. */
  lemma EnhancedSeparatesIds(x: u8, y: u8, data: seq<u8>)
    requires x <= LIN_MAX_ID && y <= LIN_MAX_ID
    ensures CalcChecksum(ProtectId(x), data, Enhanced) != 0xFF
    ensures x != y ==> CalcChecksum(ProtectId(x), data, Enhanced) != CalcChecksum(ProtectId(y), data, Enhanced)
  {
    PidRange(x);
    PidRange(y);
    SeparatedSums(ProtectId(x), ProtectId(y), data);
  }

  lemma SeparatedSums(p: u8, q: u8, data: seq<u8>)
    requires 1 <= p <= 254 && 1 <= q <= 254
    ensures CarrySum(p, data) != 0
    ensures p != q ==> CarrySum(p, data) != CarrySum(q, data)
  {
    hide CarrySum, Total;
    var m := Carries(p, data);
    var n := Carries(q, data);
  }

  // ---------------------------------------------------------------------------
  // Structural validation
  // ---------------------------------------------------------------------------

  predicate IsDiagnostic(id: u8) {
    id == LIN_DIAG_REQUEST_ID || id == LIN_DIAG_RESPONSE_ID
  }

  function ValidateFrame(f: Frame): Result<(), Error> {
    if f.id > LIN_MAX_ID then Err(InvalidFrame)
    else if |f.data| == 0 then Err(InvalidFrame)
    else if |f.data| > LIN_MAX_DATA_LEN then Err(InvalidFrame)
    else if IsDiagnostic(f.id) && f.checksumType != Classic then Err(InvalidFrame)
    else Ok(())
  }

  /** A frame is valid exactly with a six-bit identifier, one to eight bytes of data, and a Classic
      checksum on the two diagnostic identifiers; there is one error for everything else. */
  lemma ValidExactly(f: Frame)
    ensures ValidateFrame(f) == Ok(()) <==>
      f.id < 64 && 1 <= |f.data| <= 8 && (f.id == 60 || f.id == 61 ==> f.checksumType == Classic)
    ensures ValidateFrame(f) != Ok(()) <==> ValidateFrame(f) == Err(InvalidFrame)
  {}
}
