/** Machine integers. An unsigned word is the integer it denotes; its bits are read from the
    integer by division, and every wrap-around or truncation is written out where it happens. */
module Word {

  type u8 = x: int | 0 <= x < 0x100
  type u16 = x: int | 0 <= x < 0x1_0000
  type u32 = x: int | 0 <= x < 0x1_0000_0000

  /** How many values a 64-bit word has. */
  const WORD := 0x1_0000_0000_0000_0000

  function Pow2(n: nat): (p: nat)
    ensures p > 0
  {
    if n == 0 then 1 else 2 * Pow2(n - 1)
  }

  /** The n low bits of x, most significant first. */
  function Bits(x: nat, n: nat): (bits: seq<bool>)
    ensures |bits| == n
  {
    if n == 0 then [] else Bits(x / 2, n - 1) + [x % 2 == 1]
  }

  function XorNat(x: nat, y: nat): nat {
    if x == 0 && y == 0 then 0 else 2 * XorNat(x / 2, y / 2) + (x + y) % 2
  }

  function Xor16(x: u16, y: u16): u16 {
    Pow2Values();
    XorRange(x, y, 16);
    XorNat(x, y)
  }

  /** `x << 1` on sixteen bits. */
  function Shl16(x: u16): u16 {
    2 * x % 0x1_0000
  }

  function U16ToLe(x: u16): (b: seq<u8>)
    ensures |b| == 2
  {
    var low: u8, high: u8 := x % 0x100, x / 0x100;
    [low, high]
  }

  function U16FromLe(b: seq<u8>): u16
    requires |b| == 2
  {
    b[0] as int + 0x100 * (b[1] as int)
  }

  function U32ToLe(x: u32): (b: seq<u8>)
    ensures |b| == 4
  {
    var low: u16, high: u16 := x % 0x1_0000, x / 0x1_0000;
    U16ToLe(low) + U16ToLe(high)
  }

  function U32FromLe(b: seq<u8>): u32
    requires |b| == 4
  {
    U16FromLe(b[..2]) as int + 0x1_0000 * (U16FromLe(b[2..]) as int)
  }

  // ---------------------------------------------------------------------------
  // Little-endian byte strings are a bijection with the words
  // ---------------------------------------------------------------------------

  lemma U16RoundTrip(x: u16, b: seq<u8>)
    requires |b| == 2
    ensures U16FromLe(b) == x <==> b == U16ToLe(x)
  {}

  lemma U32RoundTrip(x: u32, b: seq<u8>)
    requires |b| == 4
    ensures U32FromLe(b) == x <==> b == U32ToLe(x)
  {
    U16RoundTrip(x % 0x1_0000, b[..2]);
    U16RoundTrip(x / 0x1_0000, b[2..]);
    assert b == b[..2] + b[2..];
    var lo: int, hi: int := U16FromLe(b[..2]), U16FromLe(b[2..]);
    assert lo + 0x1_0000 * hi == x <==> lo == x % 0x1_0000 && hi == x / 0x1_0000;
    assert U32ToLe(x)[..2] == U16ToLe(x % 0x1_0000);
    assert U32ToLe(x)[2..] == U16ToLe(x / 0x1_0000);
  }

  // ---------------------------------------------------------------------------
  // Words and their bits
  // ---------------------------------------------------------------------------

  lemma Pow2Values()
    ensures Pow2(4) == 0x10 && Pow2(6) == 0x40 && Pow2(8) == 0x100 && Pow2(15) == 0x8000 && Pow2(16) == 0x1_0000
  {
    assert Pow2(4) == 16;
    assert Pow2(8) == 16 * Pow2(4);
    assert Pow2(12) == 16 * Pow2(8);
  }

  lemma XorNatHalves(x: nat, y: nat)
    ensures XorNat(x, y) / 2 == XorNat(x / 2, y / 2)
    ensures XorNat(x, y) % 2 == (x + y) % 2
  {}

  lemma {:induction false} XorRange(x: nat, y: nat, n: nat)
    requires x < Pow2(n) && y < Pow2(n)
    ensures XorNat(x, y) < Pow2(n)
  {
    if n > 0 && (x != 0 || y != 0) {
      XorRange(x / 2, y / 2, n - 1);
    }
  }

  lemma {:induction false} BitsInjective(x: nat, y: nat, n: nat)
    requires x < Pow2(n) && y < Pow2(n)
    requires Bits(x, n) == Bits(y, n)
    ensures x == y
  {
    if n > 0 {
      assert Bits(x, n)[..n - 1] == Bits(x / 2, n - 1) && Bits(y, n)[..n - 1] == Bits(y / 2, n - 1);
      assert Bits(x, n)[n - 1] == Bits(y, n)[n - 1];
      BitsInjective(x / 2, y / 2, n - 1);
    }
  }

  /** Splitting off the most significant bit. */
  lemma {:induction false} BitsTop(x: nat, n: nat)
    requires x < Pow2(n + 1)
    ensures var low := if x >= Pow2(n) then x - Pow2(n) else x;
            low < Pow2(n) && Bits(x, n + 1) == [x >= Pow2(n)] + Bits(low, n)
  {
    if n > 0 {
      BitsTop(x / 2, n - 1);
      var low := if x >= Pow2(n) then x - Pow2(n) else x;
      assert low / 2 == if x / 2 >= Pow2(n - 1) then x / 2 - Pow2(n - 1) else x / 2;
      assert low % 2 == x % 2;
    } else {
      assert Pow2(1) == 2;
    }
  }

  /** The bits of two words side by side. */
  lemma {:induction false} BitsJoin(x: nat, y: nat, n: nat, k: nat)
    requires y < Pow2(k)
    ensures Bits(x * Pow2(k) + y, n + k) == Bits(x, n) + Bits(y, k)
  {
    if k > 0 {
      BitsJoin(x, y / 2, n, k - 1);
      var z := x * Pow2(k) + y;
      Doubling(x, k);
      Halving(x * Pow2(k - 1), y);
      hide Pow2;
      assert Bits(z, n + k) == Bits(z / 2, n + k - 1) + [z % 2 == 1];
    }
  }

  lemma Halving(half: nat, y: nat)
    ensures (2 * half + y) / 2 == half + y / 2 && (2 * half + y) % 2 == y % 2
  {}

  lemma Doubling(x: nat, k: nat)
    requires k > 0
    ensures x * Pow2(k) == 2 * (x * Pow2(k - 1))
  {}

  lemma {:induction false} BitsOfZero(n: nat)
    ensures Bits(0, n) == seq(n, _ => false)
  {
    if n > 0 {
      BitsOfZero(n - 1);
    }
  }

  // ---------------------------------------------------------------------------
  // Products and quotients
  // ---------------------------------------------------------------------------

  lemma Associate(x: nat, y: nat, z: nat)
    ensures (x * y) * z == x * (y * z)
  {}

  lemma Distribute(m: nat, n: nat, p: nat, s: nat)
    ensures m * (n * p + s) == (m * n) * p + m * s
  {}

  lemma NextMultiple(m: nat, a: nat, b: nat)
    requires a > b
    ensures m * a >= m * b + m
  {
    var d := a - b - 1;
    Associate(m, d, 1);
    Distribute(m, 1, b, d + 1);
    Distribute(m, 1, d, 1);
  }

  lemma QuotientOf(x: nat, m: nat, q: nat, r: nat)
    requires x == m * q + r && r < m
    ensures x / m == q && x % m == r
  {
    assert m * (x / m) + x % m == x;
    if x / m > q {
      NextMultiple(m, x / m, q);
    } else if q > x / m {
      NextMultiple(m, q, x / m);
    }
  }
}
