/** The string operations the parsers rely on, on sequences of characters. */
module Text {
  import opened Wrappers

  /** The Unicode White_Space characters. */
  predicate IsSpace(c: char) {
    || '\U{0009}' <= c <= '\U{000D}' || c == ' ' || c == '\U{0085}' || c == '\U{00A0}' || c == '\U{1680}'
    || '\U{2000}' <= c <= '\U{200A}' || c == '\U{2028}' || c == '\U{2029}' || c == '\U{202F}' || c == '\U{205F}'
    || c == '\U{3000}'
  }

  function TrimStart(s: string): (r: string)
    ensures |r| <= |s|
  {
    if |s| > 0 && IsSpace(s[0]) then TrimStart(s[1..]) else s
  }

  function TrimEnd(s: string): (r: string)
    ensures |r| <= |s|
  {
    if |s| > 0 && IsSpace(s[|s| - 1]) then TrimEnd(s[..|s| - 1]) else s
  }

  function Trim(s: string): string {
    TrimEnd(TrimStart(s))
  }

  /** Every trailing c removed. */
  function TrimEndOf(s: string, c: char): string {
    if |s| > 0 && s[|s| - 1] == c then TrimEndOf(s[..|s| - 1], c) else s
  }

  /** Every leading repetition of p removed. */
  function TrimStartOf(s: string, p: string): string
    requires |p| > 0
  {
    if p <= s then TrimStartOf(s[|p|..], p) else s
  }

  function Find(s: string, c: char): (r: Option<nat>)
    ensures match r case None => c !in s case Some(i) => i < |s| && s[i] == c && c !in s[..i]
  {
    if |s| == 0 then None
    else if s[0] == c then Some(0)
    else
      match Find(s[1..], c)
      case None => None
      case Some(i) => Some(i + 1)
  }

  /** The pieces between the separators; there is always at least one. */
  function Split(s: string, c: char): (parts: seq<string>)
    ensures |parts| >= 1
  {
    match Find(s, c)
    case None => [s]
    case Some(i) => [s[..i]] + Split(s[i + 1..], c)
  }

  /** At most n pieces, the last of which keeps the remaining separators. */
  function SplitN(s: string, n: nat, c: char): (parts: seq<string>)
    requires n >= 1
    ensures 1 <= |parts| <= n
  {
    if n == 1 then [s]
    else
      match Find(s, c)
      case None => [s]
      case Some(i) => [s[..i]] + SplitN(s[i + 1..], n - 1, c)
  }

  /** The trimmed pieces that are not empty. */
  function Names(parts: seq<string>): seq<string> {
    if |parts| == 0 then []
    else (if Trim(parts[0]) == [] then [] else [Trim(parts[0])]) + Names(parts[1..])
  }

  /** The leading characters up to the first white space. */
  function FirstWord(s: string): (r: string)
    ensures |r| <= |s|
    ensures |s| > 0 && !IsSpace(s[0]) ==> |r| > 0
  {
    if |s| == 0 || IsSpace(s[0]) then [] else [s[0]] + FirstWord(s[1..])
  }

  /** The pieces between stretches of white space, none of them empty. */
  function Words(s: string): seq<string>
    decreases |s|
  {
    var t := TrimStart(s);
    if |t| == 0 then []
    else
      TrimStartStops(s);
      [FirstWord(t)] + Words(t[|FirstWord(t)|..])
  }

  lemma TrimStartStops(s: string)
    ensures |TrimStart(s)| > 0 ==> !IsSpace(TrimStart(s)[0])
  {}

  function Lower(c: char): char {
    if 'A' <= c <= 'Z' then c + ' ' else c
  }

  predicate EqIgnoreAsciiCase(s: string, t: string) {
    |s| == |t| && forall i | 0 <= i < |s| :: Lower(s[i]) == Lower(t[i])
  }

  /** The text before the first occurrence of two slashes in a row. */
  function BeforeComment(s: string): string {
    if |s| == 0 || "//" <= s then [] else [s[0]] + BeforeComment(s[1..])
  }

  // ---------------------------------------------------------------------------
  // Numbers
  // ---------------------------------------------------------------------------

  function Digit(c: char, radix: nat): Option<nat> {
    var d := if '0' <= c <= '9' then c as nat - '0' as nat
             else if 'a' <= c <= 'z' then c as nat - 'a' as nat + 10
             else if 'A' <= c <= 'Z' then c as nat - 'A' as nat + 10
             else 36;
    if d < radix then Some(d) else None
  }

  /** The value of a non-empty string of digits. */
  function Magnitude(s: string, radix: nat): Option<nat> {
    if |s| == 0 then None
    else
      var last := Digit(s[|s| - 1], radix);
      if last.None? then None
      else if |s| == 1 then last
      else
        match Magnitude(s[..|s| - 1], radix)
        case None => None
        case Some(high) => Some(high * radix + last.value)
  }

  /** Parsing an unsigned word: an optional plus sign, digits, and no overflow. */
  function ParseUnsigned(s: string, radix: nat, bound: nat): (r: Option<nat>)
    ensures r.Some? ==> r.value < bound
  {
    match Magnitude(if |s| > 0 && s[0] == '+' then s[1..] else s, radix)
    case None => None
    case Some(m) => if m < bound then Some(m) else None
  }

  /** Parsing a two's complement word with -bound as its least value. */
  function ParseSigned(s: string, radix: nat, bound: nat): (r: Option<int>)
    requires bound > 0
    ensures r.Some? ==> 0 - bound <= r.value < bound
  {
    if |s| > 0 && s[0] == '-' then
      match Magnitude(s[1..], radix)
      case None => None
      case Some(m) => if m <= bound then Some(0 - m) else None
    else
      ParseUnsigned(s, radix, bound)
  }

  function DigitChar(d: nat): (c: char)
    requires d < 10
    ensures Digit(c, 10) == Some(d) && '0' <= c <= '9'
  {
    d as char + '0'
  }

  /** Decimal notation without leading zeros. */
  function Decimal(n: nat): (s: string)
    ensures |s| > 0
  {
    if n < 10 then [DigitChar(n)] else Decimal(n / 10) + [DigitChar(n % 10)]
  }

  lemma {:induction false} DecimalReadsBack(n: nat)
    ensures Magnitude(Decimal(n), 10) == Some(n)
  {
    if n >= 10 {
      DecimalReadsBack(n / 10);
      assert Decimal(n)[..|Decimal(n)| - 1] == Decimal(n / 10);
    }
  }

  lemma {:induction false} DecimalIsDigits(n: nat)
    ensures forall c | c in Decimal(n) :: '0' <= c <= '9'
  {
    if n >= 10 {
      DecimalIsDigits(n / 10);
    }
  }

  // ---------------------------------------------------------------------------
  // Numbers are read by position, in either case
  // ---------------------------------------------------------------------------

  const LOWER_DIGITS := "0123456789abcdef"
  const UPPER_DIGITS := "0123456789ABCDEF"

  lemma DigitExactly(c: char, radix: nat, d: nat)
    requires radix <= 16
    ensures Digit(c, radix) == Some(d) <==> d < radix && (c == LOWER_DIGITS[d] || c == UPPER_DIGITS[d])
  {}

  function Power(b: nat, e: nat): nat {
    if e == 0 then 1 else b * Power(b, e - 1)
  }

  predicate AllDigits(s: string, radix: nat) {
    forall i | 0 <= i < |s| :: Digit(s[i], radix).Some?
  }

  /** Each digit times the power of the radix for its position, the last position counting one. */
  function DigitSum(s: string, radix: nat): nat
    requires AllDigits(s, radix)
  {
    if |s| == 0 then 0 else Digit(s[0], radix).value * Power(radix, |s| - 1) + DigitSum(s[1..], radix)
  }

  lemma {:induction false} DigitSumSnoc(s: string, radix: nat)
    requires |s| > 0 && AllDigits(s, radix)
    ensures DigitSum(s, radix) == DigitSum(s[..|s| - 1], radix) * radix + Digit(s[|s| - 1], radix).value
  {
    hide Digit;
    if |s| > 1 {
      var front := s[..|s| - 1];
      DigitSumSnoc(s[1..], radix);
      assert s[1..][..|s| - 2] == front[1..];
      Shifted(Digit(s[0], radix).value, Power(radix, |s| - 2), radix, DigitSum(front[1..], radix));
    } else {
      assert s[1..] == [];
    }
  }

  lemma Shifted(d: nat, p: nat, radix: nat, rest: nat)
    ensures d * (radix * p) + rest * radix == (d * p + rest) * radix
  {}

  /** A string is a number exactly when it is not empty and all digits, and then it is the sum of
      its digits by position. */
  lemma {:induction false} PositionalValue(s: string, radix: nat)
    ensures Magnitude(s, radix)
      == if |s| > 0 && AllDigits(s, radix) then Some(DigitSum(s, radix)) else None
  {
    hide Digit;
    if |s| > 0 {
      var front := s[..|s| - 1];
      PositionalValue(front, radix);
      if AllDigits(s, radix) {
        DigitSumSnoc(s, radix);
      } else if AllDigits(front, radix) {
        assert s == front + [s[|s| - 1]];
      }
    }
  }

  lemma SameDigit(c: char, d: char, radix: nat)
    requires Lower(c) == Lower(d)
    ensures Digit(c, radix) == Digit(d, radix)
  {}

  lemma {:induction false} SameMagnitude(s: string, t: string, radix: nat)
    requires EqIgnoreAsciiCase(s, t)
    ensures Magnitude(s, radix) == Magnitude(t, radix)
  {
    hide Digit, Lower;
    if |s| > 0 {
      SameDigit(s[|s| - 1], t[|t| - 1], radix);
      SameMagnitude(s[..|s| - 1], t[..|t| - 1], radix);
    }
  }

  function HexChar(d: nat): (c: char)
    requires d < 16
    ensures Digit(c, 16) == Some(d) && ('0' <= c <= '9' || 'a' <= c <= 'f')
  {
    if d < 10 then d as char + '0' else (d - 10) as char + 'a'
  }

  /** Hexadecimal notation without leading zeros. */
  function Hex(n: nat): (s: string)
    ensures |s| > 0
  {
    if n < 16 then [HexChar(n)] else Hex(n / 16) + [HexChar(n % 16)]
  }

  lemma {:induction false} HexReadsBack(n: nat)
    ensures Magnitude(Hex(n), 16) == Some(n)
  {
    if n >= 16 {
      HexReadsBack(n / 16);
      assert Hex(n)[..|Hex(n)| - 1] == Hex(n / 16);
    }
  }

  lemma {:induction false} HexIsDigits(n: nat)
    ensures forall c | c in Hex(n) :: '0' <= c <= '9' || 'a' <= c <= 'f'
  {
    if n >= 16 {
      HexIsDigits(n / 16);
    }
  }

  /** No leading zeros. */
  lemma {:induction false} DecimalIsShort(n: nat)
    ensures Decimal(0) == "0" && (n > 0 ==> Decimal(n)[0] != '0')
  {
    assert Digit('0', 10) == Some(0);
    if n >= 10 {
      DecimalIsShort(n / 10);
    }
  }

  /** Printing an unsigned word and parsing it gives it back when it fits. */
  lemma ParsePrinted(n: nat, bound: nat)
    requires bound > 0
    ensures ParseUnsigned(Decimal(n), 10, bound) == if n < bound then Some(n) else None
    ensures ParseSigned(Decimal(n), 10, bound) == if n < bound then Some(n) else None
    ensures ParseSigned(['-'] + Decimal(n), 10, bound) == if n <= bound then Some(0 - n) else None
  {
    DecimalReadsBack(n);
    DecimalIsDigits(n);
    var s := Decimal(n);
    assert s[0] in s;
    assert (['-'] + s)[1..] == s;
  }

  /** The same for hexadecimal digits in any mixture of cases. */
  lemma ParsePrintedHex(n: nat, digits: string, bound: nat)
    requires bound > 0 && EqIgnoreAsciiCase(digits, Hex(n))
    ensures ParseSigned(digits, 16, bound) == if n < bound then Some(n) else None
    ensures forall c | c in digits :: '0' <= c <= '9' || 'a' <= c <= 'f' || 'A' <= c <= 'F'
  {
    hide Magnitude, Hex, Digit;
    HexReadsBack(n);
    HexIsDigits(n);
    SameMagnitude(digits, Hex(n), 16);
    forall i | 0 <= i < |digits|
      ensures '0' <= digits[i] <= '9' || 'a' <= digits[i] <= 'f' || 'A' <= digits[i] <= 'F'
    {
      assert Hex(n)[i] in Hex(n);
      assert Lower(digits[i]) == Lower(Hex(n)[i]);
    }
    assert |digits| == |Hex(n)| > 0 && digits[0] in digits;
  }

  /** A sign may stand in front: a plus for either kind of word, a minus for signed words only. A
      sign alone is no number. */
  lemma Signs(s: string, radix: nat, bound: nat)
    requires bound > 0 && AllDigits(s, radix) && |s| > 0 && radix <= 36
    ensures var n := DigitSum(s, radix);
      && ParseUnsigned(s, radix, bound) == ParseUnsigned(['+'] + s, radix, bound)
      && ParseUnsigned(s, radix, bound) == (if n < bound then Some(n) else None)
      && ParseUnsigned(['-'] + s, radix, bound) == None
      && ParseSigned(s, radix, bound) == ParseSigned(['+'] + s, radix, bound)
      && ParseSigned(s, radix, bound) == (if n < bound then Some(n) else None)
      && ParseSigned(['-'] + s, radix, bound) == (if n <= bound then Some(0 - n) else None)
    ensures ParseUnsigned("+", radix, bound) == ParseSigned("+", radix, bound) == ParseSigned("-", radix, bound) == None
  {
    hide Magnitude, DigitSum, Digit;
    SignsAreNoDigits(radix);
    PositionalValue([], radix);
    PositionalValue(s, radix);
    PositionalValue(['-'] + s, radix);
    assert (['+'] + s)[1..] == s && (['-'] + s)[1..] == s && "+"[1..] == "-"[1..] == [];
    assert !AllDigits(['-'] + s, radix) by { assert (['-'] + s)[0] == '-'; }
    PositionalValue("-", radix);
    assert !AllDigits("-", radix) by { assert "-"[0] == '-'; }
    assert s[0] != '+' && s[0] != '-';
  }

  lemma SignsAreNoDigits(radix: nat)
    requires radix <= 36
    ensures Digit('+', radix) == None && Digit('-', radix) == None
  {}
}
