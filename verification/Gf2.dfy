/** Polynomials over GF(2), the arithmetic in which a cyclic redundancy check is defined.
    A polynomial is the finite set of the exponents whose coefficient is one, so set
    equality is polynomial equality and addition is symmetric difference. */
module Gf2 {

  type Poly = set<nat>

  /** Addition, and also subtraction: every coefficient is its own negative. */
  function Add(p: Poly, q: Poly): Poly {
    (p - q) + (q - p)
  }

  function MulX(p: Poly): Poly {
    set e | e in p :: e + 1
  }

  function MulXn(p: Poly, n: nat): Poly {
    if n == 0 then p else MulX(MulXn(p, n - 1))
  }

  /** The polynomial g when the bit is one, and zero otherwise. */
  function Scale(b: bool, g: Poly): Poly {
    if b then g else {}
  }

  /** The coefficient of x^e when the bits are read most significant first. */
  predicate Coefficient(bits: seq<bool>, e: nat) {
    e < |bits| && bits[|bits| - 1 - e]
  }

  function PolyOf(bits: seq<bool>): Poly {
    set e: nat | e < |bits| && Coefficient(bits, e)
  }

  /** The product of PolyOf(q) and g, by Horner's rule. */
  function Times(q: seq<bool>, g: Poly): Poly {
    if |q| == 0 then {} else Add(MulX(Times(q[..|q| - 1], g)), Scale(q[|q| - 1], g))
  }

  /** r is the remainder of p modulo g, a polynomial of degree n: p = q * g + r with deg r < n. */
  ghost predicate IsRemainder(p: Poly, g: Poly, n: nat, r: Poly) {
    && (forall e | e in r :: e < n)
    && exists q: seq<bool> :: p == Add(Times(q, g), r)
  }

  /** Four summands may be paired either way. */
  lemma AddSwap(p: Poly, q: Poly, r: Poly, s: Poly)
    ensures Add(Add(p, q), Add(r, s)) == Add(Add(p, r), Add(q, s))
  {}

  lemma MulXAdd(p: Poly, q: Poly)
    ensures MulX(Add(p, q)) == Add(MulX(p), MulX(q))
  {
    forall e: nat
      ensures e in MulX(Add(p, q)) <==> e in Add(MulX(p), MulX(q))
    {
      assert forall s: Poly :: e in MulX(s) <==> e >= 1 && e - 1 in s;
    }
  }

  lemma {:induction false} MulXnAdd(p: Poly, q: Poly, n: nat)
    ensures MulXn(Add(p, q), n) == Add(MulXn(p, n), MulXn(q, n))
  {
    if n > 0 {
      MulXnAdd(p, q, n - 1);
      MulXAdd(MulXn(p, n - 1), MulXn(q, n - 1));
    }
  }

  /** Reading one more coefficient multiplies by x and adds the coefficient. */
  lemma PolyOfSnoc(bits: seq<bool>, b: bool)
    ensures PolyOf(bits + [b]) == Add(MulX(PolyOf(bits)), Scale(b, {0}))
  {
    var all := bits + [b];
    forall e: nat
      ensures e in PolyOf(all) <==> e in Add(MulX(PolyOf(bits)), Scale(b, {0}))
    {
      if e > 0 && e < |all| {
        assert all[|all| - 1 - e] == bits[|bits| - 1 - (e - 1)];
      }
      assert e in MulX(PolyOf(bits)) <==> e >= 1 && e - 1 in PolyOf(bits);
    }
  }

  function Xor(x: seq<bool>, y: seq<bool>): (z: seq<bool>)
    requires |x| == |y|
    ensures |z| == |x|
  {
    seq(|x|, i requires 0 <= i < |x| => x[i] != y[i])
  }

  function Zeros(n: nat): (z: seq<bool>)
    ensures |z| == n
  {
    seq(n, _ => false)
  }

  /** Multiplication by g is additive in its other factor. */
  lemma {:induction false} TimesXor(q: seq<bool>, s: seq<bool>, g: Poly)
    requires |q| == |s|
    ensures Times(Xor(q, s), g) == Add(Times(q, g), Times(s, g))
  {
    if |q| > 0 {
      var n := |q| - 1;
      assert Xor(q, s)[..n] == Xor(q[..n], s[..n]);
      TimesXor(q[..n], s[..n], g);
      MulXAdd(Times(q[..n], g), Times(s[..n], g));
      assert Scale(q[n] != s[n], g) == Add(Scale(q[n], g), Scale(s[n], g));
      AddSwap(MulX(Times(q[..n], g)), MulX(Times(s[..n], g)), Scale(q[n], g), Scale(s[n], g));
    }
  }

  /** Leading zero coefficients do not change a product. */
  lemma {:induction false} TimesPad(k: nat, q: seq<bool>, g: Poly)
    ensures Times(Zeros(k) + q, g) == Times(q, g)
    decreases k + |q|
  {
    var z := Zeros(k) + q;
    if |q| > 0 {
      assert z[..|z| - 1] == Zeros(k) + q[..|q| - 1];
      TimesPad(k, q[..|q| - 1], g);
    } else if k > 0 {
      assert z[..|z| - 1] == Zeros(k - 1) + [];
      TimesPad(k - 1, [], g);
    }
  }

  /** A product with a divisor of degree n is zero or has degree at least n. */
  lemma {:induction false} TimesDegree(q: seq<bool>, g: Poly, n: nat)
    requires n in g && forall e | e in g :: e <= n
    requires |q| > 0 && q[0]
    ensures |q| - 1 + n in Times(q, g)
  {
    var m := |q| - 1;
    if m > 0 {
      TimesDegree(q[..m], g, n);
      assert m - 1 + n + 1 in MulX(Times(q[..m], g));
    } else {
      assert Times(q[..0], g) == {};
    }
  }

  lemma {:induction false} SmallProductIsZero(q: seq<bool>, g: Poly, n: nat)
    requires n in g && forall e | e in g :: e <= n
    requires forall e | e in Times(q, g) :: e < n
    ensures Times(q, g) == {}
  {
    if |q| > 0 {
      if q[0] {
        TimesDegree(q, g, n);
        assert false;
      } else {
        assert q == Zeros(1) + q[1..];
        TimesPad(1, q[1..], g);
        SmallProductIsZero(q[1..], g, n);
      }
    }
  }

  /** Division leaves one remainder only, so IsRemainder determines r. */
  lemma RemainderUnique(p: Poly, g: Poly, n: nat, r: Poly, s: Poly)
    requires n in g && forall e | e in g :: e <= n
    requires IsRemainder(p, g, n, r) && IsRemainder(p, g, n, s)
    ensures r == s
  {
    var u: seq<bool> :| p == Add(Times(u, g), r);
    var v: seq<bool> :| p == Add(Times(v, g), s);
    var d := DifferenceIsProduct(u, v, g);
    var x, y := Times(u, g), Times(v, g);
    assert Add(x, y) == Add(r, s) by { SameSum(x, r, y, s); }
    SmallProductIsZero(d, g, n);
    forall e ensures e in r <==> e in s {
      assert e !in Add(r, s);
    }
  }

  lemma SameSum(x: Poly, r: Poly, y: Poly, s: Poly)
    requires Add(x, r) == Add(y, s)
    ensures Add(x, y) == Add(r, s)
  {
    forall e ensures e in Add(x, y) <==> e in Add(r, s) {
      assert e in Add(x, r) <==> e in Add(y, s);
    }
  }

  lemma DifferenceIsProduct(u: seq<bool>, v: seq<bool>, g: Poly) returns (d: seq<bool>)
    ensures Times(d, g) == Add(Times(u, g), Times(v, g))
  {
    var k := if |u| >= |v| then |u| else |v|;
    TimesPad(k - |u|, u, g);
    TimesPad(k - |v|, v, g);
    var a, b := Zeros(k - |u|) + u, Zeros(k - |v|) + v;
    TimesXor(a, b, g);
    d := Xor(a, b);
  }
}
