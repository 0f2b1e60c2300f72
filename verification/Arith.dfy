/** Arithmetic and set sizes shared by the components: rounding division, its monotonicity,
    and products of strides. Every helper is stated for exactly the sign domain it is used on. */
module Arith {

  function Max(a: int, b: int): (m: int)
    ensures m >= a && m >= b && (m == a || m == b)
  {
    if a < b then b else a
  }

  function Min(a: int, b: int): (m: int)
    ensures m <= a && m <= b && (m == a || m == b)
  {
    if a < b then a else b
  }

  /** Some element of a non-empty set. */
  ghost function Pick<T>(s: set<T>): (x: T)
    requires s != {}
    ensures x in s
  {
    var x :| x in s;
    x
  }

  lemma {:induction false} SubsetSize<T>(a: set<T>, b: set<T>)
    requires a <= b
    ensures |a| <= |b|
    decreases |b|
  {
    if a != {} {
      var x := Pick(a);
      SubsetSize(a - {x}, b - {x});
    }
  }

  /** Python's -(-a // b) for a positive divisor. */
  function CeilDiv(a: int, b: int): (q: int)
    requires b > 0
  {
    -((-a) / b)
  }

  /** Division is determined by its defining equation. */
  lemma DivModUnique(n: int, d: int, q: int, r: int)
    requires 0 <= r < d && n == q * d + r
    ensures n / d == q && n % d == r
  {
    var k := n / d - q;
    assert k * d == r - n % d by {
      assert n == n / d * d + n % d;
    }
    assert k >= 1 ==> k * d >= d;
    assert k <= -1 ==> k * d <= -d;
  }

  /** CeilDiv(a, b) is the least q with q * b >= a. */
  lemma CeilDivBounds(a: int, b: int)
    requires b > 0
    ensures (CeilDiv(a, b) - 1) * b < a <= CeilDiv(a, b) * b
    ensures a >= 0 ==> CeilDiv(a, b) >= 0
    ensures a > 0 ==> CeilDiv(a, b) >= 1
  {
    var q := (-a) / b;
    assert -a == q * b + (-a) % b;
    assert CeilDiv(a, b) * b == -(q * b);
    assert (CeilDiv(a, b) - 1) * b == -(q * b) - b;
    assert q >= 0 ==> q * b >= 0;
    assert q >= 1 ==> q * b >= b;
  }

  lemma CeilDivLeast(a: int, b: int, q: int)
    requires b > 0
    ensures q * b >= a <==> q >= CeilDiv(a, b)
  {
    CeilDivBounds(a, b);
    if q >= CeilDiv(a, b) {
      MulMono(CeilDiv(a, b), q, b);
    } else {
      MulMono(q, CeilDiv(a, b) - 1, b);
    }
  }

  lemma MulMono(x: int, y: int, b: int)
    requires x <= y && b >= 0
    ensures x * b <= y * b
  {
    assert (y - x) * b >= 0;
    assert (y - x) * b == y * b - x * b;
  }

  /** More parts, smaller parts; more to divide, larger parts. */
  lemma CeilDivMono(a: int, b: int, a': int, b': int)
    requires 0 <= a <= a' && b >= b' > 0
    ensures CeilDiv(a, b) <= CeilDiv(a', b')
  {
    var q := CeilDiv(a', b');
    CeilDivBounds(a', b');
    assert q * b >= q * b' by { MulMono(b', b, q); }
    CeilDivLeast(a, b, q);
  }

  /** Exact multiples divide without remainder. */
  lemma DivExact(q: int, d: int)
    requires d > 0
    ensures (q * d) / d == q && (q * d) % d == 0 && CeilDiv(q * d, d) == q
  {
    DivModUnique(q * d, d, q, 0);
    assert -(q * d) == (-q) * d;
    DivModUnique(-(q * d), d, -q, 0);
  }

  lemma CeilAtMost(n: int, d: int)
    requires n >= 0 && d >= 1
    ensures CeilDiv(n, d) <= n
  {
    CeilDivMono(n, d, n, 1);
    DivExact(n, 1);
  }

  function Pow2(i: nat): nat {
    if i == 0 then 1 else 2 * Pow2(i - 1)
  }

  lemma {:induction false} Pow2Positive(i: nat)
    ensures Pow2(i) >= 1
  {
    if i > 0 { Pow2Positive(i - 1); }
  }
}
