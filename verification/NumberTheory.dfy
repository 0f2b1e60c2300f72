/** Number theory behind the engram bucket sizes: Euclid's lemma, Fermat's little theorem,
    square roots of one modulo a prime, and the infinitude of primes. */
module NumberTheory {
  import opened Arith

  predicate Divides(d: int, n: int)
    requires d != 0
  {
    n % d == 0
  }

  ghost predicate IsPrime(n: int) {
    2 <= n && forall m :: 2 <= m < n ==> !Divides(m, n)
  }

  function Pow(b: int, e: nat): int {
    if e == 0 then 1 else b * Pow(b, e - 1)
  }

  lemma DividesMultiple(d: int, q: int)
    requires d > 0
    ensures Divides(d, q * d) && Divides(d, d * q)
  {
    DivModUnique(q * d, d, q, 0);
  }

  lemma DividesProduct(d: int, a: int, b: int)
    requires d > 0 && Divides(d, a)
    ensures Divides(d, a * b) && Divides(d, b * a)
  {
    assert a * b == (a / d * b) * d;
    DividesMultiple(d, a / d * b);
  }

  lemma DividesLinear(d: int, a: int, b: int, k: int)
    requires d > 0 && Divides(d, a) && Divides(d, b)
    ensures Divides(d, a - k * b) && Divides(d, a + b)
  {
    assert a - k * b == (a / d - k * (b / d)) * d;
    assert a + b == (a / d + b / d) * d;
    DividesMultiple(d, a / d - k * (b / d));
    DividesMultiple(d, a / d + b / d);
  }

  /** a is congruent to b exactly when d divides the difference. */
  lemma ModEqDivides(a: int, b: int, d: int)
    requires d > 0
    ensures a % d == b % d <==> Divides(d, a - b)
  {
    assert a == a / d * d + a % d && b == b / d * d + b % d;
    if a % d == b % d {
      assert a - b == (a / d - b / d) * d;
      DividesMultiple(d, a / d - b / d);
    }
    if Divides(d, a - b) {
      DivModUnique(a, d, b / d + (a - b) / d, b % d);
    }
  }

  ghost predicate Congruent(a: int, b: int, d: int)
    requires d > 0
  {
    a % d == b % d
  }

  lemma ModMul(a: int, b: int, d: int)
    requires d > 0
    ensures (a % d * b) % d == (a * b) % d
    ensures (a * (b % d)) % d == (a * b) % d
  {
    assert a * b - a % d * b == (a / d * b) * d;
    assert a * b - a * (b % d) == (a * (b / d)) * d;
    DividesMultiple(d, a / d * b);
    DividesMultiple(d, a * (b / d));
    ModEqDivides(a * b, a % d * b, d);
    ModEqDivides(a * b, a * (b % d), d);
  }

  /** Euclid's lemma, by descent on the first factor. */
  lemma {:induction false} EuclidDescent(p: int, a: int, b: int)
    requires IsPrime(p) && 0 < a < p && Divides(p, a * b)
    ensures Divides(p, b)
    decreases a
  {
    if a > 1 {
      assert !Divides(a, p);
      var q, r := p / a, p % a;
      assert r * b == p * b - q * (a * b);
      DividesMultiple(p, b);
      DividesLinear(p, p * b, a * b, q);
      EuclidDescent(p, r, b);
    }
  }

  lemma EuclidLemma(p: int, a: int, b: int)
    requires IsPrime(p) && Divides(p, a * b)
    ensures Divides(p, a) || Divides(p, b)
  {
    if !Divides(p, a) {
      ModMul(a, b, p);
      EuclidDescent(p, a % p, b);
    }
  }

  lemma {:induction false} PowAdd(b: int, m: nat, n: nat)
    ensures Pow(b, m + n) == Pow(b, m) * Pow(b, n)
  {
    if m > 0 {
      PowAdd(b, m - 1, n);
      assert b * (Pow(b, m - 1) * Pow(b, n)) == b * Pow(b, m - 1) * Pow(b, n);
    }
  }

  /** Product of a finite set, taken in an arbitrary order. */
  ghost function Product(s: set<int>): int {
    if s == {} then 1 else
      var x := Pick(s);
      x * Product(s - {x})
  }

  lemma {:induction false} ProductRemove(s: set<int>, x: int)
    requires x in s
    ensures Product(s) == x * Product(s - {x})
    decreases |s|
  {
    var y := Pick(s);
    if y != x {
      ProductRemove(s - {y}, x);
      ProductRemove(s - {x}, y);
      assert s - {y} - {x} == s - {x} - {y};
      SwapFactors(x, y, Product(s - {x} - {y}));
    }
  }

  lemma SwapFactors(x: int, y: int, rest: int)
    ensures y * (x * rest) == x * (y * rest)
  {
  }

  ghost function Scaled(a: int, p: int, s: set<int>): set<int>
    requires p > 0
  {
    set x | x in s :: a * x % p
  }

  lemma ScaledInjective(a: int, p: int, x: int, y: int)
    requires IsPrime(p) && !Divides(p, a) && 0 < x < p && 0 < y < p
    requires a * x % p == a * y % p
    ensures x == y
  {
    ModEqDivides(a * x, a * y, p);
    assert a * x - a * y == a * (x - y);
    EuclidLemma(p, a, x - y);
    ModEqDivides(x, y, p);
    DivModUnique(x, p, 0, x);
    DivModUnique(y, p, 0, y);
  }

  /** A further residue is scaled to a further one. */
  lemma FreshResidue(a: int, p: int, t: set<int>, x: int)
    requires IsPrime(p) && !Divides(p, a) && 0 < x < p && x !in t && forall z :: z in t ==> 0 < z < p
    ensures 0 < a * x % p < p && a * x % p !in Scaled(a, p, t)
  {
    var y := a * x % p;
    forall z | z in t ensures a * z % p != y {
      if a * z % p == y { ScaledInjective(a, p, z, x); }
    }
    if y == 0 { EuclidLemma(p, a, x); DivModUnique(x, p, 0, x); }
  }

  /** Multiplying every residue by a permutes them and multiplies the product by a power of a. */
  lemma {:induction false} ScaledProduct(a: int, p: int, s: set<int>)
    requires IsPrime(p) && !Divides(p, a)
    requires forall x :: x in s ==> 0 < x < p
    ensures |Scaled(a, p, s)| == |s|
    ensures forall y :: y in Scaled(a, p, s) ==> 0 < y < p
    ensures Congruent(Product(Scaled(a, p, s)), Pow(a, |s|) * Product(s), p)
    decreases |s|
  {
    if s == {} {
      assert Scaled(a, p, s) == {};
    } else {
      var x := Pick(s);
      var t, y := s - {x}, a * x % p;
      ScaledProduct(a, p, t);
      FreshResidue(a, p, t, x);
      assert s == t + {x};
      assert Scaled(a, p, s) == Scaled(a, p, t) + {y};
      assert Scaled(a, p, s) - {y} == Scaled(a, p, t);
      ProductRemove(Scaled(a, p, s), y);
      ProductRemove(s, x);
      assert |s| == |t| + 1;
      ScaledStep(a, x, Pow(a, |t|), Product(t), Product(Scaled(a, p, t)), p);
    }
  }

  lemma ScaledStep(a: int, x: int, w: int, q: int, scaled: int, p: int)
    requires p > 0 && Congruent(scaled, w * q, p)
    ensures Congruent(a * x % p * scaled, a * w * (x * q), p)
  {
    ModMul(a * x, scaled, p);
    ModMul(a * x, w * q, p);
    Rearrange(a, x, w, q);
  }

  lemma Rearrange(a: int, x: int, w: int, q: int)
    ensures a * x * (w * q) == a * w * (x * q)
  {
    var aw := a * w;
    assert a * x * (w * q) == aw * x * q;
  }

  /** The non-zero residues 1 .. p - 1. */
  ghost function Residues(p: int): (s: set<int>)
    ensures forall x :: x in s <==> 0 < x < p
    ensures p >= 1 ==> |s| == p - 1
    decreases Max(p, 0)
  {
    if p <= 1 then {} else Residues(p - 1) + {p - 1}
  }

  lemma {:induction false} ProductCoprime(p: int, s: set<int>)
    requires IsPrime(p) && forall x :: x in s ==> 0 < x < p
    ensures !Divides(p, Product(s))
    decreases |s|
  {
    if s != {} {
      var x := Pick(s);
      ProductRemove(s, x);
      ProductCoprime(p, s - {x});
      if Divides(p, Product(s)) {
        EuclidLemma(p, x, Product(s - {x}));
        DivModUnique(x, p, 0, x);
        assert false;
      }
    }
  }

  lemma SubsetSameCard(s: set<int>, t: set<int>)
    requires s <= t && |s| == |t|
    ensures s == t
  {
    if t - s != {} {
      var x := Pick(t - s);
      SubsetSize(s, t - {x});
    } else {
      assert forall x :: x in t ==> x in t - s || x in s;
    }
  }

  /** Fermat's little theorem. */
  lemma {:induction false} FermatLittle(p: int, a: int)
    requires IsPrime(p) && !Divides(p, a)
    ensures Pow(a, p - 1) % p == 1
  {
    ResidueProduct(p, a, Residues(p), p - 1);
    ProductCoprime(p, Residues(p));
    CancelPower(p, a, p - 1, Product(Residues(p)));
  }

  lemma {:induction false} ResidueProduct(p: int, a: int, u: set<int>, n: nat)
    requires IsPrime(p) && !Divides(p, a) && u == Residues(p) && n == |u|
    ensures Congruent(Product(u), Pow(a, n) * Product(u), p)
  {
    ScaledIsResidues(a, p, u);
    ScaledProduct(a, p, u);
  }

  lemma {:induction false} CancelPower(p: int, a: int, n: nat, f: int)
    requires IsPrime(p) && !Divides(p, f) && Congruent(f, Pow(a, n) * f, p)
    ensures Pow(a, n) % p == 1
  {
    CancelFactor(p, Pow(a, n), f);
  }

  lemma {:induction false} ScaledIsResidues(a: int, p: int, u: set<int>)
    requires IsPrime(p) && !Divides(p, a) && u == Residues(p)
    ensures Scaled(a, p, u) == u
  {
    ScaledProduct(a, p, u);
    SubsetSameCard(Scaled(a, p, u), u);
  }

  lemma CancelFactor(p: int, w: int, f: int)
    requires IsPrime(p) && !Divides(p, f) && Congruent(f, w * f, p)
    ensures w % p == 1
  {
    ModEqDivides(w * f, f, p);
    assert w * f - f == (w - 1) * f;
    EuclidLemma(p, w - 1, f);
    ModEqDivides(w, 1, p);
    DivModUnique(1, p, 0, 1);
  }

  lemma SquareLessOne(p: int, x: int)
    requires p >= 2 && x >= 0 && x * x % p == 1
    ensures Divides(p, (x - 1) * (x + 1)) && x > 0
  {
    DivModUnique(1, p, 0, 1);
    ModEqDivides(x * x, 1, p);
    assert x * x - 1 == (x - 1) * (x + 1);
    if x == 0 {
      DivModUnique(0, p, 0, 0);
    }
  }

  /** One has no square roots modulo a prime besides 1 and -1. */
  lemma SqrtOfOne(p: int, x: int)
    requires IsPrime(p) && 0 <= x < p && x * x % p == 1
    ensures x == 1 || x == p - 1
  {
    SquareLessOne(p, x);
    EuclidLemma(p, x - 1, x + 1);
    if Divides(p, x - 1) {
      DivModUnique(x - 1, p, 0, x - 1);
    } else if x + 1 < p {
      DivModUnique(x + 1, p, 0, x + 1);
    }
  }

  /** Every n >= 2 has a prime factor, and a composite one has it with p * p <= n. */
  lemma {:induction false} LeastFactor(n: int, m: int) returns (p: int)
    requires 2 <= m <= n && forall k :: 2 <= k < m ==> !Divides(k, n)
    ensures m <= p <= n && Divides(p, n) && IsPrime(p)
    ensures forall k :: 2 <= k < p ==> !Divides(k, n)
    decreases n - m
  {
    if Divides(m, n) {
      p := m;
      forall k | 2 <= k < p ensures !Divides(k, p) {
        if Divides(k, p) {
          assert n == p / k * k * (n / p);
          assert p / k * k * (n / p) == (p / k * (n / p)) * k;
          DividesMultiple(k, p / k * (n / p));
        }
      }
    } else {
      assert m < n by { if m == n { DividesMultiple(n, 1); } }
      p := LeastFactor(n, m + 1);
    }
  }

  lemma CompositeHasSmallFactor(n: int) returns (p: int)
    requires n >= 2 && !IsPrime(n)
    ensures IsPrime(p) && Divides(p, n) && p < n && p * p <= n
  {
    p := LeastFactor(n, 2);
    var q := n / p;
    assert n == q * p;
    assert p < n by { if p == n { assert false; } }
    assert q >= 2 by { assert q <= 1 ==> q * p <= p; }
    DividesMultiple(q, p);
    MulMono(p, q, p);
  }

  ghost function Factorial(n: nat): (f: int)
    ensures f >= 1
  {
    if n == 0 then 1 else n * Factorial(n - 1)
  }

  lemma {:induction false} FactorialDivides(n: nat, m: int)
    requires 1 <= m <= n
    ensures Divides(m, Factorial(n))
  {
    if m == n {
      DividesMultiple(n, Factorial(n - 1));
    } else {
      FactorialDivides(n - 1, m);
      DividesProduct(m, Factorial(n - 1), n);
    }
  }

  /** There is a prime above every bound. */
  lemma PrimeAbove(n: int) returns (p: int)
    ensures p > n && IsPrime(p)
  {
    var k: nat := if n < 0 then 0 else n;
    p := LeastFactor(Factorial(k) + 1, 2);
    if p <= k {
      FactorialDivides(k, p);
      DividesLinear(p, Factorial(k) + 1, Factorial(k), 1);
      DivModUnique(1, p, 0, 1);
      assert false;
    }
  }
}
