/** Drawing the prime bucket sizes of the engram tables: the Miller-Rabin test, the search for
    the next unused prime, and the layout built from it. */
module EngramPrimes {
  import opened Arith
  import opened NumberTheory

  const SMALL_PRIMES: seq<int> := [2, 3, 5, 7, 11, 13, 17, 19, 23, 29, 31, 37]
  const WITNESSES: seq<int> := [2, 7, 61]

  // ---------------------------------------------------------------- Miller-Rabin

  /** The exponent of two in m. */
  ghost function TwoPower(m: int): (r: nat)
    requires m >= 1
    ensures m % 2 == 0 ==> r >= 1
  {
    if m % 2 == 0 then 1 + TwoPower(m / 2) else 0
  }

  ghost function OddPart(m: int): (d: nat)
    requires m >= 1
    ensures d >= 1
  {
    if m % 2 == 0 then OddPart(m / 2) else m
  }

  /** a ^ (d * 2^i) mod n. */
  ghost function Tower(n: int, a: int, d: nat, i: nat): int
    requires n >= 1
  {
    Pow(a, d * Pow2(i)) % n
  }

  /** n is a strong probable prime to base a. */
  ghost predicate PassesWitness(n: int, a: int)
    requires n >= 2
  {
    var d, r := OddPart(n - 1), TwoPower(n - 1);
    Tower(n, a, d, 0) == 1 || exists i :: 0 <= i < r && Tower(n, a, d, i) == n - 1
  }

  /** The numbers the test accepts, without its control flow. */
  ghost predicate Accepts(n: int) {
    n in SMALL_PRIMES ||
    (n >= 2 && (forall p :: p in SMALL_PRIMES ==> !Divides(p, n)) &&
     forall a :: a in WITNESSES ==> PassesWitness(n, a))
  }

  lemma {:induction false} SplitEven(m: int)
    requires m >= 1
    ensures OddPart(m) * Pow2(TwoPower(m)) == m && OddPart(m) % 2 == 1
  {
    if m % 2 == 0 {
      SplitEven(m / 2);
      DoubleProduct(OddPart(m / 2), Pow2(TwoPower(m / 2)));
    }
  }

  lemma DoubleProduct(a: int, b: int)
    ensures a * (2 * b) == 2 * (a * b)
  {
  }

  lemma TowerSquare(n: int, a: int, d: nat, i: nat)
    requires n >= 1
    ensures Tower(n, a, d, i + 1) == Tower(n, a, d, i) * Tower(n, a, d, i) % n
  {
    var e, y := d * Pow2(i), Pow(a, d * Pow2(i));
    assert d * Pow2(i + 1) == e + e;
    PowAdd(a, e, e);
    ModMul(y, y, n);
    ModMul(y % n, y, n);
  }

  /** One witness round: n - 1 = d * 2^r with d odd. */
  method TestWitness(n: int, a: int, d: nat, r: nat) returns (passes: bool)
    requires n >= 2 && d == OddPart(n - 1) && r == TwoPower(n - 1) && r >= 1
    ensures passes == PassesWitness(n, a)
  {
    var x := Pow(a, d) % n;
    assert d * Pow2(0) == d;
    assert x == Tower(n, a, d, 0);
    if x == 1 || x == n - 1 {
      return true;
    }
    var i := 0;
    while i < r - 1
      invariant 0 <= i <= r - 1
      invariant x == Tower(n, a, d, i)
      invariant forall j :: 0 <= j <= i ==> Tower(n, a, d, j) != n - 1
    {
      TowerSquare(n, a, d, i);
      x := x * x % n;
      i := i + 1;
      if x == n - 1 {
        return true;
      }
    }
    passes := false;
  }

  /** Deterministic Miller-Rabin with the trial division in front. */
  method MillerRabin(n: int) returns (b: bool)
    ensures b == Accepts(n)
  {
    if n < 2 {
      SmallPrimesAreBig();
      return false;
    }
    for k := 0 to |SMALL_PRIMES|
      invariant forall j :: 0 <= j < k ==> !Divides(SMALL_PRIMES[j], n)
    {
      var p := SMALL_PRIMES[k];
      if n % p == 0 {
        if n != p {
          SmallPrimeUndivided(n, k);
        }
        return n == p;
      }
    }
    SelfDivides(n);
    var d, r := n - 1, 0;
    while d % 2 == 0
      invariant d >= 1 && OddPart(d) == OddPart(n - 1)
      invariant r + TwoPower(d) == TwoPower(n - 1)
      decreases d
    {
      d := d / 2;
      r := r + 1;
    }
    for w := 0 to |WITNESSES|
      invariant forall j :: 0 <= j < w ==> PassesWitness(n, WITNESSES[j])
    {
      var passes := TestWitness(n, WITNESSES[w], d, r);
      if !passes {
        assert WITNESSES[w] in WITNESSES;
        return false;
      }
    }
    b := true;
  }

  lemma {:induction false} SelfDivides(n: int)
    requires n >= 2 && forall j :: 0 <= j < |SMALL_PRIMES| ==> !Divides(SMALL_PRIMES[j], n)
    ensures n !in SMALL_PRIMES && TwoPower(n - 1) >= 1
    ensures forall p :: p in SMALL_PRIMES ==> !Divides(p, n)
  {
    DividesMultiple(n, 1);
    assert !Divides(SMALL_PRIMES[0], n);
  }

  /** A listed prime is not divided by an earlier one. */
  lemma SmallPrimeUndivided(n: int, k: nat)
    requires k < |SMALL_PRIMES| && n % SMALL_PRIMES[k] == 0 && n != SMALL_PRIMES[k]
    requires forall j :: 0 <= j < k ==> !Divides(SMALL_PRIMES[j], n)
    ensures !Accepts(n)
  {
    if n in SMALL_PRIMES {
      var i :| 0 <= i < |SMALL_PRIMES| && SMALL_PRIMES[i] == n;
      SmallPrimesArePrime(n);
      var p := SMALL_PRIMES[k];
      assert Divides(p, n);
      assert p > n;
      DivModUnique(n, p, 0, n);
    } else {
      assert Divides(SMALL_PRIMES[k], n);
    }
  }

  lemma SmallPrimesArePrime(n: int)
    requires n in SMALL_PRIMES
    ensures IsPrime(n)
  {
  }

  lemma SmallPrimesComplete(p: int)
    requires IsPrime(p) && p < 41
    ensures p in SMALL_PRIMES
  {
    assert !Divides(2, p) || p == 2;
    assert !Divides(3, p) || p == 3;
    assert !Divides(5, p) || p == 5;
  }

  /** Walking down from a^(n-1) = 1, the first value that is not 1 is -1. */
  lemma {:induction false} TowerDescends(n: int, a: int, d: nat, r: nat)
    requires IsPrime(n) && Tower(n, a, d, r) == 1
    ensures Tower(n, a, d, 0) == 1 || exists i :: 0 <= i < r && Tower(n, a, d, i) == n - 1
  {
    if r > 0 {
      TowerSquare(n, a, d, r - 1);
      SqrtOfOne(n, Tower(n, a, d, r - 1));
      if Tower(n, a, d, r - 1) == 1 {
        TowerDescends(n, a, d, r - 1);
      }
    }
  }

  lemma PrimePassesWitness(n: int, a: int)
    requires IsPrime(n) && !Divides(n, a)
    ensures PassesWitness(n, a)
  {
    SplitEven(n - 1);
    FermatLittle(n, a);
    TowerDescends(n, a, OddPart(n - 1), TwoPower(n - 1));
  }

  lemma {:induction false} PowOfMultiple(n: int, e: nat)
    requires n >= 1 && e >= 1
    ensures Pow(n, e) % n == 0
  {
    DividesMultiple(n, Pow(n, e - 1));
  }

  /** 61 divides its own witness, so every power in the tower is 0. */
  lemma SixtyOneFails()
    ensures IsPrime(61) && !PassesWitness(61, 61) && !Accepts(61)
  {
    SixtyOneIsPrime();
    SplitEven(60);
    var d, r := OddPart(60), TwoPower(60);
    forall i: nat ensures Tower(61, 61, d, i) == 0 {
      Pow2Positive(i);
      assert d * Pow2(i) >= 1;
      PowOfMultiple(61, d * Pow2(i));
    }
    assert WITNESSES[2] == 61;
  }

  lemma SixtyOneIsPrime()
    ensures IsPrime(61)
  {
    forall m | 2 <= m < 61 ensures !Divides(m, 61) {
      if Divides(m, 61) { NoFactorOf61(m); }
    }
  }

  lemma NoFactorOf61(m: int)
    requires 2 <= m < 61
    ensures 61 % m != 0
  {
    if m >= 31 {
      DivModUnique(61, m, 1, 61 - m);
    } else if m >= 21 {
      DivModUnique(61, m, 2, 61 - 2 * m);
    } else if m >= 16 {
      DivModUnique(61, m, 3, 61 - 3 * m);
    }
  }

  /** The test never rejects a prime, with 61 as the only exception. */
  lemma PrimesAcceptedExcept61(n: int)
    requires IsPrime(n)
    ensures Accepts(n) <==> n != 61
  {
    if n == 61 {
      SixtyOneFails();
    } else if n < 41 {
      SmallPrimesComplete(n);
    } else {
      forall p | p in SMALL_PRIMES ensures !Divides(p, n) {
        assert 2 <= p < n;
      }
      forall a | a in WITNESSES ensures PassesWitness(n, a) {
        WitnessNotMultiple(n, a);
        PrimePassesWitness(n, a);
      }
    }
  }

  lemma WitnessNotMultiple(n: int, a: int)
    requires IsPrime(n) && n >= 41 && n != 61 && a in WITNESSES
    ensures !Divides(n, a)
  {
    if n > 61 {
      DivModUnique(a, n, 0, a);
    } else if a == 61 {
      SixtyOneIsPrime();
    } else {
      DivModUnique(a, n, 0, a);
    }
  }

  /** Below 41 * 41 trial division decides, so there the test is exact apart from 61. */
  lemma ExactBelow1681(n: int)
    requires n < 1681
    ensures Accepts(n) <==> IsPrime(n) && n != 61
  {
    if IsPrime(n) {
      PrimesAcceptedExcept61(n);
    } else if n >= 2 {
      var p := CompositeHasSmallFactor(n);
      assert p < 41 by { if p >= 41 { MulMono(41, p, p); MulMono(41, p, 41); assert false; } }
      SmallPrimesComplete(p);
      if n in SMALL_PRIMES { SmallPrimesArePrime(n); }
    } else {
      SmallPrimesAreBig();
    }
  }

  lemma SmallPrimesAreBig()
    ensures forall p :: p in SMALL_PRIMES ==> p >= 2
  {
  }

  // ---------------------------------------------------------------- next prime

  /** c is the least accepted number above start that is not in seen. */
  ghost predicate IsNext(start: int, seen: set<int>, c: int) {
    c > start && Accepts(c) && c !in seen &&
    forall k :: start < k < c ==> !(Accepts(k) && k !in seen)
  }

  ghost function MaxOf(s: set<int>): (m: int)
    ensures forall x :: x in s ==> x <= m
  {
    if s == {} then 0 else
      var x := Pick(s);
      assert forall y :: y in s ==> y == x || y in s - {x};
      Max(x, MaxOf(s - {x}))
  }

  method FindNextPrime(start: int, seen: set<int>) returns (candidate: int)
    ensures IsNext(start, seen, candidate)
  {
    ghost var bound := PrimeAbove(Max(Max(start, MaxOf(seen)), 61));
    PrimesAcceptedExcept61(bound);
    candidate := start + 1;
    while true
      invariant start < candidate <= bound
      invariant forall k :: start < k < candidate ==> !(Accepts(k) && k !in seen)
      decreases bound - candidate
    {
      var prime := MillerRabin(candidate);
      if prime && candidate !in seen {
        return;
      }
      candidate := candidate + 1;
    }
  }

  ghost predicate LeastUnseenPrime(start: int, seen: set<int>, q: int) {
    q > start && IsPrime(q) && q !in seen &&
    forall k :: start < k < q ==> !(IsPrime(k) && k !in seen)
  }

  /** Some composite on the way to q passes the test and is still free. */
  ghost predicate Misled(start: int, seen: set<int>, q: int) {
    exists k :: start < k < q && Accepts(k) && k !in seen && !IsPrime(k)
  }

  /** "The smallest prime above start that has not been handed out": the search returns it if and
      only if that prime is not 61 and no composite before it passes the test; below 1681 none does. */
  lemma NextPrimeExactness(start: int, seen: set<int>, c: int, q: int)
    requires IsNext(start, seen, c) && LeastUnseenPrime(start, seen, q)
    ensures c == q <==> q != 61 && !Misled(start, seen, q)
    ensures q != 61 ==> c <= q
    ensures q <= 1681 ==> !Misled(start, seen, q)
  {
    PrimesAcceptedExcept61(q);
    if q != 61 && c < q {
      assert !IsPrime(c);
    }
    if Misled(start, seen, q) {
      var k :| start < k < q && Accepts(k) && k !in seen && !IsPrime(k);
      if q <= 1681 {
        ExactBelow1681(k);
      }
    }
  }

  // ---------------------------------------------------------------- layout

  ghost function Elements(s: seq<int>): set<int> {
    set x | x in s
  }

  ghost function Flat<T>(s: seq<seq<T>>): (f: seq<T>)
  {
    if s == [] then [] else Flat(s[..|s| - 1]) + s[|s| - 1]
  }

  lemma {:induction false} FlatSnoc<T>(s: seq<seq<T>>, x: seq<T>)
    ensures Flat(s + [x]) == Flat(s) + x
  {
    assert (s + [x])[..|s|] == s;
  }

  ghost predicate Distinct<T>(s: seq<T>) {
    forall i, j :: 0 <= i < j < |s| ==> s[i] != s[j]
  }

  function LastOr(s: seq<int>, default: int): int {
    if s == [] then default else s[|s| - 1]
  }

  /** Sizes drawn one after another above start, skipping everything in used. */
  ghost predicate DrawnFrom(used: set<int>, start: int, sizes: seq<int>) {
    sizes == [] ||
    var rest := sizes[..|sizes| - 1];
    DrawnFrom(used, start, rest) &&
    IsNext(LastOr(rest, start), used + Elements(rest), sizes[|sizes| - 1])
  }

  method DrawSizes(used: set<int>, start: int, nHeads: nat) returns (sizes: seq<int>, seen: set<int>)
    ensures |sizes| == nHeads && DrawnFrom(used, start, sizes)
    ensures seen == used + Elements(sizes)
  {
    sizes, seen := [], used;
    var current := start;
    for h := 0 to nHeads
      invariant |sizes| == h && DrawnFrom(used, start, sizes)
      invariant seen == used + Elements(sizes)
      invariant current == LastOr(sizes, start)
    {
      current := FindNextPrime(current, seen);
      assert (sizes + [current])[..h] == sizes;
      assert Elements(sizes + [current]) == Elements(sizes) + {current};
      seen := seen + {current};
      sizes := sizes + [current];
    }
  }

  lemma {:induction false} DrawnDistinct(used: set<int>, start: int, sizes: seq<int>)
    requires DrawnFrom(used, start, sizes)
    ensures Distinct(sizes) && Elements(sizes) !! used
    ensures forall x :: x in sizes ==> x > start && Accepts(x)
  {
    if sizes != [] {
      var n := |sizes| - 1;
      var rest := sizes[..n];
      DrawnDistinct(used, start, rest);
      assert sizes == rest + [sizes[n]];
      forall j | 0 <= j < n ensures sizes[j] != sizes[n] {
        assert rest[j] in Elements(rest);
      }
      assert Elements(sizes) == Elements(rest) + {sizes[n]};
      assert LastOr(rest, start) >= start;
    }
  }

  /** Every row of sizes draws above vocabSize - 1 from what all earlier rows left over. */
  ghost predicate RowsDrawn(rows: seq<seq<int>>, nHeads: nat, vocabSize: int) {
    rows == [] ||
    var rest, row := rows[..|rows| - 1], rows[|rows| - 1];
    RowsDrawn(rest, nHeads, vocabSize) && |row| == nHeads &&
    DrawnFrom(Elements(Flat(rest)), vocabSize - 1, row)
  }

  lemma {:induction false} RowsDrawnDistinct(rows: seq<seq<int>>, nHeads: nat, vocabSize: int)
    requires RowsDrawn(rows, nHeads, vocabSize)
    ensures Distinct(Flat(rows))
    ensures forall x :: x in Flat(rows) ==> x >= vocabSize && Accepts(x)
  {
    if rows != [] {
      var rest, row := rows[..|rows| - 1], rows[|rows| - 1];
      RowsDrawnDistinct(rest, nHeads, vocabSize);
      DrawnDistinct(Elements(Flat(rest)), vocabSize - 1, row);
      forall i, j | 0 <= i < |Flat(rest)| && 0 <= j < |row| ensures Flat(rest)[i] != row[j] {
        assert Flat(rest)[i] in Elements(Flat(rest)) && row[j] in Elements(row);
      }
    }
  }

  /** Every acceptable number between start and a drawn size was used before or is drawn itself. */
  lemma {:induction false} DrawnWithoutGaps(used: set<int>, start: int, sizes: seq<int>, k: int, x: int)
    requires DrawnFrom(used, start, sizes) && x in sizes && start < k < x && Accepts(k)
    ensures k in used || k in sizes
  {
    var rest, last := sizes[..|sizes| - 1], sizes[|sizes| - 1];
    assert sizes == rest + [last];
    if x in rest {
      DrawnWithoutGaps(used, start, rest, k, x);
    } else if k <= LastOr(rest, start) {
      var y := LastOr(rest, start);
      if k < y { DrawnWithoutGaps(used, start, rest, k, y); }
    } else {
      assert IsNext(LastOr(rest, start), used + Elements(rest), last);
    }
  }

  /** Read row after row the sizes are the smallest acceptable ones from the requested size on: no
      acceptable number before a size is left out. */
  lemma {:induction false} NoSizeLeftOut(rows: seq<seq<int>>, nHeads: nat, vocabSize: int, k: int, x: int)
    requires RowsDrawn(rows, nHeads, vocabSize) && x in Flat(rows) && vocabSize <= k < x && Accepts(k)
    ensures k in Flat(rows)
  {
    var rest, row := rows[..|rows| - 1], rows[|rows| - 1];
    if x in Flat(rest) {
      NoSizeLeftOut(rest, nHeads, vocabSize, k, x);
    } else {
      DrawnWithoutGaps(Elements(Flat(rest)), vocabSize - 1, row, k, x);
    }
  }

  lemma {:induction false} RowIncreases(used: set<int>, start: int, sizes: seq<int>)
    requires DrawnFrom(used, start, sizes)
    ensures forall i, j :: 0 <= i < j < |sizes| ==> sizes[i] < sizes[j]
  {
    if sizes != [] {
      RowIncreases(used, start, sizes[..|sizes| - 1]);
    }
  }

  /** And they come in increasing order over all rows. */
  lemma {:induction false} SizesIncrease(rows: seq<seq<int>>, nHeads: nat, vocabSize: int)
    requires RowsDrawn(rows, nHeads, vocabSize)
    ensures forall i, j :: 0 <= i < j < |Flat(rows)| ==> Flat(rows)[i] < Flat(rows)[j]
  {
    if rows != [] {
      var rest, row := rows[..|rows| - 1], rows[|rows| - 1];
      SizesIncrease(rest, nHeads, vocabSize);
      RowIncreases(Elements(Flat(rest)), vocabSize - 1, row);
      DrawnDistinct(Elements(Flat(rest)), vocabSize - 1, row);
      forall i, j | 0 <= i < |Flat(rest)| && 0 <= j < |row| ensures Flat(rest)[i] < row[j] {
        RowBehind(rest, nHeads, vocabSize, row, Flat(rest)[i], row[j]);
      }
    }
  }

  lemma {:induction false} RowBehind(rest: seq<seq<int>>, nHeads: nat, vocabSize: int, row: seq<int>, x: int, y: int)
    requires RowsDrawn(rest, nHeads, vocabSize) && DrawnFrom(Elements(Flat(rest)), vocabSize - 1, row)
    requires x in Flat(rest) && y in row
    ensures x < y
  {
    DrawnDistinct(Elements(Flat(rest)), vocabSize - 1, row);
    assert y in Elements(row) && x in Elements(Flat(rest));
    if y < x {
      NoSizeLeftOut(rest, nHeads, vocabSize, y, x);
    }
  }

  method DrawLayer(ghost done: seq<seq<int>>, used: set<int>, nRows: nat, nHeads: nat, vocabSize: int)
    returns (rows: seq<seq<int>>, seen: set<int>)
    requires RowsDrawn(done, nHeads, vocabSize) && used == Elements(Flat(done))
    ensures |rows| == nRows && RowsDrawn(done + rows, nHeads, vocabSize)
    ensures seen == Elements(Flat(done + rows))
  {
    rows, seen := [], used;
    assert done + rows == done;
    for g := 0 to nRows
      invariant |rows| == g && RowsDrawn(done + rows, nHeads, vocabSize)
      invariant seen == Elements(Flat(done + rows))
    {
      var sizes;
      sizes, seen := DrawSizes(seen, vocabSize - 1, nHeads);
      ghost var before := done + rows;
      FlatSnoc(before, sizes);
      rows := rows + [sizes];
      assert done + rows == before + [sizes];
      assert (done + rows)[..|done + rows| - 1] == before;
      assert Elements(Flat(before) + sizes) == Elements(Flat(before)) + Elements(sizes);
    }
  }

  /** The sizes of all layers: layer l holds (maxNgram - 1) rows of nHeads sizes. In draw order
      the rows are exactly what successive draws without reuse produce, so all sizes of the
      layout are pairwise distinct. */
  method BuildPrimes(nLayers: nat, maxNgram: int, nHeads: nat, vocabSize: int)
    returns (primes: seq<seq<seq<int>>>)
    ensures |primes| == nLayers
    ensures forall l :: 0 <= l < nLayers ==> |primes[l]| == Max(maxNgram - 1, 0)
    ensures RowsDrawn(Flat(primes), nHeads, vocabSize)
    ensures Distinct(Flat(Flat(primes)))
    ensures forall x :: x in Flat(Flat(primes)) ==> x >= vocabSize && Accepts(x)
  {
    primes := [];
    var seen: set<int> := {};
    for l := 0 to nLayers
      invariant |primes| == l
      invariant forall k :: 0 <= k < l ==> |primes[k]| == Max(maxNgram - 1, 0)
      invariant RowsDrawn(Flat(primes), nHeads, vocabSize)
      invariant seen == Elements(Flat(Flat(primes)))
    {
      var rows;
      rows, seen := DrawLayer(Flat(primes), seen, Max(maxNgram - 1, 0), nHeads, vocabSize);
      FlatSnoc(primes, rows);
      primes := primes + [rows];
    }
    RowsDrawnDistinct(Flat(primes), nHeads, vocabSize);
  }
}
