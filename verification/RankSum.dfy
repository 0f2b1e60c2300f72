/** Sums of partial results over tensor-parallel ranks. */
module RankSum {

  /** f(lo) + ... + f(hi - 1). */
  function Sum(f: nat -> real, lo: nat, hi: nat): real
    decreases hi - lo
  {
    if hi <= lo then 0.0 else Sum(f, lo, hi - 1) + f(hi - 1)
  }

  lemma {:induction false} SumSplit(f: nat -> real, a: nat, b: nat, c: nat)
    requires a <= b <= c
    ensures Sum(f, a, c) == Sum(f, a, b) + Sum(f, b, c)
  {
    if b < c {
      SumSplit(f, a, b, c - 1);
    }
  }

  ghost predicate SameTerm(f: nat -> real, lo: nat, g: nat -> real, start: nat, k: nat) {
    f(lo + k) == g(start + k)
  }

  /** Equal terms, possibly at shifted indices, give equal sums. */
  lemma {:induction false} SumShift(f: nat -> real, lo: nat, g: nat -> real, start: nat, n: nat)
    requires forall k: nat :: k < n ==> SameTerm(f, lo, g, start, k)
    ensures Sum(f, lo, lo + n) == Sum(g, start, start + n)
  {
    if n > 0 {
      SumShift(f, lo, g, start, n - 1);
      assert SameTerm(f, lo, g, start, n - 1);
    }
  }

  lemma {:induction false} SumZero(f: nat -> real, lo: nat, hi: nat)
    requires lo <= hi && forall k: nat :: lo <= k < hi ==> f(k) == 0.0
    ensures Sum(f, lo, hi) == 0.0
  {
    if lo < hi {
      SumZero(f, lo, hi - 1);
    }
  }

  /** Part r is the sum of the terms between cut r and cut r + 1. */
  ghost predicate IsPart(f: nat -> real, cut: nat -> nat, part: nat -> real, r: nat) {
    cut(r) <= cut(r + 1) && part(r) == Sum(f, cut(r), cut(r + 1))
  }

  /** The all-reduce: parts between consecutive cuts add up to the whole. */
  lemma {:induction false} SumOfParts(f: nat -> real, cut: nat -> nat, part: nat -> real, tp: nat)
    requires forall r: nat :: r < tp ==> IsPart(f, cut, part, r)
    ensures cut(0) <= cut(tp) && Sum(part, 0, tp) == Sum(f, cut(0), cut(tp))
  {
    if tp > 0 {
      SumOfParts(f, cut, part, tp - 1);
      assert IsPart(f, cut, part, tp - 1);
      SumSplit(f, cut(0), cut(tp - 1), cut(tp));
    }
  }
}
