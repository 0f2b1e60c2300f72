/** Two's-complement machine arithmetic as the hash kernel uses it: wrap-around, bitwise
    exclusive or, and the remainder that truncates toward zero. */
module Int64 {
  import opened Arith

  /** The value of the low bits of x, the topmost of which counts negatively. */
  function Wrap(bits: nat, x: int): int
    requires bits >= 1
  {
    if bits == 1 then -(x % 2) else x % 2 + 2 * Wrap(bits - 1, x / 2)
  }

  ghost predicate Fits(bits: nat, x: int)
    requires bits >= 1
  {
    0 - Pow2(bits - 1) <= x < Pow2(bits - 1)
  }

  lemma {:induction false} WrapFits(bits: nat, x: int)
    requires bits >= 1
    ensures Fits(bits, Wrap(bits, x))
    ensures Fits(bits, x) <==> Wrap(bits, x) == x
  {
    if bits > 1 {
      WrapFits(bits - 1, x / 2);
    }
  }

  lemma {:induction false} WrapDouble(bits: nat, half: int)
    requires bits > 1
    ensures Wrap(bits, 2 * half) == 2 * Wrap(bits - 1, half)
  {
    assert 2 * half % 2 == 0 && 2 * half / 2 == half;
  }

  lemma Pow2Double(i: nat)
    requires i > 0
    ensures Pow2(i) == 2 * Pow2(i - 1)
  {
  }

  /** The first value past the end wraps to the most negative one. */
  lemma {:induction false} WrapPastEnd(bits: nat)
    requires bits >= 1
    ensures Wrap(bits, Pow2(bits - 1)) == 0 - Pow2(bits - 1) < 0
  {
    if bits > 1 {
      WrapPastEnd(bits - 1);
      Pow2Double(bits - 1);
      WrapDouble(bits, Pow2(bits - 2));
    }
  }

  /** Wrapping is shifting by a multiple of the modulus. */
  lemma {:induction false} WrapIsShift(bits: nat, x: int) returns (k: int)
    requires bits >= 1
    ensures Wrap(bits, x) == x + k * Pow2(bits)
  {
    if bits == 1 {
      k := -(x / 2) - x % 2;
    } else {
      k := WrapIsShift(bits - 1, x / 2);
    }
  }

  /** Bitwise exclusive or of the low bits. */
  function Xor(bits: nat, a: int, b: int): int
    requires bits >= 1
  {
    var bit := if a % 2 == b % 2 then 0 else 1;
    if bits == 1 then -bit else bit + 2 * Xor(bits - 1, a / 2, b / 2)
  }

  /** int64 exclusive or. */
  function Xor64(a: int, b: int): int { Xor(64, a, b) }

  /** Bit i of the two's-complement representation. */
  function Bit(x: int, i: nat): int
    decreases i
  {
    if i == 0 then x % 2 else Bit(x / 2, i - 1)
  }

  /** A bit of the result is set exactly when it is set in one operand and not in the other. */
  lemma {:induction false} XorBit(bits: nat, a: int, b: int, i: nat)
    requires i < bits
    ensures Bit(Xor(bits, a, b), i) == 1 <==> Bit(a, i) != Bit(b, i)
  {
    if bits > 1 {
      var bit := if a % 2 == b % 2 then 0 else 1;
      Halve(bit, Xor(bits - 1, a / 2, b / 2));
      if i > 0 {
        XorBit(bits - 1, a / 2, b / 2, i - 1);
      }
    }
  }

  lemma Halve(bit: int, half: int)
    requires 0 <= bit <= 1
    ensures (bit + 2 * half) % 2 == bit && (bit + 2 * half) / 2 == half
  {
  }

  lemma {:induction false} XorFits(bits: nat, a: int, b: int)
    requires bits >= 1
    ensures Fits(bits, Xor(bits, a, b))
  {
    if bits > 1 {
      XorFits(bits - 1, a / 2, b / 2);
    }
  }

  /** A second exclusive or with the same operand undoes the first. */
  lemma {:induction false} XorCancels(bits: nat, a: int, b: int)
    requires bits >= 1
    ensures Xor(bits, Xor(bits, a, b), b) == Wrap(bits, a)
  {
    if bits > 1 {
      var bit := if a % 2 == b % 2 then 0 else 1;
      Halve(bit, Xor(bits - 1, a / 2, b / 2));
      XorCancels(bits - 1, a / 2, b / 2);
    }
  }

  lemma {:induction false} XorCommutes(bits: nat, a: int, b: int)
    requires bits >= 1
    ensures Xor(bits, a, b) == Xor(bits, b, a)
  {
    if bits > 1 {
      XorCommutes(bits - 1, a / 2, b / 2);
    }
  }

  lemma {:induction false} XorZero(bits: nat, a: int)
    requires bits >= 1
    ensures Xor(bits, a, 0) == Wrap(bits, a)
  {
    if bits > 1 {
      XorZero(bits - 1, a / 2);
    }
  }

  /** Different operands give different results. */
  lemma {:induction false} XorInjective(bits: nat, a: int, a': int, b: int)
    requires bits >= 1 && Fits(bits, a) && Fits(bits, a')
    ensures Xor(bits, a, b) == Xor(bits, a', b) <==> a == a'
  {
    XorCancels(bits, a, b);
    XorCancels(bits, a', b);
    WrapFits(bits, a);
    WrapFits(bits, a');
  }

  /** Non-negative operands keep the sign bit clear. */
  lemma {:induction false} XorNonNegative(bits: nat, a: int, b: int)
    requires bits >= 1 && 0 <= a < Pow2(bits - 1) && 0 <= b < Pow2(bits - 1)
    ensures 0 <= Xor(bits, a, b) < Pow2(bits - 1)
  {
    if bits > 1 {
      XorNonNegative(bits - 1, a / 2, b / 2);
    }
  }

  /** Remainder of the division that truncates toward zero. */
  function TruncMod(a: int, m: int): int
    requires m > 0
  {
    if a >= 0 then a % m else -((-a) % m)
  }

  /** The remainder has the sign of the dividend, is smaller than the divisor, and differs from the
      dividend by a multiple of it. */
  lemma TruncModIs(a: int, m: int) returns (k: int)
    requires m > 0
    ensures a == k * m + TruncMod(a, m) && -m < TruncMod(a, m) < m
    ensures (a >= 0 ==> TruncMod(a, m) >= 0) && (a <= 0 ==> TruncMod(a, m) <= 0)
  {
    k := if a >= 0 then a / m else -((-a) / m);
    if a < 0 {
      var q := (-a) / m;
      assert -a == q * m + (-a) % m;
      assert (-q) * m == -(q * m);
    }
  }
}
