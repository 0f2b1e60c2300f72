/** Dealing items to n groups in turn, and the share each group gets. */
module RoundRobin {
  import opened Arith

  /** The group that gets item j when n groups are dealt to in turn: j mod n. */
  function Turn(j: nat, n: int): (i: int)
    requires n > 0
    ensures 0 <= i < n
    decreases j
  {
    if j < n then j else Turn(j - n, n)
  }

  lemma {:induction false} TurnIsMod(j: nat, n: int)
    requires n > 0
    ensures Turn(j, n) == j % n
    decreases j
  {
    if j < n {
      DivModUnique(j, n, 0, j);
    } else {
      TurnIsMod(j - n, n);
      assert j - n == (j - n) / n * n + (j - n) % n;
      DivModUnique(j, n, (j - n) / n + 1, (j - n) % n);
    }
  }

  /** How many of m items group i of n is dealt. */
  ghost function Share(m: nat, n: int, i: int): int
    requires n > 0
  {
    if m == 0 then 0 else Share(m - 1, n, i) + if Turn(m - 1, n) == i then 1 else 0
  }

  /** Round-robin dealing: group i gets ceil((m - i) / n), so group 0 gets the most. */
  lemma {:induction false} ShareIsCeil(m: nat, n: int, i: int)
    requires 0 <= i < n
    ensures Share(m, n, i) == CeilDiv(Max(m - i, 0), n)
    ensures 0 <= Share(m, n, i) <= CeilDiv(m, n)
    ensures i == 0 ==> Share(m, n, i) == CeilDiv(m, n)
  {
    if m > 0 {
      ShareIsCeil(m - 1, n, i);
      TurnIsMod(m - 1, n);
      CeilStep(m - 1, n, i);
    }
    CeilDivMono(Max(m - i, 0), n, m, n);
    CeilDivBounds(Max(m - i, 0), n);
  }

  lemma CeilStep(k: nat, n: int, i: int)
    requires 0 <= i < n
    ensures CeilDiv(Max(k + 1 - i, 0), n) == CeilDiv(Max(k - i, 0), n) + if k % n == i then 1 else 0
  {
    var q, r := k / n, k % n;
    assert k == q * n + r;
    RowEnd(q, n);
    if k < i {
      DivModUnique(k, n, 0, k);
    } else if r > i {
      CeilShort(k + 1 - i, n, q + 1, n - (r + 1 - i));
      CeilShort(k - i, n, q + 1, n - (r - i));
    } else if r == i {
      CeilShort(k + 1 - i, n, q + 1, n - 1);
      CeilShort(k - i, n, q, 0);
    } else {
      CeilShort(k + 1 - i, n, q, i - (r + 1));
      CeilShort(k - i, n, q, i - r);
    }
  }

  lemma RowEnd(q: int, n: int)
    ensures (q + 1) * n == q * n + n
  {
  }

  /** `missing` short of q whole rows still takes q of them. */
  lemma CeilShort(a: int, n: int, q: int, missing: int)
    requires 0 <= missing < n && a == q * n - missing
    ensures CeilDiv(a, n) == q
  {
    RowEnd(q - 1, n);
    CeilOf(a, n, q);
  }

  lemma CeilOf(a: int, n: int, q: int)
    requires n > 0 && (q - 1) * n < a <= q * n
    ensures CeilDiv(a, n) == q
  {
    CeilDivBounds(a, n);
    CeilDivLeast(a, n, q);
    CeilDivLeast(a, n, q - 1);
  }
}
