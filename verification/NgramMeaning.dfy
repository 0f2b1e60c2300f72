/** What an n-gram hash depends on: exactly the live tokens its column reaches, each of them fully. */
module NgramMeaning {
  import opened Arith
  import opened Int64
  import opened NgramHash
  import opened NgramState

  // ------------------------------------------------------------ the exclusive or of a list

  ghost function XorAll(terms: seq<int>): int {
    if terms == [] then 0 else Xor64(XorAll(terms[..|terms| - 1]), terms[|terms| - 1])
  }

  ghost predicate AllFit(terms: seq<int>) {
    forall i :: 0 <= i < |terms| ==> Fits(64, terms[i])
  }

  ghost predicate SameExcept(terms: seq<int>, terms': seq<int>, s: nat) {
    |terms| == |terms'| && forall i :: 0 <= i < |terms| && i != s ==> terms[i] == terms'[i]
  }

  lemma {:induction false} XorAllFits(terms: seq<int>)
    ensures Fits(64, XorAll(terms))
  {
    if terms == [] {
      Pow2Positive(63);
    } else {
      XorFits(64, XorAll(terms[..|terms| - 1]), terms[|terms| - 1]);
    }
  }

  /** Lists that differ in one place have equal results exactly when they do not differ there either. */
  lemma {:induction false} OneTermDecides(terms: seq<int>, terms': seq<int>, s: nat)
    requires SameExcept(terms, terms', s) && AllFit(terms) && AllFit(terms')
    ensures XorAll(terms) == XorAll(terms') <==> s >= |terms| || terms[s] == terms'[s]
  {
    if terms != [] {
      var n := |terms| - 1;
      var rest, rest' := terms[..n], terms'[..n];
      OneTermDecides(rest, rest', s);
      if s == n {
        assert rest == rest';
        XorCommutes(64, XorAll(rest), terms[n]);
        XorCommutes(64, XorAll(rest), terms'[n]);
        XorInjective(64, terms[n], terms'[n], XorAll(rest));
      } else {
        XorAllFits(rest);
        XorAllFits(rest');
        XorInjective(64, XorAll(rest), XorAll(rest'), terms[n]);
      }
    }
  }

  // ------------------------------------------------------------ the terms of a token

  ghost function Terms(tb: Tables, dead: int -> bool, hist: seq<int>, p: int, layer: nat, n: nat): (ts: seq<int>)
    requires tb.Valid() && 0 <= p < |hist| && layer < |tb.multipliers| && n <= tb.maxNgram
    ensures |ts| == n && forall j: nat :: j < n ==> ts[j] == Term(tb, dead, hist, p, layer, j)
  {
    seq(n, j requires 0 <= j < n => Term(tb, dead, hist, p, layer, j))
  }

  lemma {:induction false} RollingIsXorAll(tb: Tables, dead: int -> bool, hist: seq<int>, p: int, layer: nat,
                                           shift: nat)
    requires tb.Valid() && 0 <= p < |hist| && layer < |tb.multipliers| && shift < tb.maxNgram
    ensures Rolling(tb, dead, hist, p, layer, shift) == XorAll(Terms(tb, dead, hist, p, layer, shift + 1))
  {
    var ts := Terms(tb, dead, hist, p, layer, shift + 1);
    assert ts[..shift] == Terms(tb, dead, hist, p, layer, shift);
    if shift == 0 {
      assert ts[..shift] == [];
    } else {
      RollingIsXorAll(tb, dead, hist, p, layer, shift - 1);
    }
  }

  lemma TermsFit(tb: Tables, dead: int -> bool, hist: seq<int>, p: int, layer: nat, n: nat)
    requires tb.Valid() && 0 <= p < |hist| && layer < |tb.multipliers| && n <= tb.maxNgram
    ensures AllFit(Terms(tb, dead, hist, p, layer, n))
  {
    forall j: nat | j < n ensures Fits(64, Term(tb, dead, hist, p, layer, j)) {
      var value := if Blocked(tb, dead, hist, p, j) then tb.padId
                   else assert !BreaksAt(tb, dead, hist, p - j); Source(tb, dead, hist[p - j]);
      WrapFits(64, value * tb.multipliers[layer][j]);
    }
  }

  // ------------------------------------------------------------ one token at a time

  /** The last n tokens up to p are there and alive. */
  ghost predicate Live(tb: Tables, dead: int -> bool, hist: seq<int>, p: int, n: nat) {
    n <= p + 1 <= |hist| && forall q :: p - n < q <= p ==> Source(tb, dead, hist[q]) != DEAD_ID
  }

  /** Compressed id of the token s positions back. */
  ghost function Back(tb: Tables, dead: int -> bool, hist: seq<int>, p: int, s: nat): int
    requires s <= p < |hist|
  {
    Source(tb, dead, hist[p - s])
  }

  /** Of the last n tokens only the one s positions back may differ. */
  ghost predicate DifferAt(tb: Tables, dead: int -> bool, hist: seq<int>, p: int, hist': seq<int>, p': int,
                           n: nat, s: nat)
  {
    && Live(tb, dead, hist, p, n) && Live(tb, dead, hist', p', n)
    && forall j: nat :: j < n && j != s ==> Back(tb, dead, hist, p, j) == Back(tb, dead, hist', p', j)
  }

  lemma LiveTerm(tb: Tables, dead: int -> bool, hist: seq<int>, p: int, layer: nat, j: nat)
    requires tb.Valid() && layer < |tb.multipliers| && j < tb.maxNgram && Live(tb, dead, hist, p, j + 1)
    ensures 0 <= p < |hist|
    ensures Term(tb, dead, hist, p, layer, j) == Wrap(64, Back(tb, dead, hist, p, j) * tb.multipliers[layer][j])
  {
    assert !Blocked(tb, dead, hist, p, j);
  }

  /** Live histories that differ only in the token s positions back: the rolling values up to a lookback
      short of s are equal, and from s on they are equal exactly when the token's two products with its
      own multiplier are equal as 64-bit integers. */
  lemma {:induction false} OneTokenDecides(tb: Tables, dead: int -> bool, hist: seq<int>, p: int, hist': seq<int>,
                                           p': int, layer: nat, s: nat, shift: nat)
    requires tb.Valid() && layer < |tb.multipliers| && shift < tb.maxNgram
    requires DifferAt(tb, dead, hist, p, hist', p', shift + 1, s)
    ensures Rolling(tb, dead, hist, p, layer, shift) == Rolling(tb, dead, hist', p', layer, shift) <==>
      s > shift || Wrap(64, Back(tb, dead, hist, p, s) * tb.multipliers[layer][s])
        == Wrap(64, Back(tb, dead, hist', p', s) * tb.multipliers[layer][s])
  {
    var ts, ts' := Terms(tb, dead, hist, p, layer, shift + 1), Terms(tb, dead, hist', p', layer, shift + 1);
    forall j: nat | j <= shift
      ensures ts[j] == Wrap(64, Back(tb, dead, hist, p, j) * tb.multipliers[layer][j])
      ensures ts'[j] == Wrap(64, Back(tb, dead, hist', p', j) * tb.multipliers[layer][j])
    {
      LiveTerm(tb, dead, hist, p, layer, j);
      LiveTerm(tb, dead, hist', p', layer, j);
    }
    TermsFit(tb, dead, hist, p, layer, shift + 1);
    TermsFit(tb, dead, hist', p', layer, shift + 1);
    OneTermDecides(ts, ts', s);
    RollingIsXorAll(tb, dead, hist, p, layer, shift);
    RollingIsXorAll(tb, dead, hist', p', layer, shift);
  }

  lemma ProductsDiffer(a: int, b: int, m: int)
    requires m > 0
    ensures a * m == b * m <==> a == b
  {
    if a < b { MulMono(a + 1, b, m); }
    if b < a { MulMono(b + 1, a, m); }
  }

  lemma SourceBounded(tb: Tables, vocab: int, dead: int -> bool, token: int)
    requires Bounded(tb, vocab) && Source(tb, dead, token) != DEAD_ID
    ensures 0 <= Source(tb, dead, token) < vocab
  {
  }

  /** With multipliers as drawn a changed token always changes the rolling values that reach it. */
  lemma {:induction false} EveryTokenCounts(tb: Tables, vocab: int, dead: int -> bool, hist: seq<int>, p: int,
                                            hist': seq<int>, p': int, layer: nat, s: nat, shift: nat)
    requires Bounded(tb, vocab) && layer < |tb.multipliers| && shift < tb.maxNgram
    requires DifferAt(tb, dead, hist, p, hist', p', shift + 1, s)
    ensures Rolling(tb, dead, hist, p, layer, shift) == Rolling(tb, dead, hist', p', layer, shift) <==>
      s > shift || Back(tb, dead, hist, p, s) == Back(tb, dead, hist', p', s)
  {
    OneTokenDecides(tb, dead, hist, p, hist', p', layer, s, shift);
    if s <= shift {
      var a, b, m := Back(tb, dead, hist, p, s), Back(tb, dead, hist', p', s), tb.multipliers[layer][s];
      SourceBounded(tb, vocab, dead, hist[p - s]);
      SourceBounded(tb, vocab, dead, hist'[p' - s]);
      assert IsMultiplier(vocab, m);
      var draw :| 0 <= draw < MultiplierBound(vocab) && m == Multiplier(draw);
      ProductFits(vocab, draw, a);
      ProductFits(vocab, draw, b);
      ProductsDiffer(a, b, m);
    }
  }

  /** The id of a column whose bucket ends within int32: where the bucket starts, plus the rolling value
      of the column's n-gram size modulo the bucket's size. */
  lemma {:induction false} IdIs(tb: Tables, vocab: int, dead: int -> bool, hist: seq<int>, p: int, layer: nat, c: nat)
    requires Bounded(tb, vocab) && OffsetsOf(tb) && layer < |tb.multipliers| && c < tb.Cols()
    requires 0 <= p < |hist| && BucketFits(tb, layer, c)
    ensures tb.numHeads > 0 && 0 <= c / tb.numHeads + 1 < tb.maxNgram
    ensures HashAt(tb, dead, hist, p, layer, c) == Sum(tb.primes[layer][..c])
      + Rolling(tb, dead, hist, p, layer, c / tb.numHeads + 1) % tb.primes[layer][c]
  {
    ShiftOfCol(tb, c);
    ShiftIsQuotient(c, tb.numHeads);
    RollingFits(tb, vocab, dead, hist, p, layer, ShiftOf(c, tb.numHeads));
    BucketBounds(tb.primes[layer], c);
    StoredIs(Rolling(tb, dead, hist, p, layer, ShiftOf(c, tb.numHeads)), tb.primes[layer][c], tb.offsets[layer][c]);
  }

  lemma StoredIs(rolling: nat, prime: int, offset: int)
    requires prime > 0 && offset >= 0 && offset + prime <= Pow2(31)
    ensures StoredId(32, rolling, prime, offset) == rolling % prime + offset
  {
    WrapFits(32, TruncMod(rolling, prime) + offset);
  }

  /** The marker of dead tokens is no compressed id: with ids as built exactly the dead tokens break. */
  lemma OnlyDeadTokensBreak(tb: Tables, vocab: int, dead: int -> bool, token: int)
    requires Bounded(tb, vocab)
    ensures Source(tb, dead, token) == DEAD_ID <==> dead(token)
    ensures !dead(token) ==> 0 <= Source(tb, dead, token) < vocab
  {
  }

  /** The multipliers that can be drawn: the odd numbers up to the largest that keeps products in int64,
      and 1 in any case. */
  lemma MultipliersAre(vocab: int, m: int)
    requires vocab >= 1
    ensures IsMultiplier(vocab, m) <==> m % 2 == 1 && (m == 1 || 1 <= m < (Pow2(63) - 1) / vocab)
  {
    var q, bound := (Pow2(63) - 1) / vocab, MultiplierBound(vocab);
    OddBelow(q, bound, m);
    DrawOf(bound, m);
  }

  lemma DrawOf(bound: int, m: int)
    ensures (exists draw :: 0 <= draw < bound && m == Multiplier(draw)) <==> 0 <= m / 2 < bound && m == m / 2 * 2 + 1
  {
    if 0 <= m / 2 < bound && m == m / 2 * 2 + 1 {
      assert m == Multiplier(m / 2);
    }
  }

  lemma OddBelow(q: int, bound: int, m: int)
    requires bound == Max(1, q / 2)
    ensures m % 2 == 1 && (m == 1 || 1 <= m < q) <==> 0 <= m / 2 < bound && m == m / 2 * 2 + 1
  {
  }

  // ------------------------------------------------------------ what lies behind a break

  /** Tokens with the same terms have the same ids. */
  lemma SameTermsSameId(tb: Tables, dead: int -> bool, hist: seq<int>, p: int, hist': seq<int>, p': int, layer: nat,
                        c: nat)
    requires tb.Valid() && 0 <= p < |hist| && 0 <= p' < |hist'| && layer < |tb.multipliers| && c < tb.Cols()
    requires forall j: nat :: j < tb.maxNgram && j * tb.numHeads <= c + tb.numHeads ==>
      Term(tb, dead, hist, p, layer, j) == Term(tb, dead, hist', p', layer, j)
    ensures HashAt(tb, dead, hist, p, layer, c) == HashAt(tb, dead, hist', p', layer, c)
  {
    ShiftOfCol(tb, c);
    ShiftIsQuotient(c, tb.numHeads);
    var s := ShiftOf(c, tb.numHeads);
    forall j: nat | j <= s ensures j * tb.numHeads <= c + tb.numHeads {
      MulMono(j, s, tb.numHeads);
      assert c == c / tb.numHeads * tb.numHeads + c % tb.numHeads;
      assert s * tb.numHeads == c / tb.numHeads * tb.numHeads + tb.numHeads;
    }
    assert Terms(tb, dead, hist, p, layer, s + 1) == Terms(tb, dead, hist', p', layer, s + 1);
    RollingIsXorAll(tb, dead, hist, p, layer, s);
    RollingIsXorAll(tb, dead, hist', p', layer, s);
  }

  /** A column that reaches back s positions does not see what lies further back. */
  lemma OnlyItsTokens(tb: Tables, dead: int -> bool, hist: seq<int>, p: int, hist': seq<int>, p': int, layer: nat,
                      c: nat, n: nat)
    requires tb.Valid() && layer < |tb.multipliers| && c < tb.Cols() && c < n * tb.numHeads
    requires n + 1 <= p + 1 <= |hist| && n + 1 <= p' + 1 <= |hist'|
    requires forall j: nat :: j <= n ==> Back(tb, dead, hist, p, j) == Back(tb, dead, hist', p', j)
    ensures HashAt(tb, dead, hist, p, layer, c) == HashAt(tb, dead, hist', p', layer, c)
  {
    ShiftOfCol(tb, c);
    assert (n + 1) * tb.numHeads == n * tb.numHeads + tb.numHeads;
    forall j: nat | j < tb.maxNgram && j * tb.numHeads <= c + tb.numHeads
      ensures Term(tb, dead, hist, p, layer, j) == Term(tb, dead, hist', p', layer, j)
    {
      MulMono(n + 1, Max(j, n + 1), tb.numHeads);
      SameBlocked(tb, dead, hist, p, hist', p', j);
      assert Back(tb, dead, hist, p, j) == Back(tb, dead, hist', p', j);
      SameTerm(tb, dead, hist, p, hist', p', layer, j);
    }
    SameTermsSameId(tb, dead, hist, p, hist', p', layer, c);
  }

  lemma SameTerm(tb: Tables, dead: int -> bool, hist: seq<int>, p: int, hist': seq<int>, p': int, layer: nat, j: nat)
    requires tb.Valid() && 0 <= p < |hist| && 0 <= p' < |hist'| && layer < |tb.multipliers| && j < tb.maxNgram
    requires Blocked(tb, dead, hist, p, j) <==> Blocked(tb, dead, hist', p', j)
    requires Blocked(tb, dead, hist, p, j)
      || (j <= p && j <= p' && Back(tb, dead, hist, p, j) == Back(tb, dead, hist', p', j))
    ensures Term(tb, dead, hist, p, layer, j) == Term(tb, dead, hist', p', layer, j)
  {
  }

  lemma SameBlocked(tb: Tables, dead: int -> bool, hist: seq<int>, p: int, hist': seq<int>, p': int, j: nat)
    requires j <= p < |hist| && j <= p' < |hist'|
    requires forall i: nat :: i <= j ==> Back(tb, dead, hist, p, i) == Back(tb, dead, hist', p', i)
    ensures Blocked(tb, dead, hist, p, j) <==> Blocked(tb, dead, hist', p', j)
  {
    if Blocked(tb, dead, hist, p, j) {
      var q :| p - j <= q <= p && BreaksAt(tb, dead, hist, q);
      assert Back(tb, dead, hist, p, p - q) == Back(tb, dead, hist', p', p - q);
      assert BreaksAt(tb, dead, hist', p' - (p - q));
    }
    if Blocked(tb, dead, hist', p', j) {
      var q :| p' - j <= q <= p' && BreaksAt(tb, dead, hist', q);
      assert Back(tb, dead, hist, p, p' - q) == Back(tb, dead, hist', p', p' - q);
      assert BreaksAt(tb, dead, hist, p - (p' - q));
    }
  }

  /** A dead token cuts the history: what follows it is hashed as if the sequence started there. */
  lemma DeadTokenRestarts(tb: Tables, dead: int -> bool, hist: seq<int>, d: nat, p: int, layer: nat, c: nat)
    requires tb.Valid() && d < p < |hist| && Source(tb, dead, hist[d]) == DEAD_ID
    requires layer < |tb.multipliers| && c < tb.Cols()
    ensures HashAt(tb, dead, hist, p, layer, c) == HashAt(tb, dead, hist[d + 1..], p - d - 1, layer, c)
  {
    var rest := hist[d + 1..];
    forall j: nat | j < tb.maxNgram
      ensures Term(tb, dead, hist, p, layer, j) == Term(tb, dead, rest, p - d - 1, layer, j)
    {
      if p - j <= d {
        assert BreaksAt(tb, dead, hist, d) && BreaksAt(tb, dead, rest, -1);
      } else {
        forall i: nat | i <= j ensures Back(tb, dead, hist, p, i) == Back(tb, dead, rest, p - d - 1, i) {
        }
        SameBlocked(tb, dead, hist, p, rest, p - d - 1, j);
      }
    }
    SameTermsSameId(tb, dead, hist, p, rest, p - d - 1, layer, c);
  }

  /** The start of a sequence acts as an endless run of padding in front of it. */
  lemma StartIsPadding(tb: Tables, dead: int -> bool, pads: seq<int>, hist: seq<int>, p: int, layer: nat, c: nat)
    requires tb.Valid() && 0 <= p < |hist| && layer < |tb.multipliers| && c < tb.Cols() && tb.padId != DEAD_ID
    requires forall i :: 0 <= i < |pads| ==> Source(tb, dead, pads[i]) == tb.padId
    ensures HashAt(tb, dead, pads + hist, |pads| + p, layer, c) == HashAt(tb, dead, hist, p, layer, c)
  {
    var whole, at := pads + hist, |pads| + p;
    forall j: nat | j < tb.maxNgram ensures Term(tb, dead, whole, at, layer, j) == Term(tb, dead, hist, p, layer, j) {
      PaddedTerm(tb, dead, pads, hist, p, layer, j);
    }
    SameTermsSameId(tb, dead, whole, at, hist, p, layer, c);
  }

  /** Behind padding a break inside the sequence is still a break, and its start is none. */
  lemma PaddedBreaks(tb: Tables, dead: int -> bool, pads: seq<int>, hist: seq<int>, q: int)
    requires -|pads| <= q < |hist| && tb.padId != DEAD_ID
    requires forall i :: 0 <= i < |pads| ==> Source(tb, dead, pads[i]) == tb.padId
    ensures BreaksAt(tb, dead, pads + hist, |pads| + q) <==> q >= 0 && BreaksAt(tb, dead, hist, q)
  {
    assert (pads + hist)[|pads| + q] == if q < 0 then pads[|pads| + q] else hist[q];
  }

  lemma PaddedTerm(tb: Tables, dead: int -> bool, pads: seq<int>, hist: seq<int>, p: int, layer: nat, j: nat)
    requires tb.Valid() && 0 <= p < |hist| && layer < |tb.multipliers| && j < tb.maxNgram && tb.padId != DEAD_ID
    requires forall i :: 0 <= i < |pads| ==> Source(tb, dead, pads[i]) == tb.padId
    ensures Term(tb, dead, pads + hist, |pads| + p, layer, j) == Term(tb, dead, hist, p, layer, j)
  {
    var whole, at := pads + hist, |pads| + p;
    forall q | -|pads| <= q < |hist|
      ensures BreaksAt(tb, dead, whole, |pads| + q) <==> q >= 0 && BreaksAt(tb, dead, hist, q)
    {
      PaddedBreaks(tb, dead, pads, hist, q);
    }
    if Blocked(tb, dead, whole, at, j) {
      var r :| at - j <= r <= at && BreaksAt(tb, dead, whole, r);
      var q := r - |pads|;
      assert r == |pads| + q;
      assert BreaksAt(tb, dead, hist, if q < 0 then -1 else q);
      assert p - j <= (if q < 0 then -1 else q) <= p;
    } else if Blocked(tb, dead, hist, p, j) {
      var q :| p - j <= q <= p && BreaksAt(tb, dead, hist, q);
      assert !BreaksAt(tb, dead, whole, |pads| + q);
      assert !BreaksAt(tb, dead, whole, at - j);
      assert q < 0 && whole[at - j] == pads[at - j];
    } else {
      assert !BreaksAt(tb, dead, hist, p - j);
      assert whole[at - j] == hist[p - j];
    }
  }
}
