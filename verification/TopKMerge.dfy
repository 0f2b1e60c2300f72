/** The exchange of local top-K candidates between ranks, under the stable selector's total order
    on (score, token id). */
module TopKMerge {
  import opened Arith
  import opened Wrappers

  datatype Cand = Cand(score: real, id: int)

  /** Higher score first, then the lower token id. */
  predicate Beats(x: Cand, y: Cand) {
    x.score > y.score || (x.score == y.score && x.id < y.id)
  }

  ghost function Beaters(s: set<Cand>, x: Cand): (b: set<Cand>)
    ensures forall y :: y in b <==> y in s && Beats(y, x)
  {
    set y | y in s && Beats(y, x)
  }

  /** The tokens that fewer than k others rank above. */
  ghost function TopK(s: set<Cand>, k: nat): (t: set<Cand>)
    ensures forall x :: x in t <==> x in s && |Beaters(s, x)| < k
  {
    set x | x in s && |Beaters(s, x)| < k
  }

  /** Some token that every other one ranks above. */
  lemma {:induction false} Last(s: set<Cand>) returns (m: Cand)
    requires s != {}
    ensures m in s && forall y :: y in s && y != m ==> Beats(y, m)
    decreases |s|
  {
    var x := Pick(s);
    if s == {x} {
      m := x;
    } else {
      var n := Last(s - {x});
      assert s == (s - {x}) + {x};
      m := if Beats(x, n) then n else x;
    }
  }

  /** Dropping the last token changes no other token's rank. */
  lemma BeatersWithoutLast(s: set<Cand>, m: Cand, x: Cand)
    requires m in s && x in s && forall y :: y in s && y != m ==> Beats(y, m)
    ensures x != m ==> Beaters(s - {m}, x) == Beaters(s, x)
    ensures x == m ==> Beaters(s, x) == s - {m}
  {
  }

  lemma TopKOfFew(s: set<Cand>, k: nat)
    requires |s| <= k
    ensures TopK(s, k) == s
  {
    forall x | x in s ensures |Beaters(s, x)| < k {
      SubsetSize(Beaters(s, x), s - {x});
    }
  }

  lemma TopKWithoutLast(s: set<Cand>, m: Cand, k: nat)
    requires m in s && k < |s| && forall y :: y in s && y != m ==> Beats(y, m)
    ensures TopK(s, k) == TopK(s - {m}, k)
  {
    forall x | x in s ensures x in TopK(s, k) <==> x in TopK(s - {m}, k) {
      BeatersWithoutLast(s, m, x);
    }
  }

  /** The top K holds K tokens, or all if there are fewer. */
  lemma {:induction false} TopKSize(s: set<Cand>, k: nat)
    ensures |TopK(s, k)| == Min(k, |s|)
    decreases |s|
  {
    if |s| <= k {
      TopKOfFew(s, k);
    } else {
      var m := Last(s);
      TopKSize(s - {m}, k);
      TopKWithoutLast(s, m, k);
    }
  }

  /** Selected tokens rank above the rest. */
  lemma TopKBeatsRest(s: set<Cand>, k: nat, x: Cand, y: Cand)
    requires x in TopK(s, k) && y in s && y !in TopK(s, k)
    ensures Beats(x, y)
  {
    if !Beats(x, y) {
      assert x != y;
      SubsetSize(Beaters(s, y), Beaters(s, x));
    }
  }

  /** Read as scores: a selected token scores at least as high as one left out, and on a tie its id is
      lower. */
  lemma SelectedScoresHigher(s: set<Cand>, k: nat, x: Cand, y: Cand)
    requires x in TopK(s, k) && y in s && y !in TopK(s, k)
    ensures x.score >= y.score && (x.score == y.score ==> x.id < y.id)
  {
    TopKBeatsRest(s, k, x, y);
  }

  ghost function Union(parts: seq<set<Cand>>): set<Cand> {
    if parts == [] then {} else Union(parts[..|parts| - 1]) + parts[|parts| - 1]
  }

  /** What the ranks send: each its local top K. */
  ghost function Candidates(parts: seq<set<Cand>>, k: nat): set<Cand> {
    if parts == [] then {} else Candidates(parts[..|parts| - 1], k) + TopK(parts[|parts| - 1], k)
  }

  lemma {:induction false} CandidatesWithin(parts: seq<set<Cand>>, k: nat)
    ensures Candidates(parts, k) <= Union(parts)
  {
    if parts != [] {
      CandidatesWithin(parts[..|parts| - 1], k);
    }
  }

  /** A token of the global top K is in the local top K of a rank that holds it. */
  lemma {:induction false} GlobalIsLocal(parts: seq<set<Cand>>, whole: set<Cand>, k: nat, x: Cand)
    requires Union(parts) <= whole && x in Union(parts) && x in TopK(whole, k)
    ensures x in Candidates(parts, k)
  {
    var last, rest := parts[|parts| - 1], parts[..|parts| - 1];
    if x in last {
      SubsetSize(Beaters(last, x), Beaters(whole, x));
    } else {
      GlobalIsLocal(rest, whole, k, x);
    }
  }

  /** Exchanging only the local top-K candidates is exact: the top K of what the ranks send is the
      top K of all tokens, however they are spread over the ranks. */
  lemma {:induction false} MergeExact(parts: seq<set<Cand>>, k: nat)
    ensures TopK(Candidates(parts, k), k) == TopK(Union(parts), k)
  {
    var whole, sent := Union(parts), Candidates(parts, k);
    CandidatesWithin(parts, k);
    forall x | x in TopK(whole, k) ensures x in TopK(sent, k) {
      GlobalIsLocal(parts, whole, k, x);
      SubsetSize(Beaters(sent, x), Beaters(whole, x));
    }
    forall x | x in sent && x !in TopK(whole, k) ensures x !in TopK(sent, k) {
      OutrankedIsOut(parts, k, x);
    }
  }

  /** A token outside the global top K is ranked below k of the tokens that are sent. */
  lemma {:induction false} OutrankedIsOut(parts: seq<set<Cand>>, k: nat, x: Cand)
    requires x in Union(parts) && x !in TopK(Union(parts), k)
    ensures |Beaters(Candidates(parts, k), x)| >= k
  {
    var whole, sent := Union(parts), Candidates(parts, k);
    TopKSize(whole, k);
    SubsetSize(Beaters(whole, x), whole);
    forall y | y in TopK(whole, k) ensures y in Beaters(sent, x) {
      TopKBeatsRest(whole, k, y, x);
      GlobalIsLocal(parts, whole, k, y);
    }
    SubsetSize(TopK(whole, k), Beaters(sent, x));
  }

  // ------------------------------------------------------------ rows of slots

  /** A row as it travels and as it is stored: one slot per selected token in any order; a slot
      without a token is stored as -1. */
  type Row = seq<Option<Cand>>

  ghost function InSlots(row: Row): set<Cand> {
    if row == [] then {}
    else
      match row[|row| - 1]
      case Some(c) => InSlots(row[..|row| - 1]) + {c}
      case None => InSlots(row[..|row| - 1])
  }

  ghost function EmptySlots(row: Row): nat {
    if row == [] then 0
    else EmptySlots(row[..|row| - 1]) + if row[|row| - 1].None? then 1 else 0
  }

  ghost predicate NoneTwice(row: Row) {
    forall i, j :: 0 <= i < j < |row| && row[i].Some? ==> row[i] != row[j]
  }

  /** k slots that hold the tokens of s, each once. */
  ghost predicate Holds(row: Row, s: set<Cand>, k: nat) {
    |row| == k && NoneTwice(row) && InSlots(row) == s
  }

  lemma {:induction false} InSlotsAt(row: Row, c: Cand)
    ensures c in InSlots(row) <==> Some(c) in row
  {
    if row != [] {
      InSlotsAt(row[..|row| - 1], c);
      assert row == row[..|row| - 1] + [row[|row| - 1]];
    }
  }

  lemma {:induction false} SlotsAddUp(row: Row)
    requires NoneTwice(row)
    ensures |InSlots(row)| + EmptySlots(row) == |row|
  {
    if row != [] {
      var rest, last := row[..|row| - 1], row[|row| - 1];
      SlotsAddUp(rest);
      if last.Some? {
        InSlotsAt(rest, last.value);
        assert last !in rest;
      }
    }
  }

  /** Everything in the gathered rows. */
  ghost function Gathered(rows: seq<Row>): set<Cand> {
    if rows == [] then {} else Gathered(rows[..|rows| - 1]) + InSlots(rows[|rows| - 1])
  }

  /** Every rank's row holds its local top K. */
  ghost predicate SentBy(parts: seq<set<Cand>>, k: nat, rows: seq<Row>) {
    |rows| == |parts| && forall r :: 0 <= r < |parts| ==> Holds(rows[r], TopK(parts[r], k), k)
  }

  lemma SlotsOf(parts: seq<set<Cand>>, k: nat, rows: seq<Row>, r: nat)
    requires SentBy(parts, k, rows) && r < |rows|
    ensures InSlots(rows[r]) == TopK(parts[r], k)
  {
    assert Holds(rows[r], TopK(parts[r], k), k);
  }

  lemma {:induction false} GatheredLast(rows: seq<Row>)
    requires rows != []
    ensures Gathered(rows) == Gathered(rows[..|rows| - 1]) + InSlots(rows[|rows| - 1])
  {
  }

  lemma {:induction false} CandidatesLast(parts: seq<set<Cand>>, k: nat)
    requires parts != []
    ensures Candidates(parts, k) == Candidates(parts[..|parts| - 1], k) + TopK(parts[|parts| - 1], k)
  {
  }

  lemma SentByFront(parts: seq<set<Cand>>, k: nat, rows: seq<Row>)
    requires SentBy(parts, k, rows) && parts != []
    ensures SentBy(parts[..|parts| - 1], k, rows[..|parts| - 1])
  {
  }

  lemma {:induction false} GatheredIsCandidates(parts: seq<set<Cand>>, k: nat, rows: seq<Row>)
    requires SentBy(parts, k, rows)
    ensures Gathered(rows) == Candidates(parts, k)
  {
    if parts != [] {
      var n := |parts| - 1;
      SlotsOf(parts, k, rows, n);
      SentByFront(parts, k, rows);
      GatheredIsCandidates(parts[..n], k, rows[..n]);
      GatheredLast(rows);
      CandidatesLast(parts, k);
    }
  }

  /** A row selected from the gathered rows holds the global top K, each token once, and is padded
      exactly where there are fewer than K tokens; the ranks' own padding takes no slot. */
  lemma {:induction false} MergedRowExact(parts: seq<set<Cand>>, k: nat, rows: seq<Row>, merged: Row)
    requires SentBy(parts, k, rows) && Holds(merged, TopK(Gathered(rows), k), k)
    ensures Holds(merged, TopK(Union(parts), k), k)
    ensures EmptySlots(merged) == k - Min(k, |Union(parts)|)
  {
    GatheredIsCandidates(parts, k, rows);
    MergeExact(parts, k);
    SlotsAddUp(merged);
    TopKSize(Union(parts), k);
  }
}
