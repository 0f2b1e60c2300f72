/** Filtering lists, and stretches of a list that stand together. */
module Lists {

  /** The elements that are kept, in order. */
  function Filter<T>(s: seq<T>, keep: T -> bool): (r: seq<T>)
    ensures |r| <= |s|
  {
    if s == [] then []
    else
      var last := s[|s| - 1];
      Filter(s[..|s| - 1], keep) + if keep(last) then [last] else []
  }

  lemma {:induction false} FilterSnoc<T>(s: seq<T>, x: T, keep: T -> bool)
    ensures Filter(s + [x], keep) == Filter(s, keep) + if keep(x) then [x] else []
  {
    assert (s + [x])[..|s|] == s;
  }

  lemma {:induction false} FilterConcat<T>(s: seq<T>, t: seq<T>, keep: T -> bool)
    ensures Filter(s + t, keep) == Filter(s, keep) + Filter(t, keep)
  {
    if t == [] {
      assert s + t == s;
    } else {
      var u, x := t[..|t| - 1], t[|t| - 1];
      FilterConcat(s, u, keep);
      assert s + t == (s + u) + [x];
      FilterSnoc(s + u, x, keep);
    }
  }

  lemma {:induction false} FilterIn<T>(s: seq<T>, keep: T -> bool, x: T)
    ensures x in Filter(s, keep) <==> x in s && keep(x)
  {
    if s != [] {
      FilterIn(s[..|s| - 1], keep, x);
      assert s == s[..|s| - 1] + [s[|s| - 1]];
    }
  }

  lemma {:induction false} FilterAll<T>(s: seq<T>, keep: T -> bool)
    requires forall i :: 0 <= i < |s| ==> keep(s[i])
    ensures Filter(s, keep) == s
  {
    if s != [] {
      FilterAll(s[..|s| - 1], keep);
    }
  }

  lemma {:induction false} FilterNone<T>(s: seq<T>, keep: T -> bool)
    requires forall i :: 0 <= i < |s| ==> !keep(s[i])
    ensures Filter(s, keep) == []
  {
    if s != [] {
      FilterNone(s[..|s| - 1], keep);
    }
  }

  /** Only how the elements of the list are judged matters. */
  lemma {:induction false} FilterSame<T>(s: seq<T>, keep: T -> bool, keep': T -> bool)
    requires forall i :: 0 <= i < |s| ==> (keep(s[i]) <==> keep'(s[i]))
    ensures Filter(s, keep) == Filter(s, keep')
  {
    if s != [] {
      FilterSame(s[..|s| - 1], keep, keep');
    }
  }

  lemma {:induction false} FilterSwap<T>(s: seq<T>, keep: T -> bool, keep': T -> bool)
    ensures Filter(Filter(s, keep), keep') == Filter(Filter(s, keep'), keep)
  {
    if s != [] {
      var rest, x := s[..|s| - 1], s[|s| - 1];
      FilterSwap(rest, keep, keep');
      if keep(x) { FilterSnoc(Filter(rest, keep), x, keep'); }
      if keep'(x) { FilterSnoc(Filter(rest, keep'), x, keep); }
      assert Filter(rest, keep) + [] == Filter(rest, keep) && Filter(rest, keep') + [] == Filter(rest, keep');
    }
  }

  // ------------------------------------------------------------ elements that stand together

  /** The elements kept are those at positions lo .. hi - 1. */
  ghost predicate RunOf<T>(s: seq<T>, keep: T -> bool, lo: nat, hi: nat) {
    lo <= hi <= |s| && forall k :: 0 <= k < |s| ==> (keep(s[k]) <==> lo <= k < hi)
  }

  /** The elements kept stand next to each other in the list. */
  ghost predicate Consecutive<T>(s: seq<T>, keep: T -> bool) {
    exists lo: nat, hi: nat :: RunOf(s, keep, lo, hi)
  }

  /** A list cut around the elements kept. */
  ghost predicate CutAround<T>(s: seq<T>, keep: T -> bool, a: seq<T>, b: seq<T>, c: seq<T>) {
    && s == a + b + c && (forall i :: 0 <= i < |a| ==> !keep(a[i]))
    && (forall i :: 0 <= i < |b| ==> keep(b[i])) && (forall i :: 0 <= i < |c| ==> !keep(c[i]))
  }

  lemma CutIsRun<T>(s: seq<T>, keep: T -> bool, a: seq<T>, b: seq<T>, c: seq<T>)
    requires CutAround(s, keep, a, b, c)
    ensures RunOf(s, keep, |a|, |a| + |b|) && Consecutive(s, keep)
  {
    forall k | 0 <= k < |s| ensures keep(s[k]) <==> |a| <= k < |a| + |b| {
      if k < |a| {
        assert s[k] == a[k];
      } else if k < |a| + |b| {
        assert s[k] == b[k - |a|];
      } else {
        assert s[k] == c[k - |a| - |b|];
      }
    }
  }

  lemma RunIsCut<T>(s: seq<T>, keep: T -> bool, lo: nat, hi: nat)
    requires RunOf(s, keep, lo, hi)
    ensures CutAround(s, keep, s[..lo], s[lo..hi], s[hi..])
  {
  }

  lemma {:induction false} FilterKeepsJudgement<T>(s: seq<T>, sift: T -> bool, keep: T -> bool, yes: bool)
    requires forall i :: 0 <= i < |s| ==> keep(s[i]) == yes
    ensures forall i :: 0 <= i < |Filter(s, sift)| ==> keep(Filter(s, sift)[i]) == yes
  {
    forall i | 0 <= i < |Filter(s, sift)| ensures keep(Filter(s, sift)[i]) == yes {
      FilterIn(s, sift, Filter(s, sift)[i]);
    }
  }

  /** What stands together still does when other elements are sifted out. */
  lemma {:induction false} SiftedConsecutive<T>(s: seq<T>, sift: T -> bool, keep: T -> bool)
    requires Consecutive(s, keep)
    ensures Consecutive(Filter(s, sift), keep)
  {
    var lo: nat, hi: nat :| RunOf(s, keep, lo, hi);
    var a, b, c := s[..lo], s[lo..hi], s[hi..];
    RunIsCut(s, keep, lo, hi);
    FilterConcat(a + b, c, sift);
    FilterConcat(a, b, sift);
    FilterKeepsJudgement(a, sift, keep, false);
    FilterKeepsJudgement(b, sift, keep, true);
    FilterKeepsJudgement(c, sift, keep, false);
    CutIsRun(Filter(s, sift), keep, Filter(a, sift), Filter(b, sift), Filter(c, sift));
  }
}
