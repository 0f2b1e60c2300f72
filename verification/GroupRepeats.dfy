/** What the numbers of the packed grouping mean: padding as wasted repeats, the repeat floor, the number of
    groups a bucket is split into, and mixed buckets staying whole. */
module GroupRepeats {
  import opened Arith
  import opened Wrappers
  import opened Grouping

  // ------------------------------------------------------------ padding

  /** A value's padding is the least amount that makes it a multiple of the size. */
  lemma PaddingOfLast(values: seq<int>, d: int) returns (q: int)
    requires values != [] && d > 0
    ensures var pad, v := Padding(values, d) - Padding(values[..|values| - 1], d), values[|values| - 1];
      0 <= pad < d && v + pad == q * d
  {
    q := FillUp(values[|values| - 1], d);
  }

  lemma FillUp(v: int, d: int) returns (q: int)
    requires d > 0
    ensures 0 <= (d - v % d) % d < d && v + (d - v % d) % d == q * d
  {
    assert v == v / d * d + v % d;
    if v % d == 0 {
      DivModUnique(d, d, 1, 0);
      q := v / d;
    } else {
      DivModUnique(d - v % d, d, 0, d - v % d);
      q := v / d + 1;
      assert q * d == v / d * d + d;
    }
  }

  // ------------------------------------------------------------ lengths and repeats

  /** Every page size of the bucket has this many layers. */
  ghost predicate AllOfLength(b: Bucket, m: int) {
    forall c :: c in b.classes ==> |c| == m
  }

  lemma {:induction false} LenBounds(classes: seq<seq<Layer>>, c: seq<Layer>)
    requires classes != [] && c in classes
    ensures MinLen(classes) <= |c| <= MaxLen(classes)
  {
    var rest, last := classes[..|classes| - 1], classes[|classes| - 1];
    if |classes| > 1 && c != last {
      assert classes == rest + [last];
      LenBounds(rest, c);
    }
  }

  lemma {:induction false} LenAttained(classes: seq<seq<Layer>>) returns (c: seq<Layer>, d: seq<Layer>)
    requires classes != []
    ensures c in classes && d in classes && |c| == MinLen(classes) && |d| == MaxLen(classes)
  {
    var rest, last := classes[..|classes| - 1], classes[|classes| - 1];
    c, d := last, last;
    if |classes| > 1 {
      var c', d' := LenAttained(rest);
      if MinLen(classes) == |c'| { c := c'; }
      if MaxLen(classes) == |d'| { d := d'; }
    }
  }

  /** A bucket is balanced exactly when all its page sizes have as many layers as the largest one. */
  lemma BalancedIs(b: Bucket)
    requires b.classes != []
    ensures Balanced(b) <==> AllOfLength(b, MaxLen(b.classes))
  {
    var c, d := LenAttained(b.classes);
    forall x | x in b.classes ensures MinLen(b.classes) <= |x| <= MaxLen(b.classes) {
      LenBounds(b.classes, x);
    }
  }

  ghost predicate MixedBalanced(b: Bucket) { b.classes != [] && |b.classes| > 1 && Balanced(b) }

  lemma {:induction false} MinRepeatsLast(bs: seq<Bucket>)
    requires AllValid(bs) && bs != []
    ensures var b, rest := bs[|bs| - 1], MinRepeats(bs[..|bs| - 1]);
      MinRepeats(bs) == if MixedBalanced(b) then Max(rest, MaxLen(b.classes)) else rest
  {
  }

  lemma {:induction false} MinRepeatsBound(bs: seq<Bucket>, i: nat)
    requires AllValid(bs) && i < |bs| && MixedBalanced(bs[i])
    ensures MaxLen(bs[i].classes) <= MinRepeats(bs)
  {
    MinRepeatsLast(bs);
    if i < |bs| - 1 { MinRepeatsBound(bs[..|bs| - 1], i); }
  }

  lemma {:induction false} MinRepeatsAttained(bs: seq<Bucket>) returns (k: nat)
    requires AllValid(bs) && MinRepeats(bs) > 0
    ensures k < |bs| && MixedBalanced(bs[k]) && MaxLen(bs[k].classes) == MinRepeats(bs)
  {
    MinRepeatsLast(bs);
    if MinRepeats(bs) == MinRepeats(bs[..|bs| - 1]) {
      k := MinRepeatsAttained(bs[..|bs| - 1]);
    } else {
      k := |bs| - 1;
    }
  }

  /** The repeat floor is the length of the longest balanced bucket that mixes page sizes, 0 without one. */
  lemma {:induction false} MinRepeatsIs(bs: seq<Bucket>, m: nat)
    requires AllValid(bs)
    ensures MinRepeats(bs) <= m <==> forall i :: 0 <= i < |bs| && MixedBalanced(bs[i]) ==> MaxLen(bs[i].classes) <= m
  {
    forall i | 0 <= i < |bs| && MixedBalanced(bs[i]) ensures MaxLen(bs[i].classes) <= MinRepeats(bs) {
      MinRepeatsBound(bs, i);
    }
    if MinRepeats(bs) > 0 { var k := MinRepeatsAttained(bs); }
  }

  /** Nothing is packed exactly when no balanced bucket mixes page sizes. */
  lemma NothingToPack(bs: seq<Bucket>, fine: bool, repeats: Option<int>)
    requires AllValid(bs) && ChosenRepeats(bs, fine, repeats)
    ensures repeats.None? <==> forall i :: 0 <= i < |bs| ==> !MixedBalanced(bs[i])
  {
    forall i | 0 <= i < |bs| && MixedBalanced(bs[i]) ensures repeats.Some? {
      ClassesLong(bs[i]);
      MinRepeatsBound(bs, i);
    }
    if MinRepeats(bs) > 0 { var k := MinRepeatsAttained(bs); }
  }

  lemma LengthOf(b: Bucket)
    requires ValidBucket(b)
    ensures Balanced(b) <==> AllOfLength(b, |b.classes[0]|)
    ensures Balanced(b) ==> MaxLen(b.classes) == |b.classes[0]|
  {
    BalancedIs(b);
    assert b.classes[0] in b.classes;
    var c, d := LenAttained(b.classes);
    assert AllOfLength(b, |b.classes[0]|) ==> |d| == |b.classes[0]|;
  }

  lemma {:induction false} LengthsLast(bs: seq<Bucket>)
    requires AllValid(bs) && bs != []
    ensures Lengths(bs) == Lengths(bs[..|bs| - 1])
      + if Balanced(bs[|bs| - 1]) then multiset{MaxLen(bs[|bs| - 1].classes)} else multiset{}
  {
    LengthOf(bs[|bs| - 1]);
  }

  /** The values the repeats are chosen for: one per balanced bucket, its length, and no other. */
  lemma {:induction false} BalancedRepeatsAre(bs: seq<Bucket>)
    requires AllValid(bs)
    ensures multiset(BalancedRepeats(bs)) == Lengths(bs)
  {
    if bs != [] {
      BalancedRepeatsAre(bs[..|bs| - 1]);
      BalancedRepeatsLast(bs);
      LengthsLast(bs);
    }
  }

  /** The common length of every bucket whose page sizes all have the same number of layers. */
  ghost function Lengths(bs: seq<Bucket>): multiset<int>
    requires AllValid(bs)
  {
    if bs == [] then multiset{}
    else
      var b := bs[|bs| - 1];
      Lengths(bs[..|bs| - 1]) + if AllOfLength(b, |b.classes[0]|) then multiset{|b.classes[0]|} else multiset{}
  }

  // ------------------------------------------------------------ the number of groups

  /** The least number of groups in which no group of a balanced bucket has more than the chosen repeats. */
  lemma GroupsAreFewest(b: Bucket, repeats: int, n: int)
    requires ValidBucket(b) && Balanced(b) && repeats > 0 && n > 0
    ensures NumGroupsFor(b, Some(repeats)) <= n <==> CeilDiv(|b.classes[0]|, n) <= repeats
  {
    BalancedIs(b);
    assert b.classes[0] in b.classes;
    var m := MaxLen(b.classes);
    CeilDivLeast(m, repeats, n);
    CeilDivLeast(m, n, repeats);
    assert n * repeats == repeats * n;
  }

  /** State buckets, and sliding-window buckets when nothing is packed, are dealt to the fewest groups that
      hold no more states each than the block already fits, one at least. */
  lemma StateGroupsAreFewest(b: Bucket, repeats: Option<int>, anchor: int, n: int)
    requires ValidBucket(b) && (repeats.Some? ==> repeats.value > 0) && anchor > 0 && n > 0
    requires b.kind.StateKind? || (b.kind.SlidingWindowKind? && repeats.None?)
    ensures GroupCount(b, repeats, anchor) <= n <==>
      NumGroupsFor(b, repeats) <= n && CeilDiv(|b.layers|, n) <= Max(anchor / b.layers[0].page, 1)
  {
    var perBlock := Max(anchor / b.layers[0].page, 1);
    CeilDivLeast(|b.layers|, perBlock, n);
    CeilDivLeast(|b.layers|, n, perBlock);
    assert n * perBlock == perBlock * n;
  }

  /** Every other bucket is dealt as its repeats say, whatever the block. */
  lemma OtherGroupsAsRepeats(b: Bucket, repeats: Option<int>, anchor: int)
    requires ValidBucket(b) && (repeats.Some? ==> repeats.value > 0)
    requires b.kind.AttentionKind? || (b.kind.SlidingWindowKind? && repeats.Some?)
    ensures GroupCount(b, repeats, anchor) == NumGroupsFor(b, repeats)
  {
  }

  /** Upstream every balanced bucket that mixes page sizes stays whole: its layers are one group. */
  lemma {:induction false} MixedStaysWhole(bs: seq<Bucket>, repeats: Option<int>, k: nat)
    requires AllValid(bs) && ChosenRepeats(bs, false, repeats) && k < |bs|
    requires MixedBalanced(bs[k]) && !IsState(bs[k], repeats)
    ensures repeats.Some? && SplitBucket(bs[k], repeats, Anchor(bs, repeats)) == [bs[k].layers]
  {
    MinRepeatsBound(bs, k);
    ClassesLong(bs[k]);
    CeilDivBounds(MaxLen(bs[k].classes), repeats.value);
    CeilDivLeast(MaxLen(bs[k].classes), repeats.value, 1);
  }
}
