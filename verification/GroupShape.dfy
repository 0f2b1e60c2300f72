/** How many layers the emitted groups hold: none is empty, and full groups in fine mode; and a packing
    that loses a layer. */
module GroupShape {
  import opened Arith
  import opened RoundRobin
  import opened Wrappers
  import opened Grouping

  // ------------------------------------------------------------ lengths

  lemma {:induction false} RepeatLen(classes: seq<seq<Layer>>, j: nat)
    requires classes != [] ==> j < MinLen(classes)
    ensures |Repeat(classes, j)| == |classes|
  {
    if classes != [] {
      RepeatLen(classes[..|classes| - 1], j);
    }
  }

  lemma {:induction false} PatternLens(classes: seq<seq<Layer>>, m: nat)
    requires classes != [] ==> m <= MinLen(classes)
    ensures forall j :: 0 <= j < m ==> |Pattern(classes, m)[j]| == |classes|
  {
    if m > 0 {
      PatternLens(classes, m - 1);
      RepeatLen(classes, m - 1);
    }
  }

  lemma {:induction false} StridedLen(repeats: seq<seq<Layer>>, i: int, n: int, width: nat)
    requires n > 0 && forall j :: 0 <= j < |repeats| ==> |repeats[j]| == width
    ensures |Strided(repeats, i, n)| == Share(|repeats|, n, i) * width
  {
    if repeats != [] {
      StridedLen(repeats[..|repeats| - 1], i, n, width);
      OneMore(Share(|repeats| - 1, n, i), width);
    }
  }

  lemma {:induction false} DealtAt(repeats: seq<seq<Layer>>, n: int, count: nat, i: nat)
    requires n > 0 && i < count
    ensures Dealt(repeats, n, count)[i] == Strided(repeats, i, n)
  {
    if i < count - 1 {
      DealtAt(repeats, n, count - 1, i);
    }
  }

  /** A split bucket's group i holds one layer of each page size for each of its repeats. */
  lemma {:induction false} GroupLength(b: Bucket, n: nat, i: nat)
    requires ValidBucket(b) && n > 1 && i < n
    ensures |GroupsOf(b, n)| == n && |GroupsOf(b, n)[i]| == Share(MinLen(b.classes), n, i) * |b.classes|
  {
    var m := MinLen(b.classes);
    PatternLens(b.classes, m);
    DealtAt(Pattern(b.classes, m), n, n, i);
    StridedLen(Pattern(b.classes, m), i, n, |b.classes|);
  }

  // ------------------------------------------------------------ no empty group

  ghost predicate NoneEmpty(groups: seq<seq<Layer>>) {
    forall g :: 0 <= g < |groups| ==> groups[g] != []
  }

  lemma {:induction false} SharePositive(m: nat, n: int, i: int)
    requires 0 <= i < n
    ensures Share(m, n, i) > 0 <==> i < m
  {
    ShareIsCeil(m, n, i);
    CeilDivBounds(Max(m - i, 0), n);
    CeilDivLeast(Max(m - i, 0), n, 0);
  }

  lemma TimesPositive(k: int, w: int)
    requires k >= 0 && w > 0
    ensures k * w > 0 <==> k > 0
  {
    MulMono(Min(k, 1), k, w);
  }

  /** No group of a bucket is empty exactly when the bucket is emitted whole or is dealt to no more
      groups than its shortest page-size class has layers. */
  lemma BucketNoneEmpty(b: Bucket, n: nat)
    requires ValidBucket(b) && n >= 1
    ensures NoneEmpty(GroupsOf(b, n)) <==> n == 1 || n <= MinLen(b.classes)
  {
    if n > 1 {
      forall i: nat | i < n ensures GroupsOf(b, n)[i] != [] <==> i < MinLen(b.classes) {
        GroupLength(b, n, i);
        SharePositive(MinLen(b.classes), n, i);
        ShareIsCeil(MinLen(b.classes), n, i);
        TimesPositive(Share(MinLen(b.classes), n, i), |b.classes|);
      }
      GroupLength(b, n, n - 1);
    }
  }

  lemma NoneEmptyConcat(s: seq<seq<Layer>>, t: seq<seq<Layer>>)
    ensures NoneEmpty(s + t) <==> NoneEmpty(s) && NoneEmpty(t)
  {
    if NoneEmpty(s + t) {
      forall g | 0 <= g < |s| ensures s[g] != [] { assert (s + t)[g] != []; }
      forall g | 0 <= g < |t| ensures t[g] != [] { assert (s + t)[|s| + g] != []; }
    }
  }

  /** Not dealt to more groups than it has repeats. */
  predicate DealtWithin(b: Bucket, repeats: Option<int>, anchor: int)
    requires ValidBucket(b) && (repeats.Some? ==> repeats.value > 0)
  {
    GroupCount(b, repeats, anchor) == 1 || GroupCount(b, repeats, anchor) <= MinLen(b.classes)
  }

  ghost predicate AllDealtWithin(bs: seq<Bucket>, repeats: Option<int>, anchor: int)
    requires ValidInput(bs, repeats)
  {
    forall k :: 0 <= k < |bs| ==> DealtWithin(bs[k], repeats, anchor)
  }

  lemma DealtWithinTail(bs: seq<Bucket>, repeats: Option<int>, anchor: int)
    requires ValidInput(bs, repeats) && bs != []
    ensures AllDealtWithin(bs, repeats, anchor) <==>
      AllDealtWithin(bs[..|bs| - 1], repeats, anchor) && DealtWithin(bs[|bs| - 1], repeats, anchor)
  {
    var rest := bs[..|bs| - 1];
    if AllDealtWithin(rest, repeats, anchor) && DealtWithin(bs[|bs| - 1], repeats, anchor) {
      forall k | 0 <= k < |bs| ensures DealtWithin(bs[k], repeats, anchor) {
        if k < |rest| { assert DealtWithin(rest[k], repeats, anchor); }
      }
    }
    if AllDealtWithin(bs, repeats, anchor) {
      forall k | 0 <= k < |rest| ensures DealtWithin(rest[k], repeats, anchor) {
        assert rest[k] == bs[k];
      }
    }
  }

  /** The packing emits no empty group exactly when no bucket is dealt to more groups than it has
      repeats. */
  lemma {:induction false} PackingNoneEmpty(bs: seq<Bucket>, repeats: Option<int>, anchor: int)
    requires ValidInput(bs, repeats)
    ensures NoneEmpty(AllGroups(bs, repeats, anchor)) <==> AllDealtWithin(bs, repeats, anchor)
  {
    if bs != [] {
      var rest, b := bs[..|bs| - 1], bs[|bs| - 1];
      PackingNoneEmpty(rest, repeats, anchor);
      BucketNoneEmpty(b, GroupCount(b, repeats, anchor));
      NoneEmptyConcat(AllGroups(rest, repeats, anchor), GroupsOf(b, GroupCount(b, repeats, anchor)));
      DealtWithinTail(bs, repeats, anchor);
    }
  }

  lemma SinglePageDealtWithin(b: Bucket, repeats: Option<int>, anchor: int)
    requires ValidBucket(b) && (repeats.Some? ==> repeats.value > 0) && (IsState(b, repeats) ==> |b.classes| == 1)
    ensures DealtWithin(b, repeats, anchor)
  {
    if Balanced(b) && repeats.Some? && MaxLen(b.classes) > 0 {
      CeilAtMost(MaxLen(b.classes), repeats.value);
    }
    if IsState(b, repeats) {
      OneClass(b);
      CeilAtMost(|b.layers|, Max(anchor / b.layers[0].page, 1));
    }
  }

  /** When each state bucket has one page size, no emitted group is ever empty. */
  lemma {:induction false} SinglePageNoneEmpty(bs: seq<Bucket>, repeats: Option<int>, anchor: int)
    requires ValidInput(bs, repeats) && StateSinglePage(bs, repeats)
    ensures NoneEmpty(AllGroups(bs, repeats, anchor))
  {
    forall k | 0 <= k < |bs| ensures DealtWithin(bs[k], repeats, anchor) {
      SinglePageDealtWithin(bs[k], repeats, anchor);
    }
    PackingNoneEmpty(bs, repeats, anchor);
  }

  // ------------------------------------------------------------ fine mode

  lemma {:induction false} BalancedSize(classes: seq<seq<Layer>>, m: nat)
    requires classes != [] ==> MinLen(classes) == MaxLen(classes) == m
    ensures |Flat(classes)| == |classes| * m
  {
    if classes != [] {
      var rest, last := classes[..|classes| - 1], classes[|classes| - 1];
      BalancedSize(rest, m);
      FlatSnoc(rest, last);
      assert rest + [last] == classes;
      OneMore(|rest|, m);
    }
  }

  /** In fine mode every group of a balanced attention bucket holds the same number of layers of each
      page size, namely the greatest common divisor of the balanced buckets' repeats, so no group is
      padded. */
  lemma {:induction false} FineGroupsAreFull(bs: seq<Bucket>, fine: Option<int>, k: nat, i: nat)
    requires AllValid(bs) && ChosenRepeats(bs, true, fine) && fine.Some? && k < |bs|
    requires Balanced(bs[k]) && !IsState(bs[k], fine)
    requires i < GroupCount(bs[k], fine, Anchor(bs, fine))
    ensures IsGcd(BalancedRepeats(bs), fine.value)
    ensures |SplitBucket(bs[k], fine, Anchor(bs, fine))[i]| == fine.value * |bs[k].classes|
  {
    var values, g, len := BalancedRepeats(bs), fine.value, MaxLen(bs[k].classes);
    BalancedRepeatsPositive(bs);
    BestSizeIsGcd(values, g);
    assert len in values;
    var j :| 0 <= j < |values| && values[j] == len;
    assert values[j] % g == 0;
    FullGroup(bs[k], len, g, GroupCount(bs[k], fine, Anchor(bs, fine)), i);
  }

  /** Dealt to len / g groups, every group of a balanced bucket holds g repeats. */
  lemma FullGroup(b: Bucket, len: int, g: int, n: nat, i: nat)
    requires ValidBucket(b) && Balanced(b) && len == MaxLen(b.classes) && len > 0
    requires g > 0 && len % g == 0 && n == CeilDiv(len, g) && i < n
    ensures i < |GroupsOf(b, n)| && |GroupsOf(b, n)[i]| == g * |b.classes|
  {
    EvenShares(len, g, i);
    if n == 1 {
      OneShare(len, i);
      BalancedSize(b.classes, len);
      assert |multiset(b.layers)| == |multiset(Flat(b.classes))|;
    } else {
      GroupLength(b, n, i);
    }
  }

  lemma {:induction false} OneShare(len: nat, i: nat)
    requires i < 1
    ensures Share(len, 1, i) == len
  {
    ShareIsCeil(len, 1, 0);
    DivExact(len, 1);
  }

  // ------------------------------------------------------------ packings that lose layers

  /** A bucket of n layers of page size p and m layers of page size q. */
  ghost predicate TwoSizes(b: Bucket, n: nat, p: int, m: nat, q: int) {
    && ValidBucket(b) && |b.classes| == 2
    && |b.classes[0]| == n > 0 && b.classes[0][0].page == p
    && |b.classes[1]| == m > 0 && b.classes[1][0].page == q
  }

  lemma TwoSizesLens(b: Bucket, n: nat, p: int, m: nat, q: int)
    requires TwoSizes(b, n, p, m, q)
    ensures MinLen(b.classes) == Min(n, m) && MaxLen(b.classes) == Max(n, m)
    ensures |b.layers| == n + m && b.layers[0].page == p
  {
    var c, d := b.classes[0], b.classes[1];
    assert b.classes == [c] + [d] && [c] == [] + [c];
    FlatSnoc([c], d);
    FlatSnoc([], c);
    assert |multiset(b.layers)| == |multiset(Flat(b.classes))|;
  }

  lemma EvenLens(b: Bucket, n: nat, p: int, q: int)
    requires TwoSizes(b, n, p, n, q)
    ensures Balanced(b) && MaxLen(b.classes) == n
  {
    TwoSizesLens(b, n, p, n, q);
  }

  lemma UnevenLens(b: Bucket, n: nat, p: int, m: nat, q: int)
    requires TwoSizes(b, n, p, m, q) && m < n
    ensures !Balanced(b) && MinLen(b.classes) == m
    ensures |b.layers| == n + m && b.layers[0].page == p
  {
    TwoSizesLens(b, n, p, m, q);
  }

  lemma {:induction false} TwoSizesWide(b: Bucket, n: nat, p: int, m: nat, q: int, groups: int)
    requires TwoSizes(b, n, p, m, q) && groups > 0
    ensures WidestGroupBytes(b.classes, groups) == CeilDiv(n, groups) * p + CeilDiv(m, groups) * q
  {
    var c, d := b.classes[0], b.classes[1];
    assert IsClass(c) && IsClass(d);
    assert b.classes[..1] == [c];
    WidestStep(b.classes, groups);
    WidestStep([c], groups);
    assert [c][..0] == [];
  }

  /** An attention bucket with n layers of page size 4 and n of 8, and a state bucket with 3 * n layers
      of page size 4 and fewer of 2. */
  ghost predicate Mixed(bs: seq<Bucket>, n: nat, small: nat) {
    && |bs| == 2 && 1 <= small < 3 * n
    && TwoSizes(bs[0], n, 4, n, 8) && bs[0].kind.AttentionKind?
    && TwoSizes(bs[1], 3 * n, 4, small, 2) && bs[1].kind.StateKind?
  }

  lemma MixedExists(n: nat, small: nat) returns (bs: seq<Bucket>)
    requires 1 <= small < 3 * n
    ensures Mixed(bs, n, small)
  {
    var a := TwoSizesExist(AttentionKind, n, 4, n, 8);
    var b := TwoSizesExist(StateKind, 3 * n, 4, small, 2);
    bs := [a, b];
  }

  lemma TwoSizesExist(kind: Kind, n: nat, p: int, m: nat, q: int) returns (b: Bucket)
    requires n > 0 && m > 0 && p > 0 && q > 0
    ensures TwoSizes(b, n, p, m, q) && b.kind == kind
  {
    var c := OneSize(n, p);
    var d := OneSize(m, q);
    FlatSnoc([c], d);
    FlatSnoc([], c);
    assert [c, d] == [c] + [d] && [c] == [] + [c];
    b := Bucket(kind, c + d, [c, d]);
    assert b.layers[0] == c[0] && Flat([c, d]) == c + d;
  }

  lemma OneSize(n: nat, p: int) returns (c: seq<Layer>)
    requires n > 0 && p > 0
    ensures |c| == n && IsClass(c) && c[0].page == p
  {
    c := seq(n, i requires 0 <= i < n => Layer(i, p));
  }

  /** A single bucket's own repeat count is the best size for either floor. */
  lemma OnlyRepeatIsBest(n: int, floor: int)
    requires 1 <= floor <= n
    ensures IsBestSize([n], floor, n)
  {
    NoPadding([n], n);
    DivModUnique(n, n, 1, 0);
    forall d | d >= floor
      ensures Padding([n], n) <= Padding([n], d) && (Padding([n], d) == Padding([n], n) ==> d <= n)
    {
      NoPadding([n], d);
      if d > n {
        DivModUnique(n, d, 0, n);
        assert [n][0] % d != 0;
      }
    }
  }

  lemma {:induction false} MixedRepeats(bs: seq<Bucket>, n: nat, small: nat)
    requires Mixed(bs, n, small)
    ensures AllValid(bs) && MinRepeats(bs) == n && BalancedRepeats(bs) == [n]
  {
    EvenLens(bs[0], n, 4, 8);
    UnevenLens(bs[1], 3 * n, 4, small, 2);
    var one := bs[..1];
    assert one[0] == bs[0] && one[..0] == [];
    assert MinRepeats(one) == n && BalancedRepeats(one) == [n];
  }

  lemma ChosenForMixed(bs: seq<Bucket>, n: nat, small: nat, fine: bool)
    requires Mixed(bs, n, small)
    ensures AllValid(bs) && ChosenRepeats(bs, fine, Some(n))
  {
    MixedRepeats(bs, n, small);
    OnlyRepeatIsBest(n, if fine then 1 else n);
  }

  lemma WholeGroups(b: Bucket, repeats: Option<int>, n: nat)
    requires ValidBucket(b) && Balanced(b) && MaxLen(b.classes) == n > 0 && repeats == Some(n)
    ensures NumGroupsFor(b, repeats) == 1
  {
    CeilOf(n, n, 1);
  }

  lemma AttentionAnchor(b: Bucket, n: nat, repeats: Option<int>)
    requires TwoSizes(b, n, 4, n, 8) && b.kind.AttentionKind? && repeats == Some(n)
    ensures NumGroupsFor(b, repeats) == 1 && BucketAnchor(b, repeats) == 12 * n
  {
    EvenLens(b, n, 4, 8);
    WholeGroups(b, repeats, n);
    TwoSizesWide(b, n, 4, n, 8, 1);
    DivExact(n, 1);
  }

  lemma AnchorOfStates(b: Bucket, repeats: Option<int>)
    requires ValidBucket(b) && (repeats.Some? ==> repeats.value > 0) && b.kind.StateKind?
    ensures BucketAnchor(b, repeats) == WidestGroupBytes(b.classes, |b.layers|)
  {
  }

  lemma StateAnchor(b: Bucket, n: nat, small: nat, repeats: Option<int>)
    requires TwoSizes(b, 3 * n, 4, small, 2) && 1 <= small < 3 * n && b.kind.StateKind? && repeats == Some(n)
    ensures NumGroupsFor(b, repeats) == 1 && BucketAnchor(b, repeats) == 6
  {
    UnevenLens(b, 3 * n, 4, small, 2);
    AnchorOfStates(b, repeats);
    TwoSizesWide(b, 3 * n, 4, small, 2, |b.layers|);
    CeilOf(3 * n, |b.layers|, 1);
    CeilOf(small, |b.layers|, 1);
  }

  lemma {:induction false} AnchorLast(bs: seq<Bucket>, repeats: Option<int>)
    requires ValidInput(bs, repeats) && bs != []
    ensures Anchor(bs, repeats)
      == Max(Anchor(bs[..|bs| - 1], repeats), BucketAnchor(bs[|bs| - 1], repeats))
  {
  }

  lemma {:induction false} TwoAnchors(bs: seq<Bucket>, repeats: Option<int>)
    requires ValidInput(bs, repeats) && |bs| == 2
    ensures Anchor(bs, repeats) == Max(Max(0, BucketAnchor(bs[0], repeats)), BucketAnchor(bs[1], repeats))
  {
    var one := bs[..1];
    assert ValidInput(one, repeats) && one[0] == bs[0] && one[..0] == [];
    AnchorLast(bs, repeats);
    AnchorLast(one, repeats);
  }

  lemma {:induction false} MixedAnchor(bs: seq<Bucket>, n: nat, small: nat, repeats: Option<int>)
    requires Mixed(bs, n, small) && repeats == Some(n) && ValidInput(bs, repeats)
    ensures Anchor(bs, repeats) == 12 * n
  {
    AttentionAnchor(bs[0], n, repeats);
    StateAnchor(bs[1], n, small, repeats);
    TwoAnchors(bs, repeats);
  }

  lemma StateCount(b: Bucket, n: nat, small: nat, repeats: Option<int>, anchor: int)
    requires TwoSizes(b, 3 * n, 4, small, 2) && 1 <= small < 3 * n && b.kind.StateKind? && repeats == Some(n)
    requires anchor == 12 * n
    ensures GroupCount(b, repeats, anchor) == 2
  {
    StateAnchor(b, n, small, repeats);
    UnevenLens(b, 3 * n, 4, small, 2);
    DivModUnique(anchor, 4, 3 * n, 0);
    CeilOf(3 * n + small, 3 * n, 2);
  }

  /** Splitting one unbalanced bucket is enough to lose a layer. */
  lemma {:induction false} SplitLoses(bs: seq<Bucket>, repeats: Option<int>, anchor: int, k: nat)
    requires ValidInput(bs, repeats) && k < |bs| && GroupCount(bs[k], repeats, anchor) > 1 && !Balanced(bs[k])
    ensures Held(AllGroups(bs, repeats, anchor)) < AllLayers(bs)
  {
    PackingPartitions(bs, repeats, anchor);
    assert !KeepsLayers(bs[k], repeats, anchor);
  }

  lemma {:induction false} Overdealt(bs: seq<Bucket>, repeats: Option<int>, anchor: int, k: nat)
    requires ValidInput(bs, repeats) && k < |bs| && !DealtWithin(bs[k], repeats, anchor)
    ensures !NoneEmpty(AllGroups(bs, repeats, anchor))
  {
    PackingNoneEmpty(bs, repeats, anchor);
  }

  lemma {:induction false} BothDealt(bs: seq<Bucket>, repeats: Option<int>, anchor: int)
    requires ValidInput(bs, repeats) && |bs| == 2
    requires DealtWithin(bs[0], repeats, anchor) && DealtWithin(bs[1], repeats, anchor)
    ensures NoneEmpty(AllGroups(bs, repeats, anchor))
  {
    forall k | 0 <= k < |bs| ensures DealtWithin(bs[k], repeats, anchor) {
      assert k == 0 || k == 1;
    }
    PackingNoneEmpty(bs, repeats, anchor);
  }

  lemma AttentionDealt(b: Bucket, n: nat, repeats: Option<int>, anchor: int)
    requires TwoSizes(b, n, 4, n, 8) && b.kind.AttentionKind? && repeats == Some(n)
    ensures DealtWithin(b, repeats, anchor)
  {
    AttentionAnchor(b, n, repeats);
  }

  lemma StateDealt(b: Bucket, n: nat, small: nat, repeats: Option<int>, anchor: int)
    requires TwoSizes(b, 3 * n, 4, small, 2) && 1 <= small < 3 * n && b.kind.StateKind? && repeats == Some(n)
    requires anchor == 12 * n
    ensures DealtWithin(b, repeats, anchor) <==> small >= 2
  {
    StateCount(b, n, small, repeats, anchor);
    UnevenLens(b, 3 * n, 4, small, 2);
  }

  /** Both modes settle on n repeats, 3 * n states fill a block, and the state bucket is dealt to two
      groups although it is unbalanced: a layer is in no group. With one small state layer the second
      group is empty as well. */
  lemma {:induction false} SplitStateLoses(bs: seq<Bucket>, n: nat, small: nat, fine: bool, repeats: Option<int>,
                                           anchor: int)
    requires Mixed(bs, n, small) && repeats == Some(n) && ValidInput(bs, repeats) && anchor == Anchor(bs, repeats)
    ensures ChosenRepeats(bs, fine, repeats) && Held(AllGroups(bs, repeats, anchor)) < AllLayers(bs)
    ensures NoneEmpty(AllGroups(bs, repeats, anchor)) <==> small >= 2
  {
    ChosenForMixed(bs, n, small, fine);
    MixedAnchor(bs, n, small, repeats);
    StateCount(bs[1], n, small, repeats, anchor);
    UnevenLens(bs[1], 3 * n, 4, small, 2);
    SplitLoses(bs, repeats, anchor, 1);
    StateDealt(bs[1], n, small, repeats, anchor);
    if small >= 2 {
      AttentionDealt(bs[0], n, repeats, anchor);
      BothDealt(bs, repeats, anchor);
    } else {
      Overdealt(bs, repeats, anchor, 1);
    }
  }
}
