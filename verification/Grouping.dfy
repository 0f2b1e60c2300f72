/** Packing layers of mixed page sizes into KV-cache groups that share one block: the padding
    minimiser, the two grouping modes, and what they guarantee about the block. */
module Grouping {
  import opened Arith
  import opened RoundRobin
  import opened Wrappers

  // ------------------------------------------------------------ the padding minimiser

  /** Total upward padding when every value is rounded up to a multiple of d. */
  function Padding(values: seq<int>, d: int): int
    requires d > 0
  {
    if values == [] then 0
    else Padding(values[..|values| - 1], d) + (d - values[|values| - 1] % d) % d
  }

  function MaxOf(values: seq<int>): (m: int)
    requires values != []
    ensures exists i :: 0 <= i < |values| && values[i] == m
    ensures forall i :: 0 <= i < |values| ==> values[i] <= m
  {
    var rest, last := values[..|values| - 1], values[|values| - 1];
    if rest == [] then last else Max(MaxOf(rest), last)
  }

  ghost predicate Positive(values: seq<int>) {
    values != [] && forall i :: 0 <= i < |values| ==> values[i] > 0
  }

  /** The largest of the sizes at or above the floor that cause the least padding. */
  ghost predicate IsBestSize(values: seq<int>, floor: int, r: int) {
    && floor >= 1 && r >= floor
    && (forall d :: d >= floor ==> Padding(values, r) <= Padding(values, d))
    && (forall d :: d >= floor && Padding(values, d) == Padding(values, r) ==> d <= r)
  }

  /** Brute-force search. When the floor exceeds every value the floor itself is returned. */
  method ApproximateGcd(values: seq<int>, lowerBound: int) returns (r: Result<int, Error>)
    ensures r.Success? <==> Positive(values)
    ensures r.Failure? ==> r.error == ValueError
    ensures r.Success? && Max(1, lowerBound) <= MaxOf(values) ==> IsBestSize(values, Max(1, lowerBound), r.value)
    ensures r.Success? && Max(1, lowerBound) > MaxOf(values) ==> r.value == Max(1, lowerBound)
  {
    if values == [] || exists i :: 0 <= i < |values| && values[i] <= 0 {
      return Failure(ValueError);
    }
    var minD, maxD := Max(1, lowerBound), MaxOf(values);
    if minD > maxD {
      return Success(minD);
    }
    var bestD, bestPad := minD, Padding(values, minD);
    var d := minD + 1;
    while d <= maxD
      invariant minD < d <= maxD + 1 && minD <= bestD < d && bestPad == Padding(values, bestD)
      invariant forall e :: minD <= e < d ==> bestPad <= Padding(values, e)
      invariant forall e :: minD <= e < d && Padding(values, e) == bestPad ==> e <= bestD
    {
      var pad := Padding(values, d);
      if pad < bestPad || (pad == bestPad && d > bestD) {
        bestPad := pad;
        bestD := d;
      }
      d := d + 1;
    }
    forall e | e > maxD ensures Padding(values, maxD) < Padding(values, e) {
      PaddingAboveMax(values, maxD, e);
    }
    r := Success(bestD);
  }

  /** Sizes above every value only pad more, so the search range loses nothing. */
  lemma {:induction false} PaddingAboveMax(values: seq<int>, m: int, d: int)
    requires m > 0 && d > m && forall i :: 0 <= i < |values| ==> 0 < values[i] <= m
    ensures Padding(values, m) <= Padding(values, d)
    ensures values != [] ==> Padding(values, m) < Padding(values, d)
  {
    if values != [] {
      var rest, x := values[..|values| - 1], values[|values| - 1];
      PaddingAboveMax(rest, m, d);
      DivModUnique(x, d, 0, x);
      DivModUnique(d - x, d, 0, d - x);
      if x == m {
        DivModUnique(m, m, 1, 0);
      } else {
        DivModUnique(x, m, 0, x);
        DivModUnique(m - x, m, 0, m - x);
      }
    }
  }

  ghost predicate DividesAll(d: int, values: seq<int>)
    requires d > 0
  {
    forall i :: 0 <= i < |values| ==> values[i] % d == 0
  }

  lemma {:induction false} NoPadding(values: seq<int>, d: int)
    requires d > 0
    ensures Padding(values, d) >= 0
    ensures Padding(values, d) == 0 <==> DividesAll(d, values)
  {
    if values != [] {
      var rest, x := values[..|values| - 1], values[|values| - 1];
      NoPadding(rest, d);
      if x % d == 0 {
        DivModUnique(d, d, 1, 0);
      } else {
        DivModUnique(d - x % d, d, 0, d - x % d);
      }
      assert forall i :: 0 <= i < |rest| ==> rest[i] == values[i];
    }
  }

  ghost predicate IsGcd(values: seq<int>, g: int) {
    g > 0 && DividesAll(g, values) && forall d :: d > 0 && DividesAll(d, values) ==> d <= g
  }

  /** With floor 1 the minimiser is exactly the greatest common divisor. */
  lemma BestSizeIsGcd(values: seq<int>, r: int)
    requires IsBestSize(values, 1, r)
    ensures IsGcd(values, r)
  {
    NoPadding(values, r);
    NoPadding(values, 1);
    forall d | d > 0 && DividesAll(d, values) ensures d <= r {
      NoPadding(values, d);
    }
  }

  // ------------------------------------------------------------ buckets and groups

  datatype Layer = Layer(name: nat, page: int)

  datatype Kind = StateKind | SlidingWindowKind | AttentionKind

  /** Layers of one uniform type, in model order and split by page size. */
  datatype Bucket = Bucket(kind: Kind, layers: seq<Layer>, classes: seq<seq<Layer>>)

  function Flat(s: seq<seq<Layer>>): seq<Layer> {
    if s == [] then [] else Flat(s[..|s| - 1]) + s[|s| - 1]
  }

  ghost predicate IsClass(c: seq<Layer>) {
    c != [] && c[0].page > 0 && forall i :: 0 <= i < |c| ==> c[i].page == c[0].page
  }

  ghost predicate AllClasses(classes: seq<seq<Layer>>) {
    forall k :: 0 <= k < |classes| ==> IsClass(classes[k])
  }

  function LastClass(classes: seq<seq<Layer>>): (c: seq<Layer>)
    requires classes != [] && AllClasses(classes)
    ensures IsClass(c)
  {
    var k := |classes| - 1;
    assert IsClass(classes[k]);
    classes[k]
  }

  ghost predicate ValidBucket(b: Bucket) {
    && b.classes != [] && b.layers != []
    && AllClasses(b.classes)
    && multiset(b.layers) == multiset(Flat(b.classes))
    && b.layers[0].page == b.classes[0][0].page
  }

  ghost predicate AllValid(bs: seq<Bucket>) {
    forall k :: 0 <= k < |bs| ==> ValidBucket(bs[k])
  }

  /** Sum of the page sizes of a group: what the group needs of a block. */
  function Bytes(group: seq<Layer>): int {
    if group == [] then 0 else Bytes(group[..|group| - 1]) + group[|group| - 1].page
  }

  function MaxLen(classes: seq<seq<Layer>>): (m: int)
    requires classes != []
    ensures m >= 0
  {
    var last := |classes[|classes| - 1]|;
    if |classes| == 1 then last else Max(MaxLen(classes[..|classes| - 1]), last)
  }

  function MinLen(classes: seq<seq<Layer>>): (m: int)
    requires classes != []
    ensures m >= 0
  {
    var last := |classes[|classes| - 1]|;
    if |classes| == 1 then last else Min(MinLen(classes[..|classes| - 1]), last)
  }

  /** Equal layer counts per page size: a repeating one-of-each pattern. */
  predicate Balanced(b: Bucket)
    requires b.classes != []
  {
    MinLen(b.classes) == MaxLen(b.classes)
  }

  /** Page bytes of the largest of n groups, n > 1 or not, as the planner estimates it. */
  function WidestGroupBytes(classes: seq<seq<Layer>>, n: int): int
    requires n > 0 && AllClasses(classes)
  {
    if classes == [] then 0
    else
      var c := LastClass(classes);
      WidestGroupBytes(classes[..|classes| - 1], n) + CeilDiv(|c|, n) * c[0].page
  }

  /** The repeat floor: the largest balanced bucket that mixes page sizes. */
  function MinRepeats(bs: seq<Bucket>): (m: int)
    requires AllValid(bs)
    ensures m >= 0
  {
    if bs == [] then 0
    else
      var b := bs[|bs| - 1];
      Max(MinRepeats(bs[..|bs| - 1]), if Balanced(b) && |b.classes| > 1 then Max(MaxLen(b.classes), 0) else 0)
  }

  function BalancedRepeats(bs: seq<Bucket>): seq<int>
    requires AllValid(bs)
  {
    if bs == [] then []
    else BalancedRepeats(bs[..|bs| - 1]) + if Balanced(bs[|bs| - 1]) then [MaxLen(bs[|bs| - 1].classes)] else []
  }

  function NumGroupsFor(b: Bucket, repeats: Option<int>): (n: int)
    requires ValidBucket(b) && (repeats.Some? ==> repeats.value > 0)
    ensures n >= 1
  {
    if Balanced(b) && repeats.Some? then
      CeilDivBounds(MaxLen(b.classes), repeats.value);
      CeilDiv(MaxLen(b.classes), repeats.value)
    else 1
  }

  predicate IsState(b: Bucket, repeats: Option<int>) {
    b.kind.StateKind? || (repeats.None? && b.kind.SlidingWindowKind?)
  }

  /** Bytes a block must hold however the state buckets end up split. */
  function BucketAnchor(b: Bucket, repeats: Option<int>): int
    requires ValidBucket(b) && (repeats.Some? ==> repeats.value > 0)
  {
    WidestGroupBytes(b.classes, if IsState(b, repeats) then |b.layers| else NumGroupsFor(b, repeats))
  }

  ghost predicate ValidInput(bs: seq<Bucket>, repeats: Option<int>) {
    && (repeats.Some? ==> repeats.value > 0)
    && AllValid(bs)
  }

  function Anchor(bs: seq<Bucket>, repeats: Option<int>): int
    requires ValidInput(bs, repeats)
  {
    if bs == [] then 0
    else
      var b := bs[|bs| - 1];
      Max(Anchor(bs[..|bs| - 1], repeats), BucketAnchor(b, repeats))
  }

  /** Number of groups a bucket is split into once the anchor is known. */
  function GroupCount(b: Bucket, repeats: Option<int>, anchor: int): (n: int)
    requires ValidBucket(b) && (repeats.Some? ==> repeats.value > 0)
    ensures n >= 1
  {
    if anchor > 0 && IsState(b, repeats) then
      Max(NumGroupsFor(b, repeats), CeilDiv(|b.layers|, Max(anchor / b.layers[0].page, 1)))
    else NumGroupsFor(b, repeats)
  }

  /** Layer j of each page size that has one. */
  function Repeat(classes: seq<seq<Layer>>, j: nat): seq<Layer> {
    if classes == [] then []
    else
      var last := classes[|classes| - 1];
      Repeat(classes[..|classes| - 1], j) + if j < |last| then [last[j]] else []
  }

  /** zip(*classes): one layer of each page size per repeat, as far as the shortest class goes. */
  function Pattern(classes: seq<seq<Layer>>, m: nat): (p: seq<seq<Layer>>)
    ensures |p| == m
  {
    if m == 0 then [] else Pattern(classes, m - 1) + [Repeat(classes, m - 1)]
  }

  /** The repeats whose turn is i, in order: pattern_repeats[i::n]. */
  function Strided(repeats: seq<seq<Layer>>, i: int, n: int): seq<Layer>
    requires n > 0
  {
    if repeats == [] then []
    else
      var j := |repeats| - 1;
      Strided(repeats[..j], i, n) + if Turn(j, n) == i then repeats[j] else []
  }

  /** The first count of the n groups the repeats are dealt to. */
  function Dealt(repeats: seq<seq<Layer>>, n: int, count: nat): (g: seq<seq<Layer>>)
    requires n > 0
    ensures |g| == count
  {
    if count == 0 then [] else Dealt(repeats, n, count - 1) + [Strided(repeats, count - 1, n)]
  }

  function GroupsOf(b: Bucket, n: nat): seq<seq<Layer>>
    requires n > 0 && b.classes != []
  {
    if n == 1 then [b.layers] else Dealt(Pattern(b.classes, MinLen(b.classes)), n, n)
  }

  function SplitBucket(b: Bucket, repeats: Option<int>, anchor: int): seq<seq<Layer>>
    requires ValidBucket(b) && (repeats.Some? ==> repeats.value > 0)
  {
    GroupsOf(b, GroupCount(b, repeats, anchor))
  }

  function AllGroups(bs: seq<Bucket>, repeats: Option<int>, anchor: int): seq<seq<Layer>>
    requires ValidInput(bs, repeats)
  {
    if bs == [] then []
    else
      var b := bs[|bs| - 1];
        AllGroups(bs[..|bs| - 1], repeats, anchor) + GroupsOf(b, GroupCount(b, repeats, anchor))
  }

  /** The repeats per group the planner settles on: none without a mixed balanced bucket, else
      the best size at or above 1 (fine mode) or the repeat floor (upstream). */
  ghost predicate ChosenRepeats(bs: seq<Bucket>, fine: bool, repeats: Option<int>)
    requires AllValid(bs)
  {
    if MinRepeats(bs) == 0 then repeats == None
    else repeats.Some? && IsBestSize(BalancedRepeats(bs), if fine then 1 else MinRepeats(bs), repeats.value)
  }

  lemma {:induction false} BalancedRepeatsLast(bs: seq<Bucket>)
    requires AllValid(bs) && bs != []
    ensures var b, rest := bs[|bs| - 1], BalancedRepeats(bs[..|bs| - 1]);
      BalancedRepeats(bs) == if Balanced(b) then rest + [MaxLen(b.classes)] else rest
  {
    var rest := BalancedRepeats(bs[..|bs| - 1]);
    assert rest + [] == rest;
  }

  lemma ClassesLong(b: Bucket)
    requires ValidBucket(b)
    ensures MaxLen(b.classes) > 0
  {
    var c := b.classes[|b.classes| - 1];
    assert IsClass(c) && MaxLen(b.classes) >= |c|;
  }

  lemma {:induction false} BalancedRepeatsAt(bs: seq<Bucket>, i: nat)
    requires AllValid(bs) && i < |BalancedRepeats(bs)|
    ensures BalancedRepeats(bs)[i] > 0
  {
    if bs != [] {
      var rest := bs[..|bs| - 1];
      BalancedRepeatsLast(bs);
      ClassesLong(bs[|bs| - 1]);
      if i < |BalancedRepeats(rest)| { BalancedRepeatsAt(rest, i); }
    }
  }

  lemma {:induction false} BalancedRepeatsHold(bs: seq<Bucket>, k: nat, b: Bucket)
    requires AllValid(bs) && k < |bs| && b == bs[k] && Balanced(b)
    ensures MaxLen(b.classes) in BalancedRepeats(bs)
  {
    var rest := bs[..|bs| - 1];
    BalancedRepeatsLast(bs);
    if k < |rest| {
      BalancedRepeatsHold(rest, k, b);
    }
  }

  lemma {:induction false} MinRepeatsHeld(bs: seq<Bucket>)
    requires AllValid(bs) && MinRepeats(bs) > 0
    ensures MinRepeats(bs) in BalancedRepeats(bs)
  {
    if bs != [] {
      var rest := bs[..|bs| - 1];
      BalancedRepeatsLast(bs);
      if MinRepeats(bs) == MinRepeats(rest) { MinRepeatsHeld(rest); }
    }
  }

  lemma {:induction false} BalancedRepeatsPositive(bs: seq<Bucket>)
    requires AllValid(bs)
    ensures forall i :: 0 <= i < |BalancedRepeats(bs)| ==> BalancedRepeats(bs)[i] > 0
    ensures forall k :: 0 <= k < |bs| && Balanced(bs[k]) ==> MaxLen(bs[k].classes) in BalancedRepeats(bs)
    ensures MinRepeats(bs) > 0 ==> MinRepeats(bs) in BalancedRepeats(bs)
  {
    forall i | 0 <= i < |BalancedRepeats(bs)| ensures BalancedRepeats(bs)[i] > 0 {
      BalancedRepeatsAt(bs, i);
    }
    forall k | 0 <= k < |bs| && Balanced(bs[k]) ensures MaxLen(bs[k].classes) in BalancedRepeats(bs) {
      BalancedRepeatsHold(bs, k, bs[k]);
    }
    if MinRepeats(bs) > 0 { MinRepeatsHeld(bs); }
  }

  method ChooseRepeats(bs: seq<Bucket>, fine: bool) returns (repeats: Option<int>)
    requires AllValid(bs)
    ensures ChosenRepeats(bs, fine, repeats) && ValidInput(bs, repeats)
  {
    var minRepeats := MinRepeats(bs);
    if minRepeats == 0 {
      return None;
    }
    BalancedRepeatsPositive(bs);
    var values := BalancedRepeats(bs);
    var r := ApproximateGcd(values, if fine then 1 else minRepeats);
    repeats := Some(r.value);
  }

  lemma {:induction false} AllGroupsStep(bs: seq<Bucket>, repeats: Option<int>, anchor: int, k: nat)
    requires ValidInput(bs, repeats) && k < |bs|
    ensures AllGroups(bs[..k + 1], repeats, anchor)
      == AllGroups(bs[..k], repeats, anchor) + SplitBucket(bs[k], repeats, anchor)
  {
    assert bs[..k + 1][..k] == bs[..k];
  }

  /** The grouping over the buckets of a model. */
  method PackGroups(bs: seq<Bucket>, fine: bool) returns (groups: seq<seq<Layer>>, repeats: Option<int>)
    requires AllValid(bs)
    ensures ChosenRepeats(bs, fine, repeats) && ValidInput(bs, repeats)
    ensures groups == AllGroups(bs, repeats, Anchor(bs, repeats))
  {
    repeats := ChooseRepeats(bs, fine);
    var anchor := Anchor(bs, repeats);
    groups := [];
    for k := 0 to |bs|
      invariant groups == AllGroups(bs[..k], repeats, anchor)
    {
      AllGroupsStep(bs, repeats, anchor, k);
      groups := groups + SplitBucket(bs[k], repeats, anchor);
    }
    assert bs[..|bs|] == bs;
  }

  // ------------------------------------------------------------ what the groups hold

  lemma {:induction false} FlatSnoc(s: seq<seq<Layer>>, x: seq<Layer>)
    ensures Flat(s + [x]) == Flat(s) + x
  {
    assert (s + [x])[..|s|] == s;
  }

  /** The layers held by a list of groups, counting repetitions. */
  ghost function Held(groups: seq<seq<Layer>>): multiset<Layer> {
    if groups == [] then multiset{} else Held(groups[..|groups| - 1]) + multiset(groups[|groups| - 1])
  }

  lemma {:induction false} HeldSnoc(s: seq<seq<Layer>>, x: seq<Layer>)
    ensures Held(s + [x]) == Held(s) + multiset(x)
  {
    assert (s + [x])[..|s|] == s;
  }

  lemma {:induction false} HeldIsFlat(s: seq<seq<Layer>>)
    ensures Held(s) == multiset(Flat(s))
  {
    if s != [] { HeldIsFlat(s[..|s| - 1]); }
  }

  lemma {:induction false} StridedSnoc(rest: seq<seq<Layer>>, x: seq<Layer>, i: int, n: int)
    requires n > 0
    ensures Strided(rest + [x], i, n) == Strided(rest, i, n) + if Turn(|rest|, n) == i then x else []
  {
    assert (rest + [x])[..|rest|] == rest;
  }

  lemma Regroup<T>(a: multiset<T>, b: multiset<T>, c: multiset<T>)
    ensures a + (b + c) == (a + b) + c == (a + c) + b
  {
  }

  lemma Swap4<T>(a: multiset<T>, b: multiset<T>, c: multiset<T>, d: multiset<T>)
    ensures (a + b) + (c + d) == (a + c) + (b + d)
  {
  }

  lemma JoinMultisets<T>(s: seq<T>, t: seq<T>)
    ensures multiset(s + t) == multiset(s) + multiset(t)
  {
  }

  lemma DealtStep(repeats: seq<seq<Layer>>, n: int, i: nat)
    requires n > 0
    ensures Held(Dealt(repeats, n, i + 1)) == Held(Dealt(repeats, n, i)) + multiset(Strided(repeats, i, n))
  {
    HeldSnoc(Dealt(repeats, n, i), Strided(repeats, i, n));
  }

  lemma {:induction false} StridedHeld(rest: seq<seq<Layer>>, x: seq<Layer>, i: int, n: int)
    requires n > 0
    ensures multiset(Strided(rest + [x], i, n)) ==
      multiset(Strided(rest, i, n)) + if Turn(|rest|, n) == i then multiset(x) else multiset{}
  {
    StridedSnoc(rest, x, i, n);
    JoinMultisets(Strided(rest, i, n), x);
  }

  /** Dealing out one more repeat adds it to exactly one of the groups. */
  lemma {:induction false} DealOne(rest: seq<seq<Layer>>, x: seq<Layer>, n: int, count: nat)
    requires n > 0
    ensures Held(Dealt(rest + [x], n, count)) ==
      Held(Dealt(rest, n, count)) + if Turn(|rest|, n) < count then multiset(x) else multiset{}
  {
    if count > 0 {
      var i := count - 1;
      DealOne(rest, x, n, i);
      DealtStep(rest + [x], n, i);
      DealtStep(rest, n, i);
      StridedHeld(rest, x, i, n);
      Regroup(Held(Dealt(rest, n, i)), multiset(Strided(rest, i, n)), multiset(x));
    }
  }

  lemma {:induction false} NothingDealt(n: int, count: nat)
    requires n > 0
    ensures Held(Dealt([], n, count)) == multiset{}
  {
    if count > 0 {
      NothingDealt(n, count - 1);
      HeldSnoc(Dealt([], n, count - 1), []);
    }
  }

  lemma {:induction false} DealAll(repeats: seq<seq<Layer>>, n: int)
    requires n > 0
    ensures Held(Dealt(repeats, n, n)) == Held(repeats)
  {
    if repeats == [] {
      NothingDealt(n, n);
    } else {
      var rest, x := repeats[..|repeats| - 1], repeats[|repeats| - 1];
      assert repeats == rest + [x];
      DealAll(rest, n);
      DealOne(rest, x, n, n);
    }
  }

  /** The first m layers of every class. */
  ghost function Heads(classes: seq<seq<Layer>>, m: nat): seq<seq<Layer>> {
    if classes == [] then []
    else
      var last := classes[|classes| - 1];
      Heads(classes[..|classes| - 1], m) + [Head(last, m)]
  }

  function Head(c: seq<Layer>, m: nat): seq<Layer> {
    if m <= |c| then c[..m] else c
  }

  lemma HeadStep(c: seq<Layer>, m: nat)
    ensures multiset(Head(c, m + 1)) == multiset(Head(c, m)) + multiset(if m < |c| then [c[m]] else [])
  {
    if m < |c| {
      assert c[..m + 1] == c[..m] + [c[m]];
    } else {
      assert Head(c, m + 1) == Head(c, m) == c;
    }
  }

  lemma {:induction false} HeadsStep(classes: seq<seq<Layer>>, m: nat)
    ensures Held(Heads(classes, m + 1)) == Held(Heads(classes, m)) + multiset(Repeat(classes, m))
  {
    if classes != [] {
      var rest, last := classes[..|classes| - 1], classes[|classes| - 1];
      HeadsStep(rest, m);
      HeadStep(last, m);
      var extra := if m < |last| then [last[m]] else [];
      HeldSnoc(Heads(rest, m + 1), Head(last, m + 1));
      HeldSnoc(Heads(rest, m), Head(last, m));
      JoinMultisets(Repeat(rest, m), extra);
      Swap4(Held(Heads(rest, m)), multiset(Repeat(rest, m)), multiset(Head(last, m)), multiset(extra));
    }
  }

  lemma {:induction false} HeadsEmpty(classes: seq<seq<Layer>>)
    ensures Held(Heads(classes, 0)) == multiset{}
  {
    if classes != [] {
      HeadsEmpty(classes[..|classes| - 1]);
      HeldSnoc(Heads(classes[..|classes| - 1], 0), []);
    }
  }

  /** Reading the classes repeat by repeat gives their first m layers. */
  lemma {:induction false} PatternIsHeads(classes: seq<seq<Layer>>, m: nat)
    ensures Held(Pattern(classes, m)) == Held(Heads(classes, m))
  {
    if m == 0 {
      HeadsEmpty(classes);
    } else {
      PatternIsHeads(classes, m - 1);
      HeadsStep(classes, m - 1);
      HeldSnoc(Pattern(classes, m - 1), Repeat(classes, m - 1));
    }
  }

  lemma {:induction false} HeadsWhole(classes: seq<seq<Layer>>, m: nat)
    requires classes != [] ==> MaxLen(classes) <= m
    ensures Heads(classes, m) == classes
  {
    if classes != [] {
      var last := classes[|classes| - 1];
      assert Head(last, m) == last;
      HeadsWhole(classes[..|classes| - 1], m);
    }
  }

  lemma {:induction false} HeadsShorter(classes: seq<seq<Layer>>, m: nat)
    ensures |Flat(Heads(classes, m))| <= |Flat(classes)|
    ensures classes != [] && MaxLen(classes) > m ==> |Flat(Heads(classes, m))| < |Flat(classes)|
  {
    if classes != [] {
      var rest, last := classes[..|classes| - 1], classes[|classes| - 1];
      HeadsShorter(rest, m);
      FlatSnoc(Heads(rest, m), Head(last, m));
    }
  }

  /** Splitting keeps exactly the first MinLen layers of every class. */
  lemma SplitKeepsHeads(b: Bucket, n: nat)
    requires ValidBucket(b) && n > 1
    ensures Held(GroupsOf(b, n)) == Held(Heads(b.classes, MinLen(b.classes)))
  {
    var m := MinLen(b.classes);
    DealAll(Pattern(b.classes, m), n);
    PatternIsHeads(b.classes, m);
  }

  /** The groups of a bucket hold exactly its layers, none lost and none twice, if and only if
      the bucket is emitted whole or is balanced: splitting an unbalanced bucket cuts it to its
      shortest page-size class. */
  lemma GroupsPartition(b: Bucket, n: nat)
    requires ValidBucket(b) && n >= 1
    ensures Held(GroupsOf(b, n)) == multiset(b.layers) <==> n == 1 || Balanced(b)
  {
    HeldIsFlat(b.classes);
    if n == 1 {
      HeldSnoc([], b.layers);
      assert GroupsOf(b, n) == [] + [b.layers];
    } else {
      SplitKeepsHeads(b, n);
      var heads := Heads(b.classes, MinLen(b.classes));
      if Balanced(b) {
        HeadsWhole(b.classes, MinLen(b.classes));
      } else {
        HeadsShorter(b.classes, MinLen(b.classes));
        HeldIsFlat(heads);
        assert |multiset(Flat(heads))| == |Flat(heads)| < |Flat(b.classes)| == |multiset(Flat(b.classes))|;
      }
    }
  }

  // ------------------------------------------------------------ how wide the groups are

  lemma {:induction false} BytesConcat(s: seq<Layer>, t: seq<Layer>)
    ensures Bytes(s + t) == Bytes(s) + Bytes(t)
  {
    if t == [] {
      assert s + t == s;
    } else {
      var u := t[..|t| - 1];
      BytesConcat(s, u);
      assert (s + t)[..|s + t| - 1] == s + u;
    }
  }

  /** Bytes depend on the layers, not on their order. */
  lemma {:induction false} BytesPermuted(s: seq<Layer>, t: seq<Layer>)
    requires multiset(s) == multiset(t)
    ensures Bytes(s) == Bytes(t)
    decreases |s|
  {
    assert |s| == |multiset(s)| == |multiset(t)| == |t|;
    if s != [] {
      var x, u := s[|s| - 1], s[..|s| - 1];
      assert s == u + [x];
      assert x in multiset(t);
      var k :| 0 <= k < |t| && t[k] == x;
      var v := t[..k] + t[k + 1..];
      assert t == t[..k] + [x] + t[k + 1..];
      assert multiset(s) == multiset(u) + multiset{x};
      assert multiset(t) == multiset(v) + multiset{x};
      assert multiset(u) == multiset(s) - multiset{x};
      BytesPermuted(u, v);
      BytesConcat(t[..k] + [x], t[k + 1..]);
      BytesConcat(t[..k], [x]);
      BytesConcat(t[..k], t[k + 1..]);
      assert Bytes([x]) == x.page by { assert [x][..0] == []; }
    }
  }

  /** Bytes of one repeat of the pattern. */
  ghost function PatternBytes(classes: seq<seq<Layer>>): int
    requires AllClasses(classes)
  {
    if classes == [] then 0 else PatternBytes(classes[..|classes| - 1]) + LastClass(classes)[0].page
  }

  lemma {:induction false} PatternPositive(classes: seq<seq<Layer>>)
    requires AllClasses(classes)
    ensures PatternBytes(classes) >= 0 && (classes != [] ==> PatternBytes(classes) > 0)
  {
    if classes != [] { PatternPositive(classes[..|classes| - 1]); }
  }

  lemma {:induction false} RepeatBytes(classes: seq<seq<Layer>>, j: nat)
    requires AllClasses(classes) && (classes != [] ==> j < MinLen(classes))
    ensures Bytes(Repeat(classes, j)) == PatternBytes(classes)
  {
    if classes != [] {
      var rest, last := classes[..|classes| - 1], LastClass(classes);
      RepeatBytes(rest, j);
      assert last[j].page == last[0].page;
      assert Repeat(classes, j)[..|Repeat(classes, j)| - 1] == Repeat(rest, j);
    }
  }

  lemma {:induction false} PatternBytesEach(classes: seq<seq<Layer>>, m: nat)
    requires AllClasses(classes) && (classes != [] ==> m <= MinLen(classes))
    ensures forall j :: 0 <= j < m ==> Bytes(Pattern(classes, m)[j]) == PatternBytes(classes)
  {
    if m > 0 {
      PatternBytesEach(classes, m - 1);
      RepeatBytes(classes, m - 1);
    }
  }

  lemma OneMore(k: int, p: int)
    ensures (k + 1) * p == k * p + p && (k + 0) * p == k * p
  {
  }

  lemma {:induction false} StridedBytes(repeats: seq<seq<Layer>>, i: int, n: int, p: int)
    requires n > 0 && forall j :: 0 <= j < |repeats| ==> Bytes(repeats[j]) == p
    ensures Bytes(Strided(repeats, i, n)) == Share(|repeats|, n, i) * p
  {
    if repeats != [] {
      var j := |repeats| - 1;
      StridedBytes(repeats[..j], i, n, p);
      BytesConcat(Strided(repeats[..j], i, n), if Turn(j, n) == i then repeats[j] else []);
      OneMore(Share(j, n, i), p);
    }
  }

  ghost function MaxBytes(groups: seq<seq<Layer>>): (w: int)
    ensures w >= 0
  {
    if groups == [] then 0 else Max(MaxBytes(groups[..|groups| - 1]), Bytes(groups[|groups| - 1]))
  }

  lemma {:induction false} MaxBytesConcat(s: seq<seq<Layer>>, t: seq<seq<Layer>>)
    ensures MaxBytes(s + t) == Max(MaxBytes(s), MaxBytes(t))
  {
    if t == [] {
      assert s + t == s;
    } else {
      assert (s + t)[..|s + t| - 1] == s + t[..|t| - 1];
      MaxBytesConcat(s, t[..|t| - 1]);
    }
  }

  /** The width of dealt groups is that of the first one. */
  lemma {:induction false} DealtBytes(repeats: seq<seq<Layer>>, n: int, count: nat, p: int)
    requires 1 <= count <= n && p >= 0 && forall j :: 0 <= j < |repeats| ==> Bytes(repeats[j]) == p
    ensures MaxBytes(Dealt(repeats, n, count)) == CeilDiv(|repeats|, n) * p
  {
    var i, g := count - 1, Dealt(repeats, n, count);
    assert g[..i] == Dealt(repeats, n, i);
    StridedBytes(repeats, i, n, p);
    ShareIsCeil(|repeats|, n, i);
    MulMono(0, Share(|repeats|, n, i), p);
    MulMono(Share(|repeats|, n, i), CeilDiv(|repeats|, n), p);
    if count > 1 {
      DealtBytes(repeats, n, i, p);
    }
  }

  /** The block bytes a bucket asks for when split n ways. */
  ghost function SplitBytes(b: Bucket, n: int): int
    requires ValidBucket(b) && n >= 1
  {
    if n == 1 then Bytes(b.layers) else CeilDiv(MinLen(b.classes), n) * PatternBytes(b.classes)
  }

  lemma GroupsBytes(b: Bucket, n: nat)
    requires ValidBucket(b) && n >= 1
    ensures MaxBytes(GroupsOf(b, n)) == SplitBytes(b, n)
  {
    PatternPositive(b.classes);
    if n == 1 {
      BytesNonNegative(b);
      assert GroupsOf(b, n)[..0] == [];
    } else {
      PatternBytesEach(b.classes, MinLen(b.classes));
      DealtBytes(Pattern(b.classes, MinLen(b.classes)), n, n, PatternBytes(b.classes));
    }
  }

  lemma {:induction false} WholeBytes(classes: seq<seq<Layer>>)
    requires AllClasses(classes)
    ensures Bytes(Flat(classes)) == WidestGroupBytes(classes, 1)
  {
    if classes != [] {
      var rest, last := classes[..|classes| - 1], LastClass(classes);
      WholeBytes(rest);
      FlatBytesStep(classes);
      ClassWhole(last);
      WidestStep(classes, 1);
    }
  }

  lemma {:induction false} FlatBytesStep(classes: seq<seq<Layer>>)
    requires classes != []
    ensures Bytes(Flat(classes)) == Bytes(Flat(classes[..|classes| - 1])) + Bytes(classes[|classes| - 1])
  {
    BytesConcat(Flat(classes[..|classes| - 1]), classes[|classes| - 1]);
  }

  lemma {:induction false} WidestStep(classes: seq<seq<Layer>>, n: int)
    requires n > 0 && AllClasses(classes) && classes != []
    ensures WidestGroupBytes(classes, n)
      == WidestGroupBytes(classes[..|classes| - 1], n) + CeilDiv(|LastClass(classes)|, n) * LastClass(classes)[0].page
  {
  }

  lemma {:induction false} ClassWhole(c: seq<Layer>)
    requires IsClass(c)
    ensures Bytes(c) == CeilDiv(|c|, 1) * c[0].page
  {
    ClassBytes(c, |c|);
    DivExact(|c|, 1);
  }

  lemma {:induction false} ClassBytes(c: seq<Layer>, k: nat)
    requires IsClass(c) && k <= |c|
    ensures Bytes(c[..k]) == k * c[0].page && c[..|c|] == c
  {
    if k > 0 {
      ClassBytes(c, k - 1);
      assert c[..k][..k - 1] == c[..k - 1];
    }
  }

  /** Splitting into more groups never widens a class estimate. */
  lemma {:induction false} WidestMono(classes: seq<seq<Layer>>, n: int, n': int)
    requires 1 <= n <= n' && AllClasses(classes)
    ensures WidestGroupBytes(classes, n') <= WidestGroupBytes(classes, n)
  {
    if classes != [] {
      var last := LastClass(classes);
      WidestMono(classes[..|classes| - 1], n, n');
      CeilDivMono(|last|, n', |last|, n);
      MulMono(CeilDiv(|last|, n'), CeilDiv(|last|, n), last[0].page);
    }
  }

  /** The shortest class bounds the estimate from below; in a balanced bucket it is exact. */
  lemma {:induction false} WidestPattern(classes: seq<seq<Layer>>, m: nat, n: int)
    requires n >= 1 && AllClasses(classes) && (classes != [] ==> m <= MinLen(classes))
    ensures CeilDiv(m, n) * PatternBytes(classes) <= WidestGroupBytes(classes, n)
    ensures (classes != [] ==> m == MaxLen(classes)) ==>
      CeilDiv(m, n) * PatternBytes(classes) == WidestGroupBytes(classes, n)
  {
    if classes != [] {
      var rest, last := classes[..|classes| - 1], LastClass(classes);
      WidestPattern(rest, m, n);
      CeilDivMono(m, n, |last|, n);
      MulMono(CeilDiv(m, n), CeilDiv(|last|, n), last[0].page);
      WidestStep(classes, n);
      Distribute(CeilDiv(m, n), PatternBytes(rest), last[0].page);
    }
  }

  lemma Distribute(k: int, a: int, b: int)
    ensures k * (a + b) == k * a + k * b
  {
  }

  lemma BytesNonNegative(b: Bucket)
    requires ValidBucket(b)
    ensures Bytes(b.layers) == WidestGroupBytes(b.classes, 1) >= 0
  {
    BytesPermuted(b.layers, Flat(b.classes));
    WholeBytes(b.classes);
    PatternPositive(b.classes);
    WidestPattern(b.classes, 0, 1);
    DivExact(0, 1);
  }

  // ------------------------------------------------------------ main results

  /** State buckets (Mamba, circular buffer, unsplit sliding window) hold one page size each. */
  ghost predicate StateSinglePage(bs: seq<Bucket>, repeats: Option<int>) {
    forall k :: 0 <= k < |bs| && IsState(bs[k], repeats) ==> |bs[k].classes| == 1
  }

  ghost function AllLayers(bs: seq<Bucket>): multiset<Layer> {
    if bs == [] then multiset{} else AllLayers(bs[..|bs| - 1]) + multiset(bs[|bs| - 1].layers)
  }

  /** Bucket b comes out of the split with all its layers. */
  ghost predicate KeepsLayers(b: Bucket, repeats: Option<int>, anchor: int)
    requires ValidBucket(b) && (repeats.Some? ==> repeats.value > 0)
  {
    GroupCount(b, repeats, anchor) == 1 || Balanced(b)
  }

  lemma {:induction false} HeldConcat(s: seq<seq<Layer>>, t: seq<seq<Layer>>)
    ensures Held(s + t) == Held(s) + Held(t)
  {
    if t == [] {
      assert s + t == s;
    } else {
      assert (s + t)[..|s + t| - 1] == s + t[..|t| - 1];
      HeldConcat(s, t[..|t| - 1]);
      Regroup(Held(s), Held(t[..|t| - 1]), multiset(t[|t| - 1]));
    }
  }

  lemma {:induction false} HeadsWithin(classes: seq<seq<Layer>>, m: nat)
    ensures Held(Heads(classes, m)) <= Held(classes)
  {
    if classes != [] {
      var rest, last := classes[..|classes| - 1], classes[|classes| - 1];
      HeadsWithin(rest, m);
      HeldSnoc(Heads(rest, m), Head(last, m));
      if m <= |last| {
        assert last == last[..m] + last[m..];
        JoinMultisets(last[..m], last[m..]);
      }
    }
  }

  lemma SplitWithin(b: Bucket, n: nat)
    requires ValidBucket(b) && n >= 1
    ensures Held(GroupsOf(b, n)) <= multiset(b.layers)
  {
    GroupsPartition(b, n);
    if n > 1 {
      SplitKeepsHeads(b, n);
      HeadsWithin(b.classes, MinLen(b.classes));
      HeldIsFlat(b.classes);
    }
  }

  lemma SumsEqual<T>(a: multiset<T>, a': multiset<T>, b: multiset<T>, b': multiset<T>)
    requires a <= a' && b <= b'
    ensures a + b <= a' + b'
    ensures a + b == a' + b' <==> a == a' && b == b'
  {
    if a + b == a' + b' {
      forall x ensures a[x] == a'[x] && b[x] == b'[x] {
        assert (a + b)[x] == (a' + b')[x];
      }
    }
  }

  /** All groups together hold exactly the model's layers if and only if no unbalanced bucket
      is split; otherwise layers are missing. */
  lemma {:induction false} PackingPartitions(bs: seq<Bucket>, repeats: Option<int>, anchor: int)
    requires ValidInput(bs, repeats)
    ensures Held(AllGroups(bs, repeats, anchor)) <= AllLayers(bs)
    ensures Held(AllGroups(bs, repeats, anchor)) == AllLayers(bs) <==> AllKeepLayers(bs, repeats, anchor)
  {
    if bs != [] {
      var rest, b := bs[..|bs| - 1], bs[|bs| - 1];
      PackingPartitions(rest, repeats, anchor);
      var n := GroupCount(b, repeats, anchor);
      GroupsPartition(b, n);
      SplitWithin(b, n);
      HeldConcat(AllGroups(rest, repeats, anchor), GroupsOf(b, n));
      SumsEqual(Held(AllGroups(rest, repeats, anchor)), AllLayers(rest), Held(GroupsOf(b, n)), multiset(b.layers));
      PackingTail(bs, repeats, anchor);
    }
  }

  /** No unbalanced bucket is split. */
  ghost predicate AllKeepLayers(bs: seq<Bucket>, repeats: Option<int>, anchor: int)
    requires ValidInput(bs, repeats)
  {
    forall k :: 0 <= k < |bs| ==> KeepsLayers(bs[k], repeats, anchor)
  }

  lemma PackingTail(bs: seq<Bucket>, repeats: Option<int>, anchor: int)
    requires ValidInput(bs, repeats) && bs != []
    ensures AllKeepLayers(bs, repeats, anchor) <==>
      AllKeepLayers(bs[..|bs| - 1], repeats, anchor) && KeepsLayers(bs[|bs| - 1], repeats, anchor)
  {
    var rest := bs[..|bs| - 1];
    if AllKeepLayers(rest, repeats, anchor) && KeepsLayers(bs[|bs| - 1], repeats, anchor) {
      forall k | 0 <= k < |bs| ensures KeepsLayers(bs[k], repeats, anchor) {
        if k < |rest| { assert KeepsLayers(rest[k], repeats, anchor); }
      }
    }
    if AllKeepLayers(bs, repeats, anchor) {
      forall k | 0 <= k < |rest| ensures KeepsLayers(rest[k], repeats, anchor) {
        assert rest[k] == bs[k];
      }
    }
  }

  lemma OneClass(b: Bucket)
    requires ValidBucket(b) && |b.classes| == 1
    ensures Balanced(b) && MaxLen(b.classes) == |b.layers| && PatternBytes(b.classes) == b.layers[0].page > 0
  {
    var c := LastClass(b.classes);
    assert b.classes == [] + [c];
    FlatSnoc([], c);
    assert |multiset(b.layers)| == |multiset(Flat(b.classes))|;
    assert b.classes[..0] == [];
  }

  /** A bucket's groups fit the anchor, and the bucket that set the anchor fills it. */
  lemma BucketFitsAnchor(b: Bucket, repeats: Option<int>, anchor: int)
    requires ValidBucket(b) && (repeats.Some? ==> repeats.value > 0)
    requires BucketAnchor(b, repeats) <= anchor && anchor > 0
    requires IsState(b, repeats) ==> |b.classes| == 1
    ensures SplitBytes(b, GroupCount(b, repeats, anchor)) <= anchor
    ensures BucketAnchor(b, repeats) == anchor ==> SplitBytes(b, GroupCount(b, repeats, anchor)) == anchor
  {
    BytesNonNegative(b);
    if IsState(b, repeats) {
      StateFitsAnchor(b, repeats, anchor);
    } else {
      MinMaxEqual(b, NumGroupsFor(b, repeats));
    }
  }

  lemma {:induction false} MinMaxEqual(b: Bucket, n: int)
    requires ValidBucket(b) && n >= 1 && (n == 1 || Balanced(b))
    ensures SplitBytes(b, n) == WidestGroupBytes(b.classes, n)
  {
    BytesNonNegative(b);
    if n > 1 {
      WidestPattern(b.classes, MinLen(b.classes), n);
    }
  }

  lemma StateFitsAnchor(b: Bucket, repeats: Option<int>, anchor: int)
    requires ValidBucket(b) && (repeats.Some? ==> repeats.value > 0) && IsState(b, repeats) && |b.classes| == 1
    requires BucketAnchor(b, repeats) <= anchor && anchor > 0
    ensures SplitBytes(b, GroupCount(b, repeats, anchor)) <= anchor
    ensures BucketAnchor(b, repeats) == anchor ==> SplitBytes(b, GroupCount(b, repeats, anchor)) == anchor
  {
    OneClass(b);
    var t, p := |b.layers|, b.layers[0].page;
    WidestPattern(b.classes, t, t);
    CeilOf(t, t, 1);
    assert BucketAnchor(b, repeats) == p;
    var n := GroupCount(b, repeats, anchor);
    MinMaxEqual(b, n);
    WidestPattern(b.classes, t, n);
    StatesPerBlock(t, p, anchor, n);
  }

  /** n groups, enough for the states a block holds, get no more than that many states each. */
  lemma StatesShared(t: int, states: int, n: int)
    requires t >= 1 && states >= 1 && n >= 1 && n >= CeilDiv(t, states)
    ensures 1 <= CeilDiv(t, n) <= states
  {
    CeilDivLeast(t, states, n);
    assert n * states == states * n;
    CeilDivLeast(t, n, states);
    CeilDivBounds(t, n);
  }

  /** And they are no wider than the block. */
  lemma StatesPerBlock(t: int, p: int, anchor: int, n: int)
    requires t >= 1 && 0 < p <= anchor && n >= 1 && n >= CeilDiv(t, Max(anchor / p, 1))
    ensures CeilDiv(t, n) * p <= anchor
    ensures p == anchor ==> CeilDiv(t, n) * p == anchor
  {
    var states, got := anchor / p, CeilDiv(t, n);
    QuotientBounds(anchor, p);
    StatesShared(t, states, n);
    MulMono(got, states, p);
    MulMono(1, got, p);
  }

  lemma QuotientBounds(a: int, p: int)
    requires 0 < p <= a
    ensures a / p >= 1 && a / p * p <= a
  {
    assert a == a / p * p + a % p;
    if a / p <= 0 { MulMono(a / p, 0, p); }
  }

  lemma BucketAnchorPositive(b: Bucket, repeats: Option<int>)
    requires ValidBucket(b) && (repeats.Some? ==> repeats.value > 0)
    ensures BucketAnchor(b, repeats) > 0
  {
    AnchorGrows(b.classes, if IsState(b, repeats) then |b.layers| else NumGroupsFor(b, repeats));
  }

  lemma {:induction false} AnchorGrows(classes: seq<seq<Layer>>, n: int)
    requires n >= 1 && AllClasses(classes)
    ensures WidestGroupBytes(classes, n) >= 0 && (classes != [] ==> WidestGroupBytes(classes, n) > 0)
  {
    if classes != [] {
      AnchorGrows(classes[..|classes| - 1], n);
      var c := LastClass(classes);
      CeilDivBounds(|c|, n);
      MulMono(1, CeilDiv(|c|, n), c[0].page);
    }
  }

  /** Every group of the first k buckets fits the anchor, and if one of them set the anchor, some
      group fills it. */
  lemma {:induction false} GroupsFitAnchor(bs: seq<Bucket>, repeats: Option<int>, anchor: int)
    requires ValidInput(bs, repeats) && StateSinglePage(bs, repeats)
    requires Anchor(bs, repeats) <= anchor && anchor > 0
    ensures MaxBytes(AllGroups(bs, repeats, anchor)) <= anchor
    ensures Anchor(bs, repeats) == anchor ==> MaxBytes(AllGroups(bs, repeats, anchor)) == anchor
  {
    if bs != [] {
      var rest, b := bs[..|bs| - 1], bs[|bs| - 1];
      assert StateSinglePage(rest, repeats);
      GroupsFitAnchor(rest, repeats, anchor);
      BucketFitsAnchor(b, repeats, anchor);
      GroupsBytes(b, GroupCount(b, repeats, anchor));
      MaxBytesConcat(AllGroups(rest, repeats, anchor), SplitBucket(b, repeats, anchor));
    }
  }

  /** When each state bucket has one page size, the block the groups need is exactly the anchor
      the planner computed beforehand, and no layer is lost. */
  lemma {:induction false} AnchorIsExact(bs: seq<Bucket>, repeats: Option<int>)
    requires ValidInput(bs, repeats) && StateSinglePage(bs, repeats) && bs != []
    ensures MaxBytes(AllGroups(bs, repeats, Anchor(bs, repeats))) == Anchor(bs, repeats) > 0
    ensures Held(AllGroups(bs, repeats, Anchor(bs, repeats))) == AllLayers(bs)
  {
    var anchor := Anchor(bs, repeats);
    BucketAnchorPositive(bs[|bs| - 1], repeats);
    GroupsFitAnchor(bs, repeats, anchor);
    PackingPartitions(bs, repeats, anchor);
    forall k | 0 <= k < |bs| ensures KeepsLayers(bs[k], repeats, anchor) {
      if IsState(bs[k], repeats) {
        OneClass(bs[k]);
      }
    }
  }

  lemma SplitBytesAntitone(b: Bucket, n: int, n': int)
    requires ValidBucket(b) && 1 <= n <= n'
    ensures SplitBytes(b, n') <= SplitBytes(b, n)
  {
    var m, p := MinLen(b.classes), PatternBytes(b.classes);
    BytesNonNegative(b);
    PatternPositive(b.classes);
    WidestPattern(b.classes, m, 1);
    CeilDivMono(m, n', m, n);
    MulMono(CeilDiv(m, n'), CeilDiv(m, n), p);
  }

  /** Finer repeats: more groups for every bucket and a smaller anchor. */
  lemma FinerSplits(b: Bucket, fine: int, coarse: int, anchor: int, anchor': int)
    requires ValidBucket(b) && 0 < fine <= coarse && 0 < anchor <= anchor'
    ensures NumGroupsFor(b, Some(fine)) >= NumGroupsFor(b, Some(coarse))
    ensures BucketAnchor(b, Some(fine)) <= BucketAnchor(b, Some(coarse))
    ensures GroupCount(b, Some(fine), anchor) >= GroupCount(b, Some(coarse), anchor')
  {
    CeilDivMono(MaxLen(b.classes), coarse, MaxLen(b.classes), fine);
    WidestMono(b.classes, NumGroupsFor(b, Some(coarse)), NumGroupsFor(b, Some(fine)));
    var p, t := b.layers[0].page, |b.layers|;
    assert p > 0 by { assert IsClass(b.classes[0]); }
    assert anchor / p <= anchor' / p by { DivMono(anchor, anchor', p); }
    CeilDivMono(t, Max(anchor' / p, 1), t, Max(anchor / p, 1));
  }

  lemma DivMono(a: int, a': int, p: int)
    requires 0 <= a <= a' && p > 0
    ensures a / p <= a' / p
  {
    assert a == a / p * p + a % p && a' == a' / p * p + a' % p;
    if a / p > a' / p { MulMono(a' / p + 1, a / p, p); }
  }

  lemma {:induction false} FinerAnchor(bs: seq<Bucket>, fine: int, coarse: int)
    requires AllValid(bs) && 0 < fine <= coarse
    ensures Anchor(bs, Some(fine)) <= Anchor(bs, Some(coarse))
  {
    if bs != [] {
      FinerAnchor(bs[..|bs| - 1], fine, coarse);
      FinerSplits(bs[|bs| - 1], fine, coarse, 1, 1);
    }
  }

  lemma {:induction false} FinerGroups(bs: seq<Bucket>, fine: int, coarse: int, anchor: int, anchor': int)
    requires AllValid(bs) && 0 < fine <= coarse && 0 < anchor <= anchor'
    ensures MaxBytes(AllGroups(bs, Some(fine), anchor)) <= MaxBytes(AllGroups(bs, Some(coarse), anchor'))
  {
    if bs != [] {
      var rest, b := bs[..|bs| - 1], bs[|bs| - 1];
      FinerGroups(rest, fine, coarse, anchor, anchor');
      FinerSplits(b, fine, coarse, anchor, anchor');
      var n, n' := GroupCount(b, Some(fine), anchor), GroupCount(b, Some(coarse), anchor');
      SplitBytesAntitone(b, n', n);
      GroupsBytes(b, n);
      GroupsBytes(b, n');
      MaxBytesConcat(AllGroups(rest, Some(fine), anchor), SplitBucket(b, Some(fine), anchor));
      MaxBytesConcat(AllGroups(rest, Some(coarse), anchor'), SplitBucket(b, Some(coarse), anchor'));
    }
  }

  /** The fine mode never needs a wider block than the upstream mode, for any buckets at all. */
  lemma {:induction false} FineNeverWider(bs: seq<Bucket>, fine: Option<int>, upstream: Option<int>)
    requires AllValid(bs) && ChosenRepeats(bs, true, fine) && ChosenRepeats(bs, false, upstream)
    ensures MaxBytes(AllGroups(bs, fine, Anchor(bs, fine))) <= MaxBytes(AllGroups(bs, upstream, Anchor(bs, upstream)))
  {
    if MinRepeats(bs) > 0 {
      var values := BalancedRepeats(bs);
      BalancedRepeatsPositive(bs);
      BestSizeIsGcd(values, fine.value);
      var k :| 0 <= k < |values| && values[k] == MinRepeats(bs);
      assert MinRepeats(bs) % fine.value == 0;
      DividesAtMost(MinRepeats(bs), fine.value);
      FinerAnchor(bs, fine.value, upstream.value);
      assert bs != [];
      BucketAnchorPositive(bs[|bs| - 1], fine);
      FinerGroups(bs, fine.value, upstream.value, Anchor(bs, fine), Anchor(bs, upstream));
    }
  }

  lemma DividesAtMost(n: int, d: int)
    requires n > 0 && d > 0 && n % d == 0
    ensures d <= n
  {
    if d > n { DivModUnique(n, d, 0, n); }
  }

  lemma {:induction false} EvenShares(len: int, g: int, i: int)
    requires g > 0 && len > 0 && len % g == 0 && 0 <= i < CeilDiv(len, g)
    ensures Share(len, CeilDiv(len, g), i) == g
  {
    var n := len / g;
    assert len == n * g;
    DivExact(n, g);
    ShareIsCeil(len, n, i);
    assert (g - 1) * n == g * n - n;
    MulMono(1, g, n);
    assert g * n == n * g;
    CeilOf(len - i, n, g);
  }
}
