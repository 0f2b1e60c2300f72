/** Mamba layers sharing the MLA memory slots: the group count chosen for a pipeline, the
    round-robin assignment, its projection to a stage, and which layers get a slot there. */
module MambaGroups {
  import opened Arith
  import opened RoundRobin
  import opened KvGroups
  import opened Lists
  import opened Wrappers

  /** A pipeline stage holds the layers start <= index < end. */
  datatype Stage = Stage(start: int, end: int)

  type Keep = Layer -> bool

  function OnStage(s: Stage): Keep { (l: Layer) => s.start <= l.name.index < s.end }

  /** Adjoining stages share no layer and leave none out. */
  lemma StagesAdjoin(a: int, b: int, c: int, l: Layer)
    requires a <= b <= c
    ensures !(OnStage(Stage(a, b))(l) && OnStage(Stage(b, c))(l))
    ensures OnStage(Stage(a, b))(l) || OnStage(Stage(b, c))(l) <==> OnStage(Stage(a, c))(l)
  {
  }

  /** The layers whose turn is g of n. */
  function DealtTo(layers: seq<Layer>, g: int, n: int): seq<Layer>
    requires n > 0
  {
    if layers == [] then []
    else
      var j := |layers| - 1;
      DealtTo(layers[..j], g, n) + if Turn(j, n) == g then [layers[j]] else []
  }

  /** n groups leave every group of the stage no more layers than the stage has slots for. */
  predicate StageFits(mamba: seq<Layer>, mla: seq<Layer>, keep: Keep, n: int) {
    |Filter(mamba, keep)| <= n * |Filter(mla, keep)|
  }

  ghost predicate AllStagesFit(mamba: seq<Layer>, mla: seq<Layer>, stages: seq<Stage>, n: int) {
    forall i :: 0 <= i < |stages| ==> StageFits(mamba, mla, OnStage(stages[i]), n)
  }

  /** A stage with Mamba layers but nothing to share slots with. */
  predicate Stranded(mamba: seq<Layer>, mla: seq<Layer>, keep: Keep) {
    Filter(mamba, keep) != [] && Filter(mla, keep) == []
  }

  lemma FitsMore(mamba: seq<Layer>, mla: seq<Layer>, keep: Keep, n: int, more: int)
    requires StageFits(mamba, mla, keep, n) && n <= more
    ensures StageFits(mamba, mla, keep, more)
  {
    MulMono(n, more, |Filter(mla, keep)|);
  }

  lemma {:induction false} FitsNone(mamba: seq<Layer>, mla: seq<Layer>, keep: Keep, n: nat)
    requires Filter(mamba, keep) == []
    ensures StageFits(mamba, mla, keep, n)
  {
  }

  lemma {:induction false} LeastFit(mamba: seq<Layer>, mla: seq<Layer>, keep: Keep, n: int)
    requires Filter(mla, keep) != []
    ensures StageFits(mamba, mla, keep, n) <==> n >= CeilDiv(|Filter(mamba, keep)|, |Filter(mla, keep)|)
  {
    CeilDivLeast(|Filter(mamba, keep)|, |Filter(mla, keep)|, n);
  }

  ghost predicate FitUpTo(mamba: seq<Layer>, mla: seq<Layer>, stages: seq<Stage>, i: nat, n: int) {
    i <= |stages| && forall k :: 0 <= k < i ==> StageFits(mamba, mla, OnStage(stages[k]), n)
  }

  lemma {:induction false} FitRaised(mamba: seq<Layer>, mla: seq<Layer>, stages: seq<Stage>, i: nat, n: int, more: int)
    requires i < |stages| && FitUpTo(mamba, mla, stages, i, n) && Filter(mla, OnStage(stages[i])) != []
    requires n <= more && CeilDiv(|Filter(mamba, OnStage(stages[i]))|, |Filter(mla, OnStage(stages[i]))|) <= more
    ensures FitUpTo(mamba, mla, stages, i + 1, more)
  {
    forall k | 0 <= k < i ensures StageFits(mamba, mla, OnStage(stages[k]), more) {
      FitsMore(mamba, mla, OnStage(stages[k]), n, more);
    }
    LeastFit(mamba, mla, OnStage(stages[i]), more);
  }

  /** What the chosen number of groups satisfies: no more than there are layers, and enough; a single
      stage is not looked at. */
  ghost predicate Suffices(mamba: seq<Layer>, mla: seq<Layer>, stages: seq<Stage>, n: int) {
    1 <= n <= |mamba| <= n * |mla| && (|stages| != 1 ==> AllStagesFit(mamba, mla, stages, n))
  }

  /** No smaller number of groups fits the whole model and every stage. */
  ghost predicate NoFewer(mamba: seq<Layer>, mla: seq<Layer>, stages: seq<Stage>, count: int) {
    forall n :: |mamba| <= n * |mla| && AllStagesFit(mamba, mla, stages, n) ==> n >= count
  }

  /** After i stages: the least number that fits them and the whole model, none of them stranded. */
  ghost predicate LeastSoFar(mamba: seq<Layer>, mla: seq<Layer>, stages: seq<Stage>, i: nat, count: int) {
    && 1 <= count <= |mamba| <= count * |mla|
    && FitUpTo(mamba, mla, stages, i, count)
    && NoFewer(mamba, mla, stages, count)
    && (forall k :: 0 <= k < i ==> !Stranded(mamba, mla, OnStage(stages[k])))
  }

  lemma StartLeast(mamba: seq<Layer>, mla: seq<Layer>, stages: seq<Stage>)
    requires mla != [] && mamba != []
    ensures LeastSoFar(mamba, mla, stages, 0, CeilDiv(|mamba|, |mla|))
  {
    var count := CeilDiv(|mamba|, |mla|);
    CeilDivBounds(|mamba|, |mla|);
    CeilAtMost(|mamba|, |mla|);
    forall n | |mamba| <= n * |mla| ensures n >= count {
      CeilDivLeast(|mamba|, |mla|, n);
    }
  }

  /** A stage without Mamba layers asks for nothing. */
  lemma {:induction false} PassStage(mamba: seq<Layer>, mla: seq<Layer>, stages: seq<Stage>, i: nat, count: int)
    requires i < |stages| && LeastSoFar(mamba, mla, stages, i, count) && Filter(mamba, OnStage(stages[i])) == []
    ensures LeastSoFar(mamba, mla, stages, i + 1, count)
  {
    FitsNone(mamba, mla, OnStage(stages[i]), count);
    assert FitUpTo(mamba, mla, stages, i + 1, count);
  }

  lemma {:induction false} StageNeeds(mamba: seq<Layer>, mla: seq<Layer>, stages: seq<Stage>, i: nat, count: int)
    requires i < |stages| && Filter(mla, OnStage(stages[i])) != [] && NoFewer(mamba, mla, stages, count)
    ensures NoFewer(mamba, mla, stages,
                    Max(count, CeilDiv(|Filter(mamba, OnStage(stages[i]))|, |Filter(mla, OnStage(stages[i]))|)))
  {
    forall n | |mamba| <= n * |mla| && AllStagesFit(mamba, mla, stages, n)
      ensures n >= CeilDiv(|Filter(mamba, OnStage(stages[i]))|, |Filter(mla, OnStage(stages[i]))|)
    {
      LeastFit(mamba, mla, OnStage(stages[i]), n);
    }
  }

  /** A stage with both kinds raises the number to what it needs. */
  lemma {:induction false} RaiseForStage(mamba: seq<Layer>, mla: seq<Layer>, stages: seq<Stage>, i: nat, count: int)
    requires i < |stages| && LeastSoFar(mamba, mla, stages, i, count) && Filter(mla, OnStage(stages[i])) != []
    ensures LeastSoFar(mamba, mla, stages, i + 1,
                       Max(count, CeilDiv(|Filter(mamba, OnStage(stages[i]))|, |Filter(mla, OnStage(stages[i]))|)))
  {
    var raised := Max(count, CeilDiv(|Filter(mamba, OnStage(stages[i]))|, |Filter(mla, OnStage(stages[i]))|));
    MulMono(count, raised, |mla|);
    CeilAtMost(|Filter(mamba, OnStage(stages[i]))|, |Filter(mla, OnStage(stages[i]))|);
    FitRaised(mamba, mla, stages, i, count, raised);
    StageNeeds(mamba, mla, stages, i, count);
  }

  lemma LeastSuffices(mamba: seq<Layer>, mla: seq<Layer>, stages: seq<Stage>, i: nat, count: int)
    requires LeastSoFar(mamba, mla, stages, i, count) && (i == |stages| || |stages| == 1)
    ensures Suffices(mamba, mla, stages, count) && NoFewer(mamba, mla, stages, count)
  {
  }

  /** The least number of groups that fits the whole model and, with several stages, every stage;
      none if some stage has Mamba layers but no MLA layer. */
  method GroupCount(mamba: seq<Layer>, mla: seq<Layer>, stages: seq<Stage>) returns (r: Option<int>)
    requires mla != [] && mamba != []
    ensures r.None? <==> |stages| != 1 && exists i :: 0 <= i < |stages| && Stranded(mamba, mla, OnStage(stages[i]))
    ensures r.Some? ==> Suffices(mamba, mla, stages, r.value) && NoFewer(mamba, mla, stages, r.value)
  {
    var count := CeilDiv(|mamba|, |mla|);
    StartLeast(mamba, mla, stages);
    if |stages| == 1 {
      LeastSuffices(mamba, mla, stages, 0, count);
      return Some(count);
    }
    for i := 0 to |stages|
      invariant LeastSoFar(mamba, mla, stages, i, count)
    {
      var numMamba, numMla := |Filter(mamba, OnStage(stages[i]))|, |Filter(mla, OnStage(stages[i]))|;
      if numMamba == 0 {
        PassStage(mamba, mla, stages, i, count);
        continue;
      }
      if numMla == 0 {
        assert Stranded(mamba, mla, OnStage(stages[i]));
        return None;
      }
      RaiseForStage(mamba, mla, stages, i, count);
      count := Max(count, CeilDiv(numMamba, numMla));
    }
    LeastSuffices(mamba, mla, stages, |stages|, count);
    r := Some(count);
  }

  /** groups[index % count].append(layer) over all layers. */
  method DealRoundRobin(mamba: seq<Layer>, count: int) returns (groups: seq<seq<Layer>>)
    requires count > 0
    ensures |groups| == count && forall g :: 0 <= g < count ==> groups[g] == DealtTo(mamba, g, count)
  {
    groups := seq(count, _ => []);
    for j := 0 to |mamba|
      invariant |groups| == count
      invariant forall g :: 0 <= g < count ==> groups[g] == DealtTo(mamba[..j], g, count)
    {
      TurnIsMod(j, count);
      var g := j % count;
      assert mamba[..j + 1][..j] == mamba[..j];
      groups := groups[g := groups[g] + [mamba[j]]];
    }
    assert mamba[..|mamba|] == mamba;
  }

  // ------------------------------------------------------------ what a stage's groups hold

  lemma RunOfPrefix(layers: seq<Layer>, keep: Keep, lo: nat, hi: nat)
    requires RunOf(layers, keep, lo, hi) && layers != []
    ensures RunOf(layers[..|layers| - 1], keep, Min(lo, |layers| - 1), Min(hi, |layers| - 1))
    ensures keep(layers[|layers| - 1]) <==> lo < hi == |layers|
  {
  }

  lemma {:induction false} ProjectedRun(layers: seq<Layer>, keep: Keep, lo: nat, hi: nat)
    requires RunOf(layers, keep, lo, hi)
    ensures |Filter(layers, keep)| == hi - lo
  {
    if layers != [] {
      RunOfPrefix(layers, keep, lo, hi);
      ProjectedRun(layers[..|layers| - 1], keep, Min(lo, |layers| - 1), Min(hi, |layers| - 1));
    }
  }

  ghost function RunShare(lo: nat, hi: nat, n: int, g: int): int
    requires n > 0
  {
    Share(hi, n, g) - Share(lo, n, g)
  }

  /** One more item at the end of the run. */
  lemma RunShareStep(lo: nat, j: nat, n: int, g: int)
    requires n > 0
    ensures RunShare(lo, j + 1, n, g) == RunShare(lo, j, n, g) + if Turn(j, n) == g then 1 else 0
  {
  }

  /** Each group's layers on the stage are those whose turn falls into the run. */
  lemma {:induction false} ProjectedShare(layers: seq<Layer>, g: int, n: int, keep: Keep, lo: nat, hi: nat)
    requires n > 0 && RunOf(layers, keep, lo, hi)
    ensures |Filter(DealtTo(layers, g, n), keep)| == RunShare(lo, hi, n, g)
  {
    if layers != [] {
      var j := |layers| - 1;
      RunOfPrefix(layers, keep, lo, hi);
      ProjectedShare(layers[..j], g, n, keep, Min(lo, j), Min(hi, j));
      ProjectDealt(layers, g, n, keep);
      if lo < hi == |layers| {
        RunShareStep(lo, j, n, g);
      }
    }
  }

  lemma {:induction false} ProjectDealt(layers: seq<Layer>, g: int, n: int, keep: Keep)
    requires n > 0 && layers != []
    ensures var j := |layers| - 1;
      |Filter(DealtTo(layers, g, n), keep)| == |Filter(DealtTo(layers[..j], g, n), keep)|
        + if keep(layers[j]) && Turn(j, n) == g then 1 else 0
  {
    var j := |layers| - 1;
    FilterSnoc(DealtTo(layers[..j], g, n), layers[j], keep);
    assert DealtTo(layers[..j], g, n) + [] == DealtTo(layers[..j], g, n);
  }

  lemma {:induction false} ProjectDealtSnoc(rest: seq<Layer>, v: Layer, g: int, n: int, keep: Keep)
    requires n > 0
    ensures |Filter(DealtTo(rest + [v], g, n), keep)| == |Filter(DealtTo(rest, g, n), keep)|
        + if keep(v) && Turn(|rest|, n) == g then 1 else 0
  {
    assert (rest + [v])[..|rest|] == rest;
    ProjectDealt(rest + [v], g, n, keep);
  }

  /** A run of at most n * slots items gives each of n groups at most slots of them. */
  lemma RunShareBound(lo: nat, hi: nat, n: int, g: int, slots: nat)
    requires 0 <= g < n && lo <= hi <= lo + n * slots
    ensures RunShare(lo, hi, n, g) <= slots
  {
    ShareIsCeil(hi, n, g);
    ShareIsCeil(lo, n, g);
    CeilAhead(Max(lo - g, 0), Max(hi - g, 0), n, slots);
  }

  lemma CeilAhead(a: int, b: int, n: int, slots: nat)
    requires n > 0 && b <= a + n * slots
    ensures CeilDiv(b, n) <= CeilDiv(a, n) + slots
  {
    var q := CeilDiv(a, n);
    CeilDivBounds(a, n);
    assert (q + slots) * n == q * n + n * slots;
    CeilDivLeast(b, n, q + slots);
  }

  ghost function Total(f: nat -> int, c: nat): int {
    if c == 0 then 0 else Total(f, c - 1) + f(c - 1)
  }

  lemma {:induction false} TotalPlus(f: nat -> int, f': nat -> int, at: int, more: int, c: nat)
    requires forall g: nat :: g < c ==> f'(g) == f(g) + if g == at then more else 0
    ensures Total(f', c) == Total(f, c) + if 0 <= at < c then more else 0
  {
    if c > 0 { TotalPlus(f, f', at, more, c - 1); }
  }

  lemma {:induction false} TotalZero(f: nat -> int, c: nat)
    requires forall g: nat :: g < c ==> f(g) == 0
    ensures Total(f, c) == 0
  {
    if c > 0 { TotalZero(f, c - 1); }
  }

  /** How many layers group g of n holds on a worker. */
  ghost function HeldBy(layers: seq<Layer>, n: int, keep: Keep): nat -> int
    requires n > 0
  {
    (g: nat) => |Filter(DealtTo(layers, g, n), keep)|
  }

  /** Layers the first c groups hold on a worker. */
  ghost function Projected(layers: seq<Layer>, n: int, keep: Keep, c: nat): int
    requires n > 0
  {
    Total(HeldBy(layers, n, keep), c)
  }

  lemma {:induction false} ProjectedSnoc(rest: seq<Layer>, v: Layer, n: int, keep: Keep, c: nat)
    requires n > 0
    ensures Projected(rest + [v], n, keep, c)
      == Projected(rest, n, keep, c) + if keep(v) && Turn(|rest|, n) < c then 1 else 0
  {
    var f, f' := HeldBy(rest, n, keep), HeldBy(rest + [v], n, keep);
    var more := if keep(v) then 1 else 0;
    forall g: nat | g < c ensures f'(g) == f(g) + if g == Turn(|rest|, n) then more else 0 {
      ProjectDealtSnoc(rest, v, g, n, keep);
    }
    TotalPlus(f, f', Turn(|rest|, n), more, c);
  }

  lemma ProjectedNone(n: int, keep: Keep, c: nat)
    requires n > 0
    ensures Projected([], n, keep, c) == 0
  {
    TotalZero(HeldBy([], n, keep), c);
  }

  /** Every layer of the stage is in exactly one group. */
  lemma {:induction false} ProjectedTotal(layers: seq<Layer>, n: int, keep: Keep)
    requires n > 0
    ensures Projected(layers, n, keep, n) == |Filter(layers, keep)|
  {
    if layers == [] {
      ProjectedNone(n, keep, n);
    } else {
      var j := |layers| - 1;
      ProjectedTotal(layers[..j], n, keep);
      ProjectedSnoc(layers[..j], layers[j], n, keep, n);
      assert layers[..j] + [layers[j]] == layers;
    }
  }

  /** Group g of n has no more layers on the stage than the stage has MLA slots. */
  ghost predicate GroupFits(mamba: seq<Layer>, mla: seq<Layer>, keep: Keep, n: int, g: int)
    requires n > 0
  {
    |Filter(DealtTo(mamba, g, n), keep)| <= |Filter(mla, keep)|
  }

  ghost predicate NothingDropped(mamba: seq<Layer>, mla: seq<Layer>, keep: Keep, n: int)
    requires n > 0
  {
    forall g :: 0 <= g < n ==> GroupFits(mamba, mla, keep, n, g)
  }

  lemma MulStep(c: int, x: int)
    ensures c * x == (c - 1) * x + x
  {
  }

  lemma {:induction false} TotalAtMost(f: nat -> int, bound: int, c: nat)
    requires forall g: nat :: g < c ==> f(g) <= bound
    ensures Total(f, c) <= c * bound
  {
    if c > 0 {
      TotalAtMost(f, bound, c - 1);
      MulStep(c, bound);
    }
  }

  lemma {:induction false} ProjectedAtMost(mamba: seq<Layer>, mla: seq<Layer>, n: int, keep: Keep, c: nat)
    requires n > 0 && forall g :: 0 <= g < c ==> GroupFits(mamba, mla, keep, n, g)
    ensures Projected(mamba, n, keep, c) <= c * |Filter(mla, keep)|
  {
    forall g: nat | g < c ensures HeldBy(mamba, n, keep)(g) <= |Filter(mla, keep)| {
      assert GroupFits(mamba, mla, keep, n, g);
    }
    TotalAtMost(HeldBy(mamba, n, keep), |Filter(mla, keep)|, c);
  }

  /** When a stage's layers stand together in the list, n groups lose none of them exactly when the
      stage has at most n layers per slot; so the count above is the least that loses none anywhere. */
  lemma NothingDroppedExactly(mamba: seq<Layer>, mla: seq<Layer>, n: int, keep: Keep)
    requires n > 0 && Consecutive(mamba, keep)
    ensures NothingDropped(mamba, mla, keep, n) <==> StageFits(mamba, mla, keep, n)
  {
    var lo: nat, hi: nat :| RunOf(mamba, keep, lo, hi);
    if StageFits(mamba, mla, keep, n) {
      forall g | 0 <= g < n ensures GroupFits(mamba, mla, keep, n, g) {
        ProjectedShare(mamba, g, n, keep, lo, hi);
        ProjectedRun(mamba, keep, lo, hi);
        RunShareBound(lo, hi, n, g, |Filter(mla, keep)|);
      }
    }
    if NothingDropped(mamba, mla, keep, n) {
      ProjectedTotal(mamba, n, keep);
      ProjectedAtMost(mamba, mla, n, keep, n);
    }
  }

  /** A worker of stage j: with one stage it holds every layer, with several the Mamba layers of its
      stage and at least the stage's MLA layers. */
  ghost predicate Serves(keep: Keep, mamba: seq<Layer>, mla: seq<Layer>, stages: seq<Stage>, j: nat) {
    if |stages| == 1 then (forall l :: l in mamba || l in mla ==> keep(l))
    else
      && j < |stages| && (forall l :: l in mamba ==> (keep(l) <==> OnStage(stages[j])(l)))
      && (forall l :: l in mla && OnStage(stages[j])(l) ==> keep(l))
  }

  lemma {:induction false} FilterMore(layers: seq<Layer>, some: Keep, more: Keep)
    requires forall l :: l in layers && some(l) ==> more(l)
    ensures |Filter(layers, some)| <= |Filter(layers, more)|
  {
    if layers != [] {
      FilterMore(layers[..|layers| - 1], some, more);
    }
  }

  lemma ServedFits(mamba: seq<Layer>, mla: seq<Layer>, stages: seq<Stage>, n: int, j: nat, keep: Keep)
    requires Suffices(mamba, mla, stages, n) && Serves(keep, mamba, mla, stages, j)
    ensures StageFits(mamba, mla, keep, n)
  {
    if |stages| == 1 {
      FilterAll(mamba, keep);
      FilterAll(mla, keep);
    } else {
      assert StageFits(mamba, mla, OnStage(stages[j]), n);
      FilterSame(mamba, keep, OnStage(stages[j]));
      FilterMore(mla, OnStage(stages[j]), keep);
      MulMono(|Filter(mla, OnStage(stages[j]))|, |Filter(mla, keep)|, n);
    }
  }

  /** For any number of stages, one included, the chosen count loses no layer on any worker. */
  lemma ChosenCountDropsNothing(mamba: seq<Layer>, mla: seq<Layer>, stages: seq<Stage>, n: int, j: nat, keep: Keep)
    requires Suffices(mamba, mla, stages, n) && Serves(keep, mamba, mla, stages, j) && Consecutive(mamba, keep)
    ensures NothingDropped(mamba, mla, keep, n)
  {
    ServedFits(mamba, mla, stages, n, j, keep);
    NothingDroppedExactly(mamba, mla, n, keep);
  }
}
