/** The block-quantized shared expert: zero-padding of its weights and scales, the width the model
    gives the layer, the even split over the ranks, and when that loses nothing. */
module SharedExpert {
  import opened Arith
  import opened RankSum

  /** Raw bytes of one row or column of a weight, or of its block scales. */
  type Row = seq<int>

  /** Zero-pad the intermediate axis to whole shards of `step` units each. */
  function PadWeight(w: seq<Row>, tp: nat, step: nat, zero: Row): (r: seq<Row>)
    requires tp > 0 && step > 0
    ensures |r| == CeilDiv(|w|, tp * step) * (tp * step) && w <= r
    ensures forall i :: |w| <= i < |r| ==> r[i] == zero
  {
    CeilDivBounds(|w|, tp * step);
    w + seq(CeilDiv(|w|, tp * step) * (tp * step) - |w|, _ => zero)
  }

  /** Blocks per rank of the width the model is built with. */
  function LocalBlocks(inter: nat, block: nat, tp: nat): int
    requires block > 0 && tp > 0
  {
    CeilDiv(inter / block, tp)
  }

  function ModelWidth(inter: nat, block: nat, tp: nat): int
    requires block > 0 && tp > 0
  {
    LocalBlocks(inter, block, tp) * block * tp
  }

  /** A last, partial block does not start a new row of blocks over the ranks. */
  predicate KeepsAll(inter: nat, block: nat, tp: nat)
    requires block > 0 && tp > 0
  {
    inter % (tp * block) == 0 || inter % (tp * block) >= block
  }

  /** Dividing twice is dividing by the product, rounding up. */
  lemma CeilTwice(a: nat, b: nat, c: nat)
    requires b > 0 && c > 0
    ensures CeilDiv(CeilDiv(a, b), c) == CeilDiv(a, b * c)
  {
    var x, q, p := CeilDiv(a, b), CeilDiv(CeilDiv(a, b), c), CeilDiv(a, b * c);
    MulMono(1, b, c);
    CeilDivLeast(a, b, q * c);
    CeilDivLeast(x, c, q);
    assert q * c * b == q * (b * c);
    CeilDivLeast(a, b * c, q);
    CeilDivLeast(a, b * c, p);
    assert p * c * b == p * (b * c);
    CeilDivLeast(a, b, p * c);
    CeilDivLeast(x, c, p);
  }

  /** inter is `whole` full rows of blocks over the ranks, then `extra` blocks, then `part` columns. */
  lemma Layers(inter: nat, block: nat, tp: nat) returns (whole: nat, extra: nat, part: nat)
    requires block > 0 && tp > 0
    ensures extra < tp && part < block && extra * block + part < tp * block
    ensures inter / block == whole * tp + extra && inter == whole * (tp * block) + (extra * block + part)
    ensures inter % (tp * block) == extra * block + part
  {
    part := inter % block;
    whole, extra := inter / block / tp, inter / block % tp;
    assert inter / block == whole * tp + extra;
    assert inter == inter / block * block + part;
    SplitUnits(inter, inter / block, whole, extra, part, block, tp);
  }

  lemma SplitUnits(inter: nat, blocks: nat, whole: nat, extra: nat, part: nat, block: nat, tp: nat)
    requires extra < tp && part < block && blocks == whole * tp + extra && inter == blocks * block + part
    ensures extra * block + part < tp * block
    ensures inter == whole * (tp * block) + (extra * block + part)
    ensures inter % (tp * block) == extra * block + part
  {
    BelowUnit(extra, part, tp, block);
    Expand(whole, tp, extra, block);
    DivModUnique(inter, tp * block, whole, extra * block + part);
  }

  lemma BelowUnit(extra: nat, part: nat, tp: nat, block: nat)
    requires extra < tp && part < block
    ensures 0 <= extra * block + part < tp * block
    ensures extra * block + part >= block <==> extra > 0
  {
    MulMono(extra + 1, tp, block);
    assert (extra + 1) * block == extra * block + block;
    MulMono(Min(extra, 1), extra, block);
  }

  lemma Expand(whole: nat, tp: nat, extra: nat, block: nat)
    ensures (whole * tp + extra) * block == whole * (tp * block) + extra * block
  {
    assert (whole * tp) * block == whole * (tp * block);
  }

  lemma CeilOver(whole: nat, extra: nat, tp: nat)
    requires extra < tp
    ensures CeilDiv(whole * tp + extra, tp) == if extra == 0 then whole else whole + 1
  {
    if extra == 0 {
      DivExact(whole, tp);
    } else {
      CeilDivLeast(whole * tp + extra, tp, whole + 1);
      CeilDivLeast(whole * tp + extra, tp, whole);
    }
  }

  /** The model is never wider than the padded weight, and is as wide as the weight needs exactly
      when KeepsAll; otherwise it ends at the last whole block and real columns are cut off. */
  lemma WidthsExactly(inter: nat, block: nat, tp: nat)
    requires block > 0 && tp > 0
    ensures ModelWidth(inter, block, tp) <= CeilDiv(inter, tp * block) * (tp * block)
    ensures ModelWidth(inter, block, tp) == CeilDiv(inter, tp * block) * (tp * block) <==> KeepsAll(inter, block, tp)
    ensures ModelWidth(inter, block, tp) >= inter <==> KeepsAll(inter, block, tp)
  {
    var whole, extra, part := Layers(inter, block, tp);
    CeilOver(whole, extra, tp);
    BelowUnit(extra, part, tp, block);
    CeilOver(whole, extra * block + part, tp * block);
    WidthOf(LocalBlocks(inter, block, tp), block, tp);
    NextUnit(whole, tp * block);
  }

  lemma NextUnit(whole: nat, unit: nat)
    ensures (whole + 1) * unit == whole * unit + unit
  {
  }

  lemma WidthOf(n: int, block: nat, tp: nat)
    ensures n * block * tp == n * (tp * block)
  {
  }

  /** Scales are padded in step with weights: one scale per block of the padded axis. */
  lemma ScalesInStep(inter: nat, block: nat, tp: nat)
    requires block > 0 && tp > 0
    ensures CeilDiv(CeilDiv(inter, block), tp * 1) * (tp * 1) * block == CeilDiv(inter, tp * block) * (tp * block)
  {
    CeilTwice(inter, block, tp);
    assert block * tp == tp * block;
    var p := CeilDiv(inter, tp * block);
    assert p * tp * block == p * (tp * block);
  }

  // ------------------------------------------------------------ the layer's output

  /** Gate, up and down projections along the intermediate axis, with their block scales. */
  datatype Expert = Expert(gate: seq<Row>, up: seq<Row>, down: seq<Row>, gateS: seq<Row>, upS: seq<Row>,
                           downS: seq<Row>)

  /** Everything one intermediate column contributes to an output coordinate depends on. */
  datatype Column = Column(gate: Row, gateS: Row, up: Row, upS: Row, down: Row, downS: Row)

  /** Every column has its weights and the scale of its block. */
  ghost predicate Shaped(e: Expert, width: nat, block: nat) {
    && block > 0 && |e.gate| == |e.up| == |e.down| == width
    && |e.gateS| == |e.upS| == |e.downS| == CeilDiv(width, block)
  }

  lemma BlockInside(c: nat, width: nat, block: nat)
    requires block > 0 && c < width
    ensures 0 <= c / block < CeilDiv(width, block)
  {
    CeilDivLeast(width, block, c / block);
    assert c == c / block * block + c % block;
  }

  function ColumnOf(e: Expert, width: nat, block: nat, c: nat): Column
    requires Shaped(e, width, block) && c < width
  {
    BlockInside(c, width, block);
    Column(e.gate[c], e.gateS[c / block], e.up[c], e.upS[c / block], e.down[c], e.downS[c / block])
  }

  ghost function Term(e: Expert, width: nat, block: nat, contribution: Column -> real): nat -> real
    requires Shaped(e, width, block)
  {
    (c: nat) => if c < width then contribution(ColumnOf(e, width, block, c)) else 0.0
  }

  ghost function Output(e: Expert, width: nat, block: nat, contribution: Column -> real): real
    requires Shaped(e, width, block)
  {
    Sum(Term(e, width, block, contribution), 0, width)
  }

  /** A zero down-projection column adds nothing, whatever the activation. */
  ghost predicate Silent(contribution: Column -> real, zero: Row) {
    forall c: Column :: c.down == zero ==> contribution(c) == 0.0
  }

  function PadExpert(e: Expert, width: nat, block: nat, tp: nat, zero: Row): (p: Expert)
    requires Shaped(e, width, block) && tp > 0
  {
    Expert(PadWeight(e.gate, tp, block, zero), PadWeight(e.up, tp, block, zero), PadWeight(e.down, tp, block, zero),
           PadWeight(e.gateS, tp, 1, zero), PadWeight(e.upS, tp, 1, zero), PadWeight(e.downS, tp, 1, zero))
  }

  function PaddedWidth(width: nat, block: nat, tp: nat): (p: int)
    requires block > 0 && tp > 0
    ensures p >= width
  {
    CeilDivBounds(width, tp * block);
    CeilDiv(width, tp * block) * (tp * block)
  }

  /** The padded expert keeps the real columns and adds columns with a zero down projection. */
  lemma PaddedColumns(e: Expert, width: nat, block: nat, tp: nat, zero: Row, c: nat)
    requires Shaped(e, width, block) && tp > 0 && c < PaddedWidth(width, block, tp)
    ensures Shaped(PadExpert(e, width, block, tp, zero), PaddedWidth(width, block, tp), block)
    ensures c < width ==>
      ColumnOf(PadExpert(e, width, block, tp, zero), PaddedWidth(width, block, tp), block, c)
        == ColumnOf(e, width, block, c)
    ensures c >= width ==>
      ColumnOf(PadExpert(e, width, block, tp, zero), PaddedWidth(width, block, tp), block, c).down == zero
  {
    PaddedShape(e, width, block, tp, zero);
    if c < width {
      BlockInside(c, width, block);
    }
  }

  lemma PaddedShape(e: Expert, width: nat, block: nat, tp: nat, zero: Row)
    requires Shaped(e, width, block) && tp > 0
    ensures Shaped(PadExpert(e, width, block, tp, zero), PaddedWidth(width, block, tp), block)
  {
    ScalesInStep(width, block, tp);
    DivExact(CeilDiv(CeilDiv(width, block), tp * 1) * (tp * 1), block);
  }

  /** Rank r's shard of a parameter: rows [r * n, (r + 1) * n). */
  function Slice(w: seq<Row>, r: nat, n: nat): (s: seq<Row>)
    requires r * n + n <= |w|
    ensures |s| == n
  {
    w[r * n..r * n + n]
  }

  lemma SliceInside(r: nat, tp: nat, n: nat, total: int)
    requires r < tp && n * tp <= total
    ensures 0 <= r * n && r * n + n <= total
  {
    MulMono(r + 1, tp, n);
    MulMono(0, r, n);
    assert (r + 1) * n == r * n + n;
  }

  /** A padded expert with at least the columns and blocks of a model of n blocks, share columns per rank. */
  ghost predicate Loadable(p: Expert, width: nat, block: nat, tp: nat, n: nat, share: nat) {
    Shaped(p, width, block) && share == n * block && share * tp <= width && n * tp <= CeilDiv(width, block)
  }

  function Rank(p: Expert, width: nat, block: nat, tp: nat, n: nat, share: nat, r: nat): (s: Expert)
    requires Loadable(p, width, block, tp, n, share) && r < tp
    ensures Shaped(s, share, block)
  {
    SliceInside(r, tp, share, width);
    SliceInside(r, tp, n, CeilDiv(width, block));
    DivExact(n, block);
    Expert(Slice(p.gate, r, share), Slice(p.up, r, share), Slice(p.down, r, share),
           Slice(p.gateS, r, n), Slice(p.upS, r, n), Slice(p.downS, r, n))
  }

  /** Column c of rank r is column r * share + c of the whole, with the same scales. */
  lemma RankColumn(p: Expert, width: nat, block: nat, tp: nat, n: nat, share: nat, r: nat, c: nat)
    requires Loadable(p, width, block, tp, n, share) && r < tp && c < share
    ensures r * share + c < width
    ensures ColumnOf(Rank(p, width, block, tp, n, share, r), share, block, c)
      == ColumnOf(p, width, block, r * share + c)
  {
    SliceInside(r, tp, share, width);
    SliceInside(r, tp, n, CeilDiv(width, block));
    BlockInside(c, share, block);
    DivExact(n, block);
    BlockShift(r, n, block, c);
  }

  lemma BlockShift(r: nat, n: nat, block: nat, c: nat)
    requires block > 0
    ensures (r * (n * block) + c) / block == r * n + c / block
  {
    assert c == c / block * block + c % block;
    assert r * (n * block) == (r * n) * block;
    assert (r * n + c / block) * block == (r * n) * block + c / block * block;
    DivModUnique(r * (n * block) + c, block, r * n + c / block, c % block);
  }

  ghost function Cut(share: nat): nat -> nat {
    (r: nat) => r * share
  }

  ghost function RankOutputs(p: Expert, width: nat, block: nat, tp: nat, n: nat, share: nat,
                             contribution: Column -> real): nat -> real
    requires Loadable(p, width, block, tp, n, share)
  {
    (r: nat) => if r < tp then Output(Rank(p, width, block, tp, n, share, r), share, block, contribution) else 0.0
  }

  lemma RankTerm(p: Expert, width: nat, block: nat, tp: nat, n: nat, share: nat, contribution: Column -> real, r: nat,
                 c: nat)
    requires Loadable(p, width, block, tp, n, share) && r < tp && c < share
    ensures SameTerm(Term(Rank(p, width, block, tp, n, share, r), share, block, contribution), 0,
                     Term(p, width, block, contribution), r * share, c)
  {
    RankColumn(p, width, block, tp, n, share, r, c);
  }

  lemma RankIsPart(p: Expert, width: nat, block: nat, tp: nat, n: nat, share: nat, contribution: Column -> real, r: nat)
    requires Loadable(p, width, block, tp, n, share) && r < tp
    ensures IsPart(Term(p, width, block, contribution), Cut(share),
                   RankOutputs(p, width, block, tp, n, share, contribution), r)
  {
    var whole := Term(p, width, block, contribution);
    var local := Term(Rank(p, width, block, tp, n, share, r), share, block, contribution);
    forall c: nat | c < share ensures SameTerm(local, 0, whole, r * share, c) {
      RankTerm(p, width, block, tp, n, share, contribution, r, c);
    }
    SumShift(local, 0, whole, r * share, share);
    NextUnit(r, share);
  }

  /** The ranks together compute the columns the model has room for. */
  lemma {:induction false} RanksCover(p: Expert, width: nat, block: nat, tp: nat, n: nat, share: nat,
                                      contribution: Column -> real)
    requires Loadable(p, width, block, tp, n, share)
    ensures Sum(RankOutputs(p, width, block, tp, n, share, contribution), 0, tp)
      == Sum(Term(p, width, block, contribution), 0, share * tp)
  {
    var whole, parts := Term(p, width, block, contribution), RankOutputs(p, width, block, tp, n, share, contribution);
    forall r: nat | r < tp ensures IsPart(whole, Cut(share), parts, r) {
      RankIsPart(p, width, block, tp, n, share, contribution, r);
    }
    SumOfParts(whole, Cut(share), parts, tp);
    assert Cut(share)(0) == 0 && Cut(share)(tp) == share * tp;
  }

  lemma ModelLoadable(e: Expert, inter: nat, block: nat, tp: nat, zero: Row)
    requires Shaped(e, inter, block) && tp > 0
    ensures LocalBlocks(inter, block, tp) >= 0 && LocalWidth(inter, block, tp) >= 0
    ensures Loadable(PadExpert(e, inter, block, tp, zero), PaddedWidth(inter, block, tp), block, tp,
                     LocalBlocks(inter, block, tp), LocalWidth(inter, block, tp))
  {
    var n, width := LocalBlocks(inter, block, tp), PaddedWidth(inter, block, tp);
    CeilDivBounds(inter / block, tp);
    MulMono(0, n, block);
    PaddedShape(e, inter, block, tp, zero);
    WidthsExactly(inter, block, tp);
    BlocksWithin(n, block, tp, width);
  }

  lemma BlocksWithin(n: nat, block: nat, tp: nat, width: nat)
    requires block > 0 && n * block * tp <= width
    ensures n * tp <= CeilDiv(width, block)
  {
    Expand(0, 0, n * tp, block);
    assert n * block * tp == (n * tp) * block;
    CeilDivMono((n * tp) * block, block, width, block);
    DivExact(n * tp, block);
  }

  function LocalWidth(inter: nat, block: nat, tp: nat): int
    requires block > 0 && tp > 0
  {
    LocalBlocks(inter, block, tp) * block
  }

  /** What the ranks add up to. */
  ghost function Reduced(e: Expert, inter: nat, block: nat, tp: nat, zero: Row, contribution: Column -> real): real
    requires Shaped(e, inter, block) && tp > 0
  {
    ModelLoadable(e, inter, block, tp, zero);
    Sum(RankOutputs(PadExpert(e, inter, block, tp, zero), PaddedWidth(inter, block, tp), block, tp,
                    LocalBlocks(inter, block, tp), LocalWidth(inter, block, tp), contribution), 0, tp)
  }

  /** The sum the ranks compute, in terms of the original expert: all columns below the model width. */
  lemma RanksKeep(e: Expert, inter: nat, block: nat, tp: nat, zero: Row, contribution: Column -> real)
    requires Shaped(e, inter, block) && tp > 0 && Silent(contribution, zero)
    ensures ModelWidth(inter, block, tp) >= 0
    ensures Reduced(e, inter, block, tp, zero, contribution)
      == Sum(Term(e, inter, block, contribution), 0, Min(inter, ModelWidth(inter, block, tp)))
  {
    var p, width := PadExpert(e, inter, block, tp, zero), PaddedWidth(inter, block, tp);
    ModelLoadable(e, inter, block, tp, zero);
    RanksCover(p, width, block, tp, LocalBlocks(inter, block, tp), LocalWidth(inter, block, tp), contribution);
    MulMono(0, LocalWidth(inter, block, tp), tp);
    WidthsExactly(inter, block, tp);
    PaddedSum(e, inter, block, tp, zero, contribution, ModelWidth(inter, block, tp));
  }

  lemma {:induction false} PaddedSum(e: Expert, inter: nat, block: nat, tp: nat, zero: Row,
                                     contribution: Column -> real, n: nat)
    requires Shaped(e, inter, block) && tp > 0 && Silent(contribution, zero) && n <= PaddedWidth(inter, block, tp)
    ensures Shaped(PadExpert(e, inter, block, tp, zero), PaddedWidth(inter, block, tp), block)
    ensures Sum(Term(PadExpert(e, inter, block, tp, zero), PaddedWidth(inter, block, tp), block, contribution), 0, n)
      == Sum(Term(e, inter, block, contribution), 0, Min(inter, n))
  {
    PaddedShape(e, inter, block, tp, zero);
    var kept := Min(inter, n);
    var padded := Term(PadExpert(e, inter, block, tp, zero), PaddedWidth(inter, block, tp), block, contribution);
    var bare := Term(e, inter, block, contribution);
    forall c: nat | c < kept ensures SameTerm(padded, 0, bare, 0, c) {
      PaddedColumns(e, inter, block, tp, zero, c);
    }
    SumShift(padded, 0, bare, 0, kept);
    forall c: nat | kept <= c < n ensures padded(c) == 0.0 {
      PaddedColumns(e, inter, block, tp, zero, c);
    }
    SumSplit(padded, 0, kept, n);
    SumZero(padded, kept, n);
  }

  /** Padding and splitting preserve the expert whenever no column is cut off. */
  lemma SharedExpertExact(e: Expert, inter: nat, block: nat, tp: nat, zero: Row, contribution: Column -> real)
    requires Shaped(e, inter, block) && tp > 0 && Silent(contribution, zero) && KeepsAll(inter, block, tp)
    ensures Reduced(e, inter, block, tp, zero, contribution) == Output(e, inter, block, contribution)
  {
    RanksKeep(e, inter, block, tp, zero, contribution);
    WidthsExactly(inter, block, tp);
  }

  ghost function CountNonZero(zero: Row): Column -> real {
    (c: Column) => if c.down == zero then 0.0 else 1.0
  }

  lemma {:induction false} SumOnes(f: nat -> real, lo: nat, hi: nat)
    requires lo <= hi && forall k: nat :: lo <= k < hi ==> f(k) == 1.0
    ensures Sum(f, lo, hi) == (hi - lo) as real
  {
    if lo < hi {
      SumOnes(f, lo, hi - 1);
    }
  }

  /** And only then: with a partial block left over, an expert with no zero column loses columns. */
  lemma SharedExpertLoses(e: Expert, inter: nat, block: nat, tp: nat, zero: Row)
    requires Shaped(e, inter, block) && tp > 0 && !KeepsAll(inter, block, tp)
    requires forall c :: 0 <= c < inter ==> e.down[c] != zero
    ensures Silent(CountNonZero(zero), zero)
    ensures Reduced(e, inter, block, tp, zero, CountNonZero(zero)) < Output(e, inter, block, CountNonZero(zero))
  {
    RanksKeep(e, inter, block, tp, zero, CountNonZero(zero));
    WidthsExactly(inter, block, tp);
    CountShort(e, inter, block, zero, ModelWidth(inter, block, tp));
  }

  lemma {:induction false} CountShort(e: Expert, inter: nat, block: nat, zero: Row, kept: nat)
    requires Shaped(e, inter, block) && kept < inter && forall c :: 0 <= c < inter ==> e.down[c] != zero
    ensures Sum(Term(e, inter, block, CountNonZero(zero)), 0, kept) < Output(e, inter, block, CountNonZero(zero))
  {
    var all := Term(e, inter, block, CountNonZero(zero));
    SumSplit(all, 0, kept, inter);
    forall c: nat | kept <= c < inter ensures all(c) == 1.0 {
      assert ColumnOf(e, inter, block, c).down == e.down[c];
    }
    SumOnes(all, kept, inter);
  }

  /** An expert whose columns are all alike, with bytes other than the padding's. */
  function AlikeExpert(inter: nat, block: nat): Expert
    requires block > 0
  {
    var rows: seq<Row> := seq(inter, _ => [1]);
    CeilDivBounds(inter, block);
    var scales: seq<Row> := seq(CeilDiv(inter, block), _ => [1]);
    Expert(rows, rows, rows, scales, scales, scales)
  }

  /** Wherever the condition fails, some expert loses output. */
  lemma AlikeLoses(inter: nat, block: nat, tp: nat)
    requires block > 0 && tp > 0 && !KeepsAll(inter, block, tp)
    ensures Shaped(AlikeExpert(inter, block), inter, block) && Silent(CountNonZero([0]), [0])
    ensures Reduced(AlikeExpert(inter, block), inter, block, tp, [0], CountNonZero([0]))
      < Output(AlikeExpert(inter, block), inter, block, CountNonZero([0]))
  {
    var e := AlikeExpert(inter, block);
    forall c | 0 <= c < inter ensures e.down[c] != [0] {
      assert e.down[c][0] == 1;
    }
    SharedExpertLoses(e, inter, block, tp, [0]);
  }

  lemma WholeQuotient(n: nat, d: nat, q: nat)
    requires d > 0 && n == q * d
    ensures CeilDiv(n, d) == q
  {
    DivExact(q, d);
  }

  /** A partial block behind whole rows of blocks over the ranks is always cut off. */
  lemma PartCutOff(inter: nat, block: nat, tp: nat, whole: nat, part: nat)
    requires block > 0 && tp > 0 && inter == whole * (tp * block) + part && 0 < part < block
    ensures ModelWidth(inter, block, tp) == whole * block * tp && !KeepsAll(inter, block, tp)
  {
    MulMono(1, tp, block);
    DivModUnique(inter, tp * block, whole, part);
    assert whole * (tp * block) == (whole * tp) * block;
    DivModUnique(inter, block, whole * tp, part);
    WholeQuotient(whole * tp, tp, whole);
  }

  /** For one: 130 columns in blocks of 128 on one rank give a model 128 columns wide. */
  lemma PartialBlockCutOff(inter: nat, block: nat, tp: nat)
    requires inter == 130 && block == 128 && tp == 1
    ensures ModelWidth(inter, block, tp) == 128 && !KeepsAll(inter, block, tp)
  {
    PartCutOff(inter, block, tp, 1, 2);
  }
}
