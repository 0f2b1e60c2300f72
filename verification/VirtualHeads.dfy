/** Virtual heads: a checkpoint with realG attention groups served as padG groups, so that whole
    groups divide over the ranks. Query and output-A groups are repeated, output-B is zero-padded. */
module VirtualHeads {
  import opened Arith
  import opened RankSum
  import opened Wrappers

  /** Raw bytes of one row (or column) of a weight or of its block scales. */
  type Row = seq<int>

  datatype Mode = Dup | Zero

  datatype Dtype = E8m0 | OtherByte | Wide

  /** The value zero-padding writes: for e8m0 scales the byte of 2^0, otherwise 0. */
  function Fill(dtype: Dtype): int {
    if dtype.E8m0? then 127 else 0
  }

  /** One padded row of zero mode. */
  function FillRow(dtype: Dtype, width: nat): Row {
    seq(width, _ => Fill(dtype))
  }

  /** 2 to the power k. */
  function Exp2(k: int): real
    decreases if k < 0 then -k else k
  {
    if k == 0 then 1.0 else if k > 0 then 2.0 * Exp2(k - 1) else Exp2(k + 1) / 2.0
  }

  /** What a stored value stands for: an e8m0 byte is a biased exponent; the other types a padded
      tensor has store zero as 0. */
  function Decoded(dtype: Dtype, stored: int, other: int -> real): real {
    if dtype.E8m0? then Exp2(stored - 127) else other(stored)
  }

  /** A zero-padded scale is 1.0 exactly for the e8m0 type; for every other type it is 0.0. */
  lemma FillIsOneExactly(dtype: Dtype, other: int -> real)
    requires other(0) == 0.0
    ensures Decoded(dtype, Fill(dtype), other) == 1.0 <==> dtype.E8m0?
    ensures Decoded(dtype, Fill(dtype), other) == 0.0 <==> !dtype.E8m0?
  {
  }

  /** pad_tensor along the padded dimension, whose rows are `width` values of one type. */
  function PadTensor(t: seq<Row>, full: int, mode: Mode, dtype: Dtype, width: nat): (r: Result<seq<Row>, Error>)
    ensures r.Failure? <==> mode.Dup? && full > 2 * |t|
    ensures r.Failure? ==> r.error == ValueError
    ensures r.Success? ==> |r.value| == Max(full, |t|) && t <= r.value
    ensures r.Success? && mode.Zero? ==> forall i :: |t| <= i < |r.value| ==> r.value[i] == FillRow(dtype, width)
    ensures r.Success? && mode.Dup? ==> forall i :: |t| <= i < |r.value| ==> r.value[i] == t[i - (full - |t|)]
  {
    var n := full - |t|;
    if n <= 0 then Success(t)
    else
      match mode
      case Dup => if n > |t| then Failure(ValueError) else Success(t + t[|t| - n..])
      case Zero => Success(t + seq(n, _ => FillRow(dtype, width)))
  }

  /** The wrapped loader: pad in checkpoint units, whatever the tensor's rows per group. */
  function Load(t: seq<Row>, realG: nat, padG: nat, mode: Mode, dtype: Dtype, width: nat): (r: Result<seq<Row>, Error>)
    requires realG > 0
    ensures |t| % realG != 0 ==> r == Success(t)
  {
    if |t| % realG == 0 then PadTensor(t, |t| / realG * padG, mode, dtype, width) else Success(t)
  }

  /** Rows of group g when each group has `unit` rows. */
  function GroupRows(t: seq<Row>, g: nat, unit: nat): (s: seq<Row>)
    requires 0 <= g * unit && g * unit + unit <= |t|
    ensures |s| == unit
  {
    t[g * unit..g * unit + unit]
  }

  /** The checkpoint group a served group is a copy of. */
  function Origin(g: nat, realG: nat, padG: nat): int {
    if g < realG then g else g - (padG - realG)
  }

  /** The padded groups all repeat the last real group exactly when at most one is added. */
  lemma LastGroupExactly(realG: nat, padG: nat)
    requires 0 < realG <= padG
    ensures (forall g: nat :: realG <= g < padG ==> Origin(g, realG, padG) == realG - 1) <==> padG <= realG + 1
  {
    if padG > realG + 1 {
      assert Origin(realG, realG, padG) != realG - 1;
    }
  }

  /** Two groups of one row served as four: the third is a copy of the first, not of the last. */
  lemma TwoAddedGroups(t: seq<Row>, dtype: Dtype, width: nat)
    requires |t| == 2 && t[0] != t[1]
    ensures Load(t, 2, 4, Dup, dtype, width) == Success(t + t)
    ensures (t + t)[2] == t[Origin(2, 2, 4)] != t[1]
  {
    assert |t| % 2 == 0 && |t| / 2 * 4 == 4;
    assert t[|t| - 2..] == t;
  }

  ghost predicate GroupServed(t: seq<Row>, out: seq<Row>, unit: nat, realG: nat, padG: nat, mode: Mode, dtype: Dtype,
                              width: nat, g: nat)
    requires |t| == realG * unit && |out| == padG * unit && g < padG && realG <= padG <= 2 * realG
  {
    UnitInside(g, padG, unit);
    UnitInside(Origin(g, realG, padG), realG, unit);
    && (mode.Dup? || g < realG ==> GroupRows(out, g, unit) == GroupRows(t, Origin(g, realG, padG), unit))
    && (mode.Zero? && g >= realG ==> GroupRows(out, g, unit) == seq(unit, _ => FillRow(dtype, width)))
  }

  lemma UnitInside(g: nat, groups: nat, unit: nat)
    requires g < groups
    ensures 0 <= g * unit && g * unit + unit <= groups * unit
  {
    MulMono(g + 1, groups, unit);
    MulMono(0, g, unit);
    assert (g + 1) * unit == g * unit + unit;
  }

  /** Weights and scales alike: group by group, real groups keep their rows, padded groups repeat a
      real group or are filled; repeating fails exactly when more groups are added than exist. */
  lemma LoadedByGroup(t: seq<Row>, unit: nat, realG: nat, padG: nat, mode: Mode, dtype: Dtype, width: nat)
    requires realG > 0 && unit > 0 && |t| == realG * unit && realG <= padG
    ensures Load(t, realG, padG, mode, dtype, width) == Failure(ValueError) <==> mode.Dup? && padG > 2 * realG
    ensures Load(t, realG, padG, mode, dtype, width).Success? ==>
      |Load(t, realG, padG, mode, dtype, width).value| == padG * unit
    ensures padG <= 2 * realG ==> Load(t, realG, padG, mode, dtype, width).Success?
    ensures padG <= 2 * realG ==> forall g: nat :: g < padG ==>
      GroupServed(t, Load(t, realG, padG, mode, dtype, width).value, unit, realG, padG, mode, dtype, width, g)
  {
    var r := Load(t, realG, padG, mode, dtype, width);
    LoadIsPad(t, unit, realG, padG, mode, dtype, width);
    GroupTimes(realG, padG, unit);
    if padG <= 2 * realG {
      forall g: nat | g < padG ensures GroupServed(t, r.value, unit, realG, padG, mode, dtype, width, g) {
        assert RepeatsEnd(t, r.value) || mode.Zero?;
        ServedGroup(t, r.value, unit, realG, padG, mode, dtype, width, g);
      }
    }
  }

  lemma LoadIsPad(t: seq<Row>, unit: nat, realG: nat, padG: nat, mode: Mode, dtype: Dtype, width: nat)
    requires realG > 0 && |t| == realG * unit
    ensures Load(t, realG, padG, mode, dtype, width) == PadTensor(t, padG * unit, mode, dtype, width)
  {
    assert realG * unit == unit * realG && padG * unit == unit * padG;
    DivExact(unit, realG);
  }

  lemma GroupTimes(realG: nat, padG: nat, unit: nat)
    requires unit > 0 && realG <= padG
    ensures realG * unit <= padG * unit
    ensures padG * unit > 2 * (realG * unit) <==> padG > 2 * realG
  {
    MulMono(realG, padG, unit);
    assert 2 * realG * unit == 2 * (realG * unit);
    if padG > 2 * realG {
      MulMono(2 * realG + 1, padG, unit);
      assert (2 * realG + 1) * unit == 2 * realG * unit + unit;
    } else {
      MulMono(padG, 2 * realG, unit);
    }
  }

  lemma ServedGroup(t: seq<Row>, out: seq<Row>, unit: nat, realG: nat, padG: nat, mode: Mode, dtype: Dtype, width: nat,
                    g: nat)
    requires |t| == realG * unit && |out| == padG * unit && g < padG && 0 < realG <= padG <= 2 * realG && t <= out
    requires mode.Zero? ==> FilledFrom(t, out, FillRow(dtype, width))
    requires mode.Dup? ==> RepeatsEnd(t, out)
    ensures GroupServed(t, out, unit, realG, padG, mode, dtype, width, g)
  {
    UnitInside(g, padG, unit);
    UnitInside(Origin(g, realG, padG), realG, unit);
    if g < realG {
      Kept(t, out, g * unit, unit);
    } else {
      OriginStart(g, realG, padG, unit);
      if mode.Dup? {
        Repeated(t, out, g * unit, unit);
      } else {
        Filled(t, out, g * unit, unit, FillRow(dtype, width));
      }
    }
  }

  ghost predicate FilledFrom(t: seq<Row>, out: seq<Row>, fill: Row) {
    forall i :: |t| <= i < |out| ==> out[i] == fill
  }

  ghost predicate RepeatsEnd(t: seq<Row>, out: seq<Row>) {
    |t| <= |out| <= 2 * |t| && forall i :: |t| <= i < |out| ==> out[i] == t[i - (|out| - |t|)]
  }

  lemma OriginStart(g: nat, realG: nat, padG: nat, unit: nat)
    requires realG <= g < padG
    ensures realG * unit <= g * unit
    ensures (g - (padG - realG)) * unit == g * unit - (padG * unit - realG * unit)
  {
    MulMono(realG, g, unit);
  }

  lemma Kept(t: seq<Row>, out: seq<Row>, lo: nat, n: nat)
    requires t <= out && 0 <= lo && lo + n <= |t|
    ensures out[lo..lo + n] == t[lo..lo + n]
  {
  }

  lemma Repeated(t: seq<Row>, out: seq<Row>, lo: nat, n: nat)
    requires RepeatsEnd(t, out) && |t| <= lo && lo + n <= |out|
    ensures out[lo..lo + n] == t[lo - (|out| - |t|)..lo - (|out| - |t|) + n]
  {
  }

  lemma Filled(t: seq<Row>, out: seq<Row>, lo: nat, n: nat, fill: Row)
    requires FilledFrom(t, out, fill) && |t| <= lo && lo + n <= |out|
    ensures out[lo..lo + n] == seq(n, _ => fill)
  {
  }

  // ------------------------------------------------------------ the layer's output

  /** One wrapped parameter (a weight or its block scales): its rows along the padded dimension,
      rows per group, and how it is padded. */
  datatype Param = Param(rows: seq<Row>, unit: nat, mode: Mode, dtype: Dtype, width: nat)
  {
    /** A padded group of zero mode. */
    function Blank(): seq<Row> { seq(unit, _ => FillRow(dtype, width)) }
  }

  ghost predicate ShapedParam(p: Param, groups: nat) {
    p.unit > 0 && |p.rows| == groups * p.unit
  }

  /** The query, output-A and output-B parameters of a layer. */
  ghost predicate Shaped(a: seq<Param>, groups: nat) {
    forall i :: 0 <= i < |a| ==> ShapedParam(a[i], groups)
  }

  function ParamGroup(p: Param, groups: nat, g: nat): seq<Row>
    requires ShapedParam(p, groups) && g < groups
  {
    UnitInside(g, groups, p.unit);
    GroupRows(p.rows, g, p.unit)
  }

  /** Everything the contribution of group g to an output coordinate depends on. */
  function GroupOf(a: seq<Param>, groups: nat, g: nat): seq<seq<Row>>
    requires Shaped(a, groups) && g < groups
  {
    seq(|a|, i requires 0 <= i < |a| => ParamGroup(a[i], groups, g))
  }

  /** Contribution of group g, for any input and any output coordinate. */
  ghost function Term(a: seq<Param>, groups: nat, contribution: seq<seq<Row>> -> real): nat -> real
    requires Shaped(a, groups)
  {
    (g: nat) => if g < groups then contribution(GroupOf(a, groups, g)) else 0.0
  }

  ghost function Output(a: seq<Param>, groups: nat, contribution: seq<seq<Row>> -> real): real
    requires Shaped(a, groups)
  {
    Sum(Term(a, groups, contribution), 0, groups)
  }

  /** Zero output-B columns silence a group, whatever its other rows and scales. */
  ghost predicate SilencedBy(contribution: seq<seq<Row>> -> real, ob: nat, blank: seq<Row>) {
    forall s: seq<seq<Row>> :: ob < |s| && s[ob] == blank ==> contribution(s) == 0.0
  }

  ghost predicate ParamServed(x: Param, y: Param, realG: nat, padG: nat)
    requires realG > 0
  {
    Load(x.rows, realG, padG, x.mode, x.dtype, x.width) == Success(y.rows) && y == x.(rows := y.rows)
  }

  /** p is what the wrapped loaders leave of checkpoint layer a. */
  ghost predicate Served(a: seq<Param>, p: seq<Param>, realG: nat, padG: nat)
    requires realG > 0
  {
    |p| == |a| && forall i :: 0 <= i < |a| ==> ParamServed(a[i], p[i], realG, padG)
  }

  lemma ServedParam(x: Param, y: Param, realG: nat, padG: nat, g: nat)
    requires 0 < realG <= padG && ShapedParam(x, realG) && ParamServed(x, y, realG, padG) && g < padG
    ensures ShapedParam(y, padG)
    ensures g < realG ==> ParamGroup(y, padG, g) == ParamGroup(x, realG, g)
    ensures g >= realG && x.mode.Dup? ==>
      padG <= 2 * realG && ParamGroup(y, padG, g) == ParamGroup(x, realG, g - (padG - realG))
    ensures g >= realG && x.mode.Zero? ==> ParamGroup(y, padG, g) == x.Blank()
  {
    LoadedByGroup(x.rows, x.unit, realG, padG, x.mode, x.dtype, x.width);
    MulMono(realG, padG, x.unit);
    if padG <= 2 * realG {
      assert GroupServed(x.rows, y.rows, x.unit, realG, padG, x.mode, x.dtype, x.width, g);
    } else {
      ZeroGroup(x, y, realG, padG, g);
    }
  }

  /** Zero-padding has no limit on how many groups are added. */
  lemma ZeroGroup(x: Param, y: Param, realG: nat, padG: nat, g: nat)
    requires 0 < realG <= padG && ShapedParam(x, realG) && ParamServed(x, y, realG, padG) && g < padG && x.mode.Zero?
    requires |y.rows| == padG * x.unit
    ensures ShapedParam(y, padG)
    ensures g < realG ==> ParamGroup(y, padG, g) == ParamGroup(x, realG, g)
    ensures g >= realG ==> ParamGroup(y, padG, g) == x.Blank()
  {
    UnitInside(g, padG, x.unit);
    if g < realG {
      UnitInside(g, realG, x.unit);
    } else {
      MulMono(realG, g, x.unit);
    }
  }

  // ------------------------------------------------------------ the ranks

  /** Rank r's slice of a parameter: share of every rank's groups, share * unit rows. */
  function RankParam(p: Param, groups: nat, r: nat, tp: nat, share: nat): (s: Param)
    requires ShapedParam(p, groups) && r < tp && groups == share * tp
    ensures ShapedParam(s, share)
  {
    RankSlice(p, groups, r, tp, share);
    var part := |p.rows| / tp;
    p.(rows := p.rows[r * part..(r + 1) * part])
  }

  lemma RankSlice(p: Param, groups: nat, r: nat, tp: nat, share: nat)
    requires ShapedParam(p, groups) && r < tp && groups == share * tp
    ensures |p.rows| / tp == share * p.unit
    ensures 0 <= r * (share * p.unit) <= (r + 1) * (share * p.unit) <= |p.rows|
    ensures (r + 1) * (share * p.unit) - r * (share * p.unit) == share * p.unit
  {
    Regroup(share, tp, p.unit);
    EvenPart(|p.rows|, share * p.unit, r, tp);
  }

  lemma Regroup(a: nat, b: nat, c: nat)
    ensures a * b * c == (a * c) * b
  {
  }

  lemma EvenPart(n: nat, part: nat, r: nat, tp: nat)
    requires r < tp && n == part * tp
    ensures n / tp == part && 0 <= r * part <= (r + 1) * part <= n && (r + 1) * part - r * part == part
  {
    DivExact(part, tp);
    MulMono(r + 1, tp, part);
    MulMono(0, r, part);
  }

  lemma GroupStart(r: nat, share: nat, k: nat, unit: nat)
    ensures (r * share + k) * unit == r * (share * unit) + k * unit
    ensures (k + 1) * unit == k * unit + unit
  {
    assert (r * share + k) * unit == (r * share) * unit + k * unit;
    assert (r * share) * unit == r * (share * unit);
  }

  /** Group k of rank r is group r * share + k of the whole. */
  lemma RankParamGroup(p: Param, groups: nat, r: nat, tp: nat, share: nat, k: nat)
    requires ShapedParam(p, groups) && r < tp && groups == share * tp && k < share
    ensures r * share + k < groups
    ensures ParamGroup(RankParam(p, groups, r, tp, share), share, k) == ParamGroup(p, groups, r * share + k)
  {
    GroupIndex(r, tp, share, k);
    RankSlice(p, groups, r, tp, share);
    UnitInside(k, share, p.unit);
    UnitInside(r * share + k, groups, p.unit);
    GroupStart(r, share, k, p.unit);
    SliceOfSlice(p.rows, r * (share * p.unit), (r + 1) * (share * p.unit), k * p.unit, p.unit);
  }

  lemma GroupIndex(r: nat, tp: nat, share: nat, k: nat)
    requires r < tp && k < share
    ensures r * share + k < share * tp
  {
    MulMono(r + 1, tp, share);
  }

  lemma SliceOfSlice(t: seq<Row>, lo: nat, hi: nat, k: nat, n: nat)
    requires lo <= hi <= |t| && k + n <= hi - lo
    ensures t[lo..hi][k..k + n] == t[lo + k..lo + k + n]
  {
    var s, y := t[lo..hi], t[lo + k..lo + k + n];
    var x := s[k..k + n];
    forall i | 0 <= i < n ensures x[i] == y[i] {
      assert x[i] == s[k + i];
      assert s[k + i] == t[lo + (k + i)];
    }
  }

  function Rank(p: seq<Param>, groups: nat, r: nat, tp: nat, share: nat): (s: seq<Param>)
    requires Shaped(p, groups) && r < tp && groups == share * tp
    ensures Shaped(s, share) && |s| == |p|
  {
    seq(|p|, i requires 0 <= i < |p| => RankParam(p[i], groups, r, tp, share))
  }

  ghost function RankOutputs(p: seq<Param>, groups: nat, tp: nat, share: nat,
                             contribution: seq<seq<Row>> -> real): nat -> real
    requires Shaped(p, groups) && groups == share * tp
  {
    (r: nat) => if r < tp then Output(Rank(p, groups, r, tp, share), share, contribution) else 0.0
  }

  ghost function Cut(share: nat): nat -> nat {
    (r: nat) => r * share
  }

  lemma RankTerm(p: seq<Param>, groups: nat, r: nat, tp: nat, share: nat, contribution: seq<seq<Row>> -> real, k: nat)
    requires Shaped(p, groups) && r < tp && groups == share * tp && k < share
    ensures SameTerm(Term(Rank(p, groups, r, tp, share), share, contribution), 0, Term(p, groups, contribution),
                     r * share, k)
  {
    GroupIndex(r, tp, share, k);
    var s := Rank(p, groups, r, tp, share);
    assert GroupOf(s, share, k) == GroupOf(p, groups, r * share + k) by {
      forall i | 0 <= i < |p| ensures ParamGroup(s[i], share, k) == ParamGroup(p[i], groups, r * share + k) {
        RankParamGroup(p[i], groups, r, tp, share, k);
      }
    }
  }

  lemma RankIsPart(p: seq<Param>, groups: nat, r: nat, tp: nat, share: nat, contribution: seq<seq<Row>> -> real)
    requires Shaped(p, groups) && r < tp && groups == share * tp
    ensures IsPart(Term(p, groups, contribution), Cut(share), RankOutputs(p, groups, tp, share, contribution), r)
  {
    forall k: nat | k < share
      ensures SameTerm(Term(Rank(p, groups, r, tp, share), share, contribution), 0, Term(p, groups, contribution),
                       r * share, k)
    {
      RankTerm(p, groups, r, tp, share, contribution, k);
    }
    SumShift(Term(Rank(p, groups, r, tp, share), share, contribution), 0, Term(p, groups, contribution), r * share,
             share);
    assert (r + 1) * share == r * share + share;
  }

  /** The ranks' partial outputs add up to the output of the padded layer. */
  lemma {:induction false} RanksSumToWhole(p: seq<Param>, groups: nat, tp: nat, share: nat,
                                           contribution: seq<seq<Row>> -> real)
    requires Shaped(p, groups) && groups == share * tp
    ensures Sum(RankOutputs(p, groups, tp, share, contribution), 0, tp) == Output(p, groups, contribution)
  {
    var whole, parts := Term(p, groups, contribution), RankOutputs(p, groups, tp, share, contribution);
    forall r: nat | r < tp ensures IsPart(whole, Cut(share), parts, r) {
      RankIsPart(p, groups, r, tp, share, contribution);
    }
    SumOfParts(whole, Cut(share), parts, tp);
    assert Cut(share)(0) == 0 && Cut(share)(tp) == groups;
  }

  lemma ServedShape(a: seq<Param>, p: seq<Param>, realG: nat, padG: nat)
    requires 0 < realG <= padG && Shaped(a, realG) && Served(a, p, realG, padG)
    ensures Shaped(p, padG)
  {
    forall i | 0 <= i < |p| ensures ShapedParam(p[i], padG) {
      assert ParamServed(a[i], p[i], realG, padG);
      ServedParam(a[i], p[i], realG, padG, 0);
    }
  }

  lemma RealGroupSame(a: seq<Param>, p: seq<Param>, realG: nat, padG: nat, g: nat)
    requires 0 < realG <= padG && Shaped(a, realG) && Shaped(p, padG) && Served(a, p, realG, padG) && g < realG
    ensures GroupOf(p, padG, g) == GroupOf(a, realG, g)
  {
    forall i | 0 <= i < |p| ensures ParamGroup(p[i], padG, g) == ParamGroup(a[i], realG, g) {
      assert ParamServed(a[i], p[i], realG, padG);
      ServedParam(a[i], p[i], realG, padG, g);
    }
  }

  /** Padding the groups and splitting them over the ranks does not change the layer: the partial
      outputs add up to that of the unpadded, unsharded checkpoint. */
  lemma {:induction false} VirtualHeadsExact(a: seq<Param>, p: seq<Param>, realG: nat, padG: nat, tp: nat, share: nat,
                                             ob: nat, contribution: seq<seq<Row>> -> real)
    requires 0 < realG <= padG && padG == share * tp && Shaped(a, realG) && Served(a, p, realG, padG)
    requires ob < |a| && a[ob].mode.Zero? && SilencedBy(contribution, ob, a[ob].Blank())
    ensures Shaped(p, padG)
    ensures Sum(RankOutputs(p, padG, tp, share, contribution), 0, tp) == Output(a, realG, contribution)
  {
    ServedShape(a, p, realG, padG);
    RanksSumToWhole(p, padG, tp, share, contribution);
    PaddedOutput(a, p, realG, padG, ob, contribution);
  }

  /** The padded groups add nothing. */
  lemma PaddedOutput(a: seq<Param>, p: seq<Param>, realG: nat, padG: nat, ob: nat, contribution: seq<seq<Row>> -> real)
    requires 0 < realG <= padG && Shaped(a, realG) && Shaped(p, padG) && Served(a, p, realG, padG)
    requires ob < |a| && a[ob].mode.Zero? && SilencedBy(contribution, ob, a[ob].Blank())
    ensures Output(p, padG, contribution) == Output(a, realG, contribution)
  {
    var whole, bare := Term(p, padG, contribution), Term(a, realG, contribution);
    forall g: nat | g < realG ensures SameTerm(whole, 0, bare, 0, g) {
      RealGroupSame(a, p, realG, padG, g);
    }
    forall g: nat | realG <= g < padG ensures whole(g) == 0.0 {
      assert ParamServed(a[ob], p[ob], realG, padG);
      ServedParam(a[ob], p[ob], realG, padG, g);
      assert GroupOf(p, padG, g)[ob] == a[ob].Blank();
    }
    SumSplit(whole, 0, realG, padG);
    SumZero(whole, realG, padG);
    SumShift(whole, 0, bare, 0, realG);
  }
}
