/** EXL3 experts: the split of the intermediate dimension over the ranks in whole 128-blocks, the
    loader that copies each rank's part of a checkpoint tensor into the fused parameters, and the
    sum of the ranks' partial down-projections. */
module ExpertSplit {
  import opened Arith
  import opened RankSum

  const BLOCK: int := 128
  const TILE: int := 16

  // ------------------------------------------------------------ the split

  /** Blocks of rank i: the remainder goes to the ranks after the first. */
  function Count(blocks: nat, tp: nat, i: nat): nat
    requires tp > 0
  {
    blocks / tp + if 1 <= i <= blocks % tp then 1 else 0
  }

  /** Blocks of the first r ranks. */
  function Before(blocks: nat, tp: nat, r: nat): nat
    requires tp > 0
  {
    if r == 0 then 0 else Before(blocks, tp, r - 1) + Count(blocks, tp, r - 1)
  }

  /** Already aligned, or not fixable. */
  predicate EvenSplit(even: nat, tp: nat) {
    tp <= 1 || even % BLOCK == 0 || even * tp % BLOCK != 0
  }

  function Width(even: nat, tp: nat, r: nat): nat
    requires tp > 0
  {
    if EvenSplit(even, tp) then even else Count(even * tp / BLOCK, tp, r) * BLOCK
  }

  function Offset(even: nat, tp: nat, r: nat): nat
    requires tp > 0
  {
    if EvenSplit(even, tp) then r * even else Before(even * tp / BLOCK, tp, r) * BLOCK
  }

  function SumOf(s: seq<nat>): nat {
    if s == [] then 0 else SumOf(s[..|s| - 1]) + s[|s| - 1]
  }

  lemma {:induction false} SumOfCounts(counts: seq<nat>, blocks: nat, tp: nat, r: nat)
    requires tp > 0 && r <= |counts| && forall i :: 0 <= i < |counts| ==> counts[i] == Count(blocks, tp, i)
    ensures SumOf(counts[..r]) == Before(blocks, tp, r)
  {
    if r > 0 {
      SumOfCounts(counts, blocks, tp, r - 1);
      assert counts[..r][..r - 1] == counts[..r - 1];
    }
  }

  /** Whole blocks per rank, the remainder on the ranks after the first. */
  method CountBlocks(blocks: nat, tp: nat) returns (counts: seq<nat>)
    requires tp > 0
    ensures |counts| == tp && forall k :: 0 <= k < tp ==> counts[k] == Count(blocks, tp, k)
  {
    var base, rem := blocks / tp, blocks % tp;
    counts := seq(tp, _ => base);
    for i := 0 to rem
      invariant |counts| == tp
      invariant forall k :: 0 <= k < tp ==> counts[k] == base + if 1 <= k <= i then 1 else 0
    {
      counts := counts[1 + i := counts[1 + i] + 1];
    }
  }

  method TpSplit(even: nat, tp: nat, r: nat) returns (width: nat, off: nat)
    requires r < tp
    ensures width == Width(even, tp, r) && off == Offset(even, tp, r)
  {
    var total := even * tp;
    if tp <= 1 || even % BLOCK == 0 || total % BLOCK != 0 {
      return even, r * even;
    }
    var counts := CountBlocks(total / BLOCK, tp);
    SumOfCounts(counts, total / BLOCK, tp, r);
    off := SumOf(counts[..r]) * BLOCK;
    width := counts[r] * BLOCK;
  }

  lemma {:induction false} BeforeClosed(blocks: nat, tp: nat, r: nat)
    requires 0 < tp && r <= tp
    ensures Before(blocks, tp, r) == r * (blocks / tp) + Min(Max(r - 1, 0), blocks % tp)
  {
    if r > 0 {
      BeforeClosed(blocks, tp, r - 1);
      Times(r, blocks / tp);
    }
  }

  lemma Times(r: nat, x: int)
    requires r > 0
    ensures r * x == (r - 1) * x + x
  {
  }

  /** The parts are consecutive and together are the whole dimension. */
  lemma SplitPartitions(even: nat, tp: nat, r: nat)
    requires r < tp
    ensures Offset(even, tp, 0) == 0 && Offset(even, tp, tp) == even * tp
    ensures Offset(even, tp, r + 1) == Offset(even, tp, r) + Width(even, tp, r)
  {
    if EvenSplit(even, tp) {
      Times(r + 1, even);
    } else {
      var blocks := even * tp / BLOCK;
      BeforeClosed(blocks, tp, tp);
      assert blocks == tp * (blocks / tp) + blocks % tp;
    }
  }

  ghost predicate Aligned(even: nat, tp: nat, r: nat)
    requires tp > 0
  {
    Width(even, tp, r) % BLOCK == 0 && Offset(even, tp, r) % BLOCK == 0
  }

  /** Every rank holds whole blocks exactly when the dimension is a whole number of blocks. */
  lemma AlignedExactly(even: nat, tp: nat)
    requires tp > 0
    ensures (forall r: nat :: r < tp ==> Aligned(even, tp, r)) <==> even * tp % BLOCK == 0
  {
    if even * tp % BLOCK == 0 {
      forall r: nat | r < tp ensures Aligned(even, tp, r) {
        AlignedRank(even, tp, r);
      }
    } else if even % BLOCK == 0 {
      MultipleTimes(even, tp);
    } else {
      assert !Aligned(even, tp, 0);
    }
  }

  lemma AlignedRank(even: nat, tp: nat, r: nat)
    requires r < tp && even * tp % BLOCK == 0
    ensures Aligned(even, tp, r)
  {
    if !EvenSplit(even, tp) {
      DivExact(Count(even * tp / BLOCK, tp, r), BLOCK);
      DivExact(Before(even * tp / BLOCK, tp, r), BLOCK);
    } else {
      assert tp == 1 ==> even * tp == even;
      MultipleTimes(even, r);
    }
  }

  lemma MultipleTimes(even: nat, n: nat)
    requires even % BLOCK == 0
    ensures even * n % BLOCK == 0 && n * even % BLOCK == 0
  {
    assert even == even / BLOCK * BLOCK;
    assert even * n == (even / BLOCK * n) * BLOCK;
    DivExact(even / BLOCK * n, BLOCK);
  }

  /** Ranks differ by at most one block, and the first rank is never the larger one. */
  lemma SplitBalanced(even: nat, tp: nat, r: nat, s: nat)
    requires r < tp && s < tp
    ensures Width(even, tp, r) <= Width(even, tp, s) + BLOCK
    ensures Width(even, tp, 0) <= Width(even, tp, r)
  {
  }

  // ------------------------------------------------------------ the loader

  /** One 16-wide tile of a trellis, over the other dimension. */
  type Tile = seq<int>

  datatype Proj = Gate | Up | Down

  datatype Kind = TrellisKind | SuhKind | SvhKind | CodebookKind

  /** A checkpoint tensor of one expert's projection. */
  datatype Loaded = Trellis(tiles: seq<Tile>) | Suh(values: seq<int>) | Svh(values: seq<int>) | Codebook(n: int)

  function KindOf(w: Loaded): Kind {
    match w
    case Trellis(_) => TrellisKind
    case Suh(_) => SuhKind
    case Svh(_) => SvhKind
    case Codebook(_) => CodebookKind
  }

  /** The fused parameters of one local expert: gate in the first half of w13, up in the second. */
  datatype Fused = Fused(w13Trellis: seq<Tile>, w2Trellis: seq<Tile>, w13Suh: seq<seq<int>>, w2Suh: seq<int>,
                         w13Svh: seq<int>, w2Svh: seq<int>, w13Codebook: seq<int>, w2Codebook: int)

  predicate ValidFused(f: Fused, inter: nat) {
    && |f.w13Trellis| == 2 * (inter / TILE) && |f.w2Trellis| == inter / TILE && |f.w13Suh| == 2
    && |f.w2Suh| == inter && |f.w13Svh| == 2 * inter && |f.w13Codebook| == 2
  }

  function Half<T>(s: seq<T>, half: int, part: nat): (h: seq<T>)
    requires |s| == 2 * part && 0 <= half <= 1
    ensures |h| == part
  {
    if half == 0 then s[..part] else s[part..]
  }

  function WithHalf<T>(s: seq<T>, half: int, part: nat, h: seq<T>): (r: seq<T>)
    requires |s| == 2 * part && |h| == part && 0 <= half <= 1
    ensures |r| == |s| && Half(r, half, part) == h && Half(r, 1 - half, part) == Half(s, 1 - half, part)
  {
    if half == 0 then h + s[part..] else s[..part] + h
  }

  function HalfOf(p: Proj): int { if p.Gate? then 0 else 1 }

  /** What the layer holds of a tensor. */
  function Stored(f: Fused, inter: nat, p: Proj, k: Kind): Loaded
    requires ValidFused(f, inter)
  {
    match k
    case TrellisKind => Trellis(if p.Down? then f.w2Trellis else Half(f.w13Trellis, HalfOf(p), inter / TILE))
    case SuhKind => Suh(if p.Down? then f.w2Suh else f.w13Suh[HalfOf(p)])
    case SvhKind => Svh(if p.Down? then f.w2Svh else Half(f.w13Svh, HalfOf(p), inter))
    case CodebookKind => Codebook(if p.Down? then f.w2Codebook else f.w13Codebook[HalfOf(p)])
  }

  /** The tensor covers the rank's columns. */
  predicate Fits(w: Loaded, p: Proj, off: nat, inter: nat) {
    match w
    case Trellis(tiles) => off / TILE + inter / TILE <= |tiles|
    case Suh(values) => p.Down? ==> off + inter <= |values|
    case Svh(values) => !p.Down? ==> off + inter <= |values|
    case Codebook(_) => true
  }

  /** The rank's part of a tensor: the intermediate dimension is the output of gate and up and the
      input of down; the other dimension is kept whole. */
  function Sliced(w: Loaded, p: Proj, off: nat, inter: nat): Loaded
    requires Fits(w, p, off, inter)
  {
    match w
    case Trellis(tiles) => Trellis(tiles[off / TILE..off / TILE + inter / TILE])
    case Suh(values) => if p.Down? then Suh(values[off..off + inter]) else w
    case Svh(values) => if p.Down? then w else Svh(values[off..off + inter])
    case Codebook(_) => w
  }

  /** One checkpoint tensor with the expert and projection in its name. */
  datatype Item = Item(expert: nat, proj: Proj, tensor: Loaded)

  /** One projection of an expert. */
  datatype Weights = Weights(tiles: seq<Tile>, suh: seq<int>, svh: seq<int>, codebook: int)

  datatype Expert = Expert(gate: Weights, up: Weights, down: Weights)

  ghost predicate Shaped(x: Expert, inter: nat) {
    && |x.gate.tiles| == |x.up.tiles| == |x.down.tiles| == inter / TILE
    && |x.gate.svh| == |x.up.svh| == |x.down.suh| == inter
  }

  function Part<T>(s: seq<T>, off: nat, n: nat): seq<T>
    requires off + n <= |s|
  {
    s[off..off + n]
  }

  /** Slice of a projection whose output is the intermediate dimension. */
  function SliceOut(w: Weights, off: nat, n: nat): Weights
    requires off / TILE + n / TILE <= |w.tiles| && off + n <= |w.svh|
  {
    Weights(Part(w.tiles, off / TILE, n / TILE), w.suh, Part(w.svh, off, n), w.codebook)
  }

  /** Slice of a projection whose input is the intermediate dimension. */
  function SliceIn(w: Weights, off: nat, n: nat): Weights
    requires off / TILE + n / TILE <= |w.tiles| && off + n <= |w.suh|
  {
    Weights(Part(w.tiles, off / TILE, n / TILE), Part(w.suh, off, n), w.svh, w.codebook)
  }

  ghost predicate WithinExpert(x: Expert, inter: nat, off: nat, n: nat) {
    Shaped(x, inter) && off + n <= inter && off / TILE + n / TILE <= inter / TILE
  }

  function SliceExpert(x: Expert, inter: nat, off: nat, n: nat): Expert
    requires WithinExpert(x, inter, off, n)
  {
    Expert(SliceOut(x.gate, off, n), SliceOut(x.up, off, n), SliceIn(x.down, off, n))
  }

  /** The expert a fused parameter record stands for: the gate is the first half of w13 and the up
      projection the second. */
  function LoadedExpert(f: Fused, inter: nat, hasCodebook: bool): Expert
    requires ValidFused(f, inter)
  {
    var n := inter / TILE;
    Expert(Weights(f.w13Trellis[..n], f.w13Suh[0], f.w13Svh[..inter], if hasCodebook then f.w13Codebook[0] else 0),
           Weights(f.w13Trellis[n..], f.w13Suh[1], f.w13Svh[inter..], if hasCodebook then f.w13Codebook[1] else 0),
           Weights(f.w2Trellis, f.w2Suh, f.w2Svh, if hasCodebook then f.w2Codebook else 0))
  }

  function ProjOf(x: Expert, p: Proj): Weights {
    match p
    case Gate => x.gate
    case Up => x.up
    case Down => x.down
  }

  /** An expert's tensors in the checkpoint; without codebook tensors its codebooks count as 0. */
  ghost predicate Listed(items: seq<Item>, e: nat, x: Expert, hasCodebook: bool) {
    forall p :: ProjListed(items, e, p, ProjOf(x, p), hasCodebook)
  }

  ghost predicate ProjListed(items: seq<Item>, e: nat, p: Proj, w: Weights, hasCodebook: bool) {
    && Item(e, p, Trellis(w.tiles)) in items && Item(e, p, Suh(w.suh)) in items && Item(e, p, Svh(w.svh)) in items
    && (if hasCodebook then Item(e, p, Codebook(w.codebook)) in items else w.codebook == 0)
  }

  /** What is stored of every tensor is its slice. */
  ghost predicate StoresSlices(f: Fused, inter: nat, off: nat, x: Expert, hasCodebook: bool)
    requires ValidFused(f, inter)
  {
    forall p :: StoresSlice(f, inter, off, p, ProjOf(x, p), hasCodebook)
  }

  ghost predicate StoresSlice(f: Fused, inter: nat, off: nat, p: Proj, w: Weights, hasCodebook: bool)
    requires ValidFused(f, inter)
  {
    && TensorStored(f, inter, off, p, Trellis(w.tiles)) && TensorStored(f, inter, off, p, Suh(w.suh))
    && TensorStored(f, inter, off, p, Svh(w.svh))
    && (if hasCodebook then TensorStored(f, inter, off, p, Codebook(w.codebook)) else w.codebook == 0)
  }

  ghost predicate TensorStored(f: Fused, inter: nat, off: nat, p: Proj, w: Loaded)
    requires ValidFused(f, inter)
  {
    Fits(w, p, off, inter) && Stored(f, inter, p, KindOf(w)) == Sliced(w, p, off, inter)
  }

  /** Then the record stands for the expert's slice. */
  lemma SlicesMakeExpert(f: Fused, inter: nat, off: nat, x: Expert, total: nat, hasCodebook: bool)
    requires ValidFused(f, inter) && WithinExpert(x, total, off, inter) && StoresSlices(f, inter, off, x, hasCodebook)
    ensures LoadedExpert(f, inter, hasCodebook) == SliceExpert(x, total, off, inter)
  {
    assert StoresSlice(f, inter, off, Gate, ProjOf(x, Gate), hasCodebook);
    assert StoresSlice(f, inter, off, Up, ProjOf(x, Up), hasCodebook);
    assert StoresSlice(f, inter, off, Down, ProjOf(x, Down), hasCodebook);
  }

  class Layer {
    const inter: nat
    const off: nat
    const hasCodebook: bool
    const fused: array<Fused>

    ghost predicate Valid()
      reads fused
    {
      forall e :: 0 <= e < fused.Length ==> ValidFused(fused[e], inter)
    }

    constructor (experts: nat, inter: nat, off: nat, hasCodebook: bool)
      ensures Valid() && fresh(fused) && fused.Length == experts
      ensures this.inter == inter && this.off == off && this.hasCodebook == hasCodebook
    {
      this.inter, this.off, this.hasCodebook := inter, off, hasCodebook;
      fused := new Fused[experts](_ => Fused(seq(2 * (inter / TILE), _ => []), seq(inter / TILE, _ => []), [[], []],
                                              seq(inter, _ => 0), seq(2 * inter, _ => 0), [], [0, 0], 0));
    }

    /** What expert e holds of projection p's tensor of kind k. */
    function Holds(e: nat, p: Proj, k: Kind): Loaded
      requires Valid() && e < fused.Length
      reads fused
    {
      Stored(fused[e], inter, p, k)
    }

    /** Copy one checkpoint tensor into the fused parameters of expert e; nothing else changes. */
    method Place(e: nat, p: Proj, w: Loaded) returns (placed: bool)
      requires Valid() && e < fused.Length && Fits(w, p, off, inter)
      modifies fused
      ensures Valid() && placed == (!w.Codebook? || hasCodebook)
      ensures placed ==> Holds(e, p, KindOf(w)) == Sliced(w, p, off, inter)
      ensures forall q, k :: !placed || (q, k) != (p, KindOf(w)) ==> Holds(e, q, k) == old(Holds(e, q, k))
      ensures forall d :: 0 <= d < fused.Length && d != e ==> fused[d] == old(fused[d])
    {
      var f := fused[e];
      var half := HalfOf(p);
      match w {
      case Trellis(tiles) =>
        var part := tiles[off / TILE..off / TILE + inter / TILE];
        f := if p.Down? then f.(w2Trellis := part)
             else f.(w13Trellis := WithHalf(f.w13Trellis, half, inter / TILE, part));
      case Suh(values) =>
        f := if p.Down? then f.(w2Suh := values[off..off + inter]) else f.(w13Suh := f.w13Suh[half := values]);
      case Svh(values) =>
        f := if p.Down? then f.(w2Svh := values)
             else f.(w13Svh := WithHalf(f.w13Svh, half, inter, values[off..off + inter]));
      case Codebook(n) =>
        if !hasCodebook {
          return false;
        }
        f := if p.Down? then f.(w2Codebook := n) else f.(w13Codebook := f.w13Codebook[half := n]);
      }
      fused[e] := f;
      placed := true;
    }

    /** Load the tensors of a checkpoint in whatever order they come; those of experts on other
        ranks are skipped. Every local tensor ends up as this rank's slice of it. */
    method LoadWeights(items: seq<Item>, local: nat -> int)
      requires Valid() && LocalOk(items, local, fused.Length) && Consistent(items)
      requires forall i :: 0 <= i < |items| ==> Fits(items[i].tensor, items[i].proj, off, inter)
      modifies fused
      ensures Valid()
      ensures forall i :: 0 <= i < |items| ==> ItemLoaded(items[i], local)
      ensures forall e: nat, x: Expert, total: nat ::
        Listed(items, e, x, hasCodebook) && 0 <= local(e) && WithinExpert(x, total, off, inter) ==>
          && local(e) < fused.Length
          && LoadedExpert(fused[local(e)], inter, hasCodebook) == SliceExpert(x, total, off, inter)
    {
      for i := 0 to |items|
        invariant Valid() && forall k :: 0 <= k < i ==> ItemLoaded(items[k], local)
      {
        var e := local(items[i].expert);
        if e >= 0 {
          ghost var before := fused[..];
          var placed := Place(e, items[i].proj, items[i].tensor);
          forall k | 0 <= k < i ensures ItemLoaded(items[k], local) {
            assert SameSlot(items[k], items[i]) ==> items[k].tensor == items[i].tensor;
            assert SharesSlot(items[k], items[i], local) ==> items[k].expert == items[i].expert;
            assert local(items[k].expert) >= 0 && local(items[k].expert) != e ==>
              before[local(items[k].expert)] == fused[local(items[k].expert)];
          }
        }
      }
      forall e: nat, x: Expert, total: nat |
        Listed(items, e, x, hasCodebook) && 0 <= local(e) && WithinExpert(x, total, off, inter)
        ensures local(e) < fused.Length
        ensures LoadedExpert(fused[local(e)], inter, hasCodebook) == SliceExpert(x, total, off, inter)
      {
        ListedIsLoaded(items, local, e, x, total);
      }
    }

    /** Once its items are loaded an expert's record stands for its slice. */
    lemma ListedIsLoaded(items: seq<Item>, local: nat -> int, e: nat, x: Expert, total: nat)
      requires Valid() && LocalOk(items, local, fused.Length) && Listed(items, e, x, hasCodebook) && local(e) >= 0
      requires forall i :: 0 <= i < |items| ==> Fits(items[i].tensor, items[i].proj, off, inter)
      requires forall i :: 0 <= i < |items| ==> ItemLoaded(items[i], local)
      requires WithinExpert(x, total, off, inter)
      ensures local(e) < fused.Length
      ensures LoadedExpert(fused[local(e)], inter, hasCodebook) == SliceExpert(x, total, off, inter)
    {
      assert ProjListed(items, e, Gate, x.gate, hasCodebook) by { assert ProjOf(x, Gate) == x.gate; }
      var i :| 0 <= i < |items| && items[i] == Item(e, Gate, Trellis(x.gate.tiles));
      var f := fused[local(e)];
      forall p ensures StoresSlice(f, inter, off, p, ProjOf(x, p), hasCodebook) {
        assert ProjListed(items, e, p, ProjOf(x, p), hasCodebook);
      }
      SlicesMakeExpert(f, inter, off, x, total, hasCodebook);
    }

    ghost predicate ItemLoaded(item: Item, local: nat -> int)
      requires Valid() && local(item.expert) < fused.Length && Fits(item.tensor, item.proj, off, inter)
      reads fused
    {
      local(item.expert) >= 0 && (!item.tensor.Codebook? || hasCodebook) ==>
        Holds(local(item.expert), item.proj, KindOf(item.tensor)) == Sliced(item.tensor, item.proj, off, inter)
    }
  }

  /** Local expert numbers are valid, and no two experts share one. */
  ghost predicate LocalOk(items: seq<Item>, local: nat -> int, experts: nat) {
    && (forall i :: 0 <= i < |items| ==> local(items[i].expert) < experts)
    && (forall i, k :: 0 <= i < |items| && 0 <= k < |items| && SharesSlot(items[i], items[k], local) ==>
          items[i].expert == items[k].expert)
  }

  predicate SharesSlot(a: Item, b: Item, local: nat -> int) {
    local(a.expert) >= 0 && local(a.expert) == local(b.expert)
  }

  predicate SameSlot(a: Item, b: Item) {
    a.expert == b.expert && a.proj == b.proj && KindOf(a.tensor) == KindOf(b.tensor)
  }

  /** A tensor listed twice is listed with the same contents. */
  ghost predicate Consistent(items: seq<Item>) {
    forall i, k :: 0 <= i < |items| && 0 <= k < |items| && SameSlot(items[i], items[k]) ==>
      items[i].tensor == items[k].tensor
  }

  // ------------------------------------------------------------ the layer's output

  /** What the loader stores is that slice. */
  lemma StoredIsSlice(x: Expert, inter: nat, off: nat, n: nat)
    requires WithinExpert(x, inter, off, n)
    ensures var s := SliceExpert(x, inter, off, n);
      && Sliced(Trellis(x.gate.tiles), Gate, off, n) == Trellis(s.gate.tiles)
      && Sliced(Svh(x.gate.svh), Gate, off, n) == Svh(s.gate.svh)
      && Sliced(Trellis(x.up.tiles), Up, off, n) == Trellis(s.up.tiles)
      && Sliced(Svh(x.up.svh), Up, off, n) == Svh(s.up.svh)
      && Sliced(Trellis(x.down.tiles), Down, off, n) == Trellis(s.down.tiles)
      && Sliced(Suh(x.down.suh), Down, off, n) == Suh(s.down.suh)
      && Sliced(Suh(x.gate.suh), Gate, off, n) == Suh(s.gate.suh) && Sliced(Suh(x.up.suh), Up, off, n) == Suh(s.up.suh)
      && Sliced(Svh(x.down.svh), Down, off, n) == Svh(s.down.svh)
  {
  }

  /** Block k of an expert: the decoder mixes values within 128-blocks, so a block's contribution to
      the output depends on exactly these tiles and scales. */
  function BlockOf(x: Expert, inter: nat, k: nat): Expert
    requires Shaped(x, inter) && (k + 1) * BLOCK <= inter
  {
    TileInside(k, inter);
    SliceExpert(x, inter, k * BLOCK, BLOCK)
  }

  lemma TileInside(k: nat, inter: nat)
    requires (k + 1) * BLOCK <= inter
    ensures k * BLOCK / TILE == 8 * k && BLOCK / TILE == 8 && 8 * k + 8 <= inter / TILE
  {
  }

  ghost function Term(x: Expert, inter: nat, contribution: Expert -> real): nat -> real
    requires Shaped(x, inter)
  {
    (k: nat) => if (k + 1) * BLOCK <= inter then contribution(BlockOf(x, inter, k)) else 0.0
  }

  ghost function Output(x: Expert, inter: nat, contribution: Expert -> real): real
    requires Shaped(x, inter)
  {
    Sum(Term(x, inter, contribution), 0, inter / BLOCK)
  }

  /** Rank r's slice. */
  lemma RankWithin(x: Expert, even: nat, tp: nat, r: nat)
    requires r < tp && even * tp % BLOCK == 0 && Shaped(x, even * tp)
    ensures Offset(even, tp, r) % BLOCK == 0 && Width(even, tp, r) % BLOCK == 0
    ensures WithinExpert(x, even * tp, Offset(even, tp, r), Width(even, tp, r))
    ensures Offset(even, tp, r) + Width(even, tp, r) <= even * tp
  {
    AlignedRank(even, tp, r);
    SplitPartitions(even, tp, r);
    OffsetUp(even, tp, r + 1);
  }

  lemma {:induction false} OffsetUp(even: nat, tp: nat, r: nat)
    requires 0 < tp && r <= tp
    ensures Offset(even, tp, r) <= even * tp
    decreases tp - r
  {
    if r < tp {
      OffsetUp(even, tp, r + 1);
      SplitPartitions(even, tp, r);
    } else {
      SplitPartitions(even, tp, 0);
    }
  }

  ghost function RankOutputs(x: Expert, even: nat, tp: nat, contribution: Expert -> real): nat -> real
    requires tp > 0 && even * tp % BLOCK == 0 && Shaped(x, even * tp)
  {
    (r: nat) =>
      if r < tp then
        RankWithin(x, even, tp, r);
        Output(SliceExpert(x, even * tp, Offset(even, tp, r), Width(even, tp, r)), Width(even, tp, r), contribution)
      else 0.0
  }

  /** Blocks before rank r. */
  ghost function Cut(even: nat, tp: nat): nat -> nat
    requires tp > 0
  {
    (r: nat) => Offset(even, tp, r) / BLOCK
  }

  /** Block k of a block-aligned slice is block off / 128 + k of the whole. */
  lemma SliceBlock(x: Expert, inter: nat, off: nat, n: nat, k: nat)
    requires WithinExpert(x, inter, off, n) && off % BLOCK == 0 && (k + 1) * BLOCK <= n
    ensures Shaped(SliceExpert(x, inter, off, n), n) && (off / BLOCK + k + 1) * BLOCK <= inter
    ensures BlockOf(SliceExpert(x, inter, off, n), n, k) == BlockOf(x, inter, off / BLOCK + k)
  {
    TileInside(k, n);
    TileInside(off / BLOCK + k, inter);
    PartOfPart(x.gate.tiles, off / TILE, n / TILE, 8 * k, 8);
    PartOfPart(x.up.tiles, off / TILE, n / TILE, 8 * k, 8);
    PartOfPart(x.down.tiles, off / TILE, n / TILE, 8 * k, 8);
    PartOfPart(x.gate.svh, off, n, k * BLOCK, BLOCK);
    PartOfPart(x.up.svh, off, n, k * BLOCK, BLOCK);
    PartOfPart(x.down.suh, off, n, k * BLOCK, BLOCK);
  }

  lemma PartOfPart<T>(s: seq<T>, off: nat, n: nat, lo: nat, m: nat)
    requires off + n <= |s| && lo + m <= n
    ensures Part(Part(s, off, n), lo, m) == Part(s, off + lo, m)
  {
    var x, y := Part(Part(s, off, n), lo, m), Part(s, off + lo, m);
    forall i | 0 <= i < m ensures x[i] == y[i] {
      assert x[i] == Part(s, off, n)[lo + i];
    }
  }

  lemma RankIsPart(x: Expert, even: nat, tp: nat, contribution: Expert -> real, r: nat)
    requires r < tp && even * tp % BLOCK == 0 && Shaped(x, even * tp)
    ensures IsPart(Term(x, even * tp, contribution), Cut(even, tp), RankOutputs(x, even, tp, contribution), r)
  {
    RankWithin(x, even, tp, r);
    SplitPartitions(even, tp, r);
    var off, n := Offset(even, tp, r), Width(even, tp, r);
    SliceOutput(x, even * tp, off, n, contribution);
  }

  lemma {:induction false} SliceOutput(x: Expert, inter: nat, off: nat, n: nat, contribution: Expert -> real)
    requires WithinExpert(x, inter, off, n) && off % BLOCK == 0 && n % BLOCK == 0
    ensures Shaped(SliceExpert(x, inter, off, n), n)
    ensures Output(SliceExpert(x, inter, off, n), n, contribution)
      == Sum(Term(x, inter, contribution), off / BLOCK, (off + n) / BLOCK)
  {
    var local, whole := Term(SliceExpert(x, inter, off, n), n, contribution), Term(x, inter, contribution);
    forall k: nat | k < n / BLOCK ensures SameTerm(local, 0, whole, off / BLOCK, k) {
      SliceBlock(x, inter, off, n, k);
    }
    SumShift(local, 0, whole, off / BLOCK, n / BLOCK);
  }

  /** Whenever the dimension is a whole number of 128-blocks, the ranks' partial down-projections,
      of equal widths or not, add up to the unsharded expert. */
  lemma {:induction false} SplitExpertExact(x: Expert, even: nat, tp: nat, contribution: Expert -> real)
    requires tp > 0 && even * tp % BLOCK == 0 && Shaped(x, even * tp)
    ensures Sum(RankOutputs(x, even, tp, contribution), 0, tp) == Output(x, even * tp, contribution)
  {
    forall r: nat | r < tp
      ensures IsPart(Term(x, even * tp, contribution), Cut(even, tp), RankOutputs(x, even, tp, contribution), r)
    {
      RankIsPart(x, even, tp, contribution, r);
    }
    SumOfParts(Term(x, even * tp, contribution), Cut(even, tp), RankOutputs(x, even, tp, contribution), tp);
    SplitPartitions(even, tp, 0);
  }

  /** Rank r's record after loading stands for the expert's slice. */
  ghost predicate RankLoaded(x: Expert, even: nat, tp: nat, hasCodebook: bool, fs: seq<Fused>, r: nat)
    requires r < tp && |fs| == tp && even * tp % BLOCK == 0 && Shaped(x, even * tp)
  {
    RankWithin(x, even, tp, r);
    && ValidFused(fs[r], Width(even, tp, r))
    && LoadedExpert(fs[r], Width(even, tp, r), hasCodebook)
      == SliceExpert(x, even * tp, Offset(even, tp, r), Width(even, tp, r))
  }

  /** What each rank computes from its fused parameters. */
  ghost function LoadedOutputs(even: nat, tp: nat, hasCodebook: bool, fs: seq<Fused>,
                               contribution: Expert -> real): nat -> real
    requires tp > 0 && |fs| == tp && forall r: nat :: r < tp ==> ValidFused(fs[r], Width(even, tp, r))
  {
    (r: nat) =>
      if r < tp then
        Output(LoadedExpert(fs[r], Width(even, tp, r), hasCodebook), Width(even, tp, r), contribution)
      else 0.0
  }

  /** The fused parameters the ranks have loaded, gate in the first and up in the second half of w13,
      compute partial outputs that add up to the unsharded expert. */
  lemma {:induction false} LoadedSumExact(x: Expert, even: nat, tp: nat, hasCodebook: bool, fs: seq<Fused>,
                                          contribution: Expert -> real)
    requires tp > 0 && even * tp % BLOCK == 0 && Shaped(x, even * tp) && |fs| == tp
    requires forall r: nat :: r < tp ==> RankLoaded(x, even, tp, hasCodebook, fs, r)
    ensures forall r: nat :: r < tp ==> ValidFused(fs[r], Width(even, tp, r))
    ensures Sum(LoadedOutputs(even, tp, hasCodebook, fs, contribution), 0, tp) == Output(x, even * tp, contribution)
  {
    forall r: nat | r < tp ensures ValidFused(fs[r], Width(even, tp, r)) {
      assert RankLoaded(x, even, tp, hasCodebook, fs, r);
    }
    var whole, part := Term(x, even * tp, contribution), LoadedOutputs(even, tp, hasCodebook, fs, contribution);
    forall r: nat | r < tp ensures IsPart(whole, Cut(even, tp), part, r) {
      assert RankLoaded(x, even, tp, hasCodebook, fs, r);
      RankIsPart(x, even, tp, contribution, r);
    }
    SumOfParts(whole, Cut(even, tp), part, tp);
    SplitPartitions(even, tp, 0);
  }
}
