/** Byte layout of the shared KV cache buffer: where the page of every layer and block lies, for the
    block-outer and layer-outer packings and for the Mamba/MLA aliasing of GLM-5.3-Flash. */
module KvLayout {
  import opened Arith
  import opened Wrappers

  /** The name of a layer's cache: the layer's index in the model, and which of its caches. */
  datatype Name = Name(index: nat, part: nat)

  /** The layers of one spec inside a group, all with the same page size. */
  datatype SpecClass = SpecClass(page: int, layers: seq<Name>)

  /** A group projected to a worker, its layers sorted by spec. A group none of whose layers are on the
      worker keeps the specs of the whole model but lists no layer names. */
  datatype Packed = Packed(specs: seq<SpecClass>, present: bool)

  datatype Layout = BlockOuter | LayerOuter

  /** One allocation view: layer k of `layers`, block b, starts at offset + k * layerStride + b * blockStride. */
  datatype Tensor = Tensor(size: int, layers: seq<Name>, layerStride: int, blockStride: int, offset: int)

  datatype Config = Config(numBlocks: int, tensors: seq<seq<Tensor>>)

  function Address(t: Tensor, k: nat, b: nat): int {
    t.offset + k * t.layerStride + b * t.blockStride
  }

  /** The half-open byte ranges [x, x + xPage) and [y, y + yPage) do not meet. */
  predicate Apart(x: int, xPage: int, y: int, yPage: int) {
    x + xPage <= y || y + yPage <= x
  }

  ghost predicate ValidGroup(g: Packed) {
    forall i :: 0 <= i < |g.specs| ==> g.specs[i].page > 0 && g.specs[i].layers != []
  }

  ghost predicate ValidGroups(gs: seq<Packed>) {
    forall i :: 0 <= i < |gs| ==> ValidGroup(gs[i])
  }

  /** Bytes of all layers of the first n specs. */
  function SpecBytes(specs: seq<SpecClass>, n: nat): int
    requires n <= |specs|
  {
    if n == 0 then 0 else SpecBytes(specs, n - 1) + |specs[n - 1].layers| * specs[n - 1].page
  }

  /** Bytes of the layers the worker holds. */
  function HeldBytes(g: Packed): int {
    if g.present then SpecBytes(g.specs, |g.specs|) else 0
  }

  /** The widest group decides the bytes of a block. */
  function BytesPerBlock(gs: seq<Packed>): (m: int)
    ensures m >= 0
    ensures forall i :: 0 <= i < |gs| ==> HeldBytes(gs[i]) <= m
    ensures m == 0 || exists i :: 0 <= i < |gs| && HeldBytes(gs[i]) == m
  {
    if gs == [] then 0 else Max(HeldBytes(gs[|gs| - 1]), BytesPerBlock(gs[..|gs| - 1]))
  }

  function HeldPages(gs: seq<Packed>): set<int> {
    set g, c | g in gs && g.present && c in g.specs :: c.page
  }

  /** Mixed page sizes and several groups need the layer dimension inside the block dimension. */
  predicate LayoutAccepted(layout: Layout, gs: seq<Packed>) {
    |HeldPages(gs)| == 1 || layout.BlockOuter? || |gs| <= 1
  }

  function NumBlocks(available: int, bytesPerBlock: int, override: Option<nat>): int
    requires bytesPerBlock > 0
  {
    if override.Some? then override.value else available / bytesPerBlock
  }

  /** Strides of a compact page under each packing. */
  function Strides(layout: Layout, page: int, numBlocks: nat, bytesPerBlock: int): (int, int) {
    match layout
    case BlockOuter => (page, bytesPerBlock)
    case LayerOuter => (page * numBlocks, page)
  }

  /** Where spec i of a group is put. */
  function TensorFor(g: Packed, i: nat, layout: Layout, numBlocks: nat, bytesPerBlock: int): Tensor
    requires ValidGroup(g) && i < |g.specs|
  {
    var page := g.specs[i].page;
    var (layerStride, blockStride) := Strides(layout, page, numBlocks, bytesPerBlock);
    Tensor(bytesPerBlock * numBlocks, g.specs[i].layers, layerStride, blockStride,
           SpecBytes(g.specs, i) * Max(layerStride, page) / page)
  }

  method PlanGroup(g: Packed, layout: Layout, numBlocks: nat, bytesPerBlock: int) returns (ts: seq<Tensor>)
    requires ValidGroup(g)
    ensures |ts| == |g.specs|
    ensures forall i :: 0 <= i < |ts| ==> ts[i] == TensorFor(g, i, layout, numBlocks, bytesPerBlock)
  {
    ts := [];
    var byteOffset := 0;
    for i := 0 to |g.specs|
      invariant |ts| == i && byteOffset == SpecBytes(g.specs, i)
      invariant forall k :: 0 <= k < i ==> ts[k] == TensorFor(g, k, layout, numBlocks, bytesPerBlock)
    {
      var page := g.specs[i].page;
      var (layerStride, blockStride) := Strides(layout, page, numBlocks, bytesPerBlock);
      var offset := byteOffset * Max(layerStride, page) / page;
      ts := ts + [Tensor(bytesPerBlock * numBlocks, g.specs[i].layers, layerStride, blockStride, offset)];
      byteOffset := byteOffset + |g.specs[i].layers| * page;
    }
  }

  /** What the planned configuration is: every spec of every group in its place. */
  ghost predicate Planned(gs: seq<Packed>, layout: Layout, c: Config) {
    && ValidGroups(gs) && c.numBlocks >= 0 && |c.tensors| == |gs|
    && forall g :: 0 <= g < |gs| ==> GroupPlanned(gs[g], layout, c.numBlocks, BytesPerBlock(gs), c.tensors[g])
  }

  ghost predicate GroupPlanned(g: Packed, layout: Layout, numBlocks: nat, bytesPerBlock: int, ts: seq<Tensor>)
    requires ValidGroup(g)
  {
    |ts| == |g.specs| && forall i :: 0 <= i < |ts| ==> ts[i] == TensorFor(g, i, layout, numBlocks, bytesPerBlock)
  }

  /** The general planner; a model without groups gets the one block the pool always needs. */
  method PlanFromGroups(gs: seq<Packed>, layout: Layout, available: nat, override: Option<nat>)
    returns (r: Result<Config, Error>)
    requires ValidGroups(gs)
    ensures gs == [] ==> r == Success(Config(1, []))
    ensures gs != [] ==> (r == Failure(ValueError) <==> !LayoutAccepted(layout, gs))
    ensures gs != [] && LayoutAccepted(layout, gs) ==> (r == Failure(AssertionError) <==> BytesPerBlock(gs) <= 0)
    ensures r.Success? || r == Failure(ValueError) || r == Failure(AssertionError)
    ensures r.Success? && gs != [] ==> Planned(gs, layout, r.value)
    ensures r.Success? && gs != [] ==> r.value.numBlocks == NumBlocks(available, BytesPerBlock(gs), override)
    ensures r.Success? && gs != [] && override.None? ==> BytesPerBlock(gs) * r.value.numBlocks <= available
    ensures r.Success? && gs != [] && override.Some? ==> r.value.numBlocks == override.value
  {
    if gs == [] {
      return Success(Config(1, []));
    }
    if !LayoutAccepted(layout, gs) {
      return Failure(ValueError);
    }
    var bytesPerBlock := BytesPerBlock(gs);
    if bytesPerBlock <= 0 {
      return Failure(AssertionError);
    }
    var numBlocks := NumBlocks(available, bytesPerBlock, override);
    assert numBlocks >= 0 by {
      BlocksFit(available, bytesPerBlock);
    }
    BlocksFit(available, bytesPerBlock);
    var tensors := [];
    for g := 0 to |gs|
      invariant |tensors| == g
      invariant forall k :: 0 <= k < g ==> GroupPlanned(gs[k], layout, numBlocks, bytesPerBlock, tensors[k])
    {
      var ts := PlanGroup(gs[g], layout, numBlocks, bytesPerBlock);
      tensors := tensors + [ts];
    }
    r := Success(Config(numBlocks, tensors));
  }

  lemma BlocksFit(available: nat, bytesPerBlock: int)
    requires bytesPerBlock > 0
    ensures 0 <= available / bytesPerBlock && bytesPerBlock * (available / bytesPerBlock) <= available
  {
    assert available == available / bytesPerBlock * bytesPerBlock + available % bytesPerBlock;
  }

  /** Two layers of the worker's groups with pages of different size. */
  ghost predicate MixedPages(gs: seq<Packed>) {
    exists p, q :: p in HeldPages(gs) && q in HeldPages(gs) && p != q
  }

  /** The layouts refused are those with layers outside blocks, for several groups whose layers do not all
      have one page size. */
  lemma RefusedExactly(layout: Layout, gs: seq<Packed>)
    ensures !LayoutAccepted(layout, gs) <==>
      layout.LayerOuter? && |gs| > 1 && (MixedPages(gs) || HeldPages(gs) == {})
  {
    var pages := HeldPages(gs);
    if p, q :| p in pages && q in pages && p != q {
      SubsetSize({p, q}, pages);
    } else if pages != {} {
      var p :| p in pages;
      assert pages == {p};
    }
  }

  /** Without an override the planned blocks are as many as the memory holds. */
  lemma MostBlocks(available: nat, bytesPerBlock: int, n: int)
    requires bytesPerBlock > 0
    ensures n * bytesPerBlock <= available <==> n <= NumBlocks(available, bytesPerBlock, None)
  {
    var q := available / bytesPerBlock;
    assert available == q * bytesPerBlock + available % bytesPerBlock;
    if n <= q { MulMono(n, q, bytesPerBlock); } else { MulMono(q + 1, n, bytesPerBlock); }
    assert (q + 1) * bytesPerBlock == q * bytesPerBlock + bytesPerBlock;
  }

  // ------------------------------------------------------------ positions inside a block

  /** Byte position of layer k of spec i in its group, counted in one block. */
  function Position(g: Packed, i: nat, k: nat): int
    requires i < |g.specs|
  {
    SpecBytes(g.specs, i) + k * g.specs[i].page
  }

  ghost predicate HasLayer(g: Packed, i: nat, k: nat) {
    i < |g.specs| && k < |g.specs[i].layers|
  }

  lemma {:induction false} SpecBytesUp(g: Packed, i: nat, j: nat)
    requires ValidGroup(g) && i < j <= |g.specs|
    ensures 0 <= SpecBytes(g.specs, i)
    ensures SpecBytes(g.specs, i) + |g.specs[i].layers| * g.specs[i].page <= SpecBytes(g.specs, j)
    decreases i + j
  {
    if i + 1 < j {
      SpecBytesUp(g, i, j - 1);
      MulMono(0, |g.specs[j - 1].layers|, g.specs[j - 1].page);
    } else if i > 0 {
      SpecBytesUp(g, i - 1, i);
      MulMono(0, |g.specs[i - 1].layers|, g.specs[i - 1].page);
    }
  }

  /** A layer ends before the next one of its group starts, and inside the block. */
  lemma PositionsOrdered(g: Packed, i: nat, k: nat, j: nat, m: nat)
    requires ValidGroup(g) && HasLayer(g, i, k) && HasLayer(g, j, m) && (i < j || (i == j && k < m))
    ensures Position(g, i, k) + g.specs[i].page <= Position(g, j, m)
  {
    if i == j {
      MulMono(k + 1, m, g.specs[i].page);
    } else {
      SpecBytesUp(g, i, j);
      MulMono(k + 1, |g.specs[i].layers|, g.specs[i].page);
      MulMono(0, m, g.specs[j].page);
    }
  }

  lemma PositionWithin(g: Packed, i: nat, k: nat)
    requires ValidGroup(g) && HasLayer(g, i, k)
    ensures 0 <= Position(g, i, k) && Position(g, i, k) + g.specs[i].page <= SpecBytes(g.specs, |g.specs|)
  {
    SpecBytesUp(g, i, |g.specs|);
    MulMono(k + 1, |g.specs[i].layers|, g.specs[i].page);
    MulMono(0, k, g.specs[i].page);
  }

  /** Where the planned strides put the page of layer k, block b. */
  lemma AddressOf(g: Packed, i: nat, k: nat, b: nat, layout: Layout, numBlocks: nat, bytesPerBlock: int)
    requires ValidGroup(g) && HasLayer(g, i, k) && b < numBlocks
    ensures Address(TensorFor(g, i, layout, numBlocks, bytesPerBlock), k, b) == match layout
      case BlockOuter => Position(g, i, k) + b * bytesPerBlock
      case LayerOuter => Position(g, i, k) * numBlocks + b * g.specs[i].page
  {
    var page := g.specs[i].page;
    var at := SpecBytes(g.specs, i);
    match layout
    case BlockOuter =>
      DivExact(at, page);
    case LayerOuter =>
      MulMono(1, numBlocks, page);
      assert at * (page * numBlocks) == (at * numBlocks) * page;
      DivExact(at * numBlocks, page);
      assert k * (page * numBlocks) == (k * page) * numBlocks;
      assert Position(g, i, k) * numBlocks == at * numBlocks + (k * page) * numBlocks;
  }

  // ------------------------------------------------------------ pages never collide

  /** Two layers of one group never share a byte, whatever their blocks; nor do two blocks of one layer. */
  lemma SameGroupApart(gs: seq<Packed>, layout: Layout, c: Config, g: nat, i: nat, k: nat, b: nat, j: nat, m: nat,
                       d: nat)
    requires Planned(gs, layout, c) && g < |gs| && gs[g].present
    requires HasLayer(gs[g], i, k) && HasLayer(gs[g], j, m) && b < c.numBlocks && d < c.numBlocks
    requires (i, k, b) != (j, m, d)
    ensures Apart(Address(c.tensors[g][i], k, b), gs[g].specs[i].page, Address(c.tensors[g][j], m, d),
                  gs[g].specs[j].page)
  {
    var bpb := BytesPerBlock(gs);
    AddressOf(gs[g], i, k, b, layout, c.numBlocks, bpb);
    AddressOf(gs[g], j, m, d, layout, c.numBlocks, bpb);
    PositionWithin(gs[g], i, k);
    PositionWithin(gs[g], j, m);
    var x, xPage := Position(gs[g], i, k), gs[g].specs[i].page;
    var y, yPage := Position(gs[g], j, m), gs[g].specs[j].page;
    if i < j || (i == j && k < m) {
      PositionsOrdered(gs[g], i, k, j, m);
    } else if j < i || (i == j && m < k) {
      PositionsOrdered(gs[g], j, m, i, k);
    }
    match layout
    case BlockOuter => SlotsApart(x, xPage, b, y, yPage, d, bpb);
    case LayerOuter => StripesApart(x, xPage, b, y, yPage, d, c.numBlocks);
  }

  /** Different blocks, or ordered positions in one block, of a block-outer packing. */
  lemma SlotsApart(x: int, xPage: int, b: nat, y: int, yPage: int, d: nat, bpb: int)
    requires 0 <= x && x + xPage <= bpb && 0 <= y && y + yPage <= bpb && xPage > 0 && yPage > 0
    requires b != d || x + xPage <= y || y + yPage <= x
    ensures Apart(x + b * bpb, xPage, y + d * bpb, yPage)
  {
    if b < d {
      BlocksOrdered(x, xPage, b, y, d, bpb);
    } else if d < b {
      BlocksOrdered(y, yPage, d, x, b, bpb);
    }
  }

  lemma BlocksOrdered(x: int, xPage: int, b: nat, y: int, d: nat, bpb: int)
    requires x + xPage <= bpb && 0 <= y && b < d && bpb >= 0
    ensures x + b * bpb + xPage <= y + d * bpb
  {
    MulMono(b + 1, d, bpb);
    assert (b + 1) * bpb == b * bpb + bpb;
  }

  /** Ordered positions, or different blocks of one layer, of a layer-outer packing. */
  lemma StripesApart(x: int, xPage: int, b: nat, y: int, yPage: int, d: nat, n: nat)
    requires b < n && d < n && xPage > 0 && yPage > 0
    requires x + xPage <= y || y + yPage <= x || (x == y && xPage == yPage && b != d)
    ensures Apart(x * n + b * xPage, xPage, y * n + d * yPage, yPage)
  {
    if x + xPage <= y {
      StripeEnds(x, xPage, b, y, d, yPage, n);
    } else if y + yPage <= x {
      StripeEnds(y, yPage, d, x, b, xPage, n);
    } else if b < d {
      MulMono(b + 1, d, xPage);
    } else {
      MulMono(d + 1, b, xPage);
    }
  }

  lemma StripeEnds(x: int, xPage: int, b: nat, y: int, d: nat, yPage: int, n: nat)
    requires b < n && x + xPage <= y && xPage > 0 && yPage > 0
    ensures x * n + b * xPage + xPage <= y * n + d * yPage
  {
    MulMono(b + 1, n, xPage);
    MulMono(x + xPage, y, n);
    MulMono(0, d, yPage);
    assert (x + xPage) * n == x * n + xPage * n;
  }

  /** Groups alias from byte 0, so one block id belongs to one group at a time; pages of different
      block ids never share a byte, even across groups. */
  lemma DifferentBlocksApart(gs: seq<Packed>, layout: Layout, c: Config, g: nat, i: nat, k: nat, b: nat, h: nat, j: nat,
                             m: nat, d: nat)
    requires Planned(gs, layout, c) && LayoutAccepted(layout, gs) && g < |gs| && h < |gs| && gs[g].present
    requires gs[h].present
    requires HasLayer(gs[g], i, k) && HasLayer(gs[h], j, m) && b < c.numBlocks && d < c.numBlocks && b != d
    ensures Apart(Address(c.tensors[g][i], k, b), gs[g].specs[i].page, Address(c.tensors[h][j], m, d),
                  gs[h].specs[j].page)
  {
    if g == h {
      SameGroupApart(gs, layout, c, g, i, k, b, j, m, d);
    } else {
      var bpb := BytesPerBlock(gs);
      AddressOf(gs[g], i, k, b, layout, c.numBlocks, bpb);
      AddressOf(gs[h], j, m, d, layout, c.numBlocks, bpb);
      PositionWithin(gs[g], i, k);
      PositionWithin(gs[h], j, m);
      if layout == BlockOuter {
        SlotsApart(Position(gs[g], i, k), gs[g].specs[i].page, b, Position(gs[h], j, m), gs[h].specs[j].page, d, bpb);
      } else {
        var p := gs[g].specs[i].page;
        OnePage(gs, g, p);
        OnePage(gs, h, p);
        var x := WholePages(gs[g], i, k, p);
        var y := WholePages(gs[h], j, m, p);
        LatticeApart(x, b, y, d, c.numBlocks, p);
      }
    }
  }

  /** Under an accepted layer-outer packing of several groups there is a single page size. */
  lemma OnePage(gs: seq<Packed>, g: nat, p: int)
    requires |HeldPages(gs)| == 1 && p in HeldPages(gs) && g < |gs| && gs[g].present
    ensures forall i :: 0 <= i < |gs[g].specs| ==> gs[g].specs[i].page == p
  {
    forall i | 0 <= i < |gs[g].specs| ensures gs[g].specs[i].page == p {
      var q := gs[g].specs[i].page;
      assert gs[g].specs[i] in gs[g].specs;
      assert q in HeldPages(gs);
      SameMember(HeldPages(gs), p, q);
    }
  }

  lemma SameMember(s: set<int>, p: int, q: int)
    requires |s| == 1 && p in s && q in s
    ensures p == q
  {
    assert |s - {p}| == 0;
    assert q !in s - {p};
  }

  /** With one page size every position is a whole number of pages. */
  lemma {:induction false} WholePages(g: Packed, i: nat, k: nat, p: int) returns (x: nat)
    requires ValidGroup(g) && i < |g.specs| && forall n :: 0 <= n < |g.specs| ==> g.specs[n].page == p
    ensures Position(g, i, k) == x * p
    decreases i
  {
    if i == 0 {
      x := k;
    } else {
      var before := WholePages(g, i - 1, |g.specs[i - 1].layers|, p);
      x := before + k;
    }
  }

  /** Page b of row x of a lattice of pages, rows of n pages. */
  lemma LatticeCell(x: int, b: int, n: int, p: int)
    ensures x * p * n + b * p == (x * n + b) * p
  {
    assert x * p * n == (x * n) * p;
  }

  lemma CellsDiffer(x: nat, b: nat, y: nat, d: nat, n: nat)
    requires b < n && d < n && (b != d || x != y)
    ensures x * n + b != y * n + d
  {
    DivModUnique(x * n + b, n, x, b);
    if x * n + b == y * n + d {
      DivModUnique(x * n + b, n, y, d);
    }
  }

  lemma MultiplesApart(u: int, v: int, p: int)
    requires u != v && p > 0
    ensures Apart(u * p, p, v * p, p)
  {
    if u < v { MulMono(u + 1, v, p); } else { MulMono(v + 1, u, p); }
  }

  /** Two different pages of one lattice of pages. */
  lemma LatticeApart(x: nat, b: nat, y: nat, d: nat, n: nat, p: int)
    requires b < n && d < n && (b != d || x != y) && p > 0
    ensures Apart(x * p * n + b * p, p, y * p * n + d * p, p)
  {
    LatticeCell(x, b, n, p);
    LatticeCell(y, d, n, p);
    CellsDiffer(x, b, y, d, n);
    MultiplesApart(x * n + b, y * n + d, p);
  }

  /** Every page of a group lies inside the allocation exactly when its specs are no wider than a
      block; a group the worker holds always is. */
  lemma {:induction false} InsideExactly(gs: seq<Packed>, layout: Layout, c: Config, g: nat)
    requires Planned(gs, layout, c) && g < |gs| && gs[g].specs != [] && c.numBlocks > 0 && BytesPerBlock(gs) > 0
    ensures (forall i: nat, k: nat, b: nat ::
              HasLayer(gs[g], i, k) && b < c.numBlocks ==> PageInside(gs, c, g, i, k, b))
      <==> SpecBytes(gs[g].specs, |gs[g].specs|) <= BytesPerBlock(gs)
    ensures gs[g].present ==> SpecBytes(gs[g].specs, |gs[g].specs|) <= BytesPerBlock(gs)
  {
    if SpecBytes(gs[g].specs, |gs[g].specs|) <= BytesPerBlock(gs) {
      forall i: nat, k: nat, b: nat | HasLayer(gs[g], i, k) && b < c.numBlocks ensures PageInside(gs, c, g, i, k, b) {
        NarrowInside(gs, layout, c, g, i, k, b);
      }
    } else {
      WideOutside(gs, layout, c, g);
    }
  }

  lemma {:induction false} NarrowInside(gs: seq<Packed>, layout: Layout, c: Config, g: nat, i: nat, k: nat, b: nat)
    requires Planned(gs, layout, c) && g < |gs| && HasLayer(gs[g], i, k) && b < c.numBlocks
    requires SpecBytes(gs[g].specs, |gs[g].specs|) <= BytesPerBlock(gs)
    ensures PageInside(gs, c, g, i, k, b)
  {
    AddressOf(gs[g], i, k, b, layout, c.numBlocks, BytesPerBlock(gs));
    PositionWithin(gs[g], i, k);
    InsideStep(Position(gs[g], i, k), gs[g].specs[i].page, b, c.numBlocks, BytesPerBlock(gs));
  }

  /** The last layer's page in the last block sticks out of a group wider than a block. */
  lemma WideOutside(gs: seq<Packed>, layout: Layout, c: Config, g: nat)
    requires Planned(gs, layout, c) && g < |gs| && gs[g].specs != [] && c.numBlocks > 0
    requires SpecBytes(gs[g].specs, |gs[g].specs|) > BytesPerBlock(gs)
    ensures var i := |gs[g].specs| - 1;
      && HasLayer(gs[g], i, |gs[g].specs[i].layers| - 1)
      && !PageInside(gs, c, g, i, |gs[g].specs[i].layers| - 1, c.numBlocks - 1)
  {
    var i := |gs[g].specs| - 1;
    var k, page := |gs[g].specs[i].layers| - 1, gs[g].specs[i].page;
    AddressOf(gs[g], i, k, c.numBlocks - 1, layout, c.numBlocks, BytesPerBlock(gs));
    assert Position(gs[g], i, k) + page == SpecBytes(gs[g].specs, |gs[g].specs|);
    OutsideStep(Position(gs[g], i, k), page, c.numBlocks, BytesPerBlock(gs));
  }

  /** One byte for the layer the worker holds, four for a group it holds nothing of. */
  ghost function AbsentExample(): seq<Packed> {
    [Packed([SpecClass(1, [Name(0, 0)])], true), Packed([SpecClass(4, [Name(1, 0)])], false)]
  }

  lemma AbsentExampleAccepted(layout: Layout)
    ensures ValidGroups(AbsentExample()) && LayoutAccepted(layout, AbsentExample())
  {
    var gs := AbsentExample();
    assert HeldPages(gs) == {1} by {
      assert gs[0] in gs && gs[0].specs[0] in gs[0].specs;
    }
  }

  lemma AbsentExampleBytes()
    ensures BytesPerBlock(AbsentExample()) == 1 && SpecBytes(AbsentExample()[1].specs, 1) == 4
  {
    var gs := AbsentExample();
    assert gs[..1] == [gs[0]] && [gs[0]][..0] == [];
    assert HeldBytes(gs[0]) == 1 && HeldBytes(gs[1]) == 0;
    assert BytesPerBlock([gs[0]]) == 1;
  }

  /** Under both packings the planner accepts these groups and any plan lists a page outside the
      allocation. */
  lemma AbsentGroupSticksOut(layout: Layout, c: Config)
    requires Planned(AbsentExample(), layout, c) && c.numBlocks > 0
    ensures LayoutAccepted(layout, AbsentExample()) && !PageInside(AbsentExample(), c, 1, 0, 0, c.numBlocks - 1)
  {
    AbsentExampleAccepted(layout);
    AbsentExampleBytes();
    WideOutside(AbsentExample(), layout, c, 1);
  }

  ghost predicate PageInside(gs: seq<Packed>, c: Config, g: nat, i: nat, k: nat, b: nat)
    requires g < |gs| && g < |c.tensors| && i < |c.tensors[g]| && i < |gs[g].specs|
  {
    0 <= Address(c.tensors[g][i], k, b) && Address(c.tensors[g][i], k, b) + gs[g].specs[i].page <= c.tensors[g][i].size
  }

  lemma InsideStep(x: int, page: int, b: nat, n: nat, bpb: int)
    requires 0 <= x && x + page <= bpb && b < n && page > 0
    ensures 0 <= x + b * bpb && x + b * bpb + page <= bpb * n
    ensures 0 <= x * n + b * page && x * n + b * page + page <= bpb * n
  {
    MulMono(0, b, bpb);
    MulMono(b + 1, n, bpb);
    MulMono(0, x, n);
    MulMono(0, b, page);
    StripeEnds(x, page, b, bpb, 0, 1, n);
  }

  lemma OutsideStep(x: int, page: int, n: nat, bpb: int)
    requires n > 0 && bpb < x + page
    ensures x + (n - 1) * bpb + page > bpb * n
    ensures x * n + (n - 1) * page + page > bpb * n
  {
    MulMono(bpb + 1, x + page, n);
    assert (x + page) * n == x * n + (n - 1) * page + page;
    assert (bpb + 1) * n == bpb * n + n;
    assert (n - 1) * bpb == bpb * n - bpb;
  }

  /** Two layers of one byte per page in one group, one layer of two bytes in another. */
  ghost function MixedExample(): seq<Packed> {
    [Packed([SpecClass(1, [Name(0, 0), Name(1, 0)])], true), Packed([SpecClass(2, [Name(2, 0)])], true)]
  }

  /** Why mixed page sizes are refused: layer-outer, two groups with pages of 1 and 2 bytes, two
      blocks: block 0 of the second group covers block 1 of the first. */
  lemma MixedLayerOuterCollides()
    ensures var gs := MixedExample();
      var first := TensorFor(gs[0], 0, LayerOuter, 2, BytesPerBlock(gs));
      var second := TensorFor(gs[1], 0, LayerOuter, 2, BytesPerBlock(gs));
      && ValidGroups(gs) && !LayoutAccepted(LayerOuter, gs)
      && !Apart(Address(first, 0, 1), 1, Address(second, 0, 0), 2)
  {
    var gs := MixedExample();
    assert 1 in HeldPages(gs) && 2 in HeldPages(gs) by {
      assert gs[0] in gs && gs[1] in gs && gs[0].specs[0] in gs[0].specs && gs[1].specs[0] in gs[1].specs;
    }
    if |HeldPages(gs)| == 1 {
      SameMember(HeldPages(gs), 1, 2);
    }
  }

  // ------------------------------------------------------------ GLM-5.3-Flash

  /** The recognized grouping: MLA and indexer layers of the attention group, Mamba groups that
      share the MLA slots, and an optional tail group that shares the indexer slots. */
  datatype Glm5 = Glm5(mla: seq<Name>, idx: seq<Name>, mlaPage: int, idxPage: int,
                       mamba: seq<seq<Name>>, tail: seq<Name>)
  {
    ghost predicate Valid() {
      && mla != [] && idx != [] && mlaPage > 0 && idxPage > 0
      && (tail == [] || |tail| == |idx|)
    }

    function BlockBytes(): int { |mla| * mlaPage + |idx| * idxPage }
  }

  /** A layer of the model, by its group and index there. */
  datatype Place = Mla(i: nat) | Mamba(g: nat, i: nat) | Idx(i: nat) | Tail(i: nat)

  /** Layers that get memory: Mamba layers past the last MLA slot do not. */
  predicate Placed(l: Glm5, p: Place) {
    match p
    case Mla(i) => i < |l.mla|
    case Mamba(g, i) => g < |l.mamba| && i < |l.mamba[g]| && i < |l.mla|
    case Idx(i) => i < |l.idx|
    case Tail(i) => i < |l.tail|
  }

  function NameOf(l: Glm5, p: Place): Name
    requires Placed(l, p)
  {
    match p
    case Mla(i) => l.mla[i]
    case Mamba(g, i) => l.mamba[g][i]
    case Idx(i) => l.idx[i]
    case Tail(i) => l.tail[i]
  }

  predicate InMlaSection(p: Place) { p.Mla? || p.Mamba? }

  /** Pages of Mamba and tail layers are padded to those of the layers they share slots with. */
  function PageSize(l: Glm5, p: Place): int { if InMlaSection(p) then l.mlaPage else l.idxPage }

  predicate SameGroup(p: Place, q: Place) {
    match p
    case Mla(_) => q.Mla? || q.Idx?
    case Idx(_) => q.Mla? || q.Idx?
    case Mamba(g, _) => q.Mamba? && q.g == g
    case Tail(_) => q.Tail?
  }

  function OffsetOf(l: Glm5, p: Place, numBlocks: nat): int {
    if InMlaSection(p) then p.i * l.mlaPage * numBlocks
    else |l.mla| * l.mlaPage * numBlocks + p.i * l.idxPage * numBlocks
  }

  function TensorAt(l: Glm5, p: Place, numBlocks: nat): Tensor
    requires Placed(l, p)
  {
    Tensor(l.BlockBytes() * numBlocks, [NameOf(l, p)], PageSize(l, p) * numBlocks, PageSize(l, p),
           OffsetOf(l, p, numBlocks))
  }

  /** ts holds the tensor of every layer that satisfies `wanted` and of no other. */
  ghost predicate Holds(l: Glm5, numBlocks: nat, ts: seq<Tensor>, wanted: Place -> bool) {
    && (forall p :: Placed(l, p) && wanted(p) ==> TensorAt(l, p, numBlocks) in ts)
    && (forall t :: t in ts ==> exists p :: Placed(l, p) && wanted(p) && TensorAt(l, p, numBlocks) == t)
  }

  lemma HoldsMore(l: Glm5, numBlocks: nat, ts: seq<Tensor>, wanted: Place -> bool, p: Place, more: Place -> bool)
    requires Holds(l, numBlocks, ts, wanted) && Placed(l, p)
    requires forall q :: Placed(l, q) ==> (more(q) <==> wanted(q) || q == p)
    ensures Holds(l, numBlocks, ts + [TensorAt(l, p, numBlocks)], more)
  {
    forall t | t in ts + [TensorAt(l, p, numBlocks)]
      ensures exists q :: Placed(l, q) && more(q) && TensorAt(l, q, numBlocks) == t
    {
      if t in ts {
        var q :| Placed(l, q) && wanted(q) && TensorAt(l, q, numBlocks) == t;
        assert more(q);
      } else {
        assert more(p);
      }
    }
  }

  lemma HoldsSame(l: Glm5, numBlocks: nat, ts: seq<Tensor>, wanted: Place -> bool, more: Place -> bool)
    requires Holds(l, numBlocks, ts, wanted)
    requires forall q :: Placed(l, q) ==> (more(q) <==> wanted(q))
    ensures Holds(l, numBlocks, ts, more)
  {
    forall t | t in ts ensures exists q :: Placed(l, q) && more(q) && TensorAt(l, q, numBlocks) == t {
      var q :| Placed(l, q) && wanted(q) && TensorAt(l, q, numBlocks) == t;
      assert more(q);
    }
  }

  ghost function Everywhere(): Place -> bool {
    (p: Place) => true
  }

  /** Layers handled before MLA slot i, and of slot i the MLA layer and g Mamba groups. */
  ghost function BeforeMla(i: nat, g: nat): Place -> bool {
    (p: Place) => (p.Mla? && p.i <= i) || (p.Mamba? && (p.i < i || (p.i == i && p.g < g)))
  }

  ghost function FirstSlots(i: nat): Place -> bool {
    (p: Place) => InMlaSection(p) && p.i < i
  }

  ghost function BeforeIdx(i: nat): Place -> bool {
    (p: Place) => InMlaSection(p) || p.i < i
  }

  method PlanGlm5(l: Glm5, available: nat, override: Option<nat>) returns (numBlocks: nat, ts: seq<Tensor>)
    requires l.Valid()
    ensures l.BlockBytes() > 0 && numBlocks == NumBlocks(available, l.BlockBytes(), override)
    ensures Holds(l, numBlocks, ts, Everywhere())
  {
    MulMono(1, |l.mla|, l.mlaPage);
    MulMono(1, |l.idx|, l.idxPage);
    BlocksFit(available, l.BlockBytes());
    numBlocks := NumBlocks(available, l.BlockBytes(), override);
    ts := [];
    for i := 0 to |l.mla|
      invariant Holds(l, numBlocks, ts, FirstSlots(i))
    {
      ts := PlanMlaSlot(l, numBlocks, i, ts);
    }
    HoldsSame(l, numBlocks, ts, FirstSlots(|l.mla|), BeforeIdx(0));
    for i := 0 to |l.idx|
      invariant Holds(l, numBlocks, ts, BeforeIdx(i))
    {
      ts := PlanIdxSlot(l, numBlocks, i, ts);
    }
    HoldsSame(l, numBlocks, ts, BeforeIdx(|l.idx|), Everywhere());
  }

  /** MLA layer i and the i-th layer of every Mamba group, all at one offset. */
  method PlanMlaSlot(l: Glm5, numBlocks: nat, i: nat, before: seq<Tensor>) returns (ts: seq<Tensor>)
    requires l.Valid() && i < |l.mla| && Holds(l, numBlocks, before, FirstSlots(i))
    ensures Holds(l, numBlocks, ts, FirstSlots(i + 1))
  {
    var size := l.BlockBytes() * numBlocks;
    var offset := i * l.mlaPage * numBlocks;
    var first := Tensor(size, [l.mla[i]], l.mlaPage * numBlocks, l.mlaPage, offset);
    assert first == TensorAt(l, Mla(i), numBlocks);
    ts := before + [first];
    HoldsMore(l, numBlocks, before, FirstSlots(i), Mla(i), BeforeMla(i, 0));
    for g := 0 to |l.mamba|
      invariant Holds(l, numBlocks, ts, BeforeMla(i, g))
    {
      ts := PlanMamba(l, numBlocks, i, g, size, offset, ts);
    }
    HoldsSame(l, numBlocks, ts, BeforeMla(i, |l.mamba|), FirstSlots(i + 1));
  }

  /** The i-th layer of Mamba group g, if it has one, at the offset of MLA slot i. */
  method PlanMamba(l: Glm5, numBlocks: nat, i: nat, g: nat, size: int, offset: int, before: seq<Tensor>)
    returns (ts: seq<Tensor>)
    requires i < |l.mla| && g < |l.mamba| && Holds(l, numBlocks, before, BeforeMla(i, g))
    requires size == l.BlockBytes() * numBlocks && offset == i * l.mlaPage * numBlocks
    ensures Holds(l, numBlocks, ts, BeforeMla(i, g + 1))
  {
    if i >= |l.mamba[g]| {
      HoldsSame(l, numBlocks, before, BeforeMla(i, g), BeforeMla(i, g + 1));
      return before;
    }
    var t := Tensor(size, [l.mamba[g][i]], l.mlaPage * numBlocks, l.mlaPage, offset);
    assert t == TensorAt(l, Mamba(g, i), numBlocks);
    HoldsMore(l, numBlocks, before, BeforeMla(i, g), Mamba(g, i), BeforeMla(i, g + 1));
    ts := before + [t];
  }

  /** Indexer layer i and the tail layer that shares its slot. */
  method PlanIdxSlot(l: Glm5, numBlocks: nat, i: nat, before: seq<Tensor>) returns (ts: seq<Tensor>)
    requires l.Valid() && i < |l.idx| && Holds(l, numBlocks, before, BeforeIdx(i))
    ensures Holds(l, numBlocks, ts, BeforeIdx(i + 1))
  {
    var size := l.BlockBytes() * numBlocks;
    var offset := |l.mla| * l.mlaPage * numBlocks + i * l.idxPage * numBlocks;
    var t := Tensor(size, [l.idx[i]], l.idxPage * numBlocks, l.idxPage, offset);
    assert t == TensorAt(l, Idx(i), numBlocks);
    ts := before + [t];
    ghost var half: Place -> bool := p => BeforeIdx(i)(p) || p == Idx(i);
    HoldsMore(l, numBlocks, before, BeforeIdx(i), Idx(i), half);
    if l.tail != [] {
      var u := Tensor(size, [l.tail[i]], l.idxPage * numBlocks, l.idxPage, offset);
      assert u == TensorAt(l, Tail(i), numBlocks);
      HoldsMore(l, numBlocks, ts, half, Tail(i), BeforeIdx(i + 1));
      ts := ts + [u];
    } else {
      HoldsSame(l, numBlocks, ts, half, BeforeIdx(i + 1));
    }
  }

  /** Page of a placed layer in block b. */
  function PageAddress(l: Glm5, p: Place, b: nat, numBlocks: nat): int
    requires Placed(l, p)
  {
    Address(TensorAt(l, p, numBlocks), 0, b)
  }

  /** Aliased slots never collide: different blocks are disjoint whatever the groups, and so are
      different layers of one group in any blocks. */
  lemma Glm5PagesApart(l: Glm5, p: Place, b: nat, q: Place, d: nat, numBlocks: nat)
    requires l.Valid() && Placed(l, p) && Placed(l, q) && b < numBlocks && d < numBlocks
    requires b != d || (SameGroup(p, q) && p != q)
    ensures Apart(PageAddress(l, p, b, numBlocks), PageSize(l, p), PageAddress(l, q, d, numBlocks), PageSize(l, q))
  {
    var n := numBlocks;
    if InMlaSection(p) && InMlaSection(q) {
      LatticeApart(p.i, b, q.i, d, n, l.mlaPage);
    } else if !InMlaSection(p) && !InMlaSection(q) {
      LatticeApart(p.i, b, q.i, d, n, l.idxPage);
    } else if InMlaSection(p) {
      MlaBeforeIdx(l, p, b, q, d, n);
    } else {
      MlaBeforeIdx(l, q, d, p, b, n);
    }
  }

  /** A slot of the MLA section ends before the indexer section starts. */
  lemma MlaBeforeIdx(l: Glm5, p: Place, b: nat, q: Place, d: nat, n: nat)
    requires l.Valid() && Placed(l, p) && Placed(l, q) && b < n && d < n && InMlaSection(p) && !InMlaSection(q)
    ensures PageAddress(l, p, b, n) + l.mlaPage <= |l.mla| * l.mlaPage * n <= PageAddress(l, q, d, n)
  {
    SlotEnd(p.i, |l.mla|, b, n, l.mlaPage);
    MulMono(0, q.i, l.idxPage);
    MulMono(0, q.i * l.idxPage, n);
    MulMono(0, d, l.idxPage);
  }

  lemma SlotEnd(i: nat, slots: nat, b: nat, n: nat, page: int)
    requires i < slots && b < n && page > 0
    ensures 0 <= i * page * n + b * page && i * page * n + b * page + page <= slots * page * n
  {
    MulMono(0, i, page);
    MulMono(i + 1, slots, page);
    MulMono(0, b, page);
    InsideStep(i * page, page, b, n, slots * page);
  }

  /** Every page of every placed layer lies inside the allocation. */
  lemma Glm5PagesInside(l: Glm5, p: Place, b: nat, numBlocks: nat)
    requires l.Valid() && Placed(l, p) && b < numBlocks
    ensures 0 <= PageAddress(l, p, b, numBlocks)
    ensures PageAddress(l, p, b, numBlocks) + PageSize(l, p) <= TensorAt(l, p, numBlocks).size
  {
    var n := numBlocks;
    assert l.BlockBytes() * n == |l.mla| * l.mlaPage * n + |l.idx| * l.idxPage * n;
    MulMono(0, |l.mla|, l.mlaPage);
    MulMono(0, |l.mla| * l.mlaPage, n);
    MulMono(0, |l.idx|, l.idxPage);
    MulMono(0, |l.idx| * l.idxPage, n);
    if InMlaSection(p) {
      SlotEnd(p.i, |l.mla|, b, n, l.mlaPage);
    } else {
      SlotEnd(p.i, |l.idx|, b, n, l.idxPage);
    }
  }
}
