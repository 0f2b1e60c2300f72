/** The indexer's prefill rows split over tensor-parallel ranks: row slices, the per-rank row block
    with its -1 padding, the gather in rank order, and the copy into the shared buffers. */
module IndexerSplit {
  import opened Arith
  import opened Wrappers

  const ROW_ALIGN: int := 64

  /** Rows per rank, rounded up to the alignment. */
  function PerRank(numRows: nat, world: nat): int
    requires world > 0
  {
    CeilDiv(CeilDiv(numRows, world), ROW_ALIGN) * ROW_ALIGN
  }

  /** Rank's slice [lo, hi) and the padded row count. */
  function Bounds(numRows: nat, world: nat, rank: nat): (int, int, int)
    requires world > 0
  {
    var per := PerRank(numRows, world);
    var lo := Min(rank * per, numRows);
    (lo, Min(lo + per, numRows), per)
  }

  lemma PerRankCovers(numRows: nat, world: nat)
    requires world > 0
    ensures PerRank(numRows, world) >= 0 && PerRank(numRows, world) % 64 == 0
    ensures PerRank(numRows, world) * world >= numRows
    ensures numRows > 0 ==> PerRank(numRows, world) > 0
  {
    var q := CeilDiv(numRows, world);
    CeilDivBounds(numRows, world);
    CeilDivBounds(q, ROW_ALIGN);
    DivExact(CeilDiv(q, ROW_ALIGN), ROW_ALIGN);
    MulMono(q, PerRank(numRows, world), world);
  }

  /** No smaller multiple of 64 rows per rank covers the chunk. */
  lemma PerRankIsLeast(numRows: nat, world: nat, k: int)
    requires world > 0 && k * ROW_ALIGN * world >= numRows
    ensures PerRank(numRows, world) <= k * ROW_ALIGN
  {
    CeilDivLeast(numRows, world, k * ROW_ALIGN);
    CeilDivLeast(CeilDiv(numRows, world), ROW_ALIGN, k);
  }

  lemma SliceOfIndex(i: nat, n: nat, per: int, world: nat)
    requires per > 0 && i < n && per * world >= n
    ensures 0 <= i / per < world && 0 <= i % per < per
    ensures 0 <= i / per * per <= i < i / per * per + per && i / per * per + i % per == i
  {
    var r := i / per;
    assert i == r * per + i % per;
    if r >= world { MulMono(world, r, per); }
    MulMono(0, r, per);
  }

  /** The slices are consecutive, aligned and cover every row: row i is the (i mod per)-th row of
      rank i / per. */
  lemma SliceOfRow(numRows: nat, world: nat, i: nat)
    requires world > 0 && i < numRows
    ensures var per := PerRank(numRows, world);
      && per > 0 && 0 <= i / per < world
      && Bounds(numRows, world, i / per).0 == i / per * per
      && Bounds(numRows, world, i / per).0 + i % per == i < Bounds(numRows, world, i / per).1
  {
    PerRankCovers(numRows, world);
    SliceOfIndex(i, numRows, PerRank(numRows, world), world);
  }

  lemma BoundsInside(numRows: nat, world: nat, rank: nat)
    requires world > 0
    ensures var (lo, hi, per) := Bounds(numRows, world, rank); 0 <= lo <= hi <= numRows && hi - lo <= per
  {
    PerRankCovers(numRows, world);
    MulMono(0, rank, PerRank(numRows, world));
  }

  /** How this layer uses the candidate blocks. */
  datatype Candidates = Unused | Write | Read

  /** The per-row kernels: top-k of a row's logits, optionally masked to candidate blocks, and the
      candidate blocks of a row. Q is a row's query, scale and weights; B its bounds in the index. */
  datatype Kernels<!Q, !B> = Kernels(topK: (Q, B, Option<seq<int>>) -> seq<int>, select: (Q, B) -> seq<int>,
                                     width: nat, blocks: nat)

  ghost predicate ValidKernels<Q(!new), B(!new)>(k: Kernels<Q, B>) {
    && (forall q, b, c :: |k.topK(q, b, c)| == k.width)
    && (forall q, b :: |k.select(q, b)| == k.blocks)
  }

  /** The row of ids that travels in the gather. */
  function RowOut<Q, B>(k: Kernels<Q, B>, q: Q, b: B, mode: Candidates, blocks: seq<int>): seq<int> {
    match mode
    case Unused => k.topK(q, b, None)
    case Read => k.topK(q, b, Some(blocks))
    case Write => k.topK(q, b, None) + k.select(q, b)
  }

  function Padding<Q, B>(k: Kernels<Q, B>, mode: Candidates): seq<int> {
    seq(k.width + if mode.Write? then k.blocks else 0, _ => -1)
  }

  /** One rank's rows, padded with -1 to `per`. */
  method RowsLocal<Q, B>(k: Kernels<Q, B>, q: seq<Q>, bounds: seq<B>, blocks: seq<seq<int>>, mode: Candidates, per: nat)
    returns (out: seq<seq<int>>)
    requires |q| == |bounds| == |blocks| <= per
    ensures |out| == per
    ensures forall i :: 0 <= i < |q| ==> out[i] == RowOut(k, q[i], bounds[i], mode, blocks[i])
    ensures forall i :: |q| <= i < per ==> |out[i]| == k.width + if mode.Write? then k.blocks else 0
    ensures forall i, c :: |q| <= i < per && 0 <= c < |out[i]| ==> out[i][c] == -1
  {
    out := seq(per, _ => Padding(k, mode));
    for i := 0 to |q|
      invariant |out| == per
      invariant forall j :: 0 <= j < i ==> out[j] == RowOut(k, q[j], bounds[j], mode, blocks[j])
      invariant forall j :: i <= j < per ==> out[j] == Padding(k, mode)
    {
      out := out[i := RowOut(k, q[i], bounds[i], mode, blocks[i])];
    }
  }

  /** Copy the first numRows gathered rows into the buffers. */
  method ScatterGathered<Q, B>(k: Kernels<Q, B>, gathered: seq<seq<int>>, numRows: nat, start: nat, mode: Candidates,
                               topK: array<seq<int>>, blocks: array<seq<int>>)
    requires numRows <= |gathered| && start + numRows <= topK.Length && start + numRows <= blocks.Length
    requires topK != blocks
    requires forall i :: 0 <= i < numRows ==> |gathered[i]| >= k.width
    modifies topK, blocks
    ensures forall i :: 0 <= i < topK.Length ==>
      topK[i] == if start <= i < start + numRows then gathered[i - start][..k.width] else old(topK[i])
    ensures forall i :: 0 <= i < blocks.Length ==>
      blocks[i] == if mode.Write? && start <= i < start + numRows then gathered[i - start][k.width..]
        else old(blocks[i])
  {
    for i := 0 to numRows
      invariant forall j :: 0 <= j < topK.Length ==>
        topK[j] == if start <= j < start + i then gathered[j - start][..k.width] else old(topK[j])
      invariant forall j :: 0 <= j < blocks.Length ==>
        blocks[j] == if mode.Write? && start <= j < start + i then gathered[j - start][k.width..] else old(blocks[j])
    {
      topK[start + i] := gathered[i][..k.width];
      if mode.Write? {
        blocks[start + i] := gathered[i][k.width..];
      }
    }
  }

  /** Where a rank's slice starts, and that it reaches to the next rank's or to the end. */
  lemma SliceStart(numRows: nat, world: nat, rank: nat)
    requires world > 0
    ensures var (lo, hi, per) := Bounds(numRows, world, rank);
      && 0 <= lo <= hi <= numRows && hi - lo <= per
      && (rank * per < numRows ==> lo == rank * per && hi == Min(rank * per + per, numRows))
  {
    BoundsInside(numRows, world, rank);
  }

  /** Rank r's slice of the chunk, computed alone. */
  method RankRows<Q, B>(k: Kernels<Q, B>, q: seq<Q>, bounds: seq<B>, blocks: seq<seq<int>>, mode: Candidates,
                        world: nat, rank: nat)
    returns (out: seq<seq<int>>)
    requires |q| == |bounds| == |blocks| && rank < world
    ensures |out| == PerRank(|q|, world)
    ensures forall j :: 0 <= j < |out| && 0 <= rank * PerRank(|q|, world) + j < |q| ==>
      var i := rank * PerRank(|q|, world) + j;
      out[j] == RowOut(k, q[i], bounds[i], mode, blocks[i])
  {
    var (lo, hi, per) := Bounds(|q|, world, rank);
    SliceStart(|q|, world, rank);
    out := RowsLocal(k, q[lo..hi], bounds[lo..hi], blocks[lo..hi], mode, per);
  }

  /** Every rank's rows, concatenated in rank order: the first rows are the chunk's, in order. */
  method GatherRanks<Q(!new), B(!new)>(k: Kernels<Q, B>, q: seq<Q>, bounds: seq<B>, blocks: seq<seq<int>>,
                                       mode: Candidates, world: nat)
    returns (gathered: seq<seq<int>>)
    requires |q| == |bounds| == |blocks| && world > 0
    ensures |gathered| >= |q|
    ensures forall i :: 0 <= i < |q| ==> gathered[i] == RowOut(k, q[i], bounds[i], mode, blocks[i])
  {
    var per := PerRank(|q|, world);
    PerRankCovers(|q|, world);
    gathered := [];
    for rank := 0 to world
      invariant |gathered| == rank * per
      invariant forall i :: 0 <= i < |q| && i < |gathered| ==>
        gathered[i] == RowOut(k, q[i], bounds[i], mode, blocks[i])
    {
      var out := RankRows(k, q, bounds, blocks, mode, world, rank);
      gathered := gathered + out;
      assert (rank + 1) * per == rank * per + per;
    }
    assert per * world == world * per;
  }

  /** A chunk's effect: top-k rows of the chunk, candidate blocks if this layer writes them, and no
      other row of either buffer. */
  ghost predicate ChunkDone<Q(!new), B(!new)>(k: Kernels<Q, B>, q: seq<Q>, bounds: seq<B>, start: nat, mode: Candidates,
                                              topK0: seq<seq<int>>, blocks0: seq<seq<int>>,
                                              topK: seq<seq<int>>, blocks: seq<seq<int>>)
    requires start + |bounds| <= |q| && start + |bounds| <= |topK0| && start + |bounds| <= |blocks0|
  {
    && |topK| == |topK0| && |blocks| == |blocks0|
    && (forall i :: 0 <= i < |topK| ==>
         topK[i] == if start <= i < start + |bounds| then RowTopK(k, q[i], bounds[i - start], mode, blocks0[i])
                    else topK0[i])
    && (forall i :: 0 <= i < |blocks| ==>
         blocks[i] == if mode.Write? && start <= i < start + |bounds| then k.select(q[i], bounds[i - start])
                      else blocks0[i])
  }

  /** A row's top-k: masked to its candidate blocks if this layer reads them. */
  ghost function RowTopK<Q, B>(k: Kernels<Q, B>, q: Q, b: B, mode: Candidates, blocks: seq<int>): seq<int> {
    k.topK(q, b, if mode.Read? then Some(blocks) else None)
  }

  /** A split prefill chunk, all ranks and the gather in rank order. */
  method PrefillChunkSplit<Q(!new), B(!new)>(k: Kernels<Q, B>, q: seq<Q>, bounds: seq<B>, start: nat, mode: Candidates,
                                             world: nat, topK: array<seq<int>>, blocks: array<seq<int>>)
    requires ValidKernels(k) && world > 0 && start + |bounds| <= |q| && topK != blocks
    requires start + |bounds| <= topK.Length && start + |bounds| <= blocks.Length
    modifies topK, blocks
    ensures ChunkDone(k, q, bounds, start, mode, old(topK[..]), old(blocks[..]), topK[..], blocks[..])
  {
    var n := |bounds|;
    var gathered := GatherRanks(k, q[start..start + n], bounds, blocks[start..start + n], mode, world);
    ScatterGathered(k, gathered, n, start, mode, topK, blocks);
  }

  /** The unsplit chunk: the kernels run over all rows, on every rank alike. */
  method PrefillChunkWhole<Q(!new), B(!new)>(k: Kernels<Q, B>, q: seq<Q>, bounds: seq<B>, start: nat, mode: Candidates,
                                             topK: array<seq<int>>, blocks: array<seq<int>>)
    requires start + |bounds| <= |q| && topK != blocks
    requires start + |bounds| <= topK.Length && start + |bounds| <= blocks.Length
    modifies topK, blocks
    ensures ChunkDone(k, q, bounds, start, mode, old(topK[..]), old(blocks[..]), topK[..], blocks[..])
  {
    if mode.Write? {
      SelectRows(k, q, bounds, start, blocks);
    }
    TopKRows(k, q, bounds, start, mode, topK, blocks);
  }

  /** The candidate blocks of every row of the chunk. */
  method SelectRows<Q, B>(k: Kernels<Q, B>, q: seq<Q>, bounds: seq<B>, start: nat, blocks: array<seq<int>>)
    requires start + |bounds| <= |q| && start + |bounds| <= blocks.Length
    modifies blocks
    ensures forall j :: 0 <= j < blocks.Length ==>
      blocks[j] == if start <= j < start + |bounds| then k.select(q[j], bounds[j - start]) else old(blocks[j])
  {
    for i := 0 to |bounds|
      invariant forall j :: 0 <= j < blocks.Length ==>
        blocks[j] == if start <= j < start + i then k.select(q[j], bounds[j - start]) else old(blocks[j])
    {
      blocks[start + i] := k.select(q[start + i], bounds[i]);
    }
  }

  /** The top-k of every row of the chunk. */
  method TopKRows<Q(!new), B(!new)>(k: Kernels<Q, B>, q: seq<Q>, bounds: seq<B>, start: nat, mode: Candidates,
                                    topK: array<seq<int>>, blocks: array<seq<int>>)
    requires start + |bounds| <= |q| && topK != blocks
    requires start + |bounds| <= topK.Length && start + |bounds| <= blocks.Length
    modifies topK
    ensures forall j :: 0 <= j < topK.Length ==>
      topK[j] == if start <= j < start + |bounds| then RowTopK(k, q[j], bounds[j - start], mode, blocks[j])
                 else old(topK[j])
  {
    for i := 0 to |bounds|
      invariant forall j :: 0 <= j < topK.Length ==>
        topK[j] == if start <= j < start + i then RowTopK(k, q[j], bounds[j - start], mode, blocks[j])
                   else old(topK[j])
    {
      var at := start + i;
      topK[at] := k.topK(q[at], bounds[i], if mode.Read? then Some(blocks[at]) else None);
    }
  }

  /** Rows are split only for large enough chunks that no other parallelism shards already. */
  function SplitWorld(enabled: bool, numRows: nat, minRows: nat, dcp: nat, pcp: bool, cuda: bool, tp: nat): (w: nat) {
    if !enabled || numRows < minRows then 1
    else if dcp > 1 || pcp || !cuda then 1
    else if tp <= 1 then 1
    else tp
  }

  /** One chunk of the prefill loop, up to the merge over context-parallel ranks: the outcome does not
      depend on whether the settings, the platform and the other parallelism let its rows be split. A
      chunk without keys selects nothing. */
  method PrefillChunk<Q(!new), B(!new)>(k: Kernels<Q, B>, q: seq<Q>, bounds: seq<B>, start: nat, mode: Candidates,
                                        hasKeys: bool, enabled: bool, minRows: nat, dcp: nat, pcp: bool, cuda: bool,
                                        tp: nat,
                                        topK: array<seq<int>>, blocks: array<seq<int>>)
    requires ValidKernels(k) && start + |bounds| <= |q| && topK != blocks
    requires start + |bounds| <= topK.Length && start + |bounds| <= blocks.Length
    modifies topK, blocks
    ensures hasKeys ==> ChunkDone(k, q, bounds, start, mode, old(topK[..]), old(blocks[..]), topK[..], blocks[..])
    ensures !hasKeys ==> blocks[..] == old(blocks[..]) && forall i :: 0 <= i < topK.Length ==>
      topK[i] == if start <= i < start + |bounds| then seq(k.width, _ => -1) else old(topK[i])
  {
    var world := SplitWorld(enabled, |bounds|, minRows, dcp, pcp, cuda, tp);
    if world > 1 && hasKeys {
      PrefillChunkSplit(k, q, bounds, start, mode, world, topK, blocks);
    } else if hasKeys {
      PrefillChunkWhole(k, q, bounds, start, mode, topK, blocks);
    } else {
      for i := 0 to |bounds|
        invariant blocks[..] == old(blocks[..])
        invariant forall j :: 0 <= j < topK.Length ==>
          topK[j] == if start <= j < start + i then seq(k.width, _ => -1) else old(topK[j])
      {
        topK[start + i] := seq(k.width, _ => -1);
      }
    }
  }
}
