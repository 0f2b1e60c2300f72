/** The prefill chunk plan: a greedy partition of the prefill requests into chunks whose gather
    workspace stays within a bound. */
module PrefillPlan {
  import opened Arith
  import opened Wrappers

  /** One chunk [start, end) with its widest compressed region and its row width. */
  datatype Chunk = Chunk(start: int, end: int, maxCompressed: int, width: int)

  datatype Limits = Limits(chunkSize: nat, maxModelLen: nat, window: nat, maxBatchedTokens: nat)

  /** Widths of request i: compressed prefix and gathered suffix. */
  datatype Widths = Widths(compressed: seq<int>, gather: seq<int>)
  {
    ghost predicate Valid() { |compressed| == |gather| }
    function Size(): int { |compressed| }
  }

  // ------------------------------------------------------------ widths

  function HasCompressed(explicit: Option<bool>, ratio: int): bool {
    if explicit.Some? then explicit.value else ratio > 1
  }

  /** torch.clamp with both bounds: the upper bound wins when they cross. */
  function Clamp(x: int, lo: int, hi: int): int {
    Min(Max(x, lo), hi)
  }

  function GatherLen(l: Limits, seqLen: int, queryLen: int): int {
    queryLen + Clamp(seqLen - queryLen, 0, l.window - 1)
  }

  function CompressedLen(has: bool, ratio: int, seqLen: int): int
    requires has ==> ratio > 0
  {
    if has then seqLen / ratio else 0
  }

  function WidthsOf(l: Limits, seqLens: seq<int>, queryLens: seq<int>, has: bool, ratio: int): (w: Widths)
    requires |seqLens| == |queryLens| && (has ==> ratio > 0)
    ensures w.Valid() && w.Size() == |seqLens|
  {
    Widths(
      seq(|seqLens|, i requires 0 <= i < |seqLens| => CompressedLen(has, ratio, seqLens[i])),
      seq(|seqLens|, i requires 0 <= i < |seqLens| => GatherLen(l, seqLens[i], queryLens[i])))
  }

  function WorkspaceArea(l: Limits, has: bool, ratio: int): int
    requires has ==> ratio > 0
  {
    l.chunkSize * ((if has then CeilDiv(l.maxModelLen, ratio) else 0) + l.window + l.maxBatchedTokens)
  }

  // ------------------------------------------------------------ chunks and plans

  function MaxIn(s: seq<int>, a: int, b: int): (m: int)
    requires 0 <= a < b <= |s|
    decreases b - a
  {
    if b == a + 1 then s[a] else Max(MaxIn(s, a, b - 1), s[b - 1])
  }

  /** Workspace the requests a .. b - 1 need when gathered together. */
  function Area(w: Widths, a: int, b: int): int
    requires w.Valid() && 0 <= a < b <= w.Size()
  {
    (b - a) * (MaxIn(w.compressed, a, b) + MaxIn(w.gather, a, b))
  }

  /** A plan: boundaries 0 = c0 < c1 < ... < ck = n. */
  ghost predicate IsPlan(cuts: seq<int>, n: int) {
    && |cuts| >= 1 && cuts[0] == 0 && cuts[|cuts| - 1] == n
    && forall i, j :: 0 <= i < j < |cuts| ==> cuts[i] < cuts[j]
  }

  ghost predicate WithinBound(w: Widths, cuts: seq<int>, area: int)
    requires w.Valid() && IsPlan(cuts, w.Size())
  {
    forall i {:trigger cuts[i]} :: 0 <= i < |cuts| - 1 ==> ChunkFits(w, cuts, i, area)
  }

  ghost predicate ChunkFits(w: Widths, cuts: seq<int>, i: int, area: int)
    requires w.Valid() && IsPlan(cuts, w.Size()) && 0 <= i < |cuts| - 1
  {
    CutsOrdered(cuts, w.Size(), i);
    Area(w, cuts[i], cuts[i + 1]) <= area
  }

  lemma {:induction false} CutsUp(cuts: seq<int>, n: int, i: int, j: int)
    requires IsPlan(cuts, n) && 0 <= i <= j < |cuts|
    ensures cuts[i] + (j - i) <= cuts[j]
    decreases j - i
  {
    if i < j {
      CutsUp(cuts, n, i, j - 1);
    }
  }

  lemma CutsOrdered(cuts: seq<int>, n: int, i: int)
    requires IsPlan(cuts, n) && 0 <= i < |cuts| - 1
    ensures 0 <= cuts[i] < cuts[i + 1] <= n
  {
  }

  /** The cuts of a chunk list. */
  function Cuts(chunks: seq<Chunk>): seq<int> {
    if chunks == [] then [0] else Cuts(chunks[..|chunks| - 1]) + [chunks[|chunks| - 1].end]
  }

  ghost predicate DescribesChunk(w: Widths, c: Chunk)
    requires w.Valid()
  {
    && 0 <= c.start < c.end <= w.Size()
    && c.maxCompressed == MaxIn(w.compressed, c.start, c.end)
    && c.width == MaxIn(w.compressed, c.start, c.end) + MaxIn(w.gather, c.start, c.end)
  }

  /** The chunk cannot take one more request, or there is none. */
  ghost predicate Maximal(w: Widths, c: Chunk, area: int)
    requires w.Valid() && DescribesChunk(w, c)
  {
    && (c.end - c.start > 1 ==> Area(w, c.start, c.end) <= area)
    && (c.end < w.Size() ==> Area(w, c.start, c.end + 1) > area)
  }

  /** Contiguous chunks from 0, each described by its fields and greedily extended. */
  ghost predicate GreedyUpTo(w: Widths, chunks: seq<Chunk>, area: int, upto: int)
    requires w.Valid()
  {
    && (forall i :: 0 <= i < |chunks| ==> DescribesChunk(w, chunks[i]) && Maximal(w, chunks[i], area))
    && (forall i :: 0 < i < |chunks| ==> chunks[i].start == chunks[i - 1].end)
    && (chunks != [] ==> chunks[0].start == 0 && chunks[|chunks| - 1].end == upto)
    && (chunks == [] ==> upto == 0)
  }

  /** Extends one chunk from start as far as the area allows. */
  method ExtendChunk(w: Widths, start: int, area: int) returns (c: Chunk)
    requires w.Valid() && 0 <= start < w.Size()
    ensures c.start == start && DescribesChunk(w, c) && Maximal(w, c, area)
  {
    var maxCompressed, maxGather, end := w.compressed[start], w.gather[start], start + 1;
    while end < w.Size()
      invariant start < end <= w.Size()
      invariant maxCompressed == MaxIn(w.compressed, start, end) && maxGather == MaxIn(w.gather, start, end)
      invariant end - start > 1 ==> Area(w, start, end) <= area
    {
      var candCompressed := Max(maxCompressed, w.compressed[end]);
      var candGather := Max(maxGather, w.gather[end]);
      if (end - start + 1) * (candCompressed + candGather) > area {
        break;
      }
      maxCompressed, maxGather, end := candCompressed, candGather, end + 1;
    }
    c := Chunk(start, end, maxCompressed, maxCompressed + maxGather);
  }

  method GetPrefillChunkPlan(l: Limits, seqLens: seq<int>, queryLens: seq<int>, ratio: int, explicit: Option<bool>)
    returns (plan: seq<Chunk>)
    requires |seqLens| == |queryLens| && (HasCompressed(explicit, ratio) ==> ratio > 0)
    ensures GreedyUpTo(WidthsOf(l, seqLens, queryLens, HasCompressed(explicit, ratio), ratio), plan,
                       WorkspaceArea(l, HasCompressed(explicit, ratio), ratio), |seqLens|)
  {
    var has := HasCompressed(explicit, ratio);
    var widths := WidthsOf(l, seqLens, queryLens, has, ratio);
    plan := [];
    if |seqLens| == 0 {
      return;
    }
    var area := WorkspaceArea(l, has, ratio);
    var start := 0;
    while start < |seqLens|
      invariant 0 <= start <= |seqLens| && GreedyUpTo(widths, plan, area, start)
    {
      var c := ExtendChunk(widths, start, area);
      GreedyAppend(widths, plan, area, start, c);
      plan := plan + [c];
      start := c.end;
    }
  }

  lemma GreedyAppend(w: Widths, chunks: seq<Chunk>, area: int, upto: int, c: Chunk)
    requires w.Valid() && GreedyUpTo(w, chunks, area, upto)
    requires c.start == upto && DescribesChunk(w, c) && Maximal(w, c, area)
    ensures GreedyUpTo(w, chunks + [c], area, c.end)
  {
  }

  // ------------------------------------------------------------ safety

  lemma {:induction false} MaxInBounds(s: seq<int>, a: int, b: int, i: int)
    requires 0 <= a <= i < b <= |s|
    ensures s[i] <= MaxIn(s, a, b)
    decreases b - a
  {
    if i < b - 1 {
      MaxInBounds(s, a, b - 1, i);
    }
  }

  lemma {:induction false} MaxInAttained(s: seq<int>, a: int, b: int) returns (i: int)
    requires 0 <= a < b <= |s|
    ensures a <= i < b && s[i] == MaxIn(s, a, b)
    decreases b - a
  {
    if b == a + 1 {
      i := a;
    } else if s[b - 1] >= MaxIn(s, a, b - 1) {
      i := b - 1;
    } else {
      i := MaxInAttained(s, a, b - 1);
    }
  }

  ghost predicate NonNegative(w: Widths) {
    w.Valid() && forall i :: 0 <= i < w.Size() ==> w.compressed[i] >= 0 && w.gather[i] >= 0
  }

  lemma {:induction false} MaxMonotone(s: seq<int>, a: int, b: int, a': int, b': int)
    requires 0 <= a <= a' < b' <= b <= |s|
    ensures MaxIn(s, a', b') <= MaxIn(s, a, b)
  {
    var i := MaxInAttained(s, a', b');
    MaxInBounds(s, a, b, i);
  }

  lemma {:induction false} MaxNonNegative(s: seq<int>, a: int, b: int)
    requires 0 <= a < b <= |s| && forall i :: 0 <= i < |s| ==> s[i] >= 0
    ensures MaxIn(s, a, b) >= 0
  {
    MaxInBounds(s, a, b, a);
  }

  lemma MulBoth(n: int, n': int, x: int, x': int)
    requires 0 <= n' <= n && 0 <= x' <= x
    ensures n' * x' <= n * x
  {
    MulMono(n', n, x');
    MulMono(x', x, n);
    assert n * x' == x' * n && n * x == x * n;
  }

  /** A part of a chunk needs no more workspace than the chunk. */
  lemma AreaMonotone(w: Widths, a: int, b: int, a': int, b': int)
    requires NonNegative(w) && 0 <= a <= a' < b' <= b <= w.Size()
    ensures Area(w, a', b') <= Area(w, a, b)
  {
    MaxMonotone(w.compressed, a, b, a', b');
    MaxMonotone(w.gather, a, b, a', b');
    MaxNonNegative(w.compressed, a', b');
    MaxNonNegative(w.gather, a', b');
    MulBoth(b - a, b' - a', MaxIn(w.compressed, a, b) + MaxIn(w.gather, a, b),
            MaxIn(w.compressed, a', b') + MaxIn(w.gather, a', b'));
  }

  /** Non-empty chunks, each starting where the one before it ends, from 0 to upto. */
  ghost predicate Contiguous(chunks: seq<Chunk>, upto: int) {
    && (forall i :: 0 <= i < |chunks| ==> chunks[i].start < chunks[i].end)
    && (forall i :: 0 < i < |chunks| ==> chunks[i].start == chunks[i - 1].end)
    && (if chunks == [] then upto == 0 else chunks[0].start == 0 && chunks[|chunks| - 1].end == upto)
  }

  lemma {:induction false} CutsOfContiguous(chunks: seq<Chunk>, upto: int)
    requires Contiguous(chunks, upto)
    ensures IsPlan(Cuts(chunks), upto) && |Cuts(chunks)| == |chunks| + 1
    ensures forall i :: 0 <= i < |chunks| ==> Cuts(chunks)[i] == chunks[i].start && Cuts(chunks)[i + 1] == chunks[i].end
  {
    if chunks != [] {
      var n := |chunks| - 1;
      CutsOfContiguous(chunks[..n], chunks[n].start);
    }
  }

  lemma {:induction false} CutsOfGreedy(w: Widths, chunks: seq<Chunk>, area: int, upto: int)
    requires w.Valid() && GreedyUpTo(w, chunks, area, upto)
    ensures IsPlan(Cuts(chunks), upto) && |Cuts(chunks)| == |chunks| + 1
    ensures forall i :: 0 <= i < |chunks| ==> Cuts(chunks)[i] == chunks[i].start && Cuts(chunks)[i + 1] == chunks[i].end
  {
    forall i | 0 <= i < |chunks| ensures chunks[i].start < chunks[i].end {
      assert DescribesChunk(w, chunks[i]);
    }
    CutsOfContiguous(chunks, upto);
  }

  /** Every single request fits on its own. */
  ghost predicate EachFits(w: Widths, area: int)
    requires w.Valid()
  {
    forall i :: 0 <= i < w.Size() ==> w.compressed[i] + w.gather[i] <= area
  }

  lemma BoundedPlanEachFits(w: Widths, cuts: seq<int>, area: int)
    requires NonNegative(w) && IsPlan(cuts, w.Size()) && WithinBound(w, cuts, area)
    ensures EachFits(w, area)
  {
    forall i | 0 <= i < w.Size() ensures w.compressed[i] + w.gather[i] <= area {
      var k := ChunkOf(cuts, w.Size(), i);
      assert ChunkFits(w, cuts, k, area);
      AreaMonotone(w, cuts[k], cuts[k + 1], i, i + 1);
    }
  }

  /** A greedy chunk of requests that fit one by one is within the bound. */
  lemma GreedyChunkFits(w: Widths, chunks: seq<Chunk>, area: int, k: nat)
    requires NonNegative(w) && GreedyUpTo(w, chunks, area, w.Size()) && EachFits(w, area) && k < |chunks|
    ensures 0 <= chunks[k].start < chunks[k].end <= w.Size() && Area(w, chunks[k].start, chunks[k].end) <= area
  {
    var c := chunks[k];
    assert DescribesChunk(w, c) && Maximal(w, c, area);
    if c.end - c.start == 1 {
      assert w.compressed[c.start] + w.gather[c.start] <= area;
    }
  }

  /** The plan is non-empty contiguous chunks covering all requests in order, and every chunk is
      within the workspace bound if and only if every single request is. */
  lemma {:induction false} PlanSafe(w: Widths, chunks: seq<Chunk>, area: int)
    requires NonNegative(w) && GreedyUpTo(w, chunks, area, w.Size())
    ensures IsPlan(Cuts(chunks), w.Size())
    ensures WithinBound(w, Cuts(chunks), area) <==> EachFits(w, area)
  {
    CutsOfGreedy(w, chunks, area, w.Size());
    var cuts := Cuts(chunks);
    if WithinBound(w, cuts, area) {
      BoundedPlanEachFits(w, cuts, area);
    }
    if EachFits(w, area) {
      forall k | 0 <= k < |cuts| - 1 ensures ChunkFits(w, cuts, k, area) {
        GreedyChunkFits(w, chunks, area, k);
      }
    }
  }

  lemma {:induction false} ChunkOf(cuts: seq<int>, n: int, i: int) returns (k: int)
    requires IsPlan(cuts, n) && 0 <= i < n
    ensures 0 <= k < |cuts| - 1 && cuts[k] <= i < cuts[k + 1]
  {
    k := 0;
    while cuts[k + 1] <= i
      invariant 0 <= k < |cuts| - 1 && cuts[k] <= i
      decreases |cuts| - k
    {
      k := k + 1;
    }
  }

  /** Lengths that respect the model and batch limits. */
  ghost predicate RespectsLimits(l: Limits, seqLens: seq<int>, queryLens: seq<int>) {
    && |seqLens| == |queryLens| && l.window >= 1
    && forall i :: 0 <= i < |seqLens| ==>
         0 <= queryLens[i] <= seqLens[i] <= l.maxModelLen && queryLens[i] <= l.maxBatchedTokens
  }

  /** One request's width is below the per-request share of the bound. */
  lemma RequestWidth(l: Limits, seqLens: seq<int>, queryLens: seq<int>, has: bool, ratio: int, i: int)
    requires RespectsLimits(l, seqLens, queryLens) && (has ==> ratio > 0) && 0 <= i < |seqLens|
    ensures var w := WidthsOf(l, seqLens, queryLens, has, ratio);
      && 0 <= w.compressed[i] <= (if has then CeilDiv(l.maxModelLen, ratio) else 0)
      && 0 <= w.gather[i] <= l.window + l.maxBatchedTokens - 1
  {
    if has {
      CompressedBound(seqLens[i], l.maxModelLen, ratio);
    }
  }

  lemma CompressedBound(n: int, max: int, ratio: int)
    requires 0 <= n <= max && ratio > 0
    ensures 0 <= n / ratio <= CeilDiv(max, ratio)
  {
    var q := n / ratio;
    assert n == q * ratio + n % ratio;
    MulMono(0, q, ratio);
    CeilDivMono(q * ratio, ratio, max, ratio);
    DivExact(q, ratio);
  }

  /** Up to chunkSize requests always fit, whatever their lengths within the limits. */
  lemma ChunkSizeFits(l: Limits, seqLens: seq<int>, queryLens: seq<int>, has: bool, ratio: int, a: int, b: int)
    requires RespectsLimits(l, seqLens, queryLens) && (has ==> ratio > 0)
    requires 0 <= a < b <= |seqLens| && b - a <= l.chunkSize
    ensures Area(WidthsOf(l, seqLens, queryLens, has, ratio), a, b) <= WorkspaceArea(l, has, ratio)
  {
    var w := WidthsOf(l, seqLens, queryLens, has, ratio);
    var i := MaxInAttained(w.compressed, a, b);
    var j := MaxInAttained(w.gather, a, b);
    RequestWidth(l, seqLens, queryLens, has, ratio, i);
    RequestWidth(l, seqLens, queryLens, has, ratio, j);
    var x := MaxIn(w.compressed, a, b) + MaxIn(w.gather, a, b);
    var share := (if has then CeilDiv(l.maxModelLen, ratio) else 0) + l.window + l.maxBatchedTokens;
    MulMono(b - a, l.chunkSize, x);
    MulMono(x, share, l.chunkSize);
    assert l.chunkSize * x == x * l.chunkSize && l.chunkSize * share == share * l.chunkSize;
  }

  /** For lengths within the limits the greedy plan is within the bound, and every chunk but the
      last holds at least chunkSize requests. */
  lemma {:induction false} PlanSafeWithinLimits(l: Limits, seqLens: seq<int>, queryLens: seq<int>, has: bool,
                                                ratio: int, chunks: seq<Chunk>)
    requires RespectsLimits(l, seqLens, queryLens) && (has ==> ratio > 0) && l.chunkSize >= 1
    requires GreedyUpTo(WidthsOf(l, seqLens, queryLens, has, ratio), chunks, WorkspaceArea(l, has, ratio), |seqLens|)
    ensures IsPlan(Cuts(chunks), |seqLens|)
    ensures WithinBound(WidthsOf(l, seqLens, queryLens, has, ratio), Cuts(chunks), WorkspaceArea(l, has, ratio))
    ensures forall k :: 0 <= k < |chunks| - 1 ==> chunks[k].end - chunks[k].start >= l.chunkSize
  {
    var w, area := WidthsOf(l, seqLens, queryLens, has, ratio), WorkspaceArea(l, has, ratio);
    LimitsFit(l, seqLens, queryLens, has, ratio);
    PlanSafe(w, chunks, area);
    forall k | 0 <= k < |chunks| - 1 ensures chunks[k].end - chunks[k].start >= l.chunkSize {
      var c := chunks[k];
      assert DescribesChunk(w, chunks[k + 1]) && chunks[k + 1].start == c.end;
      FullChunk(l, seqLens, queryLens, has, ratio, c);
    }
  }

  lemma AreaOfOne(w: Widths, i: nat)
    requires w.Valid() && i < w.Size()
    ensures Area(w, i, i + 1) == w.compressed[i] + w.gather[i]
  {
  }

  lemma RequestFits(l: Limits, seqLens: seq<int>, queryLens: seq<int>, has: bool, ratio: int, i: nat)
    requires RespectsLimits(l, seqLens, queryLens) && (has ==> ratio > 0) && l.chunkSize >= 1 && i < |seqLens|
    ensures var w := WidthsOf(l, seqLens, queryLens, has, ratio);
      w.compressed[i] >= 0 && w.gather[i] >= 0 && w.compressed[i] + w.gather[i] <= WorkspaceArea(l, has, ratio)
  {
    RequestWidth(l, seqLens, queryLens, has, ratio, i);
    ChunkSizeFits(l, seqLens, queryLens, has, ratio, i, i + 1);
    AreaOfOne(WidthsOf(l, seqLens, queryLens, has, ratio), i);
  }

  lemma LimitsFit(l: Limits, seqLens: seq<int>, queryLens: seq<int>, has: bool, ratio: int)
    requires RespectsLimits(l, seqLens, queryLens) && (has ==> ratio > 0) && l.chunkSize >= 1
    ensures NonNegative(WidthsOf(l, seqLens, queryLens, has, ratio))
    ensures EachFits(WidthsOf(l, seqLens, queryLens, has, ratio), WorkspaceArea(l, has, ratio))
  {
    var w := WidthsOf(l, seqLens, queryLens, has, ratio);
    forall i | 0 <= i < w.Size()
      ensures w.compressed[i] >= 0 && w.gather[i] >= 0
      ensures w.compressed[i] + w.gather[i] <= WorkspaceArea(l, has, ratio)
    {
      RequestFits(l, seqLens, queryLens, has, ratio, i);
    }
  }

  lemma FullChunk(l: Limits, seqLens: seq<int>, queryLens: seq<int>, has: bool, ratio: int, c: Chunk)
    requires RespectsLimits(l, seqLens, queryLens) && (has ==> ratio > 0)
    requires DescribesChunk(WidthsOf(l, seqLens, queryLens, has, ratio), c) && c.end < |seqLens|
    requires Maximal(WidthsOf(l, seqLens, queryLens, has, ratio), c, WorkspaceArea(l, has, ratio))
    ensures c.end - c.start >= l.chunkSize
  {
    if c.end - c.start < l.chunkSize {
      ChunkSizeFits(l, seqLens, queryLens, has, ratio, c.start, c.end + 1);
    }
  }

  // ------------------------------------------------------------ what a chunk has room for

  /** Some query of the prefill has key k in its sliding window. */
  ghost predicate Sees(l: Limits, seqLen: int, queryLen: int, k: int) {
    k >= 0 && exists p :: seqLen - queryLen <= p < seqLen && InWindow(l.window, p, k)
  }

  predicate InWindow(window: int, p: int, k: int) { p - window < k <= p }

  /** The gathered suffix is exactly the keys that the prefill's queries see. */
  lemma GatherIsWindow(l: Limits, seqLen: int, queryLen: int, k: int)
    requires l.window >= 1 && 0 < queryLen <= seqLen
    ensures Sees(l, seqLen, queryLen, k) <==> seqLen - GatherLen(l, seqLen, queryLen) <= k < seqLen
  {
    if seqLen - GatherLen(l, seqLen, queryLen) <= k < seqLen {
      var p := Max(k, seqLen - queryLen);
      assert InWindow(l.window, p, k);
    }
  }

  /** Group g of the compressed region is complete. */
  predicate Complete(has: bool, ratio: int, seqLen: int, g: nat) {
    has && (g + 1) * ratio <= seqLen
  }

  /** The compressed prefix is exactly the complete groups. */
  lemma CompressedIsComplete(has: bool, ratio: int, seqLen: int, g: nat)
    requires seqLen >= 0 && (has ==> ratio > 0)
    ensures Complete(has, ratio, seqLen, g) <==> g < CompressedLen(has, ratio, seqLen)
  {
    if has {
      var q := seqLen / ratio;
      assert seqLen == q * ratio + seqLen % ratio;
      assert (q + 1) * ratio == q * ratio + ratio;
      if g < q { MulMono(g + 1, q, ratio); } else { MulMono(q + 1, g + 1, ratio); }
    }
  }

  /** Left to the ratio, a layer of ratio 1 has no compressed region; told that it has one, its region is
      as long as the sequence. */
  lemma RatioOne(seqLen: nat)
    ensures CompressedLen(HasCompressed(None, 1), 1, seqLen) == 0
    ensures CompressedLen(HasCompressed(Some(true), 1), 1, seqLen) == seqLen
  {
  }

  /** A chunk has room for every complete group and every visible key of each of its requests. */
  lemma ChunkHolds(l: Limits, seqLens: seq<int>, queryLens: seq<int>, has: bool, ratio: int, c: Chunk, i: int)
    requires |seqLens| == |queryLens| && l.window >= 1 && (has ==> ratio > 0)
    requires DescribesChunk(WidthsOf(l, seqLens, queryLens, has, ratio), c) && c.start <= i < c.end
    requires 0 < queryLens[i] <= seqLens[i]
    ensures forall g: nat :: Complete(has, ratio, seqLens[i], g) ==> g < c.maxCompressed
    ensures forall k :: Sees(l, seqLens[i], queryLens[i], k) ==> seqLens[i] - k <= c.width - c.maxCompressed
  {
    var w := WidthsOf(l, seqLens, queryLens, has, ratio);
    MaxInBounds(w.compressed, c.start, c.end, i);
    MaxInBounds(w.gather, c.start, c.end, i);
    forall g: nat | Complete(has, ratio, seqLens[i], g) ensures g < c.maxCompressed {
      CompressedIsComplete(has, ratio, seqLens[i], g);
    }
    forall k | Sees(l, seqLens[i], queryLens[i], k) ensures seqLens[i] - k <= c.width - c.maxCompressed {
      GatherIsWindow(l, seqLens[i], queryLens[i], k);
    }
  }

  /** And no more room than that: some request fills each of the two regions. */
  lemma ChunkIsTight(l: Limits, seqLens: seq<int>, queryLens: seq<int>, has: bool, ratio: int, c: Chunk)
    returns (i: int, j: int)
    requires |seqLens| == |queryLens| && l.window >= 1 && (has ==> ratio > 0)
    requires DescribesChunk(WidthsOf(l, seqLens, queryLens, has, ratio), c)
    requires forall r :: c.start <= r < c.end ==> 0 < queryLens[r] <= seqLens[r]
    ensures c.start <= i < c.end && c.start <= j < c.end
    ensures c.maxCompressed > 0 ==> Complete(has, ratio, seqLens[i], c.maxCompressed - 1)
    ensures Sees(l, seqLens[j], queryLens[j], seqLens[j] - (c.width - c.maxCompressed))
  {
    var w := WidthsOf(l, seqLens, queryLens, has, ratio);
    i := MaxInAttained(w.compressed, c.start, c.end);
    j := MaxInAttained(w.gather, c.start, c.end);
    if c.maxCompressed > 0 { CompressedIsComplete(has, ratio, seqLens[i], c.maxCompressed - 1); }
    GatherIsWindow(l, seqLens[j], queryLens[j], seqLens[j] - (c.width - c.maxCompressed));
  }

  /** The workspace is that of chunkSize requests of the largest shape the limits allow, one key wider. */
  lemma AreaIsWorstCase(l: Limits, has: bool, ratio: int)
    requires (has ==> ratio > 0 && l.maxModelLen % ratio == 0) && l.window >= 1
    requires 0 < l.maxBatchedTokens <= l.maxModelLen - (l.window - 1)
    ensures WorkspaceArea(l, has, ratio) == l.chunkSize *
      (CompressedLen(has, ratio, l.maxModelLen) + GatherLen(l, l.maxModelLen, l.maxBatchedTokens) + 1)
  {
    if has {
      assert l.maxModelLen == l.maxModelLen / ratio * ratio;
      DivExact(l.maxModelLen / ratio, ratio);
    }
  }

  // ------------------------------------------------------------ optimality

  /** A part that starts no later than a greedy chunk and is within the bound ends no later. */
  lemma GreedyReaches(w: Widths, c: Chunk, area: int, a: int, b: int)
    requires NonNegative(w) && DescribesChunk(w, c) && Maximal(w, c, area)
    requires 0 <= a < b <= w.Size() && a <= c.start && Area(w, a, b) <= area
    ensures b <= c.end
  {
    if b > c.end {
      AreaMonotone(w, a, b, c.start, c.end + 1);
    }
  }

  lemma CutFits(w: Widths, cuts: seq<int>, area: int, i: nat)
    requires w.Valid() && IsPlan(cuts, w.Size()) && WithinBound(w, cuts, area) && i < |cuts| - 1
    ensures 0 <= cuts[i] < cuts[i + 1] <= w.Size() && Area(w, cuts[i], cuts[i + 1]) <= area
  {
    CutsOrdered(cuts, w.Size(), i);
    assert ChunkFits(w, cuts, i, area);
  }

  lemma GreedyChunk(w: Widths, chunks: seq<Chunk>, area: int, upto: int, i: nat)
    requires w.Valid() && GreedyUpTo(w, chunks, area, upto) && i < |chunks|
    ensures DescribesChunk(w, chunks[i]) && Maximal(w, chunks[i], area)
    ensures chunks[i].start == if i == 0 then 0 else chunks[i - 1].end
  {
  }

  /** After k chunks the greedy plan is at least as far as any plan within the bound. */
  lemma {:induction false} GreedyStaysAhead(w: Widths, chunks: seq<Chunk>, area: int, cuts: seq<int>, k: int)
    requires NonNegative(w) && GreedyUpTo(w, chunks, area, w.Size())
    requires IsPlan(cuts, w.Size()) && WithinBound(w, cuts, area)
    requires 0 <= k <= |chunks| && k < |cuts|
    ensures cuts[k] <= if k == 0 then 0 else chunks[k - 1].end
    decreases k
  {
    if k > 0 {
      GreedyStaysAhead(w, chunks, area, cuts, k - 1);
      GreedyChunk(w, chunks, area, w.Size(), k - 1);
      CutFits(w, cuts, area, k - 1);
      GreedyReaches(w, chunks[k - 1], area, cuts[k - 1], cuts[k]);
    }
  }

  /** No contiguous plan within the bound has fewer chunks than the greedy one. */
  lemma PlanOptimal(w: Widths, chunks: seq<Chunk>, area: int, cuts: seq<int>)
    requires NonNegative(w) && GreedyUpTo(w, chunks, area, w.Size())
    requires IsPlan(cuts, w.Size()) && WithinBound(w, cuts, area)
    ensures |chunks| <= |cuts| - 1
  {
    var k := |cuts| - 1;
    if k < |chunks| {
      GreedyStaysAhead(w, chunks, area, cuts, k);
      CutsOfGreedy(w, chunks, area, w.Size());
      CutsUp(Cuts(chunks), w.Size(), k, |chunks|);
    }
  }
}
