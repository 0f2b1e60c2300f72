/** From the runner's token histories to engram rows: one step gathers the lookback window, hashes
    the batch and looks every id up over all ranks; the result is the table row of the hash of each
    request's whole sequence. */
module EngramPipeline {
  import opened NgramHash
  import opened Wrappers
  import opened NgramState
  import opened EngramShards

  // ------------------------------------------------------------ ids and buckets

  lemma {:induction false} OffsetIsSum(sizes: seq<int>, h: nat)
    requires h <= |sizes|
    ensures Offset(sizes, h) == Sum(sizes[..h])
  {
    if h > 0 {
      OffsetIsSum(sizes, h - 1);
      assert sizes[..h][..h - 1] == sizes[..h - 1];
    }
  }

  /** A whole-sequence hash lies in the bucket the lookup expects, if that bucket ends within int32. */
  lemma HashInHead(tb: Tables, vocab: int, dead: int -> bool, hist: seq<int>, p: int, layer: nat, h: nat)
    requires Bounded(tb, vocab) && OffsetsOf(tb) && 0 <= p < |hist| && layer < |tb.multipliers| && h < tb.Cols()
    requires BucketFits(tb, layer, h)
    ensures InHead(tb.primes[layer], h, HashAt(tb, dead, hist, p, layer, h))
  {
    OffsetIsSum(tb.primes[layer], h);
    IdInBucket(tb, vocab, dead, hist, p, layer, h);
  }

  // ------------------------------------------------------------ one step of the runner

  /** The flattened batch of a step, and per request slot the token history and how much of it was
      computed before the step. Row r of the batch belongs to request slot idxMapping[r]. */
  datatype RunnerStep = RunnerStep(
    inputIds: seq<int>, positions: seq<int>, queryStartLoc: seq<int>,
    idxMapping: seq<int>, numComputed: seq<int>, allTokenIds: seq<seq<int>>)
  {
    ghost predicate Valid(tb: Tables) {
      && |queryStartLoc| == |idxMapping| + 1 && |idxMapping| >= 1 && queryStartLoc[0] == 0
      && |positions| == |inputIds| && |numComputed| == |allTokenIds|
      && (forall i, j :: 0 <= i <= j < |queryStartLoc| ==> queryStartLoc[i] <= queryStartLoc[j])
      && (forall r :: 0 <= r < |idxMapping| ==> 0 <= idxMapping[r] < |numComputed|)
      && (forall s :: 0 <= s < |numComputed| ==> 0 <= numComputed[s] <= |allTokenIds[s]|)
      && (forall r :: 0 <= r < |idxMapping| ==> RowGiven(tb, r))
    }

    function Start(r: nat): int
      requires r < |idxMapping| && 0 <= idxMapping[r] < |numComputed|
    {
      numComputed[idxMapping[r]]
    }

    function Hist(r: nat): seq<int>
      requires r < |idxMapping| && 0 <= idxMapping[r] < |allTokenIds|
    {
      allTokenIds[idxMapping[r]]
    }

    predicate HasToken(r: nat, t: nat) {
      r + 1 < |queryStartLoc| && queryStartLoc[r] <= t < queryStartLoc[r + 1]
    }

    /** Position of token t of row r in its request. */
    function At(r: nat, t: nat): int
      requires r < |idxMapping| && 0 <= idxMapping[r] < |numComputed| && HasToken(r, t)
    {
      Start(r) + (t - queryStartLoc[r])
    }

    /** Row r holds the next tokens of its request. */
    ghost predicate RowGiven(tb: Tables, r: nat)
      requires r < |idxMapping| && |queryStartLoc| == |idxMapping| + 1 && |positions| == |inputIds|
      requires |numComputed| == |allTokenIds| && 0 <= idxMapping[r] < |numComputed| && Start(r) >= 0
    {
      && 0 <= queryStartLoc[r] && queryStartLoc[r + 1] <= |inputIds|
      && Start(r) + queryStartLoc[r + 1] - queryStartLoc[r] <= |Hist(r)|
      && (forall q :: 0 <= q < |Hist(r)| ==> 0 <= Hist(r)[q] < |tb.tokenMap|)
      && (forall t: nat :: HasToken(r, t) ==>
           positions[t] == Start(r) + (t - queryStartLoc[r]) && inputIds[t] == Hist(r)[positions[t]])
    }
  }

  function WindowRows(window: array2<int>): (rows: seq<seq<int>>)
    reads window
    ensures |rows| == window.Length0 && forall r :: 0 <= r < |rows| ==> |rows[r]| == window.Length1
    ensures forall r, c :: 0 <= r < |rows| && 0 <= c < window.Length1 ==> rows[r][c] == window[r, c]
  {
    seq(window.Length0, r requires 0 <= r < window.Length0 reads window =>
      seq(window.Length1, c requires 0 <= c < window.Length1 reads window => window[r, c]))
  }

  function Marks(dead: int -> bool, tokens: seq<int>): (marks: seq<bool>)
    ensures |marks| == |tokens| && forall i :: 0 <= i < |tokens| ==> marks[i] == dead(tokens[i])
  {
    seq(|tokens|, i requires 0 <= i < |tokens| => dead(tokens[i]))
  }

  /** The kernel's inputs for a step without a slot cache. */
  function BatchOf(step: RunnerStep, rows: seq<seq<int>>, depth: nat, dead: int -> bool): (b: Batch)
    ensures |b.lookbackDead| == |rows| && forall r :: 0 <= r < |rows| ==> b.lookbackDead[r] == Marks(dead, rows[r])
  {
    Batch(step.inputIds, Marks(dead, step.inputIds), step.positions, step.queryStartLoc,
          rows, seq(|rows|, r requires 0 <= r < |rows| => Marks(dead, rows[r])), depth, None)
  }

  /** The window rows of the batch hold the tokens before each chunk. */
  ghost predicate Gathered(tb: Tables, step: RunnerStep, rows: seq<seq<int>>)
    requires step.Valid(tb)
  {
    && |rows| >= |step.idxMapping| && (forall r :: 0 <= r < |rows| ==> |rows[r]| == tb.maxNgram - 1)
    && (forall r: nat, c: nat :: r < |step.idxMapping| && c < tb.maxNgram - 1 ==>
         rows[r][c] == WindowToken(step.Hist(r), step.Start(r), c))
  }

  lemma RowReady(tb: Tables, step: RunnerStep, rows: seq<seq<int>>, dead: int -> bool, r: nat)
    requires tb.Valid() && step.Valid(tb) && Gathered(tb, step, rows) && r < |step.idxMapping|
    requires NgramHash.Shaped(BatchOf(step, rows, tb.maxNgram - 1, dead))
    ensures RowHolds(tb, dead, BatchOf(step, rows, tb.maxNgram - 1, dead), r, step.Start(r), step.Hist(r))
  {
    var b := BatchOf(step, rows, tb.maxNgram - 1, dead);
    assert step.RowGiven(tb, r);
    GatheredWindowSuffices(tb, dead, b, r, step.Start(r), step.Hist(r));
    forall t | InRow(b, r, t) ensures TokenInPlace(dead, b, r, step.Start(r), step.Hist(r), t) {
      assert step.HasToken(r, t);
    }
  }

  lemma StepShaped(tb: Tables, step: RunnerStep, rows: seq<seq<int>>, dead: int -> bool)
    requires tb.Valid() && step.Valid(tb) && Gathered(tb, step, rows)
    ensures NgramHash.Shaped(BatchOf(step, rows, tb.maxNgram - 1, dead))
  {
  }

  /** The gathered window makes every row of the step's batch a chunk with its history in reach. */
  lemma StepHolds(tb: Tables, step: RunnerStep, rows: seq<seq<int>>, dead: int -> bool)
    returns (starts: seq<int>, hists: seq<seq<int>>)
    requires tb.Valid() && step.Valid(tb) && Gathered(tb, step, rows)
    ensures BatchHolds(tb, dead, BatchOf(step, rows, tb.maxNgram - 1, dead), starts, hists)
    ensures forall r: nat :: r < |step.idxMapping| ==> starts[r] == step.Start(r) && hists[r] == step.Hist(r)
  {
    var n := |step.idxMapping|;
    starts := seq(n, r requires 0 <= r < n => step.Start(r));
    hists := seq(n, r requires 0 <= r < n => step.Hist(r));
    StepShaped(tb, step, rows, dead);
    forall r: nat | r < n
      ensures RowHolds(tb, dead, BatchOf(step, rows, tb.maxNgram - 1, dead), r, starts[r], hists[r])
    {
      RowReady(tb, step, rows, dead, r);
    }
  }

  /** The ids of token t are its request's whole-sequence hashes. */
  ghost predicate StepHashed(tb: Tables, dead: int -> bool, step: RunnerStep, r: nat, t: nat, ids: seq<seq<int>>)
    requires tb.Valid() && step.Valid(tb)
  {
    r < |step.idxMapping| && step.HasToken(r, t) ==> HashedAs(tb, dead, step.Hist(r), step.At(r, t), ids)
  }

  lemma HashedInStep(tb: Tables, dead: int -> bool, step: RunnerStep, rows: seq<seq<int>>,
                     starts: seq<int>, hists: seq<seq<int>>, r: nat, t: nat, ids: seq<seq<int>>)
    requires tb.Valid() && step.Valid(tb) && r < |step.idxMapping| && step.HasToken(r, t)
    requires |starts| == |hists| == |step.idxMapping| && starts[r] == step.Start(r) && hists[r] == step.Hist(r)
    requires TokenHashed(tb, dead, BatchOf(step, rows, tb.maxNgram - 1, dead), starts, hists, t, ids)
    ensures HashedAs(tb, dead, step.Hist(r), step.At(r, t), ids)
  {
    var b := BatchOf(step, rows, tb.maxNgram - 1, dead);
    assert step.RowGiven(tb, r) && InRow(b, r, t);
    assert RowHashed(tb, dead, b, starts, hists, r, t, ids);
  }

  /** One step of hashing: refill the window from the histories, mark dead tokens, launch. Whatever
      chunks the requests are cut into, every token gets the hash of its request's whole sequence. */
  method HashStep(tb: Tables, step: RunnerStep, window: array2<int>, output: array<seq<seq<int>>>, dead: int -> bool)
    requires tb.Valid() && step.Valid(tb) && output.Length == |step.inputIds|
    requires window.Length0 >= |step.idxMapping| && window.Length1 == tb.maxNgram - 1
    modifies window, output
    ensures forall r: nat, t: nat :: t < output.Length ==> StepHashed(tb, dead, step, r, t, output[t])
  {
    GatherLookback(window, step.idxMapping, step.numComputed, step.allTokenIds, |step.idxMapping|);
    var rows := WindowRows(window);
    assert Gathered(tb, step, rows);
    ghost var starts, hists := StepHolds(tb, step, rows, dead);
    HashIds(tb, BatchOf(step, rows, window.Length1, dead), output, dead, starts, hists);
    forall r: nat, t: nat | t < output.Length ensures StepHashed(tb, dead, step, r, t, output[t]) {
      if r < |step.idxMapping| && step.HasToken(r, t) {
        HashedInStep(tb, dead, step, rows, starts, hists, r, t, output[t]);
      }
    }
  }

  // ------------------------------------------------------------ hash and look up

  /** Entry h of token t is the table row of the hash of the request's whole sequence. */
  ghost predicate StepLooked<O(!new)>(tb: Tables, dead: int -> bool, step: RunnerStep, layer: nat, table: Table,
                                      deq: (Bytes, Bytes) -> O, r: nat, t: nat, h: nat, o: O)
    requires tb.Valid() && step.Valid(tb) && layer < |tb.multipliers| && h < tb.Cols()
    requires |table.weights| == |table.scales| && r < |step.idxMapping| && step.HasToken(r, t)
  {
    && 0 <= step.At(r, t) < |step.Hist(r)|
    && RowOfId(table, deq, HashAt(tb, dead, step.Hist(r), step.At(r, t), layer, h), o)
  }

  /** The tokens of a step that belong to a request. */
  lemma RequestOf(tb: Tables, step: RunnerStep, t: nat, k: nat) returns (r: nat)
    requires step.Valid(tb) && 0 < k <= |step.idxMapping| && t < step.queryStartLoc[k]
    ensures r < k && step.HasToken(r, t)
    decreases k
  {
    if step.queryStartLoc[k - 1] <= t {
      r := k - 1;
    } else {
      r := RequestOf(tb, step, t, k - 1);
    }
  }

  /** ids are one layer's whole-sequence hashes of the step's first tokens. */
  ghost predicate LayerHashed(tb: Tables, dead: int -> bool, step: RunnerStep, layer: nat, ids: seq<seq<int>>)
    requires tb.Valid() && step.Valid(tb) && layer < |tb.multipliers|
  {
    && (forall t: nat :: t < |ids| ==> |ids[t]| == tb.Cols())
    && (forall r: nat, t: nat :: t < |ids| && r < |step.idxMapping| && step.HasToken(r, t) ==>
         0 <= step.At(r, t) < |step.Hist(r)| && ids[t] == LayerIds(tb, dead, step.Hist(r), step.At(r, t), layer))
  }

  /** One layer of a token's ids. */
  lemma TokenColumn(tb: Tables, dead: int -> bool, step: RunnerStep, layer: nat, t: nat, ids: seq<seq<int>>)
    requires tb.Valid() && step.Valid(tb) && layer < |tb.multipliers| && t < step.queryStartLoc[|step.idxMapping|]
    requires forall r: nat :: StepHashed(tb, dead, step, r, t, ids)
    ensures layer < |ids| && |ids[layer]| == tb.Cols()
    ensures forall r: nat :: r < |step.idxMapping| && step.HasToken(r, t) ==>
      0 <= step.At(r, t) < |step.Hist(r)| && ids[layer] == LayerIds(tb, dead, step.Hist(r), step.At(r, t), layer)
  {
    var r := RequestOf(tb, step, t, |step.idxMapping|);
    assert StepHashed(tb, dead, step, r, t, ids);
  }

  lemma LayerHashedSnoc(tb: Tables, dead: int -> bool, step: RunnerStep, layer: nat, ids: seq<seq<int>>, row: seq<int>)
    requires tb.Valid() && step.Valid(tb) && layer < |tb.multipliers| && LayerHashed(tb, dead, step, layer, ids)
    requires |row| == tb.Cols()
    requires forall r: nat :: r < |step.idxMapping| && step.HasToken(r, |ids|) ==>
      && 0 <= step.At(r, |ids|) < |step.Hist(r)|
      && row == LayerIds(tb, dead, step.Hist(r), step.At(r, |ids|), layer)
    ensures LayerHashed(tb, dead, step, layer, ids + [row])
  {
  }

  /** One layer's ids of the tokens that belong to requests, in the shape the lookup takes. */
  method LayerColumn(tb: Tables, step: RunnerStep, output: array<seq<seq<int>>>, layer: nat, ghost dead: int -> bool)
    returns (ids: seq<seq<int>>)
    requires tb.Valid() && step.Valid(tb) && output.Length == |step.inputIds| && layer < |tb.multipliers|
    requires forall r: nat, t: nat :: t < output.Length ==> StepHashed(tb, dead, step, r, t, output[t])
    ensures |ids| == step.queryStartLoc[|step.idxMapping|] && LayerHashed(tb, dead, step, layer, ids)
  {
    var n := step.queryStartLoc[|step.idxMapping|];
    assert step.RowGiven(tb, |step.idxMapping| - 1);
    ids := [];
    for t := 0 to n
      invariant |ids| == t && LayerHashed(tb, dead, step, layer, ids)
    {
      TokenColumn(tb, dead, step, layer, t, output[t]);
      LayerHashedSnoc(tb, dead, step, layer, ids, output[t][layer]);
      ids := ids + [output[t][layer]];
    }
  }

  /** What the lookup returns for ids in their buckets. */
  ghost predicate LookedUp<O(!new)>(sizes: seq<int>, table: Table, deq: (Bytes, Bytes) -> O,
                                    ids: seq<seq<int>>, rows: seq<seq<O>>)
    requires |table.weights| == |table.scales|
  {
    && |rows| == |ids|
    && (forall t :: 0 <= t < |ids| ==> |ids[t]| == |sizes| && |rows[t]| == |sizes|)
    && (forall t: nat, h: nat :: t < |ids| && h < |sizes| && InHead(sizes, h, ids[t][h]) ==>
         RowOfId(table, deq, ids[t][h], rows[t][h]))
  }

  lemma EntryLooked<O(!new)>(tb: Tables, vocab: int, dead: int -> bool, step: RunnerStep, layer: nat, table: Table,
                             deq: (Bytes, Bytes) -> O, ids: seq<seq<int>>, rows: seq<seq<O>>, r: nat, t: nat, h: nat)
    requires Bounded(tb, vocab) && OffsetsOf(tb) && step.Valid(tb) && layer < |tb.multipliers| && h < tb.Cols()
    requires |table.weights| == |table.scales| && LookedUp(tb.primes[layer], table, deq, ids, rows)
    requires LayerHashed(tb, dead, step, layer, ids)
    requires t < |ids| && r < |step.idxMapping| && step.HasToken(r, t) && BucketFits(tb, layer, h)
    ensures StepLooked(tb, dead, step, layer, table, deq, r, t, h, rows[t][h])
  {
    var hist, p := step.Hist(r), step.At(r, t);
    assert ids[t] == LayerIds(tb, dead, hist, p, layer);
    HashInHead(tb, vocab, dead, hist, p, layer, h);
  }

  /** A step from token histories to engram rows, over all ranks: every entry whose bucket ends within
      int32 is the table row of its request's whole-sequence hash, whatever the chunking, the
      batching, the number of ranks and the launch grid. */
  method EmbedStep<O(!new)>(tb: Tables, step: RunnerStep, window: array2<int>, output: array<seq<seq<int>>>,
                            dead: int -> bool, layer: nat, tp: nat, weights: seq<seq<Bytes>>, scales: seq<seq<Bytes>>,
                            deq: (Bytes, Bytes) -> O, zero: O, grid: nat, ghost vocab: int, ghost table: Table)
    returns (rows: seq<seq<O>>)
    requires Bounded(tb, vocab) && OffsetsOf(tb) && step.Valid(tb) && output.Length == |step.inputIds|
    requires window.Length0 >= |step.idxMapping| && window.Length1 == tb.maxNgram - 1
    requires layer < |tb.multipliers| && grid > 0
    requires Covers(table, Shard(tb.primes[layer], tp, 0))
    requires AllResident(tb.primes[layer], tp, table, weights, scales)
    modifies window, output
    ensures |rows| == step.queryStartLoc[|step.idxMapping|] && forall t :: 0 <= t < |rows| ==> |rows[t]| == tb.Cols()
    ensures forall r: nat, t: nat, h: nat ::
      t < |rows| && r < |step.idxMapping| && step.HasToken(r, t) && h < tb.Cols() && BucketFits(tb, layer, h) ==>
        StepLooked(tb, dead, step, layer, table, deq, r, t, h, rows[t][h])
  {
    HashStep(tb, step, window, output, dead);
    var ids := LayerColumn(tb, step, output, layer, dead);
    rows := LayerRows(tb, layer, tp, weights, scales, deq, zero, ids, grid, table);
    forall r: nat, t: nat, h: nat |
      t < |rows| && r < |step.idxMapping| && step.HasToken(r, t) && h < tb.Cols() && BucketFits(tb, layer, h)
      ensures StepLooked(tb, dead, step, layer, table, deq, r, t, h, rows[t][h])
    {
      EntryLooked(tb, vocab, dead, step, layer, table, deq, ids, rows, r, t, h);
    }
  }

  /** One layer's lookup over all ranks. */
  method LayerRows<O(!new)>(tb: Tables, layer: nat, tp: nat, weights: seq<seq<Bytes>>, scales: seq<seq<Bytes>>,
                            deq: (Bytes, Bytes) -> O, zero: O, ids: seq<seq<int>>, grid: nat, ghost table: Table)
    returns (rows: seq<seq<O>>)
    requires tb.Valid() && layer < |tb.multipliers| && grid > 0
    requires forall t: nat :: t < |ids| ==> |ids[t]| == tb.Cols()
    requires Covers(table, Shard(tb.primes[layer], tp, 0))
    requires AllResident(tb.primes[layer], tp, table, weights, scales)
    ensures LookedUp(tb.primes[layer], table, deq, ids, rows)
  {
    rows := ShardedForward(tb.primes[layer], tp, weights, scales, deq, zero, ids, grid, table);
  }
}
