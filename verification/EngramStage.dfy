/** Staging a step's engram rows from disk before the forward: all layers of a rank in one read batch or
    through the memory map, then the gather over the ranks. */
module EngramStage {
  import opened Arith
  import opened Wrappers
  import opened NgramHash
  import opened NgramState
  import opened EngramShards
  import opened EngramDisk
  import opened EngramPipeline

  // ------------------------------------------------------------ one rank's plan for a layer

  /** Rows to read for a layer: local row and ownership per output row, the distinct rows, and where each
      output row finds its own. */
  datatype Plan = Plan(rel: seq<nat>, owned: seq<bool>, uniq: seq<nat>, inverse: seq<nat>)

  ghost predicate PlanOf(s: Shard, ids: seq<seq<int>>, p: Plan) {
    && EngramShards.Shaped(s, ids) && s.Part() > 0 && s.HeadStart() >= 0
    && RelOf(s, ids, p.rel, p.owned) && IsUnique(p.rel, p.uniq, p.inverse)
  }

  function MaxRow(rel: seq<nat>): (m: nat)
    ensures forall i :: 0 <= i < |rel| ==> rel[i] <= m
  {
    if rel == [] then 0 else Max(MaxRow(rel[..|rel| - 1]), rel[|rel| - 1])
  }

  /** Sorted distinct values, and the index of each entry among them. */
  method Unique(rel: seq<nat>) returns (uniq: seq<nat>, inverse: seq<nat>)
    ensures IsUnique(rel, uniq, inverse)
  {
    uniq := [];
    var top := MaxRow(rel);
    for v := 0 to top + 1
      invariant forall u :: 0 <= u < |uniq| ==> uniq[u] in rel && uniq[u] < v
      invariant forall x :: x in rel && x < v ==> x in uniq
      invariant forall u, u' :: 0 <= u < u' < |uniq| ==> uniq[u] < uniq[u']
    {
      if v in rel {
        uniq := uniq + [v];
      }
    }
    inverse := [];
    for i := 0 to |rel|
      invariant |inverse| == i
      invariant forall k :: 0 <= k < i ==> inverse[k] < |uniq| && uniq[inverse[k]] == rel[k]
    {
      assert rel[i] in rel && rel[i] <= top;
      var u :| 0 <= u < |uniq| && uniq[u] == rel[i];
      inverse := inverse + [u];
    }
  }

  method PlanLayer(s: Shard, ids: seq<seq<int>>) returns (p: Plan)
    requires EngramShards.Shaped(s, ids)
    ensures PlanOf(s, ids, p)
  {
    PartPositive(s);
    var rel, owned := DiskRelOwned(s, ids);
    var uniq, inverse := Unique(rel);
    p := Plan(rel, owned, uniq, inverse);
  }

  // ------------------------------------------------------------ one read batch for all layers

  /** Rows base + rows[i] of a file. */
  datatype Read = Read(src: Source, base: nat, rows: seq<nat>)

  ghost predicate CanRead(q: Read) { RowsReadable(q.src, q.base, q.rows) }

  ghost predicate HasRead(q: Read, rows: seq<Bytes>) { RowsRead(q.src, q.base, q.rows, rows) }

  ghost predicate JobOf(q: Read, j: Job) {
    j.src == q.src && j.base == q.base && j.rel == q.rows && j.buf.Length == |q.rows|
  }

  lemma JobReads(q: Read, j: Job)
    requires JobOf(q, j)
    ensures Readable(j, 0, |j.rel|) <==> CanRead(q)
  {
    if Readable(j, 0, |j.rel|) {
      forall u | 0 <= u < |q.rows| ensures ReadAt(q.src, q.base + q.rows[u]).Some? {
        assert Wanted(j, u).Some?;
      }
    }
    if CanRead(q) {
      forall i | 0 <= i < |j.rel| ensures Wanted(j, i).Some? {
        assert ReadAt(q.src, q.base + q.rows[i]).Some?;
      }
    }
  }

  lemma JobFilled(q: Read, j: Job)
    requires JobOf(q, j) && Filled(j, 0, |j.rel|)
    ensures HasRead(q, j.buf[..])
  {
    forall u | 0 <= u < |q.rows| ensures ReadAt(q.src, q.base + q.rows[u]) == Some(j.buf[..][u]) {
      assert Wanted(j, u) == Some(j.buf[u]);
    }
  }

  /** All reads in one batch; it fails exactly when some row of some read cannot be read. */
  method ReadAll(asks: seq<Read>, threads: nat, maxChunk: int) returns (ok: bool, rows: seq<seq<Bytes>>)
    requires threads > 0
    ensures ok <==> forall k :: 0 <= k < |asks| ==> CanRead(asks[k])
    ensures ok ==> |rows| == |asks| && forall k :: 0 <= k < |asks| ==> HasRead(asks[k], rows[k])
  {
    rows := [];
    var jobs: seq<Job> := [];
    for k := 0 to |asks|
      invariant |jobs| == k && forall m :: 0 <= m < k ==> JobOf(asks[m], jobs[m]) && fresh(jobs[m].buf)
      invariant forall m, m' :: 0 <= m < m' < k ==> jobs[m].buf != jobs[m'].buf
    {
      var buf := new Bytes[|asks[k].rows|];
      jobs := jobs + [Job(asks[k].src, asks[k].base, asks[k].rows, buf)];
    }
    assert ValidJobs(jobs);
    ok := ParallelRead(jobs, threads, maxChunk);
    forall k | 0 <= k < |asks| ensures Readable(jobs[k], 0, |jobs[k].rel|) <==> CanRead(asks[k]) {
      JobReads(asks[k], jobs[k]);
    }
    if ok {
      for k := 0 to |asks|
        invariant AllFilled(jobs)
        invariant |rows| == k && forall m :: 0 <= m < k ==> HasRead(asks[m], rows[m])
      {
        assert Filled(jobs[k], 0, |jobs[k].rel|);
        JobFilled(asks[k], jobs[k]);
        rows := rows + [jobs[k].buf[..]];
      }
    }
  }

  // ------------------------------------------------------------ one rank, all layers

  /** A layer's files on a rank: weight and scale rows of the full table. */
  datatype Files = Files(w: Source, sc: Source)

  function TableOf(f: Files): Table { Table(f.w.rows, f.sc.rows) }

  /** A layer as one rank sees it in a step. */
  datatype LayerStep = LayerStep(s: Shard, f: Files, ids: seq<seq<int>>)
  {
    ghost predicate Valid() {
      Covers(TableOf(f), s) && EngramShards.Shaped(s, ids)
    }

    ghost predicate Fails(fast: bool)
      requires Valid()
    {
      NothingThere(s, f, |ids|, fast)
    }
  }

  /** Tokens are staged on a rank all of whose heads are padding, and the way of reading has nothing
      there: the memory map never, the files when no bytes are behind their rows. */
  ghost predicate NothingThere(s: Shard, f: Files, tokens: nat, fast: bool)
    requires s.Valid()
  {
    PartPositive(s);
    && tokens > 0 && s.HeadStart() >= s.Total()
    && (fast || ReadAt(f.w, s.VocabStart()).None? || ReadAt(f.sc, s.VocabStart()).None?)
  }

  ghost predicate AllValid(layers: seq<LayerStep>) {
    forall l :: 0 <= l < |layers| ==> layers[l].Valid()
  }

  /** The rows staged for a layer are the resident lookup's. */
  ghost predicate Staged<O>(layer: LayerStep, deq: (Bytes, Bytes) -> O, zero: O, rows: seq<O>) {
    LookedUpBy(layer.s, TableOf(layer.f), deq, zero, layer.ids, rows)
  }

  ghost predicate AllStaged<O>(layers: seq<LayerStep>, deq: (Bytes, Bytes) -> O, zero: O, rows: seq<seq<O>>) {
    |rows| == |layers| && forall l :: 0 <= l < |layers| ==> Staged(layers[l], deq, zero, rows[l])
  }

  function WeightRead(layer: LayerStep, p: Plan): Read
    requires layer.s.Valid() && layer.s.VocabStart() >= 0
  {
    Read(layer.f.w, layer.s.VocabStart(), p.uniq)
  }

  function ScaleRead(layer: LayerStep, p: Plan): Read
    requires layer.s.Valid() && layer.s.VocabStart() >= 0
  {
    Read(layer.f.sc, layer.s.VocabStart(), p.uniq)
  }

  /** A layer's two reads succeed unless the layer fails. */
  lemma ReadsFail(layer: LayerStep, p: Plan)
    requires layer.Valid() && PlanOf(layer.s, layer.ids, p) && layer.s.VocabStart() >= 0
    ensures CanRead(WeightRead(layer, p)) && CanRead(ScaleRead(layer, p)) <==> !layer.Fails(false)
  {
    DiskFailsExactly(layer.s, TableOf(layer.f), layer.f.w, layer.f.sc, layer.ids, p.rel, p.owned, p.uniq, p.inverse);
  }

  /** Dequantized, expanded and zeroed, a layer's read rows are its staged rows. */
  method ExpandLayer<O>(layer: LayerStep, p: Plan, deq: (Bytes, Bytes) -> O, zero: O, w: seq<Bytes>, sc: seq<Bytes>)
    returns (rows: seq<O>)
    requires layer.Valid() && PlanOf(layer.s, layer.ids, p) && layer.s.VocabStart() >= 0
    requires HasRead(WeightRead(layer, p), w) && HasRead(ScaleRead(layer, p), sc)
    ensures Staged(layer, deq, zero, rows)
  {
    rows := Expand(deq, zero, w, sc, p.inverse, p.owned);
    OpenedAnswers(layer.s, TableOf(layer.f), layer.f.w, layer.f.sc);
    forall k | 0 <= k < |rows| ensures rows[k] == LookupRow(layer.s, TableOf(layer.f), deq, zero, layer.ids, k) {
      ExpandedIsLookup(layer.s, TableOf(layer.f), layer.f.w, layer.f.sc, layer.s.VocabStart(), deq, zero, layer.ids,
                       p.rel, p.owned, p.uniq, p.inverse, w, sc, k);
    }
  }

  ghost predicate Planned(layers: seq<LayerStep>, plans: seq<Plan>, asks: seq<Read>) {
    && |plans| <= |layers| && |asks| == 2 * |plans|
    && forall l :: 0 <= l < |plans| ==> LayerPlanned(layers[l], plans[l], asks[2 * l], asks[2 * l + 1])
  }

  ghost predicate LayerPlanned(layer: LayerStep, p: Plan, w: Read, sc: Read) {
    && layer.Valid() && PlanOf(layer.s, layer.ids, p) && layer.s.VocabStart() >= 0
    && w == WeightRead(layer, p) && sc == ScaleRead(layer, p)
  }

  /** The reads of all layers, weights and scales. */
  method PlanReads(layers: seq<LayerStep>) returns (plans: seq<Plan>, asks: seq<Read>)
    requires AllValid(layers)
    ensures Planned(layers, plans, asks) && |plans| == |layers|
  {
    plans, asks := [], [];
    for l := 0 to |layers|
      invariant |plans| == l && Planned(layers, plans, asks)
    {
      PartPositive(layers[l].s);
      var p := PlanLayer(layers[l].s, layers[l].ids);
      var w, sc := WeightRead(layers[l], p), ScaleRead(layers[l], p);
      assert LayerPlanned(layers[l], p, w, sc);
      PlannedSnoc(layers, plans, asks, p, w, sc);
      plans, asks := plans + [p], asks + [w, sc];
    }
  }

  lemma PlannedSnoc(layers: seq<LayerStep>, plans: seq<Plan>, asks: seq<Read>, p: Plan, w: Read, sc: Read)
    requires Planned(layers, plans, asks) && |plans| < |layers| && LayerPlanned(layers[|plans|], p, w, sc)
    ensures Planned(layers, plans + [p], asks + [w, sc])
  {
    var more, all := plans + [p], asks + [w, sc];
    forall l | 0 <= l < |more| ensures LayerPlanned(layers[l], more[l], all[2 * l], all[2 * l + 1]) {
      if l < |plans| { assert LayerPlanned(layers[l], plans[l], asks[2 * l], asks[2 * l + 1]); }
    }
  }

  /** All reads succeed exactly when no layer fails. */
  lemma BatchFails(layers: seq<LayerStep>, plans: seq<Plan>, asks: seq<Read>)
    requires AllValid(layers) && Planned(layers, plans, asks) && |plans| == |layers|
    ensures (forall k :: 0 <= k < |asks| ==> CanRead(asks[k])) <==>
      forall l :: 0 <= l < |layers| ==> !layers[l].Fails(false)
  {
    forall l | 0 <= l < |layers|
      ensures CanRead(asks[2 * l]) && CanRead(asks[2 * l + 1]) <==> !layers[l].Fails(false)
    {
      assert LayerPlanned(layers[l], plans[l], asks[2 * l], asks[2 * l + 1]);
      ReadsFail(layers[l], plans[l]);
    }
    if forall l :: 0 <= l < |layers| ==> !layers[l].Fails(false) {
      forall k | 0 <= k < |asks| ensures CanRead(asks[k]) {
        var l := k / 2;
        assert !layers[l].Fails(false) && (k == 2 * l || k == 2 * l + 1);
      }
    }
  }

  /** Reads of every layer in one batch, then dequantization: every layer's rows are the resident lookup's;
      it fails exactly when some layer does. */
  method StageDisk<O>(layers: seq<LayerStep>, deq: (Bytes, Bytes) -> O, zero: O, threads: nat, maxChunk: int)
    returns (r: Result<seq<seq<O>>, Error>)
    requires AllValid(layers) && threads > 0
    ensures r.Success? ==> AllStaged(layers, deq, zero, r.value)
    ensures r.Failure? <==> exists l :: 0 <= l < |layers| && layers[l].Fails(false)
    ensures r.Failure? ==> r.error == ReadError
  {
    var plans, asks := PlanReads(layers);
    BatchFails(layers, plans, asks);
    var ok, rows := ReadAll(asks, threads, maxChunk);
    if !ok {
      return Failure(ReadError);
    }
    var staged: seq<seq<O>> := [];
    for l := 0 to |layers|
      invariant |staged| == l && forall m :: 0 <= m < l ==> Staged(layers[m], deq, zero, staged[m])
    {
      assert LayerPlanned(layers[l], plans[l], asks[2 * l], asks[2 * l + 1]);
      assert HasRead(asks[2 * l], rows[2 * l]) && HasRead(asks[2 * l + 1], rows[2 * l + 1]);
      var one := ExpandLayer(layers[l], plans[l], deq, zero, rows[2 * l], rows[2 * l + 1]);
      staged := staged + [one];
    }
    r := Success(staged);
  }

  /** The memory-map path over every layer: the same rows, and it fails exactly when some layer does. */
  method StageFast<O>(layers: seq<LayerStep>, deq: (Bytes, Bytes) -> O, zero: O, rowsPerTask: nat, threads: nat)
    returns (r: Result<seq<seq<O>>, Error>)
    requires AllValid(layers) && threads > 0
    ensures r.Success? ==> AllStaged(layers, deq, zero, r.value)
    ensures r.Failure? <==> exists l :: 0 <= l < |layers| && layers[l].Fails(true)
    ensures r.Failure? ==> r.error == ReadError
  {
    var staged: seq<seq<O>> := [];
    for l := 0 to |layers|
      invariant |staged| == l && forall m :: 0 <= m < l ==> Staged(layers[m], deq, zero, staged[m])
      invariant forall m :: 0 <= m < l ==> !layers[m].Fails(true)
    {
      var one := StageFastLayer(layers[l], deq, zero, rowsPerTask, threads);
      if one.Failure? {
        assert layers[l].Fails(true);
        return Failure(ReadError);
      }
      staged := staged + [one.value];
    }
    r := Success(staged);
  }

  method StageFastLayer<O>(layer: LayerStep, deq: (Bytes, Bytes) -> O, zero: O, rowsPerTask: nat, threads: nat)
    returns (r: Result<seq<O>, Error>)
    requires layer.Valid() && threads > 0
    ensures r.Success? ==> Staged(layer, deq, zero, r.value)
    ensures r.Failure? <==> layer.Fails(true)
  {
    PartPositive(layer.s);
    VocabEndWithin(TableOf(layer.f), layer.s);
    var p := PlanLayer(layer.s, layer.ids);
    r := FastLookup(layer.s, deq, zero, layer.ids, rowsPerTask, threads, p.rel, p.owned, p.uniq, p.inverse,
                    TableOf(layer.f));
    FastFailsExactlyWithoutRows(layer.s, layer.ids, p.rel, p.owned, p.uniq, p.inverse);
  }

  // ------------------------------------------------------------ a step over all ranks

  /** A layer with an engram: its place among the hashed layers, and its files. */
  datatype Engram = Engram(layer: nat, f: Files)

  ghost predicate ValidEngram(tb: Tables, tp: nat, e: Engram)
    requires tb.Valid()
  {
    e.layer < |tb.multipliers| && Covers(TableOf(e.f), Shard(tb.primes[e.layer], tp, 0))
  }

  ghost predicate ValidEngrams(tb: Tables, tp: nat, engrams: seq<Engram>)
    requires tb.Valid()
  {
    tp > 0 && forall l :: 0 <= l < |engrams| ==> ValidEngram(tb, tp, engrams[l])
  }

  function OnRank(tb: Tables, tp: nat, k: nat, e: Engram, ids: seq<seq<int>>): LayerStep
    requires e.layer < |tb.primes|
  {
    LayerStep(Shard(tb.primes[e.layer], tp, k), e.f, ids)
  }

  /** Rank k cannot stage some layer in a step of so many tokens. */
  ghost predicate RankFails(tb: Tables, tp: nat, k: nat, engrams: seq<Engram>, tokens: nat, fast: bool)
    requires tb.Valid() && ValidEngrams(tb, tp, engrams) && k < tp
  {
    exists l :: 0 <= l < |engrams| && LayerFails(tb, tp, k, engrams[l], tokens, fast)
  }

  ghost predicate LayerFails(tb: Tables, tp: nat, k: nat, e: Engram, tokens: nat, fast: bool)
    requires tb.Valid() && k < tp
  {
    ValidEngram(tb, tp, e) && NothingThere(Shard(tb.primes[e.layer], tp, k), e.f, tokens, fast)
  }

  /** Hashed ids of every layer with an engram, for the step's tokens. */
  ghost predicate HashedFor(tb: Tables, dead: int -> bool, step: RunnerStep, engrams: seq<Engram>,
                            ids: seq<seq<seq<int>>>)
    requires tb.Valid() && step.Valid(tb)
  {
    && |ids| <= |engrams|
    && forall l :: 0 <= l < |ids| ==>
      && |ids[l]| == step.queryStartLoc[|step.idxMapping|]
      && engrams[l].layer < |tb.multipliers| && LayerHashed(tb, dead, step, engrams[l].layer, ids[l])
  }

  method LayerIdsOf(tb: Tables, step: RunnerStep, output: array<seq<seq<int>>>, engrams: seq<Engram>,
                    tp: nat, ghost dead: int -> bool) returns (ids: seq<seq<seq<int>>>)
    requires tb.Valid() && step.Valid(tb) && output.Length == |step.inputIds| && ValidEngrams(tb, tp, engrams)
    requires forall r: nat, t: nat :: t < output.Length ==> StepHashed(tb, dead, step, r, t, output[t])
    ensures |ids| == |engrams| && HashedFor(tb, dead, step, engrams, ids)
  {
    ids := [];
    for l := 0 to |engrams|
      invariant |ids| == l && HashedFor(tb, dead, step, engrams, ids)
    {
      assert ValidEngram(tb, tp, engrams[l]);
      var one := LayerColumn(tb, step, output, engrams[l].layer, dead);
      ids := ids + [one];
    }
  }

  /** Rank k staged the rows of every layer. */
  ghost predicate RankStaged<O>(tb: Tables, tp: nat, k: nat, engrams: seq<Engram>, ids: seq<seq<seq<int>>>,
                                deq: (Bytes, Bytes) -> O, zero: O, rows: seq<seq<O>>)
    requires tb.Valid() && ValidEngrams(tb, tp, engrams) && |ids| == |engrams|
  {
    |rows| == |engrams| && forall l :: 0 <= l < |engrams| ==>
      LayerStaged(tb, tp, k, engrams[l], ids[l], deq, zero, rows[l])
  }

  ghost predicate LayerStaged<O>(tb: Tables, tp: nat, k: nat, e: Engram, ids: seq<seq<int>>,
                                 deq: (Bytes, Bytes) -> O, zero: O, rows: seq<O>)
    requires tb.Valid()
  {
    e.layer < |tb.primes| && Staged(OnRank(tb, tp, k, e, ids), deq, zero, rows)
  }

  /** One rank's staging of all layers, either way. */
  method StageRank<O>(tb: Tables, tp: nat, k: nat, engrams: seq<Engram>, ids: seq<seq<seq<int>>>, fast: bool,
                      deq: (Bytes, Bytes) -> O, zero: O, rowsPerTask: nat, threads: nat, maxChunk: int,
                      ghost dead: int -> bool, ghost step: RunnerStep)
    returns (r: Result<seq<seq<O>>, Error>)
    requires tb.Valid() && step.Valid(tb) && ValidEngrams(tb, tp, engrams) && k < tp && threads > 0
    requires |ids| == |engrams| && HashedFor(tb, dead, step, engrams, ids)
    ensures r.Success? ==> RankStaged(tb, tp, k, engrams, ids, deq, zero, r.value)
    ensures r.Failure? <==> RankFails(tb, tp, k, engrams, step.queryStartLoc[|step.idxMapping|], fast)
    ensures r.Failure? ==> r.error == ReadError
  {
    var layers: seq<LayerStep> := [];
    for l := 0 to |engrams|
      invariant |layers| == l && forall m :: 0 <= m < l ==>
        engrams[m].layer < |tb.primes| && layers[m] == OnRank(tb, tp, k, engrams[m], ids[m]) && layers[m].Valid()
    {
      assert ValidEngram(tb, tp, engrams[l]);
      layers := layers + [OnRank(tb, tp, k, engrams[l], ids[l])];
    }
    forall l | 0 <= l < |engrams|
      ensures ValidEngram(tb, tp, engrams[l]) && layers[l].Valid()
      ensures layers[l].Fails(fast) <==> LayerFails(tb, tp, k, engrams[l], |ids[l]|, fast)
    {
      assert ValidEngram(tb, tp, engrams[l]);
    }
    if fast {
      r := StageFast(layers, deq, zero, rowsPerTask, threads);
    } else {
      r := StageDisk(layers, deq, zero, threads, maxChunk);
    }
  }

  /** The ranks' rows of one layer, in rank order. */
  method LayerOuts<O>(tb: Tables, tp: nat, outs: seq<seq<seq<O>>>, engrams: seq<Engram>, ids: seq<seq<seq<int>>>,
                      l: nat, ghost deq: (Bytes, Bytes) -> O, ghost zero: O) returns (one: seq<seq<O>>)
    requires tb.Valid() && ValidEngrams(tb, tp, engrams) && |ids| == |engrams| && l < |engrams| && |outs| == tp
    requires AllRanksStaged(tb, tp, engrams, ids, deq, zero, outs)
    ensures |one| == tp && forall k :: 0 <= k < tp ==> LayerStaged(tb, tp, k, engrams[l], ids[l], deq, zero, one[k])
  {
    one := [];
    for k := 0 to tp
      invariant |one| == k && forall j :: 0 <= j < k ==> LayerStaged(tb, tp, j, engrams[l], ids[l], deq, zero, one[j])
    {
      assert RankStaged(tb, tp, k, engrams, ids, deq, zero, outs[k]);
      one := one + [outs[k][l]];
    }
  }

  /** Every entry of a layer whose bucket ends within int32 is its request's whole-sequence row. */
  ghost predicate LayerLooked<O(!new)>(tb: Tables, dead: int -> bool, step: RunnerStep, e: Engram,
                                       deq: (Bytes, Bytes) -> O, rows: seq<seq<O>>)
    requires tb.Valid() && step.Valid(tb) && e.layer < |tb.multipliers| && |e.f.w.rows| == |e.f.sc.rows|
  {
    && |rows| == step.queryStartLoc[|step.idxMapping|] && (forall t :: 0 <= t < |rows| ==> |rows[t]| == tb.Cols())
    && forall r: nat, t: nat, h: nat ::
      t < |rows| && r < |step.idxMapping| && step.HasToken(r, t) && h < tb.Cols() && BucketFits(tb, e.layer, h) ==>
        StepLooked(tb, dead, step, e.layer, TableOf(e.f), deq, r, t, h, rows[t][h])
  }

  /** One layer gathered over the ranks. */
  method GatherLayer<O(!new)>(tb: Tables, dead: int -> bool, step: RunnerStep, tp: nat, e: Engram, ids: seq<seq<int>>,
                              outs: seq<seq<O>>, deq: (Bytes, Bytes) -> O, zero: O, ghost vocab: int)
    returns (rows: seq<seq<O>>)
    requires Bounded(tb, vocab) && OffsetsOf(tb) && step.Valid(tb) && tp > 0 && ValidEngram(tb, tp, e) && |outs| == tp
    requires |ids| == step.queryStartLoc[|step.idxMapping|] && LayerHashed(tb, dead, step, e.layer, ids)
    requires forall k :: 0 <= k < tp ==> LayerStaged(tb, tp, k, e, ids, deq, zero, outs[k])
    ensures LayerLooked(tb, dead, step, e, deq, rows)
  {
    forall k | 0 <= k < tp
      ensures LookedUpBy(Shard(tb.primes[e.layer], tp, k), TableOf(e.f), deq, zero, ids, outs[k])
    {
      assert LayerStaged(tb, tp, k, e, ids, deq, zero, outs[k]);
    }
    rows := GatherLookups(tb.primes[e.layer], tp, outs, ids, TableOf(e.f), deq, zero);
    forall r: nat, t: nat, h: nat |
      t < |rows| && r < |step.idxMapping| && step.HasToken(r, t) && h < tb.Cols() && BucketFits(tb, e.layer, h)
      ensures StepLooked(tb, dead, step, e.layer, TableOf(e.f), deq, r, t, h, rows[t][h])
    {
      EntryLooked(tb, vocab, dead, step, e.layer, TableOf(e.f), deq, ids, rows, r, t, h);
    }
  }

  /** Some rank cannot stage the step. */
  ghost predicate StageFails(tb: Tables, tp: nat, engrams: seq<Engram>, tokens: nat, fast: bool)
    requires tb.Valid() && ValidEngrams(tb, tp, engrams)
  {
    exists k: nat :: k < tp && RankFails(tb, tp, k, engrams, tokens, fast)
  }

  ghost predicate AllRanksStaged<O>(tb: Tables, tp: nat, engrams: seq<Engram>, ids: seq<seq<seq<int>>>,
                                    deq: (Bytes, Bytes) -> O, zero: O, outs: seq<seq<seq<O>>>)
    requires tb.Valid() && ValidEngrams(tb, tp, engrams) && |ids| == |engrams| && |outs| <= tp
  {
    forall k :: 0 <= k < |outs| ==> RankStaged(tb, tp, k, engrams, ids, deq, zero, outs[k])
  }

  method StageRanks<O>(tb: Tables, tp: nat, engrams: seq<Engram>, ids: seq<seq<seq<int>>>, fast: bool,
                       deq: (Bytes, Bytes) -> O, zero: O, rowsPerTask: nat, threads: nat, maxChunk: int,
                       ghost dead: int -> bool, ghost step: RunnerStep)
    returns (r: Result<seq<seq<seq<O>>>, Error>)
    requires tb.Valid() && step.Valid(tb) && ValidEngrams(tb, tp, engrams) && threads > 0
    requires |ids| == |engrams| && HashedFor(tb, dead, step, engrams, ids)
    ensures r.Success? ==> |r.value| == tp && AllRanksStaged(tb, tp, engrams, ids, deq, zero, r.value)
    ensures r.Failure? <==> StageFails(tb, tp, engrams, step.queryStartLoc[|step.idxMapping|], fast)
    ensures r.Failure? ==> r.error == ReadError
  {
    var outs: seq<seq<seq<O>>> := [];
    for k := 0 to tp
      invariant |outs| == k && AllRanksStaged(tb, tp, engrams, ids, deq, zero, outs)
      invariant forall j: nat :: j < k ==>
        !RankFails(tb, tp, j, engrams, step.queryStartLoc[|step.idxMapping|], fast)
    {
      var one := StageRank(tb, tp, k, engrams, ids, fast, deq, zero, rowsPerTask, threads, maxChunk, dead, step);
      if one.Failure? {
        return Failure(ReadError);
      }
      outs := outs + [one.value];
    }
    r := Success(outs);
  }

  ghost predicate StepStaged<O(!new)>(tb: Tables, dead: int -> bool, step: RunnerStep, tp: nat, engrams: seq<Engram>,
                                      deq: (Bytes, Bytes) -> O, rows: seq<seq<seq<O>>>)
    requires tb.Valid() && step.Valid(tb) && ValidEngrams(tb, tp, engrams)
  {
    |rows| <= |engrams| && forall l :: 0 <= l < |rows| ==>
      ValidEngram(tb, tp, engrams[l]) && LayerLooked(tb, dead, step, engrams[l], deq, rows[l])
  }

  /** Every layer gathered over the ranks. */
  method GatherLayers<O(!new)>(tb: Tables, dead: int -> bool, step: RunnerStep, tp: nat, engrams: seq<Engram>,
                               ids: seq<seq<seq<int>>>, outs: seq<seq<seq<O>>>, deq: (Bytes, Bytes) -> O, zero: O,
                               ghost vocab: int)
    returns (rows: seq<seq<seq<O>>>)
    requires Bounded(tb, vocab) && OffsetsOf(tb) && step.Valid(tb) && ValidEngrams(tb, tp, engrams)
    requires |ids| == |engrams| && HashedFor(tb, dead, step, engrams, ids)
    requires |outs| == tp && AllRanksStaged(tb, tp, engrams, ids, deq, zero, outs)
    ensures |rows| == |engrams| && StepStaged(tb, dead, step, tp, engrams, deq, rows)
  {
    rows := [];
    for l := 0 to |engrams|
      invariant |rows| == l && StepStaged(tb, dead, step, tp, engrams, deq, rows)
    {
      assert ValidEngram(tb, tp, engrams[l]);
      var outsOfLayer := LayerOuts(tb, tp, outs, engrams, ids, l, deq, zero);
      var one := GatherLayer(tb, dead, step, tp, engrams[l], ids[l], outsOfLayer, deq, zero, vocab);
      rows := rows + [one];
    }
  }

  /** A step staged before its forward, from token histories to the rows of every layer over all ranks.
      Where it succeeds, every entry is what the resident tables give; it fails exactly when a rank has
      nothing but padding and no rows to read for it. */
  method StageStep<O(!new)>(tb: Tables, step: RunnerStep, window: array2<int>, output: array<seq<seq<int>>>,
                            dead: int -> bool, tp: nat, engrams: seq<Engram>, fast: bool,
                            deq: (Bytes, Bytes) -> O, zero: O, rowsPerTask: nat, threads: nat, maxChunk: int,
                            ghost vocab: int)
    returns (r: Result<seq<seq<seq<O>>>, Error>)
    requires Bounded(tb, vocab) && OffsetsOf(tb) && step.Valid(tb) && output.Length == |step.inputIds|
    requires window.Length0 >= |step.idxMapping| && window.Length1 == tb.maxNgram - 1
    requires ValidEngrams(tb, tp, engrams) && threads > 0
    modifies window, output
    ensures r.Success? ==> |r.value| == |engrams| && StepStaged(tb, dead, step, tp, engrams, deq, r.value)
    ensures r.Failure? <==> StageFails(tb, tp, engrams, step.queryStartLoc[|step.idxMapping|], fast)
    ensures r.Failure? ==> r.error == ReadError
  {
    HashStep(tb, step, window, output, dead);
    var ids := LayerIdsOf(tb, step, output, engrams, tp, dead);
    var outs := StageRanks(tb, tp, engrams, ids, fast, deq, zero, rowsPerTask, threads, maxChunk, dead, step);
    if outs.Failure? {
      return Failure(ReadError);
    }
    var rows := GatherLayers(tb, dead, step, tp, engrams, ids, outs.value, deq, zero, vocab);
    r := Success(rows);
  }

  /** A layer on a rank, through the memory map. */
  lemma LayerFastFails(tb: Tables, tp: nat, k: nat, e: Engram, tokens: nat, part: int)
    requires tb.Valid() && tp > 0 && ValidEngram(tb, tp, e) && k < tp && part == CeilDiv(tb.Cols(), tp)
    ensures part > 0 && (LayerFails(tb, tp, k, e, tokens, true) <==> tokens > 0 && k * part >= tb.Cols())
  {
    var s := Shard(tb.primes[e.layer], tp, k);
    PartPositive(s);
  }

  /** Staging through the memory map fails exactly when tokens are staged and the last rank has no head. */
  lemma FastFailsExactly(tb: Tables, tp: nat, engrams: seq<Engram>, tokens: nat)
    requires tb.Valid() && ValidEngrams(tb, tp, engrams)
    ensures StageFails(tb, tp, engrams, tokens, true) <==>
      tokens > 0 && engrams != [] && (tp - 1) * CeilDiv(tb.Cols(), tp) >= tb.Cols()
  {
    var part := CeilDiv(tb.Cols(), tp);
    if engrams != [] {
      LayerFastFails(tb, tp, tp - 1, engrams[0], tokens, part);
      assert LayerFails(tb, tp, tp - 1, engrams[0], tokens, true) ==> RankFails(tb, tp, tp - 1, engrams, tokens, true);
    }
    if StageFails(tb, tp, engrams, tokens, true) {
      var k: nat :| k < tp && RankFails(tb, tp, k, engrams, tokens, true);
      var l :| 0 <= l < |engrams| && LayerFails(tb, tp, k, engrams[l], tokens, true);
      LayerFastFails(tb, tp, k, engrams[l], tokens, part);
      MulMono(k, tp - 1, part);
    }
  }
}
