/** Planning KV memory over the workers: the binary search for the longest context, auto-fit,
    admission, and the block count all workers agree on. */
module AutoFit {
  import opened Arith
  import opened Wrappers

  /** A worker's projected groups: bytes of one block over all groups, and the blocks a request of a
      given length claims. */
  datatype Worker = Worker(bytesPerBlock: int, blocks: int -> int)
  {
    function Need(len: int): int { bytesPerBlock * blocks(len) }
  }

  /** Longer requests never need less. */
  ghost predicate Monotone(w: Worker) {
    forall a, b :: 1 <= a <= b ==> w.Need(a) <= w.Need(b)
  }

  ghost predicate AllMonotone(ws: seq<Worker>) {
    forall i :: 0 <= i < |ws| ==> Monotone(ws[i])
  }

  predicate FitsIn(w: Worker, len: int, available: int) {
    w.Need(len) <= available
  }

  /** r is the largest length of [1, top] that fits, 0 if none does. */
  ghost predicate IsLargestFit(w: Worker, top: int, available: int, r: int) {
    if r == 0 then forall len :: 1 <= len <= top ==> !FitsIn(w, len, available)
    else 1 <= r <= top && FitsIn(w, r, available) && forall len :: r < len <= top ==> !FitsIn(w, len, available)
  }

  class ModelConfig {
    var maxModelLen: int

    constructor (maxModelLen: int)
      ensures this.maxModelLen == maxModelLen
    {
      this.maxModelLen := maxModelLen;
    }

    /** Tries a length by writing it into the configuration. */
    method Fits(w: Worker, available: int, len: int) returns (ok: bool)
      modifies this
      ensures ok == FitsIn(w, len, available) && maxModelLen == len
    {
      maxModelLen := len;
      ok := w.Need(maxModelLen) <= available;
    }

    /** The binary search. Whatever the memory use looks like the answer fits and the configuration
        is as before; when memory use grows with the length, the answer is the largest that fits. */
    method EstimateMaxModelLen(w: Worker, available: int) returns (result: int)
      requires maxModelLen >= 1
      modifies this
      ensures maxModelLen == old(maxModelLen)
      ensures 0 <= result <= maxModelLen && (result == 0 <==> !FitsIn(w, 1, available))
      ensures result > 0 ==> FitsIn(w, result, available)
      ensures Monotone(w) ==> IsLargestFit(w, maxModelLen, available, result)
    {
      var originalMax := maxModelLen;
      var left, right := 1, originalMax;
      var first := Fits(w, available, left);
      if !first {
        maxModelLen := originalMax;
        assert Monotone(w) ==> IsLargestFit(w, originalMax, available, 0) by {
          if Monotone(w) {
            assert forall len :: 1 <= len ==> w.Need(1) <= w.Need(len);
          }
        }
        return 0;
      }
      result := 1;
      while left <= right
        invariant 1 <= left && right <= originalMax && 1 <= result <= originalMax
        invariant left - 1 <= result <= left && (left == 1 ==> result == 1) && (left > 1 ==> result == left - 1)
        invariant FitsIn(w, result, available)
        invariant Monotone(w) ==> forall len :: right < len <= originalMax ==> !FitsIn(w, len, available)
        decreases right - left
      {
        var mid := (left + right) / 2;
        var ok := Fits(w, available, mid);
        if ok {
          result, left := mid, mid + 1;
        } else {
          if Monotone(w) {
            assert forall len :: mid <= len ==> w.Need(mid) <= w.Need(len);
          }
          right := mid - 1;
        }
      }
      maxModelLen := originalMax;
    }

    /** Auto-fit over all workers: the longest context every worker can hold, or an error when some
        worker cannot hold a single token. */
    method AutoFitMaxModelLen(ws: seq<Worker>, available: seq<int>) returns (r: Result<(), Error>)
      requires |ws| == |available| && maxModelLen >= 1
      modifies this
      ensures (r.Success? || r == Failure(ValueError)) && (ws == [] ==> r.Success? && maxModelLen == old(maxModelLen))
      ensures r == Failure(ValueError) <==> exists i :: 0 <= i < |ws| && !FitsIn(ws[i], 1, available[i])
      ensures r == Failure(ValueError) ==> maxModelLen == old(maxModelLen)
      ensures r.Success? ==> 1 <= maxModelLen <= old(maxModelLen)
      ensures r.Success? && AllMonotone(ws) ==> AllFit(ws, available, maxModelLen)
      ensures r.Success? && AllMonotone(ws) ==>
        forall len :: maxModelLen < len <= old(maxModelLen) ==> !AllFit(ws, available, len)
    {
      if ws == [] {
        return Success(());
      }
      var originalMax := maxModelLen;
      var autoFitMax := originalMax;
      for i := 0 to |ws|
        invariant maxModelLen == originalMax && 0 <= autoFitMax <= originalMax
        invariant autoFitMax == 0 <==> exists k :: 0 <= k < i && !FitsIn(ws[k], 1, available[k])
        invariant AllMonotone(ws) && autoFitMax > 0 ==> AllFit(ws[..i], available[..i], autoFitMax)
        invariant AllMonotone(ws) ==> forall len :: autoFitMax < len <= originalMax ==> !AllFit(ws, available, len)
      {
        var workerMax := EstimateMaxModelLen(ws[i], available[i]);
        if AllMonotone(ws) {
          Narrowed(ws, available, i, autoFitMax, workerMax, originalMax);
        }
        if workerMax < autoFitMax {
          autoFitMax := workerMax;
        }
      }
      assert ws[..|ws|] == ws && available[..|ws|] == available;
      if autoFitMax <= 0 {
        return Failure(ValueError);
      }
      if autoFitMax < originalMax {
        maxModelLen := autoFitMax;
      }
      r := Success(());
    }
  }

  ghost predicate AllFit(ws: seq<Worker>, available: seq<int>, len: int)
    requires |ws| == |available|
  {
    forall i :: 0 <= i < |ws| ==> FitsIn(ws[i], len, available[i])
  }

  /** One more worker taken into account. */
  lemma Narrowed(ws: seq<Worker>, available: seq<int>, i: nat, fit: int, workerMax: int, top: int)
    requires |ws| == |available| && i < |ws| && AllMonotone(ws) && 0 <= fit <= top
    requires IsLargestFit(ws[i], top, available[i], workerMax)
    requires fit > 0 ==> AllFit(ws[..i], available[..i], fit)
    requires forall len :: fit < len <= top ==> !AllFit(ws, available, len)
    ensures Min(workerMax, fit) > 0 ==> AllFit(ws[..i + 1], available[..i + 1], Min(workerMax, fit))
    ensures forall len :: Min(workerMax, fit) < len <= top ==> !AllFit(ws, available, len)
  {
    var low := Min(workerMax, fit);
    if low > 0 {
      forall k | 0 <= k < i + 1 ensures FitsIn(ws[k], low, available[k]) {
        assert Monotone(ws[k]);
        if k < i {
          assert FitsIn(ws[..i][k], fit, available[..i][k]);
          assert ws[k].Need(low) <= ws[k].Need(fit);
        } else {
          assert ws[k].Need(low) <= ws[k].Need(workerMax);
        }
      }
    }
    forall len | low < len <= top ensures !AllFit(ws, available, len) {
      if workerMax < len {
        assert !FitsIn(ws[i], len, available[i]);
      }
    }
  }

  /** The admission check of one worker. */
  predicate Admitted(w: Worker, len: int, available: int) {
    available > 0 && w.Need(len) <= available
  }

  ghost predicate AllAdmitted(ws: seq<Worker>, available: seq<int>, len: int)
    requires |ws| == |available|
  {
    forall i :: 0 <= i < |ws| ==> Admitted(ws[i], len, available[i])
  }

  /** Every length needs at least one block. */
  ghost predicate AllNeedMemory(ws: seq<Worker>) {
    forall i, len {:trigger ws[i].Need(len)} :: 0 <= i < |ws| && len >= 1 ==> ws[i].Need(len) > 0
  }

  /** After a successful auto-fit no worker's admission check can fail. */
  lemma AutoFitAdmits(ws: seq<Worker>, available: seq<int>, len: int)
    requires |ws| == |available| && len >= 1 && AllFit(ws, available, len) && AllNeedMemory(ws)
    ensures AllAdmitted(ws, available, len)
  {
    forall i | 0 <= i < |ws| ensures Admitted(ws[i], len, available[i]) {
      assert FitsIn(ws[i], len, available[i]) && ws[i].Need(len) > 0;
    }
  }

  // ------------------------------------------------------------ all workers together

  /** A worker's memory, or the memory that exactly holds the overriding block count. */
  function Effective(w: Worker, available: int, override: Option<nat>): int {
    if override.Some? then override.value * w.bytesPerBlock else available
  }

  /** Memory for requests: one block stays the null block. */
  function Usable(w: Worker, available: int, override: Option<nat>): int {
    Effective(w, available, override) - w.bytesPerBlock
  }

  /** Blocks of one worker's plan. */
  function PlannedBlocks(w: Worker, memory: int, override: Option<nat>): int
    requires w.bytesPerBlock > 0
  {
    if override.Some? then override.value else memory / w.bytesPerBlock
  }

  ghost predicate ValidWorkers(ws: seq<Worker>) {
    forall i :: 0 <= i < |ws| ==> ws[i].bytesPerBlock > 0
  }

  function UsableMemory(ws: seq<Worker>, available: seq<int>, override: Option<nat>): (m: seq<int>)
    requires |ws| == |available|
    ensures |m| == |ws| && forall i :: 0 <= i < |ws| ==> m[i] == Usable(ws[i], available[i], override)
  {
    seq(|ws|, i requires 0 <= i < |ws| => Usable(ws[i], available[i], override))
  }

  /** The plan of a whole deployment: block counts per worker. Attention-free models get the one
      block the pool needs. */
  method GetKvCacheConfigs(cfg: ModelConfig, attentionFree: bool, ws: seq<Worker>, available: seq<int>,
                           override: Option<nat>, autoFit: bool) returns (r: Result<seq<int>, Error>)
    requires |ws| == |available| && ws != [] && cfg.maxModelLen >= 1
    modifies cfg
    ensures attentionFree ==> r == Success(seq(|ws|, _ => 1)) && cfg.maxModelLen == old(cfg.maxModelLen)
    ensures !attentionFree ==> (r == Failure(AssertionError) <==> !ValidWorkers(ws))
    ensures r.Success? || r == Failure(ValueError) || r == Failure(AssertionError)
    ensures !autoFit ==> cfg.maxModelLen == old(cfg.maxModelLen)
    ensures r.Success? && !attentionFree ==> 1 <= cfg.maxModelLen <= old(cfg.maxModelLen)
    ensures r.Success? && !attentionFree ==>
      && ValidWorkers(ws) && AllAdmitted(ws, UsableMemory(ws, available, override), cfg.maxModelLen)
      && IsPlan(ws, available, override, r.value)
    ensures r.Success? && !attentionFree ==>
      forall i :: 0 <= i < |ws| ==> UsableMemory(ws, available, override)[i] > 0
    ensures !attentionFree && ValidWorkers(ws) && !autoFit ==>
      (r.Success? <==> AllAdmitted(ws, UsableMemory(ws, available, override), old(cfg.maxModelLen)))
    ensures !attentionFree && ValidWorkers(ws) && autoFit && AllMonotone(ws) && AllNeedMemory(ws) ==>
      (r.Success? <==> AllFit(ws, UsableMemory(ws, available, override), 1))
    ensures r.Success? && !attentionFree && autoFit && AllMonotone(ws) ==>
      forall len :: cfg.maxModelLen < len <= old(cfg.maxModelLen) ==>
        !AllFit(ws, UsableMemory(ws, available, override), len)
  {
    if attentionFree {
      return Success(seq(|ws|, _ => 1));
    }
    var valid := AllPositive(ws);
    if !valid {
      return Failure(AssertionError);
    }
    var usable := UsableMemory(ws, available, override);
    if autoFit {
      var fitted := cfg.AutoFitMaxModelLen(ws, usable);
      if !fitted.Success? {
        return Failure(ValueError);
      }
      if AllMonotone(ws) && AllNeedMemory(ws) {
        AutoFitAdmits(ws, usable, cfg.maxModelLen);
        forall i | 0 <= i < |ws| ensures FitsIn(ws[i], 1, usable[i]) {
        }
      }
    }
    var admitted := CheckAll(ws, usable, cfg.maxModelLen);
    if !admitted {
      return Failure(ValueError);
    }
    var blocks := PlanBlocks(ws, available, override, cfg.maxModelLen);
    r := Success(blocks);
  }

  method AllPositive(ws: seq<Worker>) returns (ok: bool)
    ensures ok <==> ValidWorkers(ws)
  {
    for i := 0 to |ws|
      invariant ValidWorkers(ws[..i])
    {
      if ws[i].bytesPerBlock <= 0 {
        return false;
      }
    }
    assert ws[..|ws|] == ws;
    ok := true;
  }

  method CheckAll(ws: seq<Worker>, available: seq<int>, len: int) returns (ok: bool)
    requires |ws| == |available|
    ensures ok <==> AllAdmitted(ws, available, len)
  {
    for i := 0 to |ws|
      invariant forall k :: 0 <= k < i ==> Admitted(ws[k], len, available[k])
    {
      if !Admitted(ws[i], len, available[i]) {
        return false;
      }
    }
    ok := true;
  }

  /** All workers agree on one block count: the override, or else the least any worker's memory
      holds, which therefore lies inside every worker's own memory. */
  ghost predicate IsPlan(ws: seq<Worker>, available: seq<int>, override: Option<nat>, blocks: seq<int>)
    requires |ws| == |available|
  {
    && |blocks| == |ws| && ValidWorkers(ws) && ws != []
    && (forall i, j :: 0 <= i < |blocks| && 0 <= j < |blocks| ==> blocks[i] == blocks[j])
    && (override.Some? ==> forall i :: 0 <= i < |blocks| ==> blocks[i] == override.value)
    && (override.None? ==> forall i :: 0 <= i < |blocks| ==> blocks[i] * ws[i].bytesPerBlock <= available[i])
    && (override.None? ==> exists i :: 0 <= i < |blocks| && blocks[i] == available[i] / ws[i].bytesPerBlock)
  }

  /** The least block count over the workers, and then every larger worker planned again. */
  method PlanBlocks(ws: seq<Worker>, available: seq<int>, override: Option<nat>, len: int) returns (blocks: seq<int>)
    requires |ws| == |available| && ws != [] && ValidWorkers(ws)
    ensures IsPlan(ws, available, override, blocks)
  {
    blocks := seq(|ws|,
                  i requires 0 <= i < |ws| => PlannedBlocks(ws[i], Effective(ws[i], available[i], override), override));
    var planned := blocks;
    var least := planned[0];
    ghost var smallest := 0;
    for i := 1 to |ws|
      invariant 0 <= smallest < |ws| && planned[smallest] == least
      invariant forall k :: 0 <= k < i ==> least <= planned[k]
    {
      if planned[i] < least {
        least, smallest := planned[i], i;
      }
    }
    for i := 0 to |ws|
      invariant |blocks| == |ws|
      invariant forall k :: 0 <= k < i ==> blocks[k] == least
      invariant forall k :: i <= k < |ws| ==> blocks[k] == planned[k]
    {
      if blocks[i] != least {
        DivExact(least, ws[i].bytesPerBlock);
        blocks := blocks[i := PlannedBlocks(ws[i], least * ws[i].bytesPerBlock, override)];
      }
    }
    if override.None? {
      forall i | 0 <= i < |blocks| ensures blocks[i] * ws[i].bytesPerBlock <= available[i] {
        assert least <= planned[i] == available[i] / ws[i].bytesPerBlock;
        FloorFits(available[i], ws[i].bytesPerBlock, least);
      }
      assert blocks[smallest] == available[smallest] / ws[smallest].bytesPerBlock;
    }
  }

  lemma FloorFits(available: int, bytes: int, n: int)
    requires bytes > 0 && n <= available / bytes
    ensures n * bytes <= available
  {
    MulMono(n, available / bytes, bytes);
  }

  /** The shared pool has this many blocks besides the null block. */
  ghost predicate PoolHolds(blocks: seq<int>, demand: int) {
    forall i :: 0 <= i < |blocks| ==> demand <= blocks[i] - 1
  }

  /** That many blocks fit the memory a worker has for requests. */
  predicate DemandFits(w: Worker, usable: int, demand: int) {
    demand * w.bytesPerBlock <= usable
  }

  ghost predicate DemandFitsAll(ws: seq<Worker>, usable: seq<int>, demand: int)
    requires |ws| == |usable|
  {
    forall k :: 0 <= k < |ws| ==> DemandFits(ws[k], usable[k], demand)
  }

  /** The block count the workers agree on holds a demand if and only if the demand fits the memory of
      each of them less the null block: agreeing on the least count gives nothing away. */
  lemma PoolHoldsExactly(ws: seq<Worker>, available: seq<int>, override: Option<nat>, blocks: seq<int>, demand: int)
    requires |ws| == |available| && IsPlan(ws, available, override, blocks)
    ensures PoolHolds(blocks, demand) <==> DemandFitsAll(ws, UsableMemory(ws, available, override), demand)
  {
    var usable := UsableMemory(ws, available, override);
    if PoolHolds(blocks, demand) {
      forall k | 0 <= k < |ws| ensures DemandFits(ws[k], usable[k], demand) {
        WithinEffective(ws, available, override, blocks, k);
        ClaimedBlocks(demand, blocks[k], ws[k].bytesPerBlock, Effective(ws[k], available[k], override));
      }
    }
    if DemandFitsAll(ws, usable, demand) {
      var k := Bottleneck(ws, available, override, blocks);
      assert DemandFits(ws[k], usable[k], demand);
      BlocksWithin(demand, ws[k].bytesPerBlock, Effective(ws[k], available[k], override));
    }
  }

  /** The agreed blocks lie inside every worker's memory. */
  lemma WithinEffective(ws: seq<Worker>, available: seq<int>, override: Option<nat>, blocks: seq<int>, k: nat)
    requires |ws| == |available| && IsPlan(ws, available, override, blocks) && k < |ws|
    ensures blocks[k] * ws[k].bytesPerBlock <= Effective(ws[k], available[k], override)
  {
  }

  /** Some worker's memory holds no more than the agreed blocks. */
  lemma Bottleneck(ws: seq<Worker>, available: seq<int>, override: Option<nat>, blocks: seq<int>) returns (k: nat)
    requires |ws| == |available| && IsPlan(ws, available, override, blocks)
    ensures k < |ws| && Effective(ws[k], available[k], override) / ws[k].bytesPerBlock == blocks[k]
  {
    if override.Some? {
      k := 0;
      DivExact(override.value, ws[0].bytesPerBlock);
    } else {
      k :| 0 <= k < |blocks| && blocks[k] == available[k] / ws[k].bytesPerBlock;
    }
  }

  lemma ClaimedBlocks(n: int, blocks: int, bytes: int, memory: int)
    requires bytes > 0 && blocks * bytes <= memory
    ensures n <= blocks - 1 ==> n * bytes <= memory - bytes
  {
    if n <= blocks - 1 {
      MulMono(n, blocks - 1, bytes);
      assert (blocks - 1) * bytes == blocks * bytes - bytes;
    }
  }

  lemma BlocksWithin(n: int, bytes: int, memory: int)
    requires bytes > 0
    ensures n * bytes <= memory - bytes ==> n <= memory / bytes - 1
  {
    assert memory == memory / bytes * bytes + memory % bytes;
    if n >= memory / bytes {
      MulMono(memory / bytes, n, bytes);
    }
  }

  /** Every worker estimates the same demand for this length. */
  ghost predicate ClaimsAlike(ws: seq<Worker>, len: int, demand: int) {
    forall i :: 0 <= i < |ws| ==> ws[i].blocks(len) == demand
  }

  /** Where every worker's estimate is the request's demand, the admission checks accept exactly the
      lengths the shared pool holds. */
  lemma AdmissionExact(ws: seq<Worker>, available: seq<int>, override: Option<nat>, blocks: seq<int>,
                       len: int, demand: int)
    requires |ws| == |available| && IsPlan(ws, available, override, blocks)
    requires ClaimsAlike(ws, len, demand) && demand >= 1
    ensures AllAdmitted(ws, UsableMemory(ws, available, override), len) <==> PoolHolds(blocks, demand)
  {
    var usable := UsableMemory(ws, available, override);
    PoolHoldsExactly(ws, available, override, blocks, demand);
    forall k | 0 <= k < |ws| ensures Admitted(ws[k], len, usable[k]) <==> DemandFits(ws[k], usable[k], demand) {
      MulMono(1, demand, ws[k].bytesPerBlock);
      assert ws[k].Need(len) == ws[k].bytesPerBlock * demand == demand * ws[k].bytesPerBlock;
    }
    if AllAdmitted(ws, usable, len) {
      assert forall k :: 0 <= k < |ws| ==> Admitted(ws[k], len, usable[k]);
    }
    if DemandFitsAll(ws, usable, demand) {
      assert forall k :: 0 <= k < |ws| ==> DemandFits(ws[k], usable[k], demand);
    }
  }
}
