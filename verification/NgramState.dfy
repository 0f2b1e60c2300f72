/** Around the hash kernel: the launch over a whole batch, the lookback gather of the V2 runner,
    the slot cache of the V1 runner as a state machine, and the bucket ranges of the ids. */
module NgramState {
  import opened Arith
  import opened Int64
  import opened NgramHash

  // ------------------------------------------------------------ one launch over a batch

  /** Every row of the batch holds a chunk of its request. */
  ghost predicate BatchHolds(tb: Tables, dead: int -> bool, b: Batch, starts: seq<int>, hists: seq<seq<int>>) {
    && Shaped(b) && |starts| == b.Rows() && |hists| == b.Rows()
    && forall r :: 0 <= r < b.Rows() ==> RowHolds(tb, dead, b, r, starts[r], hists[r])
  }

  /** The stored ids [layer][column] are the whole-sequence hashes at position p of hist. */
  ghost predicate HashedAs(tb: Tables, dead: int -> bool, hist: seq<int>, p: int, ids: seq<seq<int>>)
    requires tb.Valid()
  {
    && 0 <= p < |hist| && |ids| == |tb.multipliers|
    && forall l :: 0 <= l < |ids| ==> ids[l] == LayerIds(tb, dead, hist, p, l)
  }

  /** Every column of one layer, hashed over the whole sequence. */
  ghost function LayerIds(tb: Tables, dead: int -> bool, hist: seq<int>, p: int, layer: nat): (row: seq<int>)
    requires tb.Valid() && 0 <= p < |hist| && layer < |tb.multipliers|
    ensures |row| == tb.Cols() && HashedPrefix(tb, dead, hist, p, layer, row)
  {
    seq(|tb.primes[layer]|, c requires 0 <= c < |tb.primes[layer]| => HashAt(tb, dead, hist, p, layer, c))
  }

  lemma IsLayerIds(tb: Tables, dead: int -> bool, hist: seq<int>, p: int, layer: nat, row: seq<int>)
    requires tb.Valid() && 0 <= p < |hist| && layer < |tb.multipliers|
    requires |row| == tb.Cols() && HashedPrefix(tb, dead, hist, p, layer, row)
    ensures row == LayerIds(tb, dead, hist, p, layer)
  {
  }

  /** Token t's output is the whole-sequence hash of its request at its position. */
  ghost predicate TokenHashed(tb: Tables, dead: int -> bool, b: Batch, starts: seq<int>, hists: seq<seq<int>>,
                              t: int, ids: seq<seq<int>>)
    requires tb.Valid() && |starts| == |hists| == b.Rows()
  {
    forall r :: 0 <= r < b.Rows() && InRow(b, r, t) ==> RowHashed(tb, dead, b, starts, hists, r, t, ids)
  }

  ghost predicate RowHashed(tb: Tables, dead: int -> bool, b: Batch, starts: seq<int>, hists: seq<seq<int>>,
                            r: int, t: int, ids: seq<seq<int>>)
    requires tb.Valid() && |starts| == |hists| == b.Rows() && 0 <= r < b.Rows()
  {
    HashedAs(tb, dead, hists[r], starts[r] + (t - b.queryStartLoc[r]), ids)
  }

  /** Rows are disjoint, so a token lies in at most one. */
  lemma RowUnique(b: Batch, r: int, r': int, t: int)
    requires Shaped(b) && 0 <= r < b.Rows() && 0 <= r' < b.Rows() && InRow(b, r, t) && InRow(b, r', t)
    ensures r == r'
  {
    assert b.queryStartLoc[r] <= t < b.queryStartLoc[r + 1];
    assert b.queryStartLoc[r'] <= t < b.queryStartLoc[r' + 1];
  }

  lemma {:induction false} RowOf(b: Batch, t: int, k: int) returns (r: int)
    requires Shaped(b) && 0 <= k <= b.Rows() && 0 <= t < b.queryStartLoc[k]
    ensures 0 <= r < k && InRow(b, r, t)
    decreases k
  {
    if b.queryStartLoc[k - 1] <= t {
      r := k - 1;
    } else {
      r := RowOf(b, t, k - 1);
    }
  }

  /** The lanes of one token, one per layer. */
  method HashToken(tb: Tables, b: Batch, t: int,
                   ghost dead: int -> bool, ghost starts: seq<int>, ghost hists: seq<seq<int>>)
    returns (ids: seq<seq<int>>)
    requires tb.Valid() && BatchHolds(tb, dead, b, starts, hists)
    requires 0 <= t < b.queryStartLoc[b.Rows()]
    ensures TokenHashed(tb, dead, b, starts, hists, t, ids)
  {
    ghost var r, hist, p := ChunkOf(tb, dead, b, starts, hists, t);
    ids := HashRow(tb, b, t, dead, starts, hists, r, hist, p);
  }

  method HashRow(tb: Tables, b: Batch, t: int, ghost dead: int -> bool, ghost starts: seq<int>,
                 ghost hists: seq<seq<int>>,
                 ghost r: int, ghost hist: seq<int>, ghost p: int) returns (ids: seq<seq<int>>)
    requires tb.Valid() && IsToken(tb, dead, b, t, hist, p) && 0 <= p < |hist|
    requires |starts| == |hists| == b.Rows() && 0 <= r < b.Rows()
    requires hist == hists[r] && p == starts[r] + (t - b.queryStartLoc[r])
    ensures RowHashed(tb, dead, b, starts, hists, r, t, ids)
  {
    ids := HashLayers(tb, b, t, dead, hist, p);
    AsRow(tb, dead, b, starts, hists, r, t, hist, p, ids);
  }

  lemma AsRow(tb: Tables, dead: int -> bool, b: Batch, starts: seq<int>, hists: seq<seq<int>>, r: int, t: int,
              hist: seq<int>, p: int, ids: seq<seq<int>>)
    requires tb.Valid() && |starts| == |hists| == b.Rows() && 0 <= r < b.Rows()
    requires hist == hists[r] && p == starts[r] + (t - b.queryStartLoc[r]) && HashedAs(tb, dead, hist, p, ids)
    ensures RowHashed(tb, dead, b, starts, hists, r, t, ids)
  {
  }

  /** The row a token lies in and its place in the request. */
  lemma ChunkOf(tb: Tables, dead: int -> bool, b: Batch, starts: seq<int>, hists: seq<seq<int>>, t: int)
    returns (r: int, hist: seq<int>, p: int)
    requires tb.Valid() && BatchHolds(tb, dead, b, starts, hists) && 0 <= t < b.queryStartLoc[b.Rows()]
    ensures 0 <= r < b.Rows() && |starts| == |hists| == b.Rows() && OnlyRow(b, r, t)
    ensures hist == hists[r] && p == starts[r] + (t - b.queryStartLoc[r]) && 0 <= p < |hist|
    ensures IsToken(tb, dead, b, t, hist, p)
  {
    r := RowOf(b, t, b.Rows());
    hist, p := hists[r], starts[r] + (t - b.queryStartLoc[r]);
    assert RowHolds(tb, dead, b, r, starts[r], hists[r]);
    assert InChunk(tb, dead, b, t, hist, p, r, starts[r]);
    ChunkTokens(tb, dead, b, t, hist, p, r, starts[r]);
    forall k | 0 <= k < b.Rows() && InRow(b, k, t) ensures k == r {
      RowUnique(b, r, k, t);
    }
  }

  ghost predicate OnlyRow(b: Batch, r: int, t: int) {
    forall k :: 0 <= k < b.Rows() && InRow(b, k, t) ==> k == r
  }

  method HashLayers(tb: Tables, b: Batch, t: int, ghost dead: int -> bool, ghost hist: seq<int>, ghost p: int)
    returns (ids: seq<seq<int>>)
    requires tb.Valid() && IsToken(tb, dead, b, t, hist, p) && 0 <= p < |hist|
    ensures HashedAs(tb, dead, hist, p, ids)
  {
    ids := [];
    for l := 0 to |tb.multipliers|
      invariant |ids| == l
      invariant forall k :: 0 <= k < l ==> ids[k] == LayerIds(tb, dead, hist, p, k)
    {
      var row := HashLane(tb, b, t, l, dead, hist, p);
      IsLayerIds(tb, dead, hist, p, l, row);
      ids := ids + [row];
    }
  }

  /** The launch: every token of every request gets its whole-sequence hash. Tokens past the last
      row boundary are batch padding and get some value. */
  method HashIds(tb: Tables, b: Batch, output: array<seq<seq<int>>>,
                 ghost dead: int -> bool, ghost starts: seq<int>, ghost hists: seq<seq<int>>)
    requires tb.Valid() && BatchHolds(tb, dead, b, starts, hists)
    requires output.Length == |b.inputIds|
    modifies output
    ensures forall t :: 0 <= t < output.Length && t < b.queryStartLoc[b.Rows()] ==>
      TokenHashed(tb, dead, b, starts, hists, t, output[t])
  {
    for t := 0 to output.Length
      invariant forall k :: 0 <= k < t && k < b.queryStartLoc[b.Rows()] ==>
        TokenHashed(tb, dead, b, starts, hists, k, output[k])
    {
      if t < b.queryStartLoc[b.Rows()] {
        output[t] := HashToken(tb, b, t, dead, starts, hists);
      } else {
        output[t] := *;
      }
    }
  }

  /** Row r of the batch puts position p of hist at token t. */
  ghost predicate Places(b: Batch, starts: seq<int>, hists: seq<seq<int>>, r: int, t: int, hist: seq<int>, p: int) {
    && 0 <= r < b.Rows() == |starts| == |hists| && InRow(b, r, t)
    && hists[r] == hist && starts[r] + (t - b.queryStartLoc[r]) == p
  }

  /** However a request's tokens are cut into chunks and whatever they are batched with, the
      same position gets the same ids. */
  lemma ChunkingIrrelevant(tb: Tables, dead: int -> bool, hist: seq<int>, p: int,
      b: Batch, starts: seq<int>, hists: seq<seq<int>>, r: int, t: int, ids: seq<seq<int>>,
      b': Batch, starts': seq<int>, hists': seq<seq<int>>, r': int, t': int, ids': seq<seq<int>>)
    requires tb.Valid() && |starts| == |hists| == b.Rows() && |starts'| == |hists'| == b'.Rows()
    requires Places(b, starts, hists, r, t, hist, p) && Places(b', starts', hists', r', t', hist, p)
    requires TokenHashed(tb, dead, b, starts, hists, t, ids) && TokenHashed(tb, dead, b', starts', hists', t', ids')
    ensures ids == ids'
  {
    assert RowHashed(tb, dead, b, starts, hists, r, t, ids) && RowHashed(tb, dead, b', starts', hists', r', t', ids');
  }

  // ------------------------------------------------------------ the V2 lookback window

  /** Content of window cell (row, c): the token c + 1 before the chunk start, or -1. */
  function WindowToken(hist: seq<int>, computed: int, c: int): int {
    if 0 <= computed - 1 - c < |hist| then hist[computed - 1 - c] else -1
  }

  /** Refills the persistent window: rows of the batch from the runner's token history, the
      others with -1. */
  method GatherLookback(window: array2<int>, idxMapping: seq<int>, numComputed: seq<int>,
                        allTokenIds: seq<seq<int>>, numReqs: nat)
    requires numReqs <= |idxMapping| && |numComputed| == |allTokenIds|
    requires forall i :: 0 <= i < numReqs ==> 0 <= idxMapping[i] < |numComputed|
    requires forall s :: 0 <= s < |numComputed| ==> numComputed[s] <= |allTokenIds[s]|
    modifies window
    ensures forall row, c :: 0 <= row < window.Length0 && 0 <= c < window.Length1 ==>
      window[row, c] == if row < numReqs then WindowToken(allTokenIds[idxMapping[row]], numComputed[idxMapping[row]], c)
        else -1
  {
    for row := 0 to window.Length0
      invariant forall k, c :: 0 <= k < row && 0 <= c < window.Length1 ==>
        window[k, c] == if k < numReqs then WindowToken(allTokenIds[idxMapping[k]], numComputed[idxMapping[k]], c)
          else -1
    {
      for off := 0 to window.Length1
        invariant forall c :: 0 <= c < off ==>
          window[row, c]
            == if row < numReqs then WindowToken(allTokenIds[idxMapping[row]], numComputed[idxMapping[row]], c) else -1
        invariant forall k, c :: 0 <= k < row && 0 <= c < window.Length1 ==>
          window[k, c] == if k < numReqs then WindowToken(allTokenIds[idxMapping[k]], numComputed[idxMapping[k]], c)
            else -1
      {
        if row < numReqs {
          var state := idxMapping[row];
          var pos := numComputed[state] - 1 - off;
          window[row, off] := if pos >= 0 then allTokenIds[state][pos] else -1;
        } else {
          window[row, off] := -1;
        }
      }
    }
  }

  /** A gathered window of depth maxNgram - 1 is exactly enough history: nothing the kernel
      can ask for is missing, whether or not there is a slot cache. */
  lemma GatheredWindowSuffices(tb: Tables, dead: int -> bool, b: Batch, r: int, start: int, hist: seq<int>)
    requires Shaped(b) && 0 <= r < b.Rows() && 0 <= start <= |hist| && tb.Valid()
    requires b.depth >= tb.maxNgram - 1
    requires forall q :: 0 <= q < |hist| ==> 0 <= hist[q]
    requires forall c :: 0 <= c < b.depth ==> b.lookback[r][c] == WindowToken(hist, start, c)
    requires forall c :: 0 <= c < b.depth && b.lookback[r][c] >= 0 ==> b.lookbackDead[r][c] == dead(b.lookback[r][c])
    ensures forall q :: start - tb.maxNgram < q < start ==> HistoryAvailable(tb, dead, b, r, start, hist, q)
  {
    forall q | start - tb.maxNgram < q < start ensures HistoryAvailable(tb, dead, b, r, start, hist, q) {
      var c := start - 1 - q;
      assert 0 <= c < b.depth && b.lookback[r][c] == WindowToken(hist, start, c);
    }
  }

  // ------------------------------------------------------------ the V1 slot cache

  /** A request as the V1 runner sees it: its tokens, how many are computed, the physical slot
      of each position, and the first position whose slot it still holds (sliding window). */
  datatype Request = Request(hist: seq<int>, computed: nat, live: nat, slot: seq<int>)

  ghost predicate WellPlaced(q: Request, slots: nat) {
    && q.computed <= |q.hist| && |q.slot| == |q.hist|
    && forall p :: q.live <= p < |q.hist| ==> 0 <= q.slot[p] < slots
  }

  /** Position p holds a slot and a token. */
  ghost predicate Held(q: Request, p: int) {
    0 <= q.live <= p < |q.hist| && |q.slot| == |q.hist|
  }

  /** Two positions in the same slot hold the same token. */
  ghost predicate SameToken(tb: Tables, dead: int -> bool, a: Request, p: int, b: Request, p': int) {
    Held(a, p) && Held(b, p') && a.slot[p] == b.slot[p'] ==>
      Source(tb, dead, a.hist[p]) == Source(tb, dead, b.hist[p'])
  }

  /** Live positions share a slot only if they hold the same token (prefix-cache hits). */
  ghost predicate SharingSound(tb: Tables, dead: int -> bool, live: map<int, Request>) {
    forall i, j, p, p' :: i in live && j in live && Held(live[i], p) && Held(live[j], p') ==>
      SameToken(tb, dead, live[i], p, live[j], p')
  }

  lemma Shared(tb: Tables, dead: int -> bool, live: map<int, Request>, i: int, p: int, j: int, p': int)
    requires SharingSound(tb, dead, live) && i in live && j in live && Held(live[i], p) && Held(live[j], p')
    ensures SameToken(tb, dead, live[i], p, live[j], p')
  {
  }

  /** Every live computed position reads back its own token. */
  ghost predicate CacheAgrees(tb: Tables, dead: int -> bool, cache: seq<int>, q: Request) {
    WellPlaced(q, |cache|) &&
    forall p :: q.live <= p < q.computed ==> cache[q.slot[p]] == Source(tb, dead, q.hist[p])
  }

  /** One step for one request: tokens may change from `start` on (draft rollback), `start`
      tokens were computed before, and slots before `start` stay put while live. */
  ghost predicate StepsTo(before: Request, after: Request, start: nat) {
    && start <= before.computed <= |before.hist| && start <= after.computed <= |after.hist|
    && after.hist[..start] == before.hist[..start]
    && before.live <= after.live && |after.slot| == |after.hist| && |before.slot| == |before.hist|
    && (forall p :: after.live <= p < start ==> after.slot[p] == before.slot[p])
  }

  /** The requests the runner holds, by id, and the slots whose content is that of a computed token
      and that were not handed out again since: those of live requests, and those a finished request
      left behind in the prefix cache. */
  datatype World = World(requests: map<int, Request>, kept: map<int, int>)

  /** What one step writes: per batch token its id, dead mark and slot, with the request and the
      position it belongs to; where each request's computation starts; the slots handed out again. */
  datatype Step = Step(inputIds: seq<int>, deadMask: seq<bool>, slotMapping: seq<int>,
                       owner: seq<int>, pos: seq<int>, start: map<int, nat>, reused: set<int>)

  /** Position p of q finds its token in a slot kept since before the step. */
  ghost predicate FindsKept(tb: Tables, dead: int -> bool, kept: map<int, int>, reused: set<int>, q: Request, p: int) {
    && Held(q, p) && q.slot[p] in kept && q.slot[p] !in reused
    && kept[q.slot[p]] == Source(tb, dead, q.hist[p])
  }

  /** A request enters with `start` tokens computed by others: the prefix cache hit those slots. */
  ghost predicate Joins(tb: Tables, dead: int -> bool, w: World, st: Step, q: Request, start: nat) {
    start <= q.computed && forall p :: q.live <= p < start ==> FindsKept(tb, dead, w.kept, st.reused, q, p)
  }

  /** A request stays; the slots it goes on using are not handed out again. */
  ghost predicate Stays(st: Step, before: Request, after: Request, start: nat) {
    StepsTo(before, after, start) && forall p :: after.live <= p < start ==> after.slot[p] !in st.reused
  }

  ghost predicate Moves(tb: Tables, dead: int -> bool, w: World, w': World, st: Step, slots: nat, i: int)
    requires i in w'.requests
  {
    var q := w'.requests[i];
    && i in st.start && WellPlaced(q, slots) && InVocab(tb, q)
    && (if i in w.requests then Stays(st, w.requests[i], q, st.start[i]) else Joins(tb, dead, w, st, q, st.start[i]))
    && (forall p :: st.start[i] <= p < q.computed && q.live <= p ==> Stores(st, i, p))
  }

  ghost predicate InVocab(tb: Tables, q: Request) {
    forall p :: 0 <= p < |q.hist| ==> 0 <= q.hist[p] < |tb.tokenMap|
  }

  /** Some token of the batch stores position p of request i. */
  ghost predicate Stores(st: Step, i: int, p: int) {
    exists t :: 0 <= t < |st.inputIds| && StoresAt(st, t, i, p)
  }

  ghost predicate StoresAt(st: Step, t: int, i: int, p: int) {
    && 0 <= t < |st.slotMapping| && t < |st.owner| && t < |st.pos|
    && st.owner[t] == i && st.pos[t] == p && st.slotMapping[t] >= 0
  }

  /** Batch token t is the token it stores. */
  ghost predicate TokenOf(dead: int -> bool, w': World, st: Step, t: int)
    requires |st.deadMask| == |st.inputIds| == |st.slotMapping| == |st.owner| == |st.pos| && 0 <= t < |st.inputIds|
  {
    && st.owner[t] in w'.requests
    && var q := w'.requests[st.owner[t]];
    && Held(q, st.pos[t]) && st.inputIds[t] == q.hist[st.pos[t]] && st.slotMapping[t] == q.slot[st.pos[t]]
    && st.deadMask[t] == dead(st.inputIds[t])
  }

  /** Kept slots afterwards: those before that were not handed out, and those written. */
  ghost predicate KeptAfter(tb: Tables, w: World, w': World, st: Step)
    requires |st.deadMask| == |st.inputIds| == |st.slotMapping|
  {
    && (forall s :: s in w.kept && s !in st.reused && s !in st.slotMapping ==>
         s in w'.kept && w'.kept[s] == w.kept[s])
    && (forall s :: s in w'.kept && (s < 0 || s !in st.slotMapping) ==> s in w.kept && w'.kept[s] == w.kept[s])
    && (forall t :: 0 <= t < |st.slotMapping| && st.slotMapping[t] >= 0 ==>
         st.slotMapping[t] in w'.kept && w'.kept[st.slotMapping[t]] == Written(tb, st.inputIds[t], st.deadMask[t]))
  }

  /** One engine step: any requests may join, stay or leave. */
  ghost predicate Steps(tb: Tables, dead: int -> bool, w: World, w': World, st: Step, slots: nat) {
    && |st.deadMask| == |st.inputIds| == |st.slotMapping| == |st.owner| == |st.pos|
    && (forall i :: i in w'.requests ==> Moves(tb, dead, w, w', st, slots, i))
    && (forall t :: 0 <= t < |st.inputIds| && st.slotMapping[t] >= 0 ==> TokenOf(dead, w', st, t))
    && SharingSound(tb, dead, w'.requests) && KeptAfter(tb, w, w', st)
  }

  /** The invariant: kept slots hold what they were kept for, and every live computed position of
      every request lies in a slot kept for its token. */
  ghost predicate Agrees(tb: Tables, dead: int -> bool, cache: seq<int>, w: World) {
    && (forall s :: s in w.kept ==> 0 <= s < |cache| && cache[s] == w.kept[s])
    && (forall i :: i in w.requests ==> WellPlaced(w.requests[i], |cache|) && AllKept(tb, dead, w, w.requests[i]))
  }

  ghost predicate AllKept(tb: Tables, dead: int -> bool, w: World, q: Request) {
    forall p :: q.live <= p < q.computed ==> FindsKept(tb, dead, w.kept, {}, q, p)
  }

  lemma AgreesReads(tb: Tables, dead: int -> bool, cache: seq<int>, w: World, i: int)
    requires Agrees(tb, dead, cache, w) && i in w.requests
    ensures CacheAgrees(tb, dead, cache, w.requests[i])
  {
    var q := w.requests[i];
    forall p | q.live <= p < q.computed ensures cache[q.slot[p]] == Source(tb, dead, q.hist[p]) {
      assert FindsKept(tb, dead, w.kept, {}, q, p);
    }
  }

  /** A batch token's stored value is its request's token at its position. */
  lemma StoredToken(tb: Tables, dead: int -> bool, w: World, w': World, st: Step, slots: nat, t: int)
    requires Steps(tb, dead, w, w', st, slots) && 0 <= t < |st.inputIds| && st.slotMapping[t] >= 0
    ensures TokenOf(dead, w', st, t) && 0 <= st.slotMapping[t] < slots
    ensures Written(tb, st.inputIds[t], st.deadMask[t])
      == Source(tb, dead, w'.requests[st.owner[t]].hist[st.pos[t]])
  {
    assert TokenOf(dead, w', st, t) && Moves(tb, dead, w, w', st, slots, st.owner[t]);
  }

  /** Tokens of a step that go to one slot store one value. */
  lemma StoresConsistent(tb: Tables, dead: int -> bool, w: World, w': World, st: Step, slots: nat, t: int, t': int)
    requires Steps(tb, dead, w, w', st, slots) && 0 <= t < |st.inputIds| && 0 <= t' < |st.inputIds|
    requires st.slotMapping[t] == st.slotMapping[t'] >= 0
    ensures Written(tb, st.inputIds[t], st.deadMask[t]) == Written(tb, st.inputIds[t'], st.deadMask[t'])
  {
    StoredToken(tb, dead, w, w', st, slots, t);
    StoredToken(tb, dead, w, w', st, slots, t');
    Shared(tb, dead, w'.requests, st.owner[t], st.pos[t], st.owner[t'], st.pos[t']);
  }

  /** A slot the step writes is kept for the token of every live position in it. */
  lemma RewrittenKept(tb: Tables, dead: int -> bool, w: World, w': World, st: Step, slots: nat, i: int, p: int, t: int)
    requires Steps(tb, dead, w, w', st, slots) && i in w'.requests && Held(w'.requests[i], p)
    requires 0 <= t < |st.inputIds| && st.slotMapping[t] == w'.requests[i].slot[p] >= 0
    ensures FindsKept(tb, dead, w'.kept, {}, w'.requests[i], p)
  {
    StoredToken(tb, dead, w, w', st, slots, t);
    Shared(tb, dead, w'.requests, st.owner[t], st.pos[t], i, p);
  }

  /** A position computed before the step, whose slot the step does not write, is still kept. */
  lemma UntouchedKept(tb: Tables, dead: int -> bool, cache: seq<int>, w: World, w': World, st: Step, i: int, p: int)
    requires Agrees(tb, dead, cache, w) && Steps(tb, dead, w, w', st, |cache|) && i in w'.requests
    requires Moves(tb, dead, w, w', st, |cache|, i) && w'.requests[i].live <= p < st.start[i]
    requires w'.requests[i].slot[p] !in st.slotMapping
    ensures FindsKept(tb, dead, w'.kept, {}, w'.requests[i], p)
  {
    var q := w'.requests[i];
    if i in w.requests {
      var q0 := w.requests[i];
      assert AllKept(tb, dead, w, q0) && FindsKept(tb, dead, w.kept, {}, q0, p);
      assert q0.hist[..st.start[i]][p] == q.hist[..st.start[i]][p];
      assert q.slot[p] == q0.slot[p] && q.slot[p] !in st.reused;
    } else {
      assert FindsKept(tb, dead, w.kept, st.reused, q, p);
    }
  }

  lemma StepKeepsRequest(tb: Tables, dead: int -> bool, cache: seq<int>, w: World, w': World, st: Step, i: int)
    requires Agrees(tb, dead, cache, w) && Steps(tb, dead, w, w', st, |cache|) && i in w'.requests
    ensures WellPlaced(w'.requests[i], |cache|) && AllKept(tb, dead, w', w'.requests[i])
  {
    var q := w'.requests[i];
    assert Moves(tb, dead, w, w', st, |cache|, i);
    forall p | q.live <= p < q.computed ensures FindsKept(tb, dead, w'.kept, {}, q, p) {
      if p >= st.start[i] {
        assert Stores(st, i, p);
        var t :| 0 <= t < |st.inputIds| && StoresAt(st, t, i, p);
        assert TokenOf(dead, w', st, t);
        RewrittenKept(tb, dead, w, w', st, |cache|, i, p, t);
      } else if q.slot[p] in st.slotMapping {
        var t :| 0 <= t < |st.slotMapping| && st.slotMapping[t] == q.slot[p];
        RewrittenKept(tb, dead, w, w', st, |cache|, i, p, t);
      } else {
        UntouchedKept(tb, dead, cache, w, w', st, i, p);
      }
    }
  }

  ghost predicate WroteStep(tb: Tables, st: Step, cache: seq<int>, cache': seq<int>) {
    && |cache| == |cache'| && |st.deadMask| == |st.inputIds| == |st.slotMapping|
    && (forall t :: 0 <= t < |st.slotMapping| && st.slotMapping[t] >= 0 ==>
         st.slotMapping[t] < |cache'| && cache'[st.slotMapping[t]] == Written(tb, st.inputIds[t], st.deadMask[t]))
    && (forall s :: 0 <= s < |cache| && s !in st.slotMapping ==> cache'[s] == cache[s])
  }

  /** The writes of a step keep the invariant over every request that stays or joins. */
  lemma WritesKeepAgreement(tb: Tables, dead: int -> bool, cache: seq<int>, cache': seq<int>, w: World, w': World,
                            st: Step)
    requires Agrees(tb, dead, cache, w) && Steps(tb, dead, w, w', st, |cache|) && WroteStep(tb, st, cache, cache')
    ensures Agrees(tb, dead, cache', w')
  {
    forall i | i in w'.requests
      ensures WellPlaced(w'.requests[i], |cache'|) && AllKept(tb, dead, w', w'.requests[i])
    {
      StepKeepsRequest(tb, dead, cache, w, w', st, i);
    }
    forall s | s in w'.kept ensures 0 <= s < |cache'| && cache'[s] == w'.kept[s] {
      KeptHolds(tb, dead, cache, cache', w, w', st, s);
    }
  }

  lemma KeptHolds(tb: Tables, dead: int -> bool, cache: seq<int>, cache': seq<int>, w: World, w': World, st: Step,
                  s: int)
    requires Agrees(tb, dead, cache, w) && Steps(tb, dead, w, w', st, |cache|) && WroteStep(tb, st, cache, cache')
    requires s in w'.kept
    ensures 0 <= s < |cache'| && cache'[s] == w'.kept[s]
  {
    if s >= 0 && s in st.slotMapping {
      var t :| 0 <= t < |st.slotMapping| && st.slotMapping[t] == s;
      assert w'.kept[s] == Written(tb, st.inputIds[t], st.deadMask[t]);
    } else {
      assert s in w.kept;
    }
  }

  class SlotCache {
    var cache: array<int>

    constructor (numSlots: nat)
      ensures fresh(cache) && cache.Length == numSlots
      ensures forall s :: 0 <= s < numSlots ==> cache[s] == 0
    {
      cache := new int[numSlots](_ => 0);
    }

    /** Writes each token's compressed id to its slot; slot -1 is skipped. */
    method Write(tb: Tables, inputIds: seq<int>, deadMask: seq<bool>, slotMapping: seq<int>)
      requires |deadMask| == |inputIds| == |slotMapping|
      requires forall t :: 0 <= t < |slotMapping| ==> slotMapping[t] < cache.Length
      requires forall t, t' ::
        0 <= t < t' < |slotMapping| && slotMapping[t] == slotMapping[t'] && slotMapping[t] >= 0 ==>
        Written(tb, inputIds[t], deadMask[t]) == Written(tb, inputIds[t'], deadMask[t'])
      modifies cache
      ensures forall t :: 0 <= t < |slotMapping| && slotMapping[t] >= 0 ==>
        cache[slotMapping[t]] == Written(tb, inputIds[t], deadMask[t])
      ensures forall s :: 0 <= s < cache.Length && s !in slotMapping ==> cache[s] == old(cache[s])
    {
      for t := 0 to |inputIds|
        invariant forall k :: 0 <= k < t && slotMapping[k] >= 0 ==>
          cache[slotMapping[k]] == Written(tb, inputIds[k], deadMask[k])
        invariant forall s :: 0 <= s < cache.Length && s !in slotMapping ==> cache[s] == old(cache[s])
      {
        if slotMapping[t] >= 0 {
          cache[slotMapping[t]] := Written(tb, inputIds[t], deadMask[t]);
        }
      }
    }

    /** One engine step's writes. */
    method WriteStep(tb: Tables, st: Step, ghost dead: int -> bool, ghost w: World, ghost w': World)
      requires Agrees(tb, dead, cache[..], w) && Steps(tb, dead, w, w', st, cache.Length)
      modifies cache
      ensures Agrees(tb, dead, cache[..], w')
    {
      ghost var was := cache[..];
      forall t | 0 <= t < |st.slotMapping| && st.slotMapping[t] >= 0 ensures st.slotMapping[t] < cache.Length {
        StoredToken(tb, dead, w, w', st, cache.Length, t);
      }
      forall t, t' | 0 <= t < t' < |st.slotMapping| && st.slotMapping[t] == st.slotMapping[t'] && st.slotMapping[t] >= 0
        ensures Written(tb, st.inputIds[t], st.deadMask[t]) == Written(tb, st.inputIds[t'], st.deadMask[t'])
      {
        StoresConsistent(tb, dead, w, w', st, cache.Length, t, t');
      }
      Write(tb, st.inputIds, st.deadMask, st.slotMapping);
      WritesKeepAgreement(tb, dead, was, cache[..], w, w', st);
    }

    /** A run from an empty runner: whatever requests join (on prefix-cache hits or not), are computed
        in chunks, roll drafts back, and leave, every live position of every request reads back its own
        token after every step. */
    method Run(tb: Tables, steps: seq<Step>, ghost dead: int -> bool, ghost worlds: seq<World>)
      requires |worlds| == |steps| + 1 && worlds[0] == World(map[], map[])
      requires IsRun(tb, dead, worlds, steps, cache.Length)
      modifies cache
      ensures forall i :: i in worlds[|steps|].requests ==>
        CacheAgrees(tb, dead, cache[..], worlds[|steps|].requests[i])
    {
      for k := 0 to |steps|
        invariant Agrees(tb, dead, cache[..], worlds[k])
      {
        assert Steps(tb, dead, worlds[k], worlds[k + 1], steps[k], cache.Length);
        WriteStep(tb, steps[k], dead, worlds[k], worlds[k + 1]);
      }
      forall i | i in worlds[|steps|].requests
        ensures CacheAgrees(tb, dead, cache[..], worlds[|steps|].requests[i])
      {
        AgreesReads(tb, dead, cache[..], worlds[|steps|], i);
      }
    }
  }

  ghost predicate IsRun(tb: Tables, dead: int -> bool, worlds: seq<World>, steps: seq<Step>, slots: nat)
    requires |worlds| == |steps| + 1
  {
    forall k {:trigger steps[k]} :: 0 <= k < |steps| ==> Steps(tb, dead, worlds[k], worlds[k + 1], steps[k], slots)
  }

  function Written(tb: Tables, token: int, isDead: bool): int {
    if isDead then DEAD_ID else LoadMap(tb, token)
  }

  /** With the invariant, the slot cache is enough history for the kernel even when the window
      has nothing, as long as the live range reaches maxNgram - 1 tokens back. */
  lemma AgreementSuffices(tb: Tables, dead: int -> bool, b: Batch, r: int, start: int, q: Request)
    requires tb.Valid() && Shaped(b) && 0 <= r < b.Rows() && b.slots.Some? && 0 <= start <= q.computed
    requires CacheAgrees(tb, dead, b.slots.value.cache, q)
    requires q.live <= Max(0, start - (tb.maxNgram - 1))
    requires forall p :: q.live <= p < start ==>
      SlotOf(b.slots.value, Min(r, |b.slots.value.blockTable| - 1), p) == q.slot[p]
    requires forall c :: 0 <= c < b.depth && b.lookback[r][c] != -1 ==>
      b.lookback[r][c] == WindowToken(q.hist, start, c) && b.lookbackDead[r][c] == dead(b.lookback[r][c])
    ensures forall p :: start - tb.maxNgram < p < start ==> HistoryAvailable(tb, dead, b, r, start, q.hist, p)
  {
    forall p | start - tb.maxNgram < p < start ensures HistoryAvailable(tb, dead, b, r, start, q.hist, p) {
      var c := start - 1 - p;
      assert c < b.depth ==> b.lookback[r][c] == -1 || b.lookback[r][c] == WindowToken(q.hist, start, c);
    }
  }

  // ------------------------------------------------------------ bounds and bucket ranges

  /** One multiplier per lookback from a random draw below the bound. */
  function MultiplierBound(vocab: int): int
    requires vocab >= 1
  {
    Max(1, (Pow2(63) - 1) / vocab / 2)
  }

  function Multiplier(draw: int): int {
    draw * 2 + 1
  }

  lemma ProductBound(lim: int, vocab: int, m: int, id: int)
    requires 1 <= vocab && lim >= 1 && 0 <= id < vocab && (m <= (lim - 1) / vocab || m == 1) && 0 <= m && vocab <= lim
    ensures 0 <= id * m < lim
  {
    var q := (lim - 1) / vocab;
    assert lim - 1 == q * vocab + (lim - 1) % vocab;
    assert id * m >= 0;
    if m != 1 {
      MulMono(m, q, id);
      MulMono(id, vocab, q);
      assert id * m == m * id && id * q == q * id && vocab * q == q * vocab;
    }
  }

  /** A compressed id times its multiplier never overflows int64. */
  lemma {:induction false} ProductFits(vocab: int, draw: int, id: int)
    requires 1 <= vocab <= Pow2(63) && 0 <= draw < MultiplierBound(vocab) && 0 <= id < vocab
    ensures 0 <= id * Multiplier(draw) < Pow2(63)
    ensures Wrap(64, id * Multiplier(draw)) == id * Multiplier(draw)
  {
    var lim, m := Pow2(63), Multiplier(draw);
    ProductBound(lim, vocab, m, id);
    WrapFits(64, id * m);
  }

  ghost predicate IsMultiplier(vocab: int, m: int)
    requires vocab >= 1
  {
    exists draw :: 0 <= draw < MultiplierBound(vocab) && m == Multiplier(draw)
  }

  /** Everything the tables must satisfy for the ids to be in range: ids below the vocabulary,
      multipliers drawn below the bound. */
  ghost predicate Bounded(tb: Tables, vocab: int) {
    && tb.Valid() && 1 <= vocab <= Pow2(63) && 0 <= tb.padId < vocab
    && (forall i :: 0 <= i < |tb.tokenMap| ==> 0 <= tb.tokenMap[i] < vocab)
    && (forall l, s :: 0 <= l < |tb.multipliers| && 0 <= s < tb.maxNgram ==>
         IsMultiplier(vocab, tb.multipliers[l][s]))
  }

  /** A term is a compressed id times its multiplier, which fits. */
  lemma TermFits(tb: Tables, vocab: int, dead: int -> bool, hist: seq<int>, p: int, layer: nat, shift: nat)
    requires Bounded(tb, vocab) && 0 <= p < |hist| && layer < |tb.multipliers| && shift < tb.maxNgram
    ensures 0 <= Term(tb, dead, hist, p, layer, shift) < Pow2(63)
  {
    var value := if Blocked(tb, dead, hist, p, shift) then tb.padId
                 else assert !BreaksAt(tb, dead, hist, p - shift); Source(tb, dead, hist[p - shift]);
    assert IsMultiplier(vocab, tb.multipliers[layer][shift]);
    var draw :| 0 <= draw < MultiplierBound(vocab) && tb.multipliers[layer][shift] == Multiplier(draw);
    ProductFits(vocab, draw, value);
  }

  /** The rolling hash never wraps and its sign bit stays clear. */
  lemma {:induction false} RollingFits(tb: Tables, vocab: int, dead: int -> bool, hist: seq<int>, p: int, layer: nat,
                                       shift: nat)
    requires Bounded(tb, vocab) && 0 <= p < |hist| && layer < |tb.multipliers| && shift < tb.maxNgram
    ensures 0 <= Rolling(tb, dead, hist, p, layer, shift) < Pow2(63)
  {
    Pow2Positive(63);
    TermFits(tb, vocab, dead, hist, p, layer, shift);
    if shift > 0 {
      RollingFits(tb, vocab, dead, hist, p, layer, shift - 1);
    }
    XorNonNegative(64, if shift == 0 then 0 else Rolling(tb, dead, hist, p, layer, shift - 1),
                   Term(tb, dead, hist, p, layer, shift));
  }

  ghost function Sum(s: seq<int>): int {
    if s == [] then 0 else Sum(s[..|s| - 1]) + s[|s| - 1]
  }

  lemma {:induction false} SumSplit(s: seq<int>, k: int, m: int)
    requires 0 <= k <= m <= |s| && forall i :: 0 <= i < |s| ==> s[i] >= 0
    ensures Sum(s[..k]) <= Sum(s[..m])
    ensures k < m ==> Sum(s[..k]) + s[k] <= Sum(s[..m])
    decreases m
  {
    if k < m {
      SumSplit(s, k, m - 1);
      assert s[..m][..m - 1] == s[..m - 1];
      if k < m - 1 { SumSplit(s, k, m - 1); }
    }
  }

  /** Offsets as the layout builds them: each bucket starts where the previous one ends. */
  ghost predicate OffsetsOf(tb: Tables) {
    && tb.Valid()
    && forall l, c :: 0 <= l < |tb.offsets| && 0 <= c < tb.Cols() ==> tb.offsets[l][c] == Sum(tb.primes[l][..c])
  }

  ghost predicate InBucket(tb: Tables, layer: nat, c: nat, id: int)
    requires tb.Valid() && layer < |tb.multipliers| && c < tb.Cols()
  {
    tb.offsets[layer][c] <= id < tb.offsets[layer][c] + tb.primes[layer][c]
  }

  /** The column's bucket ends within the int32 its ids are stored in. */
  ghost predicate BucketFits(tb: Tables, layer: nat, c: nat)
    requires tb.Valid() && layer < |tb.multipliers| && c < tb.Cols()
  {
    tb.offsets[layer][c] + tb.primes[layer][c] <= Pow2(31)
  }

  /** Every non-negative rolling value is stored inside the column's bucket exactly when the bucket
      ends within int32. Nothing in the source checks that it does. */
  lemma BucketExactly(tb: Tables, layer: nat, c: nat)
    requires OffsetsOf(tb) && layer < |tb.multipliers| && c < tb.Cols()
    ensures (forall rolling: nat :: InBucket(tb, layer, c, IdFor(tb, layer, c, rolling))) <==> BucketFits(tb, layer, c)
  {
    BucketBounds(tb.primes[layer], c);
    StoredExactly(32, tb.primes[layer][c], tb.offsets[layer][c]);
    if forall rolling: nat :: InBucket(tb, layer, c, IdFor(tb, layer, c, rolling)) {
      forall rolling: nat ensures StoredIn(32, rolling, tb.primes[layer][c], tb.offsets[layer][c]) {
        assert InBucket(tb, layer, c, IdFor(tb, layer, c, rolling));
      }
    } else {
      var rolling: nat :| !InBucket(tb, layer, c, IdFor(tb, layer, c, rolling));
      assert !StoredIn(32, rolling, tb.primes[layer][c], tb.offsets[layer][c]);
    }
  }

  /** A hash id lies in its own column's bucket whenever that bucket ends within int32. */
  lemma IdInBucket(tb: Tables, vocab: int, dead: int -> bool, hist: seq<int>, p: int, layer: nat, c: nat)
    requires Bounded(tb, vocab) && OffsetsOf(tb) && 0 <= p < |hist| && layer < |tb.multipliers| && c < tb.Cols()
    requires BucketFits(tb, layer, c)
    ensures InBucket(tb, layer, c, HashAt(tb, dead, hist, p, layer, c))
  {
    ShiftOfCol(tb, c);
    RollingFits(tb, vocab, dead, hist, p, layer, ShiftOf(c, tb.numHeads));
    BucketExactly(tb, layer, c);
  }

  /** The bucket ranges of different columns do not overlap and stay inside [0, total). */
  lemma {:induction false} BucketsDisjoint(sizes: seq<int>, c: int, d: int)
    requires 0 <= c < d < |sizes| && forall i :: 0 <= i < |sizes| ==> sizes[i] >= 0
    ensures 0 <= Sum(sizes[..c]) <= Sum(sizes[..c]) + sizes[c] <= Sum(sizes[..d])
    ensures Sum(sizes[..d]) + sizes[d] <= Sum(sizes)
  {
    BucketBounds(sizes, c);
    BucketBounds(sizes, d);
    SumSplit(sizes, c, d);
  }

  lemma {:induction false} BucketBounds(sizes: seq<int>, c: int)
    requires 0 <= c < |sizes| && forall i :: 0 <= i < |sizes| ==> sizes[i] >= 0
    ensures 0 <= Sum(sizes[..c]) && Sum(sizes[..c]) + sizes[c] <= Sum(sizes)
  {
    SumSplit(sizes, c, |sizes|);
    SumSplit(sizes, 0, c);
    assert sizes[..|sizes|] == sizes;
  }

  ghost predicate StoredIn(bits: nat, rolling: nat, prime: int, offset: int)
    requires bits >= 1 && prime > 0
  {
    offset <= StoredId(bits, rolling, prime, offset) < offset + prime
  }

  lemma StoredExactly(bits: nat, prime: int, offset: int)
    requires bits >= 1 && prime > 0 && offset >= 0
    ensures (forall rolling: nat :: StoredIn(bits, rolling, prime, offset)) <==> offset + prime <= Pow2(bits - 1)
  {
    if offset + prime <= Pow2(bits - 1) {
      forall rolling: nat ensures StoredIn(bits, rolling, prime, offset) {
        WrapFits(bits, TruncMod(rolling, prime) + offset);
      }
    } else {
      var rolling := IdEscapes(bits, prime, offset);
      assert !StoredIn(bits, rolling, prime, offset);
    }
  }

  lemma SmallMod(a: nat, m: int)
    requires a < m
    ensures TruncMod(a, m) == a
  {
    DivModUnique(a, m, 0, a);
  }

  /** A rolling value whose id is stored outside a bucket that passes the end of the width. */
  lemma IdEscapes(bits: nat, prime: int, offset: int) returns (rolling: nat)
    requires bits >= 1 && prime > 0 && offset >= 0 && offset + prime > Pow2(bits - 1)
    ensures StoredId(bits, rolling, prime, offset) < offset
  {
    rolling := if offset >= Pow2(bits - 1) then 0 else Pow2(bits - 1) - offset;
    SmallMod(rolling, prime);
    if offset >= Pow2(bits - 1) {
      WrapFits(bits, offset);
    } else {
      WrapPastEnd(bits);
    }
  }
}
