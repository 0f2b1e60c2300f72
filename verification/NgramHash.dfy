/** The engram n-gram hash: the flattened-batch kernel, the lookback window that feeds it, and
    the slot cache of the V1 runner, all against hashing a request's whole token sequence. */
module NgramHash {
  import opened Arith
  import opened Int64
  import opened Wrappers

  const DEAD_ID := -1

  /** First column of the n-grams that reach back `shift` positions. */
  function ColsBefore(shift: nat, numHeads: nat): nat {
    if shift <= 1 then 0 else ColsBefore(shift - 1, numHeads) + numHeads
  }

  lemma {:induction false} ColsBeforeIsProduct(shift: nat, numHeads: nat)
    requires shift >= 1
    ensures ColsBefore(shift, numHeads) == (shift - 1) * numHeads
  {
    if shift > 1 {
      ColsBeforeIsProduct(shift - 1, numHeads);
      assert (shift - 1) * numHeads == (shift - 2) * numHeads + numHeads;
    }
  }

  /** Per-model tables. multipliers[layer][shift]; primes and offsets are indexed
      [layer][(shift - 1) * numHeads + head], as the kernel addresses them. */
  datatype Tables = Tables(
    tokenMap: seq<int>, padId: int, maxNgram: nat, numHeads: nat,
    multipliers: seq<seq<int>>, primes: seq<seq<int>>, offsets: seq<seq<int>>)
  {
    function Cols(): nat { ColsBefore(maxNgram, numHeads) }

    ghost predicate Valid() {
      && maxNgram >= 1
      && |primes| == |multipliers| && |offsets| == |multipliers|
      && (forall l :: 0 <= l < |multipliers| ==>
           |multipliers[l]| == maxNgram && |primes[l]| == Cols() && |offsets[l]| == Cols())
      && (forall l, c :: 0 <= l < |primes| && 0 <= c < |primes[l]| ==> primes[l][c] > 0)
    }
  }

  // ------------------------------------------------------------ reference: the whole sequence

  /** Compressed id of a raw token, or DEAD_ID for an image token. */
  ghost function Source(tb: Tables, dead: int -> bool, token: int): int {
    if dead(token) then DEAD_ID
    else if 0 <= token < |tb.tokenMap| then tb.tokenMap[token] else 0
  }

  /** The n-gram reaching back `shift` positions from p leaves the sequence or meets a dead
      token somewhere on the way; once that happens every longer n-gram is blocked as well. */
  ghost predicate Blocked(tb: Tables, dead: int -> bool, hist: seq<int>, p: int, shift: int)
    requires p < |hist|
  {
    exists q :: p - shift <= q <= p && BreaksAt(tb, dead, hist, q)
  }

  ghost predicate BreaksAt(tb: Tables, dead: int -> bool, hist: seq<int>, q: int)
    requires q < |hist|
  {
    q < 0 || Source(tb, dead, hist[q]) == DEAD_ID
  }

  ghost function Term(tb: Tables, dead: int -> bool, hist: seq<int>, p: int, layer: nat, shift: nat): int
    requires tb.Valid() && 0 <= p < |hist| && layer < |tb.multipliers| && shift < tb.maxNgram
  {
    var value := if Blocked(tb, dead, hist, p, shift) then tb.padId
                 else assert !BreaksAt(tb, dead, hist, p - shift); Source(tb, dead, hist[p - shift]);
    Wrap(64, value * tb.multipliers[layer][shift])
  }

  /** Exclusive or of the terms for lookbacks 0 .. shift. */
  ghost function Rolling(tb: Tables, dead: int -> bool, hist: seq<int>, p: int, layer: nat, shift: nat): int
    requires tb.Valid() && 0 <= p < |hist| && layer < |tb.multipliers| && shift < tb.maxNgram
  {
    Xor64(if shift == 0 then 0 else Rolling(tb, dead, hist, p, layer, shift - 1),
          Term(tb, dead, hist, p, layer, shift))
  }

  /** Hash id of column c = (shift - 1) * numHeads + head at position p of a whole sequence. */
  ghost function HashAt(tb: Tables, dead: int -> bool, hist: seq<int>, p: int, layer: nat, c: nat): int
    requires tb.Valid() && 0 <= p < |hist| && layer < |tb.multipliers| && c < tb.Cols()
  {
    ShiftOfCol(tb, c);
    IdFor(tb, layer, c, Rolling(tb, dead, hist, p, layer, ShiftOf(c, tb.numHeads)))
  }

  /** The stored id of column c for a rolling value: remainder, bucket offset, int32 store. */
  function IdFor(tb: Tables, layer: nat, c: nat, rolling: int): int
    requires tb.Valid() && layer < |tb.multipliers| && c < tb.Cols()
  {
    StoredId(32, rolling, tb.primes[layer][c], tb.offsets[layer][c])
  }

  /** A head's id as an integer of the given width stores it. */
  function StoredId(bits: nat, rolling: int, prime: int, offset: int): int
    requires bits >= 1 && prime > 0
  {
    Wrap(bits, TruncMod(rolling, prime) + offset)
  }

  /** How far back the n-grams of column c reach: each n-gram size has one column per head. */
  function ShiftOf(c: nat, heads: nat): (s: nat)
    requires heads > 0
    ensures s >= 1
  {
    if c < heads then 1 else 1 + ShiftOf(c - heads, heads)
  }

  lemma {:induction false} ShiftIsQuotient(c: nat, heads: nat)
    requires heads > 0
    ensures ShiftOf(c, heads) == c / heads + 1
  {
    if c < heads {
      DivModUnique(c, heads, 0, c);
    } else {
      ShiftIsQuotient(c - heads, heads);
      var q, r := (c - heads) / heads, (c - heads) % heads;
      assert c - heads == q * heads + r;
      assert (q + 1) * heads == q * heads + heads;
      DivModUnique(c, heads, q + 1, r);
    }
  }

  lemma QuotientBelow(c: nat, n: nat, heads: nat)
    requires c < n * heads
    ensures heads > 0 && c / heads < n
  {
    assert heads == 0 ==> n * heads == 0;
    assert c == c / heads * heads + c % heads;
    if c / heads >= n { MulMono(n, c / heads, heads); }
  }

  lemma {:induction false} ShiftOfCol(tb: Tables, c: nat)
    requires c < tb.Cols()
    ensures tb.numHeads > 0 && 1 <= ShiftOf(c, tb.numHeads) < tb.maxNgram
  {
    ColsBeforeIsProduct(tb.maxNgram, tb.numHeads);
    QuotientBelow(c, tb.maxNgram - 1, tb.numHeads);
    ShiftIsQuotient(c, tb.numHeads);
  }

  lemma {:induction false} ColsUp(shift: nat, n: nat, heads: nat)
    requires 1 <= shift < n
    ensures ColsBefore(shift, heads) + heads <= ColsBefore(n, heads)
  {
    if shift + 1 < n { ColsUp(shift, n - 1, heads); }
  }

  lemma ColAt(shift: nat, head: nat, heads: nat, maxNgram: nat)
    requires 1 <= shift < maxNgram && head < heads
    ensures ColsBefore(shift, heads) + head < ColsBefore(maxNgram, heads)
    ensures ShiftOf(ColsBefore(shift, heads) + head, heads) == shift
  {
    ColsUp(shift, maxNgram, heads);
    ColsBeforeIsProduct(shift, heads);
    DivModUnique((shift - 1) * heads + head, heads, shift - 1, head);
    ShiftIsQuotient((shift - 1) * heads + head, heads);
  }

  // ------------------------------------------------------------ the flattened batch

  /** Slot-keyed history of the V1 runner: cache[slot] holds the compressed id last written. */
  datatype SlotView = SlotView(cache: seq<int>, blockTable: seq<seq<int>>, blockSize: int)

  datatype Batch = Batch(
    inputIds: seq<int>, deadMask: seq<bool>, positions: seq<int>, queryStartLoc: seq<int>,
    lookback: seq<seq<int>>, lookbackDead: seq<seq<bool>>, depth: nat, slots: Option<SlotView>)
  {
    function Rows(): int { |queryStartLoc| - 1 }
  }

  /** Shapes of the tensors handed to the kernel. Rows may be empty, boundaries may repeat, and the
      window may have more rows than the batch. */
  ghost predicate Shaped(b: Batch) {
    && |b.deadMask| == |b.inputIds| && |b.positions| == |b.inputIds|
    && b.Rows() >= 1 && b.queryStartLoc[0] == 0
    && (forall i, j :: 0 <= i <= j < |b.queryStartLoc| ==> b.queryStartLoc[i] <= b.queryStartLoc[j])
    && |b.lookback| == |b.lookbackDead| >= b.Rows()
    && (forall r :: 0 <= r < |b.lookback| ==> |b.lookback[r]| == b.depth && |b.lookbackDead[r]| == b.depth)
    && (b.slots.Some? ==>
         var v := b.slots.value;
         && |v.cache| > 0 && v.blockSize > 0 && |v.blockTable| > 0
         && (forall i :: 0 <= i < |v.blockTable| ==> |v.blockTable[i]| == |v.blockTable[0]|)
         && |v.blockTable[0]| > 0)
  }

  /** Token t of the batch belongs to row r. */
  predicate InRow(b: Batch, r: int, t: int)
    requires 0 <= r < b.Rows()
  {
    b.queryStartLoc[r] <= t < b.queryStartLoc[r + 1]
  }

  /** Physical slot of position q of block-table row `row`, with the kernel's clamping. */
  function SlotOf(v: SlotView, row: int, q: int): (s: int)
    requires |v.cache| > 0 && v.blockSize > 0 && 0 <= row < |v.blockTable| && |v.blockTable[row]| > 0
    ensures 0 <= s < |v.cache|
  {
    var width := |v.blockTable[row]| * v.blockSize;
    assert width >= v.blockSize;
    var clamped := Min(Max(q, 0), width - 1);
    assert 0 <= clamped < width;
    SlotIndex(clamped, |v.blockTable[row]|, v.blockSize);
    var block := v.blockTable[row][clamped / v.blockSize];
    Min(Max(block * v.blockSize + clamped % v.blockSize, 0), |v.cache| - 1)
  }

  lemma SlotIndex(q: int, n: int, size: int)
    requires size > 0 && 0 <= q < n * size
    ensures 0 <= q / size < n
  {
    assert q == q / size * size + q % size;
    if q / size >= n { MulMono(n, q / size, size); }
  }

  /** What the kernel finds for history position q of row r when q lies before the chunk: the
      right token in the window, or, where the window is short or unset, the right slot. */
  ghost predicate HistoryAvailable(tb: Tables, dead: int -> bool, b: Batch, r: int, start: int, hist: seq<int>, q: int)
    requires Shaped(b) && 0 <= r < b.Rows() && q < start <= |hist|
  {
    var c := start - 1 - q;
    if c < b.depth && b.lookback[r][c] >= 0 then
      q >= 0 && b.lookback[r][c] == hist[q] && b.lookbackDead[r][c] == dead(hist[q])
    else
      q < 0 || (b.slots.Some? &&
        b.slots.value.cache[SlotOf(b.slots.value, Min(r, |b.slots.value.blockTable| - 1), q)]
          == Source(tb, dead, hist[q]))
  }

  /** Token t of row r is the token of `hist` at its position. */
  ghost predicate TokenInPlace(dead: int -> bool, b: Batch, r: int, start: int, hist: seq<int>, t: int)
    requires Shaped(b) && 0 <= r < b.Rows() && InRow(b, r, t) && b.queryStartLoc[r + 1] <= |b.inputIds|
    requires 0 <= start && start + b.queryStartLoc[r + 1] - b.queryStartLoc[r] <= |hist|
  {
    && 0 <= t < |b.inputIds|
    && b.positions[t] == start + (t - b.queryStartLoc[r])
    && b.inputIds[t] == hist[start + (t - b.queryStartLoc[r])]
    && b.deadMask[t] == dead(b.inputIds[t])
  }

  /** Row r holds the chunk of `hist` that starts at position start, with its history in reach. */
  ghost predicate RowHolds(tb: Tables, dead: int -> bool, b: Batch, r: int, start: int, hist: seq<int>)
    requires Shaped(b) && 0 <= r < b.Rows()
  {
    && 0 <= start <= |hist|
    && b.queryStartLoc[r + 1] <= |b.inputIds|
    && start + b.queryStartLoc[r + 1] - b.queryStartLoc[r] <= |hist|
    && (forall q :: 0 <= q < |hist| ==> 0 <= hist[q] < |tb.tokenMap|)
    && (forall t :: InRow(b, r, t) ==> TokenInPlace(dead, b, r, start, hist, t))
    && (forall q :: start - tb.maxNgram < q < start ==> HistoryAvailable(tb, dead, b, r, start, hist, q))
  }

  // ------------------------------------------------------------ the kernel

  /** Upper bound in queryStartLoc[1..]: the number of rows that end at or before t. */
  method UpperBound(b: Batch, t: int) returns (lo: int)
    requires Shaped(b)
    ensures 0 <= lo <= b.Rows()
    ensures EndsSplit(b, t, lo, lo)
  {
    lo := 0;
    var hi := b.Rows();
    while lo < hi
      invariant 0 <= lo <= hi <= b.Rows() && EndsSplit(b, t, lo, hi)
    {
      var mid := (lo + hi) / 2;
      if t >= b.queryStartLoc[mid + 1] {
        lo := mid + 1;
      } else {
        hi := mid;
      }
    }
  }

  /** Rows before lo end at or before t, rows from hi on end after it. */
  ghost predicate EndsSplit(b: Batch, t: int, lo: int, hi: int)
    requires 0 <= lo <= hi <= b.Rows()
  {
    && (forall k :: 1 <= k <= lo ==> b.queryStartLoc[k] <= t)
    && (forall k :: hi < k <= b.Rows() ==> t < b.queryStartLoc[k])
  }

  /** The row found for a token is the only row that contains it, however many are empty. */
  lemma UpperBoundIsRow(b: Batch, t: int, lo: int, r: int)
    requires Shaped(b) && 0 <= r < b.Rows() && InRow(b, r, t)
    requires 0 <= lo <= b.Rows() && EndsSplit(b, t, lo, lo)
    ensures lo == r
  {
    assert b.queryStartLoc[r + 1] > t;
    assert b.queryStartLoc[r] <= t;
  }

  function LoadMap(tb: Tables, token: int): int {
    if 0 <= token < |tb.tokenMap| then tb.tokenMap[token] else 0
  }

  /** Token value at `lookback`, from the chunk, then the window, then the slot cache: the
      history token there, whichever source answers. */
  method LoadSource(tb: Tables, b: Batch, t: int, req: int, chunkStart: int, lookback: int,
                    ghost dead: int -> bool, ghost hist: seq<int>)
    returns (source: int)
    requires Shaped(b) && 0 <= t < |b.inputIds| && 0 <= req < b.Rows()
    requires InRow(b, req, t) && RowHolds(tb, dead, b, req, chunkStart, hist)
    requires b.positions[t] - tb.maxNgram < lookback <= b.positions[t]
    ensures lookback >= 0 ==> source == Source(tb, dead, hist[lookback])
  {
    var shift := b.positions[t] - lookback;
    if lookback >= chunkStart {
      var batchIdx := Max(t - shift, 0);
      assert InRow(b, req, batchIdx) && b.inputIds[batchIdx] == hist[lookback];
      source := LoadMap(tb, b.inputIds[batchIdx]);
      if b.deadMask[batchIdx] {
        source := DEAD_ID;
      }
      return;
    }
    assert HistoryAvailable(tb, dead, b, req, chunkStart, hist, lookback);
    var col := chunkStart - 1 - lookback;
    if col >= 0 && col < b.depth && b.lookback[req][col] >= 0 {
      source := LoadMap(tb, b.lookback[req][col]);
      if b.lookbackDead[req][col] {
        source := DEAD_ID;
      }
      return;
    }
    match b.slots
    case Some(v) =>
      source := v.cache[SlotOf(v, Min(req, |v.blockTable| - 1), lookback)];
    case None =>
      source := tb.padId;
  }

  lemma BlockedStep(tb: Tables, dead: int -> bool, hist: seq<int>, p: int, shift: int)
    requires 0 <= p < |hist| && shift >= 0
    ensures Blocked(tb, dead, hist, p, shift) <==>
      Blocked(tb, dead, hist, p, shift - 1) || BreaksAt(tb, dead, hist, p - shift)
  {
  }

  /** The value before lookback `shift`. */
  ghost function Before(rolls: seq<int>, shift: nat): int
    requires shift <= |rolls|
  {
    if shift == 0 then 0 else rolls[shift - 1]
  }

  /** rolls lists the rolling values of a token, each from the one before it. */
  ghost predicate Accumulates(tb: Tables, dead: int -> bool, hist: seq<int>, p: int, layer: nat, rolls: seq<int>)
    requires tb.Valid() && 0 <= p < |hist| && layer < |tb.multipliers|
  {
    && |rolls| == tb.maxNgram
    && forall s {:trigger Term(tb, dead, hist, p, layer, s)} :: 0 <= s < tb.maxNgram ==>
         rolls[s] == Xor64(Before(rolls, s), Term(tb, dead, hist, p, layer, s))
  }

  lemma {:induction false} AccumulatesRolling(tb: Tables, dead: int -> bool, hist: seq<int>, p: int, layer: nat,
                                              rolls: seq<int>, shift: nat)
    requires tb.Valid() && 0 <= p < |hist| && layer < |tb.multipliers| && shift < tb.maxNgram
    requires Accumulates(tb, dead, hist, p, layer, rolls)
    ensures rolls[shift] == Rolling(tb, dead, hist, p, layer, shift)
  {
    assert rolls[shift] == Xor64(Before(rolls, shift), Term(tb, dead, hist, p, layer, shift));
    if shift > 0 {
      AccumulatesRolling(tb, dead, hist, p, layer, rolls, shift - 1);
    }
  }

  lemma {:induction false} RollingTable(tb: Tables, dead: int -> bool, hist: seq<int>, p: int, layer: nat)
    returns (rolls: seq<int>)
    requires tb.Valid() && 0 <= p < |hist| && layer < |tb.multipliers|
    ensures Accumulates(tb, dead, hist, p, layer, rolls)
  {
    rolls := [];
    for s := 0 to tb.maxNgram
      invariant |rolls| == s
      invariant forall i {:trigger Term(tb, dead, hist, p, layer, i)} :: 0 <= i < s ==>
        rolls[i] == Xor64(Before(rolls, i), Term(tb, dead, hist, p, layer, i))
    {
      rolls := rolls + [Xor64(Before(rolls, s), Term(tb, dead, hist, p, layer, s))];
    }
  }

  /** cols are the ids of the first heads of an n-gram size whose columns start at base. */
  ghost predicate HeadIds(tb: Tables, layer: nat, base: nat, rolling: int, cols: seq<int>)
    requires tb.Valid() && layer < |tb.multipliers|
  {
    && base + |cols| <= tb.Cols()
    && forall h :: 0 <= h < |cols| ==> cols[h] == IdFor(tb, layer, base + h, rolling)
  }

  /** The hash ids of every head for one n-gram size, whose columns start at base. */
  method HashHeads(tb: Tables, layer: nat, base: nat, rolling: int) returns (cols: seq<int>)
    requires tb.Valid() && layer < |tb.multipliers| && base + tb.numHeads <= tb.Cols()
    ensures |cols| == tb.numHeads && HeadIds(tb, layer, base, rolling, cols)
  {
    cols := [];
    for head := 0 to tb.numHeads
      invariant |cols| == head && HeadIds(tb, layer, base, rolling, cols)
    {
      cols := cols + [IdFor(tb, layer, base + head, rolling)];
    }
  }

  /** The columns of the shorter n-gram sizes, from the list of rolling values. */
  ghost predicate RolledPrefix(tb: Tables, layer: nat, rolls: seq<int>, row: seq<int>)
    requires tb.Valid() && layer < |tb.multipliers| && |rolls| == tb.maxNgram
  {
    |row| <= tb.Cols() && forall c: nat :: c < |row| ==> RolledCol(tb, layer, rolls, c, row[c])
  }

  ghost predicate RolledCol(tb: Tables, layer: nat, rolls: seq<int>, c: nat, id: int)
    requires tb.Valid() && layer < |tb.multipliers| && |rolls| == tb.maxNgram && c < tb.Cols()
  {
    ShiftOfCol(tb, c);
    id == IdFor(tb, layer, c, rolls[ShiftOf(c, tb.numHeads)])
  }

  ghost predicate HashedPrefix(tb: Tables, dead: int -> bool, hist: seq<int>, p: int, layer: nat, row: seq<int>)
    requires tb.Valid() && 0 <= p < |hist| && layer < |tb.multipliers|
  {
    |row| <= tb.Cols() && forall c :: 0 <= c < |row| ==> row[c] == HashAt(tb, dead, hist, p, layer, c)
  }

  /** With the token's rolling values the columns are its hashes. */
  lemma RolledIsHashed(tb: Tables, dead: int -> bool, hist: seq<int>, p: int, layer: nat, rolls: seq<int>,
                       row: seq<int>)
    requires tb.Valid() && 0 <= p < |hist| && layer < |tb.multipliers|
    requires Accumulates(tb, dead, hist, p, layer, rolls) && RolledPrefix(tb, layer, rolls, row)
    ensures HashedPrefix(tb, dead, hist, p, layer, row)
  {
    forall c | 0 <= c < |row| ensures row[c] == HashAt(tb, dead, hist, p, layer, c) {
      assert RolledCol(tb, layer, rolls, c, row[c]);
      ShiftOfCol(tb, c);
      AccumulatesRolling(tb, dead, hist, p, layer, rolls, ShiftOf(c, tb.numHeads));
    }
  }

  /** The columns of the n-grams that reach back `shift` positions come next. */
  lemma {:induction false} AppendHeads(tb: Tables, layer: nat, rolls: seq<int>, shift: nat, row: seq<int>,
                                       cols: seq<int>)
    requires tb.Valid() && layer < |tb.multipliers| && |rolls| == tb.maxNgram && 1 <= shift < tb.maxNgram
    requires RolledPrefix(tb, layer, rolls, row) && |row| == ColsBefore(shift, tb.numHeads)
    requires |cols| == tb.numHeads && HeadIds(tb, layer, |row|, rolls[shift], cols)
    ensures RolledPrefix(tb, layer, rolls, row + cols)
  {
    forall c: nat | c < |row + cols| ensures RolledCol(tb, layer, rolls, c, (row + cols)[c]) {
      if c < |row| {
        assert RolledCol(tb, layer, rolls, c, row[c]);
      } else {
        ColAt(shift, c - |row|, tb.numHeads, tb.maxNgram);
      }
    }
  }

  /** The row of token t and the position its chunk starts at. */
  method Locate(tb: Tables, b: Batch, t: int,
                ghost dead: int -> bool, ghost r: int, ghost start: int, ghost hist: seq<int>)
    returns (req: int, chunkStart: int)
    requires Shaped(b) && 0 <= t < |b.inputIds|
    requires 0 <= r < b.Rows() && InRow(b, r, t) && RowHolds(tb, dead, b, r, start, hist)
    ensures req == r && chunkStart == start
  {
    var lo := UpperBound(b, t);
    UpperBoundIsRow(b, t, lo, r);
    req := Min(lo, b.Rows() - 1);
    var chunkIdx := Min(b.queryStartLoc[req], |b.inputIds| - 1);
    assert InRow(b, r, chunkIdx);
    chunkStart := b.positions[chunkIdx];
  }

  /** One lookback of the rolling hash. */
  method MixTerm(tb: Tables, b: Batch, t: int, req: int, chunkStart: int, layer: nat, shift: nat,
                 blocked: bool, rolling: int, ghost dead: int -> bool, ghost hist: seq<int>)
    returns (blocked': bool, rolling': int)
    requires tb.Valid() && Shaped(b) && layer < |tb.multipliers| && 0 <= t < |b.inputIds| && shift < tb.maxNgram
    requires 0 <= req < b.Rows() && InRow(b, req, t) && RowHolds(tb, dead, b, req, chunkStart, hist)
    requires 0 <= b.positions[t] < |hist|
    requires blocked == Blocked(tb, dead, hist, b.positions[t], shift - 1)
    ensures blocked' == Blocked(tb, dead, hist, b.positions[t], shift)
    ensures rolling' == Xor64(rolling, Term(tb, dead, hist, b.positions[t], layer, shift))
  {
    var lookback := b.positions[t] - shift;
    var source := LoadSource(tb, b, t, req, chunkStart, lookback, dead, hist);
    blocked' := blocked || lookback < 0 || source == DEAD_ID;
    BlockedStep(tb, dead, hist, b.positions[t], shift);
    var value := if blocked' then tb.padId else source;
    rolling' := Xor64(rolling, Wrap(64, value * tb.multipliers[layer][shift]));
  }

  /** The hash columns an n-gram size adds to a row. */
  method ExtendRow(tb: Tables, layer: nat, shift: nat, rolling: int, row: seq<int>, ghost rolls: seq<int>)
    returns (row': seq<int>)
    requires tb.Valid() && layer < |tb.multipliers| && |rolls| == tb.maxNgram && shift < tb.maxNgram
    requires RolledPrefix(tb, layer, rolls, row) && |row| == ColsBefore(shift, tb.numHeads)
    requires rolling == rolls[shift]
    ensures RolledPrefix(tb, layer, rolls, row') && |row'| == ColsBefore(shift + 1, tb.numHeads)
  {
    row' := row;
    if shift > 0 {
      ColsUp(shift, tb.maxNgram, tb.numHeads);
      var cols := HashHeads(tb, layer, |row|, rolling);
      AppendHeads(tb, layer, rolls, shift, row, cols);
      row' := row + cols;
    }
  }

  /** Token t of the batch is position p of hist: it lies in the chunk of row r starting at start. */
  ghost predicate InChunk(tb: Tables, dead: int -> bool, b: Batch, t: int, hist: seq<int>, p: int, r: int, start: int) {
    && Shaped(b) && 0 <= r < b.Rows() && InRow(b, r, t) && RowHolds(tb, dead, b, r, start, hist)
    && p == start + (t - b.queryStartLoc[r])
  }

  ghost predicate IsToken(tb: Tables, dead: int -> bool, b: Batch, t: int, hist: seq<int>, p: int) {
    exists r, start :: InChunk(tb, dead, b, t, hist, p, r, start)
  }

  lemma ChunkTokens(tb: Tables, dead: int -> bool, b: Batch, t: int, hist: seq<int>, p: int, r: int, start: int)
    requires InChunk(tb, dead, b, t, hist, p, r, start)
    ensures 0 <= t < |b.inputIds| && 0 <= p < |hist| && p == b.positions[t]
  {
    assert TokenInPlace(dead, b, r, start, hist, t);
  }

  /** What a lane holds before lookback `shift`: the flag, the rolling value and the columns so far. */
  ghost predicate LaneHolds(tb: Tables, dead: int -> bool, hist: seq<int>, p: int, layer: nat, rolls: seq<int>,
                            shift: nat, blocked: bool, rolling: int, row: seq<int>)
    requires tb.Valid() && 0 <= p < |hist| && layer < |tb.multipliers| && shift <= tb.maxNgram == |rolls|
  {
    && blocked == Blocked(tb, dead, hist, p, shift - 1) && rolling == Before(rolls, shift)
    && |row| == ColsBefore(shift, tb.numHeads) && RolledPrefix(tb, layer, rolls, row)
  }

  /** One lookback: the next term, and from the second on the columns of its n-gram size. */
  method LaneStep(tb: Tables, b: Batch, t: int, req: int, chunkStart: int, layer: nat, shift: nat,
                  blocked: bool, rolling: int, row: seq<int>,
                  ghost dead: int -> bool, ghost hist: seq<int>, ghost p: int, ghost rolls: seq<int>)
    returns (blocked': bool, rolling': int, row': seq<int>)
    requires tb.Valid() && layer < |tb.multipliers| && shift < tb.maxNgram
    requires InChunk(tb, dead, b, t, hist, p, req, chunkStart) && 0 <= p < |hist|
    requires Accumulates(tb, dead, hist, p, layer, rolls)
    requires LaneHolds(tb, dead, hist, p, layer, rolls, shift, blocked, rolling, row)
    ensures LaneHolds(tb, dead, hist, p, layer, rolls, shift + 1, blocked', rolling', row')
  {
    ChunkTokens(tb, dead, b, t, hist, p, req, chunkStart);
    blocked', rolling' := MixTerm(tb, b, t, req, chunkStart, layer, shift, blocked, rolling, dead, hist);
    row' := ExtendRow(tb, layer, shift, rolling', row, rolls);
  }

  /** The columns of one token whose row and chunk start are known, one n-gram size after another. */
  method HashShifts(tb: Tables, b: Batch, t: int, req: int, chunkStart: int, layer: nat,
                    ghost dead: int -> bool, ghost hist: seq<int>, ghost p: int, ghost rolls: seq<int>)
    returns (row: seq<int>)
    requires tb.Valid() && layer < |tb.multipliers|
    requires InChunk(tb, dead, b, t, hist, p, req, chunkStart) && 0 <= p < |hist|
    requires Accumulates(tb, dead, hist, p, layer, rolls)
    ensures |row| == tb.Cols() && RolledPrefix(tb, layer, rolls, row)
  {
    var blocked, rolling := false, 0;
    row := [];
    for shift := 0 to tb.maxNgram
      invariant LaneHolds(tb, dead, hist, p, layer, rolls, shift, blocked, rolling, row)
    {
      blocked, rolling, row :=
        LaneStep(tb, b, t, req, chunkStart, layer, shift, blocked, rolling, row, dead, hist, p, rolls);
    }
  }

  /** All hash columns of one token for one layer (one lane of one program). Whatever chunk,
      row or batch the token arrives in, the result is that of hashing its request's whole
      sequence at once. */
  method HashLane(tb: Tables, b: Batch, t: int, layer: nat,
                  ghost dead: int -> bool, ghost hist: seq<int>, ghost p: int)
    returns (row: seq<int>)
    requires tb.Valid() && layer < |tb.multipliers| && IsToken(tb, dead, b, t, hist, p) && 0 <= p < |hist|
    ensures |row| == tb.Cols() && HashedPrefix(tb, dead, hist, p, layer, row)
  {
    ghost var r, start :| InChunk(tb, dead, b, t, hist, p, r, start);
    ChunkTokens(tb, dead, b, t, hist, p, r, start);
    ghost var rolls := RollingTable(tb, dead, hist, p, layer);
    var req, chunkStart := Locate(tb, b, t, dead, r, start, hist);
    row := HashShifts(tb, b, t, req, chunkStart, layer, dead, hist, p, rolls);
    RolledIsHashed(tb, dead, hist, p, layer, rolls, row);
  }
}
