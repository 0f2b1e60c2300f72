/** The engram table sharded by whole hash heads: the lookup kernel of one rank and the gather over
    all ranks, against one lookup in the full table. */
module EngramShards {
  import opened Arith

  /** Raw bytes of one fp8 row or of its block scales. */
  type Bytes = seq<int>

  /** A rank's share of a layer's table; head h owns headSizes[h] consecutive rows. */
  datatype Shard = Shard(headSizes: seq<int>, tp: nat, rank: nat)
  {
    ghost predicate Valid() {
      && tp > 0 && rank < tp && headSizes != []
      && forall h :: 0 <= h < |headSizes| ==> headSizes[h] > 0
    }

    function Total(): int { |headSizes| }

    /** Heads per rank, padded. */
    function Part(): (p: int)
      requires tp > 0
    {
      CeilDiv(|headSizes|, tp)
    }

    function HeadStart(): int
      requires tp > 0
    {
      rank * Part()
    }

    function VocabStart(): int
      requires Valid()
    {
      Offset(headSizes, HeadStart())
    }

    function VocabEnd(): int
      requires Valid()
    {
      Offset(headSizes, HeadStart() + Part())
    }

    function NumRows(): int
      requires Valid()
    {
      VocabEnd() - VocabStart()
    }
  }

  /** sum(sizes[:h]) with Python's clamping slice. */
  function Offset(sizes: seq<int>, h: int): int
    decreases Max(h, 0)
  {
    if h <= 0 then 0 else Offset(sizes, h - 1) + if h <= |sizes| then sizes[h - 1] else 0
  }

  lemma {:induction false} OffsetUp(sizes: seq<int>, g: int, h: int)
    requires 0 <= g <= h && forall i :: 0 <= i < |sizes| ==> sizes[i] > 0
    ensures Offset(sizes, g) <= Offset(sizes, h)
    ensures Offset(sizes, g) == Offset(sizes, h) <==> g == h || g >= |sizes|
    decreases h - g
  {
    if g < h {
      OffsetUp(sizes, g, h - 1);
    }
  }

  lemma PartPositive(s: Shard)
    requires s.Valid()
    ensures s.Part() >= 1 && s.Part() * s.tp >= s.Total() && s.HeadStart() >= 0
    ensures 0 <= s.VocabStart() <= s.VocabEnd()
  {
    CeilDivBounds(s.Total(), s.tp);
    OffsetUp(s.headSizes, 0, s.HeadStart());
    OffsetUp(s.headSizes, s.HeadStart(), s.HeadStart() + s.Part());
  }

  /** A rank owns no rows exactly when its heads all lie past the last one. */
  lemma RowsOwned(s: Shard)
    requires s.Valid()
    ensures s.NumRows() == 0 <==> s.HeadStart() >= s.Total()
  {
    PartPositive(s);
    OffsetUp(s.headSizes, s.HeadStart(), s.HeadStart() + s.Part());
  }

  /** A hash id of head h lies in the head's bucket range. */
  ghost predicate InHead(sizes: seq<int>, h: nat, id: int)
    requires h < |sizes|
  {
    Offset(sizes, h) <= id < Offset(sizes, h) + sizes[h]
  }

  /** The full table in the checkpoint: weight and scale rows. */
  datatype Table = Table(weights: seq<Bytes>, scales: seq<Bytes>)

  ghost predicate Covers(table: Table, s: Shard) {
    && s.Valid() && |table.weights| == |table.scales| && Offset(s.headSizes, s.Total()) <= |table.weights|
  }

  lemma VocabEndWithin(table: Table, s: Shard)
    requires Covers(table, s)
    ensures s.VocabEnd() <= |table.weights|
  {
    var h := s.HeadStart() + s.Part();
    if h >= s.Total() {
      OffsetUp(s.headSizes, s.Total(), h);
    } else {
      OffsetUp(s.headSizes, h, s.Total());
    }
  }

  predicate Owned(s: Shard, id: int)
    requires s.Valid()
  {
    s.VocabStart() <= id < s.VocabEnd()
  }

  ghost predicate Shaped(s: Shard, ids: seq<seq<int>>) {
    s.Valid() && forall t :: 0 <= t < |ids| ==> |ids[t]| == s.Total()
  }

  lemma RowIndex(r: nat, tokens: nat, part: int)
    requires part > 0 && r < tokens * part
    ensures 0 <= r / part < tokens
  {
    assert r == r / part * part + r % part;
    if r / part >= tokens { MulMono(tokens, r / part, part); }
  }

  /** Id that local output row r (token r / Part, head r % Part) looks up; -1 for a padded head. */
  function IdAt(s: Shard, ids: seq<seq<int>>, r: nat): int
    requires Shaped(s, ids) && s.Part() > 0 && s.HeadStart() >= 0 && r < |ids| * s.Part()
  {
    RowIndex(r, |ids|, s.Part());
    var head := s.HeadStart() + r % s.Part();
    if head < s.Total() then ids[r / s.Part()][head] else -1
  }

  /** What output row r of this rank must be: the dequantized table row of its id, or zero. */
  ghost function LookupRow<O>(s: Shard, table: Table, deq: (Bytes, Bytes) -> O, zero: O, ids: seq<seq<int>>, r: nat): O
    requires Covers(table, s) && Shaped(s, ids) && s.Part() > 0 && r < |ids| * s.Part()
  {
    PartPositive(s);
    VocabEndWithin(table, s);
    var id := IdAt(s, ids, r);
    if Owned(s, id) then deq(table.weights[id], table.scales[id]) else zero
  }

  // ------------------------------------------------------------ the gather over all ranks

  /** Where head h of token t sits: its rank, and the row of that rank's output. */
  lemma HeadPlace(n: int, tp: nat, part: int, tokens: nat, t: nat, h: nat)
    requires n > 0 && tp > 0 && part == CeilDiv(n, tp) && t < tokens && h < n
    ensures part > 0 && 0 <= h / part < tp && t * part + h % part < tokens * part
    ensures (t * part + h % part) / part == t && (t * part + h % part) % part == h % part
    ensures h / part * part + h % part == h
  {
    CeilDivBounds(n, tp);
    assert part * tp == tp * part;
    RowIndex(h, tp, part);
    MulMono(t + 1, tokens, part);
    assert (t + 1) * part == t * part + part;
    DivModUnique(t * part + h % part, part, t, h % part);
  }

  /** Head h of token t comes from rank h / Part, row t * Part + h % Part, and is the id's row of the
      full table. */
  lemma HeadLookup<O>(sizes: seq<int>, tp: nat, table: Table, deq: (Bytes, Bytes) -> O, zero: O,
                      ids: seq<seq<int>>, t: nat, h: nat, part: int, rank: int, r: int)
    requires Shard(sizes, tp, 0).Valid() && part == CeilDiv(|sizes|, tp) && part > 0
    requires Covers(table, Shard(sizes, tp, 0)) && Shaped(Shard(sizes, tp, 0), ids) && t < |ids| && h < |sizes|
    requires InHead(sizes, h, ids[t][h]) && rank == h / part && r == t * part + h % part
    ensures 0 <= rank < tp && 0 <= r < |ids| * part && 0 <= ids[t][h] < |table.weights|
    ensures LookupRow(Shard(sizes, tp, rank), table, deq, zero, ids, r)
      == deq(table.weights[ids[t][h]], table.scales[ids[t][h]])
  {
    HeadPlace(|sizes|, tp, part, |ids|, t, h);
    OwnerLookup(Shard(sizes, tp, rank), table, deq, zero, ids, t, h, r);
  }

  /** The rank that owns head h finds token t's id in its own rows. */
  lemma OwnerLookup<O>(s: Shard, table: Table, deq: (Bytes, Bytes) -> O, zero: O,
                       ids: seq<seq<int>>, t: nat, h: nat, r: nat)
    requires Covers(table, s) && Shaped(s, ids) && t < |ids| && h < s.Total() && InHead(s.headSizes, h, ids[t][h])
    requires s.Part() > 0 && r < |ids| * s.Part() && r / s.Part() == t && s.HeadStart() + r % s.Part() == h
    ensures 0 <= ids[t][h] < |table.weights|
    ensures LookupRow(s, table, deq, zero, ids, r) == deq(table.weights[ids[t][h]], table.scales[ids[t][h]])
  {
    PartPositive(s);
    IdAtHead(s, ids, t, h, r);
    HeadOfRow(h - s.HeadStart(), r, s.Part());
    IdOwned(s, table, h, ids[t][h]);
  }

  lemma HeadOfRow(local: int, r: nat, part: int)
    requires part > 0 && local == r % part
    ensures 0 <= local < part
  {
  }

  lemma IdAtHead(s: Shard, ids: seq<seq<int>>, t: nat, h: nat, r: nat)
    requires Shaped(s, ids) && s.Part() > 0 && s.HeadStart() >= 0 && r < |ids| * s.Part() && t < |ids| && h < s.Total()
    requires r / s.Part() == t && s.HeadStart() + r % s.Part() == h
    ensures IdAt(s, ids, r) == ids[t][h]
  {
  }

  lemma IdOwned(s: Shard, table: Table, h: nat, id: int)
    requires Covers(table, s) && h < s.Total() && InHead(s.headSizes, h, id)
    requires s.HeadStart() <= h < s.HeadStart() + s.Part()
    ensures Owned(s, id) && 0 <= id < |table.weights|
  {
    OwnsHead(s, h);
    VocabEndWithin(table, s);
  }

  lemma {:induction false} OwnsHead(s: Shard, h: int)
    requires s.Valid() && s.HeadStart() <= h < s.HeadStart() + s.Part() && 0 <= h < s.Total()
    ensures 0 <= s.VocabStart() <= Offset(s.headSizes, h)
    ensures Offset(s.headSizes, h) + s.headSizes[h] <= s.VocabEnd()
  {
    PartPositive(s);
    OffsetUp(s.headSizes, s.HeadStart(), h);
    OffsetUp(s.headSizes, h + 1, s.HeadStart() + s.Part());
  }

  // ------------------------------------------------------------ the kernel

  const BLOCK: int := 16

  /** The program of the persistent grid that handles row r. */
  function ProgramOf(r: nat, grid: int): (p: int)
    requires grid > 0
    ensures 0 <= p < grid
  {
    r / BLOCK % grid
  }

  lemma TileOf(pid: int, base: int, grid: int, r: nat, k: int)
    requires grid > 0 && 0 <= pid < grid && k >= 0 && base == (pid + k * grid) * BLOCK
    ensures base <= r < base + BLOCK ==> ProgramOf(r, grid) == pid
    ensures ProgramOf(r, grid) == pid && base <= r && r < base + grid * BLOCK ==> r < base + BLOCK
  {
    var tile := r / BLOCK;
    if base <= r < base + BLOCK {
      assert tile == pid + k * grid;
      DivModUnique(tile, grid, k, pid);
    }
    if ProgramOf(r, grid) == pid && base <= r && r < base + grid * BLOCK {
      var q := tile / grid;
      assert tile == q * grid + pid;
      assert pid + k * grid <= tile < pid + k * grid + grid;
      if q > k { MulMono(k + 1, q, grid); }
      if q < k { MulMono(q + 1, k, grid); }
    }
  }

  /** One output row: masked loads, so nothing outside the shard is read. */
  method LookupLane<O>(s: Shard, weights: seq<Bytes>, scales: seq<Bytes>, deq: (Bytes, Bytes) -> O, zero: O,
                       ids: seq<seq<int>>, r: nat, ghost table: Table) returns (o: O)
    requires Resident(s, table, weights, scales) && Shaped(s, ids) && s.Part() > 0 && r < |ids| * s.Part()
    ensures o == LookupRow(s, table, deq, zero, ids, r)
  {
    PartPositive(s);
    RowIndex(r, |ids|, s.Part());
    var head := s.HeadStart() + r % s.Part();
    var token := r / s.Part();
    var index := if head < s.Total() then ids[token][head] else -1;
    var owned := head < s.Total() && s.VocabStart() <= index < s.VocabEnd();
    if owned {
      var local := index - s.VocabStart();
      o := deq(weights[local], scales[local]);
    } else {
      o := zero;
    }
  }

  /** This rank's resident shard. */
  ghost predicate Resident(s: Shard, table: Table, weights: seq<Bytes>, scales: seq<Bytes>) {
    && Covers(table, s) && 0 <= s.VocabStart() <= s.VocabEnd() <= |table.weights|
    && weights == table.weights[s.VocabStart()..s.VocabEnd()]
    && scales == table.scales[s.VocabStart()..s.VocabEnd()]
  }

  /** One tile of rows; rows past the end are masked off. */
  method LookupTile<O>(s: Shard, weights: seq<Bytes>, scales: seq<Bytes>, deq: (Bytes, Bytes) -> O, zero: O,
                       ids: seq<seq<int>>, base: nat, out: array<O>, ghost table: Table)
    requires Resident(s, table, weights, scales) && Shaped(s, ids) && s.Part() > 0
    requires out.Length == |ids| * s.Part()
    modifies out
    ensures forall r :: base <= r < base + BLOCK && r < out.Length ==> out[r] == LookupRow(s, table, deq, zero, ids, r)
    ensures forall r :: 0 <= r < out.Length && !(base <= r < base + BLOCK) ==> out[r] == old(out[r])
  {
    for lane := 0 to BLOCK
      invariant forall r :: base <= r < base + lane && r < out.Length ==>
        out[r] == LookupRow(s, table, deq, zero, ids, r)
      invariant forall r :: 0 <= r < out.Length && !(base <= r < base + lane) ==> out[r] == old(out[r])
    {
      if base + lane < out.Length {
        out[base + lane] := LookupLane(s, weights, scales, deq, zero, ids, base + lane, table);
      }
    }
  }

  /** One program: every grid-th tile, starting at its own. */
  method RunProgram<O>(s: Shard, weights: seq<Bytes>, scales: seq<Bytes>, deq: (Bytes, Bytes) -> O, zero: O,
                       ids: seq<seq<int>>, pid: nat, grid: nat, out: array<O>, ghost table: Table)
    requires Resident(s, table, weights, scales) && Shaped(s, ids) && s.Part() > 0
    requires out.Length == |ids| * s.Part() && pid < grid
    modifies out
    ensures forall r :: 0 <= r < out.Length && ProgramOf(r, grid) == pid ==>
      out[r] == LookupRow(s, table, deq, zero, ids, r)
    ensures forall r :: 0 <= r < out.Length && ProgramOf(r, grid) != pid ==> out[r] == old(out[r])
  {
    var base := pid * BLOCK;
    ghost var k := 0;
    forall r | 0 <= r < out.Length && ProgramOf(r, grid) == pid ensures r >= base {
      ProgramStart(r, grid);
    }
    while base < out.Length
      invariant k >= 0 && base == (pid + k * grid) * BLOCK && base >= 0
      invariant forall r :: 0 <= r < out.Length && ProgramOf(r, grid) == pid && r < base ==>
        out[r] == LookupRow(s, table, deq, zero, ids, r)
      invariant forall r :: 0 <= r < out.Length && ProgramOf(r, grid) != pid ==> out[r] == old(out[r])
      decreases out.Length - base
    {
      LookupTile(s, weights, scales, deq, zero, ids, base, out, table);
      forall r | 0 <= r < out.Length
        ensures base <= r < base + BLOCK ==> ProgramOf(r, grid) == pid
        ensures ProgramOf(r, grid) == pid && base <= r < base + grid * BLOCK ==> r < base + BLOCK
      {
        TileOf(pid, base, grid, r, k);
      }
      assert (pid + (k + 1) * grid) * BLOCK == (pid + k * grid) * BLOCK + grid * BLOCK;
      base := base + grid * BLOCK;
      k := k + 1;
    }
  }

  lemma ProgramStart(r: nat, grid: int)
    requires grid > 0
    ensures r >= ProgramOf(r, grid) * BLOCK
  {
    var tile := r / BLOCK;
    assert tile == tile / grid * grid + tile % grid;
    assert tile / grid >= 0;
  }

  /** The persistent-grid lookup kernel over this rank's resident shard. */
  method KernelLookup<O>(s: Shard, weights: seq<Bytes>, scales: seq<Bytes>, deq: (Bytes, Bytes) -> O, zero: O,
                         ids: seq<seq<int>>, grid: nat, out: array<O>, ghost table: Table)
    requires Resident(s, table, weights, scales) && Shaped(s, ids) && s.Part() > 0 && grid > 0
    requires out.Length == |ids| * s.Part()
    modifies out
    ensures forall r :: 0 <= r < out.Length ==> out[r] == LookupRow(s, table, deq, zero, ids, r)
  {
    for pid := 0 to grid
      invariant forall r :: 0 <= r < out.Length && ProgramOf(r, grid) < pid ==>
        out[r] == LookupRow(s, table, deq, zero, ids, r)
    {
      RunProgram(s, weights, scales, deq, zero, ids, pid, grid, out, table);
    }
    forall r | 0 <= r < out.Length ensures ProgramOf(r, grid) < grid {
    }
  }

  // ------------------------------------------------------------ all ranks

  /** Entry h of token t's gathered row: local head h % part of rank h / part. */
  ghost predicate FromRank<O(!new)>(outs: seq<seq<O>>, part: nat, t: nat, h: nat, o: O)
    requires part > 0
  {
    && 0 <= h / part < |outs| && 0 <= t * part + h % part < |outs[h / part]|
    && o == outs[h / part][t * part + h % part]
  }

  lemma SegmentPlace(k: nat, part: nat, j: nat)
    requires j < part
    ensures (k * part + j) / part == k && (k * part + j) % part == j
  {
    DivModUnique(k * part + j, part, k, j);
  }

  /** Token t's rows start inside every rank's output. */
  lemma TokenInside(t: nat, tokens: nat, part: nat)
    requires t < tokens
    ensures 0 <= t * part <= t * part + part <= tokens * part
  {
    MulMono(t + 1, tokens, part);
    assert (t + 1) * part == t * part + part;
  }

  /** Concatenation over the ranks for one token. */
  method GatherToken<O(!new)>(outs: seq<seq<O>>, tokens: nat, part: nat, t: nat) returns (row: seq<O>)
    requires part > 0 && t < tokens && forall k :: 0 <= k < |outs| ==> |outs[k]| == tokens * part
    ensures |row| == |outs| * part && forall h: nat :: h < |row| ==> FromRank(outs, part, t, h, row[h])
  {
    TokenInside(t, tokens, part);
    row := [];
    for k := 0 to |outs|
      invariant |row| == k * part && forall h: nat :: h < |row| ==> FromRank(outs, part, t, h, row[h])
    {
      ghost var was := row;
      row := row + outs[k][t * part..t * part + part];
      assert (k + 1) * part == k * part + part;
      forall h: nat | |was| <= h < |row| ensures FromRank(outs, part, t, h, row[h]) {
        SegmentPlace(k, part, h - |was|);
      }
    }
  }

  /** The gather along the head dimension, truncated to the real heads. */
  method GatherHeads<O(!new)>(outs: seq<seq<O>>, tokens: nat, part: nat, n: nat) returns (rows: seq<seq<O>>)
    requires part > 0 && n <= |outs| * part && forall k :: 0 <= k < |outs| ==> |outs[k]| == tokens * part
    ensures |rows| == tokens && forall t :: 0 <= t < tokens ==> |rows[t]| == n
    ensures forall t: nat, h: nat :: t < tokens && h < n ==> FromRank(outs, part, t, h, rows[t][h])
  {
    rows := [];
    for t := 0 to tokens
      invariant |rows| == t && forall u :: 0 <= u < t ==> |rows[u]| == n
      invariant forall u: nat, h: nat :: u < t && h < n ==> FromRank(outs, part, u, h, rows[u][h])
    {
      var row := GatherToken(outs, tokens, part, t);
      rows := rows + [row[..n]];
    }
  }

  /** One rank's output buffer after its lookup. */
  method RankLookup<O>(s: Shard, weights: seq<Bytes>, scales: seq<Bytes>, deq: (Bytes, Bytes) -> O, zero: O,
                       ids: seq<seq<int>>, grid: nat, ghost table: Table) returns (rows: seq<O>)
    requires Resident(s, table, weights, scales) && Shaped(s, ids) && s.Part() > 0 && grid > 0
    ensures |rows| == |ids| * s.Part()
    ensures forall r :: 0 <= r < |rows| ==> rows[r] == LookupRow(s, table, deq, zero, ids, r)
  {
    var out := new O[|ids| * s.Part()](_ => zero);
    KernelLookup(s, weights, scales, deq, zero, ids, grid, out, table);
    rows := out[..];
  }

  /** One rank's rows are the lookup's. */
  ghost predicate LookedUpBy<O>(s: Shard, table: Table, deq: (Bytes, Bytes) -> O, zero: O, ids: seq<seq<int>>,
                                rows: seq<O>) {
    && Covers(table, s) && Shaped(s, ids) && s.Part() > 0 && |rows| == |ids| * s.Part()
    && forall r :: 0 <= r < |rows| ==> rows[r] == LookupRow(s, table, deq, zero, ids, r)
  }

  /** Every rank holds its shard. */
  ghost predicate AllResident(sizes: seq<int>, tp: nat, table: Table, weights: seq<seq<Bytes>>,
                              scales: seq<seq<Bytes>>) {
    && |weights| == |scales| == tp
    && forall k :: 0 <= k < tp ==> Resident(Shard(sizes, tp, k), table, weights[k], scales[k])
  }

  /** Entry (t, h) is the full-table row of its id. */
  ghost predicate RowOfId<O(!new)>(table: Table, deq: (Bytes, Bytes) -> O, id: int, o: O)
    requires |table.weights| == |table.scales|
  {
    0 <= id < |table.weights| && o == deq(table.weights[id], table.scales[id])
  }

  /** The sharded embedding over all ranks: lookup, gather along the heads, truncation. Every entry
      whose id lies in its head's bucket is one lookup in the full table. */
  method ShardedForward<O(!new)>(sizes: seq<int>, tp: nat, weights: seq<seq<Bytes>>, scales: seq<seq<Bytes>>,
                                 deq: (Bytes, Bytes) -> O, zero: O, ids: seq<seq<int>>, grid: nat, ghost table: Table)
    returns (rows: seq<seq<O>>)
    requires Shard(sizes, tp, 0).Valid() && Shaped(Shard(sizes, tp, 0), ids) && grid > 0
    requires Covers(table, Shard(sizes, tp, 0)) && AllResident(sizes, tp, table, weights, scales)
    ensures |rows| == |ids| && forall t :: 0 <= t < |ids| ==> |rows[t]| == |sizes|
    ensures forall t: nat, h: nat :: t < |ids| && h < |sizes| && InHead(sizes, h, ids[t][h]) ==>
      RowOfId(table, deq, ids[t][h], rows[t][h])
  {
    PartPositive(Shard(sizes, tp, 0));
    var outs: seq<seq<O>> := [];
    for k := 0 to tp
      invariant |outs| == k
      invariant forall j :: 0 <= j < k ==> LookedUpBy(Shard(sizes, tp, j), table, deq, zero, ids, outs[j])
    {
      var out := RankLookup(Shard(sizes, tp, k), weights[k], scales[k], deq, zero, ids, grid, table);
      outs := outs + [out];
    }
    rows := GatherLookups(sizes, tp, outs, ids, table, deq, zero);
  }

  /** The gather of what the ranks looked up, however they did. */
  method GatherLookups<O(!new)>(sizes: seq<int>, tp: nat, outs: seq<seq<O>>, ids: seq<seq<int>>,
                                ghost table: Table, ghost deq: (Bytes, Bytes) -> O, ghost zero: O)
    returns (rows: seq<seq<O>>)
    requires Shard(sizes, tp, 0).Valid() && Shaped(Shard(sizes, tp, 0), ids) && |outs| == tp
    requires Covers(table, Shard(sizes, tp, 0))
    requires forall j :: 0 <= j < tp ==> LookedUpBy(Shard(sizes, tp, j), table, deq, zero, ids, outs[j])
    ensures |rows| == |ids| && forall t :: 0 <= t < |ids| ==> |rows[t]| == |sizes|
    ensures forall t: nat, h: nat :: t < |ids| && h < |sizes| && InHead(sizes, h, ids[t][h]) ==>
      RowOfId(table, deq, ids[t][h], rows[t][h])
  {
    var part := Shard(sizes, tp, 0).Part();
    PartPositive(Shard(sizes, tp, 0));
    assert part * tp == tp * part;
    forall j | 0 <= j < tp ensures |outs[j]| == |ids| * part {
      assert LookedUpBy(Shard(sizes, tp, j), table, deq, zero, ids, outs[j]);
    }
    rows := GatherHeads(outs, |ids|, part, |sizes|);
    forall t: nat, h: nat | t < |ids| && h < |sizes| && InHead(sizes, h, ids[t][h])
      ensures RowOfId(table, deq, ids[t][h], rows[t][h])
    {
      assert FromRank(outs, part, t, h, rows[t][h]);
      HeadLookup(sizes, tp, table, deq, zero, ids, t, h, part, h / part, t * part + h % part);
      assert LookedUpBy(Shard(sizes, tp, h / part), table, deq, zero, ids, outs[h / part]);
    }
  }
}
