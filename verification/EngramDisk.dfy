/** The disk-backed lookups of one rank's engram rows: de-duplicated reads split into tasks that
    run in any order, and the memmap variant, both against the resident-table lookup. */
module EngramDisk {
  import opened Arith
  import opened EngramShards
  import opened Wrappers

  /** A row-addressed tensor in a file; what lies behind its last row may or may not be readable. */
  datatype Source = Source(rows: seq<Bytes>, behind: nat -> Option<Bytes>)

  function ReadAt(src: Source, row: nat): Option<Bytes> {
    if row < |src.rows| then Some(src.rows[row]) else src.behind(row - |src.rows|)
  }

  /** Read rows base + rel[i] of src into buf[i]. */
  datatype Job = Job(src: Source, base: nat, rel: seq<nat>, buf: array<Bytes>)

  function Wanted(j: Job, i: nat): Option<Bytes>
    requires i < |j.rel|
  {
    ReadAt(j.src, j.base + j.rel[i])
  }

  datatype Task = Task(job: nat, lo: nat, hi: nat)

  ghost predicate ValidJobs(jobs: seq<Job>) {
    && (forall k :: 0 <= k < |jobs| ==> jobs[k].buf.Length == |jobs[k].rel|)
    && (forall k, m :: 0 <= k < m < |jobs| ==> jobs[k].buf != jobs[m].buf)
  }

  ghost predicate ValidTask(jobs: seq<Job>, t: Task) {
    t.job < |jobs| && t.lo <= t.hi <= |jobs[t.job].rel|
  }

  /** The rows of a slice are all readable. */
  ghost predicate Readable(j: Job, lo: nat, hi: nat)
    requires hi <= |j.rel|
  {
    forall i :: lo <= i < hi ==> Wanted(j, i).Some?
  }

  ghost predicate ReadableTask(jobs: seq<Job>, t: Task) {
    ValidTask(jobs, t) && Readable(jobs[t.job], t.lo, t.hi)
  }

  ghost predicate Filled(j: Job, lo: nat, hi: nat)
    requires hi <= |j.rel| && j.buf.Length == |j.rel|
    reads j.buf
  {
    forall i :: lo <= i < hi ==> Wanted(j, i) == Some(j.buf[i])
  }

  /** Positional reads for one task; a short read stops it. */
  method PreadRows(j: Job, lo: nat, hi: nat) returns (ok: bool)
    requires lo <= hi <= |j.rel| && j.buf.Length == |j.rel|
    modifies j.buf
    ensures ok <==> Readable(j, lo, hi)
    ensures ok ==> Filled(j, lo, hi)
    ensures forall i :: 0 <= i < |j.rel| && Wanted(j, i) == Some(old(j.buf[i])) ==> Wanted(j, i) == Some(j.buf[i])
  {
    for i := lo to hi
      invariant Readable(j, lo, i) && Filled(j, lo, i)
      invariant forall k :: 0 <= k < |j.rel| && Wanted(j, k) == Some(old(j.buf[k])) ==> Wanted(j, k) == Some(j.buf[k])
    {
      var row := Wanted(j, i);
      if row.None? {
        return false;
      }
      j.buf[i] := row.value;
    }
    ok := true;
  }

  /** Some slice reads row i of job k. */
  ghost predicate Covered(tasks: set<Task>, k: nat, i: nat) {
    exists t :: t in tasks && t.job == k && t.lo <= i < t.hi
  }

  /** Every row of every job, in slices of at most chunk rows. */
  method SliceJobs(jobs: seq<Job>, chunk: int) returns (tasks: set<Task>)
    requires chunk >= 1
    ensures forall t :: t in tasks ==> ValidTask(jobs, t)
    ensures forall k, i {:trigger Covered(tasks, k, i)} :: 0 <= k < |jobs| && 0 <= i < |jobs[k].rel| ==>
      Covered(tasks, k, i)
  {
    tasks := {};
    for k := 0 to |jobs|
      invariant forall t :: t in tasks ==> ValidTask(jobs, t)
      invariant forall m, i {:trigger Covered(tasks, m, i)} :: 0 <= m < k && 0 <= i < |jobs[m].rel| ==>
        Covered(tasks, m, i)
    {
      var lo := 0;
      while lo < |jobs[k].rel|
        invariant 0 <= lo
        invariant forall t :: t in tasks ==> ValidTask(jobs, t)
        invariant forall m, i {:trigger Covered(tasks, m, i)} :: 0 <= m < k && 0 <= i < |jobs[m].rel| ==>
          Covered(tasks, m, i)
        invariant forall i {:trigger Covered(tasks, k, i)} :: 0 <= i < lo && i < |jobs[k].rel| ==> Covered(tasks, k, i)
        decreases |jobs[k].rel| - lo
      {
        ghost var before := tasks;
        var t := Task(k, lo, Min(lo + chunk, |jobs[k].rel|));
        tasks := tasks + {t};
        forall m, i: nat | 0 <= m < |jobs| && Covered(before, m, i) ensures Covered(tasks, m, i) {
          var u :| u in before && u.job == m && u.lo <= i < u.hi;
          assert u in tasks;
        }
        forall i | lo <= i < lo + chunk && i < |jobs[k].rel| ensures Covered(tasks, k, i) {
          assert t in tasks;
        }
        lo := lo + chunk;
      }
    }
  }

  /** The buffers of a set of jobs. */
  ghost function Buffers(jobs: seq<Job>): set<object> {
    set k | 0 <= k < |jobs| :: jobs[k].buf
  }

  ghost predicate TaskDone(jobs: seq<Job>, t: Task)
    requires ValidJobs(jobs) && ValidTask(jobs, t)
    reads Buffers(jobs)
  {
    Filled(jobs[t.job], t.lo, t.hi)
  }

  /** Runs the slices in an arbitrary order. All rows end up in their places, whatever the order,
      unless one of them cannot be read. */
  method RunTasks(jobs: seq<Job>, tasks: set<Task>) returns (ok: bool)
    requires ValidJobs(jobs) && forall t :: t in tasks ==> ValidTask(jobs, t)
    modifies Buffers(jobs)
    ensures ok <==> forall t :: t in tasks ==> ReadableTask(jobs, t)
    ensures ok ==> forall t :: t in tasks ==> TaskDone(jobs, t)
  {
    var pending := tasks;
    while pending != {}
      invariant pending <= tasks
      invariant forall t :: t in tasks && t !in pending ==> ReadableTask(jobs, t) && TaskDone(jobs, t)
      decreases |pending|
    {
      var t :| t in pending;
      assert jobs[t.job].buf in Buffers(jobs);
      var done := PreadRows(jobs[t.job], t.lo, t.hi);
      if !done {
        return false;
      }
      forall u | u in tasks && u !in pending ensures TaskDone(jobs, u) {
        assert u.job < t.job || u.job == t.job || t.job < u.job;
      }
      pending := pending - {t};
    }
    ok := true;
  }

  function TotalRows(jobs: seq<Job>): nat {
    if jobs == [] then 0 else TotalRows(jobs[..|jobs| - 1]) + |jobs[|jobs| - 1].rel|
  }

  ghost predicate AllFilled(jobs: seq<Job>)
    requires ValidJobs(jobs)
    reads Buffers(jobs)
  {
    forall k :: 0 <= k < |jobs| ==> Filled(jobs[k], 0, |jobs[k].rel|)
  }

  lemma {:induction false} NothingToRead(jobs: seq<Job>)
    requires TotalRows(jobs) == 0
    ensures forall k :: 0 <= k < |jobs| ==> jobs[k].rel == []
  {
    if jobs != [] {
      NothingToRead(jobs[..|jobs| - 1]);
      assert forall k :: 0 <= k < |jobs| - 1 ==> jobs[k] == jobs[..|jobs| - 1][k];
    }
  }

  /** A single row is read on the calling thread. */
  method ReadInline(jobs: seq<Job>) returns (ok: bool)
    requires ValidJobs(jobs)
    modifies Buffers(jobs)
    ensures ok <==> forall k :: 0 <= k < |jobs| ==> Readable(jobs[k], 0, |jobs[k].rel|)
    ensures ok ==> AllFilled(jobs)
  {
    for k := 0 to |jobs|
      invariant forall m :: 0 <= m < k ==> Readable(jobs[m], 0, |jobs[m].rel|) && Filled(jobs[m], 0, |jobs[m].rel|)
    {
      assert jobs[k].buf in Buffers(jobs);
      var done := PreadRows(jobs[k], 0, |jobs[k].rel|);
      if !done {
        return false;
      }
    }
    ok := true;
  }

  /** All reads of a step as one batch. */
  method ParallelRead(jobs: seq<Job>, threads: nat, maxChunk: int) returns (ok: bool)
    requires ValidJobs(jobs) && threads > 0
    modifies Buffers(jobs)
    ensures ok <==> forall k :: 0 <= k < |jobs| ==> Readable(jobs[k], 0, |jobs[k].rel|)
    ensures ok ==> AllFilled(jobs)
  {
    var total := TotalRows(jobs);
    if total == 0 {
      NothingToRead(jobs);
      return true;
    }
    if total == 1 {
      ok := ReadInline(jobs);
      return;
    }
    var chunk := Max(1, Min(maxChunk, CeilDiv(total, threads)));
    var tasks := SliceJobs(jobs, chunk);
    ok := RunTasks(jobs, tasks);
    CoverageIsAll(jobs, tasks);
    if ok {
      forall k, i | 0 <= k < |jobs| && 0 <= i < |jobs[k].rel| ensures Wanted(jobs[k], i) == Some(jobs[k].buf[i]) {
        assert Covered(tasks, k, i);
        var t :| t in tasks && t.job == k && t.lo <= i < t.hi;
        assert TaskDone(jobs, t);
      }
    }
  }

  lemma CoverageIsAll(jobs: seq<Job>, tasks: set<Task>)
    requires forall t :: t in tasks ==> ValidTask(jobs, t)
    requires forall k, i {:trigger Covered(tasks, k, i)} :: 0 <= k < |jobs| && 0 <= i < |jobs[k].rel| ==>
      Covered(tasks, k, i)
    ensures (forall t :: t in tasks ==> ReadableTask(jobs, t)) <==>
      forall k :: 0 <= k < |jobs| ==> Readable(jobs[k], 0, |jobs[k].rel|)
  {
    if forall t :: t in tasks ==> ReadableTask(jobs, t) {
      forall k, i | 0 <= k < |jobs| && 0 <= i < |jobs[k].rel| ensures Wanted(jobs[k], i).Some? {
        assert Covered(tasks, k, i);
        var t :| t in tasks && t.job == k && t.lo <= i < t.hi;
        assert ReadableTask(jobs, t);
      }
    }
  }

  // ------------------------------------------------------------ one rank's lookup from disk

  /** This rank's hash columns of token t: at most Part of them, fewer for the trailing ranks. */
  function LocalIds(s: Shard, row: seq<int>): seq<int>
    requires s.Valid() && s.HeadStart() >= 0 && s.Part() >= 0 && |row| == s.Total()
  {
    var end := Min(s.HeadStart() + s.Part(), s.Total());
    if s.HeadStart() <= end then row[s.HeadStart()..end] else []
  }

  /** Local row id and ownership of output row r: missing columns are padded with id -1, ids
      outside this rank's range are not owned and read row 0. */
  function RelOwned(s: Shard, ids: seq<seq<int>>, r: nat): (ro: (nat, bool))
    requires Shaped(s, ids) && s.Part() > 0 && s.HeadStart() >= 0 && r < |ids| * s.Part()
  {
    RowIndex(r, |ids|, s.Part());
    var local := LocalIds(s, ids[r / s.Part()]);
    var col := r % s.Part();
    var id := if col < |local| then local[col] else -1;
    if s.VocabStart() <= id < s.VocabEnd() then (id - s.VocabStart(), true) else (0, false)
  }

  /** The padded columns carry exactly the ids the kernel looks up. */
  lemma RelOwnedIsLookup(s: Shard, ids: seq<seq<int>>, r: nat)
    requires Shaped(s, ids) && s.Part() > 0 && s.HeadStart() >= 0 && r < |ids| * s.Part()
    ensures RelOwned(s, ids, r).1 == Owned(s, IdAt(s, ids, r))
    ensures RelOwned(s, ids, r).0 == if Owned(s, IdAt(s, ids, r)) then IdAt(s, ids, r) - s.VocabStart() else 0
  {
    RowIndex(r, |ids|, s.Part());
    PartPositive(s);
    LocalIdsAt(s, ids[r / s.Part()], r % s.Part());
  }

  lemma LocalIdsAt(s: Shard, row: seq<int>, col: nat)
    requires s.Valid() && s.HeadStart() >= 0 && col < s.Part() && |row| == s.Total()
    ensures col < |LocalIds(s, row)| <==> s.HeadStart() + col < s.Total()
    ensures col < |LocalIds(s, row)| ==> LocalIds(s, row)[col] == row[s.HeadStart() + col]
  {
  }

  /** torch.unique with inverse: distinct values of rel, and where each entry finds its own. */
  ghost predicate IsUnique(rel: seq<nat>, uniq: seq<nat>, inverse: seq<nat>) {
    && |inverse| == |rel|
    && (forall i :: 0 <= i < |rel| ==> inverse[i] < |uniq| && uniq[inverse[i]] == rel[i])
    && (forall u :: 0 <= u < |uniq| ==> uniq[u] in rel)
    && (forall u, v :: 0 <= u < v < |uniq| ==> uniq[u] < uniq[v])
  }

  ghost predicate RelOf(s: Shard, ids: seq<seq<int>>, rel: seq<nat>, owned: seq<bool>)
    requires Shaped(s, ids) && s.Part() > 0 && s.HeadStart() >= 0
  {
    && |rel| == |owned| == |ids| * s.Part()
    && forall r :: 0 <= r < |rel| ==> (rel[r], owned[r]) == RelOwned(s, ids, r)
  }

  method DiskRelOwned(s: Shard, ids: seq<seq<int>>) returns (rel: seq<nat>, owned: seq<bool>)
    requires Shaped(s, ids) && s.Part() > 0 && s.HeadStart() >= 0
    ensures RelOf(s, ids, rel, owned)
  {
    rel, owned := [], [];
    var n := |ids| * s.Part();
    for r := 0 to n
      invariant |rel| == |owned| == r
      invariant forall k :: 0 <= k < r ==> (rel[k], owned[k]) == RelOwned(s, ids, k)
    {
      var ro := RelOwned(s, ids, r);
      rel, owned := rel + [ro.0], owned + [ro.1];
    }
  }

  /** The files of one table, opened at this rank's first row. */
  ghost predicate Opened(s: Shard, table: Table, w: Source, sc: Source) {
    && Covers(table, s) && w.rows == table.weights && sc.rows == table.scales
  }

  /** Index the de-duplicated rows by the inverse map and zero what this rank does not own. */
  method Expand<O>(deq: (Bytes, Bytes) -> O, zero: O, w: seq<Bytes>, sc: seq<Bytes>, inverse: seq<nat>,
                   owned: seq<bool>)
    returns (rows: seq<O>)
    requires |inverse| == |owned| && |w| == |sc|
    requires forall i :: 0 <= i < |inverse| ==> inverse[i] < |w|
    ensures |rows| == |inverse|
    ensures forall i :: 0 <= i < |rows| ==> rows[i] == if owned[i] then deq(w[inverse[i]], sc[inverse[i]]) else zero
  {
    rows := [];
    for i := 0 to |inverse|
      invariant |rows| == i
      invariant forall k :: 0 <= k < i ==> rows[k] == if owned[k] then deq(w[inverse[k]], sc[inverse[k]]) else zero
    {
      rows := rows + [if owned[i] then deq(w[inverse[i]], sc[inverse[i]]) else zero];
    }
  }

  /** All de-duplicated rows can be read. */
  ghost predicate RowsReadable(src: Source, base: nat, uniq: seq<nat>) {
    forall u :: 0 <= u < |uniq| ==> ReadAt(src, base + uniq[u]).Some?
  }

  /** rows holds row base + uniq[u] of src at u. */
  ghost predicate RowsRead(src: Source, base: nat, uniq: seq<nat>, rows: seq<Bytes>) {
    |rows| == |uniq| && forall u :: 0 <= u < |uniq| ==> ReadAt(src, base + uniq[u]) == Some(rows[u])
  }

  /** A source that answers row base + i with the table's row VocabStart + i for this rank's rows. */
  ghost predicate Answers(src: Source, base: nat, s: Shard, rows: seq<Bytes>)
    requires s.Valid()
  {
    && 0 <= s.VocabStart() <= s.VocabEnd() <= |rows|
    && forall i: nat :: i < s.NumRows() ==> AnswersRow(src, base, rows, s.VocabStart(), i)
  }

  ghost predicate AnswersRow(src: Source, base: nat, rows: seq<Bytes>, start: nat, i: nat) {
    start + i < |rows| && ReadAt(src, base + i) == Some(rows[start + i])
  }

  /** Rows read at the de-duplicated ids, expanded, are the resident lookup. */
  lemma ExpandedIsLookup<O>(s: Shard, table: Table, w: Source, sc: Source, base: nat, deq: (Bytes, Bytes) -> O, zero: O,
      ids: seq<seq<int>>, rel: seq<nat>, owned: seq<bool>, uniq: seq<nat>, inverse: seq<nat>,
      wRows: seq<Bytes>, sRows: seq<Bytes>, k: nat)
    requires Covers(table, s) && Shaped(s, ids) && s.Part() > 0 && s.HeadStart() >= 0 && k < |ids| * s.Part()
    requires Answers(w, base, s, table.weights) && Answers(sc, base, s, table.scales)
    requires RelOf(s, ids, rel, owned) && IsUnique(rel, uniq, inverse)
    requires RowsRead(w, base, uniq, wRows) && RowsRead(sc, base, uniq, sRows)
    ensures LookupRow(s, table, deq, zero, ids, k) ==
      if owned[k] then deq(wRows[inverse[k]], sRows[inverse[k]]) else zero
  {
    RelOwnedIsLookup(s, ids, k);
    assert (rel[k], owned[k]) == RelOwned(s, ids, k);
    var u := inverse[k];
    if owned[k] {
      assert AnswersRow(w, base, table.weights, s.VocabStart(), uniq[u]);
      assert AnswersRow(sc, base, table.scales, s.VocabStart(), uniq[u]);
    }
    assert ReadAt(w, base + uniq[u]) == Some(wRows[u]) && ReadAt(sc, base + uniq[u]) == Some(sRows[u]);
  }

  lemma OpenedAnswers(s: Shard, table: Table, w: Source, sc: Source)
    requires Opened(s, table, w, sc)
    ensures 0 <= s.VocabStart()
    ensures Answers(w, s.VocabStart(), s, table.weights) && Answers(sc, s.VocabStart(), s, table.scales)
  {
    PartPositive(s);
    VocabEndWithin(table, s);
  }

  /** The read-only views of this rank's own rows: nothing lies behind them. */
  function View(rows: seq<Bytes>, lo: nat, hi: nat): Source
    requires lo <= hi <= |rows|
  {
    Source(rows[lo..hi], _ => None)
  }

  lemma ViewReadable(rows: seq<Bytes>, lo: nat, hi: nat, uniq: seq<nat>)
    requires lo <= hi <= |rows|
    ensures RowsReadable(View(rows, lo, hi), 0, uniq) <==> forall u :: 0 <= u < |uniq| ==> uniq[u] < hi - lo
  {
    if RowsReadable(View(rows, lo, hi), 0, uniq) {
      forall u | 0 <= u < |uniq| ensures uniq[u] < hi - lo {
        assert ReadAt(View(rows, lo, hi), 0 + uniq[u]).Some?;
      }
    }
  }

  /** Gathers rows idx of a view into out, in slices over the pool. */
  method FastGather(view: Source, idx: seq<nat>, out: array<Bytes>, rowsPerTask: int, threads: nat) returns (ok: bool)
    requires out.Length == |idx| && threads > 0 && rowsPerTask >= 0
    modifies out
    ensures ok <==> RowsReadable(view, 0, idx)
    ensures ok ==> RowsRead(view, 0, idx, out[..])
  {
    var n := |idx|;
    var step := if rowsPerTask != 0 then rowsPerTask else Min(1024, Max(16, CeilDiv(n, threads)));
    var jobs := [Job(view, 0, idx, out)];
    forall b | b in Buffers(jobs) ensures b == out {
    }
    var tasks;
    if n <= step {
      tasks := {Task(0, 0, n)};
      forall k, i: nat | 0 <= k < |jobs| && i < |jobs[k].rel| ensures Covered(tasks, k, i) {
        assert Task(0, 0, n) in tasks;
      }
    } else {
      tasks := SliceJobs(jobs, step);
    }
    ok := RunTasks(jobs, tasks);
    CoverageIsAll(jobs, tasks);
    forall i | 0 <= i < n ensures Wanted(jobs[0], i) == ReadAt(view, 0 + idx[i]) {
    }
    assert jobs[0].rel == idx;
    assert Readable(jobs[0], 0, n) <==> RowsReadable(view, 0, idx);
    if ok {
      forall i | 0 <= i < n ensures ReadAt(view, 0 + idx[i]) == Some(out[..][i]) {
        assert Covered(tasks, 0, i);
        var t :| t in tasks && t.job == 0 && t.lo <= i < t.hi;
        assert TaskDone(jobs, t) && Wanted(jobs[0], i) == Some(out[i]);
      }
    }
  }

  /** Every row asked for is one of the rank's own. */
  predicate OwnRows(s: Shard, uniq: seq<nat>)
    requires s.Valid()
  {
    forall u :: 0 <= u < |uniq| ==> uniq[u] < s.NumRows()
  }

  /** The memmap path: same de-duplication, raw gather, dequantization, inversion and zeroing. */
  method FastLookup<O>(s: Shard, deq: (Bytes, Bytes) -> O, zero: O, ids: seq<seq<int>>,
                       rowsPerTask: int, threads: nat, rel: seq<nat>, owned: seq<bool>, uniq: seq<nat>,
                       inverse: seq<nat>, table: Table) returns (r: Result<seq<O>, Error>)
    requires Covers(table, s) && Shaped(s, ids) && s.Part() > 0 && s.HeadStart() >= 0 && threads > 0 && rowsPerTask >= 0
    requires RelOf(s, ids, rel, owned) && IsUnique(rel, uniq, inverse)
    requires 0 <= s.VocabStart() <= s.VocabEnd() <= |table.weights|
    ensures r.Success? <==> OwnRows(s, uniq)
    ensures r.Success? ==> |r.value| == |ids| * s.Part()
    ensures r.Success? ==> forall k :: 0 <= k < |r.value| ==> r.value[k] == LookupRow(s, table, deq, zero, ids, k)
  {
    var w, sc := View(table.weights, s.VocabStart(), s.VocabEnd()), View(table.scales, s.VocabStart(), s.VocabEnd());
    var wBuf := new Bytes[|uniq|];
    var sBuf := new Bytes[|uniq|];
    var okW := FastGather(w, uniq, wBuf, rowsPerTask, threads);
    var wRows := wBuf[..];
    var okS := FastGather(sc, uniq, sBuf, rowsPerTask, threads);
    var sRows := sBuf[..];
    ViewReadable(table.weights, s.VocabStart(), s.VocabEnd(), uniq);
    ViewReadable(table.scales, s.VocabStart(), s.VocabEnd(), uniq);
    if !okW || !okS {
      return Failure(ReadError);
    }
    var rows := Expand(deq, zero, wRows, sRows, inverse, owned);
    assert Answers(w, 0, s, table.weights) && Answers(sc, 0, s, table.scales);
    forall k | 0 <= k < |rows| ensures rows[k] == LookupRow(s, table, deq, zero, ids, k) {
      ExpandedIsLookup(s, table, w, sc, 0, deq, zero, ids, rel, owned, uniq, inverse, wRows, sRows, k);
    }
    r := Success(rows);
  }

  /** Which rows are asked for: real rows of this rank, except that unowned ids ask for row 0. */
  lemma AskedRows(s: Shard, ids: seq<seq<int>>, rel: seq<nat>, owned: seq<bool>, uniq: seq<nat>, inverse: seq<nat>,
                  u: nat)
    requires Shaped(s, ids) && s.Part() > 0 && s.HeadStart() >= 0
    requires RelOf(s, ids, rel, owned) && IsUnique(rel, uniq, inverse) && u < |uniq|
    ensures uniq[u] < s.NumRows() || uniq[u] == 0
  {
    var r :| 0 <= r < |rel| && rel[r] == uniq[u];
    RelOwnedIsLookup(s, ids, r);
  }

  /** The memmap path fails exactly on a rank that is asked for something but owns no row, that
      is, when all its heads are padding; everywhere else it returns the resident lookup. */
  lemma FastFailsExactlyWithoutRows(s: Shard, ids: seq<seq<int>>, rel: seq<nat>, owned: seq<bool>, uniq: seq<nat>,
                                    inverse: seq<nat>)
    requires Shaped(s, ids) && s.Part() > 0 && s.HeadStart() >= 0
    requires RelOf(s, ids, rel, owned) && IsUnique(rel, uniq, inverse)
    ensures OwnRows(s, uniq) <==> ids == [] || s.HeadStart() < s.Total()
  {
    RowsOwned(s);
    PartPositive(s);
    if s.NumRows() > 0 {
      forall u | 0 <= u < |uniq| ensures uniq[u] < s.NumRows() {
        AskedRows(s, ids, rel, owned, uniq, inverse, u);
      }
    } else if ids != [] {
      MulMono(1, |ids|, s.Part());
      assert |rel| > 0;
      assert uniq[inverse[0]] == rel[0] >= s.NumRows();
    }
  }

  /** The read path cannot fail on a rank that owns a row; on one that owns none and is asked for
      something it succeeds exactly when the files have bytes behind the rank's position. */
  lemma DiskFailsExactly(s: Shard, table: Table, w: Source, sc: Source, ids: seq<seq<int>>,
                         rel: seq<nat>, owned: seq<bool>, uniq: seq<nat>, inverse: seq<nat>)
    requires Opened(s, table, w, sc) && Shaped(s, ids) && s.Part() > 0 && s.HeadStart() >= 0 && s.VocabStart() >= 0
    requires RelOf(s, ids, rel, owned) && IsUnique(rel, uniq, inverse)
    ensures RowsReadable(w, s.VocabStart(), uniq) && RowsReadable(sc, s.VocabStart(), uniq) <==>
      ids == [] || s.HeadStart() < s.Total() || (ReadAt(w, s.VocabStart()).Some? && ReadAt(sc, s.VocabStart()).Some?)
  {
    RowsOwned(s);
    VocabEndWithin(table, s);
    PartPositive(s);
    forall u | 0 <= u < |uniq| ensures uniq[u] < s.NumRows() || uniq[u] == 0 {
      AskedRows(s, ids, rel, owned, uniq, inverse, u);
    }
    if ids != [] && s.NumRows() == 0 {
      MulMono(1, |ids|, s.Part());
      assert |rel| > 0;
      assert uniq[inverse[0]] == 0;
    }
  }

  /** Four heads of 3, 5, 7 and 11 rows over three ranks: two heads each, none left for the last. */
  function PaddingRank(): Shard { Shard([3, 5, 7, 11], 3, 2) }

  lemma PaddingRankIs()
    ensures var s := PaddingRank();
      s.Valid() && s.Part() == 2 && s.HeadStart() == 4 && s.VocabStart() == s.VocabEnd() == 26
  {
    var sizes := [3, 5, 7, 11];
    assert Offset(sizes, 1) == 3 && Offset(sizes, 2) == 8 && Offset(sizes, 3) == 15 && Offset(sizes, 4) == 26;
    assert Offset(sizes, 5) == 26 && Offset(sizes, 6) == 26;
  }

  /** One token on that rank asks for its row 0 twice. */
  lemma PaddingRankAsks()
    ensures var s, ids := PaddingRank(), [[0, 3, 8, 15]];
      && Shaped(s, ids) && s.Part() == 2 && s.HeadStart() == 4
      && RelOf(s, ids, [0, 0], [false, false]) && IsUnique([0, 0], [0], [0, 0])
  {
    PaddingRankIs();
    var s, ids := PaddingRank(), [[0, 3, 8, 15]];
    assert LocalIds(s, ids[0]) == [];
    forall r: nat | r < 2 ensures RelOwned(s, ids, r) == (0, false) {
      LocalIdsAt(s, ids[0], r);
    }
  }

  /** On that rank the memmap lookup fails for any table, and the read path fails when the files end
      with the last row. The kernel would have returned zeros. */
  lemma PaddingRankFails(table: Table, w: Source, sc: Source)
    requires Opened(PaddingRank(), table, w, sc) && ReadAt(w, 26).None?
    ensures !OwnRows(PaddingRank(), [0]) && !RowsReadable(w, PaddingRank().VocabStart(), [0])
  {
    PaddingRankIs();
    assert [0][0] == 0;
  }
}
