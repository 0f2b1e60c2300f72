/** Chained prefix hashes of a request's token blocks: the one-pass media scan, the resumable
    hasher, what equal hashes mean, and the coarser block-size view. */
module PrefixHash {
  import opened Arith
  import opened Wrappers

  /** Extra hash keys; a LoRA name and a cache salt are both plain strings. */
  datatype Key = Str(s: string) | Media(id: string, offset: int) | Embeds(rows: seq<int>)

  datatype MmFeature = MmFeature(id: string, offset: nat, length: nat)

  datatype Request = Request(
    tokens: seq<int>, mm: seq<MmFeature>, lora: Option<string>, salt: string, embeds: Option<seq<int>>)

  type HashFn = (int, seq<int>, Option<seq<Key>>) -> int

  function End(f: MmFeature): int { f.offset + f.length }

  /** The media input covers part of the token range [start, end). */
  predicate Overlaps(f: MmFeature, start: int, end: int) {
    f.offset < end && start < End(f)
  }

  ghost predicate SortedDisjoint(mm: seq<MmFeature>) {
    forall i, j :: 0 <= i < j < |mm| ==> End(mm[i]) <= mm[j].offset
  }

  // ------------------------------------------------------------ the media scan

  /** Keys of the media inputs from .. upto - 1 that overlap the range, in order, each with its
      offset from the range start. */
  function KeysBetween(mm: seq<MmFeature>, from: nat, upto: nat, start: int, end: int): seq<Key>
    requires upto <= |mm|
  {
    if upto <= from then []
    else
      var f := mm[upto - 1];
      KeysBetween(mm, from, upto - 1, start, end) + if Overlaps(f, start, end) then [Media(f.id, f.offset - start)]
        else []
  }

  /** The filter the scan must equal: every input from number `from` on that overlaps. */
  function OverlapKeys(mm: seq<MmFeature>, from: nat, start: int, end: int): seq<Key> {
    KeysBetween(mm, from, |mm|, start, end)
  }

  lemma {:induction false} NoneOverlap(mm: seq<MmFeature>, from: nat, k: nat, upto: nat, start: int, end: int)
    requires k <= upto <= |mm|
    requires forall j :: k <= j < upto && from <= j ==> !Overlaps(mm[j], start, end)
    ensures KeysBetween(mm, from, upto, start, end) == KeysBetween(mm, from, k, start, end)
    decreases upto - k
  {
    if k < upto {
      NoneOverlap(mm, from, k, upto - 1, start, end);
    }
  }

  /** A running index (possibly -1 for "the last one") that counts from `from`: everything it
      has moved past ends at or before pos. */
  ghost predicate PassedBy(mm: seq<MmFeature>, from: nat, idx: int, pos: int) {
    var k := if idx < 0 then |mm| + idx else idx;
    (mm != [] ==> from <= k <= |mm|) && EndedBy(mm, from, k, pos)
  }

  ghost predicate EndedBy(mm: seq<MmFeature>, from: nat, k: int, pos: int) {
    forall j :: from <= j < k && j < |mm| ==> End(mm[j]) <= pos
  }

  lemma KeysStep(mm: seq<MmFeature>, from: nat, idx: nat, start: int, end: int)
    requires from <= idx < |mm|
    ensures KeysBetween(mm, from, idx + 1, start, end) ==
      KeysBetween(mm, from, idx, start, end)
        + if Overlaps(mm[idx], start, end) then [Media(mm[idx].id, mm[idx].offset - start)] else []
  {
  }

  /** Beyond an input that reaches the end of the range nothing else overlaps it. */
  lemma {:induction false} LaterInputsOut(mm: seq<MmFeature>, from: nat, idx: nat, start: int, end: int)
    requires SortedDisjoint(mm) && idx < |mm| && end <= End(mm[idx])
    ensures OverlapKeys(mm, from, start, end) == KeysBetween(mm, from, idx + 1, start, end)
  {
    forall k | idx + 1 <= k < |mm| ensures !Overlaps(mm[k], start, end) {
      assert End(mm[idx]) <= mm[k].offset;
    }
    NoneOverlap(mm, from, idx + 1, |mm|, start, end);
  }

  /** Once the last input is behind, no input overlaps. */
  lemma AllPassed(mm: seq<MmFeature>, from: nat, start: int, end: int)
    requires SortedDisjoint(mm) && mm != [] && End(mm[|mm| - 1]) <= start
    ensures OverlapKeys(mm, from, start, end) == []
  {
    forall k | 0 <= k < |mm| ensures !Overlaps(mm[k], start, end) {
      assert k < |mm| - 1 ==> End(mm[k]) <= mm[|mm| - 1].offset;
    }
    NoneOverlap(mm, from, 0, |mm|, start, end);
  }

  /** One block's media keys, starting at the running index. */
  method GenMmExtraHashKeys(mm: seq<MmFeature>, start: nat, end: nat, startIdx: int, ghost from: nat)
    returns (keys: seq<Key>, idx: int)
    requires SortedDisjoint(mm) && start < end && PassedBy(mm, from, startIdx, start)
    ensures keys == OverlapKeys(mm, from, start, end)
    ensures PassedBy(mm, from, idx, end)
  {
    keys := [];
    if |mm| == 0 {
      return keys, startIdx;
    }
    var last := mm[|mm| - 1];
    if last.offset + last.length <= start {
      AllPassed(mm, from, start, end);
      return keys, startIdx;
    }
    idx := if startIdx < 0 then |mm| + startIdx else startIdx;
    NoneOverlap(mm, from, 0, idx, start, end);
    while idx < |mm|
      invariant from <= idx <= |mm|
      invariant EndedBy(mm, from, idx, end)
      invariant keys == KeysBetween(mm, from, idx, start, end)
    {
      var f := mm[idx];
      KeysStep(mm, from, idx, start, end);
      if end > f.offset {
        if start >= f.offset + f.length {
          idx := idx + 1;
          continue;
        }
        keys := keys + [Media(f.id, f.offset - start)];
        if end >= f.offset + f.length {
          idx := idx + 1;
        } else {
          LaterInputsOut(mm, from, idx, start, end);
          return;
        }
      } else {
        LaterInputsOut(mm, from, idx, start, end);
        return;
      }
    }
  }

  // ------------------------------------------------------------ block keys and hashes

  function Clamp(s: seq<int>, lo: nat, hi: nat): seq<int>
    requires lo <= hi
  {
    if hi <= |s| then s[lo..hi] else if lo <= |s| then s[lo..] else []
  }

  /** LoRA name, media inputs from number `from` on, cache salt (first block only), embeddings. */
  function ExtraKeys(req: Request, from: nat, start: nat, end: nat): Option<seq<Key>>
    requires start <= end
  {
    var keys := (if req.lora.Some? then [Str(req.lora.value)] else [])
                + OverlapKeys(req.mm, from, start, end)
                + (if start == 0 && req.salt != "" then [Str(req.salt)] else [])
                + (if req.embeds.Some? then [Embeds(Clamp(req.embeds.value, start, end))] else []);
    if keys == [] then None else Some(keys)
  }

  method GenerateBlockHashExtraKeys(req: Request, start: nat, end: nat, startIdx: int, ghost from: nat)
    returns (keys: Option<seq<Key>>, idx: int)
    requires SortedDisjoint(req.mm) && start < end && PassedBy(req.mm, from, startIdx, start)
    ensures keys == ExtraKeys(req, from, start, end) && PassedBy(req.mm, from, idx, end)
  {
    var mmKeys;
    mmKeys, idx := GenMmExtraHashKeys(req.mm, start, end, startIdx, from);
    var loraKeys := if req.lora.Some? then [Str(req.lora.value)] else [];
    var saltKeys := if start == 0 && req.salt != "" then [Str(req.salt)] else [];
    var embedKeys := if req.embeds.Some? then [Embeds(Clamp(req.embeds.value, start, end))] else [];
    var all := loraKeys + mmKeys + saltKeys + embedKeys;
    keys := if all == [] then None else Some(all);
  }

  function BlockTokens(req: Request, h: nat, i: nat): seq<int>
    requires (i + 1) * h <= |req.tokens|
  {
    assert i * h <= (i + 1) * h;
    req.tokens[i * h..(i + 1) * h]
  }

  function BlockKeys(req: Request, from: nat, h: nat, i: nat): Option<seq<Key>> {
    assert i * h <= (i + 1) * h;
    ExtraKeys(req, from, i * h, (i + 1) * h)
  }

  function LastOr(s: seq<int>, default: int): int {
    if s == [] then default else s[|s| - 1]
  }

  /** Hashes of blocks i .. i + n - 1, chained onto prev. */
  ghost function Chain(hf: HashFn, req: Request, from: nat, h: nat, prev: int, i: nat, n: nat): (c: seq<int>)
    requires (i + n) * h <= |req.tokens|
    ensures |c| == n
    decreases n
  {
    if n == 0 then []
    else
      BlockFits(i, n, h);
      var c := Chain(hf, req, from, h, prev, i, n - 1);
      c + [hf(LastOr(c, prev), BlockTokens(req, h, i + n - 1), BlockKeys(req, from, h, i + n - 1))]
  }

  lemma BlockFits(i: nat, n: nat, h: nat)
    requires n > 0
    ensures (i + (n - 1)) * h <= (i + n) * h && (i + n - 1 + 1) * h == (i + n) * h
  {
    MulMono(i + n - 1, i + n, h);
  }

  lemma FullBlocks(n: nat, h: nat)
    requires h > 0
    ensures n / h * h <= n < (n / h + 1) * h
  {
    assert n == n / h * h + n % h;
  }

  /** One block: its keys, then its hash on top of the previous one. */
  method HashBlock(hf: HashFn, h: nat, req: Request, start: nat, prev: int, mmIdx: int, ghost from: nat, ghost i: nat)
    returns (x: int, idx: int)
    requires h > 0 && SortedDisjoint(req.mm) && start == i * h && (i + 1) * h <= |req.tokens|
    requires PassedBy(req.mm, from, mmIdx, start)
    ensures x == hf(prev, BlockTokens(req, h, i), BlockKeys(req, from, h, i))
    ensures PassedBy(req.mm, from, idx, start + h)
  {
    var keys;
    assert (i + 1) * h == start + h;
    keys, idx := GenerateBlockHashExtraKeys(req, start, start + h, mmIdx, from);
    x := hf(prev, req.tokens[start..start + h], keys);
  }

  lemma BlocksDone(k: nat, n: nat, h: nat)
    requires h > 0 && k * h <= n < k * h + h
    ensures k == n / h
  {
    DivModUnique(n, h, k, n - k * h);
  }

  lemma NextBlock(k: nat, h: nat)
    ensures (k + 1) * h == k * h + h && k * h >= 0
  {
  }

  /** The hasher: hashes of the full blocks beyond those already known. A resumed call starts its
      media scan at the last media input. */
  method RequestBlockHasher(hf: HashFn, none: int, h: nat, req: Request, blockHashes: seq<int>)
    returns (fresh': seq<int>)
    requires h > 0 && SortedDisjoint(req.mm)
    ensures fresh' == NewHashes(hf, none, h, req, blockHashes)
  {
    var startIdx: nat := |blockHashes| * h;
    BlockCount(|blockHashes|, |req.tokens|, h);
    if startIdx + h > |req.tokens| {
      return [];
    }
    ghost var from := ScanStart(req, |blockHashes|);
    var mmIdx := if startIdx > 0 then -1 else 0;
    var parent := LastOr(blockHashes, none);
    var prev := parent;
    fresh' := [];
    while startIdx + h <= |req.tokens|
      invariant startIdx >= 0 && Progress(hf, req, from, h, parent, |blockHashes|, fresh', prev, startIdx, mmIdx)
      decreases |req.tokens| - startIdx
    {
      prev, mmIdx, fresh' := HashNext(hf, h, req, startIdx, mmIdx, prev, fresh', from, parent, |blockHashes|);
      startIdx := startIdx + h;
    }
    AllNew(hf, none, h, req, blockHashes, fresh', prev, startIdx, mmIdx);
  }

  /** The loop's state: hashes c of the blocks from k on, the last of them, the token and media index. */
  ghost predicate Progress(hf: HashFn, req: Request, from: nat, h: nat, parent: int, k: nat, c: seq<int>, prev: int,
                           startIdx: int, mmIdx: int) {
    && startIdx == (k + |c|) * h <= |req.tokens| && PassedBy(req.mm, from, mmIdx, startIdx)
    && c == Chain(hf, req, from, h, parent, k, |c|) && prev == LastOr(c, parent)
  }

  method HashNext(hf: HashFn, h: nat, req: Request, startIdx: nat, mmIdx: int, prev: int, acc: seq<int>,
                  ghost from: nat, ghost parent: int, ghost k: nat)
    returns (prev': int, mmIdx': int, acc': seq<int>)
    requires h > 0 && SortedDisjoint(req.mm) && startIdx + h <= |req.tokens|
    requires Progress(hf, req, from, h, parent, k, acc, prev, startIdx, mmIdx)
    ensures Progress(hf, req, from, h, parent, k, acc', prev', startIdx + h, mmIdx')
  {
    NextBlock(k + |acc|, h);
    prev', mmIdx' := HashBlock(hf, h, req, startIdx, prev, mmIdx, from, k + |acc|);
    ChainSnoc(hf, req, from, h, parent, k, acc, prev');
    acc' := acc + [prev'];
  }

  lemma AllNew(hf: HashFn, none: int, h: nat, req: Request, known: seq<int>, c: seq<int>, prev: int, startIdx: nat,
               mmIdx: int)
    requires h > 0 && |known| < |req.tokens| / h && startIdx + h > |req.tokens|
    requires Progress(hf, req, ScanStart(req, |known|), h, LastOr(known, none), |known|, c, prev, startIdx, mmIdx)
    ensures c == NewHashes(hf, none, h, req, known)
  {
    BlocksDone(|known| + |c|, |req.tokens|, h);
  }

  lemma {:induction false} ChainSnoc(hf: HashFn, req: Request, from: nat, h: nat, parent: int, k: nat, c: seq<int>,
                                     x: int)
    requires (k + |c| + 1) * h <= |req.tokens| && (k + |c|) * h <= |req.tokens|
    requires c == Chain(hf, req, from, h, parent, k, |c|)
    requires x == hf(LastOr(c, parent), BlockTokens(req, h, k + |c|), BlockKeys(req, from, h, k + |c|))
    ensures c + [x] == Chain(hf, req, from, h, parent, k, |c| + 1)
  {
  }

  lemma BlockCount(k: nat, n: nat, h: nat)
    requires h > 0
    ensures k * h + h <= n <==> k < n / h
  {
    FullBlocks(n, h);
    if k < n / h { MulMono(k + 1, n / h, h); } else { MulMono(n / h + 1, k + 1, h); }
  }

  /** Media inputs the scan of a call considers: all of them, or only the last on resume. */
  ghost function ScanStart(req: Request, known: nat): nat {
    if known > 0 && req.mm != [] then |req.mm| - 1 else 0
  }

  ghost function NewHashes(hf: HashFn, none: int, h: nat, req: Request, blockHashes: seq<int>): seq<int>
    requires h > 0
  {
    FullBlocks(|req.tokens|, h);
    var k, total := |blockHashes|, |req.tokens| / h;
    if k >= total then []
    else
      Chain(hf, req, ScanStart(req, k), h, LastOr(blockHashes, none), k, total - k)
  }

  // ------------------------------------------------------------ resuming

  ghost predicate Injective(hf: HashFn) {
    forall p, t, k, p', t', k' :: hf(p, t, k) == hf(p', t', k') ==> p == p' && t == t' && k == k'
  }

  lemma InjectiveOn(hf: HashFn, p: int, t: seq<int>, k: Option<seq<Key>>, p': int, t': seq<int>, k': Option<seq<Key>>)
    requires Injective(hf)
    ensures hf(p, t, k) == hf(p', t', k') <==> p == p' && t == t' && k == k'
  {
  }

  /** The request while only the first len tokens have arrived. */
  function Upto(req: Request, len: nat): Request
    requires len <= |req.tokens|
  {
    req.(tokens := req.tokens[..len])
  }

  lemma {:induction false} ChainOfPrefix(hf: HashFn, req: Request, len: nat, from: nat, h: nat, prev: int, i: nat,
                                         n: nat)
    requires (i + n) * h <= len <= |req.tokens|
    ensures Chain(hf, Upto(req, len), from, h, prev, i, n) == Chain(hf, req, from, h, prev, i, n)
  {
    if n > 0 {
      BlockFits(i, n, h);
      ChainOfPrefix(hf, req, len, from, h, prev, i, n - 1);
      TokensOfPrefix(req, len, h, i + n - 1);
      ChainLast(hf, req, from, h, prev, i, n);
      ChainLast(hf, Upto(req, len), from, h, prev, i, n);
    }
  }

  lemma TokensOfPrefix(req: Request, len: nat, h: nat, b: nat)
    requires (b + 1) * h <= len <= |req.tokens|
    ensures BlockTokens(Upto(req, len), h, b) == BlockTokens(req, h, b)
  {
  }

  lemma ChainLast(hf: HashFn, req: Request, from: nat, h: nat, prev: int, i: nat, n: nat)
    requires n > 0 && (i + n) * h <= |req.tokens| && (i + (n - 1)) * h <= |req.tokens|
    requires (i + n - 1 + 1) * h <= |req.tokens|
    ensures Chain(hf, req, from, h, prev, i, n) ==
      var c := Chain(hf, req, from, h, prev, i, n - 1);
      c + [hf(LastOr(c, prev), BlockTokens(req, h, i + n - 1), BlockKeys(req, from, h, i + n - 1))]
  {
  }

  lemma {:induction false} ChainSplit(hf: HashFn, req: Request, from: nat, h: nat, prev: int, i: nat, m: nat, n: nat)
    requires (i + m + n) * h <= |req.tokens| && (i + m) * h <= |req.tokens|
    ensures Chain(hf, req, from, h, prev, i, m + n) ==
      var c := Chain(hf, req, from, h, prev, i, m); c + Chain(hf, req, from, h, LastOr(c, prev), i + m, n)
  {
    if n > 0 {
      BlockFits(i + m, n, h);
      BlockFits(i, m + n, h);
      ChainSplit(hf, req, from, h, prev, i, m, n - 1);
    }
  }

  /** Two scans give the same hashes exactly when they give the same keys for every block. */
  lemma {:induction false} SameHashesSameKeys(hf: HashFn, req: Request, from: nat, from': nat, h: nat, prev: int,
                                              i: nat, n: nat)
    requires Injective(hf) && (i + n) * h <= |req.tokens|
    ensures Chain(hf, req, from, h, prev, i, n) == Chain(hf, req, from', h, prev, i, n) <==>
      forall b :: i <= b < i + n ==> BlockKeys(req, from, h, b) == BlockKeys(req, from', h, b)
  {
    if n > 0 {
      var b := i + n - 1;
      BlockFits(i, n, h);
      SameHashesSameKeys(hf, req, from, from', h, prev, i, n - 1);
      var c, c' := Chain(hf, req, from, h, prev, i, n - 1), Chain(hf, req, from', h, prev, i, n - 1);
      InjectiveOn(hf, LastOr(c, prev), BlockTokens(req, h, b), BlockKeys(req, from, h, b),
                  LastOr(c', prev), BlockTokens(req, h, b), BlockKeys(req, from', h, b));
      SnocEqual(c, hf(LastOr(c, prev), BlockTokens(req, h, b), BlockKeys(req, from, h, b)),
                c', hf(LastOr(c', prev), BlockTokens(req, h, b), BlockKeys(req, from', h, b)));
    }
  }

  lemma SnocEqual(s: seq<int>, x: int, t: seq<int>, y: int)
    requires |s| == |t|
    ensures s + [x] == t + [y] <==> s == t && x == y
  {
    if s + [x] == t + [y] {
      assert (s + [x])[..|s|] == s && (t + [y])[..|t|] == t;
      assert (s + [x])[|s|] == x && (t + [y])[|t|] == y;
    }
  }

  /** Some media input before number `last` overlaps block b. */
  ghost predicate Misses(req: Request, last: nat, h: nat, b: nat)
    requires last <= |req.mm|
  {
    exists j :: 0 <= j < last && Overlaps(req.mm[j], b * h, (b + 1) * h)
  }

  lemma {:induction false} KeysDrop(mm: seq<MmFeature>, from: nat, upto: nat, start: int, end: int)
    requires from <= upto <= |mm|
    ensures KeysBetween(mm, 0, upto, start, end) ==
      KeysBetween(mm, 0, from, start, end) + KeysBetween(mm, from, upto, start, end)
    decreases upto
  {
    if from < upto {
      KeysDrop(mm, from, upto - 1, start, end);
    }
  }

  lemma {:induction false} NoKeys(mm: seq<MmFeature>, upto: nat, start: int, end: int)
    requires upto <= |mm|
    ensures KeysBetween(mm, 0, upto, start, end) == [] <==> forall j :: 0 <= j < upto ==> !Overlaps(mm[j], start, end)
  {
    if upto > 0 {
      NoKeys(mm, upto - 1, start, end);
    }
  }

  /** Skipping the inputs before number `from` changes a block's keys exactly when one of them
      overlaps the block. */
  lemma SkippedKeys(req: Request, from: nat, h: nat, b: nat)
    requires from <= |req.mm|
    ensures BlockKeys(req, from, h, b) == BlockKeys(req, 0, h, b) <==> !Misses(req, from, h, b)
  {
    var start, end := b * h, (b + 1) * h;
    KeysDrop(req.mm, from, |req.mm|, start, end);
    NoKeys(req.mm, from, start, end);
    var skipped, kept := KeysBetween(req.mm, 0, from, start, end), OverlapKeys(req.mm, from, start, end);
    if skipped == [] {
      assert skipped + kept == kept;
    } else {
      var pre := if req.lora.Some? then [Str(req.lora.value)] else [];
      var suf := (if start == 0 && req.salt != "" then [Str(req.salt)] else [])
                 + (if req.embeds.Some? then [Embeds(Clamp(req.embeds.value, start, end))] else []);
      assert |pre + (skipped + kept) + suf| > |pre + kept + suf|;
      KeysLength(req, from, start, end);
      KeysLength(req, 0, start, end);
    }
  }

  /** Number of keys in a block's tuple. */
  ghost function KeyCount(k: Option<seq<Key>>): nat {
    if k.None? then 0 else |k.value|
  }

  lemma KeysLength(req: Request, from: nat, start: nat, end: nat)
    requires start <= end
    ensures KeyCount(ExtraKeys(req, from, start, end)) == |OverlapKeys(req.mm, from, start, end)|
      + (if req.lora.Some? then 1 else 0) + (if start == 0 && req.salt != "" then 1 else 0)
      + (if req.embeds.Some? then 1 else 0)
  {
  }

  /** A resumed scan leaves out something that touches block b: a media input but the last. */
  ghost predicate MissesEarlier(req: Request, h: nat, b: nat) {
    req.mm != [] && Misses(req, |req.mm| - 1, h, b)
  }

  ghost predicate ResumeSafe(req: Request, h: nat, known: nat, total: nat) {
    known == 0 || forall b :: known <= b < total ==> !MissesEarlier(req, h, b)
  }

  ghost function Full(hf: HashFn, none: int, req: Request, h: nat, n: nat): (c: seq<int>)
    requires n * h <= |req.tokens|
    ensures |c| == n
  {
    Chain(hf, req, 0, h, none, 0, n)
  }

  lemma MoreBlocks(a: nat, b: nat, h: nat)
    requires h > 0 && a <= b
    ensures a / h <= b / h && a / h * h <= a && b / h * h <= b
  {
    FullBlocks(a, h);
    FullBlocks(b, h);
    if a / h > b / h { MulMono(b / h + 1, a / h, h); }
  }

  /** One call at token count len on top of correct hashes for the first blocks. */
  ghost function Resumed(hf: HashFn, none: int, h: nat, req: Request, known: nat, len: nat): seq<int>
    requires h > 0 && len <= |req.tokens| && known * h <= |req.tokens|
  {
    var acc := Full(hf, none, req, h, known);
    acc + NewHashes(hf, none, h, Upto(req, len), acc)
  }

  /** One resumed call, on top of correct hashes, yields exactly the hashes of one pass over all
      len tokens if and only if it is safe. */
  lemma ResumeExact(hf: HashFn, none: int, h: nat, req: Request, known: nat, len: nat)
    requires Injective(hf) && h > 0 && len <= |req.tokens| && known <= len / h
    requires known * h <= |req.tokens| && len / h * h <= |req.tokens|
    ensures Resumed(hf, none, h, req, known, len) == Full(hf, none, req, h, len / h) <==>
      ResumeSafe(req, h, known, len / h)
  {
    FullBlocks(len, h);
    var total := len / h;
    var acc := Full(hf, none, req, h, known);
    NewOnPrefix(hf, none, h, req, acc, len, total);
    FullSplit(hf, none, req, h, known, total);
    ScanStartExact(hf, req, h, LastOr(acc, none), known, total - known);
    SameHead(acc, Chain(hf, req, ScanStart(req, known), h, LastOr(acc, none), known, total - known),
             Chain(hf, req, 0, h, LastOr(acc, none), known, total - known));
  }

  lemma SameHead(head: seq<int>, a: seq<int>, b: seq<int>)
    ensures head + a == head + b <==> a == b
  {
    assert (head + a)[|head|..] == a && (head + b)[|head|..] == b;
  }

  /** What a call adds, read off the whole request. */
  lemma NewOnPrefix(hf: HashFn, none: int, h: nat, req: Request, acc: seq<int>, len: nat, total: nat)
    requires h > 0 && len <= |req.tokens| && total == len / h && |acc| <= total && total * h <= len
    ensures NewHashes(hf, none, h, Upto(req, len), acc)
      == Chain(hf, req, ScanStart(req, |acc|), h, LastOr(acc, none), |acc|, total - |acc|)
  {
    ChainOfPrefix(hf, req, len, ScanStart(req, |acc|), h, LastOr(acc, none), |acc|, total - |acc|);
  }

  lemma {:induction false} FullSplit(hf: HashFn, none: int, req: Request, h: nat, k: nat, total: nat)
    requires k <= total && k * h <= |req.tokens| && total * h <= |req.tokens|
    ensures Full(hf, none, req, h, total) ==
      Full(hf, none, req, h, k) + Chain(hf, req, 0, h, LastOr(Full(hf, none, req, h, k), none), k, total - k)
  {
    ChainSplit(hf, req, 0, h, none, 0, k, total - k);
  }

  /** Starting the scan where a call does gives the right hashes exactly when that is safe. */
  lemma {:induction false} ScanStartExact(hf: HashFn, req: Request, h: nat, parent: int, known: nat, n: nat)
    requires Injective(hf) && (known + n) * h <= |req.tokens|
    ensures Chain(hf, req, ScanStart(req, known), h, parent, known, n) == Chain(hf, req, 0, h, parent, known, n) <==>
      ResumeSafe(req, h, known, known + n)
  {
    var from := ScanStart(req, known);
    SameHashesSameKeys(hf, req, from, 0, h, parent, known, n);
    forall b | known <= b < known + n
      ensures BlockKeys(req, from, h, b) == BlockKeys(req, 0, h, b) <==> known == 0 || !MissesEarlier(req, h, b)
    {
      SkippedKeys(req, from, h, b);
    }
  }

  /** Hashes after the hasher was called each time the token count reached the next entry. */
  ghost function Accumulate(hf: HashFn, none: int, h: nat, req: Request, lens: seq<nat>): seq<int>
    requires h > 0 && forall i :: 0 <= i < |lens| ==> lens[i] <= |req.tokens|
  {
    if lens == [] then []
    else
      var acc := Accumulate(hf, none, h, req, lens[..|lens| - 1]);
      acc + NewHashes(hf, none, h, Upto(req, lens[|lens| - 1]), acc)
  }

  ghost function Known(lens: seq<nat>, h: nat): nat
    requires h > 0
  {
    if lens == [] then 0 else lens[|lens| - 1] / h
  }

  ghost predicate Growing(lens: seq<nat>, max: nat) {
    && (forall i :: 0 <= i < |lens| ==> lens[i] <= max)
    && (forall i, j :: 0 <= i < j < |lens| ==> lens[i] <= lens[j])
  }

  ghost predicate RunSafe(req: Request, h: nat, lens: seq<nat>)
    requires h > 0
  {
    lens == [] || (RunSafe(req, h, lens[..|lens| - 1]) &&
                   ResumeSafe(req, h, Known(lens[..|lens| - 1], h), Known(lens, h)))
  }

  /** Over any number of resumed calls: the accumulated hashes equal one pass at the end if and
      only if every resumed call was safe. */
  lemma {:induction false} RunExact(hf: HashFn, none: int, h: nat, req: Request, lens: seq<nat>)
    requires Injective(hf) && h > 0 && Growing(lens, |req.tokens|)
    ensures Known(lens, h) * h <= |req.tokens| && |Accumulate(hf, none, h, req, lens)| == Known(lens, h)
    ensures Accumulate(hf, none, h, req, lens) == Full(hf, none, req, h, Known(lens, h)) <==> RunSafe(req, h, lens)
  {
    if lens != [] {
      var before, len := lens[..|lens| - 1], lens[|lens| - 1];
      RunExact(hf, none, h, req, before);
      MoreBlocks(if before == [] then 0 else before[|before| - 1], len, h);
      RunStep(hf, none, h, req, Accumulate(hf, none, h, req, before), len);
    }
  }

  lemma RunStep(hf: HashFn, none: int, h: nat, req: Request, acc: seq<int>, len: nat)
    requires Injective(hf) && h > 0 && len <= |req.tokens| && |acc| <= len / h
    requires |acc| * h <= |req.tokens| && len / h * h <= |req.tokens|
    ensures |acc + NewHashes(hf, none, h, Upto(req, len), acc)| == len / h
    ensures acc + NewHashes(hf, none, h, Upto(req, len), acc) == Full(hf, none, req, h, len / h) <==>
      acc == Full(hf, none, req, h, |acc|) && ResumeSafe(req, h, |acc|, len / h)
  {
    var k, total := |acc|, len / h;
    FullBlocks(len, h);
    var fresh' := NewHashes(hf, none, h, Upto(req, len), acc);
    ResumeExact(hf, none, h, req, k, len);
    FullSplit(hf, none, req, h, k, total);
    NewOnPrefix(hf, none, h, req, acc, len, total);
    if acc != Full(hf, none, req, h, k) {
      assert (acc + fresh')[..k] == acc;
      assert Full(hf, none, req, h, total)[..k] == Full(hf, none, req, h, k);
    }
  }

  /** In particular when all media inputs but the last end before the first resume point. */
  lemma {:induction false} EarlyMediaIsSafe(req: Request, h: nat, lens: seq<nat>, first: nat)
    requires h > 0 && Growing(lens, |req.tokens|)
    requires forall j :: 0 <= j < |req.mm| - 1 ==> End(req.mm[j]) <= first * h
    requires forall i :: 0 <= i < |lens| - 1 && lens[i] / h > 0 ==> lens[i] / h >= first
    ensures RunSafe(req, h, lens)
  {
    if lens != [] {
      var before := lens[..|lens| - 1];
      EarlyMediaIsSafe(req, h, before, first);
      var k := Known(before, h);
      if k > 0 {
        assert k == lens[|lens| - 2] / h;
        SafeAfter(req, h, first, k, Known(lens, h));
      }
    }
  }

  lemma SafeAfter(req: Request, h: nat, first: nat, known: nat, total: nat)
    requires forall j :: 0 <= j < |req.mm| - 1 ==> End(req.mm[j]) <= first * h
    requires known >= first
    ensures ResumeSafe(req, h, known, total)
  {
    forall b | known <= b < total ensures !MissesEarlier(req, h, b) {
      MulMono(first, b, h);
    }
  }

  // ------------------------------------------------------------ what equal hashes mean

  ghost predicate SamePrefix(r: Request, r': Request, h: nat, n: nat)
    requires n * h <= |r.tokens| && n * h <= |r'.tokens|
  {
    && r.tokens[..n * h] == r'.tokens[..n * h]
    && forall b :: 0 <= b < n ==> BlockKeys(r, 0, h, b) == BlockKeys(r', 0, h, b)
  }

  /** Under an injective hash the hashes of block n - 1 are equal exactly when the first n blocks
      agree in tokens and extra keys, so each hash fingerprints its whole prefix. */
  lemma {:induction false} HashIdentifiesPrefix(hf: HashFn, none: int, h: nat, r: Request, r': Request, n: nat)
    requires Injective(hf) && n * h <= |r.tokens| && n * h <= |r'.tokens|
    ensures LastOr(Full(hf, none, r, h, n), none) == LastOr(Full(hf, none, r', h, n), none) <==> SamePrefix(r, r', h, n)
  {
    if n > 0 {
      BlockFits(0, n, h);
      HashIdentifiesPrefix(hf, none, h, r, r', n - 1);
      var c, c' := Full(hf, none, r, h, n - 1), Full(hf, none, r', h, n - 1);
      InjectiveOn(hf, LastOr(c, none), BlockTokens(r, h, n - 1), BlockKeys(r, 0, h, n - 1),
                  LastOr(c', none), BlockTokens(r', h, n - 1), BlockKeys(r', 0, h, n - 1));
      PrefixStep(r.tokens, r'.tokens, (n - 1) * h, n * h);
      assert SamePrefix(r, r', h, n) <==>
        SamePrefix(r, r', h, n - 1) && BlockTokens(r, h, n - 1) == BlockTokens(r', h, n - 1) &&
        BlockKeys(r, 0, h, n - 1) == BlockKeys(r', 0, h, n - 1);
    }
  }

  lemma PrefixStep(s: seq<int>, t: seq<int>, a: nat, b: nat)
    requires a <= b <= |s| && b <= |t|
    ensures s[..b] == t[..b] <==> s[..a] == t[..a] && s[a..b] == t[a..b]
  {
    assert s[..b] == s[..a] + s[a..b] && t[..b] == t[..a] + t[a..b];
    if s[..b] == t[..b] {
      assert s[..b][..a] == s[..a] && t[..b][..a] == t[..a];
      assert s[..b][a..] == s[a..b] && t[..b][a..] == t[a..b];
    }
  }

  /** Block hashes viewed at a multiple of the hash block size. */
  datatype BlockHashListWithBlockSize = View(blockHashes: seq<int>, scaleFactor: int)
  {
    function Len(): int
      requires scaleFactor > 0
    {
      |blockHashes| / scaleFactor
    }

    function ValueAt(idx: nat): int
      requires scaleFactor > 0 && idx < Len()
    {
      ViewIndex(idx, |blockHashes|, scaleFactor);
      blockHashes[(idx + 1) * scaleFactor - 1]
    }
  }

  lemma ViewIndex(idx: nat, n: nat, scale: int)
    requires scale > 0 && idx < n / scale
    ensures 0 <= (idx + 1) * scale - 1 < n
  {
    FullBlocks(n, scale);
    MulMono(idx + 1, n / scale, scale);
    MulMono(1, idx + 1, scale);
  }

  lemma {:induction false} ChainAt(hf: HashFn, none: int, r: Request, h: nat, n: nat, m: nat)
    requires m <= n && n * h <= |r.tokens|
    ensures m * h <= |r.tokens| && LastOr(Full(hf, none, r, h, n)[..m], none) == LastOr(Full(hf, none, r, h, m), none)
    ensures m > 0 ==> Full(hf, none, r, h, n)[m - 1] == LastOr(Full(hf, none, r, h, m), none)
  {
    MulMono(m, n, h);
    ChainSplit(hf, r, 0, h, none, 0, m, n - m);
    assert Full(hf, none, r, h, n)[..m] == Full(hf, none, r, h, m);
  }

  /** The coarser view keeps the meaning at its own granularity: entry idx of two requests' views
      is equal exactly when the first idx + 1 coarse blocks agree in tokens and in the extra keys
      of every fine block inside them. */
  lemma CoarseViewIdentifiesPrefix(hf: HashFn, none: int, h: nat, scale: nat, r: Request, r': Request, n: nat, n': nat,
                                   idx: nat)
    requires Injective(hf) && scale > 0 && n * h <= |r.tokens| && n' * h <= |r'.tokens|
    requires idx < n / scale && idx < n' / scale
    ensures (idx + 1) * scale * h <= |r.tokens| && (idx + 1) * scale * h <= |r'.tokens|
    ensures var view, view' := View(Full(hf, none, r, h, n), scale), View(Full(hf, none, r', h, n'), scale);
      view.ValueAt(idx) == view'.ValueAt(idx) <==>
      SamePrefix(r, r', h, (idx + 1) * scale)
  {
    var m := (idx + 1) * scale;
    ViewIndex(idx, n, scale);
    ViewIndex(idx, n', scale);
    ChainAt(hf, none, r, h, n, m);
    ChainAt(hf, none, r', h, n', m);
    HashIdentifiesPrefix(hf, none, h, r, r', m);
  }

  // ------------------------------------------------------------ the unsafe resume, concretely

  /** Eight tokens in blocks of four, with two one-token media inputs in the second block. */
  function TwoMedia(first: string): Request {
    Request([1, 2, 3, 4, 9, 9, 5, 6], [MmFeature(first, 4, 1), MmFeature("b", 5, 1)], None, "", None)
  }

  /** When the second block fills up only after the first call, the first of its two media
      inputs is left out of its hash: requests that differ in that input get the same hashes,
      although hashing once tells them apart. */
  lemma {:induction false} ResumeCanConfuseMedia(hf: HashFn, none: int)
    requires Injective(hf)
    ensures Accumulate(hf, none, 4, TwoMedia("x"), [7, 8]) == Accumulate(hf, none, 4, TwoMedia("y"), [7, 8])
    ensures Full(hf, none, TwoMedia("x"), 4, 2) != Full(hf, none, TwoMedia("y"), 4, 2)
  {
    var x, y := TwoMedia("x"), TwoMedia("y");
    ResumedHashes(hf, none, "x");
    ResumedHashes(hf, none, "y");
    HashIdentifiesPrefix(hf, none, 4, x, y, 2);
    SecondBlockKeys("x");
    SecondBlockKeys("y");
    assert BlockKeys(x, 0, 4, 1).value[0] != BlockKeys(y, 0, 4, 1).value[0];
  }

  lemma SecondBlockKeys(first: string)
    ensures BlockKeys(TwoMedia(first), 0, 4, 1) == Some([Media(first, 0), Media("b", 1)])
    ensures BlockKeys(TwoMedia(first), 1, 4, 1) == Some([Media("b", 1)])
  {
    var mm := TwoMedia(first).mm;
    assert KeysBetween(mm, 0, 0, 4, 8) == [];
    assert KeysBetween(mm, 0, 1, 4, 8) == [Media(first, 0)];
    assert KeysBetween(mm, 0, 2, 4, 8) == [Media(first, 0), Media("b", 1)];
    assert KeysBetween(mm, 1, 1, 4, 8) == [];
    assert KeysBetween(mm, 1, 2, 4, 8) == [Media("b", 1)];
    var none: seq<Key> := [];
    assert none + OverlapKeys(mm, 0, 4, 8) + none + none == OverlapKeys(mm, 0, 4, 8);
    assert none + OverlapKeys(mm, 1, 4, 8) + none + none == OverlapKeys(mm, 1, 4, 8);
    assert ExtraKeys(TwoMedia(first), 0, 4, 8) == Some(OverlapKeys(mm, 0, 4, 8));
    assert ExtraKeys(TwoMedia(first), 1, 4, 8) == Some(OverlapKeys(mm, 1, 4, 8));
  }

  lemma {:induction false} ResumedHashes(hf: HashFn, none: int, first: string)
    ensures Accumulate(hf, none, 4, TwoMedia(first), [7, 8]) ==
      var a := hf(none, [1, 2, 3, 4], None); [a, hf(a, [9, 9, 5, 6], Some([Media("b", 1)]))]
  {
    var r := TwoMedia(first);
    var lens: seq<nat> := [7, 8];
    assert lens[..1] == [7] && lens[..1][..0] == [];
    var a := hf(none, [1, 2, 3, 4], None);
    FirstCall(hf, none, first);
    assert Accumulate(hf, none, 4, r, [7]) == [a];
    SecondCall(hf, none, first, a);
  }

  lemma FirstCall(hf: HashFn, none: int, first: string)
    ensures NewHashes(hf, none, 4, Upto(TwoMedia(first), 7), []) == [hf(none, [1, 2, 3, 4], None)]
  {
    var r := TwoMedia(first);
    assert BlockTokens(Upto(r, 7), 4, 0) == [1, 2, 3, 4];
    assert KeysBetween(r.mm, 0, 1, 0, 4) == [];
    assert BlockKeys(Upto(r, 7), 0, 4, 0) == None;
  }

  lemma SecondCall(hf: HashFn, none: int, first: string, a: int)
    ensures NewHashes(hf, none, 4, Upto(TwoMedia(first), 8), [a]) == [hf(a, [9, 9, 5, 6], Some([Media("b", 1)]))]
  {
    var r := TwoMedia(first);
    assert BlockTokens(Upto(r, 8), 4, 1) == [9, 9, 5, 6];
    SecondBlockKeys(first);
    assert BlockKeys(Upto(r, 8), 1, 4, 1) == Some([Media("b", 1)]);
    assert Chain(hf, Upto(r, 8), 1, 4, a, 1, 0) == [];
  }
}
