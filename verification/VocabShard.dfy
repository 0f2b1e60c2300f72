/** Tensor-parallel sharding of the vocabulary: padding, per-rank index ranges, the masked
    lookup, and the mapping back from gathered logits to token order. */
module VocabShard {
  import opened Arith

  // ------------------------------------------------------------ padding

  function Gcd(a: nat, b: nat): (g: nat)
    requires a > 0
    ensures g > 0
    decreases b
  {
    if b == 0 then a else Gcd(b, a % b)
  }

  lemma {:induction false} GcdDivides(a: nat, b: nat)
    requires a > 0
    ensures a % Gcd(a, b) == 0 && b % Gcd(a, b) == 0
    decreases b
  {
    var g := Gcd(a, b);
    if b == 0 {
      DivModUnique(a, a, 1, 0);
    } else {
      GcdDivides(b, a % b);
      var q := a / b;
      assert a == q * b + a % b;
      assert a == (q * (b / g) + (a % b) / g) * g;
      DivExact(q * (b / g) + (a % b) / g, g);
    }
  }

  function PadVocabSize(vocab: nat, padTo: nat): nat
    requires padTo > 0
  {
    assert (vocab + padTo - 1) / padTo * padTo >= 0;
    (vocab + padTo - 1) / padTo * padTo
  }

  lemma PadVocabBounds(vocab: nat, padTo: nat)
    requires padTo > 0
    ensures vocab <= PadVocabSize(vocab, padTo) < vocab + padTo
    ensures exists q :: q >= 0 && PadVocabSize(vocab, padTo) == q * padTo
  {
    var q := (vocab + padTo - 1) / padTo;
    assert vocab + padTo - 1 == q * padTo + (vocab + padTo - 1) % padTo;
    assert q >= 0 && PadVocabSize(vocab, padTo) == q * padTo;
  }

  /** The padding unit: raised to a common multiple when it does not already split evenly. */
  function PaddingUnit(padding: nat, tp: nat): nat
    requires padding > 0 && tp > 0
  {
    if tp > 1 && padding % tp != 0 then padding * tp / Gcd(padding, tp) else padding
  }

  lemma PaddingUnitIsMultiple(padding: nat, tp: nat)
    requires padding > 0 && tp > 0
    ensures PaddingUnit(padding, tp) > 0
    ensures PaddingUnit(padding, tp) % tp == 0 && PaddingUnit(padding, tp) % padding == 0
  {
    var g := Gcd(padding, tp);
    GcdDivides(padding, tp);
    if tp > 1 && padding % tp != 0 {
      var p, t := padding / g, tp / g;
      assert padding == p * g && tp == t * g;
      assert padding * tp == (p * tp) * g;
      DivExact(p * tp, g);
      assert p * tp == t * padding by { assert p * (t * g) == t * (p * g); }
      DivExact(p, tp);
      DivExact(t, padding);
      assert p >= 1 && t >= 1;
      MulMono(1, p, tp);
    } else {
      DivModUnique(padding, padding, 1, 0);
      if tp == 1 { DivModUnique(padding, 1, padding, 0); }
    }
  }

  // ------------------------------------------------------------ per-rank ranges

  lemma {:induction false} Bezout(a: nat, b: nat) returns (s: int, u: int)
    requires a > 0
    ensures Gcd(a, b) == a * s + b * u
    decreases b
  {
    if b == 0 {
      s, u := 1, 0;
    } else {
      var s', u' := Bezout(b, a % b);
      var q := a / b;
      s, u := u', s' - q * u';
      assert a == q * b + a % b;
      assert (a % b) * u' == a * u' - q * b * u';
      assert b * u == b * s' - q * b * u';
    }
  }

  lemma CommonMultiple(x: int, y: int, p: int, t: int, g: int, s: int, u: int)
    requires p * g * x == t * g * y && g == p * g * s + t * g * u && g > 0
    ensures p * g * x == (p * t * g) * (y * s + x * u)
  {
    var m := p * g * x;
    assert m * g == m * (p * g * s + t * g * u);
    assert m * (p * g * s) == (t * g * y) * (p * g * s);
    assert m * (t * g * u) == (p * g * x) * (t * g * u);
    assert m * g == ((p * t * g) * (y * s + x * u)) * g;
  }

  /** The unit is no larger than it must be: it divides every common multiple of the padding and the rank
      count. */
  lemma UnitIsLeast(padding: nat, tp: nat, m: int)
    requires padding > 0 && tp > 0 && m % padding == 0 && m % tp == 0
    ensures PaddingUnit(padding, tp) > 0 && m % PaddingUnit(padding, tp) == 0
  {
    PaddingUnitIsMultiple(padding, tp);
    if tp > 1 && padding % tp != 0 {
      var g := Gcd(padding, tp);
      GcdDivides(padding, tp);
      var s, u := Bezout(padding, tp);
      UnitDivides(padding, tp, g, s, u, m);
    }
  }

  lemma UnitDivides(padding: nat, tp: nat, g: nat, s: int, u: int, m: int)
    requires padding > 0 && tp > 0 && m % padding == 0 && m % tp == 0
    requires g > 0 && padding % g == 0 && tp % g == 0 && g == padding * s + tp * u
    requires padding * tp / g > 0
    ensures m % (padding * tp / g) == 0
  {
    var p, t := padding / g, tp / g;
    var x, y := m / padding, m / tp;
    assert padding == p * g && tp == t * g;
    UnitIs(padding, tp, p, t, g);
    assert m == p * g * x && m == t * g * y;
    CommonMultiple(x, y, p, t, g, s, u);
    MultipleOf(m, p * t * g, y * s + x * u);
  }

  lemma MultipleOf(m: int, unit: int, k: int)
    requires unit > 0 && m == unit * k
    ensures m % unit == 0
  {
    DivExact(k, unit);
  }

  lemma UnitIs(padding: nat, tp: nat, p: nat, t: nat, g: nat)
    requires padding == p * g && tp == t * g && g > 0
    ensures padding * tp / g == p * t * g
  {
    assert padding * tp == (p * t * g) * g;
    DivExact(p * t * g, g);
  }

  /** An embedding layer after padding: vocab = base + added token ids; padded sizes are tp
      equal parts each. */
  datatype Vocab = Vocab(size: nat, base: nat, sizePadded: nat, basePadded: nat, tp: nat)

  /** As the constructor computes it; no base size means all ids are base ids. */
  function MakeVocab(size: nat, baseSize: nat, padding: nat, tp: nat): Vocab
    requires padding > 0 && tp > 0 && baseSize <= size
  {
    PaddingUnitIsMultiple(padding, tp);
    var unit := PaddingUnit(padding, tp);
    var base := if baseSize == 0 then size else baseSize;
    var basePadded := PadVocabSize(base, unit);
    Vocab(size, base, PadVocabSize(basePadded + (size - base), unit), basePadded, tp)
  }

  ghost predicate ValidVocab(v: Vocab) {
    && v.tp > 0 && v.base <= v.size
    && v.base <= v.basePadded && v.basePadded + (v.size - v.base) <= v.sizePadded
    && v.basePadded == BasePart(v) * v.tp && v.sizePadded == Part(v) * v.tp
    && AddedPart(v) * v.tp == v.sizePadded - v.basePadded && AddedPart(v) >= 0
  }

  function BasePart(v: Vocab): int
    requires v.tp > 0
  {
    v.basePadded / v.tp
  }

  function AddedPart(v: Vocab): int
    requires v.tp > 0
  {
    (v.sizePadded - v.basePadded) / v.tp
  }

  function Part(v: Vocab): int
    requires v.tp > 0
  {
    v.sizePadded / v.tp
  }

  lemma MultipleSplits(n: int, unit: int, tp: int)
    requires unit > 0 && tp > 0 && n % unit == 0 && unit % tp == 0
    ensures n % tp == 0 && n == n / tp * tp
  {
    var q, u := n / unit, unit / tp;
    assert n == q * unit && unit == u * tp;
    assert n == (q * u) * tp;
    DivExact(q * u, tp);
  }

  lemma PadVocabMultiple(vocab: nat, padTo: nat)
    requires padTo > 0
    ensures PadVocabSize(vocab, padTo) % padTo == 0
  {
    DivExact((vocab + padTo - 1) / padTo, padTo);
  }

  /** For every vocabulary, padding and tp size the padded sizes split evenly. */
  lemma MakeVocabValid(size: nat, baseSize: nat, padding: nat, tp: nat)
    requires padding > 0 && tp > 0 && baseSize <= size
    ensures ValidVocab(MakeVocab(size, baseSize, padding, tp)) && PaddingUnit(padding, tp) > 0
    ensures var v, unit := MakeVocab(size, baseSize, padding, tp), PaddingUnit(padding, tp);
      && v.size == size && v.tp == tp && v.base == (if baseSize > 0 then baseSize else size)
      && v.base <= v.basePadded < v.base + unit
      && v.basePadded + (size - v.base) <= v.sizePadded < v.basePadded + (size - v.base) + unit
  {
    var v := MakeVocab(size, baseSize, padding, tp);
    PaddingUnitIsMultiple(padding, tp);
    var unit := PaddingUnit(padding, tp);
    PadVocabBounds(v.base, unit);
    PadVocabBounds(v.basePadded + (size - v.base), unit);
    PadVocabMultiple(v.base, unit);
    PadVocabMultiple(v.basePadded + (size - v.base), unit);
    MultipleSplits(v.basePadded, unit, tp);
    MultipleSplits(v.sizePadded, unit, tp);
    EvenDifference(v.sizePadded, v.basePadded, tp);
  }

  lemma EvenDifference(a: int, b: int, tp: int)
    requires tp > 0 && b <= a && a == a / tp * tp && b == b / tp * tp
    ensures (a - b) / tp * tp == a - b && (a - b) / tp >= 0
  {
    assert a - b == (a / tp - b / tp) * tp;
    DivExact(a / tp - b / tp, tp);
  }

  datatype ShardIndices = ShardIndices(
    paddedOrgStart: int, paddedOrgEnd: int, paddedAddedStart: int, paddedAddedEnd: int,
    orgStart: int, orgEnd: int, addedStart: int, addedEnd: int)
  {
    function NumOrg(): int { orgEnd - orgStart }
    function NumAdded(): int { addedEnd - addedStart }
    function NumOrgPadded(): int { paddedOrgEnd - paddedOrgStart }
    function NumAddedPadded(): int { paddedAddedEnd - paddedAddedStart }
    function NumOrgPadding(): int { NumOrgPadded() - NumOrg() }

    /** The sanity checks of the index record. */
    predicate Sane() {
      && paddedOrgStart <= paddedOrgEnd && paddedAddedStart <= paddedAddedEnd
      && orgStart <= orgEnd && addedStart <= addedEnd
      && orgStart <= paddedOrgStart && addedStart <= paddedAddedStart
      && orgEnd <= paddedOrgEnd && addedEnd <= paddedAddedEnd
      && NumOrg() <= NumOrgPadded() && NumAdded() <= NumAddedPadded()
    }
  }

  function GetIndices(v: Vocab, rank: int): ShardIndices
    requires v.tp > 0
  {
    var pos, poe := rank * BasePart(v), rank * BasePart(v) + BasePart(v);
    var pas, pae := rank * AddedPart(v) + v.base, rank * AddedPart(v) + AddedPart(v) + v.base;
    ShardIndices(pos, poe, pas, pae, Min(pos, v.base), Min(poe, v.base), Min(pas, v.size), Min(pae, v.size))
  }

  lemma PartsAdd(v: Vocab)
    requires ValidVocab(v)
    ensures Part(v) == BasePart(v) + AddedPart(v)
  {
    var b, a, p := BasePart(v), AddedPart(v), Part(v);
    assert (b + a) * v.tp == p * v.tp;
    if p < b + a { MulMono(p + 1, b + a, v.tp); }
    if p > b + a { MulMono(b + a + 1, p, v.tp); }
  }

  lemma IndicesSane(v: Vocab, rank: int)
    requires ValidVocab(v) && 0 <= rank < v.tp
    ensures GetIndices(v, rank).Sane()
    ensures GetIndices(v, rank).NumOrgPadded() + GetIndices(v, rank).NumAddedPadded() == Part(v)
  {
    PartsAdd(v);
    assert BasePart(v) >= 0 by { if BasePart(v) < 0 { MulMono(BasePart(v), -1, v.tp); } }
    assert rank * BasePart(v) >= 0 && rank * AddedPart(v) >= 0;
  }

  // ------------------------------------------------------------ the masked lookup

  /** (local row, token is foreign to this rank). */
  function MaskedInput(token: int, s: ShardIndices): (int, bool) {
    var orgMask := s.orgStart <= token < s.orgEnd;
    var addedMask := s.addedStart <= token < s.addedEnd;
    var addedOffset := s.addedStart - (s.orgEnd - s.orgStart) - s.NumOrgPadding();
    var validOffset := (if orgMask then s.orgStart else 0) + (if addedMask then addedOffset else 0);
    (if orgMask || addedMask then token - validOffset else 0, !(orgMask || addedMask))
  }

  /** The rank that owns a token, and its row in that rank's shard. */
  function Owner(v: Vocab, token: int): int
    requires v.tp > 0 && (token < v.base ==> BasePart(v) > 0) && (token >= v.base ==> AddedPart(v) > 0)
  {
    if token < v.base then token / BasePart(v) else (token - v.base) / AddedPart(v)
  }

  lemma PartsPositive(v: Vocab, token: int)
    requires ValidVocab(v) && 0 <= token < v.size
    ensures token < v.base ==> BasePart(v) > 0
    ensures token >= v.base ==> AddedPart(v) > 0
  {
    if BasePart(v) <= 0 { MulMono(BasePart(v), 0, v.tp); }
    if AddedPart(v) == 0 { assert AddedPart(v) * v.tp == 0; }
  }

  /** Slot t of a row of equal parts lies in part t / size and no other. */
  lemma InPart(t: int, size: int, rank: int)
    requires size > 0
    ensures rank * size <= t < rank * size + size <==> rank == t / size
  {
    if rank * size <= t < rank * size + size {
      DivModUnique(t, size, rank, t - rank * size);
    }
  }

  /** Exactly one rank does not mask a given token: its owner. */
  lemma OwnedByExactlyOne(v: Vocab, token: int, rank: int)
    requires ValidVocab(v) && 0 <= token < v.size && 0 <= rank < v.tp
    ensures (token < v.base ==> BasePart(v) > 0) && (token >= v.base ==> AddedPart(v) > 0)
    ensures 0 <= Owner(v, token) < v.tp
    ensures !MaskedInput(token, GetIndices(v, rank)).1 <==> rank == Owner(v, token)
  {
    PartsPositive(v, token);
    IndicesSane(v, rank);
    if token < v.base {
      InPart(token, BasePart(v), rank);
      OwnerInRange(token, BasePart(v), v.tp);
      assert rank * AddedPart(v) >= 0;
    } else {
      InPart(token - v.base, AddedPart(v), rank);
      OwnerInRange(token - v.base, AddedPart(v), v.tp);
    }
  }

  lemma OwnerInRange(t: int, size: int, tp: int)
    requires size > 0 && 0 <= t < size * tp
    ensures 0 <= t / size < tp
  {
    assert t == t / size * size + t % size;
    if t / size >= tp { MulMono(tp, t / size, size); }
  }

  /** Row `local` of a rank's shard holds which token (None: padding). */
  datatype Slot = Token(id: int) | Padding

  function SlotOfShard(s: ShardIndices, local: int): Slot {
    if 0 <= local < s.NumOrg() then Token(s.orgStart + local)
    else if s.NumOrgPadded() <= local < s.NumOrgPadded() + s.NumAdded() then
      Token(s.addedStart + (local - s.NumOrgPadded()))
    else Padding
  }

  function SlotToken(v: Vocab, rank: int, local: int): Slot
    requires v.tp > 0
  {
    SlotOfShard(GetIndices(v, rank), local)
  }

  /** An unmasked token's local row holds it. */
  lemma UnmaskedHits(s: ShardIndices, token: int)
    requires s.Sane() && s.orgEnd <= s.addedStart && !MaskedInput(token, s).1
    ensures 0 <= MaskedInput(token, s).0 < s.NumOrgPadded() + s.NumAddedPadded()
    ensures SlotOfShard(s, MaskedInput(token, s).0) == Token(token)
  {
  }

  lemma AddedBehindBase(v: Vocab, rank: int)
    requires ValidVocab(v) && 0 <= rank < v.tp
    ensures GetIndices(v, rank).orgEnd <= v.base <= GetIndices(v, rank).addedStart
  {
    IndicesSane(v, rank);
    assert AddedPart(v) >= 0;
    MulMono(0, rank, AddedPart(v));
  }

  /** The owner's masked lookup reads the row that holds the token. */
  lemma MaskedInputHitsToken(v: Vocab, token: int)
    requires ValidVocab(v) && 0 <= token < v.size
    ensures (token < v.base ==> BasePart(v) > 0) && (token >= v.base ==> AddedPart(v) > 0)
    ensures var local := MaskedInput(token, GetIndices(v, Owner(v, token))).0;
      0 <= local < Part(v) && SlotToken(v, Owner(v, token), local) == Token(token)
  {
    PartsPositive(v, token);
    var rank := Owner(v, token);
    OwnedByExactlyOne(v, token, 0);
    OwnedByExactlyOne(v, token, rank);
    IndicesSane(v, rank);
    AddedBehindBase(v, rank);
    UnmaskedHits(GetIndices(v, rank), token);
  }

  /** A vector of one embedding row; shards hold the full table's rows for their tokens. */
  ghost function ShardRow(full: int -> real, v: Vocab, rank: int, local: int): real
    requires v.tp > 0
  {
    match SlotToken(v, rank, local)
    case Token(id) => full(id)
    case Padding => 0.0
  }

  /** This rank's contribution: its row, or zero when the token is foreign. */
  ghost function PartialLookup(full: int -> real, v: Vocab, rank: int, token: int): real
    requires v.tp > 0
  {
    var (local, masked) := MaskedInput(token, GetIndices(v, rank));
    if masked then 0.0 else ShardRow(full, v, rank, local)
  }

  ghost function SumRanks(full: int -> real, v: Vocab, token: int, n: nat): real
    requires v.tp > 0
  {
    if n == 0 then 0.0 else SumRanks(full, v, token, n - 1) + PartialLookup(full, v, n - 1, token)
  }

  lemma {:induction false} SumUpTo(full: int -> real, v: Vocab, token: int, n: nat)
    requires ValidVocab(v) && 0 <= token < v.size && n <= v.tp
    requires (token < v.base ==> BasePart(v) > 0) && (token >= v.base ==> AddedPart(v) > 0)
    ensures SumRanks(full, v, token, n) == if Owner(v, token) < n then full(token) else 0.0
  {
    OwnedByExactlyOne(v, token, 0);
    if n > 0 {
      SumUpTo(full, v, token, n - 1);
      OwnedByExactlyOne(v, token, n - 1);
      MaskedInputHitsToken(v, token);
    }
  }

  /** Summing the masked per-rank lookups is one lookup in the full table. */
  lemma {:induction false} ShardedLookupExact(full: int -> real, v: Vocab, token: int)
    requires ValidVocab(v) && 0 <= token < v.size
    ensures SumRanks(full, v, token, v.tp) == full(token)
  {
    OwnedByExactlyOne(v, token, 0);
    SumUpTo(full, v, token, v.tp);
  }

  // ------------------------------------------------------------ back to token order

  /** Position of a rank's local row in the logits gathered from all ranks. */
  function GatheredAt(v: Vocab, rank: int, local: int): int
    requires v.tp > 0
  {
    rank * Part(v) + local
  }

  function Range(a: int, b: int): (r: seq<int>)
    ensures |r| == if a <= b then b - a else 0
    ensures forall i :: 0 <= i < |r| ==> r[i] == a + i
  {
    if a <= b then seq(b - a, i requires 0 <= i => a + i) else []
  }

  /** Gathered position p is the row of some rank that holds the given slot. */
  ghost predicate HoldsSlot(v: Vocab, p: int, slot: Slot)
    requires v.tp > 0
  {
    exists rank, local :: IsRow(v, rank, local) && p == GatheredAt(v, rank, local) && SlotToken(v, rank, local) == slot
  }

  ghost predicate IsRow(v: Vocab, rank: int, local: int)
    requires v.tp > 0
  {
    0 <= rank < v.tp && 0 <= local < Part(v)
  }

  lemma PlaceValue(r: int, l: int, r': int, l': int, size: int, n: int)
    requires 0 <= l < size && 0 <= l' < size && 0 <= r < n
    ensures 0 <= r * size + l < n * size
    ensures r * size + l == r' * size + l' ==> r == r' && l == l'
  {
    InPart(r * size + l, size, r);
    InPart(r * size + l, size, r');
    MulMono(r + 1, n, size);
    assert (r + 1) * size == r * size + size && r * size >= 0;
  }

  /** A gathered position determines its rank and row, hence its slot, and is in range. */
  lemma SlotUnique(v: Vocab, p: int, slot: Slot, slot': Slot)
    requires ValidVocab(v) && HoldsSlot(v, p, slot) && HoldsSlot(v, p, slot')
    ensures slot == slot' && 0 <= p < v.sizePadded
  {
    var r, l :| IsRow(v, r, l) && p == GatheredAt(v, r, l) && SlotToken(v, r, l) == slot;
    var r', l' :| IsRow(v, r', l') && p == GatheredAt(v, r', l') && SlotToken(v, r', l') == slot';
    SamePlace(v, p, r, l, r', l');
  }

  lemma SamePlace(v: Vocab, p: int, r: int, l: int, r': int, l': int)
    requires ValidVocab(v) && IsRow(v, r, l) && IsRow(v, r', l')
    requires p == GatheredAt(v, r, l) == GatheredAt(v, r', l')
    ensures r == r' && l == l' && 0 <= p < v.sizePadded
  {
    PlaceValue(r, l, r', l', Part(v), v.tp);
    assert v.tp * Part(v) == Part(v) * v.tp;
  }

  /** Entries t, t + 1, ... of a list are rows that hold consecutive token ids from `first` on. */
  ghost predicate HoldTokens(v: Vocab, rows: seq<int>, first: int)
    requires v.tp > 0
  {
    forall t :: 0 <= t < |rows| ==> HoldsSlot(v, rows[t], Token(first + t))
  }

  /** Increasing padding rows below `end`. */
  ghost predicate HoldPadding(v: Vocab, rows: seq<int>, end: int)
    requires v.tp > 0
  {
    && (forall t :: 0 <= t < |rows| ==> HoldsSlot(v, rows[t], Padding) && rows[t] < end)
    && (forall i, j :: 0 <= i < j < |rows| ==> rows[i] < rows[j])
  }

  /** Ranks 0 .. n - 1 contribute the base ids before their common end, and likewise the added. */
  ghost predicate Collected(v: Vocab, n: int, base: seq<int>, added: seq<int>, padding: seq<int>)
    requires v.tp > 0
  {
    && |base| == GetIndices(v, n).orgStart && |added| == GetIndices(v, n).addedStart - v.base
    && |base| + |added| + |padding| == n * Part(v)
    && HoldTokens(v, base, 0) && HoldTokens(v, added, v.base) && HoldPadding(v, padding, n * Part(v))
  }

  method CollectRank(v: Vocab, rank: int, base: seq<int>, added: seq<int>, padding: seq<int>)
    returns (base': seq<int>, added': seq<int>, padding': seq<int>)
    requires ValidVocab(v) && 0 <= rank < v.tp && Collected(v, rank, base, added, padding)
    ensures Collected(v, rank + 1, base', added', padding')
  {
    var s := GetIndices(v, rank);
    RankCounts(v, rank);
    var b, a, p := RankLists(s, Part(v) * rank);
    BaseRows(v, rank, base);
    AddedRows(v, rank, added);
    PaddingRows(v, rank, padding);
    base', added', padding' := base + b, added + a, padding + p;
    CollectedNext(v, rank, |base|, |added|, |padding|, base', added', padding');
  }

  /** A rank's gathered rows, which start at `start`, sorted by what they hold. */
  method RankLists(s: ShardIndices, start: int) returns (base: seq<int>, added: seq<int>, padding: seq<int>)
    requires 0 <= s.NumOrg() <= s.NumOrgPadded() && 0 <= s.NumAdded() <= s.NumAddedPadded()
    ensures base == BaseRange(s, start) && |base| == s.NumOrg()
    ensures added == AddedRange(s, start) && |added| == s.NumAdded()
    ensures padding == PaddingRange(s, start)
    ensures |padding| == s.NumOrgPadded() + s.NumAddedPadded() - s.NumOrg() - s.NumAdded()
  {
    var afterBase := start + s.NumOrg();
    var afterPad := start + s.NumOrgPadded();
    var afterAdded := afterPad + s.NumAdded();
    base := Range(start, afterBase);
    added := Range(afterPad, afterAdded);
    padding := Range(afterBase, afterPad) + Range(afterAdded, afterPad + s.NumAddedPadded());
  }

  ghost function BaseRange(s: ShardIndices, start: int): seq<int> {
    Range(start, start + s.NumOrg())
  }

  ghost function AddedRange(s: ShardIndices, start: int): seq<int> {
    Range(start + s.NumOrgPadded(), start + s.NumOrgPadded() + s.NumAdded())
  }

  ghost function PaddingRange(s: ShardIndices, start: int): seq<int> {
    Range(start + s.NumOrg(), start + s.NumOrgPadded())
      + Range(start + s.NumOrgPadded() + s.NumAdded(), start + s.NumOrgPadded() + s.NumAddedPadded())
  }

  /** How many rows of each sort a rank has. */
  lemma RankCounts(v: Vocab, rank: int)
    requires ValidVocab(v) && 0 <= rank < v.tp
    ensures var s := GetIndices(v, rank);
      && 0 <= s.NumOrg() <= s.NumOrgPadded() && 0 <= s.NumAdded() <= s.NumAddedPadded()
      && s.NumOrgPadded() + s.NumAddedPadded() == Part(v)
  {
    IndicesSane(v, rank);
  }

  /** The counts of rank's rows lead from its start to that of the next rank. */
  lemma CollectedNext(v: Vocab, rank: int, b: nat, a: nat, p: nat, base: seq<int>, added: seq<int>, padding: seq<int>)
    requires ValidVocab(v) && 0 <= rank < v.tp
    requires b == GetIndices(v, rank).orgStart && a == GetIndices(v, rank).addedStart - v.base
    requires b + a + p == rank * Part(v)
    requires |base| == b + GetIndices(v, rank).NumOrg() && |added| == a + GetIndices(v, rank).NumAdded()
    requires |padding| == p + (Part(v) - GetIndices(v, rank).NumOrg() - GetIndices(v, rank).NumAdded())
    requires HoldTokens(v, base, 0) && HoldTokens(v, added, v.base)
    requires HoldPadding(v, padding, Part(v) * rank + Part(v))
    ensures Collected(v, rank + 1, base, added, padding)
  {
    NextIndices(v, rank);
  }

  lemma BaseRows(v: Vocab, rank: int, base: seq<int>)
    requires ValidVocab(v) && 0 <= rank < v.tp && HoldTokens(v, base, 0) && |base| == GetIndices(v, rank).orgStart
    ensures HoldTokens(v, base + BaseRange(GetIndices(v, rank), Part(v) * rank), 0)
  {
    IndicesSane(v, rank);
    var rows := BaseRange(GetIndices(v, rank), Part(v) * rank);
    forall i | 0 <= i < |rows| ensures HoldsSlot(v, rows[i], Token(|base| + i)) {
      RowHolds(v, rank, i, rows[i]);
    }
  }

  lemma AddedRows(v: Vocab, rank: int, added: seq<int>)
    requires ValidVocab(v) && 0 <= rank < v.tp && HoldTokens(v, added, v.base)
    requires |added| == GetIndices(v, rank).addedStart - v.base
    ensures HoldTokens(v, added + AddedRange(GetIndices(v, rank), Part(v) * rank), v.base)
  {
    IndicesSane(v, rank);
    var rows := AddedRange(GetIndices(v, rank), Part(v) * rank);
    forall i | 0 <= i < |rows| ensures HoldsSlot(v, rows[i], Token(v.base + (|added| + i))) {
      RowHolds(v, rank, GetIndices(v, rank).NumOrgPadded() + i, rows[i]);
    }
  }

  ghost predicate AllPadding(v: Vocab, rows: seq<int>)
    requires v.tp > 0
  {
    forall i :: 0 <= i < |rows| ==> HoldsSlot(v, rows[i], Padding)
  }

  /** Consecutive rows of a rank that hold no token. */
  lemma NoTokenRows(v: Vocab, rank: int, lo: int, hi: int)
    requires v.tp > 0 && 0 <= rank < v.tp && 0 <= lo <= hi <= Part(v)
    requires forall local :: lo <= local < hi ==> SlotToken(v, rank, local) == Padding
    ensures AllPadding(v, Range(Part(v) * rank + lo, Part(v) * rank + hi))
  {
    var rows := Range(Part(v) * rank + lo, Part(v) * rank + hi);
    forall i | 0 <= i < |rows| ensures HoldsSlot(v, rows[i], Padding) {
      RowHolds(v, rank, lo + i, rows[i]);
    }
  }

  lemma PaddingRows(v: Vocab, rank: int, padding: seq<int>)
    requires ValidVocab(v) && 0 <= rank < v.tp && HoldPadding(v, padding, Part(v) * rank)
    ensures HoldPadding(v, padding + PaddingRange(GetIndices(v, rank), Part(v) * rank), Part(v) * rank + Part(v))
  {
    var s, start := GetIndices(v, rank), Part(v) * rank;
    RankCounts(v, rank);
    NoTokenRows(v, rank, s.NumOrg(), s.NumOrgPadded());
    NoTokenRows(v, rank, s.NumOrgPadded() + s.NumAdded(), s.NumOrgPadded() + s.NumAddedPadded());
    PaddingBehind(v, padding, start, start + s.NumOrg(), start + s.NumOrgPadded(),
                  start + (s.NumOrgPadded() + s.NumAdded()), start + (s.NumOrgPadded() + s.NumAddedPadded()));
  }

  lemma PaddingBehind(v: Vocab, padding: seq<int>, start: int, a: int, b: int, c: int, d: int)
    requires v.tp > 0 && HoldPadding(v, padding, start) && start <= a <= b <= c <= d
    requires AllPadding(v, Range(a, b)) && AllPadding(v, Range(c, d))
    ensures HoldPadding(v, padding + (Range(a, b) + Range(c, d)), d)
  {
    PaddingExtended(v, padding, start, a, b);
    PaddingExtended(v, padding + Range(a, b), b, c, d);
    assert padding + Range(a, b) + Range(c, d) == padding + (Range(a, b) + Range(c, d));
  }

  lemma PaddingExtended(v: Vocab, padding: seq<int>, start: int, lo: int, hi: int)
    requires v.tp > 0 && HoldPadding(v, padding, start) && start <= lo <= hi && AllPadding(v, Range(lo, hi))
    ensures HoldPadding(v, padding + Range(lo, hi), hi)
  {
  }

  lemma RowHolds(v: Vocab, rank: int, local: int, p: int)
    requires v.tp > 0 && IsRow(v, rank, local) && p == Part(v) * rank + local
    ensures HoldsSlot(v, p, SlotToken(v, rank, local))
  {
    assert p == GatheredAt(v, rank, local);
  }

  lemma NextIndices(v: Vocab, rank: int)
    requires ValidVocab(v) && 0 <= rank < v.tp
    ensures GetIndices(v, rank + 1).orgStart == GetIndices(v, rank).orgEnd
    ensures GetIndices(v, rank + 1).addedStart == GetIndices(v, rank).addedEnd
    ensures (rank + 1) * Part(v) == rank * Part(v) + Part(v) == Part(v) * rank + Part(v)
  {
    assert (rank + 1) * BasePart(v) == rank * BasePart(v) + BasePart(v);
    assert (rank + 1) * AddedPart(v) == rank * AddedPart(v) + AddedPart(v);
  }

  /** Reindexing gathered logits by the result puts token id t's logit at index t: entry t is the
      gathered row that holds token t, for base and added ids alike; behind them come the padding
      rows; and every gathered row occurs exactly once. */
  method GetShardedToFullMapping(v: Vocab) returns (r: (bool, seq<int>))
    requires ValidVocab(v)
    ensures r.0 <==> v.tp >= 2
    ensures r.0 ==> IsReindexing(v, r.1)
  {
    if v.tp < 2 {
      return (false, []);
    }
    var base, added, padding: seq<int> := [], [], [];
    var rank := 0;
    while rank < v.tp
      invariant 0 <= rank <= v.tp && Collected(v, rank, base, added, padding)
    {
      base, added, padding := CollectRank(v, rank, base, added, padding);
      rank := rank + 1;
    }
    LastIndices(v);
    var ret := base + added + padding;
    ReindexingFrom(v, base, added, padding);
    r := (true, ret);
  }

  ghost predicate IsReindexing(v: Vocab, ret: seq<int>)
    requires v.tp > 0
  {
    && |ret| == v.sizePadded && v.size <= |ret|
    && (forall t :: 0 <= t < v.size ==> HoldsSlot(v, ret[t], Token(t)))
    && (forall t :: v.size <= t < |ret| ==> HoldsSlot(v, ret[t], Padding))
    && (forall t :: 0 <= t < |ret| ==> 0 <= ret[t] < v.sizePadded)
    && (forall t, t' :: 0 <= t < t' < |ret| ==> ret[t] != ret[t'])
  }

  lemma LastIndices(v: Vocab)
    requires ValidVocab(v)
    ensures GetIndices(v, v.tp).orgStart == v.base && GetIndices(v, v.tp).addedStart == v.size
    ensures v.tp * Part(v) == v.sizePadded
  {
    assert v.tp * BasePart(v) == BasePart(v) * v.tp && v.tp * AddedPart(v) == AddedPart(v) * v.tp;
  }

  lemma ReindexingFrom(v: Vocab, base: seq<int>, added: seq<int>, padding: seq<int>)
    requires ValidVocab(v) && Collected(v, v.tp, base, added, padding)
    requires |base| == v.base && |added| == v.size - v.base && |base| + |added| + |padding| == v.sizePadded
    ensures IsReindexing(v, base + added + padding)
  {
    var ret := base + added + padding;
    forall t | 0 <= t < |ret| ensures HoldsSlot(v, ret[t], EntryFor(v, t)) && 0 <= ret[t] < v.sizePadded {
      EntryHolds(v, base, added, padding, t);
    }
    forall t, t' | 0 <= t < t' < |ret| ensures ret[t] != ret[t'] {
      if t >= v.size {
        assert ret[t] == padding[t - v.size] && ret[t'] == padding[t' - v.size];
      } else if ret[t] == ret[t'] {
        SlotUnique(v, ret[t], Token(t), EntryFor(v, t'));
      }
    }
  }

  /** What entry t of the mapping must be the position of. */
  function EntryFor(v: Vocab, t: int): Slot {
    if t < v.size then Token(t) else Padding
  }

  lemma EntryHolds(v: Vocab, base: seq<int>, added: seq<int>, padding: seq<int>, t: nat)
    requires ValidVocab(v) && Collected(v, v.tp, base, added, padding) && t < |base| + |added| + |padding|
    requires |base| == v.base && |added| == v.size - v.base && |base| + |added| + |padding| == v.sizePadded
    ensures HoldsSlot(v, (base + added + padding)[t], EntryFor(v, t)) && 0 <= (base + added + padding)[t] < v.sizePadded
  {
    var ret := base + added + padding;
    if t >= v.base && t < v.size { assert ret[t] == added[t - v.base]; }
    if t >= v.size { assert ret[t] == padding[t - v.size]; }
    SlotUnique(v, ret[t], EntryFor(v, t), EntryFor(v, t));
  }

  /** The entry for a token is where its owner's masked lookup would read, offset by the owner's
      place in the gather: the embedding and the logit side agree on every token. */
  lemma MappingMatchesLookup(v: Vocab, ret: seq<int>, token: int)
    requires ValidVocab(v) && IsReindexing(v, ret) && 0 <= token < v.size
    ensures (token < v.base ==> BasePart(v) > 0) && (token >= v.base ==> AddedPart(v) > 0)
    ensures ret[token] == GatheredAt(v, Owner(v, token), MaskedInput(token, GetIndices(v, Owner(v, token))).0)
  {
    OwnedByExactlyOne(v, token, 0);
    assert HoldsSlot(v, ret[token], Token(token));
    var r, l :| IsRow(v, r, l) && ret[token] == GatheredAt(v, r, l) && SlotToken(v, r, l) == Token(token);
    SlotTokenOwner(v, r, l, token);
  }

  lemma SlotTokenOwner(v: Vocab, r: int, l: int, token: int)
    requires ValidVocab(v) && 0 <= token < v.size && IsRow(v, r, l) && SlotToken(v, r, l) == Token(token)
    requires (token < v.base ==> BasePart(v) > 0) && (token >= v.base ==> AddedPart(v) > 0)
    ensures r == Owner(v, token) && l == MaskedInput(token, GetIndices(v, r)).0
  {
    IndicesSane(v, r);
    AddedBehindBase(v, r);
    SlotUnmasked(GetIndices(v, r), l, token);
    OwnedByExactlyOne(v, token, r);
  }

  /** The rank that holds a token in a slot does not mask it, and looks it up there. */
  lemma SlotUnmasked(s: ShardIndices, l: int, token: int)
    requires s.Sane() && s.orgEnd <= s.addedStart && SlotOfShard(s, l) == Token(token)
    ensures MaskedInput(token, s) == (l, false)
  {
  }
}
