/** The DFlash2 speculator: the candidate-selector walk and the sparse cache of draft logits, which
    clears only the entries it wrote last time. */
module DraftCache {

  datatype Logit = NegInf | Fin(value: real)

  predicate AtMost(a: Logit, b: Logit) {
    a.NegInf? || (b.Fin? && a.value <= b.value)
  }

  /** Temperature and Gumbel noise; temperature 0 is the plain logit. */
  function Noised(l: Logit, temp: real, noise: real): Logit {
    if temp == 0.0 || l.NegInf? then l else Fin(l.value / temp + noise)
  }

  lemma Quotients(v: real, w: real, temp: real, d: real)
    requires temp > 0.0
    ensures v / temp - w / temp <= d <==> v - w <= temp * d
  {
    var x := v / temp - w / temp;
    assert x * temp == v - w;
    if x <= d { assert (d - x) * temp >= 0.0; } else { assert (x - d) * temp > 0.0; }
  }

  /** At a positive temperature a score beats another when its lead exceeds the temperature times the
      other's lead in noise; at temperature 0 noise plays no part. */
  lemma NoisedOrder(v: real, w: real, temp: real, g: real, h: real)
    requires temp >= 0.0
    ensures AtMost(Noised(Fin(v), temp, g), Noised(Fin(w), temp, h)) <==> v - w <= temp * (h - g)
  {
    if temp > 0.0 {
      Quotients(v, w, temp, h - g);
    }
  }

  /** At temperature 1 the noise is added as it is. */
  lemma UnitTemperature(v: real, noise: real)
    ensures Noised(Fin(v), 1.0, noise) == Fin(v + noise)
  {
  }

  function Scaled(l: Logit, c: real): Logit { if l.NegInf? then l else Fin(c * l.value) }

  /** Scaling score and temperature alike changes nothing at a nonzero temperature. */
  lemma ScaledNoise(l: Logit, temp: real, noise: real, c: real)
    requires temp != 0.0 && c != 0.0
    ensures Noised(Scaled(l, c), c * temp, noise) == Noised(l, temp, noise)
  {
    if l.Fin? {
      var q := l.value / temp;
      assert q * (c * temp) == c * l.value;
      assert c * temp != 0.0;
    }
  }

  /** First position of a maximum. */
  function Argmax(s: seq<Logit>): (i: nat)
    requires s != []
    ensures i < |s| && forall j :: 0 <= j < |s| ==> AtMost(s[j], s[i])
    ensures forall j :: 0 <= j < i ==> !AtMost(s[i], s[j])
  {
    if |s| == 1 then 0
    else
      var i := Argmax(s[..|s| - 1]);
      if AtMost(s[|s| - 1], s[i]) then i else |s| - 1
  }

  /** One request's candidates per step, and their scores per step and previous candidate. */
  datatype Draft = Draft(candidates: seq<seq<nat>>, scores: seq<seq<seq<Logit>>>)

  ghost predicate Distinct(s: seq<nat>) {
    forall i, j :: 0 <= i < j < |s| ==> s[i] != s[j]
  }

  ghost predicate ValidStep(candidates: seq<nat>, scores: seq<seq<Logit>>, topK: nat, vocab: nat) {
    && |candidates| == |scores| == topK && Distinct(candidates)
    && (forall k :: 0 <= k < topK ==> candidates[k] < vocab)
    && (forall k :: 0 <= k < topK ==> |scores[k]| == topK)
  }

  ghost predicate ValidDraft(d: Draft, steps: nat, topK: nat, vocab: nat) {
    && topK > 0 && |d.candidates| == |d.scores| == steps
    && forall t :: 0 <= t < steps ==> ValidStep(d.candidates[t], d.scores[t], topK, vocab)
  }

  /** Randomness of one request: its temperature and the noise of each step's token ids. */
  datatype Sampler = Sampler(temp: real, noise: (nat, nat) -> real)

  function NoisedRow(scores: seq<Logit>, candidates: seq<nat>, sampler: Sampler, t: nat): (r: seq<Logit>)
    requires |scores| == |candidates|
    ensures |r| == |scores|
    ensures forall j :: 0 <= j < |r| ==> r[j] == Noised(scores[j], sampler.temp, sampler.noise(t, candidates[j]))
  {
    seq(|scores|, j requires 0 <= j < |scores| => Noised(scores[j], sampler.temp, sampler.noise(t, candidates[j])))
  }

  /** The candidate the walk arrives with at step t. */
  function Previous(d: Draft, steps: nat, topK: nat, vocab: nat, sampler: Sampler, t: nat): (k: nat)
    requires ValidDraft(d, steps, topK, vocab) && t <= steps
    ensures k < topK
  {
    if t == 0 then 0
    else
      var previous := Previous(d, steps, topK, vocab, sampler, t - 1);
      assert ValidStep(d.candidates[t - 1], d.scores[t - 1], topK, vocab);
      Argmax(NoisedRow(d.scores[t - 1][previous], d.candidates[t - 1], sampler, t - 1))
  }

  /** The scores realized at step t: those after the previous candidate. */
  function Realized(d: Draft, steps: nat, topK: nat, vocab: nat, sampler: Sampler, t: nat): (s: seq<Logit>)
    requires ValidDraft(d, steps, topK, vocab) && t < steps
    ensures |s| == topK == |d.candidates[t]|
  {
    assert ValidStep(d.candidates[t], d.scores[t], topK, vocab);
    d.scores[t][Previous(d, steps, topK, vocab, sampler, t)]
  }

  function Token(d: Draft, steps: nat, topK: nat, vocab: nat, sampler: Sampler, t: nat): nat
    requires ValidDraft(d, steps, topK, vocab) && t < steps
  {
    assert ValidStep(d.candidates[t], d.scores[t], topK, vocab);
    d.candidates[t][Previous(d, steps, topK, vocab, sampler, t + 1)]
  }

  /** The scores realized at a step are those that follow the token drafted before it; the first step
      follows candidate 0. */
  lemma RealizedFollows(d: Draft, steps: nat, topK: nat, vocab: nat, sampler: Sampler, t: nat, k: nat)
    requires ValidDraft(d, steps, topK, vocab) && t + 1 < steps && k < topK
    ensures |d.candidates[t]| == |d.scores[t + 1]| == topK == |d.scores[0]|
    ensures Realized(d, steps, topK, vocab, sampler, 0) == d.scores[0][0]
    ensures d.candidates[t][k] == Token(d, steps, topK, vocab, sampler, t) ==>
      Realized(d, steps, topK, vocab, sampler, t + 1) == d.scores[t + 1][k]
  {
    assert ValidStep(d.candidates[t], d.scores[t], topK, vocab);
    assert ValidStep(d.candidates[t + 1], d.scores[t + 1], topK, vocab);
    assert ValidStep(d.candidates[0], d.scores[0], topK, vocab);
    var picked := Previous(d, steps, topK, vocab, sampler, t + 1);
    assert k < picked || k == picked || picked < k;
  }

  // ------------------------------------------------------------ what temperature means

  function ScaledRow(s: seq<Logit>, c: real): (r: seq<Logit>)
    ensures |r| == |s| && forall i :: 0 <= i < |s| ==> r[i] == Scaled(s[i], c)
  {
    seq(|s|, i requires 0 <= i < |s| => Scaled(s[i], c))
  }

  ghost predicate ScaledDraft(d: Draft, e: Draft, steps: nat, topK: nat, vocab: nat, c: real) {
    && ValidDraft(d, steps, topK, vocab) && ValidDraft(e, steps, topK, vocab) && e.candidates == d.candidates
    && forall t: nat, k: nat :: t < steps && k < topK ==> ScaledStep(d, e, t, k, c)
  }

  ghost predicate ScaledStep(d: Draft, e: Draft, t: nat, k: nat, c: real) {
    && t < |d.scores| && t < |e.scores| && k < |d.scores[t]| && k < |e.scores[t]|
    && e.scores[t][k] == ScaledRow(d.scores[t][k], c)
  }

  lemma {:induction false} SameArgmax(s: seq<Logit>, r: seq<Logit>)
    requires s != [] && |s| == |r|
    requires forall i, j :: 0 <= i < |s| && 0 <= j < |s| ==> (AtMost(s[i], s[j]) <==> AtMost(r[i], r[j]))
    ensures Argmax(s) == Argmax(r)
  {
  }

  lemma ScaledOrder(a: Logit, b: Logit, temp: real, g: real, h: real, c: real, warm: real)
    requires c > 0.0 && temp >= 0.0 && warm == c * temp
    ensures AtMost(Noised(Scaled(a, c), warm, g), Noised(Scaled(b, c), warm, h)) <==>
      AtMost(Noised(a, temp, g), Noised(b, temp, h))
  {
    if temp == 0.0 {
      if a.Fin? && b.Fin? && a.value <= b.value { assert c * (b.value - a.value) >= 0.0; }
      if a.Fin? && b.Fin? && a.value > b.value { assert c * (a.value - b.value) > 0.0; }
    } else {
      ScaledNoise(a, temp, g, c);
      ScaledNoise(b, temp, h, c);
    }
  }

  /** x and y are ordered as u and w, which come of them by scaling. */
  lemma SameOrder(a: Logit, b: Logit, temp: real, g: real, h: real, c: real, warm: real,
                  x: Logit, y: Logit, u: Logit, w: Logit)
    requires c > 0.0 && temp >= 0.0 && warm == c * temp
    requires x == Noised(a, temp, g) && y == Noised(b, temp, h)
    requires u == Noised(Scaled(a, c), warm, g) && w == Noised(Scaled(b, c), warm, h)
    ensures AtMost(x, y) <==> AtMost(u, w)
  {
    ScaledOrder(a, b, temp, g, h, c, warm);
  }

  /** The same noise at the temperature scaled by c. */
  ghost predicate Warmer(cold: Sampler, warm: Sampler, c: real) {
    c > 0.0 && cold.temp >= 0.0 && warm.temp == c * cold.temp && warm.noise == cold.noise
  }

  lemma ScaledPick(scores: seq<Logit>, candidates: seq<nat>, cold: Sampler, warm: Sampler, t: nat, c: real)
    requires |scores| == |candidates| > 0 && Warmer(cold, warm, c)
    ensures Argmax(NoisedRow(ScaledRow(scores, c), candidates, warm, t))
      == Argmax(NoisedRow(scores, candidates, cold, t))
  {
    var s := NoisedRow(scores, candidates, cold, t);
    var r := NoisedRow(ScaledRow(scores, c), candidates, warm, t);
    forall i, j | 0 <= i < |scores| && 0 <= j < |scores| ensures AtMost(s[i], s[j]) <==> AtMost(r[i], r[j]) {
      SameOrder(scores[i], scores[j], cold.temp, cold.noise(t, candidates[i]), cold.noise(t, candidates[j]),
                c, warm.temp, s[i], s[j], r[i], r[j]);
    }
    SameArgmax(s, r);
  }

  lemma PreviousLast(d: Draft, steps: nat, topK: nat, vocab: nat, sampler: Sampler, t: nat, k: nat)
    requires ValidDraft(d, steps, topK, vocab) && t < steps && k == Previous(d, steps, topK, vocab, sampler, t)
    ensures topK > 0 && |d.candidates[t]| == topK && k < |d.scores[t]| && |d.scores[t][k]| == topK
    ensures Previous(d, steps, topK, vocab, sampler, t + 1)
      == Argmax(NoisedRow(d.scores[t][k], d.candidates[t], sampler, t))
  {
    assert ValidStep(d.candidates[t], d.scores[t], topK, vocab);
  }

  /** From the same candidate the walk goes to the same one. */
  lemma ScaledNext(d: Draft, e: Draft, steps: nat, topK: nat, vocab: nat, cold: Sampler, warm: Sampler, c: real,
                   t: nat, k: nat)
    requires ScaledDraft(d, e, steps, topK, vocab, c) && Warmer(cold, warm, c) && t < steps
    requires k == Previous(d, steps, topK, vocab, cold, t) == Previous(e, steps, topK, vocab, warm, t)
    ensures Previous(e, steps, topK, vocab, warm, t + 1) == Previous(d, steps, topK, vocab, cold, t + 1)
  {
    PreviousLast(d, steps, topK, vocab, cold, t, k);
    PreviousLast(e, steps, topK, vocab, warm, t, k);
    assert ScaledStep(d, e, t, k, c);
    ScaledPick(d.scores[t][k], d.candidates[t], cold, warm, t, c);
  }

  lemma {:induction false} ScaledWalk(d: Draft, e: Draft, steps: nat, topK: nat, vocab: nat, cold: Sampler,
                                      warm: Sampler, c: real, t: nat)
    requires ScaledDraft(d, e, steps, topK, vocab, c) && Warmer(cold, warm, c) && t <= steps
    ensures Previous(e, steps, topK, vocab, warm, t) == Previous(d, steps, topK, vocab, cold, t)
  {
    if t > 0 {
      ScaledWalk(d, e, steps, topK, vocab, cold, warm, c, t - 1);
      ScaledNext(d, e, steps, topK, vocab, cold, warm, c, t - 1, Previous(d, steps, topK, vocab, cold, t - 1));
    }
  }

  /** Only the ratio of scores to temperature matters: scaling a request's scores and its temperature by
      the same positive factor leaves every drafted token as it is. */
  lemma OnlyRatioMatters(d: Draft, e: Draft, steps: nat, topK: nat, vocab: nat, cold: Sampler, warm: Sampler, c: real,
                         t: nat)
    requires ScaledDraft(d, e, steps, topK, vocab, c) && Warmer(cold, warm, c) && t < steps
    ensures Token(e, steps, topK, vocab, warm, t) == Token(d, steps, topK, vocab, cold, t)
  {
    ScaledWalk(d, e, steps, topK, vocab, cold, warm, c, t + 1);
  }

  // ------------------------------------------------------------ the dense row

  /** A refilled row: -inf except at the candidates. */
  function DenseAt(candidates: seq<nat>, scores: seq<Logit>, v: nat): Logit
    requires |candidates| == |scores|
  {
    if candidates == [] then NegInf
    else if candidates[|candidates| - 1] == v then scores[|scores| - 1]
    else DenseAt(candidates[..|candidates| - 1], scores[..|scores| - 1], v)
  }

  /** With distinct candidates the row does not depend on the order of the stores. */
  lemma {:induction false} DenseHolds(candidates: seq<nat>, scores: seq<Logit>, j: nat)
    requires |candidates| == |scores| && Distinct(candidates) && j < |candidates|
    ensures DenseAt(candidates, scores, candidates[j]) == scores[j]
  {
    var last := |candidates| - 1;
    if j < last {
      DenseHolds(candidates[..last], scores[..last], j);
    }
  }

  lemma {:induction false} DenseElsewhere(candidates: seq<nat>, scores: seq<Logit>, v: nat)
    requires |candidates| == |scores| && v !in candidates
    ensures DenseAt(candidates, scores, v) == NegInf
  {
    if candidates != [] {
      DenseElsewhere(candidates[..|candidates| - 1], scores[..|scores| - 1], v);
    }
  }

  /** The walk over K candidates samples from the whole cached row: no token of the vocabulary has
      a larger noised logit there than the token it picked. */
  lemma SampledFromDense(d: Draft, steps: nat, topK: nat, vocab: nat, sampler: Sampler, t: nat, v: nat)
    requires ValidDraft(d, steps, topK, vocab) && t < steps
    ensures var row := (u: nat) => DenseAt(d.candidates[t], Realized(d, steps, topK, vocab, sampler, t), u);
      var token := Token(d, steps, topK, vocab, sampler, t);
      AtMost(Noised(row(v), sampler.temp, sampler.noise(t, v)),
             Noised(row(token), sampler.temp, sampler.noise(t, token)))
  {
    var scores := Realized(d, steps, topK, vocab, sampler, t);
    var picked := Previous(d, steps, topK, vocab, sampler, t + 1);
    assert ValidStep(d.candidates[t], d.scores[t], topK, vocab);
    DenseHolds(d.candidates[t], scores, picked);
    if v in d.candidates[t] {
      var j :| 0 <= j < topK && d.candidates[t][j] == v;
      DenseHolds(d.candidates[t], scores, j);
    } else {
      DenseElsewhere(d.candidates[t], scores, v);
    }
  }

  /** a leads b by no more than the temperature times b's lead in noise. */
  ghost predicate LeadAtMost(a: Logit, b: Logit, temp: real, g: real, h: real) {
    a.Fin? ==> b.Fin? && a.value - b.value <= temp * (h - g)
  }

  lemma LeadInNoise(a: Logit, b: Logit, temp: real, g: real, h: real)
    requires temp >= 0.0 && AtMost(Noised(a, temp, g), Noised(b, temp, h))
    ensures LeadAtMost(a, b, temp, g, h)
  {
    if a.Fin? {
      NoisedOrder(a.value, b.value, temp, g, h);
    }
  }

  /** In terms of the cached scores: no token leads the picked one by more than the temperature times the
      picked one's lead in noise, so at temperature 0 the picked one has the best score. */
  lemma PickedWins(d: Draft, steps: nat, topK: nat, vocab: nat, sampler: Sampler, t: nat, v: nat)
    requires ValidDraft(d, steps, topK, vocab) && t < steps && sampler.temp >= 0.0
    ensures var row := (u: nat) => DenseAt(d.candidates[t], Realized(d, steps, topK, vocab, sampler, t), u);
      var token := Token(d, steps, topK, vocab, sampler, t);
      LeadAtMost(row(v), row(token), sampler.temp, sampler.noise(t, v), sampler.noise(t, token))
  {
    SampledFromDense(d, steps, topK, vocab, sampler, t, v);
    var row := (u: nat) => DenseAt(d.candidates[t], Realized(d, steps, topK, vocab, sampler, t), u);
    var token := Token(d, steps, topK, vocab, sampler, t);
    LeadInNoise(row(v), row(token), sampler.temp, sampler.noise(t, v), sampler.noise(t, token));
  }

  // ------------------------------------------------------------ the buffers

  class Speculator {
    const slots: nat
    const steps: nat
    const topK: nat
    const vocab: nat
    /** Persistent rows, one per request slot and step. */
    const draftLogits: array3<Logit>
    const cachedIds: array3<nat>
    /** Scratch of one step, one row per batch entry. */
    const realized: array3<Logit>
    const tokens: array2<nat>

    ghost predicate Sized() {
      && topK > 0 && vocab > 0
      && draftLogits.Length0 == slots && draftLogits.Length1 == steps && draftLogits.Length2 == vocab
      && cachedIds.Length0 == slots && cachedIds.Length1 == steps && cachedIds.Length2 == topK
      && realized.Length0 == slots && realized.Length1 == steps && realized.Length2 == topK
      && tokens.Length0 == slots && tokens.Length1 == steps
      && draftLogits != realized
    }

    function Cached(s: nat, t: nat): (ids: seq<nat>)
      requires Sized() && s < slots && t < steps
      reads cachedIds
      ensures |ids| == topK && forall k :: 0 <= k < topK ==> ids[k] == cachedIds[s, t, k]
    {
      seq(topK, k requires 0 <= k < topK reads cachedIds => cachedIds[s, t, k])
    }

    /** Outside its cached candidates a row is -inf. */
    ghost predicate RowClean(s: nat, t: nat)
      requires Sized() && s < slots && t < steps
      reads draftLogits, cachedIds
    {
      && (forall k :: 0 <= k < topK ==> cachedIds[s, t, k] < vocab)
      && forall v: nat :: v < vocab && v !in Cached(s, t) ==> draftLogits[s, t, v] == NegInf
    }

    ghost predicate Valid()
      reads draftLogits, cachedIds
    {
      Sized() && forall s: nat, t: nat :: s < slots && t < steps ==> RowClean(s, t)
    }

    ghost predicate RowIs(s: nat, t: nat, candidates: seq<nat>, scores: seq<Logit>)
      requires Sized() && s < slots && t < steps && |candidates| == |scores|
      reads draftLogits
    {
      forall v: nat :: v < vocab ==> draftLogits[s, t, v] == DenseAt(candidates, scores, v)
    }

    constructor (slots: nat, steps: nat, topK: nat, vocab: nat)
      requires topK > 0 && vocab > 0
      ensures Valid() && fresh(draftLogits) && fresh(cachedIds) && fresh(realized) && fresh(tokens)
      ensures this.slots == slots && this.steps == steps && this.topK == topK && this.vocab == vocab
      ensures forall s: nat, t: nat :: s < slots && t < steps ==> RowIs(s, t, [], [])
    {
      this.slots, this.steps, this.topK, this.vocab := slots, steps, topK, vocab;
      draftLogits := new Logit[slots, steps, vocab]((_, _, _) => NegInf);
      cachedIds := new nat[slots, steps, topK]((_, _, _) => 0);
      realized := new Logit[slots, steps, topK]((_, _, _) => NegInf);
      tokens := new nat[slots, steps]((_, _) => 0);
    }

    /** Store -inf at the ids cached for this row. */
    method ClearCached(s: nat, t: nat)
      requires Valid() && s < slots && t < steps
      modifies draftLogits
      ensures forall v: nat :: v < vocab ==> draftLogits[s, t, v] == NegInf
      ensures forall r: nat, u: nat, v: nat :: r < slots && u < steps && v < vocab && (r, u) != (s, t) ==>
        draftLogits[r, u, v] == old(draftLogits[r, u, v])
    {
      assert RowClean(s, t);
      for k := 0 to topK
        invariant forall v: nat :: v < vocab && v !in Cached(s, t) ==> draftLogits[s, t, v] == NegInf
        invariant forall j :: 0 <= j < k ==> draftLogits[s, t, cachedIds[s, t, j]] == NegInf
        invariant forall r: nat, u: nat, v: nat :: r < slots && u < steps && v < vocab && (r, u) != (s, t) ==>
          draftLogits[r, u, v] == old(draftLogits[r, u, v])
      {
        draftLogits[s, t, cachedIds[s, t, k]] := NegInf;
      }
      forall v: nat | v < vocab ensures draftLogits[s, t, v] == NegInf {
        if v in Cached(s, t) {
          var j :| 0 <= j < topK && Cached(s, t)[j] == v;
        }
      }
    }

    /** Store the scores at the candidates of a cleared row and remember the ids. */
    method StoreCandidates(s: nat, t: nat, candidates: seq<nat>, scores: seq<Logit>)
      requires Sized() && s < slots && t < steps && |candidates| == |scores| == topK
      requires forall k :: 0 <= k < topK ==> candidates[k] < vocab
      requires forall v: nat :: v < vocab ==> draftLogits[s, t, v] == NegInf
      modifies draftLogits, cachedIds
      ensures RowIs(s, t, candidates, scores) && Cached(s, t) == candidates
      ensures forall r: nat, u: nat, v: nat :: r < slots && u < steps && v < vocab && (r, u) != (s, t) ==>
        draftLogits[r, u, v] == old(draftLogits[r, u, v])
      ensures forall r: nat, u: nat, k: nat :: r < slots && u < steps && k < topK && (r, u) != (s, t) ==>
        cachedIds[r, u, k] == old(cachedIds[r, u, k])
    {
      for k := 0 to topK
        invariant RowIs(s, t, candidates[..k], scores[..k])
        invariant forall j :: 0 <= j < k ==> cachedIds[s, t, j] == candidates[j]
        invariant forall r: nat, u: nat, v: nat :: r < slots && u < steps && v < vocab && (r, u) != (s, t) ==>
          draftLogits[r, u, v] == old(draftLogits[r, u, v])
        invariant forall r: nat, u: nat, j: nat :: r < slots && u < steps && j < topK && (r, u) != (s, t) ==>
          cachedIds[r, u, j] == old(cachedIds[r, u, j])
      {
        draftLogits[s, t, candidates[k]] := scores[k];
        cachedIds[s, t, k] := candidates[k];
        assert candidates[..k + 1][..k] == candidates[..k] && scores[..k + 1][..k] == scores[..k];
      }
      assert candidates[..topK] == candidates && scores[..topK] == scores;
    }

    /** One program of the cache kernel: clear what this row cached last, store the new candidates. */
    method CacheRow(s: nat, t: nat, candidates: seq<nat>, scores: seq<Logit>)
      requires Valid() && s < slots && t < steps && |candidates| == |scores| == topK
      requires forall k :: 0 <= k < topK ==> candidates[k] < vocab
      modifies draftLogits, cachedIds
      ensures Valid() && RowIs(s, t, candidates, scores)
      ensures forall r: nat, u: nat, v: nat :: r < slots && u < steps && v < vocab && (r, u) != (s, t) ==>
        draftLogits[r, u, v] == old(draftLogits[r, u, v])
    {
      ClearCached(s, t);
      StoreCandidates(s, t, candidates, scores);
      forall v: nat | v < vocab && v !in candidates ensures draftLogits[s, t, v] == NegInf {
        DenseElsewhere(candidates, scores, v);
      }
      forall r: nat, u: nat | r < slots && u < steps && (r, u) != (s, t) ensures RowClean(r, u) {
        assert old(RowClean(r, u));
        assert Cached(r, u) == old(Cached(r, u));
      }
    }

    function RealizedRow(row: nat, t: nat): (r: seq<Logit>)
      requires Sized() && row < slots && t < steps
      reads realized
      ensures |r| == topK && forall k :: 0 <= k < topK ==> r[k] == realized[row, t, k]
    {
      seq(topK, k requires 0 <= k < topK reads realized => realized[row, t, k])
    }

    ghost predicate ValidBatch(states: seq<int>, drafts: seq<Draft>) {
      && |states| == |drafts| <= slots
      && (forall i :: 0 <= i < |states| ==> states[i] < slots && ValidDraft(drafts[i], steps, topK, vocab))
      && (forall i, j :: 0 <= i < j < |states| && states[i] >= 0 ==> states[i] != states[j])
    }

    /** The cached row of a program's slot and step is the dense refill with its realized scores. */
    ghost predicate Done(states: seq<int>, drafts: seq<Draft>, p: Program)
      requires Sized() && ValidBatch(states, drafts) && p.row < |states| && p.step < steps
      reads draftLogits, realized
    {
      states[p.row] >= 0 ==> RowIs(states[p.row], p.step, StepIds(states, drafts, p), RealizedRow(p.row, p.step))
    }

    ghost function StepIds(states: seq<int>, drafts: seq<Draft>, p: Program): (ids: seq<nat>)
      requires ValidBatch(states, drafts) && p.row < |states| && p.step < steps
      ensures |ids| == topK && forall k :: 0 <= k < topK ==> ids[k] < vocab
    {
      assert ValidStep(drafts[p.row].candidates[p.step], drafts[p.row].scores[p.step], topK, vocab);
      drafts[p.row].candidates[p.step]
    }

    /** The cache kernel over all requests and steps, its programs in any order; programs of padded
        batch entries do nothing. */
    method CacheDraftLogits(states: seq<int>, drafts: seq<Draft>)
      requires Valid() && ValidBatch(states, drafts)
      modifies draftLogits, cachedIds
      ensures Valid()
      ensures forall p: Program :: p.row < |states| && p.step < steps ==> Done(states, drafts, p)
      ensures forall s: nat, t: nat, v: nat :: s < slots && t < steps && v < vocab && s !in states ==>
        draftLogits[s, t, v] == old(draftLogits[s, t, v])
    {
      var pending := set i: nat, t: nat | i < |states| && t < steps :: Program(i, t);
      while pending != {}
        invariant Valid() && forall p :: p in pending ==> p.row < |states| && p.step < steps
        invariant forall p: Program :: p.row < |states| && p.step < steps && p !in pending ==> Done(states, drafts, p)
        invariant forall s: nat, t: nat, v: nat :: s < slots && t < steps && v < vocab && s !in states ==>
          draftLogits[s, t, v] == old(draftLogits[s, t, v])
        decreases |pending|
      {
        var p :| p in pending;
        RunCacheProgram(states, drafts, p, pending);
        pending := pending - {p};
      }
    }

    method RunCacheProgram(states: seq<int>, drafts: seq<Draft>, p: Program, ghost pending: set<Program>)
      requires Valid() && ValidBatch(states, drafts) && p.row < |states| && p.step < steps
      modifies draftLogits, cachedIds
      ensures Valid() && Done(states, drafts, p)
      ensures forall q: Program :: q.row < |states| && q.step < steps && q != p && old(Done(states, drafts, q)) ==>
        Done(states, drafts, q)
      ensures forall s: nat, t: nat, v: nat :: s < slots && t < steps && v < vocab && s !in states ==>
        draftLogits[s, t, v] == old(draftLogits[s, t, v])
    {
      var s := states[p.row];
      if s >= 0 {
        ghost var ids := StepIds(states, drafts, p);
        CacheRow(s, p.step, drafts[p.row].candidates[p.step], RealizedRow(p.row, p.step));
      }
    }

    /** The selector walk of one batch entry. */
    method Walk(row: nat, d: Draft, state: int, sampler: Sampler)
      requires Sized() && row < slots && ValidDraft(d, steps, topK, vocab)
      modifies realized, tokens
      ensures state >= 0 ==> Walked(row, d, sampler)
      ensures forall r: nat, t: nat, k: nat :: r < slots && t < steps && k < topK && (r != row || state < 0) ==>
        realized[r, t, k] == old(realized[r, t, k])
      ensures forall r: nat, t: nat :: r < slots && t < steps && (r != row || state < 0) ==>
        tokens[r, t] == old(tokens[r, t])
    {
      if state < 0 {
        return;
      }
      var previous := 0;
      for t := 0 to steps
        invariant previous == Previous(d, steps, topK, vocab, sampler, t)
        invariant WalkedTo(row, d, sampler, t)
        invariant forall r: nat, u: nat, k: nat :: r < slots && u < steps && k < topK && r != row ==>
          realized[r, u, k] == old(realized[r, u, k])
        invariant forall r: nat, u: nat :: r < slots && u < steps && r != row ==> tokens[r, u] == old(tokens[r, u])
      {
        previous := WalkStep(row, t, d, sampler, previous);
      }
    }

    /** One step of the walk continues the ones before it. */
    method WalkStep(row: nat, t: nat, d: Draft, sampler: Sampler, previous: nat) returns (index: nat)
      requires Sized() && row < slots && t < steps && ValidDraft(d, steps, topK, vocab)
      requires previous == Previous(d, steps, topK, vocab, sampler, t) && WalkedTo(row, d, sampler, t)
      modifies realized, tokens
      ensures index == Previous(d, steps, topK, vocab, sampler, t + 1) && WalkedTo(row, d, sampler, t + 1)
      ensures forall r: nat, u: nat, k: nat :: r < slots && u < steps && k < topK && r != row ==>
        realized[r, u, k] == old(realized[r, u, k])
      ensures forall r: nat, u: nat :: r < slots && u < steps && r != row ==> tokens[r, u] == old(tokens[r, u])
    {
      index := PickStep(row, t, d, sampler, previous);
      forall u: nat | u < t ensures StepWalked(row, d, sampler, u) {
        assert old(StepWalked(row, d, sampler, u));
      }
    }

    /** Score the candidates after the previous one, pick the first largest, store scores and token. */
    method PickStep(row: nat, t: nat, d: Draft, sampler: Sampler, previous: nat) returns (index: nat)
      requires Sized() && row < slots && t < steps && ValidDraft(d, steps, topK, vocab) && previous < topK
      modifies realized, tokens
      ensures |d.candidates[t]| == |d.scores[t]| == |d.scores[t][previous]| == topK && index < topK
      ensures index == Argmax(NoisedRow(d.scores[t][previous], d.candidates[t], sampler, t))
      ensures StepIs(row, t, d.candidates[t][index], d.scores[t][previous])
      ensures forall r: nat, u: nat, k: nat :: r < slots && u < steps && k < topK && (r, u) != (row, t) ==>
        realized[r, u, k] == old(realized[r, u, k])
      ensures forall r: nat, u: nat :: r < slots && u < steps && (r, u) != (row, t) ==>
        tokens[r, u] == old(tokens[r, u])
    {
      assert ValidStep(d.candidates[t], d.scores[t], topK, vocab);
      var scores := d.scores[t][previous];
      index := Argmax(NoisedRow(scores, d.candidates[t], sampler, t));
      StoreStep(row, t, scores, d.candidates[t][index]);
    }

    /** Realized scores and token of one step. */
    ghost predicate StepWalked(row: nat, d: Draft, sampler: Sampler, t: nat)
      requires Sized() && row < slots && ValidDraft(d, steps, topK, vocab) && t < steps
      reads realized, tokens
    {
      StepIs(row, t, Token(d, steps, topK, vocab, sampler, t), Realized(d, steps, topK, vocab, sampler, t))
    }

    ghost predicate StepIs(row: nat, t: nat, token: nat, scores: seq<Logit>)
      requires Sized() && row < slots && t < steps && |scores| == topK
      reads realized, tokens
    {
      tokens[row, t] == token && forall k: nat :: k < topK ==> realized[row, t, k] == scores[k]
    }

    ghost predicate WalkedTo(row: nat, d: Draft, sampler: Sampler, n: nat)
      requires Sized() && row < slots && ValidDraft(d, steps, topK, vocab) && n <= steps
      reads realized, tokens
    {
      forall t: nat :: t < n ==> StepWalked(row, d, sampler, t)
    }

    ghost predicate Walked(row: nat, d: Draft, sampler: Sampler)
      requires Sized() && row < slots && ValidDraft(d, steps, topK, vocab)
      reads realized, tokens
    {
      WalkedTo(row, d, sampler, steps)
    }

    method StoreStep(row: nat, t: nat, scores: seq<Logit>, token: nat)
      requires Sized() && row < slots && t < steps && |scores| == topK
      modifies realized, tokens
      ensures StepIs(row, t, token, scores)
      ensures forall r: nat, u: nat, k: nat :: r < slots && u < steps && k < topK && (r, u) != (row, t) ==>
        realized[r, u, k] == old(realized[r, u, k])
      ensures forall r: nat, u: nat :: r < slots && u < steps && (r, u) != (row, t) ==>
        tokens[r, u] == old(tokens[r, u])
    {
      for j := 0 to topK
        modifies realized
        invariant forall k :: 0 <= k < j ==> realized[row, t, k] == scores[k]
        invariant forall r: nat, u: nat, k: nat :: r < slots && u < steps && k < topK && (r, u) != (row, t) ==>
          realized[r, u, k] == old(realized[r, u, k])
      {
        realized[row, t, j] := scores[j];
      }
      tokens[row, t] := token;
    }

    /** One drafting step. Every live request's tokens are those of the walk, and every step's cached
        row is the dense refill with the scores the walk realized there; the rows of slots that are
        not in the batch keep their contents. */
    method GenerateDraft(states: seq<int>, drafts: seq<Draft>, samplers: seq<Sampler>)
      requires Valid() && ValidBatch(states, drafts) && |samplers| == slots
      modifies draftLogits, cachedIds, realized, tokens
      ensures Valid()
      ensures forall i: nat :: i < |states| && states[i] >= 0 ==> Walked(i, drafts[i], samplers[states[i]])
      ensures forall i: nat, t: nat :: i < |states| && states[i] >= 0 && t < steps ==>
        RowIs(states[i], t, drafts[i].candidates[t], Realized(drafts[i], steps, topK, vocab, samplers[states[i]], t))
      ensures forall s: nat, t: nat, v: nat :: s < slots && t < steps && v < vocab && s !in states ==>
        draftLogits[s, t, v] == old(draftLogits[s, t, v])
    {
      WalkAll(states, drafts, samplers);
      CacheDraftLogits(states, drafts);
      forall i: nat, t: nat | i < |states| && states[i] >= 0 && t < steps
        ensures RowIs(states[i], t, drafts[i].candidates[t],
                      Realized(drafts[i], steps, topK, vocab, samplers[states[i]], t))
      {
        assert Done(states, drafts, Program(i, t)) && StepWalked(i, drafts[i], samplers[states[i]], t);
        CachedAsWalked(states, drafts, samplers[states[i]], Program(i, t));
      }
    }

    ghost predicate WalkedUpTo(states: seq<int>, drafts: seq<Draft>, samplers: seq<Sampler>, n: nat)
      requires Sized() && ValidBatch(states, drafts) && |samplers| == slots && n <= |states|
      reads realized, tokens
    {
      forall i: nat :: i < n && states[i] >= 0 ==> Walked(i, drafts[i], samplers[states[i]])
    }

    /** The selector walk of every live batch entry. */
    method WalkAll(states: seq<int>, drafts: seq<Draft>, samplers: seq<Sampler>)
      requires Sized() && ValidBatch(states, drafts) && |samplers| == slots
      modifies realized, tokens
      ensures WalkedUpTo(states, drafts, samplers, |states|)
    {
      for i := 0 to |states|
        invariant WalkedUpTo(states, drafts, samplers, i)
      {
        WalkEntry(states, drafts, samplers, i);
      }
    }

    method WalkEntry(states: seq<int>, drafts: seq<Draft>, samplers: seq<Sampler>, i: nat)
      requires Sized() && ValidBatch(states, drafts) && |samplers| == slots && i < |states|
      requires WalkedUpTo(states, drafts, samplers, i)
      modifies realized, tokens
      ensures WalkedUpTo(states, drafts, samplers, i + 1)
    {
      if states[i] >= 0 {
        Walk(i, drafts[i], states[i], samplers[states[i]]);
        forall j: nat, t: nat | j < i && states[j] >= 0 && t < steps
          ensures StepWalked(j, drafts[j], samplers[states[j]], t)
        {
          assert old(Walked(j, drafts[j], samplers[states[j]]));
          assert old(StepWalked(j, drafts[j], samplers[states[j]], t));
        }
      }
    }

    /** A program's row holds the scores of the walk. */
    lemma CachedAsWalked(states: seq<int>, drafts: seq<Draft>, sampler: Sampler, p: Program)
      requires Sized() && ValidBatch(states, drafts) && p.row < |states| && states[p.row] >= 0 && p.step < steps
      requires Done(states, drafts, p) && StepWalked(p.row, drafts[p.row], sampler, p.step)
      ensures RowIs(states[p.row], p.step, drafts[p.row].candidates[p.step],
                    Realized(drafts[p.row], steps, topK, vocab, sampler, p.step))
    {
      assert RealizedRow(p.row, p.step) == Realized(drafts[p.row], steps, topK, vocab, sampler, p.step);
    }

    ghost predicate ValidStepOf(b: Batch) {
      ValidBatch(b.states, b.drafts) && |b.samplers| == slots
    }

    ghost predicate ValidRun(run: seq<Batch>) {
      forall k :: 0 <= k < |run| ==> ValidStepOf(run[k])
    }

    /** Candidates and realized scores of the last batch of a run that held slot s; none if no batch did. */
    ghost function LastRow(run: seq<Batch>, s: nat, t: nat): (r: (seq<nat>, seq<Logit>))
      requires ValidRun(run) && s < slots && t < steps
      ensures |r.0| == |r.1|
    {
      if run == [] then ([], [])
      else
        var b := run[|run| - 1];
        assert ValidStepOf(b);
        if s in b.states then
          var i := EntryOf(b.states, s);
          (b.drafts[i].candidates[t], Realized(b.drafts[i], steps, topK, vocab, b.samplers[s], t))
        else LastRow(run[..|run| - 1], s, t)
    }

    ghost predicate RowAfter(run: seq<Batch>, s: nat, t: nat)
      requires Sized() && ValidRun(run) && s < slots && t < steps
      reads draftLogits
    {
      RowIs(s, t, LastRow(run, s, t).0, LastRow(run, s, t).1)
    }

    /** A run of drafting steps from fresh buffers: at every point each row is the dense refill of the
        last step that drafted for its slot, although only remembered entries were ever cleared. */
    method Run(run: seq<Batch>)
      requires Valid() && ValidRun(run) && forall s: nat, t: nat :: s < slots && t < steps ==> RowIs(s, t, [], [])
      modifies draftLogits, cachedIds, realized, tokens
      ensures Valid()
      ensures forall s: nat, t: nat :: s < slots && t < steps ==> RowAfter(run, s, t)
    {
      for k := 0 to |run|
        invariant Valid()
        invariant forall s: nat, t: nat :: s < slots && t < steps ==> RowAfter(run[..k], s, t)
      {
        ghost var done := run[..k + 1];
        assert ValidStepOf(run[k]) && done[..k] == run[..k];
        label before:
        GenerateDraft(run[k].states, run[k].drafts, run[k].samplers);
        forall s: nat, t: nat | s < slots && t < steps
          ensures RowAfter(done, s, t)
        {
          assert old@before(RowAfter(run[..k], s, t));
          if s in run[k].states {
            var i := EntryOf(run[k].states, s);
            assert RowIs(run[k].states[i], t, run[k].drafts[i].candidates[t],
                         Realized(run[k].drafts[i], steps, topK, vocab, run[k].samplers[run[k].states[i]], t));
          }
        }
      }
      assert run[..|run|] == run;
    }
  }

  /** One drafting step's inputs: request slot per batch entry (negative for padding), drafts, samplers by slot. */
  datatype Batch = Batch(states: seq<int>, drafts: seq<Draft>, samplers: seq<Sampler>)

  function EntryOf(states: seq<int>, s: int): (i: nat)
    requires s in states
    ensures i < |states| && states[i] == s
  {
    if states[|states| - 1] == s then |states| - 1 else EntryOf(states[..|states| - 1], s)
  }

  /** A kernel program: batch row and step. */
  datatype Program = Program(row: nat, step: nat)
}
