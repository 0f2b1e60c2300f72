/** What the workers' projected groups ask of the shared block pool: every worker of a model estimates the
    same number of blocks per request, so admission accepts exactly what the pool holds. */
module WorkerClaims {
  import opened Arith
  import opened Lists
  import opened Wrappers
  import opened KvGroups
  import opened Glm5Groups
  import opened AutoFit
  import KvLayout

  /** Blocks a request of a length needs of a layer with this spec. */
  type Claim = (Spec, int) -> int

  function MaxClaim(specs: seq<Layer>, claim: Claim, len: int): int {
    if specs == [] then 0
    else Max(MaxClaim(specs[..|specs| - 1], claim, len), claim(specs[|specs| - 1].spec, len))
  }

  function GroupClaim(g: Group, claim: Claim, len: int): int {
    match g
    case Uniform(specs, _) => MaxClaim(specs, claim, len)
    case Plain(spec, _) => claim(spec, len)
  }

  function SumClaims(gs: seq<Group>, claim: Claim, len: int): int {
    if gs == [] then 0 else SumClaims(gs[..|gs| - 1], claim, len) + GroupClaim(gs[|gs| - 1], claim, len)
  }

  /** Blocks a worker estimates for a request: one for all tails in the recognized grouping, otherwise
      every group's own claim. */
  function Blocks(gs: seq<Group>, claim: Claim, len: int): int {
    match Recognize(gs)
    case Some(l) =>
      GroupClaim(l.0, claim, len) + SumClaims(Filter(gs, Mambas()), claim, len) + if l.1.tail != [] then 1 else 0
    case None => SumClaims(gs, claim, len)
  }

  function WorkerOf(gs: seq<Group>, claim: Claim): Worker {
    Worker(BytesPerBlock(gs), (len: int) => Blocks(gs, claim, len))
  }

  // ------------------------------------------------------------ projections claim alike

  /** All layers of a Uniform group claim the same blocks. */
  ghost predicate EvenGroup(g: Group, claim: Claim, len: int) {
    g.Uniform? ==>
      && g.specs != [] && g.listed && claim(g.specs[0].spec, len) >= 0
      && forall i :: 0 <= i < |g.specs| ==> claim(g.specs[i].spec, len) == claim(g.specs[0].spec, len)
  }

  ghost predicate EvenGroups(gs: seq<Group>, claim: Claim, len: int) {
    forall i :: 0 <= i < |gs| ==> EvenGroup(gs[i], claim, len)
  }

  lemma {:induction false} EvenMax(specs: seq<Layer>, claim: Claim, len: int, n: int)
    requires n >= 0 && forall i :: 0 <= i < |specs| ==> claim(specs[i].spec, len) == n
    ensures MaxClaim(specs, claim, len) == if specs == [] then 0 else n
  {
    if specs != [] {
      EvenMax(specs[..|specs| - 1], claim, len, n);
    }
  }

  /** Projecting an even group never changes its claim, not even when it is emptied. */
  lemma ProjectedClaim(g: Group, w: set<Name>, claim: Claim, len: int)
    requires EvenGroup(g, claim, len)
    ensures GroupClaim(ProjectGroup(g, w), claim, len) == GroupClaim(g, claim, len)
  {
    if g.Uniform? {
      var kept, n := Filter(g.specs, On(w)), claim(g.specs[0].spec, len);
      forall i | 0 <= i < |kept| ensures claim(kept[i].spec, len) == n {
        FilterIn(g.specs, On(w), kept[i]);
      }
      EvenMax(kept, claim, len, n);
      EvenMax(g.specs, claim, len, n);
    }
  }

  lemma {:induction false} SumProjected(gs: seq<Group>, w: set<Name>, claim: Claim, len: int)
    requires EvenGroups(gs, claim, len)
    ensures SumClaims(Project(gs, w), claim, len) == SumClaims(gs, claim, len)
  {
    if gs != [] {
      var rest := gs[..|gs| - 1];
      SumProjected(rest, w, claim, len);
      ProjectedClaim(gs[|gs| - 1], w, claim, len);
      assert Project(gs, w)[..|gs| - 1] == Project(rest, w);
    }
  }

  lemma {:induction false} SumConcat(gs: seq<Group>, hs: seq<Group>, claim: Claim, len: int)
    ensures SumClaims(gs + hs, claim, len) == SumClaims(gs, claim, len) + SumClaims(hs, claim, len)
  {
    if hs == [] {
      assert gs + hs == gs;
    } else {
      SumConcat(gs, hs[..|hs| - 1], claim, len);
      Behind(gs, hs);
    }
  }

  lemma {:induction false} SumOne(g: Group, claim: Claim, len: int)
    ensures SumClaims([g], claim, len) == GroupClaim(g, claim, len)
  {
    assert [g][..0] == [];
  }

  /** What a grouping in the built order claims, part by part. */
  lemma {:induction false} BuiltClaims(a: Group, ts: seq<Group>, ms: seq<Group>, claim: Claim, len: int)
    requires Built(a, ts, ms)
    ensures SumClaims([a] + ts + ms, claim, len)
      == GroupClaim(a, claim, len) + SumClaims(ts, claim, len) + SumClaims(ms, claim, len)
    ensures Filter([a] + ts + ms, Mambas()) == ms
  {
    SumConcat([a] + ts, ms, claim, len);
    SumConcat([a], ts, claim, len);
    SumOne(a, claim, len);
    BuiltParts(a, ts, ms);
  }

  /** Groups whose layers claim alike claim as much on every worker whose projection is not recognized,
      whatever the model. */
  lemma {:induction false} UnrecognizedClaims(gs: seq<Group>, w: set<Name>, claim: Claim, len: int)
    requires EvenGroups(gs, claim, len) && Recognize(Project(gs, w)).None?
    ensures Blocks(Project(gs, w), claim, len) == SumClaims(gs, claim, len)
  {
    SumProjected(gs, w, claim, len);
  }

  /** A recognized worker's estimate differs from the groups' claims only by what it counts for tails. */
  lemma {:induction false} RecognizedBlocks(a: Group, ts: seq<Group>, ms: seq<Group>, l: KvLayout.Glm5, claim: Claim,
                                            len: int)
    requires Built(a, ts, ms) && Recognize([a] + ts + ms) == Some((a, l))
    ensures Blocks([a] + ts + ms, claim, len) + SumClaims(ts, claim, len)
      == SumClaims([a] + ts + ms, claim, len) + if l.tail != [] then 1 else 0
  {
    BuiltClaims(a, ts, ms, claim, len);
  }

  /** A recognized projection estimates what the model's groups claim exactly when a tail claims the one
      block the estimate counts for it, or there are no tails. */
  lemma {:induction false} RecognizedClaims(merged: seq<Layer>, n: int, w: set<Name>, claim: Claim, len: int)
    requires Ready(merged) && n > 0 && EvenGroups(Groups(merged, n), claim, len) && RecognizedOn(merged, w)
    ensures Blocks(Project(Groups(merged, n), w), claim, len) == SumClaims(Groups(merged, n), claim, len) <==>
      TailOf(merged) == [] || GroupClaim(TailPart(merged)[0], claim, len) == 1
  {
    ProjectionBuilt(merged, n, w);
    RecognizedExactly(merged, n, w);
    RecognizedBlocks(AttentionOn(merged, w), TailsOn(merged, w), MambasOn(merged, n, w), LayoutOn(merged, n, w),
                     claim, len);
    SumProjected(Groups(merged, n), w, claim, len);
    if TailOf(merged) != [] {
      TailClaim(merged, n, w, claim, len);
    } else {
      assert TailsOn(merged, w) == [] && LayoutOn(merged, n, w).tail == [];
    }
  }

  lemma {:induction false} TailClaim(merged: seq<Layer>, n: int, w: set<Name>, claim: Claim, len: int)
    requires Ready(merged) && n > 0 && EvenGroups(Groups(merged, n), claim, len)
    requires TailOf(merged) != [] && RecognizedOn(merged, w)
    ensures SumClaims(TailsOn(merged, w), claim, len) == GroupClaim(TailPart(merged)[0], claim, len)
    ensures LayoutOn(merged, n, w).tail != []
  {
    TailNamesOn(merged, w);
    var t := TailPart(merged)[0];
    assert Groups(merged, n)[1] == t;
    ProjectedClaim(t, w, claim, len);
    assert TailsOn(merged, w) == [ProjectGroup(t, w)];
    SumOne(ProjectGroup(t, w), claim, len);
    assert |Names(Listed(TailsOn(merged, w)[0]))| == |Filter(IdxOf(merged), On(w))|;
  }

  /** A tail is one block per request. */
  ghost predicate TailsClaimOne(claim: Claim) {
    forall s: Spec, len: int :: s.kind.Tail? ==> claim(s, len) == 1
  }

  /** Attention layers claim alike. */
  ghost predicate AttentionAlike(merged: seq<Layer>, claim: Claim, len: int) {
    EvenGroup(Uniform(AttentionOf(merged), true), claim, len)
  }

  lemma EvenConcat(gs: seq<Group>, hs: seq<Group>, claim: Claim, len: int)
    requires EvenGroups(gs, claim, len) && EvenGroups(hs, claim, len)
    ensures EvenGroups(gs + hs, claim, len)
  {
  }

  lemma EvenTails(merged: seq<Layer>, claim: Claim, len: int)
    requires Ready(merged) && TailsClaimOne(claim)
    ensures EvenGroups(TailPart(merged), claim, len)
    ensures TailOf(merged) != [] ==> GroupClaim(TailPart(merged)[0], claim, len) == 1
  {
    if TailOf(merged) != [] {
      OfOneKind(merged, Tail);
      var specs := TailPart(merged)[0].specs;
      forall i | 0 <= i < |specs| ensures claim(specs[i].spec, len) == 1 {
        assert specs[i].spec.kind.Tail?;
      }
      EvenMax(specs, claim, len, 1);
    }
  }

  lemma EvenMambas(merged: seq<Layer>, n: int, claim: Claim, len: int)
    requires Ready(merged) && n > 0
    ensures EvenGroups(MambaPart(merged, n), claim, len)
  {
    forall g | 0 <= g < n ensures EvenGroup(MambaPart(merged, n)[g], claim, len) {
      assert MambaPart(merged, n)[g] == MambaGroup(merged, n, g);
    }
  }

  lemma EvenBuilt(merged: seq<Layer>, n: int, claim: Claim, len: int)
    requires Ready(merged) && n > 0 && TailsClaimOne(claim) && AttentionAlike(merged, claim, len)
    ensures EvenGroups(Groups(merged, n), claim, len)
    ensures TailOf(merged) != [] ==> GroupClaim(TailPart(merged)[0], claim, len) == 1
  {
    var a := Uniform(AttentionOf(merged), true);
    EvenTails(merged, claim, len);
    EvenMambas(merged, n, claim, len);
    EvenConcat([a], TailPart(merged), claim, len);
    EvenConcat([a] + TailPart(merged), MambaPart(merged, n), claim, len);
  }

  /** Every worker, recognized or not, holding whatever layers, estimates the same blocks per request:
      what the model's groups claim together. */
  lemma {:induction false} EveryWorkerClaimsAlike(merged: seq<Layer>, n: int, w: set<Name>, claim: Claim, len: int)
    requires Ready(merged) && n > 0 && TailsClaimOne(claim) && AttentionAlike(merged, claim, len)
    ensures Blocks(Project(Groups(merged, n), w), claim, len) == SumClaims(Groups(merged, n), claim, len)
  {
    EvenBuilt(merged, n, claim, len);
    if RecognizedOn(merged, w) {
      RecognizedClaims(merged, n, w, claim, len);
    } else {
      RecognizedExactly(merged, n, w);
      UnrecognizedClaims(Groups(merged, n), w, claim, len);
    }
  }

  // ------------------------------------------------------------ admission

  /** The workers of a deployment, by the names they hold. */
  function WorkersOf(gs: seq<Group>, claim: Claim, held: seq<set<Name>>): (ws: seq<Worker>)
    ensures |ws| == |held| && forall i :: 0 <= i < |ws| ==> ws[i] == WorkerOf(Project(gs, held[i]), claim)
  {
    seq(|held|, i requires 0 <= i < |held| => WorkerOf(Project(gs, held[i]), claim))
  }

  lemma {:induction false} WorkersClaimAlike(merged: seq<Layer>, n: int, held: seq<set<Name>>, claim: Claim, len: int)
    requires Ready(merged) && n > 0 && TailsClaimOne(claim) && AttentionAlike(merged, claim, len)
    ensures ClaimsAlike(WorkersOf(Groups(merged, n), claim, held), len, SumClaims(Groups(merged, n), claim, len))
  {
    forall i | 0 <= i < |held|
      ensures WorkersOf(Groups(merged, n), claim, held)[i].blocks(len) == SumClaims(Groups(merged, n), claim, len)
    {
      EveryWorkerClaimsAlike(merged, n, held[i], claim, len);
    }
  }

  /** A request is admitted on all workers if and only if the pool they agree on has its blocks, for any
      stages, memories and override. */
  lemma {:induction false} AdmittedIsServed(merged: seq<Layer>, n: int, held: seq<set<Name>>, claim: Claim, len: int,
                                            available: seq<int>, override: Option<nat>, blocks: seq<int>)
    requires Ready(merged) && n > 0 && TailsClaimOne(claim) && AttentionAlike(merged, claim, len)
    requires |held| == |available| && IsPlan(WorkersOf(Groups(merged, n), claim, held), available, override, blocks)
    requires SumClaims(Groups(merged, n), claim, len) >= 1
    ensures var ws := WorkersOf(Groups(merged, n), claim, held);
      AllAdmitted(ws, UsableMemory(ws, available, override), len) <==>
        PoolHolds(blocks, SumClaims(Groups(merged, n), claim, len))
  {
    WorkersClaimAlike(merged, n, held, claim, len);
    AdmissionExact(WorkersOf(Groups(merged, n), claim, held), available, override, blocks, len,
                   SumClaims(Groups(merged, n), claim, len));
  }

  // ------------------------------------------------------------ what a request is handed

  /** The block ids lo .. hi - 1. */
  ghost function Ids(lo: int, hi: int): (ids: set<int>)
    ensures forall b :: b in ids <==> lo <= b < hi
    ensures |ids| == Max(hi - lo, 0)
    decreases Max(hi - lo, 0)
  {
    if hi <= lo then {} else Ids(lo, hi - 1) + {hi - 1}
  }

  /** Enough blocks for every layer of the group; its layers share the blocks. */
  ghost predicate Enough(g: Group, claim: Claim, len: int, n: int) {
    match g
    case Uniform(specs, _) => forall i :: 0 <= i < |specs| ==> claim(specs[i].spec, len) <= n
    case Plain(spec, _) => claim(spec, len) <= n
  }

  /** Each group of a request has its own blocks of the pool, none of them the null block 0. */
  ghost predicate Handed(gs: seq<Group>, claim: Claim, len: int, blocks: int, own: seq<set<int>>) {
    && |own| == |gs|
    && (forall g :: 0 <= g < |own| ==> own[g] <= Ids(1, blocks))
    && (forall g, h :: 0 <= g < h < |own| ==> own[g] !! own[h])
    && (forall g :: 0 <= g < |gs| ==> Enough(gs[g], claim, len, |own[g]|))
  }

  ghost predicate Served(gs: seq<Group>, claim: Claim, len: int, blocks: int) {
    exists own :: Handed(gs, claim, len, blocks, own)
  }

  lemma {:induction false} MaxClaimLeast(specs: seq<Layer>, claim: Claim, len: int, n: nat)
    ensures MaxClaim(specs, claim, len) <= n <==> forall i :: 0 <= i < |specs| ==> claim(specs[i].spec, len) <= n
  {
    if specs != [] {
      var rest := specs[..|specs| - 1];
      MaxClaimLeast(rest, claim, len, n);
      assert forall i :: 0 <= i < |rest| ==> rest[i] == specs[i];
    }
  }

  /** A group claims the least number of blocks that is enough for its layers. */
  lemma GroupClaimLeast(g: Group, claim: Claim, len: int, n: nat)
    ensures GroupClaim(g, claim, len) <= n <==> Enough(g, claim, len, n)
  {
    if g.Uniform? { MaxClaimLeast(g.specs, claim, len, n); }
  }

  ghost function Union(own: seq<set<int>>): set<int> {
    if own == [] then {} else Union(own[..|own| - 1]) + own[|own| - 1]
  }

  lemma {:induction false} UnionIn(own: seq<set<int>>, b: int)
    ensures b in Union(own) <==> exists g :: 0 <= g < |own| && b in own[g]
  {
    if own != [] {
      var rest := own[..|own| - 1];
      UnionIn(rest, b);
      assert forall g :: 0 <= g < |rest| ==> rest[g] == own[g];
    }
  }

  lemma {:induction false} UnionHolds(gs: seq<Group>, claim: Claim, len: int, blocks: int, own: seq<set<int>>)
    requires Handed(gs, claim, len, blocks, own)
    ensures |Union(own)| >= SumClaims(gs, claim, len) && Union(own) <= Ids(1, blocks)
  {
    if gs != [] {
      var n := |gs| - 1;
      UnionHolds(gs[..n], claim, len, blocks, own[..n]);
      GroupClaimLeast(gs[n], claim, len, |own[n]|);
      forall b | b in own[n] ensures b !in Union(own[..n]) {
        UnionIn(own[..n], b);
      }
      assert Union(own[..n]) !! own[n];
    }
  }

  /** All blocks handed out so far lie below top. */
  ghost predicate HandedBelow(gs: seq<Group>, claim: Claim, len: int, blocks: int, own: seq<set<int>>, top: int) {
    && 1 <= top <= blocks && Handed(gs, claim, len, blocks, own)
    && forall k :: 0 <= k < |own| ==> own[k] <= Ids(1, top)
  }

  lemma {:induction false} HandedSnoc(gs: seq<Group>, g: Group, claim: Claim, len: int, blocks: int, own: seq<set<int>>,
                                      lo: int, hi: int)
    requires HandedBelow(gs, claim, len, blocks, own, lo) && lo <= hi <= blocks && Enough(g, claim, len, hi - lo)
    ensures HandedBelow(gs + [g], claim, len, blocks, own + [Ids(lo, hi)], hi)
  {
    var all := own + [Ids(lo, hi)];
    forall k, h | 0 <= k < h < |all| ensures all[k] !! all[h] {
      if h == |own| { assert all[k] == own[k] <= Ids(1, lo); }
    }
    forall k | 0 <= k < |all| ensures all[k] <= Ids(1, hi) <= Ids(1, blocks) {
      if k < |own| { assert all[k] == own[k] <= Ids(1, lo); }
    }
  }

  lemma {:induction false} SumLast(gs: seq<Group>, claim: Claim, len: int)
    requires gs != [] && forall s: Spec, len: int :: claim(s, len) >= 0
    ensures SumClaims(gs, claim, len)
      == SumClaims(gs[..|gs| - 1], claim, len) + GroupClaim(gs[|gs| - 1], claim, len)
    ensures GroupClaim(gs[|gs| - 1], claim, len) >= 0
    ensures Enough(gs[|gs| - 1], claim, len, GroupClaim(gs[|gs| - 1], claim, len))
  {
    GroupNonNegative(gs[|gs| - 1], claim, len);
    GroupClaimLeast(gs[|gs| - 1], claim, len, GroupClaim(gs[|gs| - 1], claim, len));
  }

  /** Consecutive runs of ids, one per group. */
  lemma {:induction false} HandOut(gs: seq<Group>, claim: Claim, len: int, blocks: int, top: int)
    returns (own: seq<set<int>>)
    requires forall s: Spec, len: int :: claim(s, len) >= 0
    requires top == 1 + SumClaims(gs, claim, len) <= blocks
    ensures HandedBelow(gs, claim, len, blocks, own, top)
  {
    if gs == [] {
      own := [];
    } else {
      var front, g := gs[..|gs| - 1], gs[|gs| - 1];
      assert gs == front + [g];
      SumLast(gs, claim, len);
      var lo := 1 + SumClaims(front, claim, len);
      var rest := HandOut(front, claim, len, blocks, lo);
      HandedSnoc(front, g, claim, len, blocks, rest, lo, top);
      own := rest + [Ids(lo, top)];
    }
  }

  /** A request's blocks can be handed out of the pool exactly when the groups' claims together leave the
      null block alone. */
  lemma {:induction false} ServedExactly(gs: seq<Group>, claim: Claim, len: int, blocks: int)
    requires blocks >= 1 && forall s: Spec, len: int :: claim(s, len) >= 0
    ensures Served(gs, claim, len, blocks) <==> SumClaims(gs, claim, len) <= blocks - 1
  {
    if Served(gs, claim, len, blocks) {
      var own :| Handed(gs, claim, len, blocks, own);
      UnionHolds(gs, claim, len, blocks, own);
      SubsetSize(Union(own), Ids(1, blocks));
    }
    if SumClaims(gs, claim, len) <= blocks - 1 {
      var own := HandOut(gs, claim, len, blocks, 1 + SumClaims(gs, claim, len));
    }
  }

  lemma GroupNonNegative(g: Group, claim: Claim, len: int)
    requires forall s: Spec, len: int :: claim(s, len) >= 0
    ensures GroupClaim(g, claim, len) >= 0
  {
    if g.Uniform? { MaxNonNegative(g.specs, claim, len); }
  }

  lemma {:induction false} MaxNonNegative(specs: seq<Layer>, claim: Claim, len: int)
    requires forall s: Spec, len: int :: claim(s, len) >= 0
    ensures MaxClaim(specs, claim, len) >= 0
  {
    if specs != [] { MaxNonNegative(specs[..|specs| - 1], claim, len); }
  }

  /** Admission on all workers is exactly that the agreed pool can hand the request its blocks. */
  lemma {:induction false} AdmittedGetsBlocks(merged: seq<Layer>, n: int, held: seq<set<Name>>, claim: Claim, len: int,
                                              available: seq<int>, override: Option<nat>, blocks: seq<int>)
    requires Ready(merged) && n > 0 && TailsClaimOne(claim) && AttentionAlike(merged, claim, len)
    requires |held| == |available| && IsPlan(WorkersOf(Groups(merged, n), claim, held), available, override, blocks)
    requires SumClaims(Groups(merged, n), claim, len) >= 1 && blocks[0] >= 1
    requires forall s: Spec, len: int :: claim(s, len) >= 0
    ensures var ws := WorkersOf(Groups(merged, n), claim, held);
      AllAdmitted(ws, UsableMemory(ws, available, override), len) <==>
        Served(Groups(merged, n), claim, len, blocks[0])
  {
    AdmittedIsServed(merged, n, held, claim, len, available, override, blocks);
    ServedExactly(Groups(merged, n), claim, len, blocks[0]);
  }

  // ------------------------------------------------------------ longer requests need no less

  /** Claims that never shrink with the length. */
  ghost predicate MonotoneClaims(claim: Claim) {
    forall s: Spec, a: int, b: int :: 1 <= a <= b ==> 0 <= claim(s, a) <= claim(s, b)
  }

  lemma {:induction false} MaxClaimUp(specs: seq<Layer>, claim: Claim, a: int, b: int)
    requires MonotoneClaims(claim) && 1 <= a <= b
    ensures 0 <= MaxClaim(specs, claim, a) <= MaxClaim(specs, claim, b)
  {
    if specs != [] {
      MaxClaimUp(specs[..|specs| - 1], claim, a, b);
      assert claim(specs[|specs| - 1].spec, a) <= claim(specs[|specs| - 1].spec, b);
    }
  }

  lemma {:induction false} SumClaimsUp(gs: seq<Group>, claim: Claim, a: int, b: int)
    requires MonotoneClaims(claim) && 1 <= a <= b
    ensures 0 <= SumClaims(gs, claim, a) <= SumClaims(gs, claim, b)
  {
    if gs != [] {
      SumClaimsUp(gs[..|gs| - 1], claim, a, b);
      GroupClaimUp(gs[|gs| - 1], claim, a, b);
    }
  }

  lemma GroupClaimUp(g: Group, claim: Claim, a: int, b: int)
    requires MonotoneClaims(claim) && 1 <= a <= b
    ensures 0 <= GroupClaim(g, claim, a) <= GroupClaim(g, claim, b)
  {
    if g.Uniform? {
      MaxClaimUp(g.specs, claim, a, b);
    } else {
      assert claim(g.spec, a) <= claim(g.spec, b);
    }
  }

  /** A worker's memory need never shrinks with the request's length, for any groups. */
  lemma WorkerMonotone(gs: seq<Group>, claim: Claim)
    requires MonotoneClaims(claim) && PositiveGroups(gs)
    ensures Monotone(WorkerOf(gs, claim))
  {
    BytesNonNegative(gs);
    forall a, b | 1 <= a <= b ensures WorkerOf(gs, claim).Need(a) <= WorkerOf(gs, claim).Need(b) {
      BlocksUp(gs, claim, a, b);
      MulMono(Blocks(gs, claim, a), Blocks(gs, claim, b), BytesPerBlock(gs));
      assert forall x :: WorkerOf(gs, claim).Need(x) == BytesPerBlock(gs) * Blocks(gs, claim, x);
    }
  }

  lemma BlocksUp(gs: seq<Group>, claim: Claim, a: int, b: int)
    requires MonotoneClaims(claim) && 1 <= a <= b
    ensures 0 <= Blocks(gs, claim, a) <= Blocks(gs, claim, b)
  {
    SumClaimsUp(gs, claim, a, b);
    SumClaimsUp(Filter(gs, Mambas()), claim, a, b);
    if Recognize(gs).Some? {
      GroupClaimUp(Recognize(gs).value.0, claim, a, b);
    }
  }

  lemma BytesNonNegative(gs: seq<Group>)
    requires PositiveGroups(gs)
    ensures BytesPerBlock(gs) >= 0
  {
    if Recognize(gs).Some? {
      RecognizedValid(gs);
      var l := Recognize(gs).value.1;
      MulMono(0, |l.mla|, l.mlaPage);
      MulMono(0, |l.idx|, l.idxPage);
    }
  }
}
