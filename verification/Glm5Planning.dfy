/** The planning of a whole GLM-5.3-Flash deployment: merge, group, project, fit or check the context
    length, agree on a block count, and lay out every worker's tensors. */
module Glm5Planning {
  import opened Arith
  import opened Lists
  import opened Wrappers
  import opened KvGroups
  import opened MambaGroups
  import opened Glm5Groups
  import opened AutoFit
  import opened WorkerClaims
  import KvLayout

  /** Names per worker. */
  function Held(workers: seq<seq<Layer>>): (h: seq<set<Name>>)
    ensures |h| == |workers| && forall r :: 0 <= r < |h| ==> h[r] == NamesIn(workers[r])
  {
    seq(|workers|, r requires 0 <= r < |workers| => NamesIn(workers[r]))
  }

  /** Padding a state or a tail leaves a positive page: it is the page of the layer it shares a slot with. */
  lemma ProjectedPositive(merged: seq<Layer>, n: int, w: set<Name>)
    requires Ready(merged) && n > 0 && PositivePages(merged)
    ensures PositiveGroups(Project(Groups(merged, n), w))
  {
    var gs := Project(Groups(merged, n), w);
    FirstPositiveOf(merged);
    ProjectionBuilt(merged, n, w);
    forall i | 0 <= i < |gs| ensures PositiveGroup(gs[i]) {
      ProjectedGroupPositive(merged, n, w, i);
    }
  }

  lemma {:induction false} FilterPositive(layers: seq<Layer>, keep: Layer -> bool)
    requires PositivePages(layers)
    ensures PositivePages(Filter(layers, keep))
  {
    forall i | 0 <= i < |Filter(layers, keep)| ensures Filter(layers, keep)[i].spec.Page() > 0 {
      FilterIn(layers, keep, Filter(layers, keep)[i]);
    }
  }

  lemma FirstPositiveOf(merged: seq<Layer>)
    requires Ready(merged) && PositivePages(merged)
    ensures MlaOf(merged)[0].spec.Page() > 0 && IdxOf(merged)[0].spec.Page() > 0
    ensures PositivePages(AttentionOf(merged))
  {
    FilterPositive(merged, Attention());
    FilterPositive(AttentionOf(merged), OfKind(Mla));
    FilterPositive(AttentionOf(merged), OfKind(Indexer));
  }

  lemma ProjectKeepsPositive(g: Group, w: set<Name>)
    requires PositiveGroup(g)
    ensures PositiveGroup(ProjectGroup(g, w))
  {
    if g.Uniform? { FilterPositive(Listed(g), On(w)); }
  }

  lemma PaddedPositive(layers: seq<Layer>, page: int)
    requires page > 0
    ensures PositiveGroup(Uniform(PadTo(layers, page), true))
  {
  }

  lemma ProjectedGroupPositive(merged: seq<Layer>, n: int, w: set<Name>, i: nat)
    requires Ready(merged) && n > 0 && PositivePages(merged) && i < |Groups(merged, n)|
    ensures PositiveGroup(ProjectGroup(Groups(merged, n)[i], w))
  {
    FirstPositiveOf(merged);
    var g, front := Groups(merged, n)[i], 1 + |TailPart(merged)|;
    if i == 0 {
      assert g == Uniform(AttentionOf(merged), true);
    } else if i < front {
      PaddedPositive(TailOf(merged), IdxOf(merged)[0].spec.Page());
      assert g == TailPart(merged)[0];
    } else {
      assert g == MambaGroup(merged, n, i - front);
    }
    ProjectKeepsPositive(g, w);
  }

  // ------------------------------------------------------------ the plan

  /** Every worker is planned for its own groups, with the agreed blocks. */
  ghost predicate WorkersDone(views: seq<View>, layout: KvLayout.Layout, blocks: int, configs: seq<KvLayout.Config>) {
    |configs| <= |views| && forall r :: 0 <= r < |configs| ==> WorkerDone(views[r], layout, blocks, configs[r])
  }

  ghost predicate WorkerDone(v: View, layout: KvLayout.Layout, blocks: int, c: KvLayout.Config) {
    c.numBlocks == blocks && WorkerPlanned(v, layout, c)
  }

  /** What the layout planner sees of every worker. */
  function Views(gs: seq<Group>, held: seq<set<Name>>): (v: seq<View>)
    ensures |v| == |held| && forall r :: 0 <= r < |v| ==> v[r] == ViewOf(Project(gs, held[r]))
  {
    seq(|held|, r requires 0 <= r < |held| => ViewOf(Project(gs, held[r])))
  }

  /** What a successful planning guarantees. */
  ghost predicate ModelPlanned(workers: seq<seq<Layer>>, stages: seq<Stage>, n: int, claim: Claim, len: int,
                               layout: KvLayout.Layout, blocks: int, configs: seq<KvLayout.Config>)
  {
    var merged := Merged(workers);
    && Agree(workers) && Ready(merged) && n > 0 && Suffices(MambaOf(merged), MlaOf(merged), stages, n)
    && |configs| == |workers| && SumClaims(Groups(merged, n), claim, len) <= blocks - 1
    && WorkersDone(Views(Groups(merged, n), Held(workers)), layout, blocks, configs)
  }

  /** Attention layers claim alike, and something; nothing claims less than nothing. */
  ghost predicate ClaimsSound(merged: seq<Layer>, claim: Claim) {
    && TailsClaimOne(claim) && (forall s: Spec, len: int :: claim(s, len) >= 0)
    && forall len :: len >= 1 ==>
         AttentionAlike(merged, claim, len) && GroupClaim(Uniform(AttentionOf(merged), true), claim, len) >= 1
  }

  lemma {:induction false} SumNonNegative(gs: seq<Group>, claim: Claim, len: int)
    requires forall s: Spec, len: int :: claim(s, len) >= 0
    ensures SumClaims(gs, claim, len) >= 0
  {
    if gs != [] {
      SumNonNegative(gs[..|gs| - 1], claim, len);
      GroupNonNegative(gs[|gs| - 1], claim, len);
    }
  }

  lemma {:induction false} DemandPositive(merged: seq<Layer>, n: int, claim: Claim, len: int)
    requires Ready(merged) && n > 0 && ClaimsSound(merged, claim) && len >= 1
    ensures SumClaims(Groups(merged, n), claim, len) >= 1
  {
    var a := Uniform(AttentionOf(merged), true);
    SumConcat([a] + TailPart(merged), MambaPart(merged, n), claim, len);
    SumConcat([a], TailPart(merged), claim, len);
    SumOne(a, claim, len);
    SumNonNegative(TailPart(merged), claim, len);
    SumNonNegative(MambaPart(merged, n), claim, len);
  }

  ghost predicate AllReady(views: seq<View>) {
    forall k :: 0 <= k < |views| ==> views[k].Valid() && views[k].bytes > 0
  }

  /** Some worker's packing cannot be expressed in the layout. */
  ghost predicate SomeRefused(views: seq<View>, layout: KvLayout.Layout) {
    exists k :: 0 <= k < |views| && Refused(views[k], layout)
  }

  /** The tensors of every worker, planned with exactly the memory the agreed blocks take; it fails exactly
      when the layout cannot express some worker's packing. */
  method LayOut(views: seq<View>, layout: KvLayout.Layout, blocks: nat, override: Option<nat>)
    returns (r: Result<seq<KvLayout.Config>, Error>)
    requires AllReady(views) && (override.Some? ==> override.value == blocks)
    ensures r.Success? ==> |r.value| == |views| && WorkersDone(views, layout, blocks, r.value)
    ensures r.Failure? <==> SomeRefused(views, layout)
    ensures r.Failure? ==> r.error == ValueError
  {
    var configs := [];
    for k := 0 to |views|
      invariant |configs| == k && WorkersDone(views, layout, blocks, configs)
      invariant forall i :: 0 <= i < k ==> !Refused(views[i], layout)
    {
      MulMono(0, blocks, views[k].bytes);
      DivExact(blocks, views[k].bytes);
      var one := PlanWorker(views[k], layout, blocks * views[k].bytes, override);
      if one.Failure? {
        assert Refused(views[k], layout);
        return Failure(one.error);
      }
      assert WorkerDone(views[k], layout, blocks, one.value);
      configs := configs + [one.value];
    }
    r := Success(configs);
  }

  lemma ReadyViews(merged: seq<Layer>, n: int, held: seq<set<Name>>, claim: Claim)
    requires Ready(merged) && n > 0 && PositivePages(merged)
    requires ValidWorkers(WorkersOf(Groups(merged, n), claim, held))
    ensures AllReady(Views(Groups(merged, n), held))
  {
    var views, ws := Views(Groups(merged, n), held), WorkersOf(Groups(merged, n), claim, held);
    forall k | 0 <= k < |held| ensures views[k].Valid() && views[k].bytes > 0 {
      ProjectedPositive(merged, n, held[k]);
      ViewValid(Project(Groups(merged, n), held[k]));
      assert ws[k].bytesPerBlock > 0;
    }
  }

  /** No length between the fitted and the asked one has its blocks in the pool. */
  ghost predicate NoLongerHeld(gs: seq<Group>, claim: Claim, blocks: int, fitted: int, asked: int) {
    forall len :: fitted < len <= asked ==> SumClaims(gs, claim, len) > blocks - 1
  }

  lemma WorkersMonotone(merged: seq<Layer>, n: int, held: seq<set<Name>>, claim: Claim)
    requires Ready(merged) && n > 0 && PositivePages(merged) && MonotoneClaims(claim)
    ensures AllMonotone(WorkersOf(Groups(merged, n), claim, held))
  {
    forall i | 0 <= i < |held| ensures Monotone(WorkersOf(Groups(merged, n), claim, held)[i]) {
      ProjectedPositive(merged, n, held[i]);
      WorkerMonotone(Project(Groups(merged, n), held[i]), claim);
    }
  }

  /** A length that does not fit some worker is one the agreed pool cannot hold. */
  lemma {:induction false} LongerNotHeld(merged: seq<Layer>, n: int, held: seq<set<Name>>, claim: Claim, len: int,
                                         available: seq<int>, override: Option<nat>, blocks: seq<int>)
    requires Ready(merged) && n > 0 && ClaimsSound(merged, claim) && len >= 1 && |held| == |available|
    requires IsPlan(WorkersOf(Groups(merged, n), claim, held), available, override, blocks)
    requires var ws := WorkersOf(Groups(merged, n), claim, held);
      !AllFit(ws, UsableMemory(ws, available, override), len)
    ensures SumClaims(Groups(merged, n), claim, len) > blocks[0] - 1
  {
    var ws := WorkersOf(Groups(merged, n), claim, held);
    DemandPositive(merged, n, claim, len);
    AdmittedIsServed(merged, n, held, claim, len, available, override, blocks);
    if AllAdmitted(ws, UsableMemory(ws, available, override), len) {
      assert false;
    }
    assert !PoolHolds(blocks, SumClaims(Groups(merged, n), claim, len));
  }

  lemma LongestHeld(merged: seq<Layer>, n: int, held: seq<set<Name>>, claim: Claim, available: seq<int>,
                    override: Option<nat>, blocks: seq<int>, fitted: int, asked: int)
    requires Ready(merged) && n > 0 && ClaimsSound(merged, claim) && fitted >= 1 && |held| == |available|
    requires IsPlan(WorkersOf(Groups(merged, n), claim, held), available, override, blocks)
    requires var ws := WorkersOf(Groups(merged, n), claim, held);
      forall len :: fitted < len <= asked ==> !AllFit(ws, UsableMemory(ws, available, override), len)
    ensures NoLongerHeld(Groups(merged, n), claim, blocks[0], fitted, asked)
  {
    var ws := WorkersOf(Groups(merged, n), claim, held);
    forall len | fitted < len <= asked ensures SumClaims(Groups(merged, n), claim, len) > blocks[0] - 1 {
      assert !AllFit(ws, UsableMemory(ws, available, override), len);
      LongerNotHeld(merged, n, held, claim, len, available, override, blocks);
    }
  }

  /** Every length needs memory on every worker. */
  lemma EveryLengthNeeds(merged: seq<Layer>, n: int, held: seq<set<Name>>, claim: Claim)
    requires Ready(merged) && n > 0 && ClaimsSound(merged, claim)
    requires ValidWorkers(WorkersOf(Groups(merged, n), claim, held))
    ensures AllNeedMemory(WorkersOf(Groups(merged, n), claim, held))
  {
    var ws := WorkersOf(Groups(merged, n), claim, held);
    forall i, len | 0 <= i < |ws| && len >= 1 ensures ws[i].Need(len) > 0 {
      DemandPositive(merged, n, claim, len);
      EveryWorkerClaimsAlike(merged, n, held[i], claim, len);
      ProductPositive(ws[i].bytesPerBlock, ws[i].blocks(len));
    }
  }

  lemma ProductPositive(a: int, b: int)
    requires a > 0 && b > 0
    ensures a * b > 0
  {
  }

  lemma AdmittedAtOne(ws: seq<Worker>, usable: seq<int>)
    requires |ws| == |usable| && AllNeedMemory(ws)
    ensures AllAdmitted(ws, usable, 1) <==> AllFit(ws, usable, 1)
  {
    forall i | 0 <= i < |ws| ensures Admitted(ws[i], 1, usable[i]) <==> FitsIn(ws[i], 1, usable[i]) {
      assert ws[i].Need(1) > 0;
    }
  }

  /** Every worker has something to plan and memory for a request of this length. */
  ghost predicate Admits(merged: seq<Layer>, n: int, held: seq<set<Name>>, claim: Claim, available: seq<int>,
                         override: Option<nat>, len: int)
    requires Ready(merged) && n > 0 && |held| == |available|
  {
    var ws := WorkersOf(Groups(merged, n), claim, held);
    ValidWorkers(ws) && AllAdmitted(ws, UsableMemory(ws, available, override), len)
  }

  /** Every worker admits the request and its layout can be expressed. */
  ghost predicate Deployable(merged: seq<Layer>, n: int, held: seq<set<Name>>, claim: Claim, layout: KvLayout.Layout,
                             available: seq<int>, override: Option<nat>, len: int)
    requires Ready(merged) && n > 0 && |held| == |available|
  {
    && Admits(merged, n, held, claim, available, override, len)
    && !SomeRefused(Views(Groups(merged, n), held), layout)
  }

  /** The groups can be built for the merged layers. */
  ghost predicate Buildable(workers: seq<seq<Layer>>, stages: seq<Stage>) {
    Agree(workers) && Ready(Merged(workers)) && StateFits(Merged(workers)) && !SomeStranded(Merged(workers), stages)
  }

  /** The length whose admission decides: the configured one, or 1 when it is to be fitted. */
  function Asked(autoFit: bool, len: int): int { if autoFit then 1 else len }

  /** The planner over all workers of a GLM-5.3-Flash model: when it succeeds, and that all workers then
      have one number of blocks, the pool they share holds a request of the configured length (an
      automatically fitted one is the longest it holds), and every worker's tensors are laid out for its
      own projection. */
  method PlanModel(cfg: ModelConfig, workers: seq<seq<Layer>>, stages: seq<Stage>, claim: Claim,
                   layout: KvLayout.Layout, available: seq<int>, override: Option<nat>, autoFit: bool)
    returns (r: Result<(int, seq<KvLayout.Config>), Error>, n: int)
    requires |workers| == |available| && workers != [] && cfg.maxModelLen >= 1
    requires IsGlm5(Merged(workers)) && PositivePages(Merged(workers)) && ClaimsSound(Merged(workers), claim)
    modifies cfg
    ensures r.Success? ==> ModelPlanned(workers, stages, n, claim, cfg.maxModelLen, layout, r.value.0, r.value.1)
    ensures r.Success? ==> Buildable(workers, stages)
    ensures Buildable(workers, stages) ==>
      && n > 0 && Suffices(MambaOf(Merged(workers)), MlaOf(Merged(workers)), stages, n)
      && NoFewer(MambaOf(Merged(workers)), MlaOf(Merged(workers)), stages, n)
    ensures Buildable(workers, stages) && (autoFit ==> MonotoneClaims(claim)) ==>
      (r.Success? <==>
        Deployable(Merged(workers), n, Held(workers), claim, layout, available, override,
                   Asked(autoFit, old(cfg.maxModelLen))))
    ensures r.Success? && autoFit && MonotoneClaims(claim) ==>
      NoLongerHeld(Groups(Merged(workers), n), claim, r.value.0, cfg.maxModelLen, old(cfg.maxModelLen))
    ensures !autoFit ==> cfg.maxModelLen == old(cfg.maxModelLen)
  {
    n := 0;
    var specs := MergeSpecs(workers);
    if specs.Failure? {
      return Failure(AssertionError), 0;
    }
    var merged := specs.value;
    var built, count := BuildGroups(merged, stages);
    if built.Failure? {
      return Failure(built.error), 0;
    }
    n := count;
    r := PlanGroups(cfg, merged, n, Held(workers), claim, layout, available, override, autoFit);
  }

  /** From the groups on: fit or check the length, agree on the blocks, lay out. */
  method PlanGroups(cfg: ModelConfig, merged: seq<Layer>, n: int, held: seq<set<Name>>, claim: Claim,
                    layout: KvLayout.Layout, available: seq<int>, override: Option<nat>, autoFit: bool)
    returns (r: Result<(int, seq<KvLayout.Config>), Error>)
    requires |held| == |available| && held != [] && cfg.maxModelLen >= 1
    requires Ready(merged) && n > 0 && PositivePages(merged) && ClaimsSound(merged, claim)
    modifies cfg
    ensures r.Success? ==>
      && |r.value.1| == |held| && WorkersDone(Views(Groups(merged, n), held), layout, r.value.0, r.value.1)
      && SumClaims(Groups(merged, n), claim, cfg.maxModelLen) <= r.value.0 - 1
    ensures (autoFit ==> MonotoneClaims(claim)) ==>
      (r.Success? <==>
        Deployable(merged, n, held, claim, layout, available, override, Asked(autoFit, old(cfg.maxModelLen))))
    ensures r.Success? && autoFit && MonotoneClaims(claim) ==>
      NoLongerHeld(Groups(merged, n), claim, r.value.0, cfg.maxModelLen, old(cfg.maxModelLen))
    ensures !autoFit ==> cfg.maxModelLen == old(cfg.maxModelLen)
  {
    var blocks := AgreeOnBlocks(cfg, merged, n, held, claim, available, override, autoFit);
    if blocks.Failure? {
      return Failure(blocks.error);
    }
    ReadyViews(merged, n, held, claim);
    var configs := LayOut(Views(Groups(merged, n), held), layout, blocks.value, override);
    match configs {
      case Failure(e) => return Failure(e);
      case Success(cs) => return Success((blocks.value, cs));
    }
  }

  /** The pool that is agreed on for an admitted length holds a request of it. */
  lemma {:induction false} AgreedPool(merged: seq<Layer>, n: int, held: seq<set<Name>>, claim: Claim,
                                      available: seq<int>, override: Option<nat>, blocks: seq<int>, len: int)
    requires Ready(merged) && n > 0 && ClaimsSound(merged, claim) && len >= 1 && |held| == |available| && held != []
    requires IsPlan(WorkersOf(Groups(merged, n), claim, held), available, override, blocks)
    requires var ws := WorkersOf(Groups(merged, n), claim, held);
      AllAdmitted(ws, UsableMemory(ws, available, override), len)
    ensures |blocks| > 0 && 1 <= SumClaims(Groups(merged, n), claim, len) <= blocks[0] - 1
    ensures override.None? || override.value == blocks[0]
  {
    DemandPositive(merged, n, claim, len);
    AdmittedIsServed(merged, n, held, claim, len, available, override, blocks);
  }

  /** Fit or check the length against every worker, and agree on the least block count. */
  method AgreeOnBlocks(cfg: ModelConfig, merged: seq<Layer>, n: int, held: seq<set<Name>>, claim: Claim,
                       available: seq<int>, override: Option<nat>, autoFit: bool) returns (r: Result<int, Error>)
    requires |held| == |available| && held != [] && cfg.maxModelLen >= 1
    requires Ready(merged) && n > 0 && PositivePages(merged) && ClaimsSound(merged, claim)
    modifies cfg
    ensures r.Success? ==> ValidWorkers(WorkersOf(Groups(merged, n), claim, held)) && r.value >= 1
    ensures r.Success? ==> override.None? || override.value == r.value
    ensures (autoFit ==> MonotoneClaims(claim)) ==>
      (r.Success? <==> Admits(merged, n, held, claim, available, override, Asked(autoFit, old(cfg.maxModelLen))))
    ensures r.Success? ==> SumClaims(Groups(merged, n), claim, cfg.maxModelLen) <= r.value - 1
    ensures r.Success? && autoFit && MonotoneClaims(claim) ==>
      NoLongerHeld(Groups(merged, n), claim, r.value, cfg.maxModelLen, old(cfg.maxModelLen))
    ensures !autoFit ==> cfg.maxModelLen == old(cfg.maxModelLen)
  {
    var ws := WorkersOf(Groups(merged, n), claim, held);
    if autoFit && MonotoneClaims(claim) {
      WorkersMonotone(merged, n, held, claim);
    }
    if ValidWorkers(ws) {
      EveryLengthNeeds(merged, n, held, claim);
      AdmittedAtOne(ws, UsableMemory(ws, available, override));
    }
    var planned := GetKvCacheConfigs(cfg, false, ws, available, override, autoFit);
    if planned.Failure? {
      return Failure(planned.error);
    }
    AgreedPool(merged, n, held, claim, available, override, planned.value, cfg.maxModelLen);
    if autoFit && MonotoneClaims(claim) {
      LongestHeld(merged, n, held, claim, available, override, planned.value, cfg.maxModelLen, old(cfg.maxModelLen));
    }
    r := Success(planned.value[0]);
  }

  // ------------------------------------------------------------ every layer gets memory

  /** Some tensor of the plan is the layer's. */
  ghost predicate HasTensor(c: KvLayout.Config, x: Name) {
    exists g, t :: 0 <= g < |c.tensors| && t in c.tensors[g] && x in t.layers
  }

  ghost predicate InClasses(classes: seq<SpecLayers>, x: Name) {
    exists i :: 0 <= i < |classes| && x in classes[i].names
  }

  lemma {:induction false} AddKeeps(classes: seq<SpecLayers>, l: Layer, x: Name)
    requires InClasses(classes, x) || x == l.name
    ensures InClasses(AddToClass(classes, l), x)
  {
    var more := AddToClass(classes, l);
    if classes == [] {
      assert x in more[0].names;
    } else if classes[0].spec == l.spec {
      if x == l.name || x in classes[0].names {
        assert x in more[0].names;
      } else {
        var i :| 0 <= i < |classes| && x in classes[i].names;
        assert more[i] == classes[i];
      }
    } else {
      if x in classes[0].names {
        assert x in more[0].names;
      } else {
        if x != l.name {
          var i :| 0 <= i < |classes| && x in classes[i].names;
          assert classes[1..][i - 1] == classes[i];
        }
        AddKeeps(classes[1..], l, x);
        var i :| 0 <= i < |AddToClass(classes[1..], l)| && x in AddToClass(classes[1..], l)[i].names;
        assert more[i + 1] == AddToClass(classes[1..], l)[i];
      }
    }
  }

  lemma {:induction false} ClassHas(layers: seq<Layer>, x: Layer)
    requires x in layers
    ensures InClasses(Classes(layers), x.name)
  {
    var rest, last := layers[..|layers| - 1], layers[|layers| - 1];
    if x != last {
      assert x in rest;
      ClassHas(rest, x);
    }
    AddKeeps(Classes(rest), last, x.name);
  }

  /** A listed layer is in one of its group's packed classes. */
  lemma PackedHas(g: Group, x: Name) returns (i: nat)
    requires x in NamesIn(Listed(g))
    ensures i < |Pack(g).specs| && x in Pack(g).specs[i].layers
  {
    var l :| l in Listed(g) && l.name == x;
    match g {
      case Uniform(specs, _) =>
        ClassHas(specs, l);
        i :| 0 <= i < |Classes(specs)| && x in Classes(specs)[i].names;
      case Plain(_, layers) =>
        i := 0;
        var k := NameAt(layers, l);
    }
  }

  /** A listed layer the worker holds stays listed. */
  lemma StaysListed(g: Group, w: set<Name>, x: Layer)
    requires x in Listed(g) && On(w)(x)
    ensures x.name in NamesIn(Listed(ProjectGroup(g, w)))
  {
    FilterIn(Listed(g), On(w), x);
  }

  lemma MambaListed(merged: seq<Layer>, n: int, x: Layer) returns (g: nat)
    requires Ready(merged) && n > 0 && x in merged && x.spec.kind.Mamba?
    ensures g < |Groups(merged, n)| && x in Listed(Groups(merged, n)[g])
  {
    FilterIn(merged, OfKind(Mamba), x);
    var d := DealtHas(MambaOf(merged), n, x);
    g := 1 + |TailPart(merged)| + d;
    assert Groups(merged, n)[g] == MambaGroup(merged, n, d);
  }

  lemma TailListed(merged: seq<Layer>, n: int, x: Layer) returns (y: Layer)
    requires Ready(merged) && n > 0 && x in merged && x.spec.kind.Tail?
    ensures |Groups(merged, n)| > 1 && y in Listed(Groups(merged, n)[1]) && y.name == x.name
  {
    FilterIn(merged, OfKind(Tail), x);
    var page := IdxOf(merged)[0].spec.Page();
    var k :| 0 <= k < |TailOf(merged)| && TailOf(merged)[k] == x;
    y := Padded(x, page);
    assert PadTo(TailOf(merged), page)[k] == y;
    assert Groups(merged, n)[1] == TailPart(merged)[0];
  }

  /** The projected group that lists a layer of the worker. */
  lemma ListedSomewhere(merged: seq<Layer>, n: int, w: set<Name>, x: Layer) returns (g: nat)
    requires Ready(merged) && n > 0 && x in merged && On(w)(x)
    ensures g < |Groups(merged, n)| && x.name in NamesIn(Listed(Project(Groups(merged, n), w)[g]))
  {
    if x.spec.kind.Mamba? {
      g := MambaListed(merged, n, x);
      StaysListed(Groups(merged, n)[g], w, x);
    } else if x.spec.kind.Tail? {
      g := 1;
      var y := TailListed(merged, n, x);
      StaysListed(Groups(merged, n)[1], w, y);
    } else {
      g := 0;
      FilterIn(merged, Attention(), x);
      StaysListed(Groups(merged, n)[0], w, x);
    }
  }

  lemma SharedHasTensor(l: KvLayout.Glm5, c: KvLayout.Config, x: Name)
    requires |c.tensors| == 1 && c.numBlocks >= 0 && PlacedName(l, x)
    requires KvLayout.Holds(l, c.numBlocks, c.tensors[0], KvLayout.Everywhere())
    ensures HasTensor(c, x)
  {
    var p :| KvLayout.Placed(l, p) && KvLayout.NameOf(l, p) == x;
    assert KvLayout.Everywhere()(p);
    assert KvLayout.TensorAt(l, p, c.numBlocks) in c.tensors[0];
    assert x in KvLayout.TensorAt(l, p, c.numBlocks).layers;
  }

  lemma PackedHasTensor(gs: seq<Group>, layout: KvLayout.Layout, c: KvLayout.Config, g: nat, x: Name)
    requires KvLayout.Planned(PackAll(gs), layout, c) && g < |gs| && x in NamesIn(Listed(gs[g]))
    ensures HasTensor(c, x)
  {
    var i := PackedHas(gs[g], x);
    var bytes := KvLayout.BytesPerBlock(PackAll(gs));
    assert KvLayout.GroupPlanned(PackAll(gs)[g], layout, c.numBlocks, bytes, c.tensors[g]);
    assert x in c.tensors[g][i].layers;
  }

  /** In a successful plan every layer of every worker has a tensor, whether the worker's projection is
      recognized or not, for any number of stages and ranks and any order of the workers. */
  lemma {:induction false} EveryLayerHasTensor(workers: seq<seq<Layer>>, stages: seq<Stage>, n: int, claim: Claim,
                                               len: int, layout: KvLayout.Layout, blocks: int,
                                               configs: seq<KvLayout.Config>, r: nat, j: nat, x: Layer)
    requires ModelPlanned(workers, stages, n, claim, len, layout, blocks, configs)
    requires Staged(workers) && r < |workers| && x in workers[r]
    requires Serves(On(NamesIn(workers[r])), MambaOf(Merged(workers)), MlaOf(Merged(workers)), stages, j)
    ensures HasTensor(configs[r], x.name)
  {
    var merged, w := Merged(workers), NamesIn(workers[r]);
    var gs := Project(Groups(merged, n), w);
    assert Views(Groups(merged, n), Held(workers))[r] == ViewOf(gs);
    assert WorkerDone(ViewOf(gs), layout, blocks, configs[r]);
    RecognizedExactly(merged, n, w);
    MergedHas(workers, r, x);
    if RecognizedOn(merged, w) {
      EveryLayerPlaced(workers, stages, n, r, j, x);
      SharedHasTensor(LayoutOn(merged, n, w), configs[r], x.name);
    } else {
      var g := ListedSomewhere(merged, n, w, x);
      PackedHasTensor(gs, layout, configs[r], g, x.name);
    }
  }
}
