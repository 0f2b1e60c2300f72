/** The GLM-5.3-Flash grouping: attention layers in one group, tails in another, Mamba layers dealt to as
    many groups as the stages' MLA slots ask for; and what each worker's projection of it is. */
module Glm5Groups {
  import opened RoundRobin
  import opened Lists
  import opened Wrappers
  import opened KvGroups
  import opened MambaGroups
  import KvLayout

  /** Everything but Mamba and tail layers. */
  function Attention(): Layer -> bool { (l: Layer) => !l.spec.kind.Mamba? && !l.spec.kind.Tail? }

  function AttentionOf(merged: seq<Layer>): seq<Layer> { Filter(merged, Attention()) }

  function MlaOf(merged: seq<Layer>): seq<Layer> { Filter(AttentionOf(merged), OfKind(Mla)) }

  function IdxOf(merged: seq<Layer>): seq<Layer> { Filter(AttentionOf(merged), OfKind(Indexer)) }

  function TailOf(merged: seq<Layer>): seq<Layer> { Filter(merged, OfKind(Tail)) }

  function MambaOf(merged: seq<Layer>): seq<Layer> { Filter(merged, OfKind(Mamba)) }

  /** Models this grouping is for: Mamba layers beside MLA attention with indexers. */
  predicate IsGlm5(merged: seq<Layer>) {
    MambaOf(merged) != [] && AllKind(AttentionOf(merged), {Mla, Indexer}) && IdxOf(merged) != []
  }

  /** What the assertions check: no padded attention pages, one page size for MLA layers and one for
      indexers, one spec for all Mamba layers. */
  predicate Regular(merged: seq<Layer>)
    requires MambaOf(merged) != []
  {
    && Unpadded(AttentionOf(merged)) && OnePage(MlaOf(merged)) && OnePage(IdxOf(merged))
    && (forall i :: 0 <= i < |MambaOf(merged)| ==> MambaOf(merged)[i].spec == MambaOf(merged)[0].spec)
  }

  predicate Ready(merged: seq<Layer>) {
    IsGlm5(merged) && Regular(merged)
  }

  /** The same layers with their pages padded. */
  function PadTo(layers: seq<Layer>, page: int): (p: seq<Layer>)
    ensures |p| == |layers|
    ensures forall i :: 0 <= i < |p| ==> p[i] == Padded(layers[i], page)
  {
    seq(|layers|, i requires 0 <= i < |layers| => Padded(layers[i], page))
  }

  function Padded(l: Layer, page: int): Layer { l.(spec := l.spec.(padded := Some(page))) }

  function MambaGroup(merged: seq<Layer>, n: int, g: int): Group
    requires Ready(merged) && n > 0
  {
    Plain(Padded(MambaOf(merged)[0], MlaOf(merged)[0].spec.Page()).spec, DealtTo(MambaOf(merged), g, n))
  }

  function MambaPart(merged: seq<Layer>, n: int): (gs: seq<Group>)
    requires Ready(merged) && n > 0
    ensures |gs| == n && forall g :: 0 <= g < n ==> gs[g] == MambaGroup(merged, n, g)
  {
    seq(n, g requires 0 <= g < n => MambaGroup(merged, n, g))
  }

  function TailPart(merged: seq<Layer>): seq<Group>
    requires Ready(merged)
  {
    if TailOf(merged) == [] then [] else [Uniform(PadTo(TailOf(merged), IdxOf(merged)[0].spec.Page()), true)]
  }

  /** One attention group, at most one tail group, n Mamba groups. */
  function Groups(merged: seq<Layer>, n: int): seq<Group>
    requires Ready(merged) && n > 0
  {
    [Uniform(AttentionOf(merged), true)] + TailPart(merged) + MambaPart(merged, n)
  }

  /** A stage with Mamba layers but no MLA layer, in a pipeline of several. */
  ghost predicate SomeStranded(merged: seq<Layer>, stages: seq<Stage>) {
    |stages| != 1 && exists i :: 0 <= i < |stages| && Stranded(MambaOf(merged), MlaOf(merged), OnStage(stages[i]))
  }

  predicate StateFits(merged: seq<Layer>)
    requires Ready(merged)
  {
    MambaOf(merged)[0].spec.unpadded <= MlaOf(merged)[0].spec.Page()
  }

  /** Builds the groups of a model: none for other models, an error for irregular specs, a Mamba state
      that does not fit an MLA page, or a stranded stage. */
  method BuildGroups(merged: seq<Layer>, stages: seq<Stage>) returns (r: Result<Option<seq<Group>>, Error>, count: int)
    ensures r == Success(None) <==> !IsGlm5(merged)
    ensures r == Failure(AssertionError) <==> IsGlm5(merged) && !Ready(merged)
    ensures r == Failure(ValueError) <==> Ready(merged) && (!StateFits(merged) || SomeStranded(merged, stages))
    ensures r.Success? || r.error in {AssertionError, ValueError}
    ensures r.Success? && r.value.Some? ==>
      && Suffices(MambaOf(merged), MlaOf(merged), stages, count)
      && NoFewer(MambaOf(merged), MlaOf(merged), stages, count) && r.value.value == Groups(merged, count)
  {
    count := 0;
    if !IsGlm5(merged) {
      return Success(None), 0;
    }
    if !Regular(merged) {
      return Failure(AssertionError), 0;
    }
    var mamba, mla := MambaOf(merged), MlaOf(merged);
    if !StateFits(merged) {
      return Failure(ValueError), 0;
    }
    var chosen := GroupCount(mamba, mla, stages);
    match chosen {
      case None =>
        return Failure(ValueError), 0;
      case Some(n) =>
        var dealt := DealRoundRobin(mamba, n);
        var spec := Padded(mamba[0], mla[0].spec.Page()).spec;
        var groups := [Uniform(AttentionOf(merged), true)] + TailPart(merged);
        ghost var front := groups;
        for g := 0 to n
          invariant groups == front + MambaPart(merged, n)[..g]
        {
          assert MambaPart(merged, n)[..g + 1] == MambaPart(merged, n)[..g] + [MambaPart(merged, n)[g]];
          groups := groups + [Plain(spec, dealt[g])];
        }
        assert MambaPart(merged, n)[..n] == MambaPart(merged, n);
        return Success(Some(groups)), n;
    }
  }

  // ------------------------------------------------------------ projections

  /** Groups in the order they are built: attention, tails if any, Mamba. */
  ghost predicate Built(a: Group, ts: seq<Group>, ms: seq<Group>) {
    && IsAttention(a) && |ts| <= 1 && (forall t :: t in ts ==> IsTail(t)) && (forall m :: m in ms ==> IsMamba(m))
  }

  lemma {:induction false} BuiltParts(a: Group, ts: seq<Group>, ms: seq<Group>)
    requires Built(a, ts, ms)
    ensures LastAttention([a] + ts + ms) == Some(a)
    ensures LastTail([a] + ts + ms) == if ts == [] then None else Some(ts[0])
    ensures Filter([a] + ts + ms, Mambas()) == ms
  {
    BuiltFront(a, ts);
    AttentionBehind([a] + ts, ms);
    TailBehind([a] + ts, ms);
    BuiltMambaPart(a, ts, ms);
  }

  lemma {:induction false} BuiltMambaPart(a: Group, ts: seq<Group>, ms: seq<Group>)
    requires a.Uniform? && (forall t :: t in ts ==> t.Uniform?) && (forall m :: m in ms ==> IsMamba(m))
    ensures Filter([a] + ts + ms, Mambas()) == ms
  {
    var front := [a] + ts;
    FilterConcat(front, ms, Mambas());
    FilterAll(ms, Mambas());
    forall i | 0 <= i < |front| ensures !Mambas()(front[i]) {
      if i > 0 { assert front[i] == ts[i - 1] && ts[i - 1].Uniform?; }
    }
    FilterNone(front, Mambas());
  }

  lemma Behind(gs: seq<Group>, ms: seq<Group>)
    requires ms != []
    ensures (gs + ms)[..|gs + ms| - 1] == gs + ms[..|ms| - 1] && (gs + ms)[|gs + ms| - 1] == ms[|ms| - 1]
  {
  }

  lemma {:induction false} AttentionBehind(gs: seq<Group>, ms: seq<Group>)
    requires forall m :: m in ms ==> IsMamba(m)
    ensures LastAttention(gs + ms) == LastAttention(gs)
  {
    if ms == [] {
      assert gs + ms == gs;
    } else {
      AttentionBehind(gs, ms[..|ms| - 1]);
      Behind(gs, ms);
      assert IsMamba(ms[|ms| - 1]);
    }
  }

  lemma {:induction false} TailBehind(gs: seq<Group>, ms: seq<Group>)
    requires forall m :: m in ms ==> IsMamba(m)
    ensures LastTail(gs + ms) == LastTail(gs)
  {
    if ms == [] {
      assert gs + ms == gs;
    } else {
      TailBehind(gs, ms[..|ms| - 1]);
      Behind(gs, ms);
      assert IsMamba(ms[|ms| - 1]);
    }
  }

  lemma {:induction false} BuiltFront(a: Group, ts: seq<Group>)
    requires Built(a, ts, [])
    ensures LastAttention([a] + ts) == Some(a)
    ensures LastTail([a] + ts) == if ts == [] then None else Some(ts[0])
  {
    assert [a][..0] == [] && LastAttention([a]) == Some(a) && LastTail([a]) == None;
    if ts != [] {
      assert ts[0] in ts && IsTail(ts[0]);
      assert [a] + ts == [a, ts[0]] && [a, ts[0]][..1] == [a];
      assert LastAttention([a, ts[0]]) == LastAttention([a]);
    } else {
      assert [a] + ts == [a];
    }
  }

  /** The worker's attention, tail and Mamba groups. */
  function AttentionOn(merged: seq<Layer>, w: set<Name>): Group
  {
    ProjectGroup(Uniform(AttentionOf(merged), true), w)
  }

  function TailsOn(merged: seq<Layer>, w: set<Name>): seq<Group>
    requires Ready(merged)
  {
    Project(TailPart(merged), w)
  }

  function MambasOn(merged: seq<Layer>, n: int, w: set<Name>): seq<Group>
    requires Ready(merged) && n > 0
  {
    Project(MambaPart(merged, n), w)
  }

  lemma ProjectConcat(gs: seq<Group>, hs: seq<Group>, w: set<Name>)
    ensures Project(gs + hs, w) == Project(gs, w) + Project(hs, w)
  {
  }

  lemma {:induction false} FilterKinds(layers: seq<Layer>, keep: Layer -> bool, kinds: set<Kind>)
    requires AllKind(layers, kinds)
    ensures AllKind(Filter(layers, keep), kinds)
  {
    forall i | 0 <= i < |Filter(layers, keep)| ensures Filter(layers, keep)[i].spec.kind in kinds {
      FilterIn(layers, keep, Filter(layers, keep)[i]);
    }
  }

  lemma {:induction false} OfOneKind(merged: seq<Layer>, kind: Kind)
    ensures AllKind(Filter(merged, OfKind(kind)), {kind})
  {
    var layers := Filter(merged, OfKind(kind));
    forall i | 0 <= i < |layers| ensures layers[i].spec.kind == kind {
      FilterIn(merged, OfKind(kind), layers[i]);
    }
  }

  /** Every projection is built the same way. */
  lemma ProjectionBuilt(merged: seq<Layer>, n: int, w: set<Name>)
    requires Ready(merged) && n > 0
    ensures Project(Groups(merged, n), w) == [AttentionOn(merged, w)] + TailsOn(merged, w) + MambasOn(merged, n, w)
    ensures Built(AttentionOn(merged, w), TailsOn(merged, w), MambasOn(merged, n, w))
  {
    var a := Uniform(AttentionOf(merged), true);
    ProjectConcat([a] + TailPart(merged), MambaPart(merged, n), w);
    ProjectConcat([a], TailPart(merged), w);
    assert Project([a], w) == [AttentionOn(merged, w)];
    FilterKinds(AttentionOf(merged), On(w), {Mla, Indexer});
    OfOneKind(merged, Mamba);
    if TailOf(merged) != [] {
      OfOneKind(merged, Tail);
      var padded := PadTo(TailOf(merged), IdxOf(merged)[0].spec.Page());
      StillTail(padded, w);
      assert TailsOn(merged, w) == [ProjectGroup(Uniform(padded, true), w)];
    }
  }

  lemma StillTail(tails: seq<Layer>, w: set<Name>)
    requires tails != [] && AllKind(tails, {Tail})
    ensures IsTail(ProjectGroup(Uniform(tails, true), w))
  {
    FilterKinds(tails, On(w), {Tail});
    var p := ProjectGroup(Uniform(tails, true), w);
    assert p.specs != [] && p.specs[0].spec.kind == Tail;
  }

  lemma PadSnoc(layers: seq<Layer>, l: Layer, page: int)
    ensures PadTo(layers + [l], page) == PadTo(layers, page) + [Padded(l, page)]
  {
  }

  lemma {:induction false} PadFilter(layers: seq<Layer>, page: int, w: set<Name>)
    ensures Filter(PadTo(layers, page), On(w)) == PadTo(Filter(layers, On(w)), page)
  {
    if layers != [] {
      var rest, l := layers[..|layers| - 1], layers[|layers| - 1];
      PadFilter(rest, page, w);
      assert layers == rest + [l];
      PadSnoc(rest, l, page);
      FilterSnoc(PadTo(rest, page), Padded(l, page), On(w));
      FilterSnoc(rest, l, On(w));
      PadSnoc(Filter(rest, On(w)), l, page);
    }
  }

  // ------------------------------------------------------------ which projections are recognized

  lemma {:induction false} OnePageOn(layers: seq<Layer>, w: set<Name>)
    requires OnePage(layers)
    ensures OnePage(Filter(layers, On(w))) <==> Filter(layers, On(w)) != []
    ensures Filter(layers, On(w)) != [] ==> Filter(layers, On(w))[0].spec.Page() == layers[0].spec.Page()
  {
    var kept := Filter(layers, On(w));
    forall i | 0 <= i < |kept| ensures kept[i].spec.Page() == layers[0].spec.Page() {
      FilterIn(layers, On(w), kept[i]);
    }
  }

  /** A worker's attention layers of one kind. */
  lemma KindOn(merged: seq<Layer>, w: set<Name>, kind: Kind)
    ensures Filter(Listed(AttentionOn(merged, w)), OfKind(kind))
      == Filter(Filter(AttentionOf(merged), OfKind(kind)), On(w))
  {
    FilterSwap(AttentionOf(merged), OfKind(kind), On(w));
  }

  /** The tails the worker has, and whether their size fits an indexer page. */
  predicate TailsMatch(merged: seq<Layer>, w: set<Name>)
    requires Ready(merged)
  {
    TailOf(merged) == [] || TailMatches(TailsOn(merged, w)[0], Filter(IdxOf(merged), On(w)))
  }

  /** What the layout planner is handed for a recognized worker. */
  function LayoutOn(merged: seq<Layer>, n: int, w: set<Name>): KvLayout.Glm5
    requires Ready(merged) && n > 0
  {
    KvLayout.Glm5(Names(Filter(MlaOf(merged), On(w))), Names(Filter(IdxOf(merged), On(w))),
                  MlaOf(merged)[0].spec.Page(), IdxOf(merged)[0].spec.Page(),
                  seq(n, g requires 0 <= g < n => Names(Filter(DealtTo(MambaOf(merged), g, n), On(w)))),
                  Names(Filter(TailOf(merged), On(w))))
  }

  ghost predicate RecognizedOn(merged: seq<Layer>, w: set<Name>)
    requires Ready(merged)
  {
    Filter(MlaOf(merged), On(w)) != [] && Filter(IdxOf(merged), On(w)) != [] && TailsMatch(merged, w)
  }

  lemma MambaListsOn(merged: seq<Layer>, n: int, w: set<Name>)
    requires Ready(merged) && n > 0
    ensures NameLists(MambasOn(merged, n, w)) == LayoutOn(merged, n, w).mamba
  {
    var ms, ns := MambasOn(merged, n, w), LayoutOn(merged, n, w).mamba;
    forall g | 0 <= g < n ensures NameLists(ms)[g] == ns[g] {
      assert ms[g] == ProjectGroup(MambaGroup(merged, n, g), w);
    }
  }

  lemma TailNamesOn(merged: seq<Layer>, w: set<Name>)
    requires Ready(merged) && TailOf(merged) != []
    ensures |TailsOn(merged, w)| == 1 && Names(Listed(TailsOn(merged, w)[0])) == Names(Filter(TailOf(merged), On(w)))
  {
    PadFilter(TailOf(merged), IdxOf(merged)[0].spec.Page(), w);
    assert TailsOn(merged, w)[0]
        == ProjectGroup(Uniform(PadTo(TailOf(merged), IdxOf(merged)[0].spec.Page()), true), w);
  }

  lemma BuiltMambas(a: Group, ts: seq<Group>, ms: seq<Group>, page: int)
    requires Built(a, ts, ms) && ms != []
    requires forall g :: 0 <= g < |ms| ==> IsMamba(ms[g]) && ms[g].spec.Page() == page
    ensures HasMamba([a] + ts + ms) && OnlyUniformAndMamba([a] + ts + ms) && MambaPages([a] + ts + ms, page)
  {
    var gs, k := [a] + ts + ms, 1 + |ts|;
    forall i | 0 <= i < |gs| ensures gs[i].Uniform? || (IsMamba(gs[i]) && gs[i].spec.Page() == page) {
      if i >= k {
        assert gs[i] == ms[i - k];
      } else if i > 0 {
        assert gs[i] == ts[i - 1] && IsTail(ts[i - 1]);
      }
    }
    assert gs[k] == ms[0];
  }

  lemma ProjectionPlain(merged: seq<Layer>, n: int, w: set<Name>)
    requires Ready(merged) && n > 0
    ensures HasMamba(Project(Groups(merged, n), w)) && OnlyUniformAndMamba(Project(Groups(merged, n), w))
    ensures MambaPages(Project(Groups(merged, n), w), MlaOf(merged)[0].spec.Page())
  {
    var ms := MambasOn(merged, n, w);
    ProjectionBuilt(merged, n, w);
    forall g | 0 <= g < |ms| ensures IsMamba(ms[g]) && ms[g].spec.Page() == MlaOf(merged)[0].spec.Page() {
      assert ms[g] in ms;
      assert ms[g] == ProjectGroup(MambaGroup(merged, n, g), w);
    }
    BuiltMambas(AttentionOn(merged, w), TailsOn(merged, w), ms, MlaOf(merged)[0].spec.Page());
  }

  lemma AttentionUnpadded(merged: seq<Layer>, w: set<Name>)
    requires Ready(merged)
    ensures Unpadded(AttentionOn(merged, w).specs)
  {
    var kept := Filter(AttentionOf(merged), On(w));
    forall i | 0 <= i < |kept| ensures kept[i].spec.padded.None? {
      FilterIn(AttentionOf(merged), On(w), kept[i]);
    }
  }

  /** The parts a projection is recognized from. */
  lemma {:induction false} RecognizeFrom(gs: seq<Group>, a: Group, tail: Option<Group>, mla: seq<Layer>,
                                         idx: seq<Layer>, page: int, names: seq<seq<Name>>)
    requires LastAttention(gs) == Some(a) && LastTail(gs) == tail && NameLists(Filter(gs, Mambas())) == names
    requires HasMamba(gs) && OnlyUniformAndMamba(gs) && MambaPages(gs, page) && a.Uniform? && Unpadded(a.specs)
    requires mla == Filter(Listed(a), OfKind(Mla)) && idx == Filter(Listed(a), OfKind(Indexer))
    requires OnePage(mla) <==> mla != []
    requires OnePage(idx) <==> idx != []
    requires mla != [] ==> mla[0].spec.Page() == page
    ensures Recognize(gs) ==
      if mla != [] && idx != [] && (tail.Some? ==> TailMatches(tail.value, idx))
      then Some((a, LayoutFrom(mla, idx, tail, names))) else None
  {
  }

  /** A projection is recognized exactly when the worker has an MLA layer, an indexer, and tails that
      match its indexers in number and size (or the model has none). */
  lemma RecognizedExactly(merged: seq<Layer>, n: int, w: set<Name>)
    requires Ready(merged) && n > 0
    ensures Recognize(Project(Groups(merged, n), w)).Some? <==> RecognizedOn(merged, w)
    ensures RecognizedOn(merged, w) ==>
      Recognize(Project(Groups(merged, n), w)) == Some((AttentionOn(merged, w), LayoutOn(merged, n, w)))
  {
    var gs, ts, ms := Project(Groups(merged, n), w), TailsOn(merged, w), MambasOn(merged, n, w);
    var tail := if ts == [] then None else Some(ts[0]);
    ProjectionBuilt(merged, n, w);
    BuiltParts(AttentionOn(merged, w), ts, ms);
    ProjectionPlain(merged, n, w);
    AttentionUnpadded(merged, w);
    KindOn(merged, w, Mla);
    KindOn(merged, w, Indexer);
    OnePageOn(MlaOf(merged), w);
    OnePageOn(IdxOf(merged), w);
    RecognizeFrom(gs, AttentionOn(merged, w), tail, Filter(MlaOf(merged), On(w)), Filter(IdxOf(merged), On(w)),
                  MlaOf(merged)[0].spec.Page(), NameLists(ms));
    if RecognizedOn(merged, w) {
      LayoutIs(merged, n, w);
    }
  }

  lemma LayoutIs(merged: seq<Layer>, n: int, w: set<Name>)
    requires Ready(merged) && n > 0 && RecognizedOn(merged, w)
    ensures var ts := TailsOn(merged, w);
      LayoutFrom(Filter(MlaOf(merged), On(w)), Filter(IdxOf(merged), On(w)),
                 if ts == [] then None else Some(ts[0]), NameLists(MambasOn(merged, n, w)))
        == LayoutOn(merged, n, w)
  {
    OnePageOn(MlaOf(merged), w);
    OnePageOn(IdxOf(merged), w);
    MambaListsOn(merged, n, w);
    if TailOf(merged) != [] {
      TailNamesOn(merged, w);
    } else {
      assert Names(Filter(TailOf(merged), On(w))) == [];
    }
  }

  // ------------------------------------------------------------ every layer of a worker has a place

  lemma {:induction false} DealtHas(layers: seq<Layer>, n: int, x: Layer) returns (g: int)
    requires n > 0 && x in layers
    ensures 0 <= g < n && x in DealtTo(layers, g, n)
  {
    var j := |layers| - 1;
    if layers[j] == x {
      g := Turn(j, n);
      assert DealtTo(layers, g, n) == DealtTo(layers[..j], g, n) + [x];
    } else {
      assert x in layers[..j];
      g := DealtHas(layers[..j], n, x);
      assert DealtTo(layers[..j], g, n) <= DealtTo(layers, g, n);
    }
  }

  /** A place of the recognized layout holds the name. */
  ghost predicate PlacedName(l: KvLayout.Glm5, x: Name) {
    exists p :: KvLayout.Placed(l, p) && KvLayout.NameOf(l, p) == x
  }

  lemma NameAt(layers: seq<Layer>, x: Layer) returns (i: nat)
    requires x in layers
    ensures i < |layers| && Names(layers)[i] == x.name
  {
    i :| 0 <= i < |layers| && layers[i] == x;
  }

  lemma MambaPlaced(merged: seq<Layer>, n: int, w: set<Name>, x: Layer)
    requires Ready(merged) && n > 0 && x in MambaOf(merged) && On(w)(x)
    requires NothingDropped(MambaOf(merged), MlaOf(merged), On(w), n)
    ensures PlacedName(LayoutOn(merged, n, w), x.name)
  {
    var g := DealtHas(MambaOf(merged), n, x);
    var dealt := DealtTo(MambaOf(merged), g, n);
    FilterIn(dealt, On(w), x);
    var i := NameAt(Filter(dealt, On(w)), x);
    assert GroupFits(MambaOf(merged), MlaOf(merged), On(w), n, g);
    assert LayoutOn(merged, n, w).mamba[g] == Names(Filter(dealt, On(w)));
    assert KvLayout.Placed(LayoutOn(merged, n, w), KvLayout.Mamba(g, i));
    assert KvLayout.NameOf(LayoutOn(merged, n, w), KvLayout.Mamba(g, i)) == x.name;
  }

  lemma FilteredAt(layers: seq<Layer>, w: set<Name>, x: Layer) returns (i: nat)
    requires x in layers && On(w)(x)
    ensures i < |Filter(layers, On(w))| && Names(Filter(layers, On(w)))[i] == x.name
  {
    FilterIn(layers, On(w), x);
    i := NameAt(Filter(layers, On(w)), x);
  }

  lemma TailPlaced(merged: seq<Layer>, n: int, w: set<Name>, x: Layer)
    requires Ready(merged) && n > 0 && x in TailOf(merged) && On(w)(x)
    ensures PlacedName(LayoutOn(merged, n, w), x.name)
  {
    var i := FilteredAt(TailOf(merged), w, x);
    assert KvLayout.NameOf(LayoutOn(merged, n, w), KvLayout.Tail(i)) == x.name;
  }

  lemma AttentionPlaced(merged: seq<Layer>, n: int, w: set<Name>, x: Layer)
    requires Ready(merged) && n > 0 && On(w)(x) && (x in MlaOf(merged) || x in IdxOf(merged))
    ensures PlacedName(LayoutOn(merged, n, w), x.name)
  {
    if x in MlaOf(merged) {
      var i := FilteredAt(MlaOf(merged), w, x);
      assert KvLayout.NameOf(LayoutOn(merged, n, w), KvLayout.Mla(i)) == x.name;
    } else {
      var i := FilteredAt(IdxOf(merged), w, x);
      assert KvLayout.NameOf(LayoutOn(merged, n, w), KvLayout.Idx(i)) == x.name;
    }
  }

  /** A layer that is neither Mamba nor tail is an MLA layer or an indexer. */
  lemma AttentionKinds(merged: seq<Layer>, x: Layer)
    requires Ready(merged) && x in merged && !x.spec.kind.Mamba? && !x.spec.kind.Tail?
    ensures x in MlaOf(merged) || x in IdxOf(merged)
  {
    FilterIn(merged, Attention(), x);
    var k :| 0 <= k < |AttentionOf(merged)| && AttentionOf(merged)[k] == x;
    FilterIn(AttentionOf(merged), OfKind(Mla), x);
    FilterIn(AttentionOf(merged), OfKind(Indexer), x);
  }

  lemma OtherPlaced(merged: seq<Layer>, n: int, w: set<Name>, x: Layer)
    requires Ready(merged) && n > 0 && x in merged && On(w)(x) && !x.spec.kind.Mamba?
    ensures PlacedName(LayoutOn(merged, n, w), x.name)
  {
    if x.spec.kind.Tail? {
      FilterIn(merged, OfKind(Tail), x);
      TailPlaced(merged, n, w, x);
    } else {
      AttentionKinds(merged, x);
      AttentionPlaced(merged, n, w, x);
    }
  }

  /** A worker's merged Mamba layers stand together, so the chosen count drops none of them. */
  lemma {:induction false} NothingDroppedOn(workers: seq<seq<Layer>>, stages: seq<Stage>, n: int, r: nat, j: nat)
    requires Staged(workers) && r < |workers|
    requires Suffices(MambaOf(Merged(workers)), MlaOf(Merged(workers)), stages, n)
    requires Serves(On(NamesIn(workers[r])), MambaOf(Merged(workers)), MlaOf(Merged(workers)), stages, j)
    ensures NothingDropped(MambaOf(Merged(workers)), MlaOf(Merged(workers)), On(NamesIn(workers[r])), n)
  {
    var merged, w := Merged(workers), NamesIn(workers[r]);
    MergedIsConsecutive(workers, w);
    SiftedConsecutive(merged, OfKind(Mamba), On(w));
    ChosenCountDropsNothing(MambaOf(merged), MlaOf(merged), stages, n, j, On(w));
  }

  /** Every layer of a recognized worker, Mamba layers included, has a memory slot in its plan: for any
      number of stages, any ranks per stage and any order of the workers. */
  lemma {:induction false} EveryLayerPlaced(workers: seq<seq<Layer>>, stages: seq<Stage>, n: int, r: nat, j: nat,
                                            x: Layer)
    requires Staged(workers) && Agree(workers) && r < |workers| && x in workers[r] && Ready(Merged(workers))
    requires Suffices(MambaOf(Merged(workers)), MlaOf(Merged(workers)), stages, n)
    requires Serves(On(NamesIn(workers[r])), MambaOf(Merged(workers)), MlaOf(Merged(workers)), stages, j)
    ensures PlacedName(LayoutOn(Merged(workers), n, NamesIn(workers[r])), x.name)
  {
    var merged, w := Merged(workers), NamesIn(workers[r]);
    MergedHas(workers, r, x);
    if x.spec.kind.Mamba? {
      FilterIn(merged, OfKind(Mamba), x);
      NothingDroppedOn(workers, stages, n, r, j);
      MambaPlaced(merged, n, w, x);
    } else {
      OtherPlaced(merged, n, w, x);
    }
  }

  lemma {:induction false} MergedHas(workers: seq<seq<Layer>>, r: nat, x: Layer)
    requires Agree(workers) && r < |workers| && x in workers[r]
    ensures x in Merged(workers)
  {
    MergedNames(workers, x.name);
    assert x.name in NamesIn(workers[r]);
    var y :| y in Merged(workers) && y.name == x.name;
    MergedFrom(workers, y);
    assert x in LayersOf(workers);
  }

  lemma {:induction false} MergedFrom(workers: seq<seq<Layer>>, y: Layer)
    requires y in Merged(workers)
    ensures y in LayersOf(workers)
  {
    if workers != [] {
      var rest, last := workers[..|workers| - 1], workers[|workers| - 1];
      MergeOneIn(Merged(rest), last);
      if y in Merged(rest) {
        MergedFrom(rest, y);
        assert forall k :: 0 <= k < |rest| ==> rest[k] == workers[k];
      } else {
        assert y in last;
      }
    }
  }

  lemma SameNameSame(merged: seq<Layer>, x: Layer, y: Layer)
    requires DistinctNames(merged) && x in merged && y in merged && x.name == y.name
    ensures x == y
  {
    var i :| 0 <= i < |merged| && merged[i] == x;
    var j :| 0 <= j < |merged| && merged[j] == y;
    assert i < j || i == j || j < i;
  }

  lemma {:induction false} DealtFrom(layers: seq<Layer>, g: int, n: int, x: Layer)
    requires n > 0 && x in DealtTo(layers, g, n)
    ensures x in layers
  {
    var j := |layers| - 1;
    if x in DealtTo(layers[..j], g, n) {
      DealtFrom(layers[..j], g, n, x);
    }
  }

  /** The layer at place i of a filtered list. */
  lemma {:induction false} LayerAt(layers: seq<Layer>, w: set<Name>, i: nat)
    requires i < |Filter(layers, On(w))|
    ensures Filter(layers, On(w))[i] in layers && Names(Filter(layers, On(w)))[i] == Filter(layers, On(w))[i].name
  {
    FilterIn(layers, On(w), Filter(layers, On(w))[i]);
  }

  /** Attention layers need no more than their page, and all of a kind have one page size. */
  lemma AttentionFits(merged: seq<Layer>, kind: Kind, x: Layer)
    requires Ready(merged) && OnePage(Filter(AttentionOf(merged), OfKind(kind)))
    requires x in Filter(AttentionOf(merged), OfKind(kind))
    ensures x in merged && x.spec.unpadded == Filter(AttentionOf(merged), OfKind(kind))[0].spec.Page()
  {
    FilterIn(AttentionOf(merged), OfKind(kind), x);
    FilterIn(merged, Attention(), x);
  }

  lemma TailFits(merged: seq<Layer>, w: set<Name>, i: nat)
    requires Ready(merged) && RecognizedOn(merged, w) && i < |Filter(TailOf(merged), On(w))|
    ensures Filter(TailOf(merged), On(w))[i] in merged
    ensures Filter(TailOf(merged), On(w))[i].spec.unpadded <= IdxOf(merged)[0].spec.Page()
  {
    var kept, page := Filter(TailOf(merged), On(w)), IdxOf(merged)[0].spec.Page();
    FilterIn(TailOf(merged), On(w), kept[i]);
    FilterIn(merged, OfKind(Tail), kept[i]);
    PadFilter(TailOf(merged), page, w);
    OnePageOn(IdxOf(merged), w);
    var tail := TailsOn(merged, w)[0];
    assert tail == ProjectGroup(Uniform(PadTo(TailOf(merged), page), true), w);
    assert tail.specs == PadTo(kept, page);
    assert tail.specs[i].spec.unpadded == kept[i].spec.unpadded && tail.specs[0].spec.unpadded == kept[0].spec.unpadded;
  }

  lemma {:induction false} MambaFits(merged: seq<Layer>, n: int, w: set<Name>, g: nat, i: nat)
    requires Ready(merged) && StateFits(merged) && 0 < n && g < n
    requires i < |Filter(DealtTo(MambaOf(merged), g, n), On(w))|
    ensures Filter(DealtTo(MambaOf(merged), g, n), On(w))[i] in merged
    ensures Filter(DealtTo(MambaOf(merged), g, n), On(w))[i].spec.unpadded <= MlaOf(merged)[0].spec.Page()
  {
    var x := Filter(DealtTo(MambaOf(merged), g, n), On(w))[i];
    LayerAt(DealtTo(MambaOf(merged), g, n), w, i);
    DealtFrom(MambaOf(merged), g, n, x);
    var k :| 0 <= k < |MambaOf(merged)| && MambaOf(merged)[k] == x;
    FilterIn(merged, OfKind(Mamba), x);
  }

  /** A layer needs no more than the page of the slot it is given, whosever slot that is. */
  lemma PlaceFits(merged: seq<Layer>, n: int, w: set<Name>, p: KvLayout.Place, x: Layer)
    requires Ready(merged) && n > 0 && StateFits(merged) && RecognizedOn(merged, w) && DistinctNames(merged)
    requires x in merged && KvLayout.Placed(LayoutOn(merged, n, w), p)
    requires KvLayout.NameOf(LayoutOn(merged, n, w), p) == x.name
    ensures x.spec.unpadded <= KvLayout.PageSize(LayoutOn(merged, n, w), p)
  {
    match p {
      case Mla(i) =>
        LayerAt(MlaOf(merged), w, i);
        AttentionFits(merged, Mla, Filter(MlaOf(merged), On(w))[i]);
        SameNameSame(merged, x, Filter(MlaOf(merged), On(w))[i]);
      case Idx(i) =>
        LayerAt(IdxOf(merged), w, i);
        AttentionFits(merged, Indexer, Filter(IdxOf(merged), On(w))[i]);
        SameNameSame(merged, x, Filter(IdxOf(merged), On(w))[i]);
      case Tail(i) =>
        LayerAt(TailOf(merged), w, i);
        TailFits(merged, w, i);
        SameNameSame(merged, x, Filter(TailOf(merged), On(w))[i]);
      case Mamba(g, i) =>
        LayerAt(DealtTo(MambaOf(merged), g, n), w, i);
        MambaFits(merged, n, w, g, i);
        SameNameSame(merged, x, Filter(DealtTo(MambaOf(merged), g, n), On(w))[i]);
    }
  }

  lemma {:induction false} MergedDistinct(workers: seq<seq<Layer>>)
    ensures DistinctNames(Merged(workers))
  {
    if workers != [] {
      MergedDistinct(workers[..|workers| - 1]);
      MergeOneIn(Merged(workers[..|workers| - 1]), workers[|workers| - 1]);
    }
  }

  /** Every layer of a recognized worker has a slot whose page holds it, shared or not. */
  lemma EveryLayerFits(workers: seq<seq<Layer>>, stages: seq<Stage>, n: int, r: nat, j: nat, x: Layer)
    returns (p: KvLayout.Place)
    requires Staged(workers) && Agree(workers) && r < |workers| && x in workers[r] && Ready(Merged(workers))
    requires Suffices(MambaOf(Merged(workers)), MlaOf(Merged(workers)), stages, n)
    requires Serves(On(NamesIn(workers[r])), MambaOf(Merged(workers)), MlaOf(Merged(workers)), stages, j)
    requires StateFits(Merged(workers)) && RecognizedOn(Merged(workers), NamesIn(workers[r]))
    ensures var l := LayoutOn(Merged(workers), n, NamesIn(workers[r]));
      KvLayout.Placed(l, p) && KvLayout.NameOf(l, p) == x.name && x.spec.unpadded <= KvLayout.PageSize(l, p)
  {
    var merged, w := Merged(workers), NamesIn(workers[r]);
    EveryLayerPlaced(workers, stages, n, r, j, x);
    p :| KvLayout.Placed(LayoutOn(merged, n, w), p) && KvLayout.NameOf(LayoutOn(merged, n, w), p) == x.name;
    MergedDistinct(workers);
    MergedHas(workers, r, x);
    PlaceFits(merged, n, w, p, x);
  }

  // ------------------------------------------------------------ no layer is left out of the groups

  ghost function ListedCount(gs: seq<Group>): nat {
    if gs == [] then 0 else ListedCount(gs[..|gs| - 1]) + |Listed(gs[|gs| - 1])|
  }

  lemma {:induction false} KindsSplit(layers: seq<Layer>)
    ensures |layers| == |Filter(layers, Attention())| + |Filter(layers, OfKind(Tail))| + |Filter(layers, OfKind(Mamba))|
  {
    if layers != [] { KindsSplit(layers[..|layers| - 1]); }
  }

  lemma {:induction false} ListedSnoc(gs: seq<Group>, g: Group)
    ensures ListedCount(gs + [g]) == ListedCount(gs) + |Listed(g)|
  {
    assert (gs + [g])[..|gs|] == gs;
  }

  lemma ListedStep(front: seq<Group>, ms: seq<Group>, c: nat)
    requires 0 < c <= |ms|
    ensures ListedCount(front + ms[..c]) == ListedCount(front + ms[..c - 1]) + |Listed(ms[c - 1])|
  {
    assert front + ms[..c] == front + ms[..c - 1] + [ms[c - 1]];
    ListedSnoc(front + ms[..c - 1], ms[c - 1]);
  }

  lemma {:induction false} ListedTotal(front: seq<Group>, ms: seq<Group>, f: nat -> int, c: nat)
    requires c <= |ms| && forall g: nat :: g < c ==> f(g) == |Listed(ms[g])|
    ensures ListedCount(front + ms[..c]) == ListedCount(front) + Total(f, c)
  {
    if c == 0 {
      assert front + ms[..0] == front;
    } else {
      ListedStep(front, ms, c);
      ListedTotal(front, ms, f, c - 1);
    }
  }

  lemma MambaCount(front: seq<Group>, merged: seq<Layer>, n: int, w: set<Name>)
    requires Ready(merged) && n > 0
    ensures ListedCount(front + MambasOn(merged, n, w)) == ListedCount(front) + |Filter(MambaOf(merged), On(w))|
  {
    var ms, f := MambasOn(merged, n, w), HeldBy(MambaOf(merged), n, On(w));
    forall g: nat | g < n ensures f(g) == |Listed(ms[g])| {
      assert ms[g] == ProjectGroup(MambaGroup(merged, n, g), w);
    }
    ListedTotal(front, ms, f, n);
    assert ms[..n] == ms;
    ProjectedTotal(MambaOf(merged), n, On(w));
  }

  /** The projected groups list as many layers as the worker holds: the planner's assertion that no layer
      is left out of the groups holds for this grouping, whatever the worker. */
  lemma {:induction false} NoLayerLeftOut(merged: seq<Layer>, n: int, w: set<Name>)
    requires Ready(merged) && n > 0
    ensures ListedCount(Project(Groups(merged, n), w)) == |Filter(merged, On(w))|
  {
    var a, ts, ms := AttentionOn(merged, w), TailsOn(merged, w), MambasOn(merged, n, w);
    ProjectionBuilt(merged, n, w);
    MambaCount([a] + ts, merged, n, w);
    FrontCount(merged, w);
    KindsOn(merged, w);
  }

  lemma {:induction false} KindsOn(merged: seq<Layer>, w: set<Name>)
    ensures |Filter(merged, On(w))|
      == |Filter(AttentionOf(merged), On(w))| + |Filter(TailOf(merged), On(w))| + |Filter(MambaOf(merged), On(w))|
  {
    KindsSplit(Filter(merged, On(w)));
    FilterSwap(merged, Attention(), On(w));
    FilterSwap(merged, OfKind(Tail), On(w));
    FilterSwap(merged, OfKind(Mamba), On(w));
  }

  lemma FrontCount(merged: seq<Layer>, w: set<Name>)
    requires Ready(merged)
    ensures ListedCount([AttentionOn(merged, w)] + TailsOn(merged, w))
      == |Filter(AttentionOf(merged), On(w))| + |Filter(TailOf(merged), On(w))|
  {
    var a, ts := AttentionOn(merged, w), TailsOn(merged, w);
    assert [a][..0] == [] && ListedCount([a]) == |Listed(a)| == |Filter(AttentionOf(merged), On(w))|;
    if TailOf(merged) == [] {
      assert [a] + ts == [a];
    } else {
      TailNamesOn(merged, w);
      assert [a] + ts == [a, ts[0]] && [a, ts[0]][..1] == [a];
      assert |Names(Listed(ts[0]))| == |Listed(ts[0])|;
    }
  }
}
