/** KV-cache groups as the planner passes them around: merging the workers' layers, projecting groups to
    a worker, recognizing the GLM-5.3-Flash grouping, and planning a worker's tensors. */
module KvGroups {
  import opened Lists
  import opened Wrappers
  import KvLayout

  datatype Kind = Mla | Indexer | Tail | Mamba | Other

  /** A layer's cache spec: its page bytes, what they are padded to, and a tag for everything else that
      tells specs apart. */
  datatype Spec = Spec(kind: Kind, unpadded: int, padded: Option<int>, tag: nat)
  {
    function Page(): int { if padded.Some? then padded.value else unpadded }
  }

  type Name = KvLayout.Name

  datatype Layer = Layer(name: Name, spec: Spec)

  function Names(layers: seq<Layer>): (ns: seq<Name>)
    ensures |ns| == |layers| && forall i :: 0 <= i < |ns| ==> ns[i] == layers[i].name
  {
    seq(|layers|, i requires 0 <= i < |layers| => layers[i].name)
  }

  function NamesIn(layers: seq<Layer>): set<Name> { set l | l in layers :: l.name }

  /** Layers of one kind. */
  function OfKind(kind: Kind): Layer -> bool { (l: Layer) => l.spec.kind == kind }

  /** Layers a worker holds, by name. */
  function On(worker: set<Name>): Layer -> bool { (l: Layer) => l.name in worker }

  ghost predicate DistinctNames(layers: seq<Layer>) {
    forall i, j :: 0 <= i < j < |layers| ==> layers[i].name != layers[j].name
  }

  // ------------------------------------------------------------ merging the workers' layers

  ghost function LayersOf(workers: seq<seq<Layer>>): set<Layer> {
    set r, l | 0 <= r < |workers| && l in workers[r] :: l
  }

  /** One spec per layer name over all workers. */
  ghost predicate Agree(workers: seq<seq<Layer>>) {
    forall x, y :: x in LayersOf(workers) && y in LayersOf(workers) && x.name == y.name ==> x == y
  }

  /** The layers of one more worker that are not known yet, in its order. */
  function MergeOne(merged: seq<Layer>, worker: seq<Layer>): seq<Layer> {
    if worker == [] then merged
    else
      var l := worker[|worker| - 1];
      var rest := MergeOne(merged, worker[..|worker| - 1]);
      if l.name in NamesIn(rest) then rest else rest + [l]
  }

  function Merged(workers: seq<seq<Layer>>): seq<Layer> {
    if workers == [] then [] else MergeOne(Merged(workers[..|workers| - 1]), workers[|workers| - 1])
  }

  lemma NamesSnoc(layers: seq<Layer>, l: Layer)
    ensures NamesIn(layers + [l]) == NamesIn(layers) + {l.name}
  {
  }

  lemma {:induction false} MergeOneIn(merged: seq<Layer>, worker: seq<Layer>)
    ensures NamesIn(MergeOne(merged, worker)) == NamesIn(merged) + NamesIn(worker)
    ensures forall l :: l in MergeOne(merged, worker) ==> l in merged || l in worker
    ensures DistinctNames(merged) ==> DistinctNames(MergeOne(merged, worker))
  {
    if worker != [] {
      var rest, l := worker[..|worker| - 1], worker[|worker| - 1];
      MergeOneIn(merged, rest);
      assert worker == rest + [l];
      NamesSnoc(rest, l);
      NamesSnoc(MergeOne(merged, rest), l);
    }
  }

  /** A worker whose layers are all known adds nothing. */
  lemma {:induction false} MergeKnown(merged: seq<Layer>, worker: seq<Layer>)
    requires NamesIn(worker) <= NamesIn(merged)
    ensures MergeOne(merged, worker) == merged
  {
    if worker != [] {
      var rest, l := worker[..|worker| - 1], worker[|worker| - 1];
      assert worker == rest + [l];
      NamesSnoc(rest, l);
      MergeKnown(merged, rest);
    }
  }

  /** A worker none of whose layers is known adds them all, in order. */
  lemma {:induction false} MergeNew(merged: seq<Layer>, worker: seq<Layer>)
    requires NamesIn(worker) !! NamesIn(merged) && DistinctNames(worker)
    ensures MergeOne(merged, worker) == merged + worker
  {
    if worker == [] {
      assert merged + worker == merged;
    } else {
      var rest, l := worker[..|worker| - 1], worker[|worker| - 1];
      assert worker == rest + [l];
      NamesSnoc(rest, l);
      MergeNew(merged, rest);
      assert merged + rest + [l] == merged + worker;
    }
  }

  /** The first layer of that name. */
  function Lookup(layers: seq<Layer>, name: Name): (r: Option<Layer>)
    ensures r.None? <==> name !in NamesIn(layers)
    ensures r.Some? ==> r.value in layers && r.value.name == name
  {
    if layers == [] then None
    else if layers[0].name == name then Some(layers[0])
    else
      assert layers == [layers[0]] + layers[1..];
      Lookup(layers[1..], name)
  }

  /** One worker's layers: known ones must have the spec they are known with. */
  method MergeWorker(merged: seq<Layer>, worker: seq<Layer>)
    returns (r: Option<seq<Layer>>, ghost clash: Option<(Layer, Layer)>)
    requires DistinctNames(merged)
    ensures r.Some? ==> r.value == MergeOne(merged, worker) && DistinctNames(r.value)
    ensures r.Some? ==> forall l :: l in r.value <==> l in merged || l in worker
    ensures r.None? ==> clash.Some? && clash.value.0 in worker && (clash.value.1 in merged || clash.value.1 in worker)
    ensures r.None? ==> clash.value.0.name == clash.value.1.name && clash.value.0 != clash.value.1
  {
    var all := merged;
    for i := 0 to |worker|
      invariant all == MergeOne(merged, worker[..i]) && DistinctNames(all)
      invariant forall l :: l in all <==> l in merged || l in worker[..i]
    {
      var l := worker[i];
      assert worker[..i + 1] == worker[..i] + [l] && l in worker;
      var known := Lookup(all, l.name);
      match known {
        case Some(x) =>
          if x.spec != l.spec {
            return None, Some((l, x));
          }
        case None =>
          all := all + [l];
      }
    }
    assert worker[..|worker|] == worker;
    r, clash := Some(all), None;
  }

  /** The merge over all workers; two specs for one name stop it. */
  method MergeSpecs(workers: seq<seq<Layer>>) returns (r: Result<seq<Layer>, Error>)
    ensures r.Success? <==> Agree(workers)
    ensures r.Success? ==> r.value == Merged(workers)
    ensures r.Failure? ==> r.error == AssertionError
  {
    var merged := [];
    for k := 0 to |workers|
      invariant merged == Merged(workers[..k]) && DistinctNames(merged)
      invariant forall l :: l in merged <==> l in LayersOf(workers[..k])
    {
      assert workers[..k + 1] == workers[..k] + [workers[k]];
      var one, clash := MergeWorker(merged, workers[k]);
      match one {
        case None =>
          assert clash.value.0 in LayersOf(workers) && clash.value.1 in LayersOf(workers);
          return Failure(AssertionError);
        case Some(all) =>
          LayersMore(workers[..k], workers[k]);
          merged := all;
      }
    }
    assert workers[..|workers|] == workers;
    r := Success(merged);
  }

  lemma LayersMore(workers: seq<seq<Layer>>, worker: seq<Layer>)
    ensures LayersOf(workers + [worker]) == LayersOf(workers) + set l | l in worker
  {
    var all := workers + [worker];
    forall l ensures l in LayersOf(all) <==> l in LayersOf(workers) || l in worker {
      if l in worker { assert all[|workers|] == worker; }
      if l in LayersOf(workers) {
        var r :| 0 <= r < |workers| && l in workers[r];
        assert all[r] == workers[r];
      }
    }
  }

  /** Workers hold the same layers (ranks of one pipeline stage) or none in common. */
  ghost predicate Staged(workers: seq<seq<Layer>>) {
    && (forall r :: 0 <= r < |workers| ==> DistinctNames(workers[r]))
    && forall r, r' :: 0 <= r < |workers| && 0 <= r' < |workers| ==>
         NamesIn(workers[r]) == NamesIn(workers[r']) || NamesIn(workers[r]) !! NamesIn(workers[r'])
  }

  lemma {:induction false} MergedNames(workers: seq<seq<Layer>>, x: Name)
    ensures x in NamesIn(Merged(workers)) <==> exists r :: 0 <= r < |workers| && x in NamesIn(workers[r])
  {
    if workers != [] {
      var rest := workers[..|workers| - 1];
      MergedNames(rest, x);
      MergeOneIn(Merged(rest), workers[|workers| - 1]);
      assert forall r :: 0 <= r < |rest| ==> rest[r] == workers[r];
    }
  }

  /** Every worker holds all of w or nothing of it. */
  ghost predicate Sided(workers: seq<seq<Layer>>, w: set<Name>) {
    forall r :: 0 <= r < |workers| ==> NamesIn(workers[r]) == w || NamesIn(workers[r]) !! w
  }

  /** A worker's layers are all known already or all new. */
  lemma {:induction false} KnownOrNew(workers: seq<seq<Layer>>, worker: seq<Layer>)
    requires Sided(workers, NamesIn(worker))
    ensures NamesIn(worker) <= NamesIn(Merged(workers)) || NamesIn(worker) !! NamesIn(Merged(workers))
  {
    if r :| 0 <= r < |workers| && NamesIn(workers[r]) == NamesIn(worker) {
      forall x | x in NamesIn(worker) ensures x in NamesIn(Merged(workers)) {
        MergedNames(workers, x);
      }
    } else {
      forall x | x in NamesIn(worker) ensures x !in NamesIn(Merged(workers)) {
        MergedNames(workers, x);
      }
    }
  }

  lemma CutAppended(s: seq<Layer>, w: set<Name>, more: seq<Layer>)
    requires Consecutive(s, On(w)) && NamesIn(more) !! w
    ensures Consecutive(s + more, On(w))
  {
    var lo: nat, hi: nat :| RunOf(s, On(w), lo, hi);
    forall k | 0 <= k < |s + more| ensures On(w)((s + more)[k]) <==> lo <= k < hi {
      if k >= |s| {
        assert (s + more)[k] == more[k - |s|] && more[k - |s|].name in NamesIn(more);
      } else {
        assert (s + more)[k] == s[k];
      }
    }
    assert RunOf(s + more, On(w), lo, hi);
  }

  lemma CutNew(s: seq<Layer>, w: set<Name>, more: seq<Layer>)
    requires NamesIn(s) !! w && NamesIn(more) == w
    ensures Consecutive(s + more, On(w))
  {
    forall i | 0 <= i < |s| ensures !On(w)(s[i]) {
      assert s[i].name in NamesIn(s);
    }
    forall i | 0 <= i < |more| ensures On(w)(more[i]) {
      assert more[i].name in NamesIn(more);
    }
    assert CutAround(s + more, On(w), s, more, []);
    CutIsRun(s + more, On(w), s, more, []);
  }

  /** In whatever order the workers come, the layers of each stand together in the merged list. */
  lemma {:induction false} MergedIsConsecutive(workers: seq<seq<Layer>>, w: set<Name>)
    requires Staged(workers) && Sided(workers, w)
    ensures Consecutive(Merged(workers), On(w))
  {
    if workers == [] {
      assert RunOf(Merged(workers), On(w), 0, 0);
    } else {
      var rest, last := workers[..|workers| - 1], workers[|workers| - 1];
      var before := Merged(rest);
      MergedIsConsecutive(rest, w);
      forall r | 0 <= r < |rest| ensures NamesIn(rest[r]) == NamesIn(last) || NamesIn(rest[r]) !! NamesIn(last) {
        assert rest[r] == workers[r];
      }
      KnownOrNew(rest, last);
      if NamesIn(last) <= NamesIn(before) {
        MergeKnown(before, last);
      } else {
        MergeNew(before, last);
        if NamesIn(last) == w { CutNew(before, w, last); } else { CutAppended(before, w, last); }
      }
    }
  }

  // ------------------------------------------------------------ groups and their projection

  /** A group holds its layers' own specs (Uniform) or one spec for all (Plain). A Uniform group none
      of whose layers are on the worker keeps its specs but lists no layers. */
  datatype Group = Uniform(specs: seq<Layer>, listed: bool) | Plain(spec: Spec, layers: seq<Layer>)

  function Listed(g: Group): seq<Layer> {
    match g
    case Uniform(specs, listed) => if listed then specs else []
    case Plain(_, layers) => layers
  }

  function ProjectGroup(g: Group, w: set<Name>): Group {
    var kept := Filter(Listed(g), On(w));
    match g
    case Uniform(specs, _) => if kept == [] then Uniform(specs, false) else Uniform(kept, true)
    case Plain(spec, _) => Plain(spec, kept)
  }

  function Project(gs: seq<Group>, w: set<Name>): (p: seq<Group>)
    ensures |p| == |gs| && forall i :: 0 <= i < |p| ==> p[i] == ProjectGroup(gs[i], w)
  {
    seq(|gs|, i requires 0 <= i < |gs| => ProjectGroup(gs[i], w))
  }

  // ------------------------------------------------------------ recognition

  predicate AllKind(specs: seq<Layer>, kinds: set<Kind>) {
    forall i :: 0 <= i < |specs| ==> specs[i].spec.kind in kinds
  }

  predicate IsAttention(g: Group) {
    g.Uniform? && AllKind(g.specs, {Mla, Indexer})
  }

  predicate IsTail(g: Group) {
    g.Uniform? && !IsAttention(g) && AllKind(g.specs, {Tail})
  }

  predicate IsMamba(g: Group) {
    g.Plain? && g.spec.kind == Mamba
  }

  /** The last attention group, as the loop over groups leaves it. */
  function LastAttention(gs: seq<Group>): (g: Option<Group>)
    ensures g.Some? ==> IsAttention(g.value)
  {
    if gs == [] then None
    else if IsAttention(gs[|gs| - 1]) then Some(gs[|gs| - 1])
    else LastAttention(gs[..|gs| - 1])
  }

  function LastTail(gs: seq<Group>): (g: Option<Group>)
    ensures g.Some? ==> IsTail(g.value)
  {
    if gs == [] then None
    else if IsTail(gs[|gs| - 1]) then Some(gs[|gs| - 1])
    else LastTail(gs[..|gs| - 1])
  }

  /** At least one layer, all with the same page size. */
  predicate OnePage(layers: seq<Layer>) {
    layers != [] && forall i :: 0 <= i < |layers| ==> layers[i].spec.Page() == layers[0].spec.Page()
  }

  predicate TailMatches(tail: Group, idx: seq<Layer>) {
    && tail.Uniform? && tail.specs != []
    && (forall i :: 0 <= i < |tail.specs| ==> tail.specs[i].spec.unpadded == tail.specs[0].spec.unpadded)
    && |Listed(tail)| == |idx| && idx != [] && tail.specs[0].spec.unpadded <= idx[0].spec.Page()
  }

  function Mambas(): Group -> bool { (g: Group) => IsMamba(g) }

  /** The names of the groups' layers, group by group. */
  function NameLists(gs: seq<Group>): (ns: seq<seq<Name>>)
    ensures |ns| == |gs| && forall g :: 0 <= g < |gs| ==> ns[g] == Names(Listed(gs[g]))
  {
    seq(|gs|, g requires 0 <= g < |gs| => Names(Listed(gs[g])))
  }

  predicate HasMamba(gs: seq<Group>) {
    exists i :: 0 <= i < |gs| && IsMamba(gs[i])
  }

  predicate OnlyUniformAndMamba(gs: seq<Group>) {
    forall i :: 0 <= i < |gs| ==> gs[i].Uniform? || IsMamba(gs[i])
  }

  predicate Unpadded(layers: seq<Layer>) {
    forall i :: 0 <= i < |layers| ==> layers[i].spec.padded.None?
  }

  predicate MambaPages(gs: seq<Group>, page: int) {
    forall i :: 0 <= i < |gs| && IsMamba(gs[i]) ==> gs[i].spec.Page() == page
  }

  /** What the layout planner is handed of an attention group, a tail group and the Mamba lists. */
  function LayoutFrom(mla: seq<Layer>, idx: seq<Layer>, tail: Option<Group>, mamba: seq<seq<Name>>): KvLayout.Glm5
    requires mla != [] && idx != []
  {
    KvLayout.Glm5(Names(mla), Names(idx), mla[0].spec.Page(), idx[0].spec.Page(), mamba,
                  if tail.Some? then Names(Listed(tail.value)) else [])
  }

  /** The attention group of the GLM-5.3-Flash grouping, and what the layout planner needs of it; none for
      any other grouping. */
  function Recognize(gs: seq<Group>): Option<(Group, KvLayout.Glm5)> {
    var attention := LastAttention(gs);
    var tail := LastTail(gs);
    if attention.None? || !HasMamba(gs) || !OnlyUniformAndMamba(gs) || !Unpadded(attention.value.specs) then None
    else
      var mla, idx := Filter(Listed(attention.value), OfKind(Mla)), Filter(Listed(attention.value), OfKind(Indexer));
      if !OnePage(mla) || !OnePage(idx) || !MambaPages(gs, mla[0].spec.Page()) then None
      else if tail.Some? && !TailMatches(tail.value, idx) then None
      else Some((attention.value, LayoutFrom(mla, idx, tail, NameLists(Filter(gs, Mambas())))))
  }

  /** Whatever groups are recognized, sharing slots is sound: MLA layers and Mamba states have the MLA page,
      indexers their own, and no tail is larger than an indexer page. */
  lemma {:induction false} RecognizedSound(gs: seq<Group>, g: Group, x: Layer)
    requires Recognize(gs).Some? && g in gs
    ensures var (a, l) := Recognize(gs).value;
      && (IsMamba(g) ==> g.spec.Page() == l.mlaPage)
      && (g.Uniform? || IsMamba(g)) && IsAttention(a)
      && (x in Listed(a) && x.spec.kind.Mla? ==> x.spec.padded.None? && x.spec.Page() == l.mlaPage)
      && (x in Listed(a) && x.spec.kind.Indexer? ==> x.spec.padded.None? && x.spec.Page() == l.idxPage)
      && (LastTail(gs).Some? && x in LastTail(gs).value.specs ==>
           x.spec.unpadded <= l.idxPage && |l.tail| == |l.idx|)
  {
    var a := LastAttention(gs).value;
    var k :| 0 <= k < |gs| && gs[k] == g;
    FilterIn(Listed(a), OfKind(Mla), x);
    FilterIn(Listed(a), OfKind(Indexer), x);
  }

  // ------------------------------------------------------------ bytes per block and a worker's plan

  /** Layers of a group sorted by spec, in the order the specs first appear. */
  datatype SpecLayers = SpecLayers(spec: Spec, names: seq<Name>)

  function AddToClass(classes: seq<SpecLayers>, l: Layer): seq<SpecLayers> {
    if classes == [] then [SpecLayers(l.spec, [l.name])]
    else if classes[0].spec == l.spec then [SpecLayers(l.spec, classes[0].names + [l.name])] + classes[1..]
    else [classes[0]] + AddToClass(classes[1..], l)
  }

  function Classes(layers: seq<Layer>): seq<SpecLayers> {
    if layers == [] then [] else AddToClass(Classes(layers[..|layers| - 1]), layers[|layers| - 1])
  }

  function SpecClasses(classes: seq<SpecLayers>): (cs: seq<KvLayout.SpecClass>)
    ensures |cs| == |classes|
  {
    seq(|classes|, i requires 0 <= i < |classes| => KvLayout.SpecClass(classes[i].spec.Page(), classes[i].names))
  }

  /** A group as the general layout planner reads it. */
  function Pack(g: Group): KvLayout.Packed {
    match g
    case Uniform(specs, listed) => KvLayout.Packed(SpecClasses(Classes(specs)), listed)
    case Plain(spec, layers) =>
      KvLayout.Packed(if layers == [] then [] else [KvLayout.SpecClass(spec.Page(), Names(layers))], true)
  }

  function PackAll(gs: seq<Group>): (ps: seq<KvLayout.Packed>)
    ensures |ps| == |gs| && forall i :: 0 <= i < |ps| ==> ps[i] == Pack(gs[i])
  {
    seq(|gs|, i requires 0 <= i < |gs| => Pack(gs[i]))
  }

  /** What the layout planner needs of a worker's groups: the shared slots if the grouping is recognized,
      the general packing, and the bytes of a block. */
  datatype View = View(shared: Option<KvLayout.Glm5>, packed: seq<KvLayout.Packed>, bytes: int)
  {
    ghost predicate Valid() {
      match shared
      case Some(l) => l.Valid() && bytes == l.BlockBytes()
      case None => KvLayout.ValidGroups(packed) && packed != [] && bytes == KvLayout.BytesPerBlock(packed)
    }
  }

  function ViewOf(gs: seq<Group>): View {
    match Recognize(gs)
    case Some(l) => View(Some(l.1), PackAll(gs), l.1.BlockBytes())
    case None => View(None, PackAll(gs), KvLayout.BytesPerBlock(PackAll(gs)))
  }

  function BytesPerBlock(gs: seq<Group>): int { ViewOf(gs).bytes }

  /** Bytes of the layers of a list. */
  function PageBytes(layers: seq<Layer>): int {
    if layers == [] then 0 else PageBytes(layers[..|layers| - 1]) + layers[|layers| - 1].spec.Page()
  }

  ghost predicate PositivePages(layers: seq<Layer>) {
    forall i :: 0 <= i < |layers| ==> layers[i].spec.Page() > 0
  }

  ghost predicate PositiveGroup(g: Group) {
    match g
    case Uniform(specs, _) => PositivePages(specs)
    case Plain(spec, _) => spec.Page() > 0
  }

  ghost predicate PositiveGroups(gs: seq<Group>) {
    forall i :: 0 <= i < |gs| ==> PositiveGroup(gs[i])
  }

  ghost function ClassBytes(classes: seq<SpecLayers>): int {
    if classes == [] then 0 else |classes[0].names| * classes[0].spec.Page() + ClassBytes(classes[1..])
  }

  ghost predicate ValidClasses(classes: seq<SpecLayers>) {
    forall i :: 0 <= i < |classes| ==> classes[i].names != [] && classes[i].spec.Page() > 0
  }

  lemma OneMoreName(n: nat, page: int)
    ensures (n + 1) * page == n * page + page
  {
  }

  lemma {:induction false} AddToClassBytes(classes: seq<SpecLayers>, l: Layer)
    ensures ClassBytes(AddToClass(classes, l)) == ClassBytes(classes) + l.spec.Page()
    ensures ValidClasses(classes) && l.spec.Page() > 0 ==> ValidClasses(AddToClass(classes, l))
  {
    if classes != [] {
      if classes[0].spec == l.spec {
        OneMoreName(|classes[0].names|, l.spec.Page());
        assert AddToClass(classes, l)[1..] == classes[1..];
      } else {
        AddToClassBytes(classes[1..], l);
        assert AddToClass(classes, l)[1..] == AddToClass(classes[1..], l);
        assert forall i :: 0 <= i < |classes[1..]| ==> classes[1..][i] == classes[i + 1];
      }
    }
  }

  lemma {:induction false} ClassesBytes(layers: seq<Layer>)
    ensures ClassBytes(Classes(layers)) == PageBytes(layers)
    ensures PositivePages(layers) ==> ValidClasses(Classes(layers))
  {
    if layers != [] {
      ClassesBytes(layers[..|layers| - 1]);
      AddToClassBytes(Classes(layers[..|layers| - 1]), layers[|layers| - 1]);
    }
  }

  /** Bytes of the classes from the front and from the back. */
  lemma {:induction false} SpecBytesFront(cs: seq<KvLayout.SpecClass>, n: nat)
    requires n < |cs|
    ensures KvLayout.SpecBytes(cs, n + 1) == |cs[0].layers| * cs[0].page + KvLayout.SpecBytes(cs[1..], n)
  {
    if n > 0 {
      SpecBytesFront(cs, n - 1);
      assert cs[1..][n - 1] == cs[n];
    }
  }

  lemma {:induction false} SpecClassesBytes(classes: seq<SpecLayers>)
    ensures KvLayout.SpecBytes(SpecClasses(classes), |classes|) == ClassBytes(classes)
  {
    if classes != [] {
      SpecClassesBytes(classes[1..]);
      SpecBytesFront(SpecClasses(classes), |classes| - 1);
      assert SpecClasses(classes)[1..] == SpecClasses(classes[1..]);
    }
  }

  /** Sorting a group's layers by spec does not change its bytes: the planner's block holds exactly the
      pages of the listed layers. */
  lemma HeldIsSum(g: Group)
    requires g.Uniform?
    ensures KvLayout.HeldBytes(Pack(g)) == PageBytes(Listed(g))
  {
    ClassesBytes(g.specs);
    SpecClassesBytes(Classes(g.specs));
  }

  lemma PackedValid(gs: seq<Group>)
    requires PositiveGroups(gs)
    ensures KvLayout.ValidGroups(PackAll(gs))
  {
    forall i | 0 <= i < |gs| ensures KvLayout.ValidGroup(PackAll(gs)[i]) {
      assert PositiveGroup(gs[i]);
      if gs[i].Uniform? { ClassesBytes(gs[i].specs); }
    }
  }

  lemma RecognizedValid(gs: seq<Group>)
    requires PositiveGroups(gs) && Recognize(gs).Some?
    ensures Recognize(gs).value.1.Valid()
  {
    var attention := LastAttention(gs);
    AttentionIn(gs);
    var g := attention.value;
    assert PositiveGroup(g);
    FirstPositive(Listed(g), OfKind(Mla));
    FirstPositive(Listed(g), OfKind(Indexer));
  }

  lemma {:induction false} AttentionIn(gs: seq<Group>)
    requires LastAttention(gs).Some?
    ensures LastAttention(gs).value in gs
  {
    if !IsAttention(gs[|gs| - 1]) { AttentionIn(gs[..|gs| - 1]); }
  }

  lemma {:induction false} FirstPositive(layers: seq<Layer>, keep: Layer -> bool)
    requires PositivePages(layers) && Filter(layers, keep) != []
    ensures Filter(layers, keep)[0].spec.Page() > 0
  {
    FilterIn(layers, keep, Filter(layers, keep)[0]);
  }

  lemma ViewValid(gs: seq<Group>)
    requires PositiveGroups(gs) && gs != []
    ensures ViewOf(gs).Valid()
  {
    PackedValid(gs);
    if Recognize(gs).Some? { RecognizedValid(gs); }
  }

  /** A worker's plan: slots shared by the recognized grouping, the general packing for any other. */
  ghost predicate WorkerPlanned(v: View, layout: KvLayout.Layout, c: KvLayout.Config) {
    && v.bytes > 0 && c.numBlocks >= 0
    && match v.shared
       case Some(l) => |c.tensors| == 1 && KvLayout.Holds(l, c.numBlocks, c.tensors[0], KvLayout.Everywhere())
       case None => KvLayout.Planned(v.packed, layout, c)
  }

  /** A worker whose general packing the layout cannot express. */
  ghost predicate Refused(v: View, layout: KvLayout.Layout) {
    v.shared.None? && !KvLayout.LayoutAccepted(layout, v.packed)
  }

  method PlanWorker(v: View, layout: KvLayout.Layout, available: nat, override: Option<nat>)
    returns (r: Result<KvLayout.Config, Error>)
    requires v.Valid()
    ensures r.Success? ==> WorkerPlanned(v, layout, r.value)
    ensures r.Success? ==> r.value.numBlocks == KvLayout.NumBlocks(available, v.bytes, override)
    ensures r == Failure(ValueError) <==> Refused(v, layout)
    ensures r == Failure(AssertionError) <==> !Refused(v, layout) && v.bytes <= 0
    ensures r.Success? || r == Failure(ValueError) || r == Failure(AssertionError)
  {
    match v.shared {
      case Some(l) =>
        var numBlocks, ts := KvLayout.PlanGlm5(l, available, override);
        return Success(KvLayout.Config(numBlocks, [ts]));
      case None =>
        r := KvLayout.PlanFromGroups(v.packed, layout, available, override);
    }
  }
}
