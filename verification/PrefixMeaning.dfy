/** What a block hash says about the request's own fields: tokens, media inputs, LoRA name, cache salt
    and prompt embeddings. */
module PrefixMeaning {
  import opened Arith
  import opened Wrappers
  import opened PrefixHash
  import opened Lists

  // ------------------------------------------------------------ media inputs of a block

  /** The media input covers a token of the range [a, b). */
  ghost predicate SharesToken(f: MmFeature, a: int, b: int) {
    exists p :: a <= p < b && HasToken(f, p)
  }

  predicate HasToken(f: MmFeature, p: int) { f.offset <= p < f.offset + f.length }

  /** Which media inputs a range of tokens meets, and where they start. */
  ghost function MediaOf(req: Request, a: int, b: int): set<(string, int)> {
    set f | f in req.mm && SharesToken(f, a, b) :: (f.id, f.offset as int)
  }

  ghost predicate ValidMedia(req: Request) {
    SortedDisjoint(req.mm) && forall f :: f in req.mm ==> f.length > 0
  }

  lemma OverlapsIsSharing(f: MmFeature, a: int, b: int)
    requires f.length > 0 && a < b
    ensures Overlaps(f, a, b) <==> SharesToken(f, a, b)
  {
    if Overlaps(f, a, b) {
      var p := Max(a, f.offset);
      assert a <= p < b && HasToken(f, p);
    }
  }

  /** The key of a media input that meets the range is among the keys, and nothing else is. */
  lemma {:induction false} KeysAre(mm: seq<MmFeature>, upto: nat, a: int, b: int, k: Key)
    requires upto <= |mm|
    ensures k in KeysBetween(mm, 0, upto, a, b) <==>
      exists j: nat :: j < upto && Overlaps(mm[j], a, b) && k == Media(mm[j].id, mm[j].offset - a)
  {
    if upto > 0 {
      KeysAre(mm, upto - 1, a, b, k);
    }
  }

  ghost predicate Increasing(ks: seq<Key>) {
    && (forall i :: 0 <= i < |ks| ==> ks[i].Media?)
    && (forall i, j :: 0 <= i < j < |ks| ==> ks[i].offset < ks[j].offset)
  }

  lemma {:induction false} KeysIncrease(mm: seq<MmFeature>, upto: nat, a: int, b: int)
    requires SortedDisjoint(mm) && upto <= |mm| && forall f :: f in mm ==> f.length > 0
    ensures Increasing(KeysBetween(mm, 0, upto, a, b))
    ensures forall k :: k in KeysBetween(mm, 0, upto, a, b) && upto < |mm| ==>
      k.Media? && k.offset < mm[upto].offset - a
  {
    if upto > 0 {
      KeysIncrease(mm, upto - 1, a, b);
      var rest := KeysBetween(mm, 0, upto - 1, a, b);
      assert mm[upto - 1] in mm;
      if upto < |mm| {
        assert End(mm[upto - 1]) <= mm[upto].offset;
      }
    }
  }

  ghost function Elements(ks: seq<Key>): set<Key> { set k | k in ks }

  /** Lists in increasing order are determined by their elements. */
  lemma {:induction false} SameElements(ks: seq<Key>, ks': seq<Key>)
    requires Increasing(ks) && Increasing(ks') && Elements(ks) == Elements(ks')
    ensures ks == ks'
  {
    if ks == [] {
      if ks' != [] { FirstIsElement(ks'); }
    } else {
      var n, n' := |ks| - 1, |ks'| - 1;
      assert ks[n] in Elements(ks) && ks' != [];
      SameLast(ks, ks');
      RestOf(ks);
      RestOf(ks');
      SameElements(ks[..n], ks'[..n']);
      assert ks == ks[..n] + [ks[n]] && ks' == ks'[..n'] + [ks'[n']];
    }
  }

  lemma FirstIsElement(ks: seq<Key>)
    requires ks != []
    ensures Elements(ks) != {}
  {
    assert ks[0] in Elements(ks);
  }

  lemma SameLast(ks: seq<Key>, ks': seq<Key>)
    requires Increasing(ks) && Increasing(ks') && ks != [] && ks' != [] && Elements(ks) == Elements(ks')
    ensures ks[|ks| - 1] == ks'[|ks'| - 1]
  {
    var x, y := ks[|ks| - 1], ks'[|ks'| - 1];
    assert x in Elements(ks) && y in Elements(ks');
    assert x in ks' && y in ks;
  }

  lemma RestOf(ks: seq<Key>)
    requires Increasing(ks) && ks != []
    ensures Elements(ks[..|ks| - 1]) == Elements(ks) - {ks[|ks| - 1]}
  {
    assert ks == ks[..|ks| - 1] + [ks[|ks| - 1]];
  }

  lemma MediaIn(req: Request, a: int, b: int, id: string, at: int)
    requires ValidMedia(req) && a < b
    ensures (id, at) in MediaOf(req, a, b) <==> Media(id, at - a) in OverlapKeys(req.mm, 0, a, b)
  {
    KeysAre(req.mm, |req.mm|, a, b, Media(id, at - a));
    forall f | f in req.mm ensures Overlaps(f, a, b) <==> SharesToken(f, a, b) {
      OverlapsIsSharing(f, a, b);
    }
    if Media(id, at - a) in OverlapKeys(req.mm, 0, a, b) {
      var j: nat :| j < |req.mm| && Overlaps(req.mm[j], a, b)
        && Media(id, at - a) == Media(req.mm[j].id, req.mm[j].offset - a);
      assert req.mm[j] in req.mm;
    }
  }

  /** The media inputs of a range can be read off its keys. */
  lemma MediaRead(r: Request, a: int, b: int)
    requires ValidMedia(r) && a < b
    ensures Increasing(OverlapKeys(r.mm, 0, a, b))
    ensures forall id, at :: (id, at) in MediaOf(r, a, b) <==> Media(id, at - a) in OverlapKeys(r.mm, 0, a, b)
    ensures OverlapKeys(r.mm, 0, a, b) == [] <==> MediaOf(r, a, b) == {}
  {
    var ks := OverlapKeys(r.mm, 0, a, b);
    KeysIncrease(r.mm, |r.mm|, a, b);
    forall id, at ensures (id, at) in MediaOf(r, a, b) <==> Media(id, at - a) in ks {
      MediaIn(r, a, b, id, at);
    }
    if ks != [] {
      assert (ks[0].id, ks[0].offset + a) in MediaOf(r, a, b);
    }
  }

  lemma SameSets(m: set<(string, int)>, ks: seq<Key>, ks': seq<Key>, a: int)
    requires Increasing(ks) && Increasing(ks')
    requires forall id, at :: (id, at) in m <==> Media(id, at - a) in ks
    requires forall id, at :: (id, at) in m <==> Media(id, at - a) in ks'
    ensures ks == ks'
  {
    forall k ensures k in Elements(ks) <==> k in Elements(ks') {
      if k.Media? {
        assert (k.id, k.offset + a) in m <==> k in ks;
        assert (k.id, k.offset + a) in m <==> k in ks';
      }
    }
    SameElements(ks, ks');
  }

  /** Two blocks have the same media keys exactly when they meet the same media inputs. */
  lemma SameMediaKeys(r: Request, r': Request, a: int, b: int)
    requires ValidMedia(r) && ValidMedia(r') && a < b
    ensures OverlapKeys(r.mm, 0, a, b) == OverlapKeys(r'.mm, 0, a, b) <==> MediaOf(r, a, b) == MediaOf(r', a, b)
    ensures OverlapKeys(r.mm, 0, a, b) == [] <==> MediaOf(r, a, b) == {}
    ensures Increasing(OverlapKeys(r.mm, 0, a, b))
  {
    MediaRead(r, a, b);
    MediaRead(r', a, b);
    if MediaOf(r, a, b) == MediaOf(r', a, b) {
      SameSets(MediaOf(r, a, b), OverlapKeys(r.mm, 0, a, b), OverlapKeys(r'.mm, 0, a, b), a);
    }
  }

  // ------------------------------------------------------------ a block's key list

  ghost predicate Label(ks: seq<Key>) { |ks| <= 1 && forall i :: 0 <= i < |ks| ==> ks[i].Str? }

  ghost predicate Vectors(ks: seq<Key>) { |ks| <= 1 && forall i :: 0 <= i < |ks| ==> ks[i].Embeds? }

  function IsMedia(): Key -> bool { (k: Key) => k.Media? }

  function IsStr(): Key -> bool { (k: Key) => k.Str? }

  function IsEmbeds(): Key -> bool { (k: Key) => k.Embeds? }

  /** The list's keys, kind by kind. */
  lemma {:induction false} Kinds(l: seq<Key>, m: seq<Key>, s: seq<Key>, e: seq<Key>, keep: Key -> bool)
    ensures Filter(l + m + s + e, keep) == Filter(l, keep) + Filter(m, keep) + Filter(s, keep) + Filter(e, keep)
  {
    FilterConcat(l + m + s, e, keep);
    FilterConcat(l + m, s, keep);
    FilterConcat(l, m, keep);
  }

  lemma {:induction false} MediaOfList(l: seq<Key>, m: seq<Key>, s: seq<Key>, e: seq<Key>)
    requires Label(l) && Increasing(m) && Label(s) && Vectors(e)
    ensures Filter(l + m + s + e, IsMedia()) == m
  {
    Kinds(l, m, s, e, IsMedia());
    LabelKinds(l);
    LabelKinds(s);
    MediaKinds(m);
    VectorKinds(e);
  }

  lemma {:induction false} VectorsOfList(l: seq<Key>, m: seq<Key>, s: seq<Key>, e: seq<Key>)
    requires Label(l) && Increasing(m) && Label(s) && Vectors(e)
    ensures Filter(l + m + s + e, IsEmbeds()) == e
  {
    Kinds(l, m, s, e, IsEmbeds());
    LabelKinds(l);
    LabelKinds(s);
    MediaKinds(m);
    VectorKinds(e);
  }

  lemma {:induction false} LabelsOfList(l: seq<Key>, m: seq<Key>, s: seq<Key>, e: seq<Key>)
    requires Label(l) && Increasing(m) && Label(s) && Vectors(e)
    ensures Filter(l + m + s + e, IsStr()) == l + s
  {
    Kinds(l, m, s, e, IsStr());
    LabelKinds(l);
    LabelKinds(s);
    MediaKinds(m);
    VectorKinds(e);
    WithoutGaps(l, s);
  }

  lemma WithoutGaps(l: seq<Key>, s: seq<Key>)
    ensures l + [] + s + [] == l + s
  {
  }

  lemma {:induction false} LabelKinds(l: seq<Key>)
    requires Label(l)
    ensures Filter(l, IsStr()) == l && Filter(l, IsMedia()) == [] && Filter(l, IsEmbeds()) == []
  {
    FilterAll(l, IsStr());
    FilterNone(l, IsMedia());
    FilterNone(l, IsEmbeds());
  }

  lemma {:induction false} MediaKinds(m: seq<Key>)
    requires Increasing(m)
    ensures Filter(m, IsMedia()) == m && Filter(m, IsStr()) == [] && Filter(m, IsEmbeds()) == []
  {
    FilterAll(m, IsMedia());
    FilterNone(m, IsStr());
    FilterNone(m, IsEmbeds());
  }

  lemma {:induction false} VectorKinds(e: seq<Key>)
    requires Vectors(e)
    ensures Filter(e, IsEmbeds()) == e && Filter(e, IsStr()) == [] && Filter(e, IsMedia()) == []
  {
    FilterAll(e, IsEmbeds());
    FilterNone(e, IsStr());
    FilterNone(e, IsMedia());
  }

  /** In front of a media key a label is the first key. */
  lemma LabelInFront(l: seq<Key>, m: seq<Key>, s: seq<Key>, e: seq<Key>)
    requires Label(l) && Increasing(m) && m != []
    ensures l + m + s + e != []
    ensures l == if (l + m + s + e)[0].Str? then [(l + m + s + e)[0]] else []
  {
    assert (l + m + s + e)[0] == if l == [] then m[0] else l[0];
  }

  /** LoRA name, media keys, salt and embeddings can be read back off the list, but for one case: with no
      media key between them a lone name and a lone salt look alike. */
  lemma ListReadBack(l: seq<Key>, m: seq<Key>, s: seq<Key>, e: seq<Key>,
                     l': seq<Key>, m': seq<Key>, s': seq<Key>, e': seq<Key>)
    requires Label(l) && Increasing(m) && Label(s) && Vectors(e)
    requires Label(l') && Increasing(m') && Label(s') && Vectors(e')
    ensures l + m + s + e == l' + m' + s' + e' <==>
      m == m' && e == e' && l + s == l' + s' && (m == [] || l == l')
  {
    if l + m + s + e == l' + m' + s' + e' {
      MediaOfList(l, m, s, e);
      MediaOfList(l', m', s', e');
      VectorsOfList(l, m, s, e);
      VectorsOfList(l', m', s', e');
      LabelsOfList(l, m, s, e);
      LabelsOfList(l', m', s', e');
      if m != [] {
        LabelInFront(l, m, s, e);
        LabelInFront(l', m', s', e');
      }
    }
    if m == m' && e == e' && l + s == l' + s' && (m == [] || l == l') {
      assert m == [] ==> l + m == l && l' + m' == l';
      assert l == l' ==> s == (l + s)[|l|..] == s';
    }
  }

  // ------------------------------------------------------------ requests

  function LoraKey(r: Request): seq<Key> { if r.lora.Some? then [Str(r.lora.value)] else [] }

  function SaltKey(r: Request): seq<Key> { if r.salt != "" then [Str(r.salt)] else [] }

  /** Embedding rows before position n. */
  function EmbedRows(r: Request, n: nat): Option<seq<int>> {
    if r.embeds.None? then None else Some(r.embeds.value[..Min(n, |r.embeds.value|)])
  }

  /** Embedding rows of a block. */
  ghost predicate SameBlockRows(r: Request, r': Request, a: nat, b: nat)
    requires a <= b
  {
    && (r.embeds.Some? <==> r'.embeds.Some?)
    && (r.embeds.Some? ==> Clamp(r.embeds.value, a, b) == Clamp(r'.embeds.value, a, b))
  }

  lemma RowsSplit(s: seq<int>, a: nat, b: nat)
    requires a <= b
    ensures s[..Min(b, |s|)] == s[..Min(a, |s|)] + Clamp(s, a, b)
    ensures Clamp(s[..Min(b, |s|)], a, b) == Clamp(s, a, b)
    ensures s[..Min(b, |s|)][..Min(a, |s[..Min(b, |s|)]|)] == s[..Min(a, |s|)]
  {
  }

  lemma NextRows(s: seq<int>, s': seq<int>, a: nat, b: nat)
    requires a <= b
    ensures s[..Min(b, |s|)] == s'[..Min(b, |s'|)] <==>
      s[..Min(a, |s|)] == s'[..Min(a, |s'|)] && Clamp(s, a, b) == Clamp(s', a, b)
  {
    RowsSplit(s, a, b);
    RowsSplit(s', a, b);
  }

  /** The extra keys of a block agree exactly when its media inputs and embedding rows do, the LoRA name
      does, and in the first block the salt does, up to the one case above. */
  lemma SameBlockKeys(r: Request, r': Request, h: nat, b: nat)
    requires ValidMedia(r) && ValidMedia(r') && h > 0
    ensures b * h < (b + 1) * h
    ensures BlockKeys(r, 0, h, b) == BlockKeys(r', 0, h, b) <==>
      && MediaOf(r, b * h, (b + 1) * h) == MediaOf(r', b * h, (b + 1) * h)
      && SameBlockRows(r, r', b * h, (b + 1) * h)
      && (if b > 0 then r.lora == r'.lora else SameLabels(r, r', h))
  {
    var lo, hi := b * h, (b + 1) * h;
    assert hi == lo + h && (b > 0 ==> lo > 0) by { if b > 0 { MulMono(1, b, h); } }
    SameMediaKeys(r, r', lo, hi);
    SameMediaKeys(r', r, lo, hi);
    KeyLists(r, r', lo, hi);
  }

  /** A name and a salt told apart as far as the first block can. */
  ghost predicate SameLabels(r: Request, r': Request, h: nat) {
    LoraKey(r) + SaltKey(r) == LoraKey(r') + SaltKey(r') && (MediaOf(r, 0, h) == {} || r.lora == r'.lora)
  }

  lemma KeyLists(r: Request, r': Request, a: nat, b: nat)
    requires a < b && Increasing(OverlapKeys(r.mm, 0, a, b)) && Increasing(OverlapKeys(r'.mm, 0, a, b))
    ensures ExtraKeys(r, 0, a, b) == ExtraKeys(r', 0, a, b) <==>
      && OverlapKeys(r.mm, 0, a, b) == OverlapKeys(r'.mm, 0, a, b)
      && SameBlockRows(r, r', a, b)
      && (a > 0 ==> r.lora == r'.lora)
      && (a == 0 ==> LoraKey(r) + SaltKey(r) == LoraKey(r') + SaltKey(r'))
      && (a == 0 ==> OverlapKeys(r.mm, 0, a, b) == [] || r.lora == r'.lora)
  {
    var none: seq<Key> := [];
    var s, s' := if a == 0 then SaltKey(r) else none, if a == 0 then SaltKey(r') else none;
    var e := if r.embeds.Some? then [Embeds(Clamp(r.embeds.value, a, b))] else none;
    var e' := if r'.embeds.Some? then [Embeds(Clamp(r'.embeds.value, a, b))] else none;
    ListReadBack(LoraKey(r), OverlapKeys(r.mm, 0, a, b), s, e, LoraKey(r'), OverlapKeys(r'.mm, 0, a, b), s', e');
    assert LoraKey(r) == LoraKey(r') <==> r.lora == r'.lora;
    assert e == e' <==> SameBlockRows(r, r', a, b);
    if a > 0 {
      assert LoraKey(r) + s == LoraKey(r) && LoraKey(r') + s' == LoraKey(r');
    }
  }

  /** One request has a LoRA name and no salt, the other that name as its salt and no LoRA. */
  ghost predicate Exchanged(r: Request, r': Request) {
    r.lora.Some? && r.salt == "" && r'.lora.None? && r'.salt == r.lora.value != ""
  }

  /** LoRA name and salt agree, or are exchanged and only the first block, without media, is looked at. */
  ghost predicate LabelsAgree(r: Request, r': Request, h: nat, n: nat) {
    || (r.lora == r'.lora && r.salt == r'.salt)
    || (n == 1 && MediaOf(r, 0, h) == {} && (Exchanged(r, r') || Exchanged(r', r)))
  }

  lemma LabelCases(r: Request, r': Request, h: nat)
    ensures SameLabels(r, r', h) <==> LabelsAgree(r, r', h, 1)
    ensures SameLabels(r, r', h) && r.lora == r'.lora <==> r.lora == r'.lora && r.salt == r'.salt
  {
    var x, x' := LoraKey(r) + SaltKey(r), LoraKey(r') + SaltKey(r');
    if x == x' {
      assert |x| == |x'|;
      if r.lora.Some? { assert x[0] == Str(r.lora.value); } else if r.salt != "" { assert x[0] == Str(r.salt); }
      if r'.lora.Some? { assert x'[0] == Str(r'.lora.value); } else if r'.salt != "" { assert x'[0] == Str(r'.salt); }
      if |x| == 2 { assert x[1] == Str(r.salt) && x'[1] == Str(r'.salt); }
    }
  }

  /** The first n blocks of two requests agree in every field a hash is to tell apart. */
  ghost predicate SameFields(r: Request, r': Request, h: nat, n: nat)
    requires n * h <= |r.tokens| && n * h <= |r'.tokens|
  {
    && r.tokens[..n * h] == r'.tokens[..n * h]
    && (forall b: nat :: b < n ==> SameMedia(r, r', h, b))
    && EmbedRows(r, n * h) == EmbedRows(r', n * h)
    && LabelsAgree(r, r', h, n)
  }

  ghost predicate SameMedia(r: Request, r': Request, h: nat, b: nat) {
    MediaOf(r, b * h, (b + 1) * h) == MediaOf(r', b * h, (b + 1) * h)
  }

  ghost predicate SameKeys(r: Request, r': Request, h: nat, b: nat) {
    BlockKeys(r, 0, h, b) == BlockKeys(r', 0, h, b)
  }

  ghost predicate SameRows(r: Request, r': Request, h: nat, b: nat) {
    assert b * h <= (b + 1) * h;
    SameBlockRows(r, r', b * h, (b + 1) * h)
  }

  /** Embedding rows agree block by block exactly when all rows before the end do. */
  lemma {:induction false} SameAllRows(r: Request, r': Request, h: nat, n: nat)
    requires n >= 1
    ensures (forall b: nat :: b < n ==> SameRows(r, r', h, b)) <==> EmbedRows(r, n * h) == EmbedRows(r', n * h)
  {
    RowsUpto(r, r', h, n);
    if n > 1 {
      SameAllRows(r, r', h, n - 1);
      assert (forall b: nat :: b < n ==> SameRows(r, r', h, b)) <==>
        (forall b: nat :: b < n - 1 ==> SameRows(r, r', h, b)) && SameRows(r, r', h, n - 1);
    }
  }

  lemma RowsUpto(r: Request, r': Request, h: nat, n: nat)
    requires n >= 1
    ensures EmbedRows(r, n * h) == EmbedRows(r', n * h) <==>
      (n > 1 ==> EmbedRows(r, (n - 1) * h) == EmbedRows(r', (n - 1) * h)) && SameRows(r, r', h, n - 1)
  {
    var e, e' := r.embeds, r'.embeds;
    assert (n - 1) * h <= n * h;
    if e.Some? && e'.Some? {
      NextRows(e.value, e'.value, (n - 1) * h, n * h);
      assert n == 1 ==> e.value[..Min(0, |e.value|)] == e'.value[..Min(0, |e'.value|)];
    }
  }

  /** What makes the keys of block b agree. */
  ghost predicate SameBlock(r: Request, r': Request, h: nat, b: nat) {
    SameMedia(r, r', h, b) && SameRows(r, r', h, b) && (if b > 0 then r.lora == r'.lora else SameLabels(r, r', h))
  }

  /** The extra keys of the first n blocks, field by field. */
  lemma SameAllKeys(r: Request, r': Request, h: nat, n: nat)
    requires ValidMedia(r) && ValidMedia(r') && h > 0 && n >= 1
    ensures (forall b: nat :: b < n ==> SameKeys(r, r', h, b)) <==>
      && (forall b: nat :: b < n ==> SameMedia(r, r', h, b))
      && EmbedRows(r, n * h) == EmbedRows(r', n * h)
      && LabelsAgree(r, r', h, n)
  {
    forall b: nat | b < n ensures SameKeys(r, r', h, b) <==> SameBlock(r, r', h, b) {
      SameBlockKeys(r, r', h, b);
    }
    SameAllRows(r, r', h, n);
    SplitBlocks(r, r', h, n);
    LabelCases(r, r', h);
  }

  lemma SplitBlocks(r: Request, r': Request, h: nat, n: nat)
    requires n >= 1
    ensures (forall b: nat :: b < n ==> SameBlock(r, r', h, b)) <==>
      && (forall b: nat :: b < n ==> SameMedia(r, r', h, b)) && (forall b: nat :: b < n ==> SameRows(r, r', h, b))
      && SameLabels(r, r', h) && (n > 1 ==> r.lora == r'.lora)
  {
    if forall b: nat :: b < n ==> SameBlock(r, r', h, b) {
      assert SameBlock(r, r', h, 0);
      assert n > 1 ==> SameBlock(r, r', h, 1);
      forall b: nat | b < n ensures SameMedia(r, r', h, b) && SameRows(r, r', h, b) {
        assert SameBlock(r, r', h, b);
      }
    }
  }

  lemma SamePrefixSameFields(r: Request, r': Request, h: nat, n: nat)
    requires ValidMedia(r) && ValidMedia(r') && h > 0 && n >= 1 && n * h <= |r.tokens| && n * h <= |r'.tokens|
    ensures SamePrefix(r, r', h, n) <==> SameFields(r, r', h, n)
  {
    SameAllKeys(r, r', h, n);
    if SamePrefix(r, r', h, n) {
      assert forall b: nat :: b < n ==> SameKeys(r, r', h, b);
    }
    if SameFields(r, r', h, n) {
      forall b | 0 <= b < n ensures BlockKeys(r, 0, h, b) == BlockKeys(r', 0, h, b) {
        assert SameKeys(r, r', h, b);
      }
    }
  }

  /** Under an injective hash two requests have the same hash for block n - 1 exactly when the fields of
      their first n blocks agree: tokens, media inputs and where they start, embedding rows, LoRA name and
      salt, the last two up to an exchange that only the first block can miss. */
  lemma HashIdentifiesRequest(hf: HashFn, none: int, h: nat, r: Request, r': Request, n: nat)
    requires Injective(hf) && ValidMedia(r) && ValidMedia(r') && h > 0 && n >= 1
    requires n * h <= |r.tokens| && n * h <= |r'.tokens|
    ensures LastOr(Full(hf, none, r, h, n), none) == LastOr(Full(hf, none, r', h, n), none) <==> SameFields(r, r', h, n)
  {
    HashIdentifiesPrefix(hf, none, h, r, r', n);
    SamePrefixSameFields(r, r', h, n);
  }

  /** Requests that differ in the LoRA name alone, or in the salt alone, share no block hash. */
  lemma LabelsSeparate(hf: HashFn, none: int, h: nat, r: Request, r': Request, n: nat)
    requires Injective(hf) && ValidMedia(r) && ValidMedia(r') && h > 0 && n >= 1
    requires n * h <= |r.tokens| && n * h <= |r'.tokens|
    requires (r.lora == r'.lora && r.salt != r'.salt) || (r.lora != r'.lora && r.salt == r'.salt)
    ensures LastOr(Full(hf, none, r, h, n), none) != LastOr(Full(hf, none, r', h, n), none)
  {
    HashIdentifiesRequest(hf, none, h, r, r', n);
  }

  /** A LoRA name and an equal salt give the same first block and different blocks from there on. */
  lemma NameLooksLikeSalt(hf: HashFn, none: int, h: nat, r: Request, name: string, n: nat)
    requires Injective(hf) && ValidMedia(r) && h > 0 && n >= 1 && n * h <= |r.tokens|
    requires r.lora.None? && r.salt == "" && name != "" && MediaOf(r, 0, h) == {}
    ensures var named, salted := r.(lora := Some(name)), r.(salt := name);
      LastOr(Full(hf, none, named, h, n), none) == LastOr(Full(hf, none, salted, h, n), none) <==> n == 1
  {
    var named, salted := r.(lora := Some(name)), r.(salt := name);
    HashIdentifiesRequest(hf, none, h, named, salted, n);
    assert forall a, b :: MediaOf(named, a, b) == MediaOf(r, a, b) == MediaOf(salted, a, b);
  }

  /** So does entry idx of the coarser view, for the tokens up to its own end. */
  lemma CoarseViewIdentifiesRequest(hf: HashFn, none: int, h: nat, scale: nat, r: Request, r': Request, n: nat,
                                    n': nat, idx: nat)
    requires Injective(hf) && ValidMedia(r) && ValidMedia(r') && h > 0 && scale > 0
    requires n * h <= |r.tokens| && n' * h <= |r'.tokens| && idx < n / scale && idx < n' / scale
    ensures (idx + 1) * scale * h <= |r.tokens| && (idx + 1) * scale * h <= |r'.tokens|
    ensures var view, view' := View(Full(hf, none, r, h, n), scale), View(Full(hf, none, r', h, n'), scale);
      view.ValueAt(idx) == view'.ValueAt(idx) <==> SameFields(r, r', h, (idx + 1) * scale)
  {
    CoarseViewIdentifiesPrefix(hf, none, h, scale, r, r', n, n', idx);
    MulMono(1, idx + 1, scale);
    SamePrefixSameFields(r, r', h, (idx + 1) * scale);
  }

  /** Some media input but the last has a token in block b. */
  ghost predicate EarlierMediaIn(req: Request, h: nat, b: nat) {
    exists j: nat :: j < |req.mm| - 1 && SharesToken(req.mm[j], b * h, (b + 1) * h)
  }

  lemma MissesExactly(req: Request, h: nat, b: nat)
    requires ValidMedia(req) && h > 0
    ensures MissesEarlier(req, h, b) <==> EarlierMediaIn(req, h, b)
  {
    assert (b + 1) * h == b * h + h;
    forall j: nat | j < |req.mm|
      ensures Overlaps(req.mm[j], b * h, (b + 1) * h) <==> SharesToken(req.mm[j], b * h, (b + 1) * h)
    {
      assert req.mm[j] in req.mm;
      OverlapsIsSharing(req.mm[j], b * h, (b + 1) * h);
    }
  }

  /** A resumed call goes wrong exactly when a block it hashes has a token of a media input other than the
      last. */
  lemma ResumeSafeExactly(req: Request, h: nat, known: nat, total: nat)
    requires ValidMedia(req) && h > 0
    ensures ResumeSafe(req, h, known, total) <==>
      known == 0 || forall b: nat :: known <= b < total ==> !EarlierMediaIn(req, h, b)
  {
    forall b: nat ensures MissesEarlier(req, h, b) <==> EarlierMediaIn(req, h, b) {
      MissesExactly(req, h, b);
    }
  }
}
