/** The intrusive doubly linked list of free KV-cache blocks, refined to a sequence. */
module FreeBlockQueue {
  import opened Wrappers

  datatype QueueError = NoFreeBlocks | InvalidBlock | NotEnoughBlocks

  class KVCacheBlock {
    const blockId: int
    var prev: KVCacheBlock?
    var next: KVCacheBlock?

    constructor (id: int)
      ensures blockId == id && prev == null && next == null
    {
      blockId := id;
      prev, next := null, null;
    }
  }

  type Blocks = seq<KVCacheBlock>

  ghost predicate Distinct(s: Blocks) {
    forall i, j :: 0 <= i < j < |s| ==> s[i] != s[j]
  }

  /** Neighbours in the sequence are linked both ways. */
  ghost predicate Linked(s: Blocks)
    reads s
  {
    forall i :: 0 <= i < |s| - 1 ==> s[i].next == s[i + 1] && s[i + 1].prev == s[i]
  }

  /** s with the first occurrence of b taken out. */
  ghost function Without(s: Blocks, b: KVCacheBlock): Blocks {
    if s == [] then [] else if s[0] == b then s[1..] else [s[0]] + Without(s[1..], b)
  }

  /** A linked stretch between two linked ends. */
  lemma EndsLinked(h: KVCacheBlock, blocks: Blocks, t: KVCacheBlock)
    requires Linked(blocks)
    requires if blocks == [] then h.next == t && t.prev == h
             else && h.next == blocks[0] && blocks[0].prev == h
                  && t.prev == blocks[|blocks| - 1] && blocks[|blocks| - 1].next == t
    ensures Linked([h] + blocks + [t])
  {
    var s := [h] + blocks + [t];
    forall i | 0 <= i < |s| - 1 ensures s[i].next == s[i + 1] && s[i + 1].prev == s[i] {
      if 0 < i < |blocks| {
        assert s[i] == blocks[i - 1] && s[i + 1] == blocks[i];
      }
    }
  }

  /** Two linked stretches joined at their ends form one. */
  lemma Splice(left: Blocks, right: Blocks)
    requires left != [] && right != [] && Linked(left) && Linked(right)
    requires left[|left| - 1].next == right[0] && right[0].prev == left[|left| - 1]
    ensures Linked(left + right)
  {
    var s := left + right;
    forall i | 0 <= i < |s| - 1 ensures s[i].next == s[i + 1] && s[i + 1].prev == s[i] {
      if i >= |left| {
        var j := i - |left|;
        assert s[i] == right[j] && s[i + 1] == right[j + 1];
      }
    }
  }

  lemma {:induction false} WithoutAt(s: Blocks, k: int)
    requires 0 <= k < |s| && forall i :: 0 <= i < k ==> s[i] != s[k]
    ensures Without(s, s[k]) == s[..k] + s[k + 1..]
  {
    if k > 0 {
      WithoutAt(s[1..], k - 1);
      assert s[..k] + s[k + 1..] == [s[0]] + (s[1..][..k - 1] + s[1..][k..]);
    }
  }

  class Queue {
    const head: KVCacheBlock
    const tail: KVCacheBlock
    var numFreeBlocks: int
    /** The free list, first to be evicted first. */
    ghost var Contents: Blocks
    /** The blocks that take turns on the list; those off the list have cleared links. */
    ghost const Pool: set<KVCacheBlock>

    /** Fake head, free blocks, fake tail. */
    ghost function Chain(): Blocks
      reads this
    {
      [head] + Contents + [tail]
    }

    ghost predicate Valid()
      reads this, Pool, head, tail
    {
      && Framed()
      && Linked(Chain())
      && numFreeBlocks == |Contents|
      && OffListCleared()
    }

    ghost predicate Framed()
      reads this, head, tail
    {
      && Distinct(Chain())
      && (forall b :: b in Contents ==> b in Pool)
      && head.prev == null && tail.next == null
      && head !in Pool && tail !in Pool
    }

    ghost predicate OffListCleared()
      reads this, Pool
    {
      forall b :: b in Pool && b !in Contents ==> b.prev == null && b.next == null
    }

    /** Drops a stretch from the abstract list once the links pass it by and its own links are
        cleared. */
    ghost method Forget(left: Blocks, mid: Blocks, right: Blocks, rest: Blocks)
      requires Framed() && OffListCleared()
      requires Chain() == left + mid + right && [head] + rest + [tail] == left + right
      requires Linked(left + right) && numFreeBlocks == |rest|
      requires forall b :: b in mid ==> b.prev == null && b.next == null
      requires forall b :: b in Contents ==> b in mid || b in rest
      requires Distinct(left + right) && forall b :: b in rest ==> b in Contents
      modifies this`Contents
      ensures Valid() && Contents == rest
    {
      Contents := rest;
    }

    /** The stretches before and behind the k-th free block, and the list without it. */
    lemma Around(k: int) returns (left: Blocks, right: Blocks, rest: Blocks)
      requires Valid() && 0 <= k < |Contents|
      ensures left != [] && right != [] && left[|left| - 1] == Chain()[k] && right[0] == Chain()[k + 2]
      ensures Linked(left) && Linked(right) && Distinct(left + right) && [head] + rest + [tail] == left + right
      ensures rest == Without(Contents, Contents[k]) && Drops(Contents[k], rest)
      ensures left[|left| - 1] != tail && right[0] != head
    {
      var mid;
      left, mid, right, rest := Parts(head, Contents, tail, k, k + 1);
      assert mid == [Contents[k]];
      assert Contents[k] in mid;
    }

    /** rest is the free list without b. */
    ghost predicate Drops(b: KVCacheBlock, rest: Blocks)
      reads this
    {
      && |rest| == |Contents| - 1 && b in Contents && b !in rest
      && (forall c :: c in rest ==> c in Contents) && (forall c :: c in Contents ==> c == b || c in rest)
    }

    /** Drops one block from the abstract list once the links pass it by and its own are cleared. */
    ghost method ForgetOne(b: KVCacheBlock, left: Blocks, right: Blocks, rest: Blocks)
      requires Framed() && OffListCleared() && Drops(b, rest) && numFreeBlocks == |rest|
      requires [head] + rest + [tail] == left + right && Linked(left + right) && Distinct(left + right)
      requires b.prev == null && b.next == null
      modifies this`Contents
      ensures Valid() && Contents == rest
    {
      Contents := rest;
    }

    /** Takes a list as the new abstract list once the links describe it. */
    ghost method Adopt(blocks: Blocks)
      requires Distinct([head] + blocks + [tail]) && Linked([head] + blocks + [tail]) && numFreeBlocks == |blocks|
      requires head.prev == null && tail.next == null && head !in Pool && tail !in Pool
      requires forall b :: b in blocks ==> b in Pool
      requires forall b :: b in Pool && b !in blocks ==> b.prev == null && b.next == null
      modifies this`Contents
      ensures Valid() && Contents == blocks
    {
      Contents := blocks;
    }

    constructor (blocks: Blocks)
      requires Distinct(blocks)
      modifies blocks
      ensures Valid() && Contents == blocks && Pool == set b | b in blocks
      ensures fresh(head) && fresh(tail)
    {
      var h := new KVCacheBlock(-1);
      var t := new KVCacheBlock(-1);
      head, tail := h, t;
      numFreeBlocks := |blocks|;
      Contents := blocks;
      Pool := set b | b in blocks;
      new;
      LinkAll(blocks);
      LinkEnds(head, blocks, tail);
    }

    /** Joins a block's neighbours and clears its own links. */
    method Detach(before: KVCacheBlock, block: KVCacheBlock, after: KVCacheBlock, ghost k: int)
      requires Valid() && 0 <= k < |Contents| && Contents[k] == block
      requires before == Chain()[k] && after == Chain()[k + 2]
      modifies this`numFreeBlocks, this`Contents, Pool, head, tail
      ensures Valid() && Contents == Without(old(Contents), block) && block !in Contents
      ensures block.prev == null && block.next == null
    {
      ghost var left, right, rest := Around(k);
      assert block != head && block != tail && Linked(left) && Linked(right);
      Bridge(before, after, left, right);
      block.prev, block.next := null, null;
      numFreeBlocks := numFreeBlocks - 1;
      ForgetOne(block, left, right, rest);
    }

    /** Removes and returns the first block, or reports an empty list. */
    method Popleft() returns (r: Result<KVCacheBlock, QueueError>)
      requires Valid()
      modifies this`numFreeBlocks, this`Contents, Pool, head, tail
      ensures Valid()
      ensures r.Failure? <==> old(Contents) == []
      ensures r.Failure? ==> Contents == [] && r.error == NoFreeBlocks
      ensures r.Success? ==> r.value == old(Contents)[0] && Contents == old(Contents)[1..]
      ensures r.Success? ==> r.value.prev == null && r.value.next == null
    {
      ghost var chain := Chain();
      assert chain[0].next == chain[1];
      if head.next == tail || head.next == null {
        return Failure(NoFreeBlocks);
      }
      var first := head.next;
      assert first == chain[1] && first.next == chain[2];
      Detach(head, first, first.next, 0);
      r := Success(first);
    }

    /** Takes the first n blocks; their links are cleared. */
    method PopleftN(n: nat) returns (r: Result<Blocks, QueueError>)
      requires Valid()
      modifies this`numFreeBlocks, this`Contents, Pool, head, tail
      ensures Valid()
      ensures r.Success? <==> n <= |old(Contents)|
      ensures r.Success? ==> r.value == old(Contents)[..n] && Contents == old(Contents)[n..]
      ensures r.Success? ==> forall b :: b in r.value ==> b.prev == null && b.next == null
      ensures r.Failure? ==> Contents == old(Contents) && r.error == NotEnoughBlocks
    {
      if n == 0 {
        return Success([]);
      }
      if numFreeBlocks < n {
        return Failure(NotEnoughBlocks);
      }
      var ret := TakeFront(n);
      r := Success(ret);
    }

    /** Unlinks the first n blocks and joins the rest to the fake head. */
    method TakeFront(n: nat) returns (ret: Blocks)
      requires Valid() && 0 < n <= |Contents|
      modifies this`numFreeBlocks, this`Contents, Pool, head, tail
      ensures Valid() && ret == old(Contents)[..n] && Contents == old(Contents)[n..]
      ensures forall b :: b in ret ==> b.prev == null && b.next == null
    {
      numFreeBlocks := numFreeBlocks - n;
      ghost var left, mid, right, rest := Parts(head, Contents, tail, 0, n);
      assert Chain()[0].next == Chain()[1] == mid[0];
      var curr;
      ret, curr := Unlink(head.next, n, left, mid, right);
      if curr != null {
        Bridge(head, curr, left, right);
      }
      Forget(left, mid, right, rest);
    }

    /** Takes a block out of the list wherever it is; a block off the list is reported. */
    method Remove(block: KVCacheBlock) returns (r: Result<(), QueueError>)
      requires Valid() && block in Pool
      modifies this`numFreeBlocks, this`Contents, Pool, head, tail
      ensures Valid()
      ensures r.Success? <==> block in old(Contents)
      ensures r.Failure? ==> r.error == InvalidBlock
      ensures Contents == Without(old(Contents), block) && block !in Contents
      ensures block.prev == null && block.next == null
    {
      ghost var k := Locate(block);
      if block.prev == null || block.next == null {
        WithoutAbsent(Contents, block);
        return Failure(InvalidBlock);
      }
      Detach(block.prev, block, block.next, k);
      r := Success(());
    }

    /** Where a block is on the list; its links tell whether it is on it at all. */
    lemma Locate(block: KVCacheBlock) returns (k: int)
      requires Valid() && block in Pool
      ensures block in Contents <==> block.prev != null && block.next != null
      ensures block in Contents ==> 0 <= k < |Contents| && Contents[k] == block
      ensures block in Contents ==> block.prev == Chain()[k] && block.next == Chain()[k + 2]
    {
      k := 0;
      if block in Contents {
        k :| 0 <= k < |Contents| && Contents[k] == block;
        var chain := Chain();
        assert chain[k + 1] == block && chain[k].next == chain[k + 1] && chain[k + 1].next == chain[k + 2];
      }
    }

    /** Puts one block at the back. */
    method Append(block: KVCacheBlock)
      requires Valid() && block in Pool && block !in Contents
      modifies this`numFreeBlocks, this`Contents, Pool, head, tail
      ensures Valid()
      ensures Contents == old(Contents) + [block]
    {
      ghost var front := [head] + Contents;
      ghost var chain := Chain();
      assert chain[|Contents|].next == chain[|Contents| + 1];
      assert Linked(front) by { PrefixLinked(front, [tail]); }
      JoinDistinct(head, Contents, tail, [block]);
      var last := tail.prev;
      assert last == front[|front| - 1];
      Bridge(last, block, front, [block]);
      Bridge(block, tail, front + [block], [tail]);
      numFreeBlocks := numFreeBlocks + 1;
      assert [head] + (Contents + [block]) + [tail] == front + [block] + [tail];
      Adopt(Contents + [block]);
    }

    /** Puts blocks at the back, in order. */
    method AppendN(blocks: Blocks)
      requires Valid() && Distinct(blocks)
      requires forall b :: b in blocks ==> b in Pool && b !in Contents
      modifies this`numFreeBlocks, this`Contents, Pool, head, tail
      ensures Valid()
      ensures Contents == old(Contents) + blocks
    {
      if |blocks| == 0 {
        assert Contents + blocks == Contents;
        return;
      }
      ghost var front := [head] + Contents;
      ghost var chain := Chain();
      assert chain[|Contents|].next == chain[|Contents| + 1];
      assert Linked(front) by { PrefixLinked(front, [tail]); }
      JoinDistinct(head, Contents, tail, blocks);
      assert tail.prev == front[|front| - 1];
      Weave(tail.prev, blocks, tail, front, [tail]);
      numFreeBlocks := numFreeBlocks + |blocks|;
      assert [head] + (Contents + blocks) + [tail] == front + blocks + [tail];
      Adopt(Contents + blocks);
    }

    /** Puts blocks at the front, in order. */
    method PrependN(blocks: Blocks)
      requires Valid() && Distinct(blocks)
      requires forall b :: b in blocks ==> b in Pool && b !in Contents
      modifies this`numFreeBlocks, this`Contents, Pool, head, tail
      ensures Valid()
      ensures Contents == blocks + old(Contents)
    {
      if |blocks| == 0 {
        assert blocks + Contents == Contents;
        return;
      }
      ghost var back := Contents + [tail];
      ghost var chain := Chain();
      assert chain[0].next == chain[1] == back[0];
      assert chain == [head] + back;
      assert Linked(back) by { SuffixLinked([head], back); }
      PrependDistinct(head, Contents, tail, blocks);
      Weave(head, blocks, head.next, [head], back);
      numFreeBlocks := numFreeBlocks + |blocks|;
      assert [head] + (blocks + Contents) + [tail] == [head] + blocks + back;
      Adopt(blocks + Contents);
    }

    /** Walks the list from the front. */
    method GetAllFreeBlocks() returns (ret: Blocks)
      requires Valid()
      ensures ret == Contents
    {
      ghost var chain := Chain();
      ret := [];
      assert chain[0].next == chain[1];
      var curr := head.next;
      while curr.next != null
        invariant |ret| <= |Contents| && ret == Contents[..|ret|] && curr == chain[|ret| + 1]
        invariant |ret| < |Contents| ==> curr.next == chain[|ret| + 2]
        decreases |Contents| - |ret|
      {
        ret := ret + [curr];
        curr := curr.next;
      }
    }

    /** The blocks after a cursor in eviction order; all of them without one. */
    method BlocksAfter(cursor: KVCacheBlock?) returns (ret: Blocks)
      requires Valid() && (cursor != null ==> cursor in Pool)
      ensures cursor == null ==> ret == Contents
      ensures cursor != null && cursor !in Contents ==> ret == []
      ensures cursor != null && cursor in Contents ==>
        exists k :: 0 <= k < |Contents| && Contents[k] == cursor && ret == Contents[k + 1..]
    {
      ghost var chain, k := Chain(), -1;
      var curr := null;
      if cursor == null {
        assert chain[0].next == chain[1];
        curr := head.next;
      } else {
        if cursor in Contents {
          k :| 0 <= k < |Contents| && Contents[k] == cursor;
          assert chain[k + 1].next == chain[k + 2];
        }
        curr := cursor.next;
      }
      ret := [];
      ghost var onList := cursor == null || cursor in Contents;
      while curr != null && curr != tail
        invariant onList ==> k + 1 + |ret| <= |Contents| && ret == Contents[k + 1..k + 1 + |ret|]
        invariant onList ==> curr == chain[k + |ret| + 2]
        invariant !onList ==> curr == null && ret == []
        decreases |Contents| - |ret|
      {
        assert chain[k + |ret| + 2].next == chain[k + |ret| + 3];
        ret := ret + [curr];
        curr := curr.next;
      }
      if onList {
        MiddleDistinct(head, Contents, tail);
        assert curr == chain[k + |ret| + 2];
        assert k + 1 + |ret| == |Contents|;
        assert ret == Contents[k + 1..];
      }
    }
  }

  // ------------------------------------------------------------ runs of operations

  datatype Op =
    | PopOne
    | PopMany(n: nat)
    | TakeOut(block: KVCacheBlock)
    | PutBack(block: KVCacheBlock)
    | PutBackMany(blocks: Blocks)
    | PutFront(blocks: Blocks)

  /** Effect of one operation on the free list. */
  ghost function Apply(s: Blocks, op: Op): Blocks {
    match op
    case PopOne => if s == [] then [] else s[1..]
    case PopMany(n) => if n <= |s| then s[n..] else s
    case TakeOut(b) => Without(s, b)
    case PutBack(b) => s + [b]
    case PutBackMany(bs) => s + bs
    case PutFront(bs) => bs + s
  }

  ghost function ApplyAll(s: Blocks, ops: seq<Op>): Blocks
    decreases |ops|
  {
    if ops == [] then s else ApplyAll(Apply(s, ops[0]), ops[1..])
  }

  /** Callers only return blocks of the pool that are not on the list, each once. */
  ghost predicate Allowed(pool: set<KVCacheBlock>, s: Blocks, op: Op) {
    match op
    case PopOne => true
    case PopMany(n) => true
    case TakeOut(b) => b in pool
    case PutBack(b) => b in pool && b !in s
    case PutBackMany(bs) => Distinct(bs) && forall b :: b in bs ==> b in pool && b !in s
    case PutFront(bs) => Distinct(bs) && forall b :: b in bs ==> b in pool && b !in s
  }

  ghost predicate AllowedRun(pool: set<KVCacheBlock>, s: Blocks, ops: seq<Op>)
    decreases |ops|
  {
    ops == [] || (Allowed(pool, s, ops[0]) && AllowedRun(pool, Apply(s, ops[0]), ops[1..]))
  }

  method Perform(q: Queue, op: Op)
    requires q.Valid() && Allowed(q.Pool, q.Contents, op)
    modifies q`numFreeBlocks, q`Contents, q.Pool, q.head, q.tail
    ensures q.Valid() && q.Contents == Apply(old(q.Contents), op)
  {
    match op {
      case PopOne => var _ := q.Popleft();
      case PopMany(n) => var _ := q.PopleftN(n);
      case TakeOut(b) => var _ := q.Remove(b);
      case PutBack(b) => q.Append(b);
      case PutBackMany(bs) => q.AppendN(bs);
      case PutFront(bs) => q.PrependN(bs);
    }
  }

  /** Over any run of operations the links describe exactly the list the operations describe,
      with the count in step and no block twice. */
  method Run(q: Queue, ops: seq<Op>)
    requires q.Valid() && AllowedRun(q.Pool, q.Contents, ops)
    modifies q`numFreeBlocks, q`Contents, q.Pool, q.head, q.tail
    ensures q.Valid() && q.Contents == ApplyAll(old(q.Contents), ops)
    ensures q.numFreeBlocks == |ApplyAll(old(q.Contents), ops)|
  {
    var i := 0;
    while i < |ops|
      invariant 0 <= i <= |ops| && q.Valid() && AllowedRun(q.Pool, q.Contents, ops[i..])
      invariant ApplyAll(q.Contents, ops[i..]) == ApplyAll(old(q.Contents), ops)
    {
      assert ops[i..][1..] == ops[i + 1..];
      Perform(q, ops[i]);
      i := i + 1;
    }
  }

  /** Popping n blocks at once is popping one block n times. */
  lemma {:induction false} PopManyIsPopOnes(s: Blocks, n: nat)
    requires n <= |s|
    ensures ApplyAll(s, seq(n, _ => PopOne)) == Apply(s, PopMany(n))
  {
    if n > 0 {
      var ops := seq(n, _ => PopOne);
      assert ops[1..] == seq(n - 1, _ => PopOne);
      PopManyIsPopOnes(s[1..], n - 1);
    }
  }

  /** Returning a block and taking it out again restores the list, whatever is on it. */
  lemma {:induction false} TakeOutUndoesPutBack(s: Blocks, b: KVCacheBlock)
    requires b !in s
    ensures ApplyAll(s, [PutBack(b), TakeOut(b)]) == s
  {
    WithoutAt(s + [b], |s|);
    var ops := [PutBack(b), TakeOut(b)];
    assert ops[1..] == [TakeOut(b)] && ops[1..][1..] == [];
    assert ApplyAll(s + [b], ops[1..]) == Without(s + [b], b);
  }

  lemma PrefixLinked(left: Blocks, right: Blocks)
    requires Linked(left + right)
    ensures Linked(left)
  {
    forall i | 0 <= i < |left| - 1 ensures left[i].next == left[i + 1] && left[i + 1].prev == left[i] {
      assert (left + right)[i] == left[i] && (left + right)[i + 1] == left[i + 1];
    }
  }

  lemma SuffixLinked(left: Blocks, right: Blocks)
    requires Linked(left + right)
    ensures Linked(right)
  {
    forall i | 0 <= i < |right| - 1 ensures right[i].next == right[i + 1] && right[i + 1].prev == right[i] {
      var j := i + |left|;
      assert (left + right)[j] == right[i] && (left + right)[j + 1] == right[i + 1];
    }
  }

  /** The chain around the blocks lo .. hi - 1: two linked stretches with nothing in common,
      and the list that is left when they are joined. */
  lemma Parts(h: KVCacheBlock, s: Blocks, t: KVCacheBlock, lo: int, hi: int)
    returns (left: Blocks, mid: Blocks, right: Blocks, rest: Blocks)
    requires 0 <= lo <= hi <= |s| && Distinct([h] + s + [t]) && Linked([h] + s + [t])
    ensures left != [] && mid == s[lo..hi] && right != []
    ensures left[|left| - 1] == ([h] + s + [t])[lo] && right[0] == ([h] + s + [t])[hi + 1]
    ensures [h] + s + [t] == left + mid + right && [h] + rest + [t] == left + right
    ensures left[|left| - 1] != t && right[0] != h
    ensures lo == 0 ==> rest == s[hi..]
    ensures hi == lo + 1 ==> rest == Without(s, s[lo])
    ensures Linked(left) && Linked(right) && Distinct(left + right) && |rest| == |s| - |mid|
    ensures |mid| > 0 ==> Linked(mid + right) && Distinct(mid + right)
    ensures forall b :: b in mid ==> b !in left && b !in right && b != h && b != t
    ensures forall b :: b in s <==> b in mid || b in rest
    ensures forall b :: b in mid ==> b !in rest
  {
    left, mid, right, rest := [h] + s[..lo], s[lo..hi], s[hi..] + [t], s[..lo] + s[hi..];
    MiddleDistinct(h, s, t);
    CutSet(s, lo, hi);
    assert s == s[..lo] + mid + s[hi..];
    assert [h] + s + [t] == left + (mid + right) == (left + mid) + right;
    PrefixLinked(left, mid + right);
    SuffixLinked(left + mid, right);
    SuffixLinked(left, mid + right);
    DistinctParts(left, mid, right);
    var chain := [h] + s + [t];
    assert chain[0] == h && chain[|s| + 1] == t;
    if hi == lo + 1 { WithoutAt(s, lo); }
  }

  lemma DistinctParts(left: Blocks, mid: Blocks, right: Blocks)
    requires Distinct(left + (mid + right))
    ensures Distinct(left + right) && Distinct(mid + right)
    ensures forall b :: b in mid ==> b !in left && b !in right
  {
    var all, l, m := left + (mid + right), |left|, |mid|;
    assert forall i :: 0 <= i < l ==> all[i] == left[i];
    assert forall i :: 0 <= i < m ==> all[l + i] == mid[i];
    assert forall i :: 0 <= i < |right| ==> all[l + m + i] == right[i];
    assert forall i :: 0 <= i < |mid + right| ==> (mid + right)[i] == all[l + i];
  }

  lemma CutSet(s: Blocks, lo: int, hi: int)
    requires 0 <= lo <= hi <= |s| && Distinct(s)
    ensures forall b :: b in s[..lo] + s[hi..] <==> b in s && b !in s[lo..hi]
  {
    forall b ensures b in s[..lo] + s[hi..] <==> b in s && b !in s[lo..hi] {
      if b in s {
        var i :| 0 <= i < |s| && s[i] == b;
        assert b in s[lo..hi] <==> lo <= i < hi;
      }
    }
  }

  lemma JoinDistinct(h: KVCacheBlock, s: Blocks, t: KVCacheBlock, blocks: Blocks)
    requires Distinct([h] + s + [t]) && Distinct(blocks)
    requires forall b :: b in blocks ==> b != h && b != t && b !in s
    ensures Distinct([h] + s + blocks) && Distinct([h] + s + blocks + [t])
  {
    MiddleDistinct(h, s, t);
    var front, all := [h] + s + blocks, [h] + s + blocks + [t];
    assert forall i :: 0 <= i < |s| ==> front[i + 1] == s[i];
    assert forall i :: 0 <= i < |blocks| ==> front[i + 1 + |s|] == blocks[i];
    assert forall i :: |s| + 1 <= i < |front| ==> front[i] in blocks;
    assert forall i :: 1 <= i <= |s| ==> front[i] in s;
    assert h != t by { assert ([h] + s + [t])[0] != ([h] + s + [t])[|s| + 1]; }
  }

  lemma PrependDistinct(h: KVCacheBlock, s: Blocks, t: KVCacheBlock, blocks: Blocks)
    requires Distinct([h] + s + [t]) && Distinct(blocks)
    requires forall b :: b in blocks ==> b != h && b != t && b !in s
    ensures Distinct([h] + blocks) && Distinct([h] + blocks + (s + [t]))
  {
    MiddleDistinct(h, s, t);
    var front, back := [h] + blocks, s + [t];
    assert h != t by { assert ([h] + s + [t])[0] != ([h] + s + [t])[|s| + 1]; }
    assert forall i :: 1 <= i < |front| ==> front[i] in blocks;
    assert forall i :: 0 <= i < |back| ==> back[i] in s || back[i] == t;
    assert Distinct(front) && Distinct(back);
    assert forall i, j :: 0 <= i < |front| && 0 <= j < |back| ==> front[i] != back[j];
  }

  lemma {:induction false} WithoutAbsent(s: Blocks, b: KVCacheBlock)
    requires b !in s
    ensures Without(s, b) == s
  {
    if s != [] {
      WithoutAbsent(s[1..], b);
    }
  }

  /** Links the end of one stretch to the start of the next. */
  method Bridge(a: KVCacheBlock, b: KVCacheBlock, ghost left: Blocks, ghost right: Blocks)
    requires left != [] && right != [] && Distinct(left + right) && Linked(left) && Linked(right)
    requires a == left[|left| - 1] && b == right[0]
    modifies a`next, b`prev
    ensures Linked(left + right)
  {
    ghost var all := left + right;
    assert all[|left|] == b && all[|left| - 1] == a;
    assert forall i :: 0 <= i < |left| ==> left[i] == all[i] && all[i] != b;
    assert forall i :: 0 <= i < |right| ==> right[i] == all[|left| + i] && all[|left| + i] != a;
    assert forall i :: 0 <= i < |left| - 1 ==> all[i] != a;
    a.next := b;
    b.prev := a;
    Splice(left, right);
  }

  /** Hangs blocks one after another behind last. */
  method Thread(last: KVCacheBlock, blocks: Blocks, ghost front: Blocks) returns (end: KVCacheBlock)
    requires front != [] && last == front[|front| - 1] && Linked(front) && Distinct(front + blocks)
    modifies last`next, blocks
    ensures Linked(front + blocks) && end == (front + blocks)[|front| + |blocks| - 1]
  {
    end := last;
    assert front + blocks[..0] == front;
    for i := 0 to |blocks|
      invariant Linked(front + blocks[..i])
      invariant end == (front + blocks[..i])[|front| + i - 1]
    {
      var left := front + blocks[..i];
      assert left + [blocks[i]] == front + blocks[..i + 1] == (front + blocks)[..|front| + i + 1];
      Bridge(end, blocks[i], left, [blocks[i]]);
      end := blocks[i];
    }
    assert blocks[..|blocks|] == blocks;
  }

  /** Hangs blocks between two linked stretches. */
  method Weave(before: KVCacheBlock, blocks: Blocks, after: KVCacheBlock, ghost front: Blocks, ghost back: Blocks)
    requires front != [] && back != [] && before == front[|front| - 1] && after == back[0]
    requires Linked(front) && Linked(back) && Distinct(front + blocks) && Distinct(front + blocks + back)
    modifies before`next, blocks, after`prev
    ensures Linked(front + blocks + back)
  {
    ghost var all := front + blocks + back;
    assert forall i :: 0 <= i < |back| ==> back[i] == all[|front| + |blocks| + i];
    assert forall i :: 0 <= i < |blocks| ==> blocks[i] == all[|front| + i];
    assert before == all[|front| - 1];
    var last := Thread(before, blocks, front);
    Bridge(last, after, front + blocks, back);
  }

  /** Walks n links from first, collecting the blocks passed and clearing their links. */
  method Unlink(first: KVCacheBlock?, n: nat, ghost left: Blocks, ghost mid: Blocks, ghost right: Blocks)
    returns (ret: Blocks, curr: KVCacheBlock?)
    requires n == |mid| > 0 && right != [] && Distinct(mid + right) && Linked(mid + right) && first == mid[0]
    modifies mid
    ensures ret == mid && curr == right[0]
    ensures forall b :: b in mid ==> b.prev == null && b.next == null
  {
    ghost var s := mid + right;
    ret, curr := [], first;
    for i := 0 to n
      invariant curr == s[i] && ret == mid[..i]
      invariant forall k :: 0 <= k < i ==> mid[k].prev == null && mid[k].next == null
      invariant forall k :: i <= k < |s| - 1 ==> s[k].next == s[k + 1]
    {
      assert curr == mid[i] == s[i];
      assert forall k :: 0 <= k < |mid| ==> mid[k] == s[k];
      ret := ret + [curr];
      var last := curr;
      curr := curr.next;
      last.prev := null;
      last.next := null;
    }
  }

  lemma MiddleDistinct(h: KVCacheBlock, s: Blocks, t: KVCacheBlock)
    requires Distinct([h] + s + [t])
    ensures Distinct(s) && h !in s && t !in s
  {
    var chain := [h] + s + [t];
    forall i | 0 <= i < |s| ensures s[i] == chain[i + 1] && s[i] != h && s[i] != t {
      assert chain[i + 1] == s[i] && chain[0] == h && chain[|s| + 1] == t;
    }
  }

  /** Connects neighbours of a block list. */
  method LinkAll(blocks: Blocks)
    requires Distinct(blocks)
    modifies blocks
    ensures Linked(blocks)
  {
    for i := 0 to |blocks|
      invariant forall k :: 0 <= k < i && k < |blocks| - 1 ==> blocks[k].next == blocks[k + 1]
      invariant forall k :: 0 < k < i ==> blocks[k].prev == blocks[k - 1]
    {
      if i > 0 {
        blocks[i].prev := blocks[i - 1];
      }
      if i < |blocks| - 1 {
        blocks[i].next := blocks[i + 1];
      }
    }
    forall i | 0 <= i < |blocks| - 1 ensures blocks[i + 1].prev == blocks[i] {
      var k := i + 1;
      assert blocks[k].prev == blocks[k - 1];
    }
  }

  /** Hangs a linked list between the fake head and tail. */
  method LinkEnds(h: KVCacheBlock, blocks: Blocks, t: KVCacheBlock)
    requires Linked(blocks) && Distinct(blocks) && h !in blocks && t !in blocks && h != t
    modifies h, t, blocks
    ensures Linked([h] + blocks + [t]) && h.prev == old(h.prev) && t.next == old(t.next)
  {
    if |blocks| > 0 {
      h.next := blocks[0];
      blocks[0].prev := h;
      t.prev := blocks[|blocks| - 1];
      blocks[|blocks| - 1].next := t;
    } else {
      h.next := t;
      t.prev := h;
    }
    EndsLinked(h, blocks, t);
  }
}
