/**
 The fork database: a parent-linked tree of recent blocks.

 A block's number is one more than the number embedded in the id of its predecessor, and
 its own id embeds that number, so links always go down by exactly one.
 */
module ForkDatabase {
  import opened Options

  /** The first word of an id is the block number, the rest is a hash. */
  datatype BlockId = BlockId(num: nat, hash: nat)

  const NULL_ID := BlockId(0, 0)

  /** `hash` stands for the digest of the signed header, `body` for everything else. */
  datatype Block = Block(previous: BlockId, hash: nat, body: nat)

  function Num(b: Block): nat { b.previous.num + 1 }

  function Id(b: Block): (id: BlockId)
    ensures id.num == b.previous.num + 1
  {
    BlockId(Num(b), b.hash)
  }

  /** `linked` tells whether the parent was looked up when the item was pushed. */
  datatype Item = Item(block: Block, linked: bool)

  type Index = map<BlockId, Item>

  ghost predicate WellKeyed(ix: Index)
  {
    forall id {:trigger ix[id]} :: id in ix ==> Id(ix[id].block) == id
  }

  /** The parent, while it is still in the index. */
  function Prev(ix: Index, it: Item): Option<Item>
  {
    if it.linked && it.block.previous in ix then Some(ix[it.block.previous]) else None
  }

  /** The ancestor `k` links down. */
  function Ancestor(ix: Index, it: Item, k: nat): Option<Item>
    decreases k
  {
    if k == 0 then Some(it)
    else
      match Prev(ix, it)
      case None => None
      case Some(p) => Ancestor(ix, p, k - 1)
  }

  lemma {:induction false} AncestorNum(ix: Index, it: Item, k: nat)
    requires WellKeyed(ix) && Ancestor(ix, it, k).Some?
    ensures Num(Ancestor(ix, it, k).value.block) + k == Num(it.block)
    decreases k
  {
    if k > 0 {
      AncestorNum(ix, Prev(ix, it).value, k - 1);
    }
  }

  lemma {:induction false} AncestorNext(ix: Index, it: Item, k: nat)
    ensures Ancestor(ix, it, k + 1) ==
            match Ancestor(ix, it, k) { case None => None case Some(a) => Prev(ix, a) }
    decreases k
  {
    if k > 0 && Prev(ix, it).Some? {
      AncestorNext(ix, Prev(ix, it).value, k - 1);
    }
  }

  lemma {:induction false} AncestorDefined(ix: Index, it: Item, j: nat, k: nat)
    requires j <= k && Ancestor(ix, it, k).Some?
    ensures Ancestor(ix, it, j).Some?
    decreases k
  {
    if j > 0 {
      AncestorDefined(ix, Prev(ix, it).value, j - 1, k - 1);
    }
  }

  /** What lies below a block in the index is in the index. */
  lemma {:induction false} AncestorHeld(ix: Index, it: Item, k: nat)
    requires WellKeyed(ix) && Id(it.block) in ix && ix[Id(it.block)] == it && Ancestor(ix, it, k).Some?
    ensures var a := Ancestor(ix, it, k).value; Id(a.block) in ix && ix[Id(a.block)] == a
    decreases k
  {
    if k > 0 {
      AncestorHeld(ix, Prev(ix, it).value, k - 1);
    }
  }

  /** The first `n` blocks on the way down from `it`. */
  ghost predicate IsChain(ix: Index, it: Item, path: seq<Item>)
  {
    forall i {:trigger path[i]} :: 0 <= i < |path| ==> Ancestor(ix, it, i) == Some(path[i])
  }

  /** `m` links below `a` and `n` links below `b` are two blocks with the same parent id. */
  ghost predicate Meets(ix: Index, a: Item, m: nat, b: Item, n: nat)
  {
    && Ancestor(ix, a, m).Some? && Ancestor(ix, b, n).Some?
    && Ancestor(ix, a, m).value.block.previous == Ancestor(ix, b, n).value.block.previous
  }

  /** Two blocks with the same parent have the same height. */
  lemma MeetsLevel(ix: Index, a: Item, m: nat, b: Item, n: nat)
    requires WellKeyed(ix) && Meets(ix, a, m, b, n)
    ensures Num(a.block) - m == Num(b.block) - n
  {
    AncestorNum(ix, a, m);
    AncestorNum(ix, b, n);
  }

  datatype Branches = Branches(first: seq<Item>, second: seq<Item>)

  /** What fetch_branch_from promises: the two shortest ways down to a common parent. */
  ghost predicate GoodBranches(ix: Index, a: Item, b: Item, br: Branches)
  {
    && br.first != [] && br.second != []
    && IsChain(ix, a, br.first) && IsChain(ix, b, br.second)
    && Meets(ix, a, |br.first| - 1, b, |br.second| - 1)
    && forall m: nat, n: nat {:trigger Meets(ix, a, m, b, n)} :: Meets(ix, a, m, b, n) ==>
        |br.first| - 1 <= m && |br.second| - 1 <= n
  }

  /**
   The branches share no block, except that they may both end in the same one; that happens
   exactly when one of the two given blocks is an ancestor of the other, and then that block
   is the shared one.
   */
  lemma BranchesDisjoint(ix: Index, a: Item, b: Item, br: Branches, i: nat, j: nat)
    requires WellKeyed(ix) && GoodBranches(ix, a, b, br) && i < |br.first| && j < |br.second|
    requires br.first[i] == br.second[j]
    ensures i == |br.first| - 1 && j == |br.second| - 1
    ensures i == 0 || j == 0
  {
    assert Ancestor(ix, a, i) == Some(br.first[i]) && Ancestor(ix, b, j) == Some(br.second[j]);
    assert Meets(ix, a, i, b, j);
    if i > 0 && j > 0 {
      // one link up on each side the parent would have been the same already
      AncestorNext(ix, a, i - 1);
      AncestorNext(ix, b, j - 1);
      var x, y := br.first[i - 1], br.second[j - 1];
      assert Ancestor(ix, a, i - 1) == Some(x) && Ancestor(ix, b, j - 1) == Some(y);
      assert Prev(ix, x) == Prev(ix, y) == Some(br.first[i]);
      assert x.block.previous == Id(ix[x.block.previous].block) == Id(br.first[i].block);
      assert y.block.previous == Id(ix[y.block.previous].block) == Id(br.first[i].block);
      assert Meets(ix, a, i - 1, b, j - 1);
    }
  }

  lemma AncestorsShareLast(ix: Index, a: Item, b: Item, br: Branches, k: nat)
    requires WellKeyed(ix) && GoodBranches(ix, a, b, br) && Ancestor(ix, a, k) == Some(b)
    ensures |br.second| == 1 && |br.first| == k + 1 && br.first[k] == b == br.second[0]
  {
    assert Ancestor(ix, b, 0) == Some(b);
    assert Meets(ix, a, k, b, 0);
    MeetsLevel(ix, a, k, b, 0);
    MeetsLevel(ix, a, |br.first| - 1, b, |br.second| - 1);
    assert br.second[0] == b && Ancestor(ix, a, k) == Some(br.first[k]);
  }

  /** The common parent is the most recent: any other common parent of the two chains is no higher. */
  lemma MostRecentCommonAncestor(ix: Index, a: Item, b: Item, br: Branches, m: nat, n: nat)
    requires WellKeyed(ix) && GoodBranches(ix, a, b, br) && Meets(ix, a, m, b, n)
    ensures Ancestor(ix, a, m).value.block.previous.num <= br.first[|br.first| - 1].block.previous.num
  {
    AncestorNum(ix, a, m);
    var last := |br.first| - 1;
    assert Ancestor(ix, a, last) == Some(br.first[last]);
    AncestorNum(ix, a, last);
  }

  // ----- Taking items out of the index -----

  lemma {:induction false} AncestorAfterRemoval(ix: Index, gone: set<BlockId>, it: Item, k: nat)
    requires WellKeyed(ix) && Ancestor(ix, it, k).Some?
    requires forall j: nat :: 0 < j <= k ==> Ancestor(ix, it, j).Some? ==> Id(Ancestor(ix, it, j).value.block) !in gone
    ensures Ancestor(ix - gone, it, k) == Ancestor(ix, it, k)
    decreases k
  {
    if k > 0 {
      var p := Prev(ix, it).value;
      assert Ancestor(ix, it, 1) == Some(p) by { assert Ancestor(ix, p, 0) == Some(p); }
      assert it.block.previous !in gone;
      forall j: nat | 0 < j <= k - 1 && Ancestor(ix, p, j).Some? ensures Id(Ancestor(ix, p, j).value.block) !in gone {
        assert Ancestor(ix, it, j + 1) == Ancestor(ix, p, j);
      }
      AncestorAfterRemoval(ix, gone, p, k - 1);
    }
  }

  // ----- The database -----

  const DEFAULT_SIZE: nat := 1024

  class ForkDb {
    var index: Index
    var head: Option<Item>
    var maxSize: nat

    constructor ()
      ensures index == map[] && head == None && maxSize == DEFAULT_SIZE
    {
      index, head, maxSize := map[], None, DEFAULT_SIZE;
    }

    /** Whether a block is near enough to the head and its parent known; anything goes at first. */
    predicate Accepts(b: Block)
      reads this
    {
      head.None? || (Num(b) > Num(head.value.block) - maxSize && (b.previous == NULL_ID || b.previous in index))
    }

    function NewItem(b: Block): Item
      reads this
    {
      Item(b, head.Some? && b.previous != NULL_ID)
    }

    function IndexAfter(b: Block): Index
      reads this
    {
      if Id(b) in index then index else index[Id(b) := NewItem(b)]
    }

    /** Only a higher block becomes the head. */
    function HeadAfter(b: Block): Item
      reads this
    {
      if head.None? || Num(b) > Num(head.value.block) then NewItem(b) else head.value
    }

    /** _push_block: a block whose parent is unknown is refused. */
    method PushBlock(b: Block) returns (ok: bool)
      requires WellKeyed(index)
      modifies this`index, this`head
      ensures WellKeyed(index)
      ensures ok == old(Accepts(b))
      ensures !ok ==> index == old(index) && head == old(head)
      ensures ok ==> index == old(IndexAfter(b)) && head == Some(old(HeadAfter(b)))
    {
      if head.Some? {
        var lowest := Num(head.value.block) - maxSize;
        if Num(b) <= (if lowest > 0 then lowest else 0) {
          return false;
        }
      }
      var linked := head.Some? && b.previous != NULL_ID;
      if linked && b.previous !in index {
        return false;
      }
      var it := Item(b, linked);
      if Id(b) !in index {
        index := index[Id(b) := it];
      }
      if head.None? || Num(b) > Num(head.value.block) {
        head := Some(it);
      }
      return true;
    }

    method PopBlock() returns (ok: bool)
      modifies this`head
      ensures ok == (head.Some? && old(head).Some? && Prev(index, old(head).value).Some?)
      ensures head == if ok then Prev(index, old(head).value) else old(head)
    {
      if head.None? {
        return false;
      }
      var prev := Prev(index, head.value);
      if prev.None? {
        return false;
      }
      head := prev;
      return true;
    }

    method Remove(id: BlockId)
      requires WellKeyed(index)
      modifies this`index
      ensures index == old(index) - {id} && WellKeyed(index)
    {
      index := index - {id};
    }

    method Reset()
      modifies this`index, this`head
      ensures index == map[] && head == None
    {
      index, head := map[], None;
    }

    method StartBlock(b: Block)
      requires WellKeyed(index)
      modifies this`index, this`head
      ensures WellKeyed(index) && head == Some(Item(b, false)) && index == old(index)[Id(b) := head.value]
    {
      var it := Item(b, false);
      index, head := index[Id(b) := it], Some(it);
    }

    /** set_max_size: forget the blocks too far below the head. */
    method SetMaxSize(size: nat)
      requires WellKeyed(index)
      modifies this`index, this`maxSize
      ensures WellKeyed(index) && maxSize == size
      ensures index == if head.None? then old(index)
                       else map id | id in old(index) && id.num >= Num(head.value.block) - size :: old(index)[id]
    {
      maxSize := size;
      if head.None? {
        return;
      }
      var lowest := Num(head.value.block) - size;
      while exists id :: id in index && id.num < lowest
        invariant WellKeyed(index) && maxSize == size
        invariant forall id :: id in index ==> id in old(index) && index[id] == old(index)[id]
        invariant forall id :: id in old(index) && id.num >= lowest ==> id in index
        decreases |index|
      {
        var id :| id in index && id.num < lowest;
        ghost var was := index;
        index := index - {id};
        assert was.Keys == index.Keys + {id};
      }
    }

    /** walk_main_branch_to_num. */
    method WalkMainBranchToNum(n: nat) returns (r: Option<Item>)
      requires WellKeyed(index) && head.Some?
      ensures var top := Num(head.value.block);
              r == if n > top then None else Ancestor(index, head.value, top - n)
    {
      var start := head.value;
      if n > Num(start.block) {
        return None;
      }
      r := Some(start);
      ghost var k := 0;
      while r.Some? && Num(r.value.block) > n
        invariant k <= Num(start.block) - n && r == Ancestor(index, start, k)
        invariant r.Some? ==> Num(r.value.block) + k == Num(start.block)
        invariant r.None? ==> Ancestor(index, start, Num(start.block) - n) == None
        decreases Num(start.block) - k
      {
        AncestorNext(index, start, k);
        r := Prev(index, r.value);
        k := k + 1;
        if r.None? && Ancestor(index, start, Num(start.block) - n).Some? {
          AncestorDefined(index, start, k, Num(start.block) - n);
        }
      }
    }

    /** fetch_branch_from: it fails exactly when there is no common parent to be found. */
    method FetchBranchFrom(first: BlockId, second: BlockId) returns (r: Option<Branches>)
      requires WellKeyed(index)
      ensures r.Some? ==> first in index && second in index && GoodBranches(index, index[first], index[second], r.value)
      ensures r.None? ==> first !in index || second !in index ||
                          forall m: nat, n: nat :: !Meets(index, index[first], m, index[second], n)
    {
      if first !in index || second !in index {
        return None;
      }
      var a, b := index[first], index[second];
      var f, x := Descend(a, Num(b.block));
      var s, y := Descend(b, Num(a.block));
      if x.None? || y.None? {
        forall m: nat, n: nat ensures !Meets(index, a, m, b, n) {
          if Meets(index, a, m, b, n) {
            MeetsLevel(index, a, m, b, n);
            AncestorDefined(index, a, if |f| <= m then |f| else 0, m);
            AncestorDefined(index, b, if |s| <= n then |s| else 0, n);
          }
        }
        return None;
      }
      r := DescendTogether(a, b, f, s, x.value, y.value);
    }

    /** The first two loops: collect blocks from `a` down to height `n`. */
    method Descend(a: Item, n: nat) returns (path: seq<Item>, at: Option<Item>)
      requires WellKeyed(index)
      ensures IsChain(index, a, path) && at == Ancestor(index, a, |path|)
      ensures if Num(a.block) <= n then path == []
              else |path| <= Num(a.block) - n && (at.Some? ==> |path| == Num(a.block) - n)
    {
      path, at := [], Some(a);
      while at.Some? && Num(at.value.block) > n
        invariant IsChain(index, a, path) && at == Ancestor(index, a, |path|)
        invariant at.Some? ==> Num(at.value.block) + |path| == Num(a.block)
        invariant if Num(a.block) <= n then path == [] else |path| <= Num(a.block) - n
        decreases Num(a.block) - |path|
      {
        AncestorNext(index, a, |path|);
        path := path + [at.value];
        at := Prev(index, at.value);
        if at.Some? {
          AncestorNum(index, a, |path|);
        }
      }
    }

    /** The last loop: both sides go down until the parents are the same. */
    method DescendTogether(a: Item, b: Item, f0: seq<Item>, s0: seq<Item>, x0: Item, y0: Item)
      returns (r: Option<Branches>)
      requires WellKeyed(index)
      requires IsChain(index, a, f0) && Ancestor(index, a, |f0|) == Some(x0)
      requires IsChain(index, b, s0) && Ancestor(index, b, |s0|) == Some(y0)
      requires Num(a.block) - |f0| == Num(b.block) - |s0|
      requires |f0| == 0 || |s0| == 0
      ensures r.Some? ==> GoodBranches(index, a, b, r.value)
      ensures r.None? ==> forall m: nat, n: nat :: !Meets(index, a, m, b, n)
    {
      var f, s, x, y := f0, s0, x0, y0;
      AncestorNum(index, a, |f|);
      AncestorNum(index, b, |s|);
      forall m: nat, n: nat | Meets(index, a, m, b, n) ensures |f| <= m && |s| <= n {
        MeetsLevel(index, a, m, b, n);
      }
      while x.block.previous != y.block.previous
        invariant IsChain(index, a, f) && Ancestor(index, a, |f|) == Some(x)
        invariant IsChain(index, b, s) && Ancestor(index, b, |s|) == Some(y)
        invariant Num(a.block) - |f| == Num(b.block) - |s| == Num(x.block)
        invariant |f| - |f0| == |s| - |s0| >= 0
        invariant forall m: nat, n: nat {:trigger Meets(index, a, m, b, n)} :: Meets(index, a, m, b, n) ==>
                  |f| <= m && |s| <= n
        decreases Num(x.block)
      {
        StepDown(index, a, b, |f|, |s|);
        f, s := f + [x], s + [y];
        var p, q := Prev(index, x), Prev(index, y);
        if p.None? || q.None? {
          return None;
        }
        AncestorNum(index, a, |f|);
        x, y := p.value, q.value;
      }
      f, s := f + [x], s + [y];
      return Some(Branches(f, s));
    }
  }

  /** One level further down on both sides, if the parents differ at this one. */
  lemma StepDown(ix: Index, a: Item, b: Item, i: nat, j: nat)
    requires WellKeyed(ix) && Ancestor(ix, a, i).Some? && Ancestor(ix, b, j).Some?
    requires Num(a.block) - i == Num(b.block) - j
    requires Ancestor(ix, a, i).value.block.previous != Ancestor(ix, b, j).value.block.previous
    requires forall m: nat, n: nat {:trigger Meets(ix, a, m, b, n)} :: Meets(ix, a, m, b, n) ==> i <= m && j <= n
    ensures forall m: nat, n: nat {:trigger Meets(ix, a, m, b, n)} :: Meets(ix, a, m, b, n) ==> i + 1 <= m && j + 1 <= n
    ensures Ancestor(ix, a, i + 1) == Prev(ix, Ancestor(ix, a, i).value)
    ensures Ancestor(ix, b, j + 1) == Prev(ix, Ancestor(ix, b, j).value)
    ensures Ancestor(ix, a, i + 1).None? || Ancestor(ix, b, j + 1).None? ==>
              forall m: nat, n: nat :: !Meets(ix, a, m, b, n)
  {
    AncestorNext(ix, a, i);
    AncestorNext(ix, b, j);
    forall m: nat, n: nat | Meets(ix, a, m, b, n)
      ensures i + 1 <= m && j + 1 <= n && Ancestor(ix, a, i + 1).Some? && Ancestor(ix, b, j + 1).Some?
    {
      MeetsLevel(ix, a, m, b, n);
      assert m != i;
      AncestorDefined(ix, a, i + 1, m);
      AncestorDefined(ix, b, j + 1, n);
    }
  }
}
