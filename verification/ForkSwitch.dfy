/**
 Pushing a block, with a switch to another fork when that fork has become longer.

 The chain state changes only by applying a block, which is deterministic and may fail, and
 by undoing the last applied block.  A switch undoes the blocks down to the fork point and
 applies the new branch; if one of its blocks fails, everything is put back.
 */
module ForkSwitch {
  import opened Options
  import opened ForkDatabase

  /** The state of the chain: the id of the head block and whatever the blocks operate on. */
  datatype Chain<L> = Chain(head: BlockId, ledger: L)

  /** Applying a block: it must build on the head, and its contents must be valid. */
  function Apply<L>(exec: (L, Block) -> Option<L>, c: Chain<L>, b: Block): Option<Chain<L>>
  {
    if b.previous != c.head then None
    else
      match exec(c.ledger, b)
      case None => None
      case Some(l) => Some(Chain(Id(b), l))
  }

  /** Applying blocks in order; a failure ends it. */
  function ApplyAll<L>(exec: (L, Block) -> Option<L>, c: Chain<L>, bs: seq<Block>): Option<Chain<L>>
  {
    if bs == [] then Some(c)
    else
      match ApplyAll(exec, c, bs[..|bs| - 1])
      case None => None
      case Some(d) => Apply(exec, d, bs[|bs| - 1])
  }

  /** The states a sequence of blocks goes through. */
  ghost predicate History<L(!new)>(exec: (L, Block) -> Option<L>, states: seq<Chain<L>>, bs: seq<Block>)
  {
    && |states| == |bs| + 1
    && forall i {:trigger bs[i]} :: 0 <= i < |bs| ==> Apply(exec, states[i], bs[i]) == Some(states[i + 1])
  }

  /** The blocks of a branch, oldest first. */
  function Blocks(path: seq<Item>): (bs: seq<Block>)
    ensures |bs| == |path| && forall i :: 0 <= i < |path| ==> bs[i] == path[|path| - 1 - i].block
  {
    seq(|path|, i requires 0 <= i < |path| => path[|path| - 1 - i].block)
  }

  /** The ids of the first `n` blocks of a branch. */
  function Ids(path: seq<Item>, n: nat): set<BlockId>
    requires n <= |path|
  {
    set i | 0 <= i < n :: Id(path[i].block)
  }

  /** What the index holds under the id of an applied block is that block. */
  ghost predicate Faithful(ix: Index, bs: seq<Block>)
  {
    forall i {:trigger bs[i]} :: 0 <= i < |bs| && Id(bs[i]) in ix ==> ix[Id(bs[i])].block == bs[i]
  }

  lemma FaithfulFewer(ix: Index, gone: set<BlockId>, bs: seq<Block>)
    requires Faithful(ix, bs)
    ensures Faithful(ix - gone, bs)
  {
  }

  // ----- The branch that is given up consists of the blocks applied last -----

  lemma {:induction false} BranchWasApplied<L(!new)>(
      exec: (L, Block) -> Option<L>, states: seq<Chain<L>>, bs: seq<Block>, ix: Index, path: seq<Item>, j: nat)
    requires History(exec, states, bs) && WellKeyed(ix) && Faithful(ix, bs)
    requires states[|bs|].head in ix && IsChain(ix, ix[states[|bs|].head], path)
    requires j < |path| <= |bs|
    ensures path[j].block == bs[|bs| - 1 - j] && path[j].block.previous == states[|bs| - 1 - j].head
    decreases j
  {
    var n, it := |bs|, ix[states[|bs|].head];
    assert Apply(exec, states[n - 1 - j], bs[n - 1 - j]) == Some(states[n - 1 - j + 1]);
    assert Ancestor(ix, it, j) == Some(path[j]);
    if j == 0 {
      assert Id(bs[n - 1]) in ix;
    } else {
      BranchWasApplied(exec, states, bs, ix, path, j - 1);
      assert Ancestor(ix, it, j - 1) == Some(path[j - 1]);
      AncestorNext(ix, it, j - 1);
      assert path[j - 1].block.previous == Id(bs[n - 1 - j]);
    }
  }

  lemma {:induction false} ApplyAllStep<L>(exec: (L, Block) -> Option<L>, c: Chain<L>, bs: seq<Block>, i: nat)
    requires i < |bs|
    ensures ApplyAll(exec, c, bs[..i + 1]) ==
            match ApplyAll(exec, c, bs[..i]) { case None => None case Some(d) => Apply(exec, d, bs[i]) }
  {
    assert bs[..i + 1][..i] == bs[..i];
  }

  /** Once a prefix fails, so does the whole. */
  lemma {:induction false} ApplyAllFails<L>(exec: (L, Block) -> Option<L>, c: Chain<L>, bs: seq<Block>, i: nat)
    requires i <= |bs| && ApplyAll(exec, c, bs[..i]).None?
    ensures ApplyAll(exec, c, bs).None?
    decreases |bs|
  {
    if i < |bs| {
      assert bs[..|bs| - 1][..i] == bs[..i];
      ApplyAllFails(exec, c, bs[..|bs| - 1], i);
    } else {
      assert bs[..i] == bs;
    }
  }

  // ----- Facts about the two branches -----

  lemma ChainItems(ix: Index, id: BlockId, path: seq<Item>, i: nat)
    requires WellKeyed(ix) && id in ix && IsChain(ix, ix[id], path) && i < |path|
    ensures Id(path[i].block) in ix && ix[Id(path[i].block)] == path[i]
    ensures Num(path[i].block) == id.num - i
  {
    assert Ancestor(ix, ix[id], i) == Some(path[i]);
    AncestorNum(ix, ix[id], i);
    if i > 0 {
      AncestorNext(ix, ix[id], i - 1);
      assert Ancestor(ix, ix[id], i - 1).Some? by { AncestorDefined(ix, ix[id], i - 1, i); }
    }
  }

  /** The situation of a switch: `f` leads from the new head, `s` from the chain head, to a common parent. */
  ghost predicate Fork(ix: Index, top: BlockId, head: BlockId, br: Branches)
  {
    && WellKeyed(ix) && top in ix && head in ix && top.num > head.num
    && GoodBranches(ix, ix[top], ix[head], br)
  }

  lemma ForkLevels(ix: Index, top: BlockId, head: BlockId, br: Branches)
    requires Fork(ix, top, head, br)
    ensures |br.first| - |br.second| == top.num - head.num > 0
  {
    MeetsLevel(ix, ix[top], |br.first| - 1, ix[head], |br.second| - 1);
  }

  lemma FirstItems(ix: Index, top: BlockId, head: BlockId, br: Branches)
    requires Fork(ix, top, head, br)
    ensures forall i {:trigger br.first[i]} :: 0 <= i < |br.first| ==>
              Id(br.first[i].block) in ix && ix[Id(br.first[i].block)] == br.first[i]
  {
    forall i: nat | i < |br.first| ensures Id(br.first[i].block) in ix && ix[Id(br.first[i].block)] == br.first[i] {
      ChainItems(ix, top, br.first, i);
    }
  }

  /** Both branches end in a block of the same parent. */
  lemma MeetsParent(ix: Index, top: BlockId, head: BlockId, br: Branches)
    requires Fork(ix, top, head, br)
    ensures br.first[|br.first| - 1].block.previous == br.second[|br.second| - 1].block.previous
  {
    assert Ancestor(ix, ix[top], |br.first| - 1) == Some(br.first[|br.first| - 1]);
    assert Ancestor(ix, ix[head], |br.second| - 1) == Some(br.second[|br.second| - 1]);
  }

  /** The blocks discarded after a failure are not on the branch that is restored. */
  lemma RestoredKept(ix: Index, top: BlockId, head: BlockId, br: Branches, k: nat, j: nat)
    requires Fork(ix, top, head, br) && k <= |br.first| && j < |br.second|
    requires k < |br.first| || br.first[k - 1] != br.second[|br.second| - 1]
    ensures Id(br.second[j].block) !in Ids(br.first, k)
  {
    ChainItems(ix, head, br.second, j);
    if i :| 0 <= i < k && Id(br.first[i].block) == Id(br.second[j].block) {
      ChainItems(ix, top, br.first, i);
      BranchesDisjoint(ix, ix[top], ix[head], br, i, j);
    }
  }

  /** Nor are they among its ancestors. */
  lemma AncestorsKept(ix: Index, top: BlockId, head: BlockId, br: Branches, k: nat, j: nat)
    requires Fork(ix, top, head, br) && k <= |br.first| && Ancestor(ix, ix[head], j).Some?
    requires k < |br.first| || br.first[k - 1] != br.second[|br.second| - 1]
    ensures Id(Ancestor(ix, ix[head], j).value.block) !in Ids(br.first, k)
  {
    if j < |br.second| {
      assert Ancestor(ix, ix[head], j) == Some(br.second[j]);
      RestoredKept(ix, top, head, br, k, j);
    } else {
      ForkLevels(ix, top, head, br);
      AncestorNum(ix, ix[head], j);
      forall i | 0 <= i < k ensures Num(br.first[i].block) > Num(Ancestor(ix, ix[head], j).value.block) {
        ChainItems(ix, top, br.first, i);
      }
    }
  }

  lemma AncestorStays(ix: Index, top: BlockId, head: BlockId, br: Branches, k: nat, d: nat)
    requires Fork(ix, top, head, br) && k <= |br.first| && Ancestor(ix, ix[head], d).Some?
    requires k < |br.first| || br.first[k - 1] != br.second[|br.second| - 1]
    ensures Ancestor(ix - Ids(br.first, k), ix[head], d) == Ancestor(ix, ix[head], d)
  {
    forall j: nat | 0 < j <= d && Ancestor(ix, ix[head], j).Some?
      ensures Id(Ancestor(ix, ix[head], j).value.block) !in Ids(br.first, k)
    {
      AncestorsKept(ix, top, head, br, k, j);
    }
    AncestorAfterRemoval(ix, Ids(br.first, k), ix[head], d);
  }

  /** The chain below `head` is the same in both. */
  ghost predicate Intact(ix: Index, ix': Index, head: BlockId)
  {
    && head in ix && head in ix' && ix'[head] == ix[head]
    && forall d: nat {:trigger Ancestor(ix', ix[head], d)} ::
         Ancestor(ix, ix[head], d).Some? ==> Ancestor(ix', ix[head], d) == Ancestor(ix, ix[head], d)
  }

  lemma StaysIntact(ix: Index, top: BlockId, head: BlockId, br: Branches, k: nat)
    requires Fork(ix, top, head, br) && k <= |br.first|
    requires k < |br.first| || br.first[k - 1] != br.second[|br.second| - 1]
    ensures Intact(ix, ix - Ids(br.first, k), head)
  {
    assert Ancestor(ix, ix[head], 0) == Some(ix[head]);
    AncestorsKept(ix, top, head, br, k, 0);
    forall d: nat | Ancestor(ix, ix[head], d).Some?
      ensures Ancestor(ix - Ids(br.first, k), ix[head], d) == Ancestor(ix, ix[head], d)
    {
      AncestorStays(ix, top, head, br, k, d);
    }
  }

  // ----- What pruning leaves -----

  /**
   The state of the fork database and the undo history when nothing below number `lib` can be
   undone any more: the chain head reaches down to `lib` in the index, and there is undo history
   back to it; the chain head is the highest block, and a fork head above it builds on it.
   */
  ghost predicate Pruned(ix: Index, fh: Option<Item>, head: BlockId, depth: nat, lib: nat)
  {
    && lib <= head.num <= lib + depth
    && head in ix && Ancestor(ix, ix[head], head.num - lib).Some?
    && UpTo(ix, head.num)
    && fh.Some? && Num(fh.value.block) <= head.num + 1
    && (Num(fh.value.block) == head.num + 1 ==> fh.value.block.previous == head)
  }

  ghost predicate UpTo(ix: Index, n: nat)
  {
    forall id {:trigger ix[id]} :: id in ix ==> id.num <= n
  }

  /** A new block, as it is stored, leads down to the irreversible block that the chain head leads to. */
  ghost predicate Descends(ix: Index, it: Item, head: BlockId, lib: nat)
  {
    && head in ix && lib <= head.num && lib <= Num(it.block)
    && Ancestor(ix, it, Num(it.block) - lib) == Ancestor(ix, ix[head], head.num - lib)
  }

  lemma {:induction false} AncestorAfterAdding(ix: Index, id: BlockId, x: Item, it: Item, k: nat)
    requires id !in ix && Ancestor(ix, it, k).Some?
    ensures Ancestor(ix[id := x], it, k) == Ancestor(ix, it, k)
    decreases k
  {
    if k > 0 {
      AncestorAfterAdding(ix, id, x, Prev(ix, it).value, k - 1);
    }
  }

  /** Above the irreversible block the two chains meet. */
  lemma DescendingMeets(ix: Index, it: Item, head: BlockId, lib: nat)
    requires WellKeyed(ix) && Descends(ix, it, head, lib) && Ancestor(ix, ix[head], head.num - lib).Some?
    requires Num(it.block) == head.num + 1 && it.block.previous != head && Id(it.block) in ix && ix[Id(it.block)] == it
    ensures lib < head.num && Meets(ix, it, head.num - lib, ix[head], head.num - lib - 1)
  {
    var d := head.num - lib;
    var z := Ancestor(ix, ix[head], d).value;
    AncestorNext(ix, it, d);
    AncestorDefined(ix, it, d, d + 1);
    var x := Ancestor(ix, it, d).value;
    assert Prev(ix, x) == Some(z);
    if d == 0 {
      assert false;
    }
    AncestorNext(ix, ix[head], d - 1);
    AncestorDefined(ix, ix[head], d - 1, d);
    var y := Ancestor(ix, ix[head], d - 1).value;
    assert Prev(ix, y) == Some(z);
    SameParent(ix, x, y, z);
  }

  lemma SameParent(ix: Index, x: Item, y: Item, z: Item)
    requires WellKeyed(ix) && Prev(ix, x) == Some(z) == Prev(ix, y)
    ensures x.block.previous == y.block.previous == Id(z.block)
  {
    assert ix[x.block.previous] == z && ix[y.block.previous] == z;
  }

  /** So what a switch needs is retained. */
  lemma PrunedRetains(ix: Index, it: Item, head: BlockId, depth: nat, lib: nat, br: Branches)
    requires Descends(ix, it, head, lib) && Ancestor(ix, ix[head], head.num - lib).Some? && head.num <= lib + depth
    requires Num(it.block) == head.num + 1 && it.block.previous != head && Id(it.block) in ix && ix[Id(it.block)] == it
    requires Fork(ix, Id(it.block), head, br)
    ensures |br.second| <= depth && |br.first| == |br.second| + 1 && |br.second| <= head.num - lib
    ensures Ancestor(ix, it, |br.second|).Some? && Ancestor(ix, ix[head], |br.first| - 1).Some?
  {
    DescendingMeets(ix, it, head, lib);
    ForkLevels(ix, Id(it.block), head, br);
    assert Ancestor(ix, it, |br.second|) == Some(br.first[|br.second|]);
    AncestorDefined(ix, ix[head], |br.second|, head.num - lib);
  }

  lemma ExtendedPruned(ix: Index, fh: Option<Item>, head: BlockId, depth: nat, lib: nat, it: Item, h: Item)
    requires WellKeyed(ix) && Pruned(ix, fh, head, depth, lib)
    requires it.block.previous == head && it.linked && Id(it.block) !in ix && Num(h.block) <= head.num + 1
    ensures Pruned(ix[Id(it.block) := it], Some(h), Id(it.block), depth + 1, lib)
  {
    var id, ix' := Id(it.block), ix[Id(it.block) := it];
    AncestorAfterAdding(ix, id, it, ix[head], head.num - lib);
    assert Prev(ix', it) == Some(ix'[head]);
    assert Ancestor(ix', it, head.num - lib + 1) == Ancestor(ix', ix'[head], head.num - lib);
  }

  lemma SwitchedPruned(ix: Index, it: Item, head: BlockId, depth: nat, lib: nat, br: Branches)
    requires Descends(ix, it, head, lib) && Ancestor(ix, ix[head], head.num - lib).Some? && head.num <= lib + depth
    requires Num(it.block) == head.num + 1 && it.block.previous != head && Id(it.block) in ix && ix[Id(it.block)] == it
    requires Fork(ix, Id(it.block), head, br) && UpTo(ix, head.num + 1)
    requires Ancestor(ix, it, head.num + 1 - lib).Some?
    ensures Pruned(ix, Ancestor(ix, it, |br.second|), Id(it.block), depth + 1, lib)
  {
    PrunedRetains(ix, it, head, depth, lib, br);
    AncestorNum(ix, it, |br.second|);
  }

  lemma BackPruned(ix: Index, it: Item, head: BlockId, depth: nat, lib: nat, br: Branches, done: nat, ix': Index)
    requires Fork(ix, Id(it.block), head, br) && done < |br.first| && Num(it.block) == head.num + 1
    requires lib <= head.num <= lib + depth && Ancestor(ix, ix[head], head.num - lib).Some?
    requires forall id {:trigger ix[id]} :: id in ix && id != Id(it.block) ==> id.num <= head.num
    requires ix' == ix - Ids(br.first, |br.first| - done) && Intact(ix, ix', head) && Ancestor(ix, ix[head], done).Some?
    ensures Pruned(ix', Ancestor(ix, ix[head], done), head, depth, lib)
  {
    AncestorNum(ix, ix[head], done);
    assert Ancestor(ix', ix[head], head.num - lib) == Ancestor(ix, ix[head], head.num - lib);
    assert Ancestor(ix, ix[Id(it.block)], 0) == Some(br.first[0]);
    assert Id(br.first[0].block) == Id(it.block);
    assert Id(it.block) in Ids(br.first, |br.first| - done);
  }

  /** The block with id `id` lies on the chain from `head` down to number `lib`. */
  ghost predicate OnChain(ix: Index, head: BlockId, lib: nat, id: BlockId)
  {
    && head in ix && id in ix && lib <= id.num <= head.num
    && Ancestor(ix, ix[head], head.num - id.num) == Some(ix[id])
  }

  /** Giving up a block does no harm exactly when it is not on that chain. */
  lemma RemovedPruned(ix: Index, fh: Option<Item>, head: BlockId, depth: nat, lib: nat, id: BlockId)
    requires WellKeyed(ix) && Pruned(ix, fh, head, depth, lib) && id in ix
    ensures Pruned(ix - {id}, fh, head, depth, lib) <==> !OnChain(ix, head, lib, id)
  {
    var it, k, ix' := ix[head], head.num - lib, ix - {id};
    if OnChain(ix, head, lib, id) {
      if id != head && Ancestor(ix', it, k).Some? {
        GoneIsMissed(ix, id, it, head.num - id.num, k);
      }
    } else {
      forall j: nat | j <= k && Ancestor(ix, it, j).Some? ensures Id(Ancestor(ix, it, j).value.block) != id {
        AncestorNum(ix, it, j);
        AncestorHeld(ix, it, j);
      }
      assert Ancestor(ix, it, 0) == Some(it);
      AncestorAfterRemoval(ix, {id}, it, k);
    }
  }

  lemma GoneIsMissed(ix: Index, id: BlockId, it: Item, j: nat, k: nat)
    requires WellKeyed(ix) && 0 < j <= k && Ancestor(ix, it, j).Some? && Id(Ancestor(ix, it, j).value.block) == id
    ensures Ancestor(ix - {id}, it, k).None?
  {
    var ix' := ix - {id};
    if Ancestor(ix', it, k).Some? {
      AncestorDefined(ix', it, j, k);
      AncestorInMore(ix, ix', it, j);
      AncestorNext(ix', it, j - 1);
      assert false;
    }
  }

  lemma {:induction false} AncestorInMore(ix: Index, ix': Index, it: Item, k: nat)
    requires (forall id :: id in ix' ==> id in ix && ix'[id] == ix[id]) && Ancestor(ix', it, k).Some?
    ensures Ancestor(ix, it, k) == Ancestor(ix', it, k)
    decreases k
  {
    if k > 0 {
      AncestorInMore(ix, ix', Prev(ix', it).value, k - 1);
    }
  }

  /** Forgetting blocks below `lib` leaves the chain down to it. */
  lemma PrunedFurther(ix: Index, ix': Index, fh: Item, head: BlockId, lib: nat, newLib: nat)
    requires WellKeyed(ix) && Pruned(ix, Some(fh), head, head.num, lib) && lib <= newLib <= head.num
    requires ix' == map id | id in ix && id.num >= Num(fh.block) - (head.num - newLib + 1) :: ix[id]
    ensures Pruned(ix', Some(fh), head, head.num - newLib, newLib)
  {
    var gone := set id | id in ix && id.num < Num(fh.block) - (head.num - newLib + 1);
    assert ix' == ix - gone;
    var d := head.num - newLib;
    AncestorDefined(ix, ix[head], d, head.num - lib);
    forall j: nat | 0 < j <= d && Ancestor(ix, ix[head], j).Some?
      ensures Id(Ancestor(ix, ix[head], j).value.block) !in gone
    {
      AncestorNum(ix, ix[head], j);
    }
    AncestorAfterRemoval(ix, gone, ix[head], d);
  }

  lemma HistorySuffix<L(!new)>(exec: (L, Block) -> Option<L>, states: seq<Chain<L>>, bs: seq<Block>, t: nat)
    requires History(exec, states, bs) && t <= |bs|
    ensures History(exec, states[t..], bs[t..])
  {
    forall i | 0 <= i < |bs| - t ensures Apply(exec, states[t..][i], bs[t..][i]) == Some(states[t..][i + 1]) {
      assert bs[t..][i] == bs[t + i];
    }
  }

  /** The last block applied is the head. */
  lemma HeadAfterAll<L>(exec: (L, Block) -> Option<L>, c: Chain<L>, path: seq<Item>)
    requires path != [] && ApplyAll(exec, c, Blocks(path)).Some?
    ensures ApplyAll(exec, c, Blocks(path)).value.head == Id(path[0].block)
  {
  }

  // ----- Replaying history -----

  lemma {:induction false} HistoryReplays<L(!new)>(
      exec: (L, Block) -> Option<L>, states: seq<Chain<L>>, bs: seq<Block>, m: nat, t: nat)
    requires History(exec, states, bs) && m + t <= |bs|
    ensures ApplyAll(exec, states[m], bs[m..m + t]) == Some(states[m + t])
    decreases t
  {
    if t > 0 {
      HistoryReplays(exec, states, bs, m, t - 1);
      assert bs[m..m + t][..t - 1] == bs[m..m + t - 1];
      assert Apply(exec, states[m + t - 1], bs[m + t - 1]) == Some(states[m + t - 1 + 1]);
    }
  }

  lemma HistoryPrefix<L(!new)>(exec: (L, Block) -> Option<L>, states: seq<Chain<L>>, bs: seq<Block>, t: nat)
    requires History(exec, states, bs) && t <= |bs|
    ensures History(exec, states[..t + 1], bs[..t])
  {
    forall i | 0 <= i < t ensures Apply(exec, states[..t + 1][i], bs[..t][i]) == Some(states[..t + 1][i + 1]) {
      assert bs[..t][i] == bs[i];
    }
  }

  lemma {:induction false} HistoryUnique<L(!new)>(
      exec: (L, Block) -> Option<L>, xs: seq<Chain<L>>, ys: seq<Chain<L>>, bs: seq<Block>, m: nat, t: nat)
    requires History(exec, xs, bs) && History(exec, ys, bs) && m <= t <= |bs| && xs[m] == ys[m]
    ensures xs[t] == ys[t]
    decreases t
  {
    if m < t {
      HistoryUnique(exec, xs, ys, bs, m, t - 1);
      assert Apply(exec, xs[t - 1], bs[t - 1]) == Some(xs[t - 1 + 1]);
      assert Apply(exec, ys[t - 1], bs[t - 1]) == Some(ys[t - 1 + 1]);
    }
  }

  datatype Outcome =
    | Extended        // the block was applied on top of the head
    | Switched        // the chain now ends in another branch
    | Stored          // kept in the fork database only
    | Refused         // an exception; the chain state is what it was

  class Database<L(!new)> {
    const exec: (L, Block) -> Option<L>
    const forks: ForkDb
    var chain: Chain<L>
    var undo: seq<Chain<L>>
    var logged: set<BlockId>        // blocks that can be read back from the block log
    ghost var applied: seq<Block>

    ghost predicate Valid()
      reads this, forks
    {
      && WellKeyed(forks.index)
      && History(exec, undo + [chain], applied)
      && Faithful(forks.index, applied)
    }

    constructor (exec: (L, Block) -> Option<L>, start: Chain<L>)
      ensures Valid() && chain == start && undo == [] && this.exec == exec && fresh(forks)
      ensures applied == [] && forks.index == map[] && forks.head.None? && forks.maxSize == DEFAULT_SIZE
    {
      this.exec, this.chain, this.undo, this.applied, this.logged := exec, start, [], [], {};
      this.forks := new ForkDb();
    }

    /** Apply one block under an undo session: kept on success, discarded on failure. */
    method ApplyBlock(b: Block) returns (ok: bool)
      requires Valid() && (Id(b) in forks.index ==> forks.index[Id(b)].block == b)
      modifies this`chain, this`undo, this`applied
      ensures Valid()
      ensures ok == Apply(exec, old(chain), b).Some?
      ensures ok ==>
              chain == Apply(exec, old(chain), b).value && undo == old(undo) + [old(chain)] &&
              applied == old(applied) + [b]
      ensures !ok ==> chain == old(chain) && undo == old(undo) && applied == old(applied)
    {
      var next := Apply(exec, chain, b);
      if next.None? {
        return false;
      }
      undo := undo + [chain];
      chain := next.value;
      applied := applied + [b];
      forall i | 0 <= i < |applied| ensures Apply(exec, (undo + [chain])[i],
          applied[i]) == Some((undo + [chain])[i + 1]) {
        if i < |applied| - 1 {
          assert (old(undo) + [old(chain)])[i + 1] == (undo + [chain])[i + 1];
        }
      }
      return true;
    }

    /** pop_block: the fork database steps down its own branch, the chain state is undone. */
    method PopBlock() returns (ok: bool)
      requires Valid() && undo != []
      modifies this`chain, this`undo, this`applied, forks`head
      ensures Valid()
      ensures ok == ((old(chain).head in forks.index || old(chain).head in logged) &&
                     old(forks.head).Some? && Prev(forks.index, old(forks.head).value).Some?)
      ensures !ok ==>
              chain == old(chain) && undo == old(undo) && applied == old(applied) && forks.head == old(forks.head)
      ensures ok ==> var n := |old(undo)| - 1;
                     && chain == old(undo)[n] && undo == old(undo)[..n] && applied == old(applied)[..n]
                     && forks.head == Prev(forks.index, old(forks.head).value)
    {
      if chain.head !in forks.index && chain.head !in logged {
        return false;
      }
      ok := forks.PopBlock();
      if !ok {
        return;
      }
      chain, undo, applied := undo[|undo| - 1], undo[..|undo| - 1], applied[..|undo| - 1];
      forall i | 0 <= i < |applied| ensures Apply(exec, (undo + [chain])[i],
          applied[i]) == Some((undo + [chain])[i + 1]) {
        assert (old(undo) + [old(chain)])[i + 1] == (undo + [chain])[i + 1];
      }
    }

    /** Pop until the head is `target`, `count` blocks down in the history `states`. */
    method PopTo(target: BlockId, ghost states: seq<Chain<L>>, ghost count: nat)
      requires Valid() && states == undo + [chain] && count < |states| && target == states[|undo| - count].head
      requires forall i {:trigger states[i]} :: |undo| - count < i < |states| ==>
                 states[i].head in forks.index && states[i].head.num > target.num
      requires forks.head.Some? && Ancestor(forks.index, forks.head.value, count).Some?
      modifies this`chain, this`undo, this`applied, forks`head
      ensures Valid()
      ensures var n := |states| - 1 - count;
              chain == states[n] && undo == states[..n] && applied == old(applied)[..n]
      ensures forks.head == Ancestor(forks.index, old(forks.head).value, count)
    {
      ghost var top, n := forks.head.value, |undo|;
      ghost var j := 0;
      while chain.head != target
        invariant Valid() && j <= count
        invariant undo == states[..n - j] && chain == states[n - j] && applied == old(applied)[..n - j]
        invariant forks.head == Ancestor(forks.index, top, j) && forks.head.Some?
        decreases |undo|
      {
        AncestorNext(forks.index, top, j);
        AncestorDefined(forks.index, top, j + 1, count);
        var ok := PopBlock();
        j := j + 1;
      }
    }

    /** Apply the blocks of a branch, oldest first, until one fails. */
    method ApplyBranch(path: seq<Item>) returns (done: nat)
      requires Valid()
      requires forall i :: 0 <= i < |path| ==>
               Id(path[i].block) in forks.index && forks.index[Id(path[i].block)] == path[i]
      modifies this`chain, this`undo, this`applied
      ensures Valid() && done <= |path|
      ensures |undo| == |old(undo)| + done && (undo + [chain])[..|old(undo)| + 1] == old(undo) + [old(chain)]
      ensures applied == old(applied) + Blocks(path)[..done]
      ensures ApplyAll(exec, old(chain), Blocks(path)[..done]) == Some(chain)
      ensures done < |path| ==> Apply(exec, chain, Blocks(path)[done]).None?
    {
      var bs := Blocks(path);
      done := 0;
      while done < |bs|
        invariant Valid() && done <= |bs|
        invariant |undo| == |old(undo)| + done && (undo + [chain])[..|old(undo)| + 1] == old(undo) + [old(chain)]
        invariant applied == old(applied) + bs[..done]
        invariant ApplyAll(exec, old(chain), bs[..done]) == Some(chain)
      {
        ghost var was := undo + [chain];
        var ok := ApplyBlock(bs[done]);
        if !ok {
          return;
        }
        assert (undo + [chain])[..|was|] == was;
        ApplyAllStep(exec, old(chain), bs, done);
        assert bs[..done + 1] == bs[..done] + [bs[done]];
        done := done + 1;
      }
    }

    /**
     Enough is retained to switch to the branch of `h` and, if need be, to switch back: nothing
     is committed past the fork point, and the fork items that get popped are still there.
     */
    ghost predicate Retained(ix: Index, h: Item)
      reads this
    {
      forall br {:trigger Fork(ix, Id(h.block), chain.head, br)} :: Fork(ix, Id(h.block), chain.head, br) ==>
        && |br.second| <= |undo|
        && Ancestor(ix, h, |br.second|).Some?
        && Ancestor(ix, ix[chain.head], |br.first| - 1).Some?
    }

    /** The blocks of the abandoned branch, as applied. */
    lemma SecondWasApplied(br: Branches, top: BlockId)
      requires Valid() && Fork(forks.index, top, chain.head, br) && |br.second| <= |undo|
      ensures var n := |undo| - |br.second|;
              && Blocks(br.second) == applied[n..]
              && br.second[|br.second| - 1].block.previous == (undo + [chain])[n].head
    {
      var states, n := undo + [chain], |undo| - |br.second|;
      forall i | 0 <= i < |br.second| ensures Blocks(br.second)[i] == applied[n + i] {
        BranchWasApplied(exec, states, applied, forks.index, br.second, |br.second| - 1 - i);
      }
      BranchWasApplied(exec, states, applied, forks.index, br.second, |br.second| - 1);
    }

    /** Undo the blocks of the abandoned branch. */
    method LeaveBranch(br: Branches, ghost top: BlockId)
      requires Valid() && Fork(forks.index, top, chain.head, br) && |br.second| <= |undo|
      requires forks.head.Some? && Ancestor(forks.index, forks.head.value, |br.second|).Some?
      modifies this`chain, this`undo, this`applied, forks`head
      ensures Valid()
      ensures var n := |old(undo)| - |br.second|;
              && chain == (old(undo) + [old(chain)])[n] && undo == old(undo)[..n] && applied == old(applied)[..n]
      ensures forks.head == Ancestor(forks.index, old(forks.head).value, |br.second|)
    {
      ghost var states := undo + [chain];
      var target := br.second[|br.second| - 1].block.previous;
      SecondWasApplied(br, top);
      ForkLevels(forks.index, top, chain.head, br);
      forall i {:trigger states[i]} | |undo| - |br.second| < i < |states|
        ensures states[i].head in forks.index && states[i].head.num > target.num
      {
        var j := |undo| - i;
        ChainItems(forks.index, chain.head, br.second, j);
        ChainItems(forks.index, chain.head, br.second, |br.second| - 1);
        BranchWasApplied(exec, states, applied, forks.index, br.second, j);
        assert Apply(exec, states[i - 1], applied[i - 1]) == Some(states[i - 1 + 1]);
      }
      PopTo(target, states, |br.second|);
      assert states[..|old(undo)| - |br.second|] == old(undo)[..|old(undo)| - |br.second|];
    }

    /** The failed block and everything above it on the branch leave the fork database. */
    method RemoveFirst(path: seq<Item>, n: nat)
      requires WellKeyed(forks.index) && n <= |path|
      modifies forks`index
      ensures WellKeyed(forks.index) && forks.index == old(forks.index) - Ids(path, n)
    {
      var i := n;
      while i > 0
        invariant 0 <= i <= n && WellKeyed(forks.index)
        invariant forks.index == old(forks.index) - (set j | i <= j < n :: Id(path[j].block))
      {
        i := i - 1;
        forks.Remove(Id(path[i].block));
      }
    }

    /** Before a switch the chain went through `states` by `bs`; `done` blocks of the new branch are applied. */
    ghost predicate Switching(br: Branches, top: BlockId, ix: Index, states: seq<Chain<L>>, bs: seq<Block>, done: nat)
      reads this, forks
    {
      && Valid() && forks.index == ix
      && History(exec, states, bs) && Faithful(ix, bs)
      && Fork(ix, top, states[|bs|].head, br) && |br.second| <= |bs|
      && Ancestor(ix, ix[states[|bs|].head], |br.first| - 1).Some?
      && var n := |bs| - |br.second|;
         && done <= |br.first|
         && |undo| == n + done && (undo + [chain])[..n + 1] == states[..n + 1]
         && applied == bs[..n] + Blocks(br.first)[..done]
         && Blocks(br.second) == bs[n..]
         && br.second[|br.second| - 1].block.previous == states[n].head
    }

    /** What the blocks of the new branch look like while they are applied. */
    lemma NewHeads(br: Branches, top: BlockId, ix: Index, states: seq<Chain<L>>, bs: seq<Block>, done: nat, i: nat)
      requires Switching(br, top, ix, states, bs, done)
      requires |bs| - |br.second| < i <= |undo|
      ensures var h := (undo + [chain])[i].head;
              && h in ix && h !in Ids(br.first, |br.first| - done)
              && h.num > br.second[|br.second| - 1].block.previous.num
    {
      var n, k := |bs| - |br.second|, |br.first| - (i - (|bs| - |br.second|));
      assert Apply(exec, (undo + [chain])[i - 1], applied[i - 1]) == Some((undo + [chain])[i - 1 + 1]);
      assert applied[i - 1] == br.first[k].block;
      ChainItems(ix, top, br.first, k);
      ChainItems(ix, top, br.first, |br.first| - 1);
      MeetsParent(ix, top, states[|bs|].head, br);
      forall j | 0 <= j < |br.first| - done ensures Id(br.first[j].block).num > Id(br.first[k].block).num {
        ChainItems(ix, top, br.first, j);
      }
    }

    /** A branch that fails at its very first block does not start with the block of the other one. */
    lemma FailureIsNew(br: Branches, top: BlockId, ix: Index, states: seq<Chain<L>>, bs: seq<Block>)
      requires Switching(br, top, ix, states, bs, 0)
      requires Apply(exec, chain, Blocks(br.first)[0]).None?
      ensures br.first[|br.first| - 1] != br.second[|br.second| - 1]
    {
      var n := |bs| - |br.second|;
      assert Apply(exec, states[n], bs[n]) == Some(states[n + 1]);
      assert chain == (undo + [chain])[..n + 1][n] == states[n];
      assert Blocks(br.second)[0] == bs[n];
    }

    /** What switching back needs is still in the index once the failed blocks are gone. */
    lemma CanSwitchBack(br: Branches, done: nat, top: BlockId, ix: Index, states: seq<Chain<L>>, bs: seq<Block>)
      requires Switching(br, top, ix, states, bs, done) && done < |br.first|
      requires Apply(exec, chain, Blocks(br.first)[done]).None?
      ensures var n, left, now := |bs| - |br.second|, ix - Ids(br.first, |br.first| - done), undo + [chain];
              && (forall j {:trigger br.second[j]} :: 0 <= j < |br.second| ==>
                    Id(br.second[j].block) in left && left[Id(br.second[j].block)] == br.second[j])
              && (forall i {:trigger now[i]} :: n < i <= |undo| ==>
                    now[i].head in left && now[i].head.num > br.second[|br.second| - 1].block.previous.num)
              && Ancestor(left, br.second[0], done).Some?
              && Ancestor(left, br.second[0], done) == Ancestor(ix, ix[states[|bs|].head], done)
              && now[n] == states[n]
              && Intact(ix, left, states[|bs|].head)
    {
      var n, head, k := |bs| - |br.second|, states[|bs|].head, |br.first| - done;
      var target := br.second[|br.second| - 1].block.previous;
      if done == 0 {
        FailureIsNew(br, top, ix, states, bs);
      }
      StaysIntact(ix, top, head, br, k);
      forall j: nat | j < |br.second| ensures Id(br.second[j].block) in ix - Ids(br.first, k) &&
          ix[Id(br.second[j].block)] == br.second[j] {
        RestoredKept(ix, top, head, br, k, j);
        ChainItems(ix, head, br.second, j);
      }
      assert Ancestor(ix, ix[head], 0) == Some(br.second[0]);
      AncestorDefined(ix, ix[head], done, |br.first| - 1);
      forall i {:trigger (undo + [chain])[i]} | n < i <= |undo|
        ensures (undo + [chain])[i].head in ix - Ids(br.first, k) && (undo + [chain])[i].head.num > target.num
      {
        NewHeads(br, top, ix, states, bs, done, i);
      }
      assert (undo + [chain])[n] == states[n] by { assert (undo + [chain])[..n + 1][n] == states[..n + 1][n]; }
    }

    /** After a failure: the branch is cut off, the new blocks are popped, the old ones applied again. */
    method SwitchBack(br: Branches, done: nat, ghost top: BlockId, ghost ix: Index, ghost states: seq<Chain<L>>,
                      ghost bs: seq<Block>)
      requires Switching(br, top, ix, states, bs, done) && done < |br.first|
      requires Apply(exec, chain, Blocks(br.first)[done]).None?
      modifies this`chain, this`undo, this`applied, forks`head, forks`index
      ensures Valid() && chain == states[|bs|] && undo == states[..|bs|] && applied == bs
      ensures forks.index == ix - Ids(br.first, |br.first| - done)
      ensures forks.head == Ancestor(ix, ix[states[|bs|].head], done) && forks.head.Some?
      ensures Intact(ix, forks.index, states[|bs|].head)
    {
      hide Meets, Faithful, IsChain, WellKeyed, Intact;
      FaithfulFewer(ix, Ids(br.first, |br.first| - done), applied);
      ghost var n := |bs| - |br.second|;
      var target := br.second[|br.second| - 1].block.previous;
      CanSwitchBack(br, done, top, ix, states, bs);
      RemoveFirst(br.first, |br.first| - done);
      forks.head := Some(br.second[0]);
      ghost var mid := undo + [chain];
      PopTo(target, mid, done);
      assert applied == bs[..n];
      assert undo + [chain] == states[..n + 1];
      var again := ApplyBranch(br.second);
      Restored(br.second, again, states, bs, n);
    }

    /** Blocks that were applied once apply again, and lead to the same states. */
    lemma Restored(path: seq<Item>, again: nat, states: seq<Chain<L>>, bs: seq<Block>, n: nat)
      requires Valid() && History(exec, states, bs) && n + |path| == |bs| && Blocks(path) == bs[n..]
      requires again <= |path| && |undo| == n + again && (undo + [chain])[..n + 1] == states[..n + 1]
      requires applied == bs[..n] + Blocks(path)[..again]
      requires again < |path| ==> Apply(exec, chain, Blocks(path)[again]).None?
      ensures chain == states[|bs|] && undo == states[..|bs|] && applied == bs
    {
      var now := undo + [chain];
      assert applied == bs[..n + again];
      forall t | 0 <= t <= n + again ensures now[t] == states[t] {
        if t <= n {
          assert now[..n + 1][t] == states[..n + 1][t];
        } else {
          assert now[..n + 1][n] == states[..n + 1][n];
          HistoryPrefix(exec, states, bs, n + again);
          assert states[..n + again + 1][t] == states[t];
          HistoryUnique(exec, now, states[..n + again + 1], bs[..n + again], n, t);
        }
      }
      if again < |path| {
        assert false;
      }
    }

    /**
     The two ways a switch to an existing branch ends, `states` being the history before it.  Either
     every block of the new branch was applied in order from the fork point; or exactly `done` of
     them apply there, and the failing one and its successors are out of the fork database.
     The fork head is not the chain head then: it was popped along.
     */
    ghost predicate Ended(ok: bool, br: Branches, done: nat, ix: Index, h: Item, states: seq<Chain<L>>)
      requires 0 < |br.second| < |states|
      reads this, forks
    {
      var n, head := |states| - 1 - |br.second|, states[|states| - 1].head;
      && states[n].head == br.second[|br.second| - 1].block.previous
      && done <= |br.first| && ok == (done == |br.first|)
      && (ok ==> && ApplyAll(exec, states[n], Blocks(br.first)) == Some(chain) && |undo| == n + |br.first|
                 && forks.index == ix && forks.head == Ancestor(ix, h, |br.second|))
      && (!ok ==>
            && ApplyAll(exec, states[n], Blocks(br.first)[..done]).Some?
            && ApplyAll(exec, states[n], Blocks(br.first)[..done + 1]).None?
            && forks.index == ix - Ids(br.first, |br.first| - done)
            && Intact(ix, forks.index, head) && forks.head == Ancestor(ix, ix[head], done) && forks.head.Some?)
    }

    /** Pop down to the fork point, then apply as much of the new branch as applies. */
    method TryBranch(br: Branches, ghost top: BlockId) returns (done: nat)
      requires Valid() && forks.head.Some? && Fork(forks.index, top, chain.head, br) && |br.second| <= |undo|
      requires Ancestor(forks.index, forks.head.value, |br.second|).Some?
      requires Ancestor(forks.index, forks.index[chain.head], |br.first| - 1).Some?
      modifies this`chain, this`undo, this`applied, forks`head
      ensures Switching(br, top, forks.index, old(undo) + [old(chain)], old(applied), done)
      ensures var fork := (old(undo) + [old(chain)])[|old(undo)| - |br.second|];
              && ApplyAll(exec, fork, Blocks(br.first)[..done]) == Some(chain)
              && (done < |br.first| ==> Apply(exec, chain, Blocks(br.first)[done]).None?)
      ensures forks.head == Ancestor(forks.index, old(forks.head).value, |br.second|)
    {
      hide Meets, Faithful, IsChain, WellKeyed, Apply, ApplyAll, Ancestor;
      ghost var ix, states, n := forks.index, undo + [chain], |undo|;
      SecondWasApplied(br, top);
      FirstItems(ix, top, chain.head, br);
      LeaveBranch(br, top);
      assert undo + [chain] == states[..n - |br.second| + 1];
      done := ApplyBranch(br.first);
    }

    method SwitchTo(br: Branches, ghost top: BlockId) returns (ok: bool, ghost done: nat)
      requires Valid() && forks.head.Some? && Fork(forks.index, top, chain.head, br) && |br.second| <= |undo|
      requires Ancestor(forks.index, forks.head.value, |br.second|).Some?
      requires Ancestor(forks.index, forks.index[chain.head], |br.first| - 1).Some?
      modifies this`chain, this`undo, this`applied, forks`head, forks`index
      ensures Valid()
      ensures Ended(ok, br, done, old(forks.index), old(forks.head.value), old(undo) + [old(chain)])
      ensures !ok ==> chain == old(chain) && undo == old(undo) && applied == old(applied)
    {
      ghost var ix, states, bs, n := forks.index, undo + [chain], applied, |undo|;
      var count := TryBranch(br, top);
      done := count;
      if count == |br.first| {
        assert Blocks(br.first)[..|br.first|] == Blocks(br.first);
        return true, done;
      }
      ApplyAllStep(exec, states[n - |br.second|], Blocks(br.first), count);
      SwitchBack(br, count, top, ix, states, bs);
      assert states[..n] == old(undo);
      return false, done;
    }

    /** Either a switch was tried, or no common parent was found and nothing happened. */
    ghost predicate SwitchedOrNot(ok: bool, br: Branches, done: nat, ix: Index, h: Item, states: seq<Chain<L>>)
      requires |states| > 0
      reads this, forks
    {
      var top, head := Id(h.block), states[|states| - 1].head;
      if Fork(ix, top, head, br) && |br.second| < |states| then
        Ended(ok, br, done, ix, h, states)
      else
        && !ok && forks.index == ix && forks.head == Some(h)
        && (top in ix && head in ix ==> forall m: nat, n: nat :: !Meets(ix, ix[top], m, ix[head], n))
    }

    /** Switch to the branch of the fork head, or leave the chain as it is. */
    method SwitchFork() returns (ok: bool, ghost br: Branches, ghost done: nat)
      requires Valid() && forks.head.Some? && Retained(forks.index, forks.head.value)
      requires Num(forks.head.value.block) > chain.head.num
      modifies this`chain, this`undo, this`applied, forks`head, forks`index
      ensures Valid()
      ensures SwitchedOrNot(ok, br, done, old(forks.index), old(forks.head.value), old(undo) + [old(chain)])
      ensures !ok ==> chain == old(chain) && undo == old(undo) && applied == old(applied)
    {
      var top := Id(forks.head.value.block);
      var found := forks.FetchBranchFrom(top, chain.head);
      if found.None? {
        return false, Branches([], []), 0;
      }
      br := found.value;
      assert Fork(forks.index, top, chain.head, br);
      ok, done := SwitchTo(found.value, top);
    }

    /** After `b` is pushed the fork head is higher than the chain and does not build on it. */
    ghost predicate Switches(b: Block)
      reads this, forks
    {
      var h := forks.HeadAfter(b);
      h.block.previous != chain.head && Num(h.block) > chain.head.num
    }

    /** No other block carries the id of `b`: ids are digests. */
    ghost predicate Distinct(b: Block)
      reads this, forks
    {
      && (Id(b) in forks.index ==> forks.index[Id(b)].block == b)
      && forall i {:trigger applied[i]} :: 0 <= i < |applied| && Id(applied[i]) == Id(b) ==> applied[i] == b
    }

    /** _push_block. */
    method PushBlock(b: Block) returns (r: Outcome, ghost br: Branches, ghost done: nat)
      requires Valid() && Distinct(b)
      requires forks.Accepts(b) && Switches(b) ==> Retained(forks.IndexAfter(b), forks.HeadAfter(b))
      modifies this`chain, this`undo, this`applied, forks`head, forks`index
      ensures Valid()
      ensures r in {Refused, Stored} ==> chain == old(chain) && undo == old(undo) && applied == old(applied)
      ensures !old(forks.Accepts(b)) ==>
              r == Refused && forks.index == old(forks.index) && forks.head == old(forks.head)
      ensures old(forks.Accepts(b)) ==>
                var ix, h := old(forks.IndexAfter(b)), old(forks.HeadAfter(b));
                if h.block.previous == old(chain).head then
                  && forks.head == Some(h)
                  && r == (if Apply(exec, old(chain), b).Some? then Extended else Refused)
                  && (r == Extended ==> chain == Apply(exec, old(chain), b).value && undo == old(undo) + [old(chain)]
                                        && forks.index == ix)
                  && (r == Refused ==> forks.index == ix - {Id(b)})
                else if Num(h.block) > old(chain).head.num then
                  && r in {Switched, Refused}
                  && SwitchedOrNot(r == Switched, br, done, ix, h, old(undo) + [old(chain)])
                else
                  r == Stored && forks.index == ix && forks.head == Some(h)
    {
      br, done := Branches([], []), 0;
      var pushed := forks.PushBlock(b);
      if !pushed {
        return Refused, br, done;
      }
      if forks.head.value.block.previous != chain.head {
        if Num(forks.head.value.block) <= chain.head.num {
          return Stored, br, done;
        }
        var ok;
        ok, br, done := SwitchFork();
        return if ok then Switched else Refused, br, done;
      }
      var ok := ApplyBlock(b);
      if !ok {
        forks.Remove(Id(b));
      }
      return if ok then Extended else Refused, br, done;
    }

    // ----- Pushing block after block -----

    ghost predicate Kept(lib: nat)
      reads this, forks
    {
      Valid() && Pruned(forks.index, forks.head, chain.head, |undo|, lib)
    }

    /** A new block that makes the chain switch leads down to the irreversible block. */
    ghost predicate KeepsFinal(b: Block, lib: nat)
      reads this, forks
    {
      Switches(b) ==> Descends(forks.IndexAfter(b), forks.HeadAfter(b), chain.head, lib)
    }

    /** A block that switches is one above the chain head, and stored as the fork head. */
    lemma SwitchingBlock(b: Block, lib: nat)
      requires Kept(lib) && Id(b) !in forks.index && forks.Accepts(b) && Switches(b)
      ensures var ix, h := forks.IndexAfter(b), forks.HeadAfter(b);
              && h.block == b && Num(b) == chain.head.num + 1 && Id(b) in ix && ix[Id(b)] == h
      ensures var ix := forks.IndexAfter(b);
              WellKeyed(ix) && chain.head in ix && Ancestor(ix, ix[chain.head], chain.head.num - lib).Some?
    {
      AncestorAfterAdding(forks.index, Id(b), forks.NewItem(b), forks.index[chain.head], chain.head.num - lib);
      assert b.previous in forks.index ==> Id(forks.index[b.previous].block) == b.previous;
    }

    lemma PushRetains(b: Block, lib: nat)
      requires Kept(lib) && Id(b) !in forks.index && forks.Accepts(b) && Switches(b) && KeepsFinal(b, lib)
      ensures Retained(forks.IndexAfter(b), forks.HeadAfter(b))
    {
      SwitchingBlock(b, lib);
      var ix, h := forks.IndexAfter(b), forks.HeadAfter(b);
      forall br | Fork(ix, Id(h.block), chain.head, br)
        ensures |br.second| <= |undo| && Ancestor(ix, h, |br.second|).Some? &&
                Ancestor(ix, ix[chain.head], |br.first| - 1).Some?
      {
        PrunedRetains(ix, h, chain.head, |undo|, lib, br);
      }
    }

    /**
     A block that is stored already is pushed again while the fork head is left from a refused
     block: then it is taken for the block to apply, fails, and is given up.
     */
    ghost predicate GivesUp(b: Block)
      reads this, forks
    {
      Id(b) in forks.index && forks.Accepts(b) && forks.HeadAfter(b).block.previous == chain.head
    }

    lemma KnownIsLow(b: Block, lib: nat)
      requires Kept(lib) && Distinct(b) && Id(b) in forks.index
      ensures Num(b) <= chain.head.num && b.previous != chain.head && !Switches(b)
      ensures forks.HeadAfter(b).block.previous != chain.head ==> Num(forks.HeadAfter(b).block) <= chain.head.num
    {
    }

    /** A block that is stored already changes nothing of the chain; giving it up may hurt the fork database. */
    method PushAgain(b: Block, ghost lib: nat) returns (r: Outcome)
      requires Kept(lib) && Distinct(b) && Id(b) in forks.index
      modifies this`chain, this`undo, this`applied, forks`head, forks`index
      ensures r in {Refused, Stored} && chain == old(chain) && undo == old(undo) && applied == old(applied)
      ensures forks.index == if old(GivesUp(b)) then old(forks.index) - {Id(b)} else old(forks.index)
      ensures Kept(lib) <==> !old(GivesUp(b) && OnChain(forks.index, chain.head, lib, Id(b)))
    {
      hide OnChain, Ancestor;
      KnownIsLow(b, lib);
      RemovedPruned(forks.index, forks.head, chain.head, |undo|, lib, Id(b));
      ghost var br, done;
      r, br, done := PushBlock(b);
    }

    /** What a push leaves of the fork database and the chain still reaches down to the irreversible block. */
    method Push(b: Block, ghost lib: nat) returns (r: Outcome)
      requires Kept(lib) && Distinct(b) && Id(b) !in forks.index && (forks.Accepts(b) ==> KeepsFinal(b, lib))
      modifies this`chain, this`undo, this`applied, forks`head, forks`index
      ensures Kept(lib)
      ensures r in {Refused, Stored} ==> chain == old(chain) && undo == old(undo) && applied == old(applied)
      ensures r == Extended ==> chain.head == Id(b) && |undo| == |old(undo)| + 1
      ensures r == Switched ==> chain.head == Id(b)
    {
      ghost var was, fh, head, depth := forks.index, forks.head, chain.head, |undo|;
      ghost var accepts, switches := forks.Accepts(b), Switches(b);
      ghost var ix, h, it := forks.IndexAfter(b), forks.HeadAfter(b), forks.NewItem(b);
      ghost var states := undo + [chain];
      if accepts {
        AboveHead(b, lib);
        if switches {
          PushRetains(b, lib);
          SwitchingBlock(b, lib);
        }
      }
      ghost var br, done;
      r, br, done := PushBlock(b);
      if accepts && switches {
        AfterSwitch(ix, h, head, depth, lib, states, r == Switched, br, done);
      } else if r == Extended {
        ExtendedPruned(was, fh, head, depth, lib, it, h);
      } else if r == Refused && accepts {
        assert forks.index == was;
      } else if r == Stored {
        AncestorAfterAdding(was, Id(b), it, was[head], head.num - lib);
      }
    }

    /** A new block is at most one above the chain head. */
    lemma AboveHead(b: Block, lib: nat)
      requires Kept(lib) && Id(b) !in forks.index && forks.Accepts(b)
      ensures Num(b) <= chain.head.num + 1 && Num(forks.HeadAfter(b).block) <= chain.head.num + 1
      ensures Num(b) <= Num(forks.HeadAfter(b).block)
      ensures b.previous == chain.head ==> forks.NewItem(b).linked
    {
      assert b.previous in forks.index ==> Id(forks.index[b.previous].block) == b.previous;
      assert Id(forks.index[chain.head].block) == chain.head;
    }

    lemma AfterSwitch(ix: Index, it: Item, head: BlockId, depth: nat, lib: nat, states: seq<Chain<L>>, ok: bool,
                      br: Branches, done: nat)
      requires |states| == depth + 1 && states[depth].head == head && SwitchedOrNot(ok, br, done, ix, it, states)
      requires !ok ==> chain == states[depth] && |undo| == depth
      requires WellKeyed(ix) && Descends(ix, it, head, lib) && Ancestor(ix, ix[head], head.num - lib).Some? &&
               head.num <= lib + depth
      requires Num(it.block) == head.num + 1 && it.block.previous != head && Id(it.block) in ix &&
               ix[Id(it.block)] == it
      requires forall id {:trigger ix[id]} :: id in ix && id != Id(it.block) ==> id.num <= head.num
      ensures Pruned(forks.index, forks.head, chain.head, |undo|, lib)
      ensures ok ==> chain.head == Id(it.block)
    {
      DescendingMeets(ix, it, head, lib);
      assert Fork(ix, Id(it.block), head, br);
      PrunedRetains(ix, it, head, depth, lib, br);
      if ok {
        HeadAfterAll(exec, states[depth - |br.second|], br.first);
        assert Ancestor(ix, it, 0) == Some(br.first[0]);
        SwitchedPruned(ix, it, head, depth, lib, br);
      } else {
        BackPruned(ix, it, head, depth, lib, br, done, forks.index);
      }
    }

    /** The fork database starts with the head block, which is taken for irreversible. */
    method Start(b: Block)
      requires Valid() && forks.head.None? && forks.index == map[] && Id(b) == chain.head && applied == []
      modifies forks`head, forks`index
      ensures Kept(chain.head.num)
    {
      var _ := forks.PushBlock(b);
      assert Ancestor(forks.index, forks.index[chain.head], 0).Some?;
    }

    /** Blocks up to `newLib` cannot be undone any more, and older ones are forgotten. */
    method Commit(newLib: nat, ghost lib: nat)
      requires Kept(lib) && lib <= newLib <= chain.head.num
      modifies this`undo, this`applied, forks`index, forks`maxSize
      ensures Kept(newLib) && |undo| <= |old(undo)| && undo == old(undo)[|old(undo)| - |undo|..]
      ensures |undo| == chain.head.num - newLib
    {
      ghost var was := forks.index;
      var t := |undo| - (chain.head.num - newLib);
      HistorySuffix(exec, undo + [chain], applied, t);
      assert (undo + [chain])[t..] == undo[t..] + [chain];
      ghost var lowest := Num(forks.head.value.block) - (chain.head.num - newLib + 1);
      PrunedFurther(was, map id | id in was && id.num >= lowest :: was[id],
                    forks.head.value, chain.head, lib, newLib);
      undo, applied := undo[t..], applied[t..];
      forks.SetMaxSize(chain.head.num - newLib + 1);
    }
  }

  /** A block that is refused leaves the fork head behind; when the head block comes again it is forgotten. */
  method HeadForgotten(b: Block, next: Block) returns (d: Database<nat>)
    requires b.previous == NULL_ID && next.previous == Id(b)
    ensures fresh(d) && d.Valid() && d.chain.head == Id(b) && Id(b) !in d.forks.index
  {
    d := new Database((l: nat, x: Block) => None, Chain(Id(b), 0));
    var _ := d.forks.PushBlock(b);
    assert d.forks.index == map[Id(b) := Item(b, false)];
    ghost var br, done;
    var r;
    r, br, done := d.PushBlock(next);
    assert r == Refused && d.forks.index == map[Id(b) := Item(b, false)];
    r, br, done := d.PushBlock(b);
  }
}
