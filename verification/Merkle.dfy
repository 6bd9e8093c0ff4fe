/**
 The Merkle root of a block's transactions.

 The code halves one array in place, writing the parents of a level over the front of
 that level while it is still reading the back.  The result is the hash of a binary
 tree whose leaves, read from left to right, are the transaction digests.
 */
module Merkle {

  /** One level up: neighbours are combined, an odd last element is carried over. */
  function PairUp<T>(s: seq<T>, f: (T, T) -> T): (r: seq<T>)
    ensures |r| == (|s| + 1) / 2
  {
    if |s| < 2 then s else [f(s[0], s[1])] + PairUp(s[2..], f)
  }

  /** All levels. */
  function Reduce<T>(s: seq<T>, f: (T, T) -> T): T
    requires |s| > 0
    decreases |s|
  {
    if |s| == 1 then s[0] else Reduce(PairUp(s, f), f)
  }

  // ----- The tree behind the root -----

  datatype Tree<D> = Leaf(digest: D) | Node(left: Tree<D>, right: Tree<D>)

  function HashTree<D>(t: Tree<D>, h: (D, D) -> D): D
  {
    match t
    case Leaf(d) => d
    case Node(l, r) => h(HashTree(l, h), HashTree(r, h))
  }

  function Leaves<D>(t: Tree<D>): seq<D>
  {
    match t
    case Leaf(d) => [d]
    case Node(l, r) => Leaves(l) + Leaves(r)
  }

  function Height<D>(t: Tree<D>): nat
  {
    match t
    case Leaf(_) => 0
    case Node(l, r) => 1 + (if Height(l) < Height(r) then Height(r) else Height(l))
  }

  function AllLeaves<D>(ts: seq<Tree<D>>): seq<D>
  {
    if ts == [] then [] else Leaves(ts[0]) + AllLeaves(ts[1..])
  }

  function Hashes<D>(ts: seq<Tree<D>>, h: (D, D) -> D): (r: seq<D>)
  {
    seq(|ts|, i requires 0 <= i < |ts| => HashTree(ts[i], h))
  }

  ghost function Join<D(!new)>(): (Tree<D>, Tree<D>) -> Tree<D>
  {
    (l, r) => Node(l, r)
  }

  ghost function AsLeaves<D(!new)>(s: seq<D>): seq<Tree<D>>
  {
    seq(|s|, i requires 0 <= i < |s| => Leaf(s[i]))
  }

  ghost function Pow2(n: nat): nat
  {
    if n == 0 then 1 else 2 * Pow2(n - 1)
  }

  lemma PairUpFirst<T>(s: seq<T>, f: (T, T) -> T)
    requires |s| >= 2
    ensures var up := PairUp(s, f); up[0] == f(s[0], s[1]) && up[1..] == PairUp(s[2..], f)
  {
  }

  lemma HashesRest<D(!new)>(ts: seq<Tree<D>>, h: (D, D) -> D, k: nat)
    requires k <= |ts|
    ensures Hashes(ts, h)[k..] == Hashes(ts[k..], h)
  {
  }

  lemma SameSeq<T>(s: seq<T>, t: seq<T>)
    requires s != [] && t != [] && s[0] == t[0] && s[1..] == t[1..]
    ensures s == t
  {
    assert s == [s[0]] + s[1..] && t == [t[0]] + t[1..];
  }

  /** A level of trees hashes to the level of hashes. */
  lemma {:induction false} PairUpHashes<D(!new)>(ts: seq<Tree<D>>, h: (D, D) -> D)
    ensures Hashes(PairUp(ts, Join()), h) == PairUp(Hashes(ts, h), h)
    decreases |ts|
  {
    if |ts| < 2 {
    } else {
      var up, hs := PairUp(ts, Join()), Hashes(ts, h);
      PairUpFirst(ts, Join());
      PairUpFirst(hs, h);
      hide PairUp;
      assert up[0] == Node(ts[0], ts[1]);
      PairUpHashes(ts[2..], h);
      HashesRest(ts, h, 2);
      HashesRest(up, h, 1);
      SameSeq(Hashes(up, h), PairUp(hs, h));
    }
  }

  lemma FirstTwoLeaves<D>(ts: seq<Tree<D>>)
    requires |ts| >= 2
    ensures AllLeaves(ts) == Leaves(Node(ts[0], ts[1])) + AllLeaves(ts[2..])
  {
    assert ts[1..][1..] == ts[2..];
  }

  /** And it keeps the leaves in order. */
  lemma {:induction false} PairUpLeaves<D(!new)>(ts: seq<Tree<D>>)
    ensures AllLeaves(PairUp(ts, Join())) == AllLeaves(ts)
    decreases |ts|
  {
    if |ts| < 2 {
    } else {
      PairUpFirst(ts, Join());
      assert PairUp(ts, Join())[0] == Node(ts[0], ts[1]);
      hide PairUp;
      PairUpLeaves(ts[2..]);
      FirstTwoLeaves(ts);
    }
  }

  ghost predicate Within<D>(ts: seq<Tree<D>>, n: nat)
  {
    forall i :: 0 <= i < |ts| ==> Height(ts[i]) <= n
  }

  lemma {:induction false} PairUpHeights<D(!new)>(ts: seq<Tree<D>>, n: nat)
    requires Within(ts, n)
    ensures Within(PairUp(ts, Join()), n + 1)
    decreases |ts|
  {
    var up := PairUp(ts, Join());
    if |ts| < 2 {
      assert up == ts;
    } else {
      PairUpFirst(ts, Join());
      PairUpHeights(ts[2..], n);
      forall i | 0 <= i < |up| ensures Height(up[i]) <= n + 1 {
        if i == 0 {
          assert up[0] == Node(ts[0], ts[1]);
        } else {
          assert up[i] == up[1..][i - 1];
        }
      }
    }
  }

  lemma {:induction false} ReduceTrees<D(!new)>(ts: seq<Tree<D>>, h: (D, D) -> D, n: nat, m: nat)
    requires |ts| > 0 && |ts| <= Pow2(m)
    requires Within(ts, n)
    ensures HashTree(Reduce(ts, Join()), h) == Reduce(Hashes(ts, h), h)
    ensures Leaves(Reduce(ts, Join())) == AllLeaves(ts)
    ensures Height(Reduce(ts, Join())) <= n + m
    decreases |ts|
  {
    if |ts| == 1 {
      assert ts == [ts[0]] && ts[1..] == [];
    } else {
      PairUpHashes(ts, h);
      PairUpLeaves(ts);
      PairUpHeights(ts, n);
      assert m > 0;
      ReduceTrees(PairUp(ts, Join()), h, n + 1, m - 1);
    }
  }

  lemma {:induction false} LeavesOfLeaves<D(!new)>(s: seq<D>)
    ensures AllLeaves(AsLeaves(s)) == s
    decreases |s|
  {
    if s != [] {
      LeavesOfLeaves(s[1..]);
      assert AsLeaves(s)[1..] == AsLeaves(s[1..]);
    }
  }

  /**
   The level-by-level reduction is the hash of a tree with exactly the given leaves in
   the given order and of logarithmic height.
   */
  lemma ReduceIsTreeHash<D(!new)>(s: seq<D>, h: (D, D) -> D, m: nat) returns (t: Tree<D>)
    requires |s| > 0 && |s| <= Pow2(m)
    ensures HashTree(t, h) == Reduce(s, h) && Leaves(t) == s && Height(t) <= m
  {
    var ts := AsLeaves(s);
    ReduceTrees(ts, h, 0, m);
    LeavesOfLeaves(s);
    assert Hashes(ts, h) == s;
    t := Reduce(ts, Join());
  }

  // ----- The in-place computation -----

  lemma {:induction false} PairUpSnoc<T>(s: seq<T>, f: (T, T) -> T, k: nat)
    requires 2 * k + 2 <= |s|
    ensures PairUp(s[..2 * k + 2], f) == PairUp(s[..2 * k], f) + [f(s[2 * k], s[2 * k + 1])]
    decreases k
  {
    if k == 0 {
      assert s[..2] == [s[0], s[1]];
    } else {
      var i := 2 * k;
      PairUpSnoc(s[2..], f, k - 1);
      assert s[2..][..i] == s[..i + 2][2..] && s[2..][..i - 2] == s[..i][2..];
    }
  }

  lemma {:induction false} PairUpOdd<T>(s: seq<T>, f: (T, T) -> T)
    requires |s| % 2 == 1
    ensures PairUp(s, f) == PairUp(s[..|s| - 1], f) + [s[|s| - 1]]
    decreases |s|
  {
    if |s| > 1 {
      PairUpOdd(s[2..], f);
      assert s[2..][..|s| - 3] == s[..|s| - 1][2..];
    }
  }

  /** The pair loop: parents overwrite the front while the back is read. */
  method PairsInPlace<D>(ids: array<D>, half: nat, h: (D, D) -> D)
    requires 2 * half <= ids.Length
    modifies ids
    ensures ids[..half] == PairUp(old(ids[..2 * half]), h)
    ensures forall j :: 2 * half <= j < ids.Length ==> ids[j] == old(ids[j])
  {
    ghost var was := ids[..];
    var i, k := 0, 0;
    while i < 2 * half
      invariant i == 2 * k <= 2 * half
      invariant ids[..k] == PairUp(was[..i], h)
      invariant forall j :: i <= j < ids.Length ==> ids[j] == was[j]
    {
      PairUpSnoc(was, h, k);
      ids[k] := h(ids[i], ids[i + 1]);
      assert ids[..k + 1] == ids[..k] + [ids[k]];
      k := k + 1;
      i := i + 2;
    }
    assert was[..2 * half] == old(ids[..2 * half]);
  }

  /** One level, in place, over the first `n` entries; an odd last entry is moved down. */
  method HalveInPlace<D>(ids: array<D>, n: nat, h: (D, D) -> D) returns (k: nat)
    requires 1 < n <= ids.Length
    modifies ids
    ensures k == (n + 1) / 2
    ensures ids[..k] == PairUp(old(ids[..n]), h)
  {
    ghost var was := ids[..n];
    k := n / 2;
    PairsInPlace(ids, k, h);
    assert was[..2 * k] == old(ids[..2 * k]);
    if n % 2 == 1 {
      PairUpOdd(was, h);
      ghost var pairs := ids[..k];
      ids[k] := ids[n - 1];
      assert ids[..k + 1] == pairs + [was[n - 1]];
      k := k + 1;
    } else {
      assert was[..2 * k] == was;
    }
  }

  /** calculate_merkle_root; `last` is the final rehash, `empty` the root of no transactions. */
  method CalculateMerkleRoot<D, R>(digests: seq<D>, h: (D, D) -> D, last: D -> R, empty: R) returns (root: R)
    ensures root == if digests == [] then empty else last(Reduce(digests, h))
  {
    if |digests| == 0 {
      return empty;
    }
    var ids := new D[|digests|](i requires 0 <= i < |digests| => digests[i]);
    var n := ids.Length;
    assert ids[..n] == digests;
    while n > 1
      invariant 1 <= n <= ids.Length
      invariant Reduce(ids[..n], h) == Reduce(digests, h)
      decreases n
    {
      n := HalveInPlace(ids, n, h);
    }
    return last(ids[0]);
  }
}
