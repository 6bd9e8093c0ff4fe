/**
 The proxied-vote tally.

 Every account may name a proxy.  `proxied[i]` caches the vesting shares of the
 accounts exactly `i + 1` proxy hops below it; the cache is maintained
 incrementally along the proxy chain and truncated at a depth bound.  The cache
 is compared here with the definition it stands for, `Stake`.
 */
module ProxyVotes {
  import opened Sums
  import opened Options

  const MAX_PROXY_DEPTH := 4

  type Name = string

  const SELF: Name := ""

  datatype Account = Account(vests: int, proxy: Name, proxied: seq<int>)

  type Accounts = map<Name, Account>

  // ----- The proxy graph and the simple definition of the tally -----

  ghost predicate WellFormed(a: Accounts)
  {
    && SELF !in a
    && forall n {:trigger a[n]} :: n in a ==>
        |a[n].proxied| == MAX_PROXY_DEPTH && (a[n].proxy == SELF || a[n].proxy in a)
  }

  /** The account `k` proxy hops above `n`; `SELF` once the chain has ended. */
  ghost function Up(a: Accounts, k: nat, n: Name): Name
  {
    if k == 0 then n else if n in a then Up(a, k - 1, a[n].proxy) else SELF
  }

  ghost predicate Acyclic(a: Accounts)
  {
    forall n, k: nat {:trigger Up(a, k, n)} :: n in a && k > 0 ==> Up(a, k, n) != n
  }

  /** What `b` contributes to the stake `k` hops below `y`. */
  ghost function Share(a: Accounts, y: Name, k: nat): Name -> int
  {
    b => if b in a && Up(a, k, b) == y then a[b].vests else 0
  }

  /** The vesting shares of the accounts exactly `k` proxy hops below `y`. */
  ghost function Stake(a: Accounts, y: Name, k: nat): int
  {
    Sum(a.Keys, Share(a, y, k))
  }

  ghost predicate TallyExact(a: Accounts)
    requires WellFormed(a)
  {
    forall y, i :: y in a && 0 <= i < MAX_PROXY_DEPTH ==> a[y].proxied[i] == Stake(a, y, i + 1)
  }

  ghost predicate Consistent(a: Accounts)
  {
    WellFormed(a) && Acyclic(a) && TallyExact(a)
  }

  // ----- Facts about chains -----

  lemma {:induction false} UpSelf(a: Accounts, k: nat)
    requires SELF !in a
    ensures Up(a, k, SELF) == SELF
  {
  }

  lemma {:induction false} UpCompose(a: Accounts, i: nat, j: nat, n: Name)
    requires SELF !in a
    ensures Up(a, i + j, n) == Up(a, j, Up(a, i, n))
    decreases i
  {
    if i > 0 {
      if n in a {
        UpCompose(a, i - 1, j, a[n].proxy);
      } else {
        UpSelf(a, j);
      }
    }
  }

  lemma {:induction false} UpInside(a: Accounts, k: nat, n: Name)
    requires WellFormed(a) && n in a
    ensures Up(a, k, n) == SELF || Up(a, k, n) in a
    decreases k
  {
    if k > 0 && a[n].proxy != SELF {
      UpInside(a, k - 1, a[n].proxy);
    } else if k > 0 {
      UpSelf(a, k - 1);
    }
  }

  /** In an acyclic graph a chain meets an account at most once. */
  lemma UpUnique(a: Accounts, i: nat, j: nat, n: Name, y: Name)
    requires SELF !in a && Acyclic(a) && y in a
    requires Up(a, i, n) == y && Up(a, j, n) == y
    ensures i == j
  {
    var first, gap := if i < j then i else j, if i < j then j - i else i - j;
    UpCompose(a, first, gap, n);
  }

  /** Same shares and same proxies: only the caches may differ. */
  ghost predicate SameGraph(a: Accounts, b: Accounts)
  {
    a.Keys == b.Keys && forall n {:trigger b[n]} {:trigger a[n]} :: n in a ==>
        a[n].vests == b[n].vests && a[n].proxy == b[n].proxy
  }

  lemma {:induction false} UpSameGraph(a: Accounts, b: Accounts, k: nat, n: Name)
    requires SameGraph(a, b)
    ensures Up(a, k, n) == Up(b, k, n)
    decreases k
  {
    if k > 0 && n in a {
      UpSameGraph(a, b, k - 1, a[n].proxy);
    }
  }

  lemma SameGraphAcyclic(a: Accounts, b: Accounts)
    requires SameGraph(a, b) && Acyclic(a)
    ensures Acyclic(b)
  {
    forall n, k: nat | n in b && k > 0 ensures Up(b, k, n) != n {
      UpSameGraph(a, b, k, n);
    }
  }

  lemma SameGraphStake(a: Accounts, b: Accounts)
    requires SameGraph(a, b)
    ensures forall y, k: nat :: Stake(a, y, k) == Stake(b, y, k)
    ensures forall k: nat, n :: Up(a, k, n) == Up(b, k, n)
    ensures Acyclic(a) <==> Acyclic(b)
  {
    forall k: nat, n ensures Up(a, k, n) == Up(b, k, n) {
      UpSameGraph(a, b, k, n);
    }
    forall y, k: nat ensures Stake(a, y, k) == Stake(b, y, k) {
      SumCong(a.Keys, Share(a, y, k), Share(b, y, k));
    }
  }

  lemma StakeZeroHops(a: Accounts, x: Name)
    requires x in a
    ensures Stake(a, x, 0) == a[x].vests
  {
    SumSingle(a.Keys, Share(a, x, 0), x);
  }

  // ----- Changing one proxy edge -----

  /** `b` is `a` with the proxy of `x`, so far nobody, set to `p`, which does not itself vote through `x`. */
  ghost predicate Linked(a: Accounts, b: Accounts, x: Name, p: Name)
  {
    && WellFormed(a) && Acyclic(a) && x in a && p in a && a[x].proxy == SELF
    && (forall k: nat :: Up(a, k, p) != x)
    && b == a[x := a[x].(proxy := p)]
  }

  lemma {:induction false} UpAvoids(a: Accounts, b: Accounts, x: Name, p: Name, n: Name, k: nat)
    requires Linked(a, b, x, p)
    requires forall i: nat :: i < k ==> Up(a, i, n) != x
    ensures Up(b, k, n) == Up(a, k, n)
    decreases k
  {
    if k > 0 && n in a {
      assert Up(a, 0, n) != x;
      forall i: nat | i < k - 1 ensures Up(a, i, a[n].proxy) != x {
        assert Up(a, i + 1, n) != x;
      }
      UpAvoids(a, b, x, p, a[n].proxy, k - 1);
    }
  }

  lemma {:induction false} UpThrough(a: Accounts, b: Accounts, x: Name, p: Name, n: Name, i: nat, k: nat)
    requires Linked(a, b, x, p) && i < k && Up(a, i, n) == x
    ensures Up(a, k, n) == SELF && Up(b, k, n) == Up(a, k - i - 1, p)
    decreases i
  {
    if i == 0 {
      UpSelf(a, k - 1);
      UpAvoids(a, b, x, p, p, k - 1);
    } else {
      assert n in a;
      UpSelf(a, i - 1);
      UpThrough(a, b, x, p, a[n].proxy, i - 1, k - 1);
    }
  }

  lemma ShareLinkAbove(a: Accounts, b: Accounts, x: Name, p: Name, y: Name, d: nat, k: nat, n: Name)
    requires Linked(a, b, x, p) && y in a && d > 0 && Up(a, d - 1, p) == y && n in a
    ensures Share(b, y, k)(n) == Share(a, y, k)(n) + (if d <= k then Share(a, x, k - d)(n) else 0)
  {
    if i: nat :| i < k && Up(a, i, n) == x {
      UpThrough(a, b, x, p, n, i, k);
      if Up(a, k - i - 1, p) == y {
        UpUnique(a, d - 1, k - i - 1, p, y);
      }
      if d <= k && Up(a, k - d, n) == x {
        UpUnique(a, i, k - d, n, x);
      }
    } else {
      UpAvoids(a, b, x, p, n, k);
    }
  }

  /**
   Linking `x` below `p` adds, to an account `d` hops above `x`, the stake that
   sits `k - d` hops below `x`; nobody else's stake changes.
   */
  lemma StakeLinkAbove(a: Accounts, b: Accounts, x: Name, p: Name, y: Name, d: nat, k: nat)
    requires Linked(a, b, x, p) && y in a && d > 0 && Up(a, d - 1, p) == y
    ensures Stake(b, y, k) == Stake(a, y, k) + (if d <= k then Stake(a, x, k - d) else 0)
  {
    forall n | n in a.Keys
      ensures Share(b, y, k)(n) == Share(a, y, k)(n) + (if d <= k then Share(a, x, k - d)(n) else 0)
    {
      ShareLinkAbove(a, b, x, p, y, d, k, n);
    }
    assert b.Keys == a.Keys;
    if d <= k {
      SumPlus(a.Keys, Share(a, y, k), Share(a, x, k - d), Share(b, y, k));
    } else {
      SumCong(a.Keys, Share(a, y, k), Share(b, y, k));
    }
  }

  lemma StakeLinkElsewhere(a: Accounts, b: Accounts, x: Name, p: Name, y: Name, k: nat)
    requires Linked(a, b, x, p) && y in a
    requires forall j: nat :: j < k ==> Up(a, j, p) != y
    ensures Stake(b, y, k) == Stake(a, y, k)
  {
    forall n | n in a.Keys ensures Share(b, y, k)(n) == Share(a, y, k)(n) {
      if i: nat :| i < k && Up(a, i, n) == x {
        UpThrough(a, b, x, p, n, i, k);
      } else {
        UpAvoids(a, b, x, p, n, k);
      }
    }
    assert b.Keys == a.Keys;
    SumCong(a.Keys, Share(a, y, k), Share(b, y, k));
  }

  // ----- The incremental updates -----

  /** Entry `k` of a delta, zero below the first one. */
  function Entry(delta: seq<int>, k: int): int
    requires k < |delta|
  {
    if 0 <= k then delta[k] else 0
  }

  /** `p` with `delta` added to its cache, shifted by `depth` levels. */
  function AddShifted(p: Account, delta: seq<int>, depth: nat): (r: Account)
    requires |p.proxied| == MAX_PROXY_DEPTH && |delta| == MAX_PROXY_DEPTH + 1
    ensures |r.proxied| == MAX_PROXY_DEPTH && r.vests == p.vests && r.proxy == p.proxy
    ensures forall j | 0 <= j < MAX_PROXY_DEPTH :: r.proxied[j] == p.proxied[j] + Entry(delta, j - depth)
  {
    p.(proxied := seq(MAX_PROXY_DEPTH, j requires 0 <= j < MAX_PROXY_DEPTH => p.proxied[j] + Entry(delta, j - depth)))
  }

  /** `p` with `delta` added to its cache at one level. */
  function AddAt(p: Account, delta: int, level: nat): (r: Account)
    requires |p.proxied| == MAX_PROXY_DEPTH && level < MAX_PROXY_DEPTH
    ensures |r.proxied| == MAX_PROXY_DEPTH && r.vests == p.vests && r.proxy == p.proxy
  {
    p.(proxied := p.proxied[level := p.proxied[level] + delta])
  }

  /** Effect of the array form of adjust_proxied_witness_votes on the caches. */
  function AdjustArray(a: Accounts, n: Name, delta: seq<int>, depth: nat): (r: Accounts)
    requires WellFormed(a) && n in a && |delta| == MAX_PROXY_DEPTH + 1
    ensures WellFormed(r) && SameGraph(a, r)
    decreases MAX_PROXY_DEPTH - depth
  {
    if a[n].proxy == SELF || depth >= MAX_PROXY_DEPTH then a
    else
      var p := a[n].proxy;
      AdjustArray(a[p := AddShifted(a[p], delta, depth)], p, delta, depth + 1)
  }

  /** Effect of the scalar form of adjust_proxied_witness_votes on the caches. */
  function AdjustScalar(a: Accounts, n: Name, delta: int, depth: nat): (r: Accounts)
    requires WellFormed(a) && n in a
    ensures WellFormed(r) && SameGraph(a, r)
    decreases MAX_PROXY_DEPTH - depth
  {
    if a[n].proxy == SELF || depth >= MAX_PROXY_DEPTH then a
    else
      var p := a[n].proxy;
      AdjustScalar(a[p := AddAt(a[p], delta, depth)], p, delta, depth + 1)
  }

  /** The array update does not touch an account that is not above `n` within the depth bound. */
  lemma {:induction false} AdjustArrayElsewhere(a: Accounts, n: Name, delta: seq<int>, depth: nat, y: Name)
    requires WellFormed(a) && n in a && y in a && |delta| == MAX_PROXY_DEPTH + 1
    requires forall d: nat | 0 < d <= MAX_PROXY_DEPTH - depth :: Up(a, d, n) != y
    ensures AdjustArray(a, n, delta, depth)[y] == a[y]
    decreases MAX_PROXY_DEPTH - depth
  {
    if a[n].proxy != SELF && depth < MAX_PROXY_DEPTH {
      var p := a[n].proxy;
      var a' := a[p := AddShifted(a[p], delta, depth)];
      assert Up(a, 1, n) == Up(a, 0, p) == p;
      forall d: nat | 0 < d <= MAX_PROXY_DEPTH - (depth + 1) ensures Up(a', d, p) != y {
        assert Up(a, d + 1, n) == Up(a, d, p);
        UpSameGraph(a, a', d, p);
      }
      AdjustArrayElsewhere(a', p, delta, depth + 1, y);
    }
  }

  /** One hop of the array update. */
  lemma ArrayStep(a: Accounts, n: Name, delta: seq<int>, depth: nat)
    requires WellFormed(a) && n in a && a[n].proxy != SELF && |delta| == MAX_PROXY_DEPTH + 1 && depth < MAX_PROXY_DEPTH
    ensures a[n].proxy in a && |a[a[n].proxy].proxied| == MAX_PROXY_DEPTH
    ensures var a' := a[a[n].proxy := AddShifted(a[a[n].proxy], delta, depth)];
            && WellFormed(a') && SameGraph(a, a')
            && AdjustArray(a, n, delta, depth) == AdjustArray(a', a[n].proxy, delta, depth + 1)
  {
  }

  /** Whatever is above an account is above its proxy. */
  lemma UpFromProxy(a: Accounts, n: Name, d: nat, y: Name)
    requires WellFormed(a) && n in a && y in a && d > 0 && Up(a, d, n) == y
    ensures a[n].proxy != SELF && a[n].proxy in a && Up(a, d - 1, a[n].proxy) == y
  {
    UpSelf(a, d - 1);
  }

  /** The array update adds the delta, shifted by the distance, to the account `d` hops up. */
  lemma {:induction false} AdjustArrayAbove(a: Accounts, n: Name, delta: seq<int>, depth: nat, y: Name, d: nat, j: nat)
    requires WellFormed(a) && Acyclic(a) && n in a && y in a && |delta| == MAX_PROXY_DEPTH + 1
    requires 0 < d <= MAX_PROXY_DEPTH - depth && Up(a, d, n) == y && j < MAX_PROXY_DEPTH
    ensures AdjustArray(a, n, delta, depth)[y].proxied[j] ==
            a[y].proxied[j] + Entry(delta, j + 1 - depth - d)
    decreases d
  {
    hide AdjustArray, AddShifted, WellFormed, SameGraph, Acyclic;
    UpFromProxy(a, n, d, y);
    ArrayStep(a, n, delta, depth);
    var p := a[n].proxy;
    var a' := a[p := AddShifted(a[p], delta, depth)];
    if d == 1 {
      forall e: nat | 0 < e <= MAX_PROXY_DEPTH - (depth + 1) ensures Up(a', e, p) != y {
        UpSameGraph(a, a', e, p);
        NotAbove(a, p, e);
      }
      AdjustArrayElsewhere(a', p, delta, depth + 1, y);
      EntryAdded(a[y], delta, depth, j);
    } else {
      UpSameGraph(a, a', d - 1, p);
      SameGraphAcyclic(a, a');
      NotAbove(a, p, d - 1);
      AdjustArrayAbove(a', p, delta, depth + 1, y, d - 1, j);
    }
  }

  lemma NotAbove(a: Accounts, n: Name, k: nat)
    requires Acyclic(a) && n in a && k > 0
    ensures Up(a, k, n) != n
  {
  }

  lemma EntryAdded(p: Account, delta: seq<int>, depth: nat, j: nat)
    requires |p.proxied| == MAX_PROXY_DEPTH && |delta| == MAX_PROXY_DEPTH + 1 && j < MAX_PROXY_DEPTH
    ensures AddShifted(p, delta, depth).proxied[j] == p.proxied[j] + Entry(delta, j - depth)
  {
  }

  /** The scalar update adds `delta` at level `depth + d - 1` of the account `d` hops up. */
  lemma {:induction false} AdjustScalarAt(a: Accounts, n: Name, delta: int, depth: nat, y: Name, j: nat)
    requires WellFormed(a) && n in a && y in a && j < MAX_PROXY_DEPTH
    ensures AdjustScalar(a, n, delta, depth)[y].proxied[j] ==
            a[y].proxied[j] + (if depth <= j && Up(a, j + 1 - depth, n) == y then delta else 0)
    decreases MAX_PROXY_DEPTH - depth
  {
    if a[n].proxy == SELF {
      if depth <= j {
        UpSelf(a, j - depth);
      }
    } else if depth < MAX_PROXY_DEPTH {
      var p := a[n].proxy;
      var a' := a[p := AddAt(a[p], delta, depth)];
      assert SameGraph(a, a');
      assert AdjustScalar(a, n, delta, depth) == AdjustScalar(a', p, delta, depth + 1);
      AdjustScalarAt(a', p, delta, depth + 1, y, j);
      if depth <= j {
        assert Up(a, j + 1 - depth, n) == Up(a, j - depth, p);
        UpSameGraph(a, a', j - depth, p);
      }
    }
  }

  // ----- Setting and clearing a proxy -----

  /** What an account passes to its proxy: its own shares, then what is proxied to it, level by level. */
  function VoteDelta(acc: Account): (d: seq<int>)
    requires |acc.proxied| == MAX_PROXY_DEPTH
    ensures |d| == MAX_PROXY_DEPTH + 1
  {
    [acc.vests] + acc.proxied
  }

  function Negated(delta: seq<int>): (d: seq<int>)
    ensures |d| == |delta| && forall i :: 0 <= i < |d| ==> d[i] == -delta[i]
  {
    seq(|delta|, i requires 0 <= i < |delta| => -delta[i])
  }

  lemma VoteDeltaIsStake(a: Accounts, x: Name, k: nat)
    requires WellFormed(a) && TallyExact(a) && x in a && k <= MAX_PROXY_DEPTH
    ensures VoteDelta(a[x])[k] == Stake(a, x, k)
  {
    if k == 0 {
      StakeZeroHops(a, x);
    } else {
      assert a[x].proxied[k - 1] == Stake(a, x, k);
    }
  }

  lemma LinkedIsAcyclic(a: Accounts, b: Accounts, x: Name, p: Name)
    requires Linked(a, b, x, p)
    ensures Acyclic(b)
  {
    forall n, k: nat | n in b && k > 0 ensures Up(b, k, n) != n {
      if i: nat :| i < k && Up(a, i, n) == x {
        UpThrough(a, b, x, p, n, i, k);
        UpCompose(a, k - i - 1, i, p);
      } else {
        UpAvoids(a, b, x, p, n, k);
      }
    }
  }

  lemma {:induction false} UpCutEdge(a: Accounts, b: Accounts, x: Name, k: nat, n: Name)
    requires WellFormed(a) && x in a && b == a[x := a[x].(proxy := SELF)]
    ensures Up(b, k, n) == SELF || Up(b, k, n) == Up(a, k, n)
    decreases k
  {
    if k > 0 && n in a {
      UpSelf(b, k - 1);
      UpCutEdge(a, b, x, k - 1, a[n].proxy);
    }
  }

  /** Cutting the edge above `x` leaves a graph that linking `x` again restores. */
  lemma CutIsLinked(a: Accounts, x: Name)
    requires WellFormed(a) && Acyclic(a) && x in a && a[x].proxy != SELF
    ensures Linked(a[x := a[x].(proxy := SELF)], a, x, a[x].proxy)
  {
    var b, p := a[x := a[x].(proxy := SELF)], a[x].proxy;
    forall n, k: nat | n in b && k > 0 ensures Up(b, k, n) != n {
      UpCutEdge(a, b, x, k, n);
    }
    forall k: nat ensures Up(b, k, p) != x {
      UpCutEdge(a, b, x, k, p);
      assert Up(a, k + 1, x) == Up(a, k, p);
    }
    assert a == b[x := b[x].(proxy := p)];
  }

  lemma StakeChange(a: Accounts, b: Accounts, x: Name, p: Name, y: Name, i: nat)
    requires Linked(a, b, x, p) && y in a && i < MAX_PROXY_DEPTH
    ensures forall d: nat | 0 < d <= MAX_PROXY_DEPTH && Up(b, d, x) == y ::
              Stake(b, y, i + 1) == Stake(a, y, i + 1) + (if d - 1 <= i then Stake(a, x, i + 1 - d) else 0)
    ensures (forall d: nat | 0 < d <= MAX_PROXY_DEPTH :: Up(b, d, x) != y) ==> Stake(b, y, i + 1) == Stake(a, y, i + 1)
  {
    forall k: nat ensures Up(b, k + 1, x) == Up(a, k, p) {
      UpAvoids(a, b, x, p, p, k);
    }
    forall d: nat | 0 < d <= MAX_PROXY_DEPTH && Up(b, d, x) == y
      ensures Stake(b, y, i + 1) == Stake(a, y, i + 1) + (if d - 1 <= i then Stake(a, x, i + 1 - d) else 0)
    {
      assert Up(b, (d - 1) + 1, x) == Up(a, d - 1, p);
      StakeLinkAbove(a, b, x, p, y, d, i + 1);
    }
    if forall d: nat | 0 < d <= MAX_PROXY_DEPTH :: Up(b, d, x) != y {
      forall j: nat | j < i + 1 ensures Up(a, j, p) != y {
        assert Up(b, j + 1, x) == Up(a, j, p);
      }
      StakeLinkElsewhere(a, b, x, p, y, i + 1);
    }
  }

  lemma LinkExactAt(a: Accounts, b: Accounts, x: Name, p: Name, y: Name, i: nat)
    requires Consistent(a) && Linked(a, b, x, p) && y in a && i < MAX_PROXY_DEPTH
    ensures AdjustArray(b, x, VoteDelta(a[x]), 0)[y].proxied[i] == Stake(b, y, i + 1)
  {
    hide AdjustArray, Stake, SameGraph;
    LinkedIsAcyclic(a, b, x, p);
    var delta := VoteDelta(a[x]);
    assert WellFormed(b) && b[y].proxied[i] == Stake(a, y, i + 1);
    if d: nat :| 0 < d <= MAX_PROXY_DEPTH && Up(b, d, x) == y {
      if d - 1 <= i {
        VoteDeltaIsStake(a, x, i + 1 - d);
      }
      StakeChange(a, b, x, p, y, i);
      AdjustArrayAbove(b, x, delta, 0, y, d, i);
    } else {
      StakeChange(a, b, x, p, y, i);
      AdjustArrayElsewhere(b, x, delta, 0, y);
    }
  }

  /** Linking below `p` and adding the votes of `x` along the new chain keeps the tally exact. */
  lemma LinkExact(a: Accounts, b: Accounts, x: Name, p: Name)
    requires Consistent(a) && Linked(a, b, x, p)
    ensures Consistent(AdjustArray(b, x, VoteDelta(a[x]), 0))
  {
    var c := AdjustArray(b, x, VoteDelta(a[x]), 0);
    LinkedIsAcyclic(a, b, x, p);
    SameGraphStake(b, c);
    forall y, i | y in c && 0 <= i < MAX_PROXY_DEPTH ensures c[y].proxied[i] == Stake(c, y, i + 1) {
      LinkExactAt(a, b, x, p, y, i);
    }
  }

  lemma UnlinkExactAt(a: Accounts, x: Name, y: Name, i: nat)
    requires Consistent(a) && x in a && a[x].proxy != SELF && y in a && i < MAX_PROXY_DEPTH
    ensures AdjustArray(a, x, Negated(VoteDelta(a[x])), 0)[y].proxied[i] ==
            Stake(a[x := a[x].(proxy := SELF)], y, i + 1)
  {
    var a0, p := a[x := a[x].(proxy := SELF)], a[x].proxy;
    CutIsLinked(a, x);
    var delta := Negated(VoteDelta(a[x]));
    assert a[y].proxied[i] == Stake(a, y, i + 1);
    if d: nat :| 0 < d <= MAX_PROXY_DEPTH && Up(a, d, x) == y {
      if d - 1 <= i {
        StakeLinkElsewhere(a0, a, x, p, x, i + 1 - d);
        VoteDeltaIsStake(a, x, i + 1 - d);
      }
      StakeChange(a0, a, x, p, y, i);
      AdjustArrayAbove(a, x, delta, 0, y, d, i);
    } else {
      StakeChange(a0, a, x, p, y, i);
      AdjustArrayElsewhere(a, x, delta, 0, y);
    }
  }

  /** Taking the votes of `x` back along its chain and clearing its proxy keeps the tally exact. */
  lemma UnlinkExact(a: Accounts, x: Name)
    requires Consistent(a) && x in a && a[x].proxy != SELF
    ensures var b := AdjustArray(a, x, Negated(VoteDelta(a[x])), 0);
            Consistent(b[x := b[x].(proxy := SELF)])
  {
    var b := AdjustArray(a, x, Negated(VoteDelta(a[x])), 0);
    var c := b[x := b[x].(proxy := SELF)];
    CutIsLinked(a, x);
    SameGraphStake(a[x := a[x].(proxy := SELF)], c);
    forall y, i | y in c && 0 <= i < MAX_PROXY_DEPTH ensures c[y].proxied[i] == Stake(c, y, i + 1) {
      UnlinkExactAt(a, x, y, i);
    }
  }

  /**
   The loop check made before a new proxy is accepted: walk up from `cur`,
   refusing an account met before and more than `MAX_PROXY_DEPTH` accounts in all.
   */
  predicate ChainFree(a: Accounts, cur: Name, seen: set<Name>)
    requires WellFormed(a) && cur in a && |seen| <= MAX_PROXY_DEPTH
    decreases MAX_PROXY_DEPTH - |seen|
  {
    var next := a[cur].proxy;
    next == SELF || (next !in seen && |seen| < MAX_PROXY_DEPTH && ChainFree(a, next, seen + {next}))
  }

  /** `s` lies on the way up to `cur`. */
  ghost predicate Below(a: Accounts, s: Name, cur: Name)
  {
    exists j: nat :: Up(a, j, s) == cur
  }

  /** The way up from `n` does not pass through `x`. */
  ghost predicate Avoids(a: Accounts, n: Name, x: Name)
  {
    forall k: nat {:trigger Up(a, k, n)} :: Up(a, k, n) != x
  }

  lemma AvoidsNext(a: Accounts, cur: Name, x: Name)
    requires cur in a && cur != x
    ensures Avoids(a, cur, x) <==> Avoids(a, a[cur].proxy, x)
  {
    var next := a[cur].proxy;
    if Avoids(a, cur, x) {
      forall k: nat ensures Up(a, k, next) != x {
        assert Up(a, k + 1, cur) == Up(a, k, next);
      }
    }
    if Avoids(a, next, x) {
      forall k: nat ensures Up(a, k, cur) != x {
        if k > 0 {
          var j: nat := k - 1;
          assert Up(a, j + 1, cur) == Up(a, j, next);
        }
      }
    }
  }

  /** In a graph without cycles only `x` can stop the walk early: all else met before lies below. */
  lemma {:induction false} ChainFreeFrom(a: Accounts, cur: Name, seen: set<Name>, x: Name)
    requires WellFormed(a) && Acyclic(a) && cur in a && x in a && cur != x && x in seen && |seen| <= MAX_PROXY_DEPTH
    requires forall s :: s in seen && s != x ==> Below(a, s, cur)
    ensures ChainFree(a, cur, seen) <==> Up(a, MAX_PROXY_DEPTH - |seen| + 1, cur) == SELF && Avoids(a, cur, x)
    decreases MAX_PROXY_DEPTH - |seen|
  {
    hide Acyclic, Avoids;
    var next := a[cur].proxy;
    var n := MAX_PROXY_DEPTH - |seen|;
    assert Up(a, n + 1, cur) == Up(a, n, next);
    AvoidsNext(a, cur, x);
    if next == SELF {
      UpSelf(a, n);
      AvoidsSelf(a, x);
    } else if next == x {
      AvoidsNot(a, x);
    } else {
      NotSeen(a, cur, seen, x);
      if n > 0 {
        ChainFreeFrom(a, next, seen + {next}, x);
      }
    }
  }

  lemma AvoidsSelf(a: Accounts, x: Name)
    requires SELF !in a && x != SELF
    ensures Avoids(a, SELF, x)
  {
    forall k: nat ensures Up(a, k, SELF) != x { UpSelf(a, k); }
  }

  lemma AvoidsNot(a: Accounts, x: Name)
    ensures !Avoids(a, x, x)
  {
    assert Up(a, 0, x) == x;
  }

  /** The account above has not been met, since that would close a cycle. */
  lemma NotSeen(a: Accounts, cur: Name, seen: set<Name>, x: Name)
    requires SELF !in a && Acyclic(a) && cur in a && a[cur].proxy != x
    requires forall s :: s in seen && s != x ==> Below(a, s, cur)
    ensures var next := a[cur].proxy; next !in seen && forall s :: s in seen + {next} && s != x ==> Below(a, s, next)
  {
    var next := a[cur].proxy;
    assert Up(a, 0, next) == next;
    forall s | s in seen && s != x ensures s != next && Below(a, s, next) {
      var j: nat :| Up(a, j, s) == cur;
      UpCompose(a, j, 1, s);
      assert Up(a, 1, cur) == Up(a, 0, next);
      assert Up(a, j + 1, s) == next;
      assert Up(a, j + 1, cur) == Up(a, j, next);
    }
  }

  /** The check passes exactly when the new proxy's chain is short enough and does not pass through `x`. */
  lemma ChainFreeExact(a: Accounts, x: Name, q: Name)
    requires WellFormed(a) && Acyclic(a) && x in a && q in a && x != q
    ensures ChainFree(a, q, {x, q}) <==> Up(a, MAX_PROXY_DEPTH - 1, q) == SELF && Avoids(a, q, x)
  {
    assert |{x, q}| == 2;
    assert Up(a, 0, q) == q;
    ChainFreeFrom(a, q, {x, q}, x);
  }

  // ----- The operations -----

  datatype Operation =
    | CreateAccount(name: Name)
    | ChangeVests(name: Name, delta: int)       // a deposit, or a withdrawal when negative
    | SetProxy(name: Name, newProxy: Name)
    | VoteForWitness(name: Name)                // clears a proxy that is set
    | Clear(name: Name)                         // the end of a block, for an account without keys

  /** The votes of `x` are taken off the chain above it, and its proxy is `q`. */
  function Moved(a: Accounts, x: Name, q: Name): (r: Accounts)
    requires WellFormed(a) && x in a && (q == SELF || q in a)
    ensures WellFormed(r) && r.Keys == a.Keys
  {
    var b := AdjustArray(a, x, Negated(VoteDelta(a[x])), 0);
    b[x := b[x].(proxy := q)]
  }

  function Withdrawn(a: Accounts, x: Name): (r: Accounts)
    requires WellFormed(a) && x in a
    ensures WellFormed(r) && r.Keys == a.Keys
  {
    Moved(a, x, SELF)
  }

  /** The state after an accepted proxy. */
  function Proxied(a: Accounts, x: Name, q: Name): (r: Accounts)
    requires WellFormed(a) && x in a && (q == SELF || q in a)
    ensures WellFormed(r)
  {
    var b := Moved(a, x, q);
    if q == SELF then b else AdjustArray(b, x, VoteDelta(a[x]), 0)
  }

  /**
   The state after an accepted operation.  The accounts in `keyless` exist from genesis with
   authorities that nothing satisfies, so they cannot name a proxy; their shares are cleared at
   the end of every block, without touching the tally.
   */
  function Step(keyless: set<Name>, a: Accounts, op: Operation): (r: Option<Accounts>)
    requires WellFormed(a)
    ensures r.Some? ==> WellFormed(r.value)
  {
    match op
    case CreateAccount(n) =>
      if n == SELF || n in a then None
      else Some(a[n := Account(0, SELF, seq(MAX_PROXY_DEPTH, _ => 0))])
    case ChangeVests(n, delta) =>
      if n !in a then None
      else Some(AdjustScalar(a[n := a[n].(vests := a[n].vests + delta)], n, delta, 0))
    case SetProxy(n, q) =>
      if n !in a || n in keyless || q == n || a[n].proxy == q then None
      else if q != SELF && (q !in a || !ChainFree(a, q, {n, q})) then None
      else Some(Proxied(a, n, q))
    case VoteForWitness(n) =>
      if n !in a then None
      else Some(if a[n].proxy == SELF then a else Withdrawn(a, n))
    case Clear(n) =>
      if n !in a || n !in keyless then None
      else Some(if a[n].vests > 0 then a[n := a[n].(vests := 0)] else a)
  }

  lemma StepOfVests(keyless: set<Name>, a: Accounts, x: Name, delta: int)
    requires WellFormed(a)
    ensures Step(keyless, a, ChangeVests(x, delta)) ==
            if x !in a then None else Some(AdjustScalar(a[x := a[x].(vests := a[x].vests + delta)], x, delta, 0))
  {
  }

  /** Accounts without keys have no proxy. */
  ghost predicate KeylessFree(keyless: set<Name>, a: Accounts)
  {
    forall n {:trigger a[n]} :: n in a && n in keyless ==> a[n].proxy == SELF
  }

  lemma WithdrawnExact(a: Accounts, x: Name)
    requires Consistent(a) && x in a
    ensures Consistent(Withdrawn(a, x)) && Withdrawn(a, x)[x].proxied == a[x].proxied
    ensures SameGraph(Withdrawn(a, x), a[x := a[x].(proxy := SELF)])
  {
    AdjustArrayElsewhere(a, x, Negated(VoteDelta(a[x])), 0, x);
    if a[x].proxy != SELF {
      UnlinkExact(a, x);
    } else {
      assert Withdrawn(a, x) == a;
    }
  }

  lemma ChangeVestsExactAt(a: Accounts, b: Accounts, x: Name, delta: int, y: Name, i: nat)
    requires WellFormed(a) && x in a && b == a[x := a[x].(vests := a[x].vests + delta)]
    requires y in a && i < MAX_PROXY_DEPTH && a[y].proxied[i] == Stake(a, y, i + 1)
    ensures AdjustScalar(b, x, delta, 0)[y].proxied[i] == Stake(b, y, i + 1)
  {
    assert WellFormed(b);
    var after := AdjustScalar(b, x, delta, 0)[y].proxied[i];
    assert after == b[y].proxied[i] + (if Up(b, i + 1, x) == y then delta else 0) by {
      AdjustScalarAt(b, x, delta, 0, y, i);
    }
    StakeOneMore(a, b, x, delta, y, i + 1);
    UpSameProxies(a, b, i + 1, x);
  }

  lemma ChangeVestsExact(a: Accounts, x: Name, delta: int)
    requires Consistent(a) && x in a
    ensures Consistent(AdjustScalar(a[x := a[x].(vests := a[x].vests + delta)], x, delta, 0))
  {
    var b := a[x := a[x].(vests := a[x].vests + delta)];
    var c := AdjustScalar(b, x, delta, 0);
    forall k: nat, n ensures Up(a, k, n) == Up(b, k, n) {
      UpSameProxies(a, b, k, n);
    }
    SameGraphStake(b, c);
    forall y, i | y in c && 0 <= i < MAX_PROXY_DEPTH ensures c[y].proxied[i] == Stake(c, y, i + 1) {
      ChangeVestsExactAt(a, b, x, delta, y, i);
    }
  }

  lemma {:induction false} UpSameProxies(a: Accounts, b: Accounts, k: nat, n: Name)
    requires a.Keys == b.Keys && forall m :: m in a ==> a[m].proxy == b[m].proxy
    ensures Up(a, k, n) == Up(b, k, n)
    decreases k
  {
    if k > 0 && n in a {
      UpSameProxies(a, b, k - 1, a[n].proxy);
    }
  }

  lemma StakeOneMore(a: Accounts, b: Accounts, x: Name, delta: int, y: Name, k: nat)
    requires x in a && b == a[x := a[x].(vests := a[x].vests + delta)]
    ensures Stake(b, y, k) == Stake(a, y, k) + (if Up(a, k, x) == y then delta else 0)
  {
    var extra: Name -> int := n => if n == x && Up(a, k, x) == y then delta else 0;
    forall n | n in a.Keys ensures Share(b, y, k)(n) == Share(a, y, k)(n) + extra(n) {
      UpSameProxies(a, b, k, n);
    }
    assert b.Keys == a.Keys;
    SumPlus(a.Keys, Share(a, y, k), extra, Share(b, y, k));
    SumSingle(a.Keys, extra, x);
  }

  lemma MovedAgain(a: Accounts, x: Name, q: Name)
    requires WellFormed(a) && x in a && q in a
    ensures Moved(a, x, q) == Withdrawn(a, x)[x := Withdrawn(a, x)[x].(proxy := q)]
  {
    hide AdjustArray, VoteDelta, Negated, WellFormed;
  }

  lemma SetProxyExact(a: Accounts, x: Name, q: Name)
    requires Consistent(a) && x in a && q in a && q != x && ChainFree(a, q, {x, q})
    ensures Consistent(Proxied(a, x, q))
  {
    MovedAgain(a, x, q);
    hide Moved;
    var b := Withdrawn(a, x);
    WithdrawnExact(a, x);
    ChainFreeExact(a, x, q);
    var cut := a[x := a[x].(proxy := SELF)];
    SameGraphStake(b, cut);
    forall k: nat ensures Up(b, k, q) != x {
      UpCutEdge(a, cut, x, k, q);
    }
    assert VoteDelta(b[x]) == VoteDelta(a[x]);
    LinkExact(b, b[x := b[x].(proxy := q)], x, q);
  }

  lemma CreateExact(a: Accounts, x: Name)
    requires Consistent(a) && x != SELF && x !in a
    ensures Consistent(a[x := Account(0, SELF, seq(MAX_PROXY_DEPTH, _ => 0))])
  {
    var b := a[x := Account(0, SELF, seq(MAX_PROXY_DEPTH, _ => 0))];
    forall k: nat, n | n in a ensures Up(b, k, n) == Up(a, k, n) && Up(a, k, n) != x {
      UpNewAccount(a, b, x, k, n);
    }
    forall k: nat ensures k > 0 ==> Up(b, k, x) == SELF {
      if k > 0 { UpSelf(b, k - 1); }
    }
    forall y, i | y in b && 0 <= i < MAX_PROXY_DEPTH ensures b[y].proxied[i] == Stake(b, y, i + 1) {
      SumSplit(b.Keys, Share(b, y, i + 1), x);
      assert b.Keys - {x} == a.Keys;
      if y == x {
        SumZero(a.Keys, Share(b, y, i + 1));
      } else {
        SumCong(a.Keys, Share(b, y, i + 1), Share(a, y, i + 1));
        assert a[y].proxied[i] == Stake(a, y, i + 1);
      }
    }
  }

  lemma {:induction false} UpNewAccount(a: Accounts, b: Accounts, x: Name, k: nat, n: Name)
    requires WellFormed(a) && x != SELF && x !in a && n in a && a.Keys + {x} == b.Keys
    requires forall m :: m in a ==> a[m] == b[m]
    ensures Up(b, k, n) == Up(a, k, n) && Up(a, k, n) != x
    decreases k
  {
    if k > 0 && a[n].proxy != SELF {
      UpNewAccount(a, b, x, k - 1, a[n].proxy);
    } else if k > 0 {
      UpSelf(a, k - 1);
      UpSelf(b, k - 1);
    }
  }

  /**
   Zeroing the shares of an account without touching the caches above it: the
   tally survives exactly when the account has no proxy or no shares.
   */
  lemma ClearingExact(a: Accounts, x: Name)
    requires Consistent(a) && x in a
    ensures Consistent(a[x := a[x].(vests := 0)]) <==> a[x].proxy == SELF || a[x].vests == 0
  {
    var b := a[x := a[x].(vests := 0)];
    forall k: nat, n ensures Up(a, k, n) == Up(b, k, n) {
      UpSameProxies(a, b, k, n);
    }
    forall y, i | y in a && 0 <= i < MAX_PROXY_DEPTH
      ensures Stake(b, y, i + 1) == b[y].proxied[i] - (if Up(a, i + 1, x) == y then a[x].vests else 0)
    {
      StakeOneMore(a, b, x, -a[x].vests, y, i + 1);
      assert a[y].proxied[i] == Stake(a, y, i + 1);
    }
    if a[x].proxy == SELF {
      forall k: nat ensures k > 0 ==> Up(a, k, x) == SELF { if k > 0 { UpSelf(a, k - 1); } }
    } else {
      var p := a[x].proxy;
      assert Up(a, 0 + 1, x) == p;
      assert Stake(b, p, 0 + 1) == b[p].proxied[0] - a[x].vests;
    }
  }

  /** Every accepted operation keeps the graph acyclic and the tally exact, and accounts without keys free. */
  lemma StepExact(keyless: set<Name>, a: Accounts, op: Operation)
    requires Consistent(a) && KeylessFree(keyless, a)
    ensures Step(keyless, a, op).Some? ==> Consistent(Step(keyless, a, op).value)
  {
    hide Acyclic, TallyExact, Moved, AdjustArray, AdjustScalar;
    match op
    case CreateAccount(n) => if n != SELF && n !in a { CreateExact(a, n); }
    case ChangeVests(n, delta) => if n in a { ChangeVestsExact(a, n, delta); }
    case SetProxy(n, q) =>
      if n in a && q != n && a[n].proxy != q {
        if q == SELF {
          WithdrawnExact(a, n);
        } else if q in a && ChainFree(a, q, {n, q}) {
          SetProxyExact(a, n, q);
        }
      }
    case VoteForWitness(n) => if n in a { WithdrawnExact(a, n); }
    case Clear(n) => if n in a && n in keyless { ClearingExact(a, n); }
  }

  lemma StepKeepsFree(keyless: set<Name>, a: Accounts, op: Operation)
    requires WellFormed(a) && KeylessFree(keyless, a)
    ensures Step(keyless, a, op).Some? ==> KeylessFree(keyless, Step(keyless, a, op).value)
  {
  }

  /** A run: refused operations leave the state as it was. */
  function Run(keyless: set<Name>, a: Accounts, ops: seq<Operation>): (r: Accounts)
    requires WellFormed(a)
    ensures WellFormed(r)
    decreases |ops|
  {
    if ops == [] then a
    else
      var next := Step(keyless, a, ops[0]);
      Run(keyless, if next.Some? then next.value else a, ops[1..])
  }

  lemma {:induction false} RunExact(keyless: set<Name>, a: Accounts, ops: seq<Operation>)
    requires Consistent(a) && KeylessFree(keyless, a)
    ensures Consistent(Run(keyless, a, ops)) && KeylessFree(keyless, Run(keyless, a, ops))
    decreases |ops|
  {
    hide Acyclic, TallyExact, KeylessFree, Step;
    if ops != [] {
      StepExact(keyless, a, ops[0]);
      StepKeepsFree(keyless, a, ops[0]);
      var next := Step(keyless, a, ops[0]);
      RunExact(keyless, if next.Some? then next.value else a, ops[1..]);
    }
  }

  /**
   In every state reached from the empty one, whatever the operations and whenever accounts
   without keys are cleared, the cache is the tally.
   */
  lemma ReachableExact(keyless: set<Name>, ops: seq<Operation>)
    ensures Consistent(Run(keyless, map[], ops)) && KeylessFree(keyless, Run(keyless, map[], ops))
  {
    var empty: Accounts := map[];
    RunExact(keyless, empty, ops);
  }

  // ----- What an operation does to shares and proxies -----

  /** Everybody keeps shares and proxy, except that `x` has the proxy `q` now. */
  ghost predicate Relinked(a: Accounts, b: Accounts, x: Name, q: Name)
  {
    && b.Keys == a.Keys
    && forall n {:trigger b[n]} :: n in a ==> b[n].vests == a[n].vests && b[n].proxy == if n == x then q else a[n].proxy
  }

  /** Everybody keeps shares and proxy, except that `x` has `vests` shares now. */
  ghost predicate Restaked(a: Accounts, b: Accounts, x: Name, vests: int)
  {
    && b.Keys == a.Keys
    && forall n {:trigger b[n]} :: n in a ==>
         b[n].proxy == a[n].proxy && b[n].vests == if n == x then vests else a[n].vests
  }

  /** Somebody new may be named, if the chain above is short and does not lead back; so may nobody. */
  ghost predicate MayName(keyless: set<Name>, a: Accounts, x: Name, q: Name)
  {
    && x in a && x !in keyless && q != x && a[x].proxy != q
    && (q == SELF || (q in a && Up(a, MAX_PROXY_DEPTH - 1, q) == SELF && Avoids(a, q, x)))
  }

  lemma StepOfProxy(keyless: set<Name>, a: Accounts, x: Name, q: Name)
    requires WellFormed(a)
    ensures Step(keyless, a, SetProxy(x, q)) ==
            if x !in a || x in keyless || q == x || a[x].proxy == q then None
            else if q != SELF && (q !in a || !ChainFree(a, q, {x, q})) then None
            else Some(Proxied(a, x, q))
  {
  }

  lemma WithdrawnRelinks(a: Accounts, x: Name)
    requires WellFormed(a) && x in a
    ensures Relinked(a, Withdrawn(a, x), x, SELF)
  {
    hide Proxied;
    MovedRelinks(a, x, SELF);
  }

  lemma MovedRelinks(a: Accounts, x: Name, q: Name)
    requires WellFormed(a) && x in a && (q == SELF || q in a)
    ensures Relinked(a, Moved(a, x, q), x, q)
  {
    hide AdjustArray, VoteDelta;
  }

  lemma ProxiedRelinks(a: Accounts, x: Name, q: Name)
    requires WellFormed(a) && x in a && (q == SELF || q in a)
    ensures Relinked(a, Proxied(a, x, q), x, q)
  {
    hide Moved, AdjustArray, VoteDelta;
    MovedRelinks(a, x, q);
  }

  lemma SetProxyDoes(keyless: set<Name>, a: Accounts, x: Name, q: Name)
    requires WellFormed(a)
    ensures var r := Step(keyless, a, SetProxy(x, q)); r.Some? ==> Relinked(a, r.value, x, q)
    ensures Consistent(a) && KeylessFree(keyless, a) ==>
              (Step(keyless, a, SetProxy(x, q)).Some? <==> MayName(keyless, a, x, q))
  {
    StepOfProxy(keyless, a, x, q);
    hide Step, Proxied, ChainFree, Relinked, KeylessFree, Avoids, Acyclic, TallyExact, Up;
    if x in a && (q == SELF || q in a) {
      ProxiedRelinks(a, x, q);
    }
    if Consistent(a) && x in a && q in a && x != q {
      ChainFreeExact(a, x, q);
    }
  }

  lemma ClearProxyDoes(keyless: set<Name>, a: Accounts, x: Name)
    requires WellFormed(a) && x in a
    ensures Step(keyless, a, VoteForWitness(x)).Some?
    ensures Relinked(a, Step(keyless, a, VoteForWitness(x)).value, x, SELF)
  {
    hide AdjustArray, VoteDelta;
  }

  lemma ChangeVestsDoes(keyless: set<Name>, a: Accounts, x: Name, delta: int)
    requires WellFormed(a) && x in a
    ensures Step(keyless, a, ChangeVests(x, delta)).Some?
    ensures Restaked(a, Step(keyless, a, ChangeVests(x, delta)).value, x, a[x].vests + delta)
  {
    hide AdjustScalar;
  }

  /** Shares and proxies determine an exact cache. */
  lemma ExactIsUnique(a: Accounts, b: Accounts)
    requires Consistent(a) && Consistent(b) && SameGraph(a, b)
    ensures a == b
  {
    SameGraphStake(a, b);
    forall n | n in a ensures a[n] == b[n] {
      forall i | 0 <= i < MAX_PROXY_DEPTH ensures a[n].proxied[i] == b[n].proxied[i] {
        assert a[n].proxied[i] == Stake(a, n, i + 1) && b[n].proxied[i] == Stake(b, n, i + 1);
      }
      assert a[n].proxied == b[n].proxied;
    }
  }

  // ----- The code that updates the account index in place -----

  class AccountIndex {
    const keyless: set<Name>
    var accounts: Accounts

    constructor (keyless: set<Name>)
      ensures accounts == map[] && Consistent(accounts) && this.keyless == keyless
    {
      this.keyless, accounts := keyless, map[];
    }

    method AddProxiedArray(n: Name, delta: seq<int>, depth: nat)
      requires WellFormed(accounts) && n in accounts && |delta| == MAX_PROXY_DEPTH + 1
      modifies this
      ensures accounts == AdjustArray(old(accounts), n, delta, depth)
      decreases MAX_PROXY_DEPTH - depth
    {
      var p := accounts[n].proxy;
      if p == SELF || depth >= MAX_PROXY_DEPTH {
        return;
      }
      hide AdjustArray;
      ArrayStep(accounts, n, delta, depth);
      var votes := AddToCache(accounts[p], delta, depth);
      accounts := accounts[p := accounts[p].(proxied := votes)];
      AddProxiedArray(p, delta, depth + 1);
    }

    method AddToCache(p: Account, delta: seq<int>, depth: nat) returns (votes: seq<int>)
      requires |p.proxied| == MAX_PROXY_DEPTH && |delta| == MAX_PROXY_DEPTH + 1 && depth < MAX_PROXY_DEPTH
      ensures p.(proxied := votes) == AddShifted(p, delta, depth)
    {
      votes := p.proxied;
      var i := MAX_PROXY_DEPTH - depth - 1;
      while i >= 0
        invariant -1 <= i < MAX_PROXY_DEPTH - depth && |votes| == MAX_PROXY_DEPTH
        invariant forall j | 0 <= j <= i + depth :: votes[j] == p.proxied[j]
        invariant forall j | i + depth < j < MAX_PROXY_DEPTH :: votes[j] == p.proxied[j] + delta[j - depth]
      {
        votes := votes[i + depth := votes[i + depth] + delta[i]];
        i := i - 1;
      }
      assert votes == AddShifted(p, delta, depth).proxied;
    }

    method AddProxied(n: Name, delta: int, depth: nat)
      requires WellFormed(accounts) && n in accounts
      modifies this
      ensures accounts == AdjustScalar(old(accounts), n, delta, depth)
      decreases MAX_PROXY_DEPTH - depth
    {
      var p := accounts[n].proxy;
      if p == SELF || depth >= MAX_PROXY_DEPTH {
        return;
      }
      accounts := accounts[p := AddAt(accounts[p], delta, depth)];
      AddProxied(p, delta, depth + 1);
    }

    /** Walk up from `q`, collecting the accounts met. */
    method FindsNoLoop(x: Name, q: Name) returns (ok: bool)
      requires WellFormed(accounts) && x in accounts && q in accounts && x != q
      ensures ok == ChainFree(accounts, q, {x, q})
    {
      var chain := {x, q};
      assert |chain| == 2;
      var cur := q;
      while accounts[cur].proxy != SELF
        invariant cur in accounts && |chain| <= MAX_PROXY_DEPTH
        invariant ChainFree(accounts, q, {x, q}) == ChainFree(accounts, cur, chain)
        decreases MAX_PROXY_DEPTH - |chain|
      {
        var next := accounts[cur].proxy;
        if next in chain || |chain + {next}| > MAX_PROXY_DEPTH {
          return false;
        }
        chain := chain + {next};
        cur := next;
      }
      return true;
    }

    /** account_witness_proxy: a refused operation is undone as a whole. */
    method ChangeProxy(x: Name, q: Name) returns (ok: bool)
      requires WellFormed(accounts)
      modifies this
      ensures ok == Step(keyless, old(accounts), SetProxy(x, q)).Some?
      ensures accounts == if ok then Step(keyless, old(accounts), SetProxy(x, q)).value else old(accounts)
      ensures ok ==> Relinked(old(accounts), accounts, x, q)
      ensures old(Consistent(accounts) && KeylessFree(keyless, accounts)) ==>
                Consistent(accounts) && (ok <==> old(MayName(keyless, accounts, x, q)))
    {
      hide Consistent, KeylessFree, Relinked, MayName, Step, AdjustArray, VoteDelta, ChainFree;
      StepOfProxy(keyless, accounts, x, q);
      SetProxyDoes(keyless, accounts, x, q);
      if Consistent(accounts) && KeylessFree(keyless, accounts) {
        StepExact(keyless, accounts, SetProxy(x, q));
      }
      if x !in accounts || x in keyless || q == x || accounts[x].proxy == q {
        return false;
      }
      var before := accounts;
      var delta := VoteDelta(accounts[x]);
      AddProxiedArray(x, Negated(delta), 0);
      if q != SELF {
        if q !in accounts {
          accounts := before;
          return false;
        }
        ok := FindsNoLoop(x, q);
        ChainFreeSameGraph(before, accounts, q, {x, q});
        if !ok {
          accounts := before;
          return;
        }
        accounts := accounts[x := accounts[x].(proxy := q)];
        AddProxiedArray(x, delta, 0);
      } else {
        accounts := accounts[x := accounts[x].(proxy := SELF)];
      }
      return true;
    }

    /** The part of account_witness_vote that drops a proxy. */
    method ClearProxy(x: Name) returns (ok: bool)
      requires WellFormed(accounts)
      modifies this
      ensures ok == Step(keyless, old(accounts), VoteForWitness(x)).Some?
      ensures accounts == if ok then Step(keyless, old(accounts), VoteForWitness(x)).value else old(accounts)
      ensures ok <==> x in old(accounts)
      ensures ok ==> Relinked(old(accounts), accounts, x, SELF)
      ensures old(Consistent(accounts) && KeylessFree(keyless, accounts)) ==> Consistent(accounts)
    {
      hide Consistent, KeylessFree;
      if x in accounts {
        ClearProxyDoes(keyless, accounts, x);
      }
      if Consistent(accounts) && KeylessFree(keyless, accounts) {
        StepExact(keyless, accounts, VoteForWitness(x));
      }
      if x !in accounts {
        return false;
      }
      if accounts[x].proxy != SELF {
        AddProxiedArray(x, Negated(VoteDelta(accounts[x])), 0);
        accounts := accounts[x := accounts[x].(proxy := SELF)];
      }
      return true;
    }

    /** The share change and vote propagation done by create_vesting and by each withdrawal step. */
    method AddVests(x: Name, delta: int) returns (ok: bool)
      requires WellFormed(accounts)
      modifies this
      ensures ok == Step(keyless, old(accounts), ChangeVests(x, delta)).Some?
      ensures accounts == if ok then Step(keyless, old(accounts), ChangeVests(x, delta)).value else old(accounts)
      ensures ok <==> x in old(accounts)
      ensures ok ==> Restaked(old(accounts), accounts, x, old(accounts)[x].vests + delta)
      ensures old(Consistent(accounts) && KeylessFree(keyless, accounts)) ==> Consistent(accounts)
    {
      hide Step, AdjustScalar, Consistent, KeylessFree, Restaked;
      if x in accounts {
        ChangeVestsDoes(keyless, accounts, x, delta);
      }
      if Consistent(accounts) && KeylessFree(keyless, accounts) {
        StepExact(keyless, accounts, ChangeVests(x, delta));
      }
      StepOfVests(keyless, accounts, x, delta);
      if x !in accounts {
        return false;
      }
      accounts := accounts[x := accounts[x].(vests := accounts[x].vests + delta)];
      AddProxied(x, delta, 0);
      return true;
    }

    /** The clearing of one account at the end of a block. */
    method ClearShares(x: Name) returns (ok: bool)
      requires WellFormed(accounts)
      modifies this
      ensures ok == Step(keyless, old(accounts), Clear(x)).Some?
      ensures accounts == if ok then Step(keyless, old(accounts), Clear(x)).value else old(accounts)
      ensures ok <==> x in old(accounts) && x in keyless
      ensures ok ==> var v := old(accounts)[x].vests; Restaked(old(accounts), accounts, x, if v > 0 then 0 else v)
      ensures old(Consistent(accounts) && KeylessFree(keyless, accounts)) ==> Consistent(accounts)
    {
      hide Consistent, KeylessFree;
      if Consistent(accounts) && KeylessFree(keyless, accounts) {
        StepExact(keyless, accounts, Clear(x));
      }
      if x !in accounts || x !in keyless {
        return false;
      }
      if accounts[x].vests > 0 {
        accounts := accounts[x := accounts[x].(vests := 0)];
      }
      return true;
    }
  }

  lemma {:induction false} ChainFreeSameGraph(a: Accounts, b: Accounts, cur: Name, seen: set<Name>)
    requires WellFormed(a) && WellFormed(b) && SameGraph(a, b) && cur in a && |seen| <= MAX_PROXY_DEPTH
    ensures ChainFree(a, cur, seen) == ChainFree(b, cur, seen)
    decreases MAX_PROXY_DEPTH - |seen|
  {
    var next := a[cur].proxy;
    assert next == b[cur].proxy;
    if next != SELF && next !in seen && |seen| < MAX_PROXY_DEPTH {
      ChainFreeSameGraph(a, b, next, seen + {next});
    }
  }
}
