/**
 Withdrawing vesting shares: the schedule of a withdrawal and the routes its parts may take.
 */
module PowerDown {
  import opened Options
  import opened Arithmetic
  import opened Sums

  const INTERVAL: int := 86400            // CHAIN_VESTING_WITHDRAW_INTERVAL_SECONDS
  const MAX_ROUTES: nat := 10             // CHAIN_MAX_WITHDRAW_ROUTES

  // ----- The schedule -----

  /**
   `rate` shares are due at each interval until `total` have been withdrawn; `next` is None when
   nothing is under way.
   */
  datatype Withdrawal = Withdrawal(rate: int, next: Option<int>, total: int, done: int)

  const Idle := Withdrawal(0, None, 0, 0)

  predicate Scheduled(w: Withdrawal)
  {
    w.next.Some? ==> w.rate > 0 && 0 <= w.done && 0 < w.total
  }

  /** withdraw_vesting; `available` is what is not delegated. */
  function NewRate(available: int, intervals: int): (r: int)
    requires available >= 0 && intervals > 0
    ensures r > 0 && (r == 1 || r * intervals <= available) && available < (r + 1) * intervals
  {
    DivBounds(available, intervals);
    var rate := available / intervals;
    if rate == 0 then 1 else rate
  }

  /** The shares due now. */
  function Due(w: Withdrawal, shares: int): (amount: int)
    requires w.rate > 0
    ensures 0 <= amount && (shares >= 0 ==> amount <= shares)
  {
    var part := if w.total - w.done < w.rate then w.total % w.rate else w.rate;
    var limited := if shares < part then shares else part;
    if limited < 0 then 0 else limited
  }

  function After(w: Withdrawal, amount: int, left: int): Withdrawal
    requires w.next.Some?
  {
    if w.done + amount >= w.total || left == 0 then w.(rate := 0, next := None, done := w.done + amount)
    else w.(next := Some(w.next.value + INTERVAL), done := w.done + amount)
  }

  /** One interval in which nothing else happens. */
  function Interval(w: Withdrawal, shares: int): (r: (Withdrawal, int))
    requires w.next.Some? ==> w.rate > 0
    ensures r.0.next.Some? ==> r.0.rate > 0
  {
    if w.next.None? then (w, shares)
    else
      var amount := Due(w, shares);
      (After(w, amount, shares - amount), shares - amount)
  }

  /** A withdrawal and the shares of its account after `k` intervals in which nothing else happened to them. */
  ghost function Course(w: Withdrawal, shares: int, k: nat): (Withdrawal, int)
    requires w.rate > 0
    ensures Course(w, shares, k).0.next.Some? ==> Course(w, shares, k).0.rate > 0
  {
    if k == 0 then (w, shares)
    else
      var (v, left) := Course(w, shares, k - 1);
      Interval(v, left)
  }

  /** The number of intervals, rounded up. */
  function Intervals(total: int, rate: int): int
    requires total > 0 && rate > 0
  {
    (total + rate - 1) / rate
  }

  ghost predicate Fresh(w: Withdrawal, shares: int)
  {
    w.rate > 0 && w.next.Some? && w.done == 0 && 0 < w.total <= shares
  }

  lemma {:induction false} CourseRuns(w: Withdrawal, shares: int, k: nat)
    requires Fresh(w, shares) && k * w.rate < w.total
    ensures Course(w, shares, k) == Running(w, shares, k * w.rate, k * INTERVAL)
    decreases k
  {
    if k > 0 {
      OneLess(k, w.rate);
      OneLess(k, INTERVAL);
      CourseRuns(w, shares, k - 1);
      RunsOn(w, shares, (k - 1) * w.rate, (k - 1) * INTERVAL);
    }
  }

  /** A withdrawal that has paid `done` in `time`. */
  function Running(w: Withdrawal, shares: int, done: int, time: int): (Withdrawal, int)
    requires w.next.Some?
  {
    (w.(next := Some(w.next.value + time), done := done), shares - done)
  }

  lemma RunsOn(w: Withdrawal, shares: int, done: int, time: int)
    requires Fresh(w, shares) && 0 <= done && done + w.rate < w.total
    ensures var (v, left) := Running(w, shares, done, time);
            Interval(v, left) == Running(w, shares, done + w.rate, time + INTERVAL)
  {
  }

  lemma RunsOut(w: Withdrawal, shares: int, done: int, time: int)
    requires Fresh(w, shares) && 0 <= done < w.total <= done + w.rate
    requires w.total < done + w.rate ==> w.total % w.rate == w.total - done
    ensures var (v, left) := Running(w, shares, done, time);
            Interval(v, left) == (w.(rate := 0, next := None, done := w.total), shares - w.total)
  {
  }

  lemma OneLess(k: nat, x: int)
    requires k > 0
    ensures (k - 1) * x + x == k * x
  {
  }

  /**
   It takes exactly `Intervals` to withdraw exactly `total`, and then the withdrawal is over;
   before that it is not.
   */
  lemma PaysExactly(w: Withdrawal, shares: int, k: nat)
    requires Fresh(w, shares)
    ensures k < Intervals(w.total, w.rate) ==>
            Course(w, shares, k).0.next == Some(w.next.value + k * INTERVAL) && Course(w, shares, k).0.done < w.total
    ensures k == Intervals(w.total, w.rate) ==>
              Course(w, shares, k) == (w.(rate := 0, next := None, done := w.total), shares - w.total)
  {
    hide Course;
    var n, r := Intervals(w.total, w.rate), w.rate;
    DivBounds(w.total + r - 1, r);
    // n * r <= total + r - 1 < (n + 1) * r
    assert (n + 1) * r == n * r + r && (n - 1) * r == n * r - r;
    if k < n {
      MulMono(k, n - 1, r);
      CourseRuns(w, shares, k);
    } else if k == n {
      if n <= 0 {
        MulMono(n, 0, r);
      }
      LastInterval(w, shares, k);
    }
  }

  lemma LastInterval(w: Withdrawal, shares: int, n: nat)
    requires Fresh(w, shares) && n > 0 && (n - 1) * w.rate < w.total <= n * w.rate
    ensures Course(w, shares, n) == (w.(rate := 0, next := None, done := w.total), shares - w.total)
  {
    CourseStep(w, shares, n);
    hide Course, Interval, Running;
    CourseRuns(w, shares, n - 1);
    OneLess(n, w.rate);
    var done := (n - 1) * w.rate;
    if w.total < done + w.rate {
      RemainderIs(w.total, w.rate, n - 1, w.total - done);
    }
    MulMono(0, n - 1, w.rate);
    RunsOut(w, shares, done, (n - 1) * INTERVAL);
  }

  lemma CourseStep(w: Withdrawal, shares: int, n: nat)
    requires w.rate > 0 && n > 0
    ensures var (v, left) := Course(w, shares, n - 1); Course(w, shares, n) == Interval(v, left)
  {
  }

  lemma RemainderIs(x: int, c: int, k: int, rest: int)
    requires c > 0 && x == k * c + rest && 0 <= rest < c
    ensures x % c == rest
  {
    assert (k + 1) * c == k * c + c;
    DivUnique(x, c, k);
  }

  // ----- Routes -----

  /** Accounts are numbered in the order of their creation; the first one has object id 0. */
  const FIRST: nat := 1

  datatype Route = Route(percent: nat, autoVest: bool)

  /** The routes of one account, by destination. */
  type Routes = map<nat, Route>

  /** The search starts after the route to the account with id 0, so that route has no effect. */
  function Active(rs: Routes): Routes { rs - {FIRST} }

  ghost function PercentOf(): Route -> int { (r: Route) => r.percent }

  ghost function Percent(rs: Routes): int { SumMap(Active(rs), PercentOf()) }

  ghost predicate GoodRoutes(rs: Routes)
  {
    && |rs| <= MAX_ROUTES && Percent(rs) <= CHAIN_100_PERCENT
    && forall to {:trigger rs[to]} :: to in rs ==> to >= FIRST && 0 < rs[to].percent <= CHAIN_100_PERCENT
  }

  /** set_withdraw_vesting_route before its final check: create, remove or change a route. */
  function WithRoute(rs: Routes, to: nat, percent: nat, autoVest: bool): Option<Routes>
  {
    if to !in rs then
      if percent == 0 || |rs| >= MAX_ROUTES then None else Some(rs[to := Route(percent, autoVest)])
    else if percent == 0 then Some(rs - {to})
    else Some(rs[to := Route(percent, autoVest)])
  }

  lemma ActiveUpdate(rs: Routes, to: nat, x: Route)
    ensures Active(rs[to := x]) == if to == FIRST then Active(rs) else Active(rs)[to := x]
  {
  }

  lemma ActiveRemove(rs: Routes, to: nat)
    ensures Active(rs - {to}) == Active(rs) - {to}
  {
  }

  lemma PercentUpdate(rs: Routes, to: nat, x: Route)
    ensures Percent(rs[to := x]) ==
            Percent(rs) + if to == FIRST then 0 else x.percent - if to in rs then rs[to].percent else 0
  {
    ActiveUpdate(rs, to, x);
    SumMapUpdate(Active(rs), PercentOf(), to, x);
  }

  lemma PercentRemove(rs: Routes, to: nat)
    requires to in rs
    ensures Percent(rs - {to}) == Percent(rs) - if to == FIRST then 0 else rs[to].percent
  {
    ActiveRemove(rs, to);
    if to == FIRST {
      assert Active(rs) - {to} == Active(rs);
    } else {
      SumMapRemove(Active(rs), PercentOf(), to);
    }
  }

  lemma SmallerKeys(rs: Routes, to: nat)
    requires to in rs
    ensures |rs - {to}| == |rs| - 1
  {
    assert (rs - {to}).Keys == rs.Keys - {to};
  }

  lemma WithRouteShape(rs: Routes, to: nat, percent: nat, autoVest: bool)
    requires |rs| <= MAX_ROUTES && WithRoute(rs, to, percent, autoVest).Some?
    ensures |WithRoute(rs, to, percent, autoVest).value| <= MAX_ROUTES
  {
    if percent == 0 {
      SmallerKeys(rs, to);
    } else if to in rs {
      assert rs[to := Route(percent, autoVest)].Keys == rs.Keys;
    } else {
      assert rs[to := Route(percent, autoVest)].Keys == rs.Keys + {to};
    }
  }

  /** Changing one route changes the sum over the active ones by at most one percentage: it cannot wrap around. */
  lemma WithRoutePercent(rs: Routes, to: nat, percent: nat, autoVest: bool)
    requires GoodRoutes(rs) && to >= FIRST && percent <= CHAIN_100_PERCENT && WithRoute(rs, to, percent, autoVest).Some?
    ensures var r := WithRoute(rs, to, percent, autoVest).value;
            && Percent(r) <= CHAIN_100_PERCENT + percent < 65536
            && (Percent(r) <= CHAIN_100_PERCENT ==> GoodRoutes(r))
  {
    hide Percent;
    WithRouteShape(rs, to, percent, autoVest);
    if percent == 0 {
      PercentRemove(rs, to);
    } else {
      PercentUpdate(rs, to, Route(percent, autoVest));
    }
  }

  lemma ModStep(t: nat, p: nat, s: int)
    ensures ((t + p) % 65536 + s) % 65536 == (t + p + s) % 65536
  {
  }

  lemma PercentIs(rs: Routes)
    ensures Percent(rs) == Sum(Active(rs).Keys, At(Active(rs), PercentOf())) &&
            Sum<nat>({}, At(Active(rs), PercentOf())) == 0
  {
  }

  lemma ActiveAt(rs: Routes, to: nat)
    requires to in Active(rs)
    ensures At(Active(rs), PercentOf())(to) == rs[to].percent
  {
  }

  /** The total the final check looks at, kept in sixteen bits. */
  method TotalPercent(rs: Routes) returns (total: nat)
    ensures total == Percent(rs) % 65536
  {
    hide Sum, At, Percent;
    total := 0;
    var left := Active(rs).Keys;
    ghost var f, all, percent := At(Active(rs), PercentOf()), left, Percent(rs);
    PercentIs(rs);
    while left != {}
      invariant left <= all && (total + Sum(left, f)) % 65536 == percent % 65536 && total < 65536
      decreases left
    {
      var to :| to in left;
      SumSplit(left, f, to);
      ActiveAt(rs, to);
      ModStep(total, rs[to].percent, Sum(left - {to}, f));
      total := (total + rs[to].percent) % 65536;
      left := left - {to};
    }
  }

  // ----- The parts that routes take -----

  function Part(amount: nat, r: Route): nat { amount * r.percent / 10000 }

  /** The part of each route of one kind. */
  ghost function PartOf(rs: Routes, amount: nat, autoVest: bool): nat -> int
  {
    to => if to in rs && rs[to].autoVest == autoVest then Part(amount, rs[to]) else 0
  }

  /** What all routes of one kind take. */
  ghost function Routed(rs: Routes, amount: nat, autoVest: bool): int
  {
    Sum(Active(rs).Keys, PartOf(rs, amount, autoVest))
  }

  /** The part of each route, whatever its kind. */
  ghost function AnyPart(rs: Routes, amount: nat): nat -> int
  {
    to => if to in rs then amount * rs[to].percent / 10000 else 0
  }

  lemma RoutedBoth(rs: Routes, amount: nat)
    ensures Routed(rs, amount, true) + Routed(rs, amount, false) == Sum(Active(rs).Keys, AnyPart(rs, amount))
  {
    SumPlus(Active(rs).Keys, PartOf(rs, amount, true), PartOf(rs, amount, false), AnyPart(rs, amount));
  }

  predicate AtMostPercent(parts: int, amount: nat, percent: int) { parts * 10000 <= amount * percent }

  lemma PartStep(amount: nat, p: nat, parts: int, q: int)
    requires parts * 10000 <= amount * q
    ensures (amount * p / 10000 + parts) * 10000 <= amount * (p + q)
  {
    assert amount * (p + q) == amount * p + amount * q;
  }

  lemma RouteStep(amount: nat, r: Route, parts: int, q: int, all: int, percent: int)
    requires AtMostPercent(parts, amount, q) && all == Part(amount, r) + parts && percent == r.percent + q
    ensures AtMostPercent(all, amount, percent)
  {
    PartStep(amount, r.percent, parts, q);
  }

  /** The parts of the routes in `ids` are no more than their percentages allow. */
  ghost predicate PartsWithin(rs: Routes, amount: nat, ids: set<nat>)
  {
    && Sum(ids, PartOf(rs, amount, true)) >= 0 && Sum(ids, PartOf(rs, amount, false)) >= 0
    && AtMostPercent(Sum(ids, PartOf(rs, amount, true)) + Sum(ids, PartOf(rs, amount, false)), amount,
                     Sum(ids, At(Active(rs), PercentOf())))
  }

  lemma {:induction false} RoutedParts(rs: Routes, amount: nat, ids: set<nat>)
    requires ids <= Active(rs).Keys
    ensures PartsWithin(rs, amount, ids)
    decreases ids
  {
    if ids == {} {
    } else {
      hide PartsWithin;
      var to :| to in ids;
      RoutedParts(rs, amount, ids - {to});
      PartsWithinMore(rs, amount, ids, to);
    }
  }

  lemma PartsWithinMore(rs: Routes, amount: nat, ids: set<nat>, to: nat)
    requires ids <= Active(rs).Keys && to in ids && PartsWithin(rs, amount, ids - {to})
    ensures PartsWithin(rs, amount, ids)
  {
    hide Sum, PartOf, At, Part, AtMostPercent;
    var f, g, h, rest := At(Active(rs), PercentOf()), PartOf(rs, amount, true), PartOf(rs, amount, false), ids - {to};
    SumSplit(ids, g, to);
    SumSplit(ids, h, to);
    SumSplit(ids, f, to);
    PartsOfOne(rs, amount, to);
    RouteStep(amount, rs[to], Sum(rest, g) + Sum(rest, h), Sum(rest, f), Sum(ids, g) + Sum(ids, h), Sum(ids, f));
  }

  lemma PartsOfOne(rs: Routes, amount: nat, to: nat)
    requires to in Active(rs)
    ensures PartOf(rs, amount, true)(to) >= 0 && PartOf(rs, amount, false)(to) >= 0
    ensures PartOf(rs, amount, true)(to) + PartOf(rs, amount, false)(to) == Part(amount, rs[to])
    ensures At(Active(rs), PercentOf())(to) == rs[to].percent
  {
    MulMono(0, rs[to].percent, amount);
    DivFloor(amount * rs[to].percent, 10000);
  }

  lemma AtMostAll(all: int, amount: nat, percent: int)
    requires all * 10000 <= amount * percent && percent <= 10000
    ensures all <= amount
  {
    MulMono(percent, 10000, amount);
  }

  /** Both kinds together never take more than there is. */
  lemma RoutedAtMost(rs: Routes, amount: nat)
    requires Percent(rs) <= CHAIN_100_PERCENT
    ensures Routed(rs, amount, true) >= 0 && Routed(rs, amount, false) >= 0
    ensures Routed(rs, amount, true) + Routed(rs, amount, false) <= amount
  {
    RoutedParts(rs, amount, Active(rs).Keys);
    AtMostAll(Routed(rs, amount, true) + Routed(rs, amount, false), amount, Percent(rs));
  }

  /** What the routes not yet served will take is part of the whole. */
  lemma RoutedLeft(rs: Routes, amount: nat, left: set<nat>, to: nat, autoVest: bool)
    requires left <= Active(rs).Keys && to in left
    ensures Sum(left, PartOf(rs, amount, autoVest)) ==
            PartOf(rs, amount, autoVest)(to) + Sum(left - {to}, PartOf(rs, amount, autoVest))
    ensures Sum(left - {to}, PartOf(rs, amount, autoVest)) >= 0
  {
    SumSplit(left, PartOf(rs, amount, autoVest), to);
    RoutedParts(rs, amount, left - {to});
  }

  lemma {:induction false} LeastExists(s: set<nat>) returns (x: nat)
    requires s != {}
    ensures x in s && forall y :: y in s ==> x <= y
    decreases s
  {
    x :| x in s;
    var rest := s - {x};
    assert s == rest + {x};
    if rest != {} {
      var y := LeastExists(rest);
      x := if x < y then x else y;
    }
  }

  function Least(s: set<nat>): (x: nat)
    requires s != {}
    ensures x in s && forall y :: y in s ==> x <= y
  {
    assert exists x :: x in s && forall y :: y in s ==> x <= y by { var x := LeastExists(s); }
    var x :| x in s && forall y :: y in s ==> x <= y;
    x
  }

  lemma {:induction false} PercentsNonNegative(rs: Routes, ids: set<nat>)
    ensures Sum(ids, At(rs, PercentOf())) >= 0
    decreases ids
  {
    if ids != {} {
      var to :| to in ids;
      SumSplit(ids, At(rs, PercentOf()), to);
      PercentsNonNegative(rs, ids - {to});
    }
  }

  lemma PercentNonNegative(rs: Routes)
    ensures Percent(rs) >= 0
  {
    PercentsNonNegative(Active(rs), Active(rs).Keys);
  }
}
