/** How the votes on a request to the committee decide it. */
module Committee {
  import opened Arithmetic
  import opened Sums

  /** A percentage, which may be negative, for each voter. */
  type Votes = map<nat, int>

  ghost predicate GoodVotes(votes: Votes)
  {
    forall v {:trigger votes[v]} :: v in votes ==> -10000 <= votes[v] <= 10000
  }

  /** Division as the machine does it: towards zero. */
  function Truncated(x: int, c: int): int
    requires c > 0
  {
    if x >= 0 then x / c else -((-x) / c)
  }

  /** The shares of a voter, and the part of them for the request; `sway` gives the effective shares of an account. */
  ghost function SwayOf(sway: nat -> nat): nat -> int { (v: nat) => sway(v) as int }

  ghost function PartOf(votes: Votes, sway: nat -> nat): nat -> int
  {
    v => if v in votes then Truncated(sway(v) * votes[v], 10000) else 0
  }

  /** All shares that voted. */
  ghost function AllShares(votes: Votes, sway: nat -> nat): int { Sum(votes.Keys, SwayOf(sway)) }

  /** The weighed sum of the votes. */
  ghost function Support(votes: Votes, sway: nat -> nat): int { Sum(votes.Keys, PartOf(votes, sway)) }

  lemma OneVote(shares: nat, percent: int)
    requires -10000 <= percent <= 10000
    ensures 0 - shares <= Truncated(shares * percent, 10000) <= shares
  {
    if percent >= 0 {
      PartAtMost(shares, percent, 10000);
    } else {
      PartAtMost(shares, -percent, 10000);
      assert -(shares * percent) == shares * -percent;
    }
  }

  lemma {:induction false} SupportWithin(votes: Votes, sway: nat -> nat, some: set<nat>)
    requires GoodVotes(votes) && some <= votes.Keys
    ensures -Sum(some, SwayOf(sway)) <= Sum(some, PartOf(votes, sway)) <= Sum(some, SwayOf(sway))
    decreases some
  {
    if some != {} {
      var v :| v in some;
      SumSplit(some, SwayOf(sway), v);
      SumSplit(some, PartOf(votes, sway), v);
      OneVote(sway(v), votes[v]);
      SupportWithin(votes, sway, some - {v});
    }
  }

  lemma SupportAtMost(votes: Votes, sway: nat -> nat)
    requires GoodVotes(votes)
    ensures -AllShares(votes, sway) <= Support(votes, sway) <= AllShares(votes, sway)
  {
    SupportWithin(votes, sway, votes.Keys);
  }

  /** Shares times percentages, without any rounding. */
  ghost function Weighed(votes: Votes, sway: nat -> nat): nat -> int
  {
    v => if v in votes then sway(v) * votes[v] else 0
  }

  lemma TruncatedIs(x: int, c: int)
    requires c > 0
    ensures 1 - c <= c * Truncated(x, c) - x <= c - 1
  {
    DivBounds(if x >= 0 then x else -x, c);
    if x < 0 {
      assert c * -((-x) / c) == -((-x) / c * c);
    }
  }

  lemma VoteIs(votes: Votes, sway: nat -> nat, v: nat)
    ensures -9999 <= 10000 * PartOf(votes, sway)(v) - Weighed(votes, sway)(v) <= 9999
  {
    if v in votes {
      TruncatedIs(sway(v) * votes[v], 10000);
    }
  }

  /** Each vote counts by its percentage, up to its own rounding. */
  lemma {:induction false} SupportIs(votes: Votes, sway: nat -> nat, some: set<nat>)
    ensures -9999 * |some| <= 10000 * Sum(some, PartOf(votes, sway)) - Sum(some, Weighed(votes, sway)) <= 9999 * |some|
    decreases some
  {
    hide PartOf, Weighed, Sum;
    if some == {} {
      SumZero(some, PartOf(votes, sway));
      SumZero(some, Weighed(votes, sway));
    } else {
      var v :| v in some;
      assert |some| == |some - {v}| + 1;
      SumSplit(some, PartOf(votes, sway), v);
      SumSplit(some, Weighed(votes, sway), v);
      VoteIs(votes, sway, v);
      SupportIs(votes, sway, some - {v});
    }
  }

  datatype Verdict = TooFewVotes | Refused(payout: nat) | Approved(payout: nat)

  /** The conclusion of a request for between `least` and `most` tokens. */
  function Conclude(all: int, support: int, least: nat, most: nat, totalShares: nat, minPercent: nat): Verdict
    requires support <= all
  {
    if totalShares * minPercent / 10000 > all then TooFewVotes
    else if support <= 0 then Refused(0)
    else
      MulMono(0, 10000, support);
      DivFloor(10000 * support, all);
      MulMono(0, most, 10000 * support / all);
      DivFloor(most * (10000 * support / all), 10000);
      var payout: nat := most * (10000 * support / all) / 10000;
      if least > payout then Refused(payout) else Approved(payout)
  }

  /** What is approved lies between what was asked for, and only with a positive majority of the shares that voted. */
  lemma ApprovedWithin(all: int, support: int, least: nat, most: nat, totalShares: nat, minPercent: nat)
    requires support <= all
    ensures var v := Conclude(all, support, least, most, totalShares, minPercent);
            v.Approved? ==> support > 0 && least <= v.payout <= most && totalShares * minPercent / 10000 <= all
  {
    if support > 0 {
      DivFloor(10000 * support, all);
      MulMono(support, all, 10000);
      Cancel(10000 * support / all, 10000, all);
      PartAtMost(most, 10000 * support / all, 10000);
    }
  }

  /** `payout` is to `most` as the support to all votes; the percentage and the amount are both rounded down. */
  predicate Proportional(payout: int, all: int, support: int, most: nat)
  {
    payout * all <= most * support && 10000 * (most * support) < (payout * 10000 + 10000 + most) * all
  }

  lemma AtMostShare(payout: int, q: int, all: int, support: int, most: nat)
    requires all > 0 && q * all <= 10000 * support && payout * 10000 <= most * q
    ensures payout * all <= most * support
  {
    MulMono(q * all, 10000 * support, most);
    MulMono(payout * 10000, most * q, all);
    assert q * all * most == most * q * all;
    assert payout * 10000 * all == 10000 * (payout * all) && 10000 * support * most == 10000 * (most * support);
  }

  lemma LittleLess(payout: int, q: int, all: int, support: int, most: nat)
    requires all > 0 && 10000 * support < (q + 1) * all && most * q < payout * 10000 + 10000
    ensures 10000 * (most * support) < (payout * 10000 + 10000 + most) * all
  {
    MulMono(10000 * support, (q + 1) * all, most);
    MulMono(most * q + 1, payout * 10000 + 10000, all);
    assert 10000 * support * most == 10000 * (most * support);
    assert (q + 1) * all * most == most * q * all + most * all && (most * q + 1) * all == most * q * all + all;
    assert (payout * 10000 + 10000 + most) * all == (payout * 10000 + 10000) * all + most * all;
  }

  lemma PayoutIs(all: int, support: int, most: nat)
    requires 0 < support <= all
    ensures Proportional(most * (10000 * support / all) / 10000, all, support, most)
  {
    var q := 10000 * support / all;
    var payout := most * q / 10000;
    DivBounds(10000 * support, all);
    DivBounds(most * q, 10000);
    AtMostShare(payout, q, all, support, most);
    LittleLess(payout, q, all, support, most);
  }

  /** How the votes decide: enough shares have to take part, and the support decides what is paid. */
  predicate Fair(v: Verdict, all: int, support: int, least: nat, most: nat, totalShares: nat, minPercent: nat)
  {
    && (v.TooFewVotes? <==> all < totalShares * minPercent / 10000)
    && (v.Refused? ==> support <= 0 || (v.payout < least && Proportional(v.payout, all, support, most)))
    && (v.Approved? ==> support > 0 && v.payout >= least && Proportional(v.payout, all, support, most))
  }

  lemma ConcludedFairly(all: int, support: int, least: nat, most: nat, totalShares: nat, minPercent: nat)
    requires support <= all
    ensures Fair(Conclude(all, support, least, most, totalShares, minPercent), all, support, least, most, totalShares,
                 minPercent)
  {
    hide Proportional;
    if support > 0 {
      PayoutIs(all, support, most);
    }
  }

  /** The loop over the votes. */
  method Tally(votes: Votes, sway: nat -> nat) returns (all: int, support: int)
    ensures all == AllShares(votes, sway) && support == Support(votes, sway)
  {
    all, support := 0, 0;
    var left := votes.Keys;
    while left != {}
      invariant left <= votes.Keys
      invariant all + Sum(left, SwayOf(sway)) == AllShares(votes, sway)
      invariant support + Sum(left, PartOf(votes, sway)) == Support(votes, sway)
      decreases left
    {
      var v :| v in left;
      SumSplit(left, SwayOf(sway), v);
      SumSplit(left, PartOf(votes, sway), v);
      all := all + sway(v);
      support := support + Truncated(sway(v) * votes[v], 10000);
      left := left - {v};
    }
  }
}
