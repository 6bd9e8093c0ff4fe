/**
 The award curve.

 An award of `r` reward shares takes `fund * r / (total + r)` tokens out of the reward
 fund, where `total` counts all shares awarded in the last days; the shares stay in
 `total` until their record expires.
 */
module Awards {
  import opened Options
  import opened Arithmetic

  /** calc_rshare_award: what `rshares` would be paid now. */
  function Award(fund: nat, total: nat, rshares: nat): (r: nat)
    requires rshares > 0
    ensures r <= fund
  {
    PartAtMost(fund, rshares, total + rshares);
    fund * rshares / (total + rshares)
  }

  /** calc_rshare_by_reward: the shares that should earn `reward`. */
  function RsharesFor(fund: nat, total: nat, reward: nat): nat
    requires 0 < reward < fund
  {
    reward * total / (fund - reward)
  }

  // ----- What an account can award -----

  /** The reward shares that a percentage of energy gives to an account with `effective` shares. */
  function Sway(effective: nat, energy: nat): nat
  {
    MulMono(0, effective, energy);
    DivFloor(effective * energy, 10000);
    effective * energy / 10000
  }

  /** The energy a fixed award uses, and the reward shares it claims. */
  datatype Fixed = Fixed(energy: nat, rshares: nat)

  /**
   fixed_award: the shares that should earn `reward` are computed from the curve, and the energy
   for them is rounded up; None when the account cannot afford it.
   */
  function FixedShares(fund: nat, total: nat, effective: nat, energy: int, most: nat, reward: nat,
                       least: nat): Option<Fixed>
    requires reward > 0
  {
    var limit := Sway(effective, most);
    if energy <= 0 || most > energy || limit == 0 || Award(fund, total, limit) < reward || reward >= fund then None
    else
      var needed := RsharesFor(fund, total, reward);
      if needed > limit then None
      else
        var used := UsedEnergy(needed, most, limit);
        var rshares := Sway(effective, used);
        if rshares < least || rshares == 0 || Award(fund, total, rshares) < reward then None
        else Some(Fixed(used, rshares))
  }

  /** One more than the exact share of the energy, but no more than all there can be. */
  function UsedEnergy(needed: nat, most: nat, limit: nat): (used: nat)
    requires limit > 0
  {
    MulMono(0, needed, most);
    DivFloor(needed * most, limit);
    var used := needed * most / limit + 1;
    if used < CHAIN_100_PERCENT then used else CHAIN_100_PERCENT
  }

  lemma OneUnitMore(needed: nat, most: nat, limit: nat)
    requires needed <= limit && 0 < limit && 0 < most
    ensures UsedEnergy(needed, most, limit) <= most + 1
    ensures UsedEnergy(needed, most, limit) == most + 1 <==> needed == limit && most < CHAIN_100_PERCENT
  {
    MulMono(needed, limit, most);
    var q := needed * most / limit;
    DivBounds(needed * most, limit);
    MulMono(0, needed, most);
    Cancel(q, most, limit);
    if needed == limit {
      DivUnique(limit * most, limit, most);
    } else {
      MulMono(needed + 1, limit, most);
      assert (needed + 1) * most == needed * most + most;
      if q >= most {
        MulMono(most, q, limit);
      }
    }
  }

  /**
   A fixed award uses more energy than its limit exactly when it needs all the shares of that limit,
   and then one unit more; that takes the energy below zero exactly when the limit is all there is.
   */
  lemma EnergyOverLimit(fund: nat, total: nat, effective: nat, energy: int, most: nat, reward: nat, least: nat)
    requires reward > 0 && FixedShares(fund, total, effective, energy, most, reward, least).Some?
    ensures reward < fund
    ensures var used := FixedShares(fund, total, effective, energy, most, reward, least).value.energy;
            var all := RsharesFor(fund, total, reward) == Sway(effective, most) && most < CHAIN_100_PERCENT;
            && used <= most + 1
            && (used == most + 1 <==> all)
            && (energy - used < 0 <==> all && energy == most)
  {
    OneUnitMore(RsharesFor(fund, total, reward), most, Sway(effective, most));
  }

  /** An account with one unit of energy is left with one below zero. */
  lemma EnergyBelowZero()
    ensures FixedShares(1000, 10, 100000, 1, 1, 500, 0) == Some(Fixed(2, 20))
    ensures RsharesFor(1000, 10, 500) == Sway(100000, 1)
  {
    hide Sway, Award, RsharesFor, UsedEnergy;
    SmallShares();
    AwardIs(1000, 10, 10, 500);
    AwardIs(1000, 10, 20, 666);
  }

  lemma SmallShares()
    ensures Sway(100000, 1) == 10 && Sway(100000, 2) == 20 && UsedEnergy(10, 1, 10) == 2
    ensures RsharesFor(1000, 10, 500) == 10
  {
  }

  lemma AwardIs(fund: nat, total: nat, rshares: nat, reward: nat)
    requires rshares > 0 && reward * (total + rshares) <= fund * rshares < (reward + 1) * (total + rshares)
    ensures Award(fund, total, rshares) == reward
  {
    DivUnique(fund * rshares, total + rshares, reward);
  }

  // ----- Inverting the curve -----

  /** The computed shares do not earn more than asked for, and one share more earns at least that. */
  lemma RsharesInvertAward(fund: nat, total: nat, reward: nat)
    requires 0 < reward < fund
    ensures var r := RsharesFor(fund, total, reward);
            && (r > 0 ==> Award(fund, total, r) <= reward)
            && Award(fund, total, r + 1) >= reward
  {
    var r := RsharesFor(fund, total, reward);
    DivBounds(reward * total, fund - reward);
    // r * (fund - reward) <= reward * total < (r + 1) * (fund - reward)
    assert fund * r == r * (fund - reward) + reward * r;
    assert reward * (total + r) == reward * total + reward * r;
    if r > 0 {
      assert fund * r <= reward * (total + r);
      DivAtMostIf(fund * r, total + r, reward);
    }
    assert fund * (r + 1) == (r + 1) * (fund - reward) + reward * (r + 1);
    assert reward * (total + (r + 1)) == reward * total + reward * (r + 1);
    DivAtLeastIf(fund * (r + 1), total + (r + 1), reward);
  }

  // ----- Splitting a claim -----

  ghost predicate Positive(claims: seq<nat>)
  {
    forall i :: 0 <= i < |claims| ==> claims[i] > 0
  }

  ghost function Total(claims: seq<nat>): nat
  {
    if claims == [] then 0 else Total(claims[..|claims| - 1]) + claims[|claims| - 1]
  }

  /** What is paid out in all when the claims are made one after the other. */
  ghost function Paid(fund: nat, total: nat, claims: seq<nat>): (p: nat)
    requires Positive(claims)
    ensures p <= fund
  {
    if claims == [] then 0
    else
      var n := |claims| - 1;
      var before := Paid(fund, total, claims[..n]);
      before + Award(fund - before, total + Total(claims[..n]), claims[n])
  }

  /**
   `fund * A - P * (total + A)` is how far the payments are behind the exact curve, in units
   of 1 / (total + A); each claim adds exactly its own division remainder to it.
   */
  lemma {:induction false} Deficit(fund: nat, total: nat, claims: seq<nat>)
    requires Positive(claims)
    ensures var A, P := Total(claims), Paid(fund, total, claims);
            0 <= fund * A - P * (total + A) <= |claims| * (total + A) - (if claims == [] then 0 else 1)
    decreases |claims|
  {
    if claims == [] {
    } else {
      var n := |claims| - 1;
      Deficit(fund, total, claims[..n]);
      DeficitStep(fund, total, Total(claims[..n]), Paid(fund, total, claims[..n]), claims[n], n);
    }
  }

  lemma RestBounds(x: int, q: int, S: int)
    requires q * S <= x < (q + 1) * S
    ensures 0 <= x - q * S <= S - 1
  {
    assert (q + 1) * S == q * S + S;
  }

  lemma DeficitGrows(fund: int, A: int, P: int, c: int, q: int, S: int, S': int)
    requires S' == S + c
    ensures fund * (A + c) - (P + q) * S' == (fund * A - P * S) + ((fund - P) * c - q * S')
  {
    assert (P + q) * S' == P * S + P * c + q * S';
    assert fund * (A + c) == fund * A + fund * c;
    assert (fund - P) * c == fund * c - P * c;
  }

  lemma DeficitStep(fund: nat, total: nat, A: nat, P: nat, c: nat, n: nat)
    requires c > 0 && P <= fund
    requires 0 <= fund * A - P * (total + A) <= n * (total + A)
    ensures var A', P' := A + c, P + Award(fund - P, total + A, c);
            0 <= fund * A' - P' * (total + A') <= (n + 1) * (total + A') - 1
  {
    var S, S' := total + A, total + A + c;
    var x, q := (fund - P) * c, Award(fund - P, S, c);
    DivBounds(x, S');
    DeficitGrows(fund, A, P, c, q, S, S');
    RestBounds(x, q, S');
    MulMono(S, S', n);
    assert (n + 1) * S' == n * S' + S';
  }

  /** Splitting a claim never gains, and loses at most one unit per extra part. */
  lemma SplitClaims(fund: nat, total: nat, claims: seq<nat>)
    requires claims != [] && Positive(claims)
    ensures Total(claims) > 0
    ensures Paid(fund, total, claims) <= Award(fund, total, Total(claims)) <= Paid(fund, total, claims) + |claims| - 1
  {
    var A, P := Total(claims), Paid(fund, total, claims);
    Deficit(fund, total, claims);
    assert A > 0;
    BehindByLessThan(fund * A, total + A, P, |claims|);
  }

  lemma BehindByLessThan(x: int, S: int, P: int, n: int)
    requires S > 0 && 0 <= x - P * S <= n * S - 1
    ensures P <= x / S <= P + n - 1
  {
    DivAtLeastIf(x, S, P);
    DivBounds(x, S);
    var q := x / S;
    assert (P + n) * S == P * S + n * S;
    if q >= P + n {
      MulMono(P + n, q, S);
    }
  }

  // ----- The pool and its records -----

  datatype Record = Record(expires: int, rshares: nat)

  function SumRecords(rs: seq<Record>): nat
  {
    if rs == [] then 0 else SumRecords(rs[..|rs| - 1]) + rs[|rs| - 1].rshares
  }

  /** The records still alive at `now`. */
  function Alive(rs: seq<Record>, now: int): (r: seq<Record>)
    ensures forall x :: x in r <==> x in rs && now < x.expires
  {
    if rs == [] then []
    else
      var n := |rs| - 1;
      assert rs == rs[..n] + [rs[n]];
      Alive(rs[..n], now) + (if now < rs[n].expires then [rs[n]] else [])
  }

  /** The loop of expire_award_shares_processing: the total shrinks by what is dropped. */
  method DropExpired(records: seq<Record>, total: nat, now: int) returns (kept: seq<Record>, left: nat)
    requires total == SumRecords(records)
    ensures kept == Alive(records, now) && left == SumRecords(kept)
  {
    kept, left := [], total;
    for i := 0 to |records|
      invariant kept == Alive(records[..i], now)
      invariant left == SumRecords(kept) + (SumRecords(records) - SumRecords(records[..i]))
      invariant SumRecords(records[..i]) <= SumRecords(records)
    {
      SumPrefix(records, i + 1);
      assert records[..i + 1][..i] == records[..i];
      if records[i].expires <= now {
        left := left - records[i].rshares;
      } else {
        kept := kept + [records[i]];
        assert kept[..|kept| - 1] == Alive(records[..i], now);
      }
    }
    assert records[..|records|] == records;
  }

  lemma {:induction false} SumPrefix(rs: seq<Record>, i: nat)
    requires i <= |rs|
    ensures SumRecords(rs[..i]) <= SumRecords(rs)
    decreases |rs|
  {
    if i < |rs| {
      SumPrefix(rs[..|rs| - 1], i);
      assert rs[..|rs| - 1][..i] == rs[..i];
    } else {
      assert rs[..i] == rs;
    }
  }
}
