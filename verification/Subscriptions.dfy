/** Paid subscriptions: what a change or a renewal costs, and how long it lasts. */
module Subscriptions {
  import opened Options
  import opened Arithmetic

  const DAY: nat := 86400

  /** The length of a subscription is never zero. */
  type Days = x: int | 0 < x witness 1

  /** What a creator offers: so many levels, at `amount` for each, for `period` days. */
  datatype Plan = Plan(levels: nat, amount: nat, period: Days)

  datatype Subscription = Subscription(level: nat, amount: nat, period: Days, next: int, active: bool, renews: bool)

  /** Seconds paid for; a subscription that has run out is closed or renewed at the end of the block. */
  function Ahead(s: Subscription, now: int): nat { if s.next > now then s.next - now else 0 }

  /** The value of the time that is left. */
  function Remaining(s: Subscription, now: int): nat
  {
    DivFloor(s.amount * s.level * Ahead(s, now), s.period * DAY);
    s.amount * s.level * Ahead(s, now) / (s.period * DAY)
  }

  /** How long `value` lasts at `price` for `period` days. */
  function Lasts(value: nat, price: nat, period: Days): (seconds: nat)
    requires price > 0
  {
    DivFloor(value * period * DAY, price);
    value * period * DAY / price
  }

  datatype Change = Change(cost: nat, seconds: nat)

  /** Changing an active subscription: what is left of the old one counts towards the new one. */
  function ChangeTo(s: Subscription, price: nat, period: Days, now: int): (c: Change)
    requires price > 0
  {
    var left := Remaining(s, now);
    if left >= price then Change(0, Lasts(left, price, period))
    else Change(price - left, period * DAY)
  }

  /**
   A change is worth what it costs: the value left and the payment together buy the time
   granted at the new price, up to the price of one second.
   */
  lemma ChangeIsFair(s: Subscription, price: nat, period: Days, now: int)
    requires price > 0
    ensures var c, left := ChangeTo(s, price, period, now), Remaining(s, now);
            && c.cost <= price && (c.cost > 0 ==> c.cost + left == price && c.seconds == period * DAY)
            && c.seconds >= period * DAY
            && c.seconds * price <= (left + c.cost) * period * DAY < (c.seconds + 1) * price
  {
    var left := Remaining(s, now);
    if left >= price {
      DivBounds(left * period * DAY, price);
      MulMono(price, left, period * DAY);
      assert left * (period * DAY) == left * period * DAY;
      LastsAtLeast(left * period * DAY, price, period * DAY);
    } else {
      assert price * period * DAY == period * DAY * price;
      assert (period * DAY + 1) * price == period * DAY * price + price;
    }
  }

  lemma LastsAtLeast(x: nat, price: nat, t: nat)
    requires price > 0 && price * t <= x
    ensures x / price >= t
  {
    DivBounds(x, price);
    if x / price < t {
      MulMono(x / price + 1, t, price);
    }
  }

  /** The conditions of an active subscription do not change. */
  predicate SameModel(s: Subscription, level: nat, price: int, period: Days)
  {
    s.amount == price && s.level == level && s.period == period
  }

  /** A renewal takes over price and level of the offer, and its time, but keeps the period it was made for. */
  function Renewed(s: Subscription, plan: Plan, now: int): Subscription
  {
    s.(amount := plan.amount, level := if s.level < plan.levels then s.level else plan.levels,
        next := now + plan.period * DAY)
  }

  /** What the renewal of a subscription costs now; nothing if it has become worse for the subscriber. */
  function RenewalPrice(s: Subscription, plan: Plan): Option<nat>
  {
    var level := if s.level < plan.levels then s.level else plan.levels;
    if s.renews && plan.period >= s.period &&
       s.amount * s.level >= plan.amount * level then Some(plan.amount * level) else None
  }

  /** As many levels as before, or as many as there still are. */
  predicate LevelIs(level: nat, s: Subscription, plan: Plan)
  {
    level <= s.level && level <= plan.levels && (level == s.level || level == plan.levels)
  }

  /** The new conditions: those of the offer, for no more money than before. */
  predicate RenewedAs(s: Subscription, r: Subscription, plan: Plan, now: int)
  {
    && r == s.(amount := plan.amount, level := r.level, next := now + plan.period * DAY)
    && LevelIs(r.level, s, plan) && s.renews && s.period <= plan.period && r.amount * r.level <= s.amount * s.level
  }

  /** The subscriber wants to go on, the offer is no worse, and so much money is enough. */
  ghost predicate Renewable(s: Subscription, plan: Plan, balance: int)
  {
    && s.renews && s.period <= plan.period
    && exists level: nat :: LevelIs(level, s, plan) && plan.amount * level <= s.amount * s.level &&
                            plan.amount * level <= balance
  }

  lemma RenewalIs(s: Subscription, plan: Plan, now: int)
    ensures var p, r := RenewalPrice(s, plan), Renewed(s, plan, now);
            && (p.Some? ==> RenewedAs(s, r, plan, now) && p.value == r.amount * r.level)
            && forall balance: int :: (p.Some? && p.value <= balance) == Renewable(s, plan, balance)
  {
    var r := Renewed(s, plan, now);
    assert LevelIs(r.level, s, plan);
  }
}
