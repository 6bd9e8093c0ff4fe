/**
 Delegation of vesting shares.

 Each account caches how much it has delegated (including shares still on their way
 back) and how much it has received.  The caches are updated by differences; the
 hardfork-8 migration recomputes them from the delegation records.  The two agree in
 every reachable state.
 */
module Delegations {
  import opened Sums
  import opened Options
  import opened PowerDown

  type Name = string

  datatype Account = Account(vests: int, down: Withdrawal, delegated: int, received: int) {
    /** Shares that are not delegated. */
    function Own(): int { vests - delegated }

    /** Shares free for a new delegation: not on their way out either. */
    function Available(): int { Own() - (down.total - down.done) }

    /** Shares that count in votes and awards. */
    function Effective(): int { vests - delegated + received }
  }

  datatype Delegation = Delegation(delegator: Name, delegatee: Name, shares: nat, minTime: nat)

  datatype Expiration = Expiration(delegator: Name, shares: nat, expires: nat)

  datatype State = State(
    accounts: map<Name, Account>,
    delegations: map<(Name, Name), Delegation>,
    expirations: map<nat, Expiration>)

  // ----- The recomputation -----

  ghost function From(a: Name): Delegation -> int { (d: Delegation) => if d.delegator == a then d.shares else 0 }

  ghost function To(a: Name): Delegation -> int { (d: Delegation) => if d.delegatee == a then d.shares else 0 }

  ghost function Returning(a: Name): Expiration -> int { (e: Expiration) => if e.delegator == a then e.shares else 0 }

  ghost function DelegatedBy(s: State, a: Name): int
  {
    SumMap(s.delegations, From(a)) + SumMap(s.expirations, Returning(a))
  }

  ghost function ReceivedBy(s: State, a: Name): int
  {
    SumMap(s.delegations, To(a))
  }

  ghost predicate WellFormed(s: State)
  {
    && (forall k :: k in s.delegations ==> s.delegations[k].delegator == k.0 && s.delegations[k].delegatee == k.1)
    && (forall k :: k in s.delegations ==> k.0 in s.accounts && k.1 in s.accounts)
    && (forall i :: i in s.expirations ==> s.expirations[i].delegator in s.accounts)
  }

  ghost predicate CountedFor(s: State, a: Name)
    requires a in s.accounts
  {
    s.accounts[a].delegated == DelegatedBy(s, a) && s.accounts[a].received == ReceivedBy(s, a)
  }

  /** Every counter is what the migration would compute. */
  ghost predicate Consistent(s: State)
  {
    WellFormed(s) && forall a {:trigger CountedFor(s, a)} :: a in s.accounts ==> CountedFor(s, a)
  }

  /** An account no record mentions has nothing delegated or received. */
  lemma Unmentioned(s: State, a: Name)
    requires WellFormed(s) && a !in s.accounts
    ensures DelegatedBy(s, a) == 0 && ReceivedBy(s, a) == 0
  {
    SumZero(s.delegations.Keys, At(s.delegations, From(a)));
    SumZero(s.delegations.Keys, At(s.delegations, To(a)));
    SumZero(s.expirations.Keys, At(s.expirations, Returning(a)));
  }

  // ----- The operations -----

  datatype Operation =
    | Delegate(delegator: Name, delegatee: Name, shares: nat, now: nat, minimum: nat, energyOk: bool, returnDelay: nat)
    | CreateAccount(creator: Name, newName: Name, shares: nat, minTime: nat, allowed: bool)
    | ClearExpired(now: nat)
    | NewAccount(name: Name)                  // without a delegation, at genesis or later
    | Deposit(name: Name, shares: nat)
    | Withdraw(name: Name, shares: nat, intervals: nat, now: nat)
    | PassInterval(name: Name, back: nat)     // `back` is what comes back through a route to the account itself
    | Forfeit(name: Name)                     // a special account gives up its stake

  function Max(a: nat, b: nat): nat { if a < b then b else a }

  function AddDelegated(m: map<Name, Account>, a: Name, x: int): map<Name, Account>
    requires a in m
  {
    m[a := m[a].(delegated := m[a].delegated + x)]
  }

  function AddReceived(m: map<Name, Account>, a: Name, x: int): map<Name, Account>
    requires a in m
  {
    m[a := m[a].(received := m[a].received + x)]
  }

  /** A key for a new expiration record. */
  function FreshKey(m: map<nat, Expiration>): (k: nat)
    ensures k !in m
  {
    FreshFrom(m.Keys, 0)
  }

  function FreshFrom(keys: set<nat>, k: nat): (r: nat)
    ensures r >= k && r !in keys
    decreases keys
  {
    if k in keys then FreshAbove(keys, k); FreshFrom(keys - {k}, k + 1) else k
  }

  lemma FreshAbove(keys: set<nat>, k: nat)
    requires k in keys
    ensures forall r :: r >= k + 1 && r !in keys - {k} ==> r !in keys
  {
  }

  function Shares(s: State, d: Name, e: Name): nat
  {
    if (d, e) in s.delegations then s.delegations[(d, e)].shares else 0
  }

  /** An increase moves shares that are free; the record is created or raised. */
  function Increase(s: State, op: Operation): State
    requires op.Delegate? && op.delegator in s.accounts && op.delegatee in s.accounts
  {
    var (d, e) := (op.delegator, op.delegatee);
    var delta := op.shares - Shares(s, d, e);
    var record := if (d, e) in s.delegations then s.delegations[(d, e)].(shares := op.shares)
                  else Delegation(d, e, op.shares, op.now);
    s.(accounts := AddReceived(AddDelegated(s.accounts, d, delta), e, delta),
       delegations := s.delegations[(d, e) := record])
  }

  /** A decrease takes shares from the delegatee at once and returns them later. */
  function Decrease(s: State, op: Operation): State
    requires op.Delegate? && op.delegator in s.accounts && op.delegatee in s.accounts
    requires (op.delegator, op.delegatee) in s.delegations && op.shares <= Shares(s, op.delegator, op.delegatee)
  {
    var (d, e) := (op.delegator, op.delegatee);
    var was := s.delegations[(d, e)];
    State(
      AddReceived(s.accounts, e, op.shares - was.shares),
      if op.shares > 0 then s.delegations[(d, e) := was.(shares := op.shares)] else s.delegations - {(d, e)},
      s.expirations[FreshKey(s.expirations) :=
        Expiration(d, was.shares - op.shares, Max(op.now + op.returnDelay, was.minTime))])
  }

  /** delegate_vesting_shares. */
  function DelegateStep(s: State, op: Operation): Option<State>
    requires op.Delegate?
  {
    var (d, e) := (op.delegator, op.delegatee);
    var found := (d, e) in s.delegations;
    if d == e || d !in s.accounts || e !in s.accounts || (!found && op.shares == 0) then None
    else if op.shares > Shares(s, d, e) then
      if s.accounts[d].Available() < op.shares - Shares(s, d, e) || !op.energyOk || (!found && op.shares < op.minimum)
      then None
      else Some(Increase(s, op))
    else if op.shares != 0 && op.shares < op.minimum then None
    else Some(Decrease(s, op))
  }

  /** account_create with an initial delegation. */
  function CreateStep(s: State, op: Operation): Option<State>
    requires op.CreateAccount?
  {
    var (c, n) := (op.creator, op.newName);
    if c !in s.accounts || n in s.accounts || !op.allowed || s.accounts[c].Available() < op.shares then None
    else
      Some(s.(accounts := AddDelegated(s.accounts, c, op.shares)[n := Account(0, Idle, 0, op.shares)],
              delegations := if op.shares > 0 then s.delegations[(c, n) := Delegation(c, n, op.shares, op.minTime)]
                             else s.delegations))
  }

  /** Who may delegate how much: an increase needs free shares and energy, and nothing small is left or begun. */
  predicate MayDelegate(s: State, op: Operation)
    requires op.Delegate?
  {
    var d, e := op.delegator, op.delegatee;
    && d != e && d in s.accounts && e in s.accounts && ((d, e) !in s.delegations ==> op.shares > 0)
    && if (d, e) in s.delegations && op.shares <= s.delegations[(d, e)].shares
       then op.shares == 0 || op.shares >= op.minimum
       else
         var x, was := s.accounts[d], if (d, e) in s.delegations then s.delegations[(d, e)].shares else 0;
         && x.delegated + (x.down.total - x.down.done) + (op.shares - was) <= x.vests
         && op.energyOk && ((d, e) in s.delegations || op.shares >= op.minimum)
  }

  /** The agreement between `d` and `e` is now for `op.shares`, all others are as before. */
  ghost predicate Agreed(s: State, op: Operation, s': State)
    requires op.Delegate?
  {
    var k := (op.delegator, op.delegatee);
    && s'.delegations - {k} == s.delegations - {k}
    && (op.shares == 0 ==> k !in s'.delegations)
    && (op.shares > 0 ==>
          k in s'.delegations && s'.delegations[k] ==
          if k in s.delegations then s.delegations[k].(shares := op.shares)
          else Delegation(k.0, k.1, op.shares, op.now))
  }

  /** More shares leave the delegator at once, who must have had them free; nothing is on its way back. */
  ghost predicate Lent(s: State, op: Operation, s': State, more: int)
    requires op.Delegate? && op.delegator in s.accounts && op.delegatee in s'.accounts
  {
    var x := s.accounts[op.delegator];
    && x.vests >= x.delegated + (x.down.total - x.down.done) + more
    && s'.expirations == s.expirations
    && s'.accounts == s.accounts[op.delegator := x.(delegated := x.delegated + more)]
           [op.delegatee := s'.accounts[op.delegatee]]
  }

  /** Fewer shares: one new record returns the difference, no earlier than any time it has to wait for. */
  ghost predicate GivenBack(s: State, op: Operation, s': State, less: int)
    requires op.Delegate? && (op.delegator, op.delegatee) in s.delegations && op.delegatee in s'.accounts
  {
    var first := s.delegations[(op.delegator, op.delegatee)].minTime;
    && s'.accounts == s.accounts[op.delegatee := s'.accounts[op.delegatee]]
    && exists i: nat, e :: i !in s.expirations && s'.expirations == s.expirations[i := e]
         && e.delegator == op.delegator && e.shares == less
         && e.expires >= op.now + op.returnDelay && e.expires >= first
         && (e.expires == op.now + op.returnDelay || e.expires == first)
  }

  /** What an accepted delegation does: the delegatee has the difference at once. */
  ghost predicate Redelegated(s: State, op: Operation, s': State)
    requires op.Delegate?
  {
    var d, e := op.delegator, op.delegatee;
    && d != e && d in s.accounts && e in s.accounts && e in s'.accounts && Agreed(s, op, s')
    && var was := if (d, e) in s.delegations then s.delegations[(d, e)].shares else 0;
       && s'.accounts[e] == s.accounts[e].(received := s.accounts[e].received + op.shares - was)
       && (op.shares > was ==> Lent(s, op, s', op.shares - was))
       && (op.shares <= was ==> (d, e) in s.delegations && GivenBack(s, op, s', was - op.shares))
  }

  lemma DelegateDoes(s: State, op: Operation)
    requires op.Delegate?
    ensures DelegateStep(s, op).Some? <==> MayDelegate(s, op)
    ensures DelegateStep(s, op).Some? ==> Redelegated(s, op, DelegateStep(s, op).value)
  {
    if DelegateStep(s, op).Some? && op.shares <= Shares(s, op.delegator, op.delegatee) {
      var s' := DelegateStep(s, op).value;
      var i := FreshKey(s.expirations);
      var e := s'.expirations[i];
      assert i !in s.expirations && s'.expirations == s.expirations[i := e];
    }
  }

  /** One expired record: the shares are free again. */
  function ReturnOne(s: State, i: nat): State
    requires i in s.expirations && s.expirations[i].delegator in s.accounts
  {
    s.(accounts := AddDelegated(s.accounts, s.expirations[i].delegator, 0 - s.expirations[i].shares),
       expirations := s.expirations - {i})
  }

  /** What the stake of an account becomes in the operations that do not delegate; None when they fail. */
  function Staked(x: Account, op: Operation): Option<Account>
  {
    match op
    case Deposit(_, shares) => Some(x.(vests := x.vests + shares))
    case Withdraw(_, shares, intervals, now) =>
      if x.Own() < shares then None
      else if shares == 0 then if x.down.rate == 0 then None else Some(x.(down := Idle))
      else if intervals == 0 then None
      else
        var rate := NewRate(x.Own(), intervals);
        if x.down.rate == rate then None
        else Some(x.(down := Withdrawal(rate, Option.Some(now + INTERVAL), shares, 0)))
    case PassInterval(_, back) =>
      if x.down.next.None? || x.down.rate <= 0 then None
      else
        var amount := Due(x.down, x.vests);
        Some(x.(vests := x.vests + back - amount, down := After(x.down, amount, x.vests + back - amount)))
    case Forfeit(_) => Some(x.(vests := 0))
    case _ => None
  }

  predicate OfStake(op: Operation) { op.Deposit? || op.Withdraw? || op.PassInterval? || op.Forfeit? }

  function StakeStep(s: State, op: Operation): Option<State>
    requires OfStake(op)
  {
    if op.name !in s.accounts then None
    else
      var x := Staked(s.accounts[op.name], op);
      if x.None? then None else Some(s.(accounts := s.accounts[op.name := x.value]))
  }

  // ----- Each step keeps the counters equal to the recomputation -----

  lemma IncreaseCounted(s: State, op: Operation, a: Name)
    requires op.Delegate? && op.delegator in s.accounts && op.delegatee in s.accounts && WellFormed(s)
    requires a in s.accounts && CountedFor(s, a)
    ensures CountedFor(Increase(s, op), a)
  {
    var k, v := (op.delegator, op.delegatee), Increase(s, op).delegations[(op.delegator, op.delegatee)];
    SumMapUpdate(s.delegations, From(a), k, v);
    SumMapUpdate(s.delegations, To(a), k, v);
  }

  lemma DecreaseCounted(s: State, op: Operation, a: Name)
    requires op.Delegate? && op.delegator in s.accounts && op.delegatee in s.accounts && WellFormed(s)
    requires (op.delegator, op.delegatee) in s.delegations && op.shares <= Shares(s, op.delegator, op.delegatee)
    requires a in s.accounts && CountedFor(s, a)
    ensures CountedFor(Decrease(s, op), a)
  {
    var s', k, i := Decrease(s, op), (op.delegator, op.delegatee), FreshKey(s.expirations);
    if op.shares > 0 {
      SumMapUpdate(s.delegations, From(a), k, s'.delegations[k]);
      SumMapUpdate(s.delegations, To(a), k, s'.delegations[k]);
    } else {
      SumMapRemove(s.delegations, From(a), k);
      SumMapRemove(s.delegations, To(a), k);
    }
    SumMapUpdate(s.expirations, Returning(a), i, s'.expirations[i]);
  }

  lemma DelegateWellFormed(s: State, op: Operation)
    requires WellFormed(s) && op.Delegate? && DelegateStep(s, op).Some?
    ensures WellFormed(DelegateStep(s, op).value) && DelegateStep(s, op).value.accounts.Keys == s.accounts.Keys
  {
  }

  lemma DelegateCountedFor(s: State, op: Operation, a: Name)
    requires WellFormed(s) && op.Delegate? && DelegateStep(s, op).Some? && a in s.accounts && CountedFor(s, a)
    ensures a in DelegateStep(s, op).value.accounts && CountedFor(DelegateStep(s, op).value, a)
  {
    if op.shares > Shares(s, op.delegator, op.delegatee) {
      IncreaseCounted(s, op, a);
    } else {
      DecreaseCounted(s, op, a);
    }
  }

  lemma DelegateCounted(s: State, op: Operation)
    requires Consistent(s) && op.Delegate? && DelegateStep(s, op).Some?
    ensures Consistent(DelegateStep(s, op).value)
  {
    DelegateWellFormed(s, op);
    forall a | a in s.accounts ensures CountedFor(DelegateStep(s, op).value, a) {
      DelegateCountedFor(s, op, a);
    }
  }

  lemma CreateCountedFor(s: State, op: Operation, a: Name)
    requires WellFormed(s) && op.CreateAccount? && CreateStep(s, op).Some?
    requires a in s.accounts ==> CountedFor(s, a)
    ensures a in CreateStep(s, op).value.accounts ==> CountedFor(CreateStep(s, op).value, a)
  {
    var s', k := CreateStep(s, op).value, (op.creator, op.newName);
    if a !in s.accounts {
      Unmentioned(s, a);
    }
    if op.shares > 0 {
      SumMapUpdate(s.delegations, From(a), k, s'.delegations[k]);
      SumMapUpdate(s.delegations, To(a), k, s'.delegations[k]);
    }
  }

  lemma CreateCounted(s: State, op: Operation)
    requires Consistent(s) && op.CreateAccount? && CreateStep(s, op).Some?
    ensures Consistent(CreateStep(s, op).value)
  {
    var s' := CreateStep(s, op).value;
    forall a | a in s'.accounts ensures CountedFor(s', a) {
      CreateCountedFor(s, op, a);
    }
  }

  lemma ReturnCountedFor(s: State, i: nat, a: Name)
    requires WellFormed(s) && i in s.expirations && a in s.accounts && CountedFor(s, a)
    ensures CountedFor(ReturnOne(s, i), a)
  {
    SumMapRemove(s.expirations, Returning(a), i);
  }

  lemma ReturnCounted(s: State, i: nat)
    requires Consistent(s) && i in s.expirations
    ensures Consistent(ReturnOne(s, i))
  {
    var s' := ReturnOne(s, i);
    forall a | a in s'.accounts ensures CountedFor(s', a) {
      ReturnCountedFor(s, i, a);
    }
  }

  lemma StakeCounted(s: State, op: Operation)
    requires OfStake(op)
    requires Consistent(s) && StakeStep(s, op).Some?
    ensures Consistent(StakeStep(s, op).value)
  {
    var s' := StakeStep(s, op).value;
    forall a | a in s'.accounts ensures CountedFor(s', a) {
      assert CountedFor(s, a);
    }
  }

  // ----- Whole runs -----

  /** The effect of clearing the expired records one by one, in some order. */
  ghost predicate ClearedTo(s: State, now: nat, order: seq<nat>, s': State)
    decreases |order|
  {
    if order == [] then s == s' && forall i :: i in s.expirations ==> now <= s.expirations[i].expires
    else
      && order[0] in s.expirations && s.expirations[order[0]].expires < now
      && s.expirations[order[0]].delegator in s.accounts
      && ClearedTo(ReturnOne(s, order[0]), now, order[1..], s')
  }

  ghost predicate Step(s: State, op: Operation, s': State)
  {
    match op
    case Delegate(_, _, _, _, _, _, _) => DelegateStep(s, op) == Some(s')
    case CreateAccount(_, _, _, _, _) => CreateStep(s, op) == Some(s')
    case ClearExpired(now) => exists order :: ClearedTo(s, now, order, s')
    case NewAccount(n) => n !in s.accounts && s' == s.(accounts := s.accounts[n := Account(0, Idle, 0, 0)])
    case _ => StakeStep(s, op) == Some(s')
  }

  lemma {:induction false} ClearedCounted(s: State, now: nat, order: seq<nat>, s': State)
    requires Consistent(s) && ClearedTo(s, now, order, s')
    ensures Consistent(s')
    decreases |order|
  {
    if order != [] {
      ReturnCounted(s, order[0]);
      ClearedCounted(ReturnOne(s, order[0]), now, order[1..], s');
    }
  }

  lemma StepCounted(s: State, op: Operation, s': State)
    requires Consistent(s) && Step(s, op, s')
    ensures Consistent(s')
  {
    match op
    case Delegate(_, _, _, _, _, _, _) => DelegateCounted(s, op);
    case CreateAccount(_, _, _, _, _) => CreateCounted(s, op);
    case ClearExpired(now) =>
      var order :| ClearedTo(s, now, order, s');
      ClearedCounted(s, now, order, s');
    case NewAccount(n) =>
      Unmentioned(s, n);
      forall a | a in s'.accounts ensures CountedFor(s', a) {
        assert a in s.accounts ==> CountedFor(s, a);
      }
    case _ => StakeCounted(s, op);
  }

  ghost predicate Reaches(ops: seq<Operation>, s: State)
    decreases |ops|
  {
    if ops == [] then s == State(map[], map[], map[])
    else
      var n := |ops| - 1;
      exists before :: Reaches(ops[..n], before) && Step(before, ops[n], s)
  }

  /** In every reachable state the migration would change nothing. */
  lemma {:induction false} ReachableCounted(ops: seq<Operation>, s: State)
    requires Reaches(ops, s)
    ensures Consistent(s)
    decreases |ops|
  {
    if ops != [] {
      var n := |ops| - 1;
      var before :| Reaches(ops[..n], before) && Step(before, ops[n], s);
      ReachableCounted(ops[..n], before);
      StepCounted(before, ops[n], s);
    }
  }

  // ----- Nobody promises more than it has -----

  /**
   What an account has lent, or waits to get back, and what it is going to withdraw are different
   shares, and it has all of them.
   */
  predicate Solvent(x: Account)
  {
    && 0 <= x.delegated && 0 <= x.received && 0 <= x.down.done <= x.down.total
    && x.delegated + (x.down.total - x.down.done) <= x.vests
  }

  /** A withdrawal under way has paid whole intervals; one that is over has paid everything. */
  predicate OnSchedule(w: Withdrawal)
  {
    if w.next.Some? then w.rate > 0 && w.done < w.total && w.done % w.rate == 0 else w.done == w.total
  }

  /** A special account has no record of its own. */
  predicate Sleeping(x: Account) { x.delegated == 0 && x.down == Idle }

  ghost predicate GoodStake(s: State, special: set<Name>, a: Name)
    requires a in s.accounts
  {
    Solvent(s.accounts[a]) && OnSchedule(s.accounts[a].down) && (a in special ==> Sleeping(s.accounts[a]))
  }

  ghost predicate AllSolvent(s: State, special: set<Name>)
  {
    forall a {:trigger GoodStake(s, special, a)} :: a in s.accounts ==> GoodStake(s, special, a)
  }

  /** Nobody can sign for a special account, and no other gives up its stake. */
  predicate Signed(op: Operation, special: set<Name>)
  {
    match op
    case Delegate(d, _, _, _, _, _, _) => d !in special
    case CreateAccount(c, _, _, _, _) => c !in special
    case Withdraw(n, _, _, _) => n !in special
    case Forfeit(n) => n in special
    case _ => true
  }

  lemma RestIs(total: int, done: int, rate: int)
    requires rate > 0 && 0 <= done && done % rate == 0 && 0 <= total - done < rate
    ensures total % rate == total - done
  {
    RemainderIs(total, rate, done / rate, total - done);
  }

  lemma WholeIntervals(done: int, rate: int)
    requires rate > 0 && done % rate == 0
    ensures (done + rate) % rate == 0
  {
    RemainderIs(done + rate, rate, done / rate + 1, 0);
  }

  /** A solvent account can pay what is due: a whole rate, or the rest. */
  lemma DueIs(w: Withdrawal, shares: int)
    requires OnSchedule(w) && w.next.Some? && 0 <= w.done && w.total - w.done <= shares
    ensures Due(w, shares) == if w.total - w.done < w.rate then w.total - w.done else w.rate
  {
    if w.total - w.done < w.rate {
      RestIs(w.total, w.done, w.rate);
    }
  }

  /** What one interval of a solvent account takes is due, and the account has it. */
  lemma IntervalSolvent(x: Account, back: nat)
    requires Solvent(x) && OnSchedule(x.down) && x.down.next.Some?
    ensures var x' := Staked(x, PassInterval("", back)).value;
            Solvent(x') && OnSchedule(x'.down) && x'.vests - back == x.vests - (x'.down.done - x.down.done)
  {
    DueIs(x.down, x.vests);
    WholeIntervals(x.down.done, x.down.rate);
    hide Due;
  }

  lemma StakedSolvent(x: Account, op: Operation)
    requires OfStake(op) && Solvent(x) && OnSchedule(x.down) && Staked(x, op).Some? && (op.Forfeit? ==> Sleeping(x))
    ensures Solvent(Staked(x, op).value) && OnSchedule(Staked(x, op).value.down)
    ensures Sleeping(x) && !op.Withdraw? ==> Sleeping(Staked(x, op).value)
  {
    if op.PassInterval? {
      IntervalSolvent(x, op.back);
      assert Staked(x, op) == Staked(x, PassInterval("", op.back));
    }
  }

  lemma StakeSolvent(s: State, op: Operation, special: set<Name>)
    requires OfStake(op)
    requires AllSolvent(s, special) && Signed(op, special) && StakeStep(s, op).Some?
    ensures AllSolvent(StakeStep(s, op).value, special)
  {
    hide Staked, Solvent, OnSchedule, Sleeping;
    var s' := StakeStep(s, op).value;
    assert GoodStake(s, special, op.name);
    StakedSolvent(s.accounts[op.name], op);
    forall a | a in s'.accounts ensures GoodStake(s', special, a) {
      assert GoodStake(s, special, a);
    }
  }

  lemma DelegateSolvent(s: State, op: Operation, special: set<Name>)
    requires AllSolvent(s, special) && Consistent(s) && op.Delegate? && Signed(op, special)
    requires DelegateStep(s, op).Some?
    ensures AllSolvent(DelegateStep(s, op).value, special)
  {
    hide OnSchedule;
    var s' := DelegateStep(s, op).value;
    DelegateCounted(s, op);
    forall a | a in s'.accounts ensures GoodStake(s', special, a) {
      assert GoodStake(s, special, a);
      CountersNonNegative(s', a);
    }
  }

  lemma CreateSolvent(s: State, op: Operation, special: set<Name>)
    requires AllSolvent(s, special) && op.CreateAccount? && Signed(op, special)
    requires CreateStep(s, op).Some?
    ensures AllSolvent(CreateStep(s, op).value, special)
  {
    var s' := CreateStep(s, op).value;
    forall a | a in s'.accounts ensures GoodStake(s', special, a) {
      assert a in s.accounts ==> GoodStake(s, special, a);
    }
  }

  /** Counters that agree with the records are sums of shares. */
  lemma CountersNonNegative(s: State, a: Name)
    requires Consistent(s) && a in s.accounts
    ensures s.accounts[a].delegated >= 0 && s.accounts[a].received >= 0
  {
    assert CountedFor(s, a);
    SumNonNegative(s.delegations.Keys, At(s.delegations, From(a)));
    SumNonNegative(s.delegations.Keys, At(s.delegations, To(a)));
    SumNonNegative(s.expirations.Keys, At(s.expirations, Returning(a)));
  }

  lemma ReturnSolvent(s: State, i: nat, special: set<Name>)
    requires AllSolvent(s, special) && Consistent(s) && i in s.expirations
    ensures AllSolvent(ReturnOne(s, i), special)
  {
    hide OnSchedule;
    var s' := ReturnOne(s, i);
    ReturnCounted(s, i);
    forall a | a in s'.accounts ensures GoodStake(s', special, a) {
      assert GoodStake(s, special, a);
      CountersNonNegative(s', a);
    }
  }

  lemma {:induction false} ClearedSolvent(s: State, now: nat, order: seq<nat>, s': State, special: set<Name>)
    requires AllSolvent(s, special) && Consistent(s) && ClearedTo(s, now, order, s')
    ensures AllSolvent(s', special)
    decreases |order|
  {
    if order != [] {
      ReturnSolvent(s, order[0], special);
      ReturnCounted(s, order[0]);
      ClearedSolvent(ReturnOne(s, order[0]), now, order[1..], s', special);
    }
  }

  lemma StepSolvent(s: State, op: Operation, s': State, special: set<Name>)
    requires AllSolvent(s, special) && Consistent(s) && Signed(op, special) && Step(s, op, s')
    ensures AllSolvent(s', special)
  {
    match op
    case Delegate(_, _, _, _, _, _, _) => DelegateSolvent(s, op, special);
    case CreateAccount(_, _, _, _, _) => CreateSolvent(s, op, special);
    case ClearExpired(now) =>
      var order :| ClearedTo(s, now, order, s');
      ClearedSolvent(s, now, order, s', special);
    case NewAccount(n) =>
      forall a | a in s'.accounts ensures GoodStake(s', special, a) {
        assert a in s.accounts ==> GoodStake(s, special, a);
      }
    case _ => StakeSolvent(s, op, special);
  }

  /**
   In every reachable state an account has what it has lent and what it is withdrawing, so the
   shares that count for it are never negative.
   */
  lemma {:induction false} ReachableSolvent(ops: seq<Operation>, s: State, special: set<Name>)
    requires Reaches(ops, s) && forall i :: 0 <= i < |ops| ==> Signed(ops[i], special)
    ensures AllSolvent(s, special)
    ensures forall a :: a in s.accounts ==>
              && 0 <= s.accounts[a].delegated <= s.accounts[a].vests
              && s.accounts[a].down.total - s.accounts[a].down.done <= s.accounts[a].vests - s.accounts[a].delegated
              && s.accounts[a].Effective() >= 0
    decreases |ops|
  {
    if ops != [] {
      var n := |ops| - 1;
      var before :| Reaches(ops[..n], before) && Step(before, ops[n], s);
      assert Signed(ops[n], special);
      ReachableSolvent(ops[..n], before, special);
      ReachableCounted(ops[..n], before);
      StepSolvent(before, ops[n], s, special);
    }
    forall a | a in s.accounts ensures Solvent(s.accounts[a]) {
      assert GoodStake(s, special, a);
    }
  }

  // ----- The recomputation, step by step -----

  /** The counters of `m` are those of `base` plus the records in `done`. */
  ghost predicate TalliedFor(m: map<Name, Account>, base: map<Name, Account>, done: map<(Name, Name), Delegation>,
                             a: Name)
    requires a in m && a in base
  {
    m[a] == base[a].(delegated := SumMap(done, From(a)), received := SumMap(done, To(a)))
  }

  ghost predicate Tallied(m: map<Name, Account>, base: map<Name, Account>, done: map<(Name, Name), Delegation>)
  {
    m.Keys == base.Keys && forall a {:trigger TalliedFor(m, base, done, a)} :: a in m ==> TalliedFor(m, base, done, a)
  }

  function Reset(m: map<Name, Account>): map<Name, Account>
  {
    map a | a in m :: m[a].(delegated := 0, received := 0)
  }

  lemma TalliedNone(m: map<Name, Account>)
    ensures Tallied(Reset(m), m, map[])
  {
    forall a | a in m ensures TalliedFor(Reset(m), m, map[], a) {}
  }

  lemma TalliedStepFor(m: map<Name, Account>, base: map<Name, Account>, done: map<(Name, Name), Delegation>,
                       k: (Name, Name), d: Delegation, a: Name)
    requires a in m && a in base && TalliedFor(m, base, done, a) && k !in done && d.delegator in m && d.delegatee in m
    ensures TalliedFor(AddReceived(AddDelegated(m, d.delegator, d.shares), d.delegatee, d.shares), base,
            done[k := d], a)
  {
    SumMapUpdate(done, From(a), k, d);
    SumMapUpdate(done, To(a), k, d);
  }

  lemma TalliedStep(m: map<Name, Account>, base: map<Name, Account>, done: map<(Name, Name), Delegation>,
                    k: (Name, Name), d: Delegation)
    requires Tallied(m, base, done) && k !in done && d.delegator in m && d.delegatee in m
    ensures Tallied(AddReceived(AddDelegated(m, d.delegator, d.shares), d.delegatee, d.shares), base, done[k := d])
  {
    forall a | a in m
      ensures TalliedFor(AddReceived(AddDelegated(m, d.delegator, d.shares), d.delegatee, d.shares), base,
              done[k := d], a)
    {
      TalliedStepFor(m, base, done, k, d, a);
    }
  }

  /** The records that have been added up, and the next one. */
  lemma OneMoreDone(all: map<(Name, Name), Delegation>, todo: set<(Name, Name)>, k: (Name, Name))
    requires k in todo && k in all
    ensures k !in all - todo && (all - todo)[k := all[k]] == all - (todo - {k})
  {
  }

  ghost predicate ReturnedFor(m: map<Name, Account>, base: map<Name, Account>, done: map<nat, Expiration>, a: Name)
    requires a in m && a in base
  {
    m[a] == base[a].(delegated := base[a].delegated + SumMap(done, Returning(a)))
  }

  ghost predicate Returned(m: map<Name, Account>, base: map<Name, Account>, done: map<nat, Expiration>)
  {
    m.Keys == base.Keys && forall a {:trigger ReturnedFor(m, base, done, a)} :: a in m ==> ReturnedFor(m, base, done, a)
  }

  lemma ReturnedStep(m: map<Name, Account>, base: map<Name, Account>, done: map<nat, Expiration>, i: nat, e: Expiration)
    requires Returned(m, base, done) && i !in done && e.delegator in m
    ensures Returned(AddDelegated(m, e.delegator, e.shares), base, done[i := e])
  {
    forall a | a in m ensures ReturnedFor(AddDelegated(m, e.delegator, e.shares), base, done[i := e], a) {
      assert ReturnedFor(m, base, done, a);
      SumMapUpdate(done, Returning(a), i, e);
    }
  }

  // ----- The code that updates the records in place -----

  class DelegationIndex {
    var accounts: map<Name, Account>
    var delegations: map<(Name, Name), Delegation>
    var expirations: map<nat, Expiration>

    ghost function View(): State
      reads this
    {
      State(accounts, delegations, expirations)
    }

    constructor ()
      ensures View() == State(map[], map[], map[])
    {
      accounts, delegations, expirations := map[], map[], map[];
    }

    /** delegate_vesting_shares. */
    method DelegateShares(op: Operation) returns (ok: bool)
      requires op.Delegate?
      modifies this
      ensures ok == DelegateStep(old(View()), op).Some?
      ensures View() == if ok then DelegateStep(old(View()), op).value else old(View())
      ensures ok == MayDelegate(old(View()), op)
      ensures ok ==> Redelegated(old(View()), op, View())
    {
      hide Redelegated, MayDelegate;
      DelegateDoes(View(), op);
      var d, e := op.delegator, op.delegatee;
      if d == e || d !in accounts || e !in accounts {
        return false;
      }
      var found := (d, e) in delegations;
      if !found && op.shares == 0 {
        return false;
      }
      var delta := if found then op.shares - delegations[(d, e)].shares else op.shares;
      if delta > 0 {
        if accounts[d].Available() < delta || !op.energyOk || (!found && op.shares < op.minimum) {
          return false;
        }
        if !found {
          delegations := delegations[(d, e) := Delegation(d, e, op.shares, op.now)];
        }
        accounts := AddDelegated(accounts, d, delta);
      } else {
        if op.shares != 0 && op.shares < op.minimum {
          return false;
        }
        var back := Max(op.now + op.returnDelay, delegations[(d, e)].minTime);
        expirations := expirations[FreshKey(expirations) := Expiration(d, -delta, back)];
      }
      accounts := AddReceived(accounts, e, delta);
      if found {
        if op.shares > 0 {
          delegations := delegations[(d, e) := delegations[(d, e)].(shares := op.shares)];
        } else {
          delegations := delegations - {(d, e)};
        }
      }
      return true;
    }

    /** account_create. */
    method CreateWithDelegation(op: Operation) returns (ok: bool)
      requires op.CreateAccount?
      modifies this
      ensures ok == CreateStep(old(View()), op).Some?
      ensures View() == if ok then CreateStep(old(View()), op).value else old(View())
    {
      var c, n := op.creator, op.newName;
      if c !in accounts || n in accounts || !op.allowed || accounts[c].Available() < op.shares {
        return false;
      }
      accounts := AddDelegated(accounts, c, op.shares);
      accounts := accounts[n := Account(0, Idle, 0, op.shares)];
      if op.shares > 0 {
        delegations := delegations[(c, n) := Delegation(c, n, op.shares, op.minTime)];
      }
      return true;
    }

    /** clear_expired_delegations: the records past their time are returned one by one. */
    method ClearExpiredDelegations(now: nat) returns (ghost order: seq<nat>)
      requires WellFormed(View())
      modifies this`accounts, this`expirations
      ensures ClearedTo(old(View()), now, order, View())
      decreases |expirations|
    {
      if exists i :: i in expirations && expirations[i].expires < now {
        var i :| i in expirations && expirations[i].expires < now;
        ghost var was := expirations;
        accounts := AddDelegated(accounts, expirations[i].delegator, 0 - expirations[i].shares);
        expirations := expirations - {i};
        assert View() == ReturnOne(old(View()), i);
        assert was.Keys == expirations.Keys + {i};
        order := ClearExpiredDelegations(now);
        order := [i] + order;
      } else {
        order := [];
      }
    }

    /** The hardfork-8 migration: forget the counters and add every record up again. */
    method RefreshCounters()
      requires WellFormed(View())
      modifies this`accounts
      ensures Consistent(View()) && accounts.Keys == old(accounts).Keys
      ensures old(Consistent(View())) ==> View() == old(View())
    {
      AddDelegations();
      ghost var half := accounts;
      AddReturning();
      forall a | a in accounts ensures CountedFor(View(), a) &&
          (old(Consistent(View())) ==> accounts[a] == old(accounts)[a]) {
        assert TalliedFor(half, old(accounts), delegations, a) && ReturnedFor(accounts, half, expirations, a);
        assert CountedFor(View(), a);
        assert old(Consistent(View())) ==> CountedFor(old(View()), a);
      }
    }

    method AddDelegations()
      requires WellFormed(View())
      modifies this`accounts
      ensures Tallied(accounts, old(accounts), delegations)
    {
      hide TalliedFor;
      TalliedNone(accounts);
      accounts := Reset(accounts);
      var todo := delegations.Keys;
      ghost var done: map<(Name, Name), Delegation> := map[];
      while todo != {}
        invariant todo <= delegations.Keys && Tallied(accounts, old(accounts), done)
        invariant done == delegations - todo
        decreases |todo|
      {
        var k :| k in todo;
        var d := delegations[k];
        OneMoreDone(delegations, todo, k);
        TalliedStep(accounts, old(accounts), done, k, d);
        accounts := AddDelegated(accounts, d.delegator, d.shares);
        accounts := AddReceived(accounts, d.delegatee, d.shares);
        todo := todo - {k};
        done := done[k := d];
      }
      assert done == delegations;
    }

    method AddReturning()
      requires WellFormed(View())
      modifies this`accounts
      ensures Returned(accounts, old(accounts), expirations)
    {
      var todo := expirations.Keys;
      ghost var done: map<nat, Expiration> := map[];
      while todo != {}
        invariant todo <= expirations.Keys && Returned(accounts, old(accounts), done)
        invariant done.Keys == expirations.Keys - todo && forall i :: i in done ==> done[i] == expirations[i]
        decreases |todo|
      {
        var i :| i in todo;
        var e := expirations[i];
        ReturnedStep(accounts, old(accounts), done, i, e);
        accounts := AddDelegated(accounts, e.delegator, e.shares);
        todo := todo - {i};
        done := done[i := e];
      }
      assert done == expirations;
    }
  }
}
