/**
 The token ledger under the rules of hardfork 11.

 Every operation and every step at the end of a block moves tokens between balances, standing
 bids, escrows, invites and the vesting, reward and committee funds.  In every state these
 together hold the supply, and besides only what fixed awards paid to beneficiaries beyond
 the requested reward.
 */
module Ledger {
  import opened Options
  import opened Sums
  import opened Arithmetic
  import opened Vesting
  import opened Auctions
  import opened AccountTable
  import opened PowerDown
  import Awards
  import Committee
  import opened Subscriptions

  // ----- Records other than accounts -----

  datatype Escrow = Escrow(to: Name, agent: Name, tokens: int, fee: int, toApproved: bool, agentApproved: bool,
                           disputed: bool, deadline: int, expiration: int)

  predicate Approved(e: Escrow) { e.toApproved && e.agentApproved }

  /** An escrow belongs to the account that pays it and carries a number of its choice. */
  type EscrowId = (Name, nat)

  /** Status 0 is unused; the others tell in which way an invite was used. */
  datatype Invite = Invite(creator: Name, status: nat, balance: int, claimTime: int)

  /** Status 0 is open, 1 cancelled, 2 without enough votes, 3 refused, 4 being paid, 5 paid. */
  datatype Request = Request(creator: Name, worker: Name, url: nat, start: int, end: int, status: nat,
                             least: nat, most: nat, remain: int, paid: int, votes: Committee.Votes, concluded: int)

  /** A request is never paid more than it asked for, and only accounts vote on it. */
  ghost predicate RequestSound(names: set<Name>, r: Request)
  {
    && r.worker in names && r.remain >= 0 && r.paid >= 0 && r.paid + r.remain <= r.most
    && Committee.GoodVotes(r.votes) && r.votes.Keys <= names
  }

  const REQUEST_PER_TIME: int := 86400        // COMMITTEE_REQUEST_PER_TIME

  /** The creator has asked for the same before, or for anything within the last day. */
  predicate Repeats(rs: map<nat, Request>, creator: Name, url: nat, now: int)
  {
    exists k :: k in rs && rs[k].creator == creator && (rs[k].url == url || now - rs[k].start < REQUEST_PER_TIME)
  }

  /** Cancelled, or turned down, for long. */
  predicate Closed(r: Request, before: int)
  {
    r.status != 0 && r.status != 4 && r.status != 5 && before > r.concluded
  }

  const MASTER_UPDATE_LIMIT: int := 3600      // CHAIN_MASTER_UPDATE_LIMIT
  const REGENERATION: int := 432000           // CHAIN_ENERGY_REGENERATION_SECONDS, five days

  datatype SubSale = SubSale(seller: Name, price: int, onSale: bool)

  /** The records beside the account table. */
  datatype Book = Book(escrows: map<EscrowId, Escrow>, invites: map<nat, Invite>, requests: map<nat, Request>,
                       downs: map<Name, Withdrawal>, routes: map<Name, Routes>)

  ghost function InEscrow(): Escrow -> int { (e: Escrow) => e.tokens + e.fee }
  ghost function InInvite(): Invite -> int { (i: Invite) => i.balance }

  ghost function EscrowTotal(es: map<EscrowId, Escrow>): int { SumMap(es, InEscrow()) }
  ghost function InviteTotal(ivs: map<nat, Invite>): int { SumMap(ivs, InInvite()) }

  lemma EscrowPut(es: map<EscrowId, Escrow>, k: EscrowId, e: Escrow)
    ensures EscrowTotal(es[k := e]) ==
            EscrowTotal(es) - (if k in es then es[k].tokens + es[k].fee else 0) + e.tokens + e.fee
  {
    SumMapUpdate(es, InEscrow(), k, e);
  }

  lemma EscrowRemove(es: map<EscrowId, Escrow>, k: EscrowId)
    requires k in es
    ensures EscrowTotal(es - {k}) == EscrowTotal(es) - es[k].tokens - es[k].fee
  {
    SumMapRemove(es, InEscrow(), k);
  }

  lemma InvitePut(ivs: map<nat, Invite>, k: nat, i: Invite)
    ensures InviteTotal(ivs[k := i]) == InviteTotal(ivs) - (if k in ivs then ivs[k].balance else 0) + i.balance
  {
    SumMapUpdate(ivs, InInvite(), k, i);
  }

  lemma InviteRemove(ivs: map<nat, Invite>, k: nat)
    requires k in ivs
    ensures InviteTotal(ivs - {k}) == InviteTotal(ivs) - ivs[k].balance
  {
    SumMapRemove(ivs, InInvite(), k);
  }

  // ----- What always holds of them -----

  predicate EscrowSound(names: set<Name>, k: EscrowId, e: Escrow)
  {
    && k.0 in names && e.to in names && e.agent in names && e.tokens >= 0 && e.fee >= 0
    && (Approved(e) ==> e.fee == 0)
  }

  ghost predicate EscrowsSound(names: set<Name>, es: map<EscrowId, Escrow>)
  {
    forall k {:trigger es[k]} :: k in es ==> EscrowSound(names, k, es[k])
  }

  /** A used invite holds nothing. */
  ghost predicate InvitesSound(ivs: map<nat, Invite>)
  {
    forall k {:trigger ivs[k]} :: k in ivs ==> ivs[k].balance >= 0 && (ivs[k].status != 0 ==> ivs[k].balance == 0)
  }

  ghost predicate RequestsSound(names: set<Name>, rs: map<nat, Request>)
  {
    forall k {:trigger rs[k]} :: k in rs ==> RequestSound(names, rs[k])
  }

  ghost predicate DownsSound(names: set<Name>, downs: map<Name, Withdrawal>)
  {
    downs.Keys <= names && forall a {:trigger downs[a]} :: a in downs ==> Scheduled(downs[a])
  }

  ghost predicate RoutesSound(names: set<Name>, routes: map<Name, Routes>)
  {
    routes.Keys <= names && forall a {:trigger routes[a]} :: a in routes ==>
        GoodRoutes(routes[a]) && routes[a].Keys <= names
  }

  ghost predicate RecordsSound(names: set<Name>, b: Book)
  {
    && EscrowsSound(names, b.escrows) && InvitesSound(b.invites) && RequestsSound(names, b.requests)
    && DownsSound(names, b.downs) && RoutesSound(names, b.routes)
  }

  /** New accounts leave the records as they are. */
  lemma MoreNames(names: set<Name>, a: Name, b: Book)
    requires RecordsSound(names, b)
    ensures RecordsSound(names + {a}, b)
  {
    hide GoodRoutes;
  }

  lemma EscrowFacts(names: set<Name>, b: Book, k: EscrowId)
    requires RecordsSound(names, b) && k in b.escrows
    ensures EscrowSound(names, k, b.escrows[k])
  {
  }

  lemma EscrowsChange(names: set<Name>, b: Book, k: EscrowId, e: Escrow)
    requires RecordsSound(names, b)
    ensures RecordsSound(names, b.(escrows := b.escrows - {k}))
    ensures EscrowSound(names, k, e) ==> RecordsSound(names, b.(escrows := b.escrows[k := e]))
  {
    hide InvitesSound, RequestsSound, DownsSound, RoutesSound;
  }

  lemma InviteFacts(names: set<Name>, b: Book, k: nat)
    requires RecordsSound(names, b) && k in b.invites
    ensures b.invites[k].balance >= 0 && (b.invites[k].status != 0 ==> b.invites[k].balance == 0)
  {
  }

  lemma InvitesChange(names: set<Name>, b: Book, k: nat, i: Invite)
    requires RecordsSound(names, b)
    ensures RecordsSound(names, b.(invites := b.invites - {k}))
    ensures i.balance >= 0 && (i.status != 0 ==> i.balance == 0) ==>
            RecordsSound(names, b.(invites := b.invites[k := i]))
  {
    hide EscrowsSound, RequestsSound, DownsSound, RoutesSound;
  }

  /** escrow_approve, when it does not reject: the fee is paid out with the second approval. */
  function WithApproval(e: Escrow, who: Name): Escrow
  {
    var r := e.(toApproved := e.toApproved || who == e.to, agentApproved := e.agentApproved || who == e.agent);
    if Approved(r) then r.(fee := 0) else r
  }

  /** Who may release the tokens of an approved escrow to whom. */
  predicate MayRelease(from: Name, e: Escrow, who: Name, receiver: Name, now: int)
  {
    && (receiver == from || receiver == e.to) && Approved(e)
    && if e.disputed then who == e.agent
       else
         && (who == from || who == e.to)
         && (e.expiration > now ==> if who == from then receiver == e.to else receiver == from)
  }

  /** The pairs of one who releases and one who receives: the agent decides a dispute, and either side gives. */
  function ReleaseRights(from: Name, e: Escrow, now: int): set<(Name, Name)>
  {
    if !e.toApproved || !e.agentApproved then {}
    else if e.disputed then {(e.agent, from), (e.agent, e.to)}
    else if now < e.expiration then {(from, e.to), (e.to, from)}
    else {(from, e.to), (e.to, from), (from, from), (e.to, e.to)}
  }

  lemma ReleaseRightsAre(from: Name, e: Escrow, who: Name, receiver: Name, now: int)
    ensures MayRelease(from, e, who, receiver, now) <==> (who, receiver) in ReleaseRights(from, e, now)
  {
  }

  /** The second approval brings the agent its fee, the first one nothing. */
  ghost predicate ApprovalPays(e: Escrow, e': Escrow, who: Name, accs: Accounts, accs': Accounts)
  {
    && e' == e.(toApproved := e'.toApproved, agentApproved := e'.agentApproved, fee := e'.fee)
    && (e'.toApproved <==> e.toApproved || who == e.to) && (e'.agentApproved <==> e.agentApproved || who == e.agent)
    && if e'.toApproved && e'.agentApproved then e'.fee == 0 && e.agent in accs && accs' == Credit(accs, e.agent, e.fee)
       else e'.fee == e.fee && accs' == accs
  }

  // ----- Awards -----

  datatype Beneficiary = Beneficiary(account: Name, weight: nat)

  function Weights(bens: seq<Beneficiary>): nat
  {
    if bens == [] then 0 else Weights(bens[..|bens| - 1]) + bens[|bens| - 1].weight
  }

  function PartFor(b: Beneficiary, tokens: nat): nat { tokens * b.weight / 10000 }

  /** What all beneficiaries get. */
  function Parts(bens: seq<Beneficiary>, tokens: nat): nat
  {
    if bens == [] then 0 else Parts(bens[..|bens| - 1], tokens) + PartFor(bens[|bens| - 1], tokens)
  }

  lemma {:induction false} PartsByWeight(bens: seq<Beneficiary>, tokens: nat)
    ensures Parts(bens, tokens) * 10000 <= tokens * Weights(bens)
    decreases |bens|
  {
    if bens != [] {
      PartsByWeight(bens[..|bens| - 1], tokens);
      PartStep(tokens, bens[|bens| - 1].weight, Parts(bens[..|bens| - 1], tokens), Weights(bens[..|bens| - 1]));
    }
  }

  /** Beneficiaries never get more than the award they share. */
  lemma PartsAtMost(bens: seq<Beneficiary>, tokens: nat)
    requires Weights(bens) <= 10000
    ensures Parts(bens, tokens) <= tokens
  {
    PartsByWeight(bens, tokens);
    AtMostAll(Parts(bens, tokens), tokens, Weights(bens));
  }

  /** A beneficiary of everything gets all of it, also the part of a fixed award that was not asked for. */
  lemma SoleBeneficiary(b: Beneficiary, tokens: nat)
    requires b.weight == 10000
    ensures Weights([b]) <= 10000 && Parts([b], tokens) == tokens
  {
    assert [b][..0] == [];
    assert tokens * 10000 / 10000 == tokens;
  }

  lemma {:induction false} PartsOfNothing(bens: seq<Beneficiary>)
    ensures Parts(bens, 0) == 0
    decreases |bens|
  {
    if bens != [] {
      PartsOfNothing(bens[..|bens| - 1]);
    }
  }

  /**
   So a fixed award can pay more than it claims.  An account with 100000 effective shares that
   may use one unit of energy for a reward of 400 needs 6 reward shares, gets 10 for that unit,
   and claims 500; a beneficiary of everything is paid all of it, and 100 go to the committee too.
   */
  lemma FixedAwardCreates()
    ensures var bens := [Beneficiary(1, 10000)];
            && Awards.FixedShares(1000, 10, 100000, 10000, 1, 400, 0) == Some(Awards.Fixed(1, 10))
            && Awards.Award(1000, 10, 10) == 500 && Weights(bens) <= 10000
            && Parts(bens, 500) + (500 - 400) == 500 + 100
  {
    assert Awards.Sway(100000, 1) == 10;
    assert Awards.Award(1000, 10, 10) == 500;
    assert Awards.RsharesFor(1000, 10, 400) == 6;
    assert Awards.UsedEnergy(6, 1, 10) == 1;
    SoleBeneficiary(Beneficiary(1, 10000), 500);
  }

  /** Stakes of all accounts, and what stands behind them. */
  datatype Pool = Pool(accs: Accounts, fund: int, total: int)

  function Vest(v: Pool, a: Name, tokens: int): (r: Pool)
    requires a in v.accs
    ensures r.accs.Keys == v.accs.Keys
  {
    var s := SharesFor(v.fund, v.total, tokens);
    Pool(Grant(v.accs, a, s), v.fund + tokens, v.total + s)
  }

  predicate Known(bens: seq<Beneficiary>, names: set<Name>)
  {
    forall i :: 0 <= i < |bens| ==> bens[i].account in names
  }

  function VestAll(v: Pool, bens: seq<Beneficiary>, tokens: nat): (r: Pool)
    requires Known(bens, v.accs.Keys)
    ensures r.accs.Keys == v.accs.Keys
  {
    if bens == [] then v
    else
      var b := bens[|bens| - 1];
      Vest(VestAll(v, bens[..|bens| - 1], tokens), b.account, PartFor(b, tokens))
  }

  function SharedOut(v: Pool, receiver: Name, tokens: nat, reward: nat, bens: seq<Beneficiary>): Pool
    requires Known(bens, v.accs.Keys) && receiver in v.accs
  {
    var r, parts := VestAll(v, bens, tokens), Parts(bens, tokens);
    if parts < reward then Vest(r, receiver, reward - parts) else r
  }

  // What each account gets, one payment after the other.

  type Deposit = (Name, nat)

  /** The tokens paid to `x`. */
  ghost function PaidTo(pays: seq<Deposit>, x: Name): nat
  {
    if pays == [] then 0 else (if pays[0].0 == x then pays[0].1 else 0) + PaidTo(pays[1..], x)
  }

  /** Its shares, each payment buying at the price that the payments before it have left. */
  ghost function Gained(fund: int, total: int, pays: seq<Deposit>, x: Name): int
    decreases pays
  {
    if pays == [] then 0
    else
      var s := SharesFor(fund, total, pays[0].1);
      (if pays[0].0 == x then s else 0) + Gained(fund + pays[0].1, total + s, pays[1..], x)
  }

  ghost function FundAfter(fund: int, total: int, pays: seq<Deposit>): (int, int)
    decreases pays
  {
    if pays == [] then (fund, total)
    else FundAfter(fund + pays[0].1, total + SharesFor(fund, total, pays[0].1), pays[1..])
  }

  lemma {:induction false} OneMorePaid(fund: int, total: int, pays: seq<Deposit>, last: Deposit, x: Name)
    ensures var (f, t) := FundAfter(fund, total, pays);
            && Gained(fund, total, pays + [last], x) ==
               Gained(fund, total, pays, x) + (if last.0 == x then SharesFor(f, t, last.1) else 0)
            && FundAfter(fund, total, pays + [last]) == (f + last.1, t + SharesFor(f, t, last.1))
    decreases |pays|
  {
    hide SharesFor;
    var all := pays + [last];
    if pays == [] {
      assert all[1..] == [];
    } else {
      assert all[1..] == pays[1..] + [last];
      OneMorePaid(fund + pays[0].1, total + SharesFor(fund, total, pays[0].1), pays[1..], last, x);
    }
  }

  /** Nobody gets more shares than what it is paid buys at the first price. */
  lemma {:induction false} GainedAtMost(fund: int, total: int, pays: seq<Deposit>, x: Name)
    requires Backed(fund, total)
    ensures 0 <= Gained(fund, total, pays, x) <= SharesFor(fund, total, PaidTo(pays, x))
    decreases |pays|
  {
    hide SharesFor, Backed, NotCheaper;
    var zero := 0;
    if pays == [] {
      DepositKeeps(fund, total, zero);
    } else {
      var first, s, rest := pays[0].1, SharesFor(fund, total, pays[0].1), PaidTo(pays[1..], x);
      DepositKeeps(fund, total, first);
      GainedAtMost(fund + first, total + s, pays[1..], x);
      SamePriceOrDearer(fund, total, first, rest);
      BuyingTogether(fund, total, first, rest);
    }
  }

  lemma SamePriceOrDearer(fund: int, total: int, first: nat, rest: nat)
    requires Backed(fund, total)
    ensures SharesFor(fund + first, total + SharesFor(fund, total, first), rest) <= SharesFor(fund, total, rest)
  {
    DepositKeeps(fund, total, first);
    if fund > 0 {
      DearerBuys(fund, total, fund + first, total + SharesFor(fund, total, first), rest);
    } else if first > 0 {
      FirstPrice(first, rest);
    }
  }

  /** Each beneficiary is paid its percentage of an award. */
  ghost function Payments(bens: seq<Beneficiary>, tokens: nat): seq<Deposit>
  {
    seq(|bens|, i requires 0 <= i < |bens| => (bens[i].account, tokens * bens[i].weight / 10000))
  }

  ghost function Everything(pays: seq<Deposit>): nat
  {
    if pays == [] then 0 else Everything(pays[..|pays| - 1]) + pays[|pays| - 1].1
  }

  /** What they leave of `reward` goes to the receiver. */
  ghost function AwardPayments(bens: seq<Beneficiary>, tokens: nat, receiver: Name, reward: nat): seq<Deposit>
  {
    var pays := Payments(bens, tokens);
    if Everything(pays) < reward then pays + [(receiver, reward - Everything(pays))] else pays
  }

  lemma {:induction false} VestAllAt(v: Pool, bens: seq<Beneficiary>, tokens: nat, x: Name)
    requires Known(bens, v.accs.Keys) && x in v.accs
    ensures var r, pays := VestAll(v, bens, tokens), Payments(bens, tokens);
            && (r.fund, r.total) == FundAfter(v.fund, v.total, pays) && Everything(pays) == Parts(bens, tokens)
            && r.accs[x] == v.accs[x].(shares := v.accs[x].shares + Gained(v.fund, v.total, pays, x))
    decreases |bens|
  {
    hide SharesFor;
    if bens != [] {
      var n := |bens| - 1;
      var pays, last := Payments(bens[..n], tokens), (bens[n].account, tokens * bens[n].weight / 10000);
      VestAllAt(v, bens[..n], tokens, x);
      assert Payments(bens, tokens) == pays + [last];
      assert (pays + [last])[..n] == pays;
      OneMorePaid(v.fund, v.total, pays, last, x);
    }
  }

  /** Every account has the shares that its payments bought, and is otherwise as it was. */
  ghost predicate AllVested(v: Pool, v': Pool, pays: seq<Deposit>)
  {
    && v'.accs.Keys == v.accs.Keys && (v'.fund, v'.total) == FundAfter(v.fund, v.total, pays)
    && forall x :: x in v.accs ==>
         v'.accs[x] == v.accs[x].(shares := v.accs[x].shares + Gained(v.fund, v.total, pays, x))
  }

  lemma SharedOutAt(v: Pool, receiver: Name, tokens: nat, reward: nat, bens: seq<Beneficiary>)
    requires Known(bens, v.accs.Keys) && receiver in v.accs
    ensures AllVested(v, SharedOut(v, receiver, tokens, reward, bens), AwardPayments(bens, tokens, receiver, reward))
  {
    hide SharesFor, VestAll, Gained, FundAfter, Parts, Everything, Payments;
    var r, pays := VestAll(v, bens, tokens), Payments(bens, tokens);
    VestAllAt(v, bens, tokens, receiver);
    var last := (receiver, if Everything(pays) < reward then reward - Everything(pays) else 0);
    OneMorePaid(v.fund, v.total, pays, last, receiver);
    forall x | x in v.accs
      ensures r.accs[x] == v.accs[x].(shares := v.accs[x].shares + Gained(v.fund, v.total, pays, x))
      ensures var (f, t) := FundAfter(v.fund, v.total, pays);
              Gained(v.fund, v.total, pays + [last], x) ==
              Gained(v.fund, v.total, pays, x) + (if last.0 == x then SharesFor(f, t, last.1) else 0)
    {
      VestAllAt(v, bens, tokens, x);
      OneMorePaid(v.fund, v.total, pays, last, x);
    }
  }

  // ----- Records that get paid out -----

  ghost function Payer(): EscrowId -> Name { (k: EscrowId) => k.0 }

  ghost function Locked(es: map<EscrowId, Escrow>): EscrowId -> int
  {
    k => if k in es then es[k].tokens + es[k].fee else 0
  }

  ghost function Worker(rs: map<nat, Request>): nat -> Name { k => if k in rs then rs[k].worker else NOBODY }

  ghost function Instalment(rs: map<nat, Request>, most: int): nat -> int
  {
    k => if k in rs then Payment(rs[k], most) else 0
  }

  function Payment(r: Request, most: int): int { if most < r.remain then most else r.remain }

  function PaidRequest(r: Request, most: int): Request
  {
    var p := Payment(r, most);
    r.(paid := r.paid + p, remain := r.remain - p, status := if r.remain - p <= 0 then 5 else r.status)
  }

  lemma RequestFacts(names: set<Name>, b: Book, k: nat)
    requires RecordsSound(names, b) && k in b.requests
    ensures RequestSound(names, b.requests[k])
  {
  }

  lemma RequestsChange(names: set<Name>, b: Book, k: nat, r: Request)
    requires RecordsSound(names, b) && RequestSound(names, r)
    ensures RecordsSound(names, b.(requests := b.requests[k := r]))
  {
    hide EscrowsSound, InvitesSound, DownsSound, RoutesSound;
  }

  lemma RequestsDrop(names: set<Name>, b: Book, k: nat)
    requires RecordsSound(names, b)
    ensures RecordsSound(names, b.(requests := b.requests - {k}))
  {
    hide EscrowsSound, InvitesSound, DownsSound, RoutesSound;
  }

  /** How the votes leave a request. */
  ghost function Concluded(r: Request, sway: nat -> nat, totalShares: int, minPercent: nat, now: int): Request
    requires totalShares >= 0 && Committee.GoodVotes(r.votes)
  {
    Committee.SupportAtMost(r.votes, sway);
    var all, support := Committee.AllShares(r.votes, sway), Committee.Support(r.votes, sway);
    match Committee.Conclude(all, support, r.least, r.most, totalShares, minPercent)
    case TooFewVotes => r.(status := 2, concluded := now)
    case Refused(_) => r.(status := 3, concluded := now)
    case Approved(payout) => r.(status := 4, concluded := now, remain := payout, paid := 0)
  }

  /** The votes of all who voted decide whether anything is paid, and how much. */
  ghost predicate Decided(r: Request, r': Request, sway: nat -> nat, totalShares: int, minPercent: nat, now: int)
  {
    var all, support := Committee.AllShares(r.votes, sway), Committee.Support(r.votes, sway);
    && r' == r.(status := r'.status, concluded := now, remain := r'.remain, paid := r'.paid)
    && r'.status in {2, 3, 4}
    && (r'.status == 2 <==> all < totalShares * minPercent / 10000)
    && (r'.status == 3 ==> support <= 0 || exists payout: nat ::
            payout < r.least && Committee.Proportional(payout, all, support, r.most))
    && (r'.status == 4 ==> support > 0 && r.least <= r'.remain && r'.paid == 0)
    && (r'.status == 4 ==> Committee.Proportional(r'.remain, all, support, r.most))
    && (r'.status != 4 ==> r'.remain == r.remain && r'.paid == r.paid)
  }

  lemma ConcludedDecides(r: Request, sway: nat -> nat, totalShares: int, minPercent: nat, now: int)
    requires totalShares >= 0 && Committee.GoodVotes(r.votes)
    ensures Decided(r, Concluded(r, sway, totalShares, minPercent, now), sway, totalShares, minPercent, now)
  {
    hide Committee.AllShares, Committee.Support, Committee.Proportional, Committee.Conclude;
    Committee.SupportAtMost(r.votes, sway);
    var all, support := Committee.AllShares(r.votes, sway), Committee.Support(r.votes, sway);
    Committee.ConcludedFairly(all, support, r.least, r.most, totalShares, minPercent);
  }

  /** A payment between accounts. */
  function Moved(accs: Accounts, from: Name, to: Name, amount: int): Accounts
  {
    if from in accs && to in accs then Credit(Credit(accs, from, -amount), to, amount) else accs
  }

  /** The subscription of `k`, while it is active. */
  function Standing(subs: map<(Name, Name), Subscription>, k: (Name, Name)): Option<Subscription>
  {
    if k in subs && subs[k].active then Some(subs[k]) else None
  }

  /** What a subscription at `price` in all costs, and how long it lasts, when `s` is the one it replaces. */
  function Terms(s: Option<Subscription>, price: nat, period: Days, now: int): Change
    requires price > 0
  {
    if s.None? then Change(price, period * DAY) else ChangeTo(s.value, price, period, now)
  }

  function Unratified(es: map<EscrowId, Escrow>, now: int): set<EscrowId>
  {
    set k | k in es && !Approved(es[k]) && es[k].deadline <= now
  }

  function Payable(rs: map<nat, Request>): set<nat>
  {
    set k | k in rs && rs[k].status == 4
  }

  /** Auctions that are over. */
  function Over(accs: Accounts, now: int): set<Name>
  {
    set a | a in accs && accs[a].sale.onAuction && accs[a].sale.start <= now
  }

  /** The accounts of `done` that were sold. */
  function SoldOf(accs: Accounts, done: set<Name>, recovering: set<Name>): set<Name>
  {
    set a | a in done && a in accs && accs[a].sale.onSale && a !in recovering
  }

  lemma SoldMore(accs: Accounts, done: set<Name>, recovering: set<Name>, a: Name)
    requires a in accs
    ensures SoldOf(accs, done + {a}, recovering) ==
            SoldOf(accs, done, recovering) + if accs[a].sale.onSale && a !in recovering then {a} else {}
  {
  }

  function EqualPart(fund: int, n: int): (p: int)
    requires fund >= 0 && n > 0
    ensures 0 <= p && n * p <= fund < n * p + n
  {
    DivFloor(fund, n);
    DivBounds(fund, n);
    fund / n
  }

  /** The requests in `done` have had their payment, the others are as they were. */
  ghost predicate RequestsPaid(rs: map<nat, Request>, rs': map<nat, Request>, done: set<nat>, most: int)
  {
    && rs'.Keys == rs.Keys
    && forall k {:trigger rs'[k]} :: k in rs ==> rs'[k] == if k in done then PaidRequest(rs[k], most) else rs[k]
  }

  lemma RequestsPaidStep(rs: map<nat, Request>, rs': map<nat, Request>, done: set<nat>, most: int, k: nat)
    requires RequestsPaid(rs, rs', done, most) && k in rs && k !in done
    ensures k in rs' && rs'[k] == rs[k]
    ensures RequestsPaid(rs, rs'[k := PaidRequest(rs'[k], most)], done + {k}, most)
  {
  }

  /** The requests in `done` have had their payment, and so have their workers. */
  ghost predicate PaidOut(accs: Accounts, accs': Accounts, names: set<Name>,
                          rs: map<nat, Request>, rs': map<nat, Request>, done: set<nat>, most: int)
  {
    RequestsPaid(rs, rs', done, most) && AllPaid(accs, accs', names, done, Worker(rs), Instalment(rs, most))
  }

  /** What a request has been paid since `rs`. */
  ghost function PaidNow(rs: map<nat, Request>, rs': map<nat, Request>): nat -> int
  {
    k => if k in rs && k in rs' then rs'[k].paid - rs[k].paid else 0
  }

  /** An instalment pays off the request, or it is a full part of the fund. */
  predicate InstalmentPaid(r: Request, r': Request, most: int)
  {
    && r' == r.(status := r'.status, remain := r'.remain, paid := r'.paid)
    && r.paid <= r'.paid && r'.paid + r'.remain == r.paid + r.remain
    && if r'.status == 5 then r'.remain == 0 && r'.paid - r.paid <= most
       else r'.status == r.status && r'.paid - r.paid == most && r'.remain > 0
  }

  /** What is entered in the requests is what their workers get, and requests that are not due stay as they are. */
  ghost predicate Instalments(accs: Accounts, accs': Accounts, names: set<Name>, rs: map<nat, Request>,
                              rs': map<nat, Request>, most: int)
  {
    && rs'.Keys == rs.Keys
    && (forall k {:trigger rs'[k]} :: k in rs ==>
          if rs[k].status == 4 then InstalmentPaid(rs[k], rs'[k], most) else rs'[k] == rs[k])
    && AllPaid(accs, accs', names, Payable(rs), Worker(rs), PaidNow(rs, rs'))
  }

  lemma InstalmentsPaid(accs: Accounts, accs': Accounts, names: set<Name>, rs: map<nat, Request>,
                        rs': map<nat, Request>, most: int)
    requires PaidOut(accs, accs', names, rs, rs', Payable(rs), most) && most >= 0
    requires forall k :: k in rs ==> rs[k].remain >= 0
    ensures Instalments(accs, accs', names, rs, rs', most)
  {
    var due := Payable(rs);
    forall x | x in names ensures PaidFor(accs, accs', due, Worker(rs), PaidNow(rs, rs'), x) {
      assert PaidFor(accs, accs', due, Worker(rs), Instalment(rs, most), x);
      SumCong(due, ShareOf(Worker(rs), Instalment(rs, most), x), ShareOf(Worker(rs), PaidNow(rs, rs'), x));
    }
  }

  lemma PaidOutNone(accs: Accounts, names: set<Name>, rs: map<nat, Request>, most: int)
    requires names <= accs.Keys
    ensures PaidOut(accs, accs, names, rs, rs, {}, most)
  {
    AllPaidNone(accs, names, Worker(rs), Instalment(rs, most));
  }

  lemma PaidOutStep(accs: Accounts, accs': Accounts, names: set<Name>, rs: map<nat, Request>, rs': map<nat, Request>,
                    done: set<nat>, most: int, k: nat)
    requires PaidOut(accs, accs', names, rs, rs', done, most) && k in rs && k !in done && rs[k].worker in accs'
    ensures k in rs' && rs'[k] == rs[k]
    ensures PaidOut(accs, Credit(accs', rs[k].worker, Payment(rs[k], most)), names, rs,
            rs'[k := PaidRequest(rs[k], most)], done + {k}, most)
  {
    hide AllPaid, RequestsPaid, PaidRequest, Payment;
    RequestsPaidStep(rs, rs', done, most, k);
    AllPaidStep(accs, accs', names, done, Worker(rs), Instalment(rs, most), k);
  }

  /** Enough for `n` payments, and one more that is not made. */
  ghost predicate Covers(fund: int, n: int, most: int) { most >= 0 && fund >= (n + 1) * most }

  lemma CoversOne(fund: int, n: nat, most: int)
    requires Covers(fund, n, most)
    ensures 0 <= most <= fund
  {
    assert (n + 1) * most == n * most + most;
    MulMono(0, n, most);
  }

  lemma CoversNext(fund: int, n: int, most: int, fund': int, n': int)
    requires Covers(fund, n, most) && fund - most <= fund' && n' == n - 1
    ensures Covers(fund', n', most)
  {
    assert (n + 1) * most == n * most + most;
  }

  lemma CoversFirst(fund: int, n: nat)
    requires fund >= 0
    ensures Covers(fund, n, EqualPart(fund, n + 1))
  {
  }

  // ----- Special accounts -----

  function Positive(x: int): int { if x > 0 then x else 0 }

  /** The account gives up its balance and its stake. */
  function Emptied(accs: Accounts, a: Name): (r: Accounts)
    requires a in accs
    ensures r.Keys == accs.Keys
  {
    Grant(Credit(accs, a, -Positive(accs[a].balance)), a, -Positive(accs[a].shares))
  }

  /** The account has no shares left and no tokens, unless it owes some; nobody else is touched. */
  ghost predicate GaveUp(accs: Accounts, accs': Accounts, a: Name)
  {
    && a in accs && accs'.Keys == accs.Keys && (forall x :: x in accs && x != a ==> accs'[x] == accs[x])
    && accs'[a] == accs[a].(shares := 0, balance := accs'[a].balance)
    && accs'[a].balance == if accs[a].balance > 0 then 0 else accs[a].balance
  }

  lemma EmptiedGaveUp(accs: Accounts, a: Name)
    requires a in accs && accs[a].shares >= 0
    ensures GaveUp(accs, Emptied(accs, a), a)
  {
  }

  // ----- Withdrawals -----

  function DownOf(downs: map<Name, Withdrawal>, a: Name): Withdrawal { if a in downs then downs[a] else Idle }
  function RoutesOf(routes: map<Name, Routes>, a: Name): Routes { if a in routes then routes[a] else map[] }

  lemma DownFacts(names: set<Name>, b: Book, a: Name)
    requires RecordsSound(names, b)
    ensures Scheduled(DownOf(b.downs, a)) && (a in b.downs ==> a in names)
    ensures GoodRoutes(RoutesOf(b.routes, a)) && RoutesOf(b.routes, a).Keys <= names
  {
    var none: Routes := map[];
    assert Active(none) == map[];
  }

  lemma DownsChange(names: set<Name>, b: Book, a: Name, w: Withdrawal)
    requires RecordsSound(names, b) && a in names && Scheduled(w)
    ensures RecordsSound(names, b.(downs := b.downs[a := w]))
  {
    hide EscrowsSound, InvitesSound, RequestsSound, RoutesSound;
  }

  lemma RoutesChange(names: set<Name>, b: Book, a: Name, r: Routes)
    requires RecordsSound(names, b) && a in names && GoodRoutes(r) && r.Keys <= names
    ensures RecordsSound(names, b.(routes := b.routes[a := r]))
  {
    hide EscrowsSound, InvitesSound, RequestsSound, DownsSound, GoodRoutes;
  }

  lemma WithRouteNames(rs: Routes, to: nat, percent: nat, autoVest: bool, names: set<Name>)
    requires WithRoute(rs, to, percent, autoVest).Some? && rs.Keys <= names && to in names
    ensures WithRoute(rs, to, percent, autoVest).value.Keys <= names
  {
  }

  /** Shares turned into tokens for `a`. */
  function Unvest(v: Pool, a: Name, shares: int): (r: Pool)
    requires a in v.accs
    ensures r.accs.Keys == v.accs.Keys
  {
    var t := TokensFor(v.fund, v.total, shares);
    Pool(Credit(v.accs, a, t), v.fund - t, v.total - shares)
  }

  function KindPart(rs: Routes, amount: nat, to: nat, autoVest: bool): nat
    requires to in rs
  {
    if rs[to].autoVest == autoVest then Part(amount, rs[to]) else 0
  }

  /** The routes that deposit shares, in the order of their destinations. */
  function DepositAll(accs: Accounts, rs: Routes, amount: nat, left: set<nat>): (r: Accounts)
    requires left <= accs.Keys && left <= rs.Keys
    ensures r.Keys == accs.Keys
    decreases left
  {
    if left == {} then accs
    else
      var to := Least(left);
      DepositAll(Grant(accs, to, KindPart(rs, amount, to, true)), rs, amount, left - {to})
  }

  /** The routes that pay tokens; each payment changes the price for the next by its rounding. */
  function PayAll(v: Pool, rs: Routes, amount: nat, left: set<nat>): (r: Pool)
    requires left <= v.accs.Keys && left <= rs.Keys
    ensures r.accs.Keys == v.accs.Keys
    decreases left
  {
    if left == {} then v
    else
      var to := Least(left);
      PayAll(Unvest(v, to, KindPart(rs, amount, to, false)), rs, amount, left - {to})
  }

  lemma PartIs(rs: Routes, amount: nat, to: nat, autoVest: bool)
    requires to in rs
    ensures PartOf(rs, amount, autoVest)(to) == KindPart(rs, amount, to, autoVest)
  {
  }

  /** Each destination of a route that deposits shares gets exactly its percentage of them. */
  lemma {:induction false} DepositAllAt(accs: Accounts, rs: Routes, amount: nat, left: set<nat>, x: Name)
    requires left <= accs.Keys && left <= rs.Keys && x in accs
    ensures DepositAll(accs, rs, amount, left)[x] ==
            accs[x].(shares := accs[x].shares +
                if x in left && rs[x].autoVest then amount * rs[x].percent / 10000 else 0)
    decreases left
  {
    if left != {} {
      var to := Least(left);
      DepositAllAt(Grant(accs, to, KindPart(rs, amount, to, true)), rs, amount, left - {to}, x);
    }
  }

  /** Paying tokens leaves the shares of the accounts alone. */
  lemma {:induction false} PayAllShares(v: Pool, rs: Routes, amount: nat, left: set<nat>, x: Name)
    requires left <= v.accs.Keys && left <= rs.Keys && x in v.accs
    ensures PayAll(v, rs, amount, left).accs[x].shares == v.accs[x].shares
    decreases left
  {
    if left != {} {
      var to := Least(left);
      PayAllShares(Unvest(v, to, KindPart(rs, amount, to, false)), rs, amount, left - {to}, x);
    }
  }

  /** The destinations served before `x`. */
  function Before(left: set<nat>, x: Name): set<nat> { set y | y in left && y < x }

  /** The state in which `x` is paid: a share is worth no less than at first, and enough are left. */
  lemma {:induction false} PayAllPrice(v: Pool, rs: Routes, amount: nat, left: set<nat>, x: Name)
    requires left <= v.accs.Keys && left <= Active(rs).Keys && x in left
    requires Backed(v.fund, v.total) && Sum(left, PartOf(rs, amount, false)) <= v.total
    ensures Before(left, x) <= left
    ensures var p := PayAll(v, rs, amount, Before(left, x));
            && Backed(p.fund, p.total) && NotCheaper(v.fund, v.total, p.fund, p.total)
            && PartOf(rs, amount, false)(x) <= p.total <= v.total
    decreases left
  {
    hide Backed, NotCheaper, TokensFor, PartOf, Part;
    var to := Least(left);
    RoutedLeft(rs, amount, left, to, false);
    PartIs(rs, amount, to, false);
    if x == to {
      assert Before(left, x) == {};
      NotCheaperSelf(v.fund, v.total);
    } else {
      var part := KindPart(rs, amount, to, false);
      var v' := Unvest(v, to, part);
      WithdrawKeeps(v.fund, v.total, part);
      PayAllPrice(v', rs, amount, left - {to}, x);
      BeforeNext(left, to, x);
      var p := PayAll(v', rs, amount, Before(left - {to}, x));
      FallingValue(v.fund, v.total, v'.fund, v'.total, p.fund, p.total);
    }
  }

  /** The least destination is the first one served, also among those before `x`. */
  lemma BeforeNext(left: set<nat>, to: nat, x: Name)
    requires to in left && x in left && to != x && forall y :: y in left ==> to <= y
    ensures Before(left, x) != {} && Least(Before(left, x)) == to
    ensures Before(left, x) - {to} == Before(left - {to}, x)
  {
    assert to in Before(left, x);
  }

  /** Each destination of a route that pays tokens gets its percentage at the price when its turn comes. */
  lemma {:induction false} PayAllAt(v: Pool, rs: Routes, amount: nat, left: set<nat>, x: Name)
    requires left <= v.accs.Keys && left <= rs.Keys && x in v.accs
    ensures Before(left, x) <= left
    ensures PayAll(v, rs, amount, left).accs[x] ==
            v.accs[x].(balance := v.accs[x].balance +
                if x in left && !rs[x].autoVest then
                  var p := PayAll(v, rs, amount, Before(left, x));
                  TokensFor(p.fund, p.total, amount * rs[x].percent / 10000)
                else 0)
    decreases left
  {
    if left != {} {
      var to := Least(left);
      var v' := Unvest(v, to, KindPart(rs, amount, to, false));
      PayAllAt(v', rs, amount, left - {to}, x);
      if x == to {
        assert Before(left, x) == {};
      } else if x in left {
        BeforeNext(left, to, x);
      }
    }
  }

  /** One interval of a withdrawal: what is not routed comes to the account as tokens. */
  ghost function Withdrawn(v: Pool, a: Name, rs: Routes, amount: nat): Pool
    requires a in v.accs && rs.Keys <= v.accs.Keys
  {
    var ids := Active(rs).Keys;
    var paid := PayAll(v.(accs := DepositAll(v.accs, rs, amount, ids)), rs, amount, ids);
    Unvest(paid.(accs := Grant(paid.accs, a, 0 - amount)), a,
        amount - Routed(rs, amount, true) - Routed(rs, amount, false))
  }

  lemma {:induction false} PayAllValue(v: Pool, rs: Routes, amount: nat, left: set<nat>)
    requires left <= v.accs.Keys && left <= Active(rs).Keys
    requires Backed(v.fund, v.total) && Sum(left, PartOf(rs, amount, false)) <= v.total
    ensures var p := PayAll(v, rs, amount, left);
            && Backed(p.fund, p.total) && NotCheaper(v.fund, v.total, p.fund, p.total)
            && p.total == v.total - Sum(left, PartOf(rs, amount, false))
    decreases left
  {
    hide Backed, NotCheaper, TokensFor, PartOf, Part;
    if left == {} {
      NotCheaperSelf(v.fund, v.total);
    } else {
      var to := Least(left);
      RoutedLeft(rs, amount, left, to, false);
      PartIs(rs, amount, to, false);
      var part := KindPart(rs, amount, to, false);
      var v' := Unvest(v, to, part);
      WithdrawKeeps(v.fund, v.total, part);
      PayAllValue(v', rs, amount, left - {to});
      var p := PayAll(v', rs, amount, left - {to});
      SumOfNothingLess(rs, amount, left - {to});
      FallingValue(v.fund, v.total, v'.fund, v'.total, p.fund, p.total);
    }
  }

  lemma SumOfNothingLess(rs: Routes, amount: nat, left: set<nat>)
    requires left <= Active(rs).Keys
    ensures Sum(left, PartOf(rs, amount, false)) >= 0
  {
    RoutedParts(rs, amount, left);
  }

  /**
   What one interval brings to `x`: as shares, its part if a route to it deposits them; as tokens, no
   less than its part is worth before, if a route pays them; the account `a` gives up all of `amount`,
   and has what no route takes paid as tokens too.
   */
  ghost predicate SteppedDown(v: Pool, v': Pool, a: Name, rs: Routes, amount: nat, x: Name)
    requires x in v.accs && x in v'.accs
  {
    var u, u' := v.accs[x], v'.accs[x];
    var part := if x in rs && x != FIRST then amount * rs[x].percent / 10000 else 0;
    var kept := if x == a then amount - Sum(Active(rs).Keys, AnyPart(rs, amount)) else 0;
    var routed := if x in rs && !rs[x].autoVest then part else 0;
    && u' == u.(shares := u'.shares, balance := u'.balance)
    && u'.shares == u.shares + (if x in rs && rs[x].autoVest then part else 0) - (if x == a then amount else 0)
    && u'.balance >= u.balance + TokensFor(v.fund, v.total, routed) + TokensFor(v.fund, v.total, kept)
    && (routed == 0 && x != a ==> u'.balance == u.balance)
  }

  lemma NoTokens(fund: int, total: int)
    requires Backed(fund, total)
    ensures TokensFor(fund, total, 0) == 0
  {
    WithdrawKeeps(fund, total, 0);
    if fund > 0 {
      DivUnique(0, total, 0);
    }
  }

  /** What a route of tokens brings. */
  lemma RoutePays(v: Pool, rs: Routes, amount: nat, x: Name)
    requires rs.Keys <= v.accs.Keys && x in v.accs
    requires Backed(v.fund, v.total) && Routed(rs, amount, false) <= v.total
    ensures var r, ids := PayAll(v, rs, amount, Active(rs).Keys), Active(rs).Keys;
            var part := if x in ids && !rs[x].autoVest then amount * rs[x].percent / 10000 else 0;
            && r.accs[x] == v.accs[x].(balance := r.accs[x].balance)
            && r.accs[x].balance >= v.accs[x].balance + TokensFor(v.fund, v.total, part)
            && (part == 0 ==> r.accs[x].balance == v.accs[x].balance)
  {
    var ids := Active(rs).Keys;
    PayAllAt(v, rs, amount, ids, x);
    NoTokens(v.fund, v.total);
    if x in ids && !rs[x].autoVest {
      PayAllPrice(v, rs, amount, ids, x);
      PartsOfOne(rs, amount, x);
      var p := PayAll(v, rs, amount, Before(ids, x));
      NoTokens(p.fund, p.total);
      hide PayAll, TokensFor, Backed, NotCheaper;
      DearerPays(v.fund, v.total, p.fund, p.total, amount * rs[x].percent / 10000);
    }
  }

  /** What the account itself gives up and gets. */
  lemma FinishedAt(p: Pool, a: Name, amount: nat, rest: int, x: Name)
    requires a in p.accs && x in p.accs
    ensures Unvest(p.(accs := Grant(p.accs, a, 0 - amount)), a, rest).accs[x] ==
            if x == a then
              p.accs[x].(shares := p.accs[x].shares - amount,
                         balance := p.accs[x].balance + TokensFor(p.fund, p.total, rest))
            else p.accs[x]
  {
  }

  /** All routes together: what they leave is still there, and worth no less. */
  lemma RoutesServed(v: Pool, rs: Routes, amount: nat, x: Name)
    requires rs.Keys <= v.accs.Keys && x in v.accs
    requires Backed(v.fund, v.total) && Percent(rs) <= 10000 && amount <= v.total
    ensures var ids := Active(rs).Keys;
            var p := PayAll(v.(accs := DepositAll(v.accs, rs, amount, ids)), rs, amount, ids);
            var u, u' := v.accs[x], p.accs[x];
            var part := if x in ids then amount * rs[x].percent / 10000 else 0;
            var asTokens := if x in ids && !rs[x].autoVest then part else 0;
            && u' == u.(shares := u.shares + (if x in ids && rs[x].autoVest then part else 0), balance := u'.balance)
            && u'.balance >= u.balance + TokensFor(v.fund, v.total, asTokens)
            && (asTokens == 0 ==> u'.balance == u.balance)
            && var rest := amount - Sum(ids, AnyPart(rs, amount));
               rest == amount - Routed(rs, amount, true) - Routed(rs, amount, false)
               && TokensFor(v.fund, v.total, rest) <= TokensFor(p.fund, p.total, rest)
  {
    hide PayAll, DepositAll, TokensFor, Backed, NotCheaper, Sum, PartOf, Percent, AnyPart, Part;
    var ids := Active(rs).Keys;
    RoutedAtMost(rs, amount);
    RoutedBoth(rs, amount);
    DepositAllAt(v.accs, rs, amount, ids, x);
    var w := v.(accs := DepositAll(v.accs, rs, amount, ids));
    RoutePays(w, rs, amount, x);
    PayAllValue(w, rs, amount, ids);
    var p := PayAll(w, rs, amount, ids);
    DearerPays(v.fund, v.total, p.fund, p.total, amount - Routed(rs, amount, true) - Routed(rs, amount, false));
  }

  lemma WithdrawnAt(v: Pool, a: Name, rs: Routes, amount: nat, x: Name)
    requires a in v.accs && rs.Keys <= v.accs.Keys && x in v.accs
    requires Backed(v.fund, v.total) && Percent(rs) <= 10000 && amount <= v.total
    ensures SteppedDown(v, Withdrawn(v, a, rs, amount), a, rs, amount, x)
  {
    hide PayAll, DepositAll, TokensFor, Backed, Sum, PartOf, Percent, Unvest, Grant, Routed, AnyPart;
    var ids := Active(rs).Keys;
    RoutesServed(v, rs, amount, x);
    NoTokens(v.fund, v.total);
    var p := PayAll(v.(accs := DepositAll(v.accs, rs, amount, ids)), rs, amount, ids);
    FinishedAt(p, a, amount, amount - Routed(rs, amount, true) - Routed(rs, amount, false), x);
  }

  ghost predicate AllSteppedDown(v: Pool, v': Pool, a: Name, rs: Routes, amount: nat)
  {
    && v'.accs.Keys == v.accs.Keys
    && forall x {:trigger SteppedDown(v, v', a, rs, amount, x)} :: x in v.accs ==>
        SteppedDown(v, v', a, rs, amount, x)
  }

  lemma AllWithdrawnAt(v: Pool, a: Name, rs: Routes, amount: nat)
    requires a in v.accs && rs.Keys <= v.accs.Keys
    requires Backed(v.fund, v.total) && Percent(rs) <= 10000 && amount <= v.total
    ensures AllSteppedDown(v, Withdrawn(v, a, rs, amount), a, rs, amount)
  {
    hide Backed, Percent, SteppedDown, PayAll, DepositAll, Routed, Grant, Active;
    forall x | x in v.accs ensures SteppedDown(v, Withdrawn(v, a, rs, amount), a, rs, amount, x) {
      WithdrawnAt(v, a, rs, amount, x);
    }
  }

  // ----- Sales -----

  /** The fee for a sale is due while the account has no seller. */
  function FeePaid(accs: Accounts, a: Name, fee: int): (r: Accounts)
    requires a in accs
    ensures r.Keys == accs.Keys && r[a].sale == accs[a].sale
  {
    if accs[a].sale.seller == NOBODY then Credit(accs, a, -fee) else accs
  }

  /** The sale changes to `s`; the standing bid is returned before, if it is to be dropped. */
  function Offering(accs: Accounts, a: Name, drop: bool, s: Sale): (r: Accounts)
    requires a in accs && (drop ==> accs[a].sale.bidder in accs)
    ensures r.Keys == accs.Keys
  {
    PutSale(if drop then Refunded(accs, a) else accs, a, s)
  }

  lemma OfferingAt(accs: Accounts, a: Name, fee: int, back: bool, s: Sale, x: Name)
    requires a in accs && (back ==> accs[a].sale.bidder in accs) && x in accs
    ensures var bid := if back && x == accs[a].sale.bidder then accs[a].sale.bid else 0;
            Offering(FeePaid(accs, a, fee), a, back, s)[x] ==
            accs[x].(balance := accs[x].balance + bid - (if x == a && accs[a].sale.seller == NOBODY then fee else 0),
                     reserved := accs[x].reserved - bid, sale := if x == a then s else accs[x].sale)
  {
    hide WithoutBid;
    if back {
      RefundedAt(FeePaid(accs, a, fee), a, x);
      hide Refunded;
    }
  }

  lemma OfferingMade(accs: Accounts, a: Name, fee: int, back: bool, s: Sale)
    requires a in accs && (back ==> accs[a].sale.bidder in accs)
    ensures var r := Offering(FeePaid(accs, a, fee), a, back, s); OfferMade(accs, r, a, fee, back) && r[a].sale == s
  {
    hide Offering, FeePaid;
    var r := Offering(FeePaid(accs, a, fee), a, back, s);
    OfferingAt(accs, a, fee, back, s, a);
    forall x | x in accs
      ensures Gets(accs, r, x, (if back && x == accs[a].sale.bidder then accs[a].sale.bid else 0) -
                               (if x == a && accs[a].sale.seller == NOBODY then fee else 0),
                   -if back && x == accs[a].sale.bidder then accs[a].sale.bid else 0, 0)
      ensures x != a ==> r[x].sale == accs[x].sale
    {
      OfferingAt(accs, a, fee, back, s, x);
    }
  }

  lemma PurchasedMade(accs: Accounts, buyer: Name, a: Name, price: int, tokens: int, shares: int)
    requires buyer in accs && a in accs && accs[a].sale.seller in accs
    ensures var r := Purchased(accs, buyer, a, price, tokens, shares);
            PurchaseMade(accs, r, a, buyer, price, tokens, shares) && r[a].sale == Bought(accs[a].sale)
  {
    hide Bought;
  }

  function Kept(s: Sale, drop: bool): Sale { if drop then WithoutBid(s) else s }

  /** Payments leave sales alone. */
  lemma PaymentKeepsSale(accs: Accounts, buyer: Name, seller: Name, a: Name, price: int, tokens: int, shares: int)
    requires buyer in accs && seller in accs && a in accs
    ensures Grant(Credit(Credit(Credit(accs, buyer, -price), seller, price), buyer, -tokens), a,
            shares)[a].sale == accs[a].sale
  {
  }

  /** A direct purchase: the buyer pays the seller and adds a stake to the account. */
  function Purchased(accs: Accounts, buyer: Name, a: Name, price: int, tokens: int, shares: int): (r: Accounts)
    requires buyer in accs && a in accs && accs[a].sale.seller in accs
    ensures r.Keys == accs.Keys
  {
    var s := accs[a].sale;
    PutSale(Grant(Credit(Credit(Credit(accs, buyer, -price), s.seller, price), buyer, -tokens), a, shares), a,
        Bought(s))
  }

  function Endowed(accs: Accounts, from: Name, a: Name, tokens: int, shares: int): Accounts
    requires from in accs
  {
    Grant(Put(Credit(accs, from, -tokens), a, NewAccount), a, shares)
  }

  lemma NothingYet(accs: Accounts, names: set<Name>, b: Book, awards: seq<Awards.Record>)
    requires accs == map[] && names == {} && awards == [] && b == Book(map[], map[], map[], map[], map[])
    ensures AllGood(accs, names) && Held(accs) == 0 && AllShares(accs) == 0
    ensures EscrowTotal(b.escrows) == 0 && InviteTotal(b.invites) == 0 && RecordsSound(names, b)
    ensures Awards.SumRecords(awards) == 0
  {
  }

  /** What an account weighs: its shares, with `borrowed` for what it has received less what it has lent. */
  function Effective(v: Account, borrowed: int): nat { Positive(v.shares + borrowed) }

  /** How a new account comes with delegated shares: `free` and `energy` are what its creator has. */
  datatype Opening = Opening(delegation: nat, free: int, energy: int)

  /** Fee and delegation together are worth at least `ratio` times the least fee. */
  predicate OpeningSuffices(o: Opening, fee: int, ratio: int, leastFee: int, fund: int, total: int)
  {
    && o.free >= o.delegation && (o.delegation > 0 ==> o.energy >= 0)
    && SharesFor(fund, total, ratio * fee) + o.delegation >= SharesFor(fund, total, ratio * leastFee)
  }

  // ----- Operations -----

  datatype Op =
    | CreateAccountOp(creator: Name, a: Name, fee: int, opening: Opening, ratio: int, leastFee: int)
    | TransferOp(from: Name, to: Name, amount: int, memo: Option<Name>, fee: int)
    | TransferToVestingOp(from: Name, to: Name, amount: int)
    | PayFeeOp(a: Name, fee: int)
    | EscrowTransferOp(from: Name, to: Name, agent: Name, id: nat, tokens: int, fee: int, deadline: int,
        expiration: int)
    | EscrowApproveOp(from: Name, to: Name, agent: Name, who: Name, id: nat, approve: bool)
    | EscrowDisputeOp(from: Name, to: Name, agent: Name, id: nat)
    | EscrowReleaseOp(from: Name, to: Name, agent: Name, who: Name, receiver: Name, id: nat, amount: int)
    | CreateInviteOp(creator: Name, key: nat, amount: int, least: int)
    | ClaimInviteOp(initiator: Name, receiver: Name, key: nat)
    | VestInviteOp(initiator: Name, receiver: Name, key: nat)
    | RegisterByInviteOp(initiator: Name, a: Name, key: nat)
    | AwardOp(initiator: Name, receiver: Name, energy: int, used: nat, borrowed: int, threshold: nat,
        bens: seq<Beneficiary>)
    | FixedAwardOp(initiator: Name, receiver: Name, reward: nat, energy: int, limit: nat, borrowed: int, threshold: nat,
                   bens: seq<Beneficiary>)
    | SetAccountPriceOp(a: Name, seller: Name, price: int, onSale: bool, fee: int)
    | TargetAccountSaleOp(a: Name, seller: Name, target: Name, price: int, onSale: bool, fee: int)
    | SetSubaccountPriceOp(a: Name, seller: Name, price: int, onSale: bool, fee: int)
    | BuyAccountOp(buyer: Name, a: Name, price: int, tokens: int, fee: int, clock: int)
    | BuySubaccountOp(buyer: Name, parent: Name, a: Name, price: int, tokens: int, fee: int)
    | RequestRecoveryOp(a: Name, request: Option<nat>)
    | RecordMasterOp(a: Name, master: nat, recent: bool)
    | RecoverAccountOp(a: Name, master: nat, former: nat)
    | WithdrawVestingOp(a: Name, amount: int, delegated: int, intervals: int)
    | SetRouteOp(from: Name, to: Name, percent: nat, autoVest: bool)
    | TickStep(time: int)
    | ExpireAwardsStep
    | ProcessFundsStep(producer: Name, witnessPercent: nat, committeeRatio: nat)
    | ProcessWithdrawalsStep(order: seq<Name>)
    | ExpireEscrowsStep
    | ExpireAuctionsStep
    | ClearSpecialStep
    | CreateRequestOp(creator: Name, worker: Name, url: nat, duration: int, min: nat, most: nat, fee: int)
    | VoteRequestOp(voter: Name, id: nat, share: int)
    | CancelRequestOp(creator: Name, id: nat)
    | SetPlanOp(a: Name, plan: Plan, fee: int)
    | SubscribeOp(subscriber: Name, creator: Name, level: nat, price: int, period: Days, renews: bool)
    | ConcludeRequestStep(id: nat, sway: nat -> nat, minPercent: nat)
    | PayRequestsStep
    | RenewStep(due: seq<(Name, Name)>)
    | ClearUsedInvitesStep(before: int)
    | ClearClosedRequestsStep(before: int)

  /** What the validation of the operations guarantees, and the consensus about fees and percentages. */
  predicate Validated(op: Op)
  {
    match op
    case CreateAccountOp(_, _, fee, _, _, _) => fee >= 0
    case TransferOp(_, _, amount, _, _) => amount > 0
    case TransferToVestingOp(_, _, amount) => amount > 0
    case PayFeeOp(_, fee) => fee >= 0
    case EscrowTransferOp(_, _, _, _, tokens, fee, _, _) => tokens >= 0 && fee >= 0
    case EscrowApproveOp(_, to, agent, who, _, _) => who == to || who == agent
    case EscrowReleaseOp(_, _, _, _, _, _, amount) => amount > 0
    case CreateInviteOp(_, _, _, least) => least >= 0
    case AwardOp(_, _, _, _, _, _, bens) => Weights(bens) <= 10000
    case FixedAwardOp(_, _, reward, _, _, _, _, bens) => reward > 0 && Weights(bens) <= 10000
    case SetAccountPriceOp(_, _, price, _, fee) => price > 0 && fee >= 0
    case TargetAccountSaleOp(_, _, _, price, _, fee) => price > 0 && fee >= 0
    case SetSubaccountPriceOp(_, _, price, _, fee) => price > 0 && fee >= 0
    case BuyAccountOp(_, _, price, tokens, _, _) => price > 0 && tokens > 0
    case BuySubaccountOp(_, _, _, price, tokens, _) => price > 0 && tokens > 0
    case WithdrawVestingOp(_, amount, _, intervals) => amount >= 0 && intervals > 0
    case SetRouteOp(_, _, percent, _) => percent <= 10000
    case ProcessFundsStep(_, witnessPercent, committeeRatio) => witnessPercent <= 10000 && committeeRatio <= 10000
    case CreateRequestOp(_, _, _, _, _, _, fee) => fee >= 0
    case VoteRequestOp(_, _, percent) => -10000 <= percent <= 10000
    case SetPlanOp(_, plan, fee) => plan.amount > 0 && fee >= 0
    case SubscribeOp(_, _, _, price, _, _) => price > 0
    case _ => true
  }

  /** A fixed award pays its beneficiaries more than the reward it was made for. */
  predicate Overpays(op: Op, claim: nat)
  {
    op.FixedAwardOp? && Parts(op.bens, claim) > op.reward
  }

  /** What it creates: the excess. */
  function Excess(op: Op, claim: nat): (n: nat)
    ensures n > 0 <==> Overpays(op, claim)
  {
    if Overpays(op, claim) then Parts(op.bens, claim) - op.reward else 0
  }

  /** What a run creates, if `claims` is what its accepted fixed awards claimed. */
  ghost function TotalExcess(ops: seq<Op>, claims: seq<nat>): nat
    requires |claims| == |ops|
  {
    if ops == [] then 0
    else
      var n := |ops| - 1;
      TotalExcess(ops[..n], claims[..n]) + Excess(ops[n], claims[n])
  }

  /** It is nothing exactly when no award overpays. */
  lemma {:induction false} NothingCreated(ops: seq<Op>, claims: seq<nat>)
    requires |claims| == |ops|
    ensures TotalExcess(ops, claims) == 0 <==> forall i :: 0 <= i < |ops| ==> !Overpays(ops[i], claims[i])
    decreases |ops|
  {
    if ops != [] {
      var n := |ops| - 1;
      NothingCreated(ops[..n], claims[..n]);
    }
  }

  lemma ExcessNext(ops: seq<Op>, claims: seq<nat>, i: nat, claim: nat)
    requires i < |ops| && |claims| == i
    ensures TotalExcess(ops[..i + 1], claims + [claim]) == TotalExcess(ops[..i], claims) + Excess(ops[i], claim)
  {
    assert ops[..i + 1][..i] == ops[..i] && (claims + [claim])[..i] == claims;
  }

  ghost predicate AllPositive(totals: seq<int>)
  {
    forall i :: 0 <= i < |totals| ==> totals[i] > 0
  }

  lemma PositiveBefore(totals: seq<int>, x: int)
    ensures AllPositive(totals + [x]) ==> AllPositive(totals)
  {
    if AllPositive(totals + [x]) {
      forall i | 0 <= i < |totals| ensures totals[i] > 0 {
        assert (totals + [x])[i] > 0;
      }
    }
  }

  class Ledger {
    const nullAccount: Name
    const anonymous: Name
    const committee: Name
    var now: int
    var names: set<Name>
    var accounts: Accounts
    var subSales: map<Name, SubSale>
    var downs: map<Name, Withdrawal>
    var routes: map<Name, Routes>
    var recovering: map<Name, nat>          // the master authority each open request asks for
    var lastRecovery: map<Name, int>
    var history: set<(Name, nat)>           // master authorities that accounts had lately
    var escrows: map<EscrowId, Escrow>
    var invites: map<nat, Invite>
    var requests: map<nat, Request>
    var requestCount: nat
    var plans: map<Name, Plan>
    var subscriptions: map<(Name, Name), Subscription>
    var supply: int
    var vestingFund: int
    var vestingShares: int
    var rewardFund: int
    var rewardShares: int
    var awards: seq<Awards.Record>
    var committeeFund: int
    ghost var minted: nat           // paid by fixed awards out of nothing

    ghost function Records(): Book
      reads this
    {
      Book(escrows, invites, requests, downs, routes)
    }

    /** Every token is somewhere. */
    ghost predicate Conserved()
      reads this
    {
      supply + minted ==
        Held(accounts) + EscrowTotal(escrows) + InviteTotal(invites) + vestingFund + rewardFund + committeeFund
    }

    /** The account table is sound; its shares add up to the total, and the vesting fund stands behind them. */
    ghost predicate Stakes()
      reads this
    {
      AllGood(accounts, names) && AllShares(accounts) == vestingShares && Backed(vestingFund, vestingShares)
    }

    ghost predicate Valid()
      reads this
    {
      && Conserved() && Stakes() && RecordsSound(names, Records())
      && nullAccount in names && anonymous in names && committee in names
      && rewardFund >= 0 && rewardShares == Awards.SumRecords(awards) && committeeFund >= 0
    }

    /** In every such state, what an account has reserved is the sum of its standing bids. */
    lemma ReservedIsBids(x: Name)
      requires Valid() && x in names
      ensures accounts[x].reserved == BidsOf(accounts, x) && Sound(accounts[x].sale, names)
    {
      assert Matched(accounts, x);
      SaleFacts(accounts, names, x);
    }

    constructor (nullAccount: Name, anonymous: Name, committee: Name, founder: Name, tokens: nat)
      requires NOBODY !in {nullAccount, anonymous, committee, founder}
      ensures Valid() && names == {nullAccount, anonymous, committee, founder} && supply == tokens && minted == 0
      ensures this.nullAccount == nullAccount && this.anonymous == anonymous && this.committee == committee
      ensures vestingFund == vestingShares == rewardFund == rewardShares == committeeFund == 0 && awards == []
      ensures now == 0 && recovering == map[] && lastRecovery == map[]
      ensures founder in accounts && accounts[founder] == NewAccount.(balance := tokens)
    {
      hide Held, AllShares, EscrowTotal, InviteTotal, AllGood, RecordsSound, Awards.SumRecords;
      this.nullAccount, this.anonymous, this.committee := nullAccount, anonymous, committee;
      now, names, accounts, subSales, downs, routes := 0, {}, map[], map[], map[], map[];
      recovering, lastRecovery, history := map[], map[], {};
      escrows, invites, requests, requestCount, plans, subscriptions := map[], map[], map[], 0, map[], map[];
      supply, vestingFund, vestingShares, rewardFund, rewardShares, committeeFund, minted := tokens, 0, 0, 0, 0, 0, 0;
      awards := [];
      new;
      NothingYet(accounts, names, Records(), awards);
      FirstAccounts(founder);
      AdjustBalance(founder, tokens);
    }

    /** The accounts of the genesis state. */
    method FirstAccounts(founder: Name)
      requires Stakes() && RecordsSound(names, Records()) && names == {}
      requires NOBODY !in {nullAccount, anonymous, committee, founder}
      modifies this`accounts, this`names
      ensures Stakes() && RecordsSound(names, Records())
      ensures names == {nullAccount, anonymous, committee, founder} && Held(accounts) == Held(old(accounts))
      ensures founder in accounts && accounts[founder] == NewAccount
    {
      hide AllGood, AllShares, Held, RecordsSound, Backed;
      AddFirst(founder, founder);
      AddFirst(nullAccount, founder);
      AddFirst(anonymous, founder);
      AddFirst(committee, founder);
    }

    /** An account of the genesis state, unless it is there already; the one of the founder stays new. */
    method AddFirst(a: Name, ghost founder: Name)
      requires Stakes() && RecordsSound(names, Records()) && a != NOBODY
      requires (founder !in names && a == founder) ||
               (founder in names && founder in accounts && accounts[founder] == NewAccount)
      modifies this`accounts, this`names
      ensures Stakes() && RecordsSound(names, Records())
      ensures names == old(names) + {a} && Held(accounts) == Held(old(accounts))
      ensures founder in accounts && accounts[founder] == NewAccount
    {
      hide Held, AllShares, AllFields, AllMatched, RecordsSound, Backed;
      if a !in names {
        AddAccount(a);
      }
    }

    /** A share is worth no less than before. */
    twostate predicate ValueKept()
      reads this
    {
      NotCheaper(old(vestingFund), old(vestingShares), vestingFund, vestingShares)
    }

    // ----- Building blocks -----

    /** create_vesting: the value of a share does not fall. */
    method CreateVesting(a: Name, tokens: int)
      requires Stakes() && a in names && tokens >= 0
      modifies this`accounts, this`vestingFund, this`vestingShares
      ensures Stakes()
      ensures var s := SharesFor(old(vestingFund), old(vestingShares), tokens);
              accounts == Grant(old(accounts), a, s) && vestingShares == old(vestingShares) + s &&
                  vestingFund == old(vestingFund) + tokens
      ensures Held(accounts) == Held(old(accounts))
      ensures ValueKept() && vestingShares >= old(vestingShares)
    {
      hide Held, AllShares, AllFields, AllMatched;
      var s := SharesFor(vestingFund, vestingShares, tokens);
      DepositKeeps(vestingFund, vestingShares, tokens);
      AtMostAllShares(accounts, names, a);
      GrantKeeps(accounts, names, a, s);
      accounts := Grant(accounts, a, s);
      vestingFund, vestingShares := vestingFund + tokens, vestingShares + s;
    }

    /** adjust_balance. */
    method AdjustBalance(a: Name, delta: int)
      requires Stakes() && a in names
      modifies this`accounts
      ensures Stakes()
      ensures accounts == Credit(old(accounts), a, delta) && Held(accounts) == Held(old(accounts)) + delta
    {
      hide Held, AllShares, AllFields, AllMatched;
      CreditKeeps(accounts, names, a, delta);
      accounts := Credit(accounts, a, delta);
    }

    /** An account without anything. */
    method AddAccount(a: Name)
      requires Stakes() && RecordsSound(names, Records()) && a !in names && a != NOBODY
      modifies this`accounts, this`names
      ensures Stakes() && RecordsSound(names, Records())
      ensures names == old(names) + {a} && accounts == Put(old(accounts), a, NewAccount) &&
              Held(accounts) == Held(old(accounts))
    {
      hide Held, AllShares, AllFields, AllMatched, RecordsSound;
      AddKeeps(accounts, names, a);
      MoreNames(names, a, Records());
      accounts, names := Put(accounts, a, NewAccount), names + {a};
    }

    /** A new account, with a stake that `from` pays for. */
    method Endow(from: Name, a: Name, tokens: int)
      requires Valid() && from in names && a !in names && a != NOBODY && tokens >= 0
      modifies this`accounts, this`names, this`vestingFund, this`vestingShares
      ensures Valid()
      ensures names == old(names) + {a} && vestingFund == old(vestingFund) + tokens
      ensures accounts == Endowed(old(accounts), from, a, tokens,
              SharesFor(old(vestingFund), old(vestingShares), tokens))
      ensures ValueKept()
    {
      hide Held, AllShares, EscrowTotal, InviteTotal, AllFields, AllMatched, RecordsSound, NotCheaper;
      AdjustBalance(from, -tokens);
      AddAccount(a);
      CreateVesting(a, tokens);
    }

    /** A stake for `a`, that `from` pays for. */
    method Stake(from: Name, a: Name, tokens: int)
      requires Valid() && from in names && a in names && tokens >= 0
      modifies this`accounts, this`vestingFund, this`vestingShares
      ensures Valid() && vestingFund == old(vestingFund) + tokens
      ensures accounts == Grant(Credit(old(accounts), from, -tokens), a,
              SharesFor(old(vestingFund), old(vestingShares), tokens))
      ensures ValueKept()
    {
      hide Held, AllShares, EscrowTotal, InviteTotal, AllFields, AllMatched, RecordsSound, Backed, SharesFor,
          NotCheaper;
      AdjustBalance(from, -tokens);
      CreateVesting(a, tokens);
    }

    /** The sale of `a` changes, but not the standing bid. */
    method ChangeSale(a: Name, s: Sale)
      requires Valid() && a in names && Sound(s, names) && s.bidder == accounts[a].sale.bidder &&
               s.bid == accounts[a].sale.bid
      modifies this`accounts
      ensures Valid() && accounts == PutSale(old(accounts), a, s)
    {
      hide Held, AllShares, EscrowTotal, InviteTotal, AllFields, AllMatched, RecordsSound, Backed;
      PutSaleKeeps(accounts, names, a, s);
      accounts := PutSale(accounts, a, s);
    }

    // ----- Accounts and transfers -----

    /** account_create: the fee becomes the first stake of the new account. */
    method CreateAccount(creator: Name, a: Name, fee: int, o: Opening, ratio: int, leastFee: int) returns (ok: bool)
      requires Valid() && fee >= 0
      modifies this`accounts, this`names, this`vestingFund, this`vestingShares
      ensures Valid() && ValueKept()
      ensures ok == (&& creator in old(names) && a !in old(names) && a != NOBODY &&
              old(accounts)[creator].balance >= fee
                     && OpeningSuffices(o, fee, ratio, leastFee, old(vestingFund), old(vestingShares)))
      ensures !ok ==> names == old(names) && accounts == old(accounts)
      ensures vestingFund == old(vestingFund) + if ok then fee else 0
      ensures ok ==> names == old(names) + {a} &&
                     accounts == Endowed(old(accounts), creator, a, fee,
                         SharesFor(old(vestingFund), old(vestingShares), fee))
    {
      hide Held, AllShares, EscrowTotal, InviteTotal, AllFields, AllMatched, RecordsSound, NotCheaper, OpeningSuffices;
      NotCheaperSelf(vestingFund, vestingShares);
      if creator !in names || a in names || a == NOBODY || accounts[creator].balance < fee {
        return false;
      }
      if !OpeningSuffices(o, fee, ratio, leastFee, vestingFund, vestingShares) {
        return false;
      }
      Endow(creator, a, fee);
      return true;
    }

    /** A payment between accounts, for a subscription or a purchase. */
    method Pay(from: Name, to: Name, amount: int) returns (ok: bool)
      requires Valid() && amount >= 0
      modifies this`accounts
      ensures Valid()
      ensures ok == (from in names && to in names && old(accounts)[from].balance >= amount)
      ensures accounts == if ok then Credit(Credit(old(accounts), from, -amount), to, amount) else old(accounts)
    {
      hide Held, AllShares, EscrowTotal, InviteTotal, AllFields, AllMatched, RecordsSound;
      if from !in names || to !in names || accounts[from].balance < amount {
        return false;
      }
      AdjustBalance(from, -amount);
      AdjustBalance(to, amount);
      return true;
    }

    /** Fees go to the committee fund: for requests, paid subscriptions, witness declarations and sales. */
    method PayFee(a: Name, fee: int) returns (ok: bool)
      requires Valid() && fee >= 0
      modifies this`accounts, this`committeeFund
      ensures Valid()
      ensures ok == (a in names && old(accounts)[a].balance >= fee)
      ensures accounts == if ok then Credit(old(accounts), a, -fee) else old(accounts)
      ensures committeeFund == old(committeeFund) + if ok then fee else 0
    {
      hide Held, AllShares, EscrowTotal, InviteTotal, AllFields, AllMatched, RecordsSound;
      if a !in names || accounts[a].balance < fee {
        return false;
      }
      AdjustBalance(a, -fee);
      committeeFund := committeeFund + fee;
      return true;
    }

    /** transfer; a payment to the anonymous account with a memo creates the account `memo` with a stake instead. */
    method Transfer(from: Name, to: Name, amount: int, memo: Option<Name>, creationFee: int) returns (ok: bool)
      requires Valid() && amount > 0
      modifies this`accounts, this`names, this`vestingFund, this`vestingShares
      ensures Valid()
      ensures ok == (&& from in old(names) && to in old(names) && old(accounts)[from].balance >= amount
                     && (to == anonymous ==>
                         amount >= creationFee && (memo.Some? ==> memo.value !in old(names) && memo.value != NOBODY)))
      ensures !ok ==> names == old(names) && accounts == old(accounts) && vestingFund == old(vestingFund)
      ensures ok && (to != anonymous || memo.None?) ==>
                names == old(names) && vestingFund == old(vestingFund) &&
                accounts == Credit(Credit(old(accounts), from, -amount), to, amount)
      ensures ok && to == anonymous && memo.Some? ==>
                && names == old(names) + {memo.value} && vestingFund == old(vestingFund) + amount
                && accounts == Endowed(Credit(Credit(old(accounts), from, -amount), to, amount), to, memo.value, amount,
                                       SharesFor(old(vestingFund), old(vestingShares), amount))
      ensures ValueKept()
    {
      hide Held, AllShares, EscrowTotal, InviteTotal, AllFields, AllMatched, RecordsSound, NotCheaper;
      NotCheaperSelf(vestingFund, vestingShares);
      if from !in names || to !in names || accounts[from].balance < amount {
        return false;
      }
      if to == anonymous && (amount < creationFee || (memo.Some? && (memo.value in names || memo.value == NOBODY))) {
        return false;
      }
      AdjustBalance(from, -amount);
      AdjustBalance(to, amount);
      if to == anonymous && memo.Some? {
        Endow(to, memo.value, amount);
      }
      return true;
    }

    method TransferToVesting(from: Name, to: Name, amount: int) returns (ok: bool)
      requires Valid() && amount > 0
      modifies this`accounts, this`vestingFund, this`vestingShares
      ensures Valid()
      ensures var receiver := if to == NOBODY then from else to;
              && ok == (from in names && receiver in names && old(accounts)[from].balance >= amount)
              && vestingFund == old(vestingFund) + (if ok then amount else 0)
              && accounts == if ok then Grant(Credit(old(accounts), from, -amount), receiver,
                  SharesFor(old(vestingFund), old(vestingShares), amount))
                             else old(accounts)
      ensures ValueKept()
    {
      hide Held, AllShares, EscrowTotal, InviteTotal, AllFields, AllMatched, RecordsSound, NotCheaper;
      NotCheaperSelf(vestingFund, vestingShares);
      var receiver := if to == NOBODY then from else to;
      if from !in names || receiver !in names || accounts[from].balance < amount {
        return false;
      }
      Stake(from, receiver, amount);
      return true;
    }

    // ----- Escrows -----

    method EscrowTransfer(from: Name, to: Name, agent: Name, id: nat, tokens: int, fee: int, deadline: int,
                          expiration: int) returns (ok: bool)
      requires Valid() && tokens >= 0 && fee >= 0
      modifies this`accounts, this`escrows
      ensures Valid()
      ensures ok == ({from, to, agent} <= names && deadline > now && expiration > now &&
              old(accounts)[from].balance >= tokens + fee &&
                     (from, id) !in old(escrows))
      ensures accounts == if ok then Credit(old(accounts), from, -(tokens + fee)) else old(accounts)
      ensures escrows == if ok then old(escrows)[(from, id) :=
                           Escrow(to, agent, tokens, fee, false, false, false, deadline, expiration)]
                         else old(escrows)
    {
      hide Held, AllShares, EscrowTotal, InviteTotal, AllFields, AllMatched, RecordsSound;
      if from !in names || to !in names || agent !in names || deadline <= now || expiration <= now ||
         accounts[from].balance < tokens + fee || (from, id) in escrows {
        return false;
      }
      var e := Escrow(to, agent, tokens, fee, false, false, false, deadline, expiration);
      EscrowPut(escrows, (from, id), e);
      EscrowsChange(names, Records(), (from, id), e);
      AdjustBalance(from, -(tokens + fee));
      escrows := escrows[(from, id) := e];
      return true;
    }

    /** escrow_approve: a rejection returns everything to the payer. */
    method EscrowApprove(from: Name, to: Name, agent: Name, who: Name, id: nat, approve: bool) returns (ok: bool)
      requires Valid() && (who == to || who == agent)
      modifies this`accounts, this`escrows
      ensures Valid()
      ensures ok == ((from, id) in old(escrows) &&
                     var e := old(escrows)[(from, id)];
                     && e.to == to && e.agent == agent && e.deadline >= now
                     && (who == to ==> !e.toApproved) && (who == agent ==> !e.agentApproved))
      ensures !ok ==> accounts == old(accounts) && escrows == old(escrows)
      ensures ok ==> var e := old(escrows)[(from, id)];
                     if approve then
                       && escrows == old(escrows)[(from, id) := WithApproval(e, who)]
                       && accounts == Credit(old(accounts), agent, e.fee - WithApproval(e, who).fee)
                       && ApprovalPays(e, escrows[(from, id)], who, old(accounts), accounts)
                     else
                       && escrows == old(escrows) - {(from, id)}
                       && accounts == Credit(old(accounts), from, e.tokens + e.fee)
    {
      hide Held, AllShares, EscrowTotal, InviteTotal, AllFields, AllMatched, RecordsSound;
      var k := (from, id);
      if k !in escrows {
        return false;
      }
      var e := escrows[k];
      EscrowFacts(names, Records(), k);
      if e.to != to || e.agent != agent || e.deadline < now || (who == to && e.toApproved) ||
         (who == agent && e.agentApproved) {
        return false;
      }
      var r := WithApproval(e, who);
      EscrowsChange(names, Records(), k, r);
      if !approve {
        EscrowRemove(escrows, k);
        AdjustBalance(from, e.tokens + e.fee);
        escrows := escrows - {k};
      } else {
        EscrowPut(escrows, k, r);
        AdjustBalance(agent, e.fee - r.fee);
        escrows := escrows[k := r];
      }
      return true;
    }

    method EscrowDispute(from: Name, to: Name, agent: Name, id: nat) returns (ok: bool)
      requires Valid()
      modifies this`escrows
      ensures Valid()
      ensures ok == ((from, id) in old(escrows) &&
                     var e := old(escrows)[(from, id)];
                     now < e.expiration && Approved(e) && !e.disputed && e.to == to && e.agent == agent)
      ensures escrows == if ok then old(escrows)[(from,
              id) := old(escrows)[(from, id)].(disputed := true)] else old(escrows)
    {
      hide Held, AllShares, EscrowTotal, InviteTotal, AllFields, AllMatched, RecordsSound;
      var k := (from, id);
      if k !in escrows {
        return false;
      }
      var e := escrows[k];
      if now >= e.expiration || !Approved(e) || e.disputed || e.to != to || e.agent != agent {
        return false;
      }
      EscrowFacts(names, Records(), k);
      EscrowsChange(names, Records(), k, e.(disputed := true));
      EscrowPut(escrows, k, e.(disputed := true));
      escrows := escrows[k := e.(disputed := true)];
      return true;
    }

    /** escrow_release: the escrow is removed once it is empty; no fee can be lost with it. */
    method EscrowRelease(from: Name, to: Name, agent: Name, who: Name, receiver: Name, id: nat, amount: int)
      returns (ok: bool)
      requires Valid() && amount > 0
      modifies this`accounts, this`escrows
      ensures Valid()
      ensures ok == ((from, id) in old(escrows) &&
                     var e := old(escrows)[(from, id)];
                     e.tokens >= amount && e.to == to && e.agent == agent && MayRelease(from, e, who, receiver, now))
      ensures ok ==> (who, receiver) in ReleaseRights(from, old(escrows)[(from, id)], now)
      ensures !ok && (from, id) in old(escrows) ==>
                var e := old(escrows)[(from, id)];
                e.tokens < amount || e.to != to || e.agent != agent || (who, receiver) !in ReleaseRights(from, e, now)
      ensures !ok ==> accounts == old(accounts) && escrows == old(escrows)
      ensures ok ==> var e := old(escrows)[(from, id)];
                     && accounts == Credit(old(accounts), receiver, amount)
                     && escrows == if e.tokens == amount then old(escrows) - {(from, id)}
                                   else old(escrows)[(from, id) := e.(tokens := e.tokens - amount)]
    {
      hide Held, AllShares, EscrowTotal, InviteTotal, AllFields, AllMatched, RecordsSound;
      var k := (from, id);
      if k !in escrows {
        return false;
      }
      var e := escrows[k];
      EscrowFacts(names, Records(), k);
      ReleaseRightsAre(from, e, who, receiver, now);
      hide ReleaseRights;
      if e.tokens < amount || e.to != to || e.agent != agent || !MayRelease(from, e, who, receiver, now) {
        return false;
      }
      var r := e.(tokens := e.tokens - amount);
      EscrowsChange(names, Records(), k, r);
      EscrowRemove(escrows, k);
      EscrowPut(escrows, k, r);
      AdjustBalance(receiver, amount);
      escrows := if r.tokens == 0 then escrows - {k} else escrows[k := r];
      return true;
    }

    // ----- Invites -----

    method CreateInvite(creator: Name, key: nat, amount: int, least: int) returns (ok: bool)
      requires Valid() && least >= 0
      modifies this`accounts, this`invites
      ensures Valid()
      ensures ok == (creator in names && old(accounts)[creator].balance >= amount && amount >= least &&
              key !in old(invites))
      ensures accounts == if ok then Credit(old(accounts), creator, -amount) else old(accounts)
      ensures invites == if ok then old(invites)[key := Invite(creator, 0, amount, 0)] else old(invites)
    {
      hide Held, AllShares, EscrowTotal, InviteTotal, AllFields, AllMatched, RecordsSound;
      if creator !in names || accounts[creator].balance < amount || amount < least || key in invites {
        return false;
      }
      InvitePut(invites, key, Invite(creator, 0, amount, 0));
      InvitesChange(names, Records(), key, Invite(creator, 0, amount, 0));
      AdjustBalance(creator, -amount);
      invites := invites[key := Invite(creator, 0, amount, 0)];
      return true;
    }

    /** The invite is marked as used; its balance has to go somewhere. */
    method UseInvite(key: nat, status: nat) returns (tokens: int)
      requires RecordsSound(names, Records()) && key in invites && status != 0
      modifies this`invites
      ensures RecordsSound(names, Records())
      ensures tokens == old(invites)[key].balance >= 0 && InviteTotal(invites) == InviteTotal(old(invites)) - tokens
      ensures invites == old(invites)[key := old(invites)[key].(status := status, balance := 0, claimTime := now)]
    {
      hide InviteTotal, RecordsSound;
      tokens := invites[key].balance;
      InviteFacts(names, Records(), key);
      var used := invites[key].(status := status, balance := 0, claimTime := now);
      InvitePut(invites, key, used);
      InvitesChange(names, Records(), key, used);
      invites := invites[key := used];
    }

    /** claim_invite_balance: to the balance of the receiver. */
    method ClaimInvite(initiator: Name, receiver: Name, key: nat) returns (ok: bool)
      requires Valid()
      modifies this`accounts, this`invites
      ensures Valid()
      ensures ok == (initiator in names && receiver in names && key in old(invites) && old(invites)[key].status == 0)
      ensures !ok ==> accounts == old(accounts) && invites == old(invites)
      ensures ok ==> && accounts == Credit(old(accounts), receiver, old(invites)[key].balance)
                     && invites == old(invites)[key := old(invites)[key].(status := 1, balance := 0, claimTime := now)]
    {
      hide Held, AllShares, EscrowTotal, InviteTotal, AllFields, AllMatched, RecordsSound;
      if initiator !in names || receiver !in names || key !in invites || invites[key].status != 0 {
        return false;
      }
      var tokens := UseInvite(key, 1);
      AdjustBalance(receiver, tokens);
      return true;
    }

    /** use_invite_balance: to the stake of the receiver. */
    method VestInvite(initiator: Name, receiver: Name, key: nat) returns (ok: bool)
      requires Valid()
      modifies this`accounts, this`invites, this`vestingFund, this`vestingShares
      ensures Valid()
      ensures ok == (initiator in names && receiver in names && key in old(invites) && old(invites)[key].status == 0)
      ensures !ok ==> accounts == old(accounts) && invites == old(invites) && vestingFund == old(vestingFund)
      ensures ok ==> var tokens := old(invites)[key].balance;
                     && accounts == Grant(old(accounts), receiver,
                         SharesFor(old(vestingFund), old(vestingShares), tokens))
                     && vestingFund == old(vestingFund) + tokens
                     && invites == old(invites)[key := old(invites)[key].(status := 3, balance := 0, claimTime := now)]
      ensures ValueKept()
    {
      hide Held, AllShares, EscrowTotal, InviteTotal, AllFields, AllMatched, RecordsSound, NotCheaper;
      NotCheaperSelf(vestingFund, vestingShares);
      if initiator !in names || receiver !in names || key !in invites || invites[key].status != 0 {
        return false;
      }
      var tokens := UseInvite(key, 3);
      CreateVesting(receiver, tokens);
      return true;
    }

    /** invite_registration: to the stake of a new account. */
    method RegisterByInvite(initiator: Name, a: Name, key: nat) returns (ok: bool)
      requires Valid()
      modifies this`accounts, this`names, this`invites, this`vestingFund, this`vestingShares
      ensures Valid()
      ensures ok == (initiator in old(names) && a !in old(names) && a != NOBODY && key in old(invites) &&
              old(invites)[key].status == 0)
      ensures !ok ==>
              names == old(names) && accounts == old(accounts) && invites == old(invites) &&
              vestingFund == old(vestingFund)
      ensures ok ==> var tokens := old(invites)[key].balance;
                     && names == old(names) + {a}
                     && accounts == Grant(Put(old(accounts), a, NewAccount), a,
                         SharesFor(old(vestingFund), old(vestingShares), tokens))
                     && vestingFund == old(vestingFund) + tokens
                     && invites == old(invites)[key := old(invites)[key].(status := 2, balance := 0, claimTime := now)]
      ensures ValueKept()
    {
      hide Held, AllShares, EscrowTotal, InviteTotal, AllFields, AllMatched, RecordsSound, NotCheaper, Backed,
          Grant, SharesFor;
      NotCheaperSelf(vestingFund, vestingShares);
      if initiator !in names || a in names || a == NOBODY || key !in invites || invites[key].status != 0 {
        return false;
      }
      var tokens := UseInvite(key, 2);
      AddAccount(a);
      CreateVesting(a, tokens);
      return true;
    }

    /** clear_used_invites: nothing is lost with them. */
    method ClearUsedInvites(before: int)
      requires Valid()
      modifies this`invites
      ensures Valid()
      ensures invites == map k | k in old(invites) &&
              !(old(invites)[k].status != 0 && before > old(invites)[k].claimTime) :: old(invites)[k]
    {
      hide Held, AllShares, EscrowTotal, InviteTotal, AllFields, AllMatched, RecordsSound;
      var keys := set k | k in invites && invites[k].status != 0 && before > invites[k].claimTime;
      ghost var all, was := keys, invites;
      while keys != {}
        invariant Valid() && keys <= all
        invariant invites == was - (all - keys)
        decreases keys
      {
        var k :| k in keys;
        InviteFacts(names, Records(), k);
        InviteRemove(invites, k);
        InvitesChange(names, Records(), k, invites[k]);
        invites := invites - {k};
        keys := keys - {k};
      }
    }

    // ----- Awards -----

    ghost function Vested(): Pool
      reads this
    {
      Pool(accounts, vestingFund, vestingShares)
    }

    method PayBeneficiaries(bens: seq<Beneficiary>, tokens: nat) returns (total: nat)
      requires Stakes() && Known(bens, names)
      modifies this`accounts, this`vestingFund, this`vestingShares
      ensures Stakes() && Held(accounts) == Held(old(accounts))
      ensures total == Parts(bens, tokens) && vestingFund == old(vestingFund) + total
      ensures Vested() == VestAll(old(Vested()), bens, tokens)
      ensures ValueKept() && vestingShares >= old(vestingShares)
    {
      hide Held, AllShares, AllFields, AllMatched, Backed, NotCheaper;
      total := 0;
      var i := 0;
      ghost var f0, v0 := vestingFund, vestingShares;
      NotCheaperSelf(f0, v0);
      assert bens[..0] == [];
      while i < |bens|
        invariant i <= |bens| && Stakes() && Held(accounts) == Held(old(accounts))
        invariant total == Parts(bens[..i], tokens) && vestingFund == old(vestingFund) + total
        invariant Vested() == VestAll(old(Vested()), bens[..i], tokens)
        invariant NotCheaper(f0, v0, vestingFund, vestingShares) && vestingShares >= v0
      {
        ghost var f1, v1 := vestingFund, vestingShares;
        var part := PartFor(bens[i], tokens);
        assert bens[..i + 1][..i] == bens[..i];
        CreateVesting(bens[i].account, part);
        RisingValue(f0, v0, f1, v1, vestingFund, vestingShares);
        total := total + part;
        i := i + 1;
      }
      assert bens[..i] == bens;
    }

    /** The beneficiaries share `tokens`; the receiver gets what they leave of `reward`, if anything. */
    method ShareOut(receiver: Name, tokens: nat, reward: nat, bens: seq<Beneficiary>) returns (total: nat)
      requires Stakes() && Known(bens, names) && receiver in names
      modifies this`accounts, this`vestingFund, this`vestingShares
      ensures Stakes() && Held(accounts) == Held(old(accounts))
      ensures total == Parts(bens, tokens) && vestingFund == old(vestingFund) + if total < reward then reward else total
      ensures Vested() == SharedOut(old(Vested()), receiver, tokens, reward, bens)
      ensures AllVested(old(Vested()), Vested(), AwardPayments(bens, tokens, receiver, reward))
      ensures ValueKept()
      ensures vestingShares >= old(vestingShares)
    {
      hide Held, AllShares, AllFields, AllMatched, Backed, Parts, VestAll, SharesFor, Known, NotCheaper, AllVested;
      NotCheaperSelf(vestingFund, vestingShares);
      SharedOutAt(Vested(), receiver, tokens, reward, bens);
      ghost var f0, v0 := vestingFund, vestingShares;
      total := PayBeneficiaries(bens, tokens);
      if total < reward {
        ghost var f1, v1 := vestingFund, vestingShares;
        CreateVesting(receiver, reward - total);
        RisingValue(f0, v0, f1, v1, vestingFund, vestingShares);
      }
    }

    /** claim_rshare_award: the shares are paid by the curve, and compete with later ones until they expire. */
    method ClaimAward(rshares: nat) returns (tokens: nat)
      requires rshares > 0 && rewardFund >= 0 && rewardShares == Awards.SumRecords(awards)
      modifies this`rewardFund, this`rewardShares, this`awards
      ensures tokens == Awards.Award(old(rewardFund), old(rewardShares), rshares)
      ensures rewardFund == old(rewardFund) - tokens >= 0
      ensures rewardShares == old(rewardShares) + rshares == Awards.SumRecords(awards)
      ensures awards == old(awards) + [Awards.Record(now + REGENERATION, rshares)]
    {
      hide Awards.Award;
      tokens := Awards.Award(rewardFund, rewardShares, rshares);
      rewardFund, rewardShares := rewardFund - tokens, rewardShares + rshares;
      awards := awards + [Awards.Record(now + REGENERATION, rshares)];
      assert awards[..|awards| - 1] == old(awards);
    }

    /** The reward shares an award is worth, if the initiator has the energy for it. */
    function AwardShares(initiator: Name, energy: int, used: nat, borrowed: int): Option<nat>
      reads this
    {
      if initiator !in names || initiator !in accounts || energy <= 0 || used > energy then None
      else Some(Awards.Sway(Effective(accounts[initiator], borrowed), used))
    }

    /** award, with `used` of the `energy` of the initiator; below the accounting limit it is worth nothing. */
    method Award(initiator: Name, receiver: Name, energy: int, used: nat, borrowed: int, least: nat,
                 bens: seq<Beneficiary>)
      returns (ok: bool)
      requires Valid() && Weights(bens) <= 10000
      modifies this`accounts, this`vestingFund, this`vestingShares, this`rewardFund, this`rewardShares, this`awards
      ensures Valid()
      ensures rewardShares == Awards.SumRecords(awards)
      ensures ok == (receiver in names && old(AwardShares(initiator, energy, used, borrowed)).Some? &&
                     var n := old(AwardShares(initiator, energy, used, borrowed)).value;
                     n >= least ==>
                       n > 0 && (Awards.Award(old(rewardFund), old(rewardShares), n) > 0 ==> Known(bens, names)))
      ensures !ok || old(AwardShares(initiator, energy, used, borrowed)).value < least ==>
                Vested() == old(Vested()) && rewardFund == old(rewardFund) && awards == old(awards)
      ensures ok && old(AwardShares(initiator, energy, used, borrowed)).value >= least ==>
                var n := old(AwardShares(initiator, energy, used, borrowed)).value;
                var tokens := Awards.Award(old(rewardFund), old(rewardShares), n);
                && rewardFund == old(rewardFund) - tokens && vestingFund == old(vestingFund) + tokens
                && awards == old(awards) + [Awards.Record(now + REGENERATION, n)]
                && receiver in names
                && (tokens > 0 ==> Known(bens, names))
                && (tokens > 0 ==> AllVested(old(Vested()), Vested(), AwardPayments(bens, tokens, receiver, tokens)))
                && Vested() == if tokens > 0 then SharedOut(old(Vested()), receiver, tokens, tokens, bens)
                               else old(Vested())
      ensures ValueKept()
    {
      hide Held, AllShares, EscrowTotal, InviteTotal, AllFields, AllMatched, RecordsSound, Backed, NotCheaper;
      NotCheaperSelf(vestingFund, vestingShares);
      hide Awards.Award, Awards.SumRecords, Awards.Sway, Parts, SharedOut, Known, Weights, AllVested, AwardPayments;
      var shares := AwardShares(initiator, energy, used, borrowed);
      if shares.None? || receiver !in names {
        return false;
      }
      var n := shares.value;
      if n < least {
        return true;
      }
      if n == 0 || (Awards.Award(rewardFund, rewardShares, n) > 0 && !Known(bens, names)) {
        return false;
      }
      var tokens := ClaimAward(n);
      if tokens > 0 {
        PartsAtMost(bens, tokens);
        var _ := ShareOut(receiver, tokens, tokens, bens);
      }
      return true;
    }

    /** The energy a fixed award uses and the shares it claims, if it is accepted. */
    function FixedShares(initiator: Name, receiver: Name, reward: nat, energy: int, limit: nat, borrowed: int,
                         least: nat, bens: seq<Beneficiary>): Option<Awards.Fixed>
      requires reward > 0
      reads this
    {
      if initiator in names && initiator in accounts && receiver in names && Known(bens, names) && rewardFund >= 0 &&
         rewardShares >= 0 then
        Awards.FixedShares(rewardFund, rewardShares, Effective(accounts[initiator], borrowed), energy, limit, reward,
            least)
      else None
    }

    /**
     fixed_award: the receiver asks for `reward`, the shares needed may earn a little more.  The
     beneficiaries share the whole claim, the receiver gets what they leave of `reward`, and the
     rest of the claim goes to the committee.  When they take more than `reward` the difference
     comes from nowhere.
     */
    method FixedAward(initiator: Name, receiver: Name, reward: nat, energy: int, limit: nat, borrowed: int, least: nat,
                      bens: seq<Beneficiary>) returns (ok: bool, ghost claim: nat)
      requires Valid() && reward > 0 && Weights(bens) <= 10000
      modifies this`accounts, this`vestingFund, this`vestingShares, this`rewardFund, this`rewardShares, this`awards
      modifies this`committeeFund, this`minted
      ensures Valid()
      ensures ok == old(FixedShares(initiator, receiver, reward, energy, limit, borrowed, least, bens)).Some?
      ensures !ok ==> Vested() == old(Vested()) && rewardFund == old(rewardFund) && awards == old(awards)
                      && committeeFund == old(committeeFund) && minted == old(minted) && claim == 0
      ensures ok ==> var n := old(FixedShares(initiator, receiver, reward, energy, limit, borrowed, least,
              bens)).value.rshares;
                     && n > 0 && claim == Awards.Award(old(rewardFund), old(rewardShares), n) >= reward
                     && rewardFund == old(rewardFund) - claim &&
                         awards == old(awards) + [Awards.Record(now + REGENERATION, n)]
                     && committeeFund == old(committeeFund) + (claim - reward)
                     && receiver in names && Known(bens, names)
                     && Vested() == SharedOut(old(Vested()), receiver, claim, reward, bens)
                     && AllVested(old(Vested()), Vested(), AwardPayments(bens, claim, receiver, reward))
                     && minted == old(minted) + if Parts(bens, claim) > reward then Parts(bens, claim) - reward else 0
      ensures ValueKept()
    {
      hide Held, AllShares, EscrowTotal, InviteTotal, AllFields, AllMatched, RecordsSound, Backed, NotCheaper;
      NotCheaperSelf(vestingFund, vestingShares);
      hide Awards.Award, Awards.FixedShares, Awards.SumRecords, Parts, SharedOut, Known, Weights, AllVested,
          AwardPayments;
      FixedAffordable(initiator, receiver, reward, energy, limit, borrowed, least, bens);
      var fixed := FixedShares(initiator, receiver, reward, energy, limit, borrowed, least, bens);
      claim := 0;
      if fixed.None? {
        return false, 0;
      }
      claim := PayFixed(receiver, reward, fixed.value.rshares, bens);
      return true, claim;
    }

    /** The claim is shared out, and the committee gets what it is more than the reward. */
    method PayFixed(receiver: Name, reward: nat, rshares: nat, bens: seq<Beneficiary>) returns (claim: nat)
      requires Valid() && receiver in names && Known(bens, names) && rshares > 0
      requires Awards.Award(rewardFund, rewardShares, rshares) >= reward
      modifies this`accounts, this`vestingFund, this`vestingShares, this`rewardFund, this`rewardShares, this`awards
      modifies this`committeeFund, this`minted
      ensures Valid() && claim == Awards.Award(old(rewardFund), old(rewardShares), rshares)
      ensures rewardFund == old(rewardFund) - claim
      ensures awards == old(awards) + [Awards.Record(now + REGENERATION, rshares)]
      ensures committeeFund == old(committeeFund) + (claim - reward)
      ensures Vested() == SharedOut(old(Vested()), receiver, claim, reward, bens)
      ensures AllVested(old(Vested()), Vested(), AwardPayments(bens, claim, receiver, reward))
      ensures minted == old(minted) + if Parts(bens, claim) > reward then Parts(bens, claim) - reward else 0
      ensures ValueKept()
    {
      hide Held, AllShares, EscrowTotal, InviteTotal, AllFields, AllMatched, RecordsSound, Backed, NotCheaper;
      hide Awards.Award, Awards.SumRecords, Parts, SharedOut, Known, AllVested, AwardPayments;
      claim := ClaimAward(rshares);
      var total := ShareOut(receiver, claim, reward, bens);
      minted := minted + if total > reward then total - reward else 0;
      committeeFund := committeeFund + (claim - reward);
      assert Stakes() && RecordsSound(names, Records());
      assert rewardFund >= 0 && committeeFund >= 0;
      assert Conserved();
    }

    /** What is accepted pays at least the reward, and only accounts there are. */
    lemma FixedAffordable(initiator: Name, receiver: Name, reward: nat, energy: int, limit: nat, borrowed: int,
                          least: nat, bens: seq<Beneficiary>)
      requires reward > 0
      ensures var f := FixedShares(initiator, receiver, reward, energy, limit, borrowed, least, bens);
              f.Some? ==> && receiver in names && Known(bens, names) && rewardFund >= 0 && rewardShares >= 0
                          && f.value.rshares > 0
                          && Awards.Award(rewardFund, rewardShares, f.value.rshares) >= reward
    {
    }

    /** expire_award_shares_processing: old awards no longer compete for the fund. */
    method ExpireAwards()
      requires Valid()
      modifies this`rewardShares, this`awards
      ensures Valid() && awards == Awards.Alive(old(awards), now)
    {
      hide Held, AllShares, EscrowTotal, InviteTotal, AllFields, AllMatched, RecordsSound, Backed, Awards.SumRecords,
          Awards.Alive;
      awards, rewardShares := Awards.DropExpired(awards, rewardShares, now);
    }

    // ----- Sales of accounts -----

    method PayFeeIfNew(a: Name, fee: int) returns (ok: bool)
      requires Valid() && a in names && fee >= 0
      modifies this`accounts, this`committeeFund
      ensures Valid()
      ensures ok == (old(accounts)[a].sale.seller == NOBODY ==> old(accounts)[a].balance >= fee)
      ensures accounts == if ok then FeePaid(old(accounts), a, fee) else old(accounts)
      ensures committeeFund == old(committeeFund) + if ok && old(accounts)[a].sale.seller == NOBODY then fee else 0
    {
      hide Held, AllShares, EscrowTotal, InviteTotal, AllFields, AllMatched, RecordsSound, Backed;
      ok := true;
      if accounts[a].sale.seller == NOBODY {
        ok := PayFee(a, fee);
      }
    }

    method ChangeOffer(a: Name, drop: bool, s: Sale)
      requires Valid() && a in names && (drop ==> accounts[a].sale.bidder in names) && Sound(s, names)
      requires s.bidder == Kept(accounts[a].sale, drop).bidder && s.bid == Kept(accounts[a].sale, drop).bid
      modifies this`accounts
      ensures Valid() && accounts == Offering(old(accounts), a, drop, s)
    {
      hide Held, AllShares, EscrowTotal, InviteTotal, AllFields, AllMatched, RecordsSound, Backed;
      if drop {
        RefundedKeeps(accounts, names, a);
        accounts := Refunded(accounts, a);
      }
      PutSaleKeeps(accounts, names, a, s);
      accounts := PutSale(accounts, a, s);
    }

    /** set_account_price. */
    method SetAccountPrice(a: Name, seller: Name, price: int, onSale: bool, fee: int) returns (ok: bool)
      requires Valid() && price > 0 && fee >= 0
      modifies this`accounts, this`committeeFund
      ensures Valid()
      ensures ok == (a in names && seller in names &&
              (old(accounts)[a].sale.seller == NOBODY ==> old(accounts)[a].balance >= fee))
      ensures !ok ==> accounts == old(accounts) && committeeFund == old(committeeFund)
      ensures ok ==> var s := old(accounts)[a].sale;
                     var drop := PriceDropsBid(s, price, onSale);
                     && (drop ==> s.bidder in names)
                     && accounts == Offering(FeePaid(old(accounts), a, fee), a, drop,
                         Offered(Kept(s, drop), seller, price, onSale, now))
                     && committeeFund == old(committeeFund) + if s.seller == NOBODY then fee else 0
      ensures ok ==> var s := old(accounts)[a].sale;
                     var back := s.bidder != NOBODY && !Stays(s, price, onSale, NOBODY);
                     && OfferMade(old(accounts), accounts, a, fee, back)
                     && OfferIs(s, accounts[a].sale, seller, price, onSale, s.target, back, now)
    {
      hide Held, AllShares, EscrowTotal, InviteTotal, AllFields, AllMatched, RecordsSound, Backed;
      if a !in names || seller !in names {
        return false;
      }
      SaleFacts(accounts, names, a);
      ghost var was := accounts;
      ok := PayFeeIfNew(a, fee);
      if ok {
        var s := accounts[a].sale;
        OfferSound(s, seller, price, onSale, now, names);
        var drop := PriceDropsBid(s, price, onSale);
        DropsIs(s, price, onSale, NOBODY, names);
        OfferingMade(was, a, fee, drop, Offered(Kept(s, drop), seller, price, onSale, now));
        OfferedIs(s, seller, price, onSale, s.target, drop, now);
        ChangeOffer(a, drop, Offered(Kept(s, drop), seller, price, onSale, now));
      }
    }

    /** target_account_sale. */
    method TargetAccountSale(a: Name, seller: Name, target: Name, price: int, onSale: bool, fee: int) returns (ok: bool)
      requires Valid() && price > 0 && fee >= 0
      modifies this`accounts, this`committeeFund
      ensures Valid()
      ensures ok == (&& a in names && seller in names && target in names
                     && (old(accounts)[a].sale.seller == NOBODY ==> old(accounts)[a].balance >= fee))
      ensures !ok ==> accounts == old(accounts) && committeeFund == old(committeeFund)
      ensures ok ==> var s := old(accounts)[a].sale;
                     var drop := TargetDropsBid(s, price, onSale, target);
                     && (drop ==> s.bidder in names)
                     && committeeFund == old(committeeFund) + (if s.seller == NOBODY then fee else 0)
                     && var offer := Offered(Kept(s, drop), seller, price, onSale, now);
                        accounts == Offering(FeePaid(old(accounts), a, fee), a, drop,
                                             offer.(target := if onSale then target else NOBODY))
      ensures ok ==> var s := old(accounts)[a].sale;
                     var back := s.bidder != NOBODY && !Stays(s, price, onSale, target);
                     && OfferMade(old(accounts), accounts, a, fee, back)
                     && OfferIs(s, accounts[a].sale, seller, price, onSale, if onSale then target else NOBODY, back,
                                now)
    {
      hide Held, AllShares, EscrowTotal, InviteTotal, AllFields, AllMatched, RecordsSound, Backed;
      if a !in names || seller !in names || target !in names {
        return false;
      }
      SaleFacts(accounts, names, a);
      ghost var was := accounts;
      ok := PayFeeIfNew(a, fee);
      if ok {
        var s := accounts[a].sale;
        TargetSound(s, seller, price, onSale, target, now, names);
        var drop := TargetDropsBid(s, price, onSale, target);
        DropsIs(s, price, onSale, target, names);
        OfferingMade(was, a, fee, drop, Offered(Kept(s, drop), seller, price, onSale,
            now).(target := if onSale then target else NOBODY));
        OfferedIs(s, seller, price, onSale, if onSale then target else NOBODY, drop, now);
        ChangeOffer(a, drop, Offered(Kept(s, drop), seller, price, onSale,
            now).(target := if onSale then target else NOBODY));
      }
    }

    /** What buy_account asks for before it looks at the price. */
    predicate MayBuy(buyer: Name, a: Name, tokens: int, creationFee: int)
      reads this
    {
      && buyer in names && tokens >= creationFee && a in names && a in accounts
      && accounts[a].sale.onSale && a !in recovering
      && (accounts[a].sale.target == NOBODY || accounts[a].sale.target == buyer)
    }

    /** The new bid `s` takes the place of the standing one on `a`. */
    method PlaceBid(a: Name, s: Sale)
      requires Valid() && a in names && Sound(s, names) && s.bidder in names
      modifies this`accounts
      ensures Valid()
      ensures var t := old(accounts)[a].sale;
              && (t.bidder != NOBODY ==> t.bidder in names)
              && var before := if t.bidder != NOBODY then Refunded(old(accounts), a) else old(accounts);
                 accounts == Credit(Pledge(before, a, s), s.bidder, -s.bid)
      ensures BidMade(old(accounts), accounts, a, s.bidder, s.bid) && accounts[a].sale == s
    {
      hide Held, AllShares, EscrowTotal, InviteTotal, AllFields, AllMatched, RecordsSound, Backed, BidMade;
      SaleFacts(accounts, names, a);
      BidPlaced(accounts, a, s);
      if accounts[a].sale.bidder != NOBODY {
        RefundedKeeps(accounts, names, a);
        accounts := Refunded(accounts, a);
      }
      PledgeKeeps(accounts, names, a, s);
      accounts := Pledge(accounts, a, s);
      CreditKeeps(accounts, names, s.bidder, -s.bid);
      accounts := Credit(accounts, s.bidder, -s.bid);
    }

    /**
     buy_account before the start of the sale: a bid, which has to beat the standing one; `clock`
     is the time of day.
     */
    method Bid(buyer: Name, a: Name, price: int, tokens: int, creationFee: int, clock: int) returns (ok: bool)
      requires Valid() && price > 0
      modifies this`accounts
      ensures Valid()
      ensures ok == (old(MayBuy(buyer, a, tokens, creationFee)) && old(accounts)[a].sale.start > now &&
              Beats(old(accounts)[a].sale, price))
      ensures !ok ==> accounts == old(accounts)
      ensures ok ==> var s := old(accounts)[a].sale;
                     && (s.bidder != NOBODY ==> s.bidder in names)
                     && var before := if s.bidder != NOBODY then Refunded(old(accounts), a) else old(accounts);
                        accounts == Credit(Pledge(before, a, WithBid(s, buyer, price, clock)), buyer, -price)
      ensures ok ==> && BidMade(old(accounts), accounts, a, buyer, price)
                     && BidIs(old(accounts)[a].sale, accounts[a].sale, buyer, price, clock)
    {
      hide Held, AllShares, EscrowTotal, InviteTotal, AllFields, AllMatched, RecordsSound, Backed, BidMade, Beats,
          LeastBid, WithBid, Sound, Credit, Pledge, Refunded;
      if !MayBuy(buyer, a, tokens, creationFee) || accounts[a].sale.start <= now {
        return false;
      }
      SaleFacts(accounts, names, a);
      BeatsIs(accounts[a].sale, price, names);
      if price < LeastBid(accounts[a].sale) {
        return false;
      }
      var s := accounts[a].sale;
      BidSound(s, buyer, price, clock, names);
      WithBidIs(s, buyer, price, clock);
      PlaceBid(a, WithBid(s, buyer, price, clock));
      return true;
    }

    method Purchase(buyer: Name, a: Name, price: int, tokens: int)
      requires Valid() && buyer in names && a in names && tokens >= 0 && price >= 0 && accounts[buyer].balance >= price
      requires accounts[a].sale.bidder == NOBODY && accounts[a].sale.onSale
      modifies this`accounts, this`vestingFund, this`vestingShares
      ensures Valid() && vestingFund == old(vestingFund) + tokens && old(accounts)[a].sale.seller in names
      ensures accounts == Purchased(old(accounts), buyer, a, price, tokens,
              SharesFor(old(vestingFund), old(vestingShares), tokens))
      ensures PurchaseMade(old(accounts), accounts, a, buyer, price, tokens,
                           SharesFor(old(vestingFund), old(vestingShares), tokens))
      ensures accounts[a].sale == Bought(old(accounts)[a].sale)
      ensures ValueKept()
    {
      hide Held, AllShares, EscrowTotal, InviteTotal, AllFields, AllMatched, RecordsSound, Backed, SharesFor, Credit,
          Grant, NotCheaper;
      var s := accounts[a].sale;
      SaleFacts(accounts, names, a);
      PaymentKeepsSale(accounts, buyer, s.seller, a, price, tokens, SharesFor(vestingFund, vestingShares, tokens));
      BoughtSound(s, names);
      PurchasedMade(accounts, buyer, a, price, tokens, SharesFor(vestingFund, vestingShares, tokens));
      var paid := Pay(buyer, s.seller, price);
      Stake(buyer, a, tokens);
      ChangeSale(a, Bought(s));
    }

    /** buy_account once the sale has started: only while there is no bid, at the price asked. */
    method BuyNow(buyer: Name, a: Name, price: int, tokens: int, creationFee: int) returns (ok: bool)
      requires Valid() && price > 0 && tokens > 0
      modifies this`accounts, this`vestingFund, this`vestingShares, this`subSales
      ensures Valid()
      ensures ok == (old(MayBuy(buyer, a, tokens, creationFee)) && var s := old(accounts)[a].sale;
                     s.start <= now && s.bidder == NOBODY && s.price == price &&
                         old(accounts)[buyer].balance >= price + tokens)
      ensures !ok ==> Vested() == old(Vested()) && subSales == old(subSales)
      ensures ok ==> && old(accounts)[a].sale.seller in names
                     && accounts == Purchased(old(accounts), buyer, a, price, tokens,
                         SharesFor(old(vestingFund), old(vestingShares), tokens))
                     && vestingFund == old(vestingFund) + tokens && subSales == old(subSales) - {a}
      ensures ok ==> var s, s' := old(accounts)[a].sale, accounts[a].sale;
                     && !s'.onSale && s'.seller == NOBODY && s'.bidder == NOBODY && s'.target == s.target
                     && PurchaseMade(old(accounts), accounts, a, buyer, price, tokens,
                                     SharesFor(old(vestingFund), old(vestingShares), tokens))
      ensures ValueKept()
    {
      hide Held, AllShares, EscrowTotal, InviteTotal, AllFields, AllMatched, RecordsSound, Backed, SharesFor,
          Purchased, NotCheaper;
      NotCheaperSelf(vestingFund, vestingShares);
      if !MayBuy(buyer, a, tokens, creationFee) {
        return false;
      }
      var s := accounts[a].sale;
      if s.start > now || s.bidder != NOBODY || s.price != price || accounts[buyer].balance < price + tokens {
        return false;
      }
      Purchase(buyer, a, price, tokens);
      subSales := subSales - {a};
      return true;
    }

    /** set_subaccount_price, with a fee while there is no seller. */
    method SetSubaccountPrice(a: Name, seller: Name, price: int, onSale: bool, fee: int) returns (ok: bool)
      requires Valid() && price > 0 && fee >= 0
      modifies this`accounts, this`committeeFund, this`subSales
      ensures Valid()
      ensures var due := a !in old(subSales) || old(subSales)[a].seller == NOBODY;
              && ok == (a in names && seller in names && (due ==> old(accounts)[a].balance >= fee))
              && accounts == (if ok && due then Credit(old(accounts), a, -fee) else old(accounts))
              && committeeFund == old(committeeFund) + (if ok && due then fee else 0)
              && subSales == if ok then old(subSales)[a := SubSale(seller, price, onSale)] else old(subSales)
    {
      hide Held, AllShares, EscrowTotal, InviteTotal, AllFields, AllMatched, RecordsSound, Backed;
      if a !in names || seller !in names {
        return false;
      }
      ok := true;
      if a !in subSales || subSales[a].seller == NOBODY {
        ok := PayFee(a, fee);
      }
      if ok {
        subSales := subSales[a := SubSale(seller, price, onSale)];
      }
    }

    /** buy_account for a subaccount `a` of `parent`, which is created. */
    method BuySubaccount(buyer: Name, parent: Name, a: Name, price: int, tokens: int, creationFee: int)
      returns (ok: bool)
      requires Valid() && price > 0 && tokens > 0
      modifies this`accounts, this`names, this`vestingFund, this`vestingShares
      ensures Valid()
      ensures ok == (&& buyer in old(names) && tokens >= creationFee && a !in old(names) && a != NOBODY
                     && parent in old(names)
                     && parent in subSales && subSales[parent].onSale && subSales[parent].seller in old(names)
                     && subSales[parent].price == price && old(accounts)[buyer].balance >= price + tokens)
      ensures !ok ==> names == old(names) && Vested() == old(Vested())
      ensures ok ==> && names == old(names) + {a} && vestingFund == old(vestingFund) + tokens
                     && var paid := Credit(Credit(old(accounts), buyer, -price), subSales[parent].seller, price);
                        accounts == Endowed(paid, buyer, a, tokens,
                                            SharesFor(old(vestingFund), old(vestingShares), tokens))
      ensures ValueKept()
    {
      hide Held, AllShares, EscrowTotal, InviteTotal, AllFields, AllMatched, RecordsSound, Backed, NotCheaper;
      NotCheaperSelf(vestingFund, vestingShares);
      if buyer !in names || tokens < creationFee || a in names || a == NOBODY || parent !in names {
        return false;
      }
      if parent !in subSales || !subSales[parent].onSale || subSales[parent].seller !in names ||
         subSales[parent].price != price {
        return false;
      }
      if accounts[buyer].balance < price + tokens {
        return false;
      }
      var paid := Pay(buyer, subSales[parent].seller, price);
      Endow(buyer, a, tokens);
      return true;
    }

    /** request_account_recovery; without an authority its cancellation or expiration.  No auction is won meanwhile. */
    method RequestRecovery(a: Name, master: Option<nat>)
      requires Valid()
      modifies this`recovering
      ensures Valid() &&
              recovering == if master.Some? then old(recovering)[a := master.value] else old(recovering) - {a}
    {
      hide Held, AllShares, EscrowTotal, InviteTotal, AllFields, AllMatched, RecordsSound, Backed;
      recovering := if master.Some? then recovering[a := master.value] else recovering - {a};
    }

    /** A master authority enters the history of an account, or leaves it after its time. */
    method RecordMaster(a: Name, master: nat, recent: bool)
      requires Valid()
      modifies this`history
      ensures Valid() && history == if recent then old(history) + {(a, master)} else old(history) - {(a, master)}
    {
      hide Held, AllShares, EscrowTotal, InviteTotal, AllFields, AllMatched, RecordsSound, Backed;
      history := if recent then history + {(a, master)} else history - {(a, master)};
    }

    /** recover_account: not within an hour, with the authority asked for, and one the account had lately. */
    method RecoverAccount(a: Name, master: nat, recent: nat) returns (ok: bool)
      requires Valid()
      modifies this`accounts, this`recovering, this`lastRecovery
      ensures Valid()
      ensures ok == (&& a in names && (a in old(lastRecovery) ==> now - old(lastRecovery)[a] > MASTER_UPDATE_LIMIT)
                     && a in old(recovering) && old(recovering)[a] == master && (a, recent) in history)
      ensures accounts == if ok then PutSale(old(accounts), a, Recovered(old(accounts)[a].sale)) else old(accounts)
      ensures ok ==> var s, s' := old(accounts)[a].sale, accounts[a].sale;
                     && !s'.onSale && s'.seller == NOBODY && s'.target == s.target
                     && s'.bidder == s.bidder && s'.bid == s.bid && s'.onAuction == s.onAuction
      ensures recovering == if ok then old(recovering) - {a} else old(recovering)
      ensures lastRecovery == if ok then old(lastRecovery)[a := now] else old(lastRecovery)
    {
      hide Held, AllShares, EscrowTotal, InviteTotal, AllFields, AllMatched, RecordsSound, Backed;
      if a !in names || (a in lastRecovery && now - lastRecovery[a] <= MASTER_UPDATE_LIMIT) {
        return false;
      }
      if a !in recovering || recovering[a] != master || (a, recent) !in history {
        return false;
      }
      SaleFacts(accounts, names, a);
      RecoveredSound(accounts[a].sale, names);
      ChangeSale(a, Recovered(accounts[a].sale));
      recovering, lastRecovery := recovering - {a}, lastRecovery[a := now];
      return true;
    }

    /** The end of one auction; the branches that cannot be reached say so. */
    method Settle(a: Name)
      requires Valid() && a in names && accounts[a].sale.onAuction
      modifies this`accounts, this`subSales
      ensures Valid()
      ensures old(accounts)[a].sale.bidder in names && Payee(old(accounts)[a].sale, a in recovering) in names
      ensures accounts == SettledTable(old(accounts), a, a in recovering)
      ensures AuctionOver(old(accounts), accounts, a, a in recovering)
      ensures subSales == if old(accounts)[a].sale.onSale && a !in recovering then old(subSales) - {a}
                          else old(subSales)
    {
      hide Held, AllShares, EscrowTotal, InviteTotal, AllFields, AllMatched, RecordsSound, Backed,
          SettledTable, AuctionOver;
      var s := accounts[a].sale;
      SaleFacts(accounts, names, a);
      SettledKeeps(accounts, names, a, a in recovering);
      SettledPays(accounts, a, a in recovering);
      var payee, after := s.bidder, s;
      if s.bidder == NOBODY {
        assert false;
      } else if s.target != NOBODY && s.bidder != s.target {
        assert false;
      } else if !s.onSale {
        assert s.recovered;
        after := WithoutBid(s);
      } else if s.bid < s.price {
        assert false;
      } else if a in recovering {
        after := CalledOff(s);
      } else {
        payee, after := s.seller, Sold(s);
        subSales := subSales - {a};
      }
      SettledIs(accounts, a, a in recovering, payee, after);
      accounts := PutSale(Credit(Release(accounts, a), payee, s.bid), a, after);
    }

    /** The next of the auctions that are over; those of `done` have been settled since `was`. */
    method SettleNext(a: Name, ghost was: Accounts, ghost done: set<Name>)
      requires Valid() && a in names && a !in done && AllSettled(was, accounts, names, done, recovering.Keys)
      requires a in was && was[a].sale.onAuction
      modifies this`accounts, this`subSales
      ensures Valid() && AllSettled(was, accounts, names, done + {a}, recovering.Keys)
      ensures subSales ==
              old(subSales) - (SoldOf(was, done + {a}, recovering.Keys) - SoldOf(was, done, recovering.Keys))
    {
      hide Conserved, AllGood, RecordsSound, AllSettled, SettledTable, Payee, AuctionOver;
      AllSettledSale(was, accounts, names, done, recovering.Keys, a);
      SameNames();
      ghost var before := accounts;
      Settle(a);
      AllSettledStep(was, before, names, done, recovering.Keys, a);
      SoldMore(was, done, recovering.Keys, a);
    }

    /** account_on_auction_expiration: every auction that is over gets settled, and nothing else happens. */
    method ExpireAuctions()
      requires Valid()
      modifies this`accounts, this`subSales
      ensures Valid()
      ensures AllSettled(old(accounts), accounts, names, Over(old(accounts), now), recovering.Keys)
      ensures subSales == old(subSales) - SoldOf(old(accounts), Over(old(accounts), now), recovering.Keys)
    {
      hide Conserved, RecordsSound, AllSettled, AllFields, AllMatched, AllShares, Backed;
      var left := Over(accounts, now);
      ghost var due, done, was := left, {}, accounts;
      AllSettledNone(accounts, names, recovering.Keys);
      while left != {}
        invariant Valid() && left <= due <= names && done == due - left
        invariant AllSettled(was, accounts, names, done, recovering.Keys)
        invariant subSales == old(subSales) - SoldOf(was, done, recovering.Keys)
        decreases left
      {
        var a :| a in left;
        SettleNext(a, was, done);
        left, done := left - {a}, done + {a};
        assert done == due - left;
      }
      assert done == due;
    }

    // ----- The end of a block -----

    /** Everything in an escrow goes back to its payer. */
    method ReturnEscrow(k: EscrowId)
      requires Valid() && k in escrows
      modifies this`accounts, this`escrows
      ensures Valid() && k.0 in names && escrows == old(escrows) - {k}
      ensures accounts == Credit(old(accounts), k.0, old(escrows)[k].tokens + old(escrows)[k].fee)
    {
      hide Held, AllShares, EscrowTotal, InviteTotal, AllFields, AllMatched, RecordsSound, Backed;
      var e := escrows[k];
      EscrowFacts(names, Records(), k);
      EscrowsChange(names, Records(), k, e);
      EscrowRemove(escrows, k);
      AdjustBalance(k.0, e.tokens + e.fee);
      escrows := escrows - {k};
    }

    /** expire_escrow_ratification: what was not approved in time goes back. */
    method ExpireEscrows()
      requires Valid()
      modifies this`accounts, this`escrows
      ensures Valid()
      ensures escrows == old(escrows) - Unratified(old(escrows), now)
      ensures AllPaid(old(accounts), accounts, names, Unratified(old(escrows), now), Payer(), Locked(old(escrows)))
    {
      hide Conserved, Stakes, RecordsSound, AllPaid, Credit;
      var left := Unratified(escrows, now);
      ghost var due, done, was, book := left, {}, accounts, escrows;
      NamesAre();
      AllPaidNone(accounts, names, Payer(), Locked(book));
      while left != {}
        invariant Valid() && left <= due <= book.Keys && done == due - left && escrows == book - done
        invariant AllPaid(was, accounts, names, done, Payer(), Locked(book))
        decreases left
      {
        var k :| k in left;
        ghost var before := accounts;
        NamesAre();
        ReturnEscrow(k);
        AllPaidStep(was, before, names, done, Payer(), Locked(book), k);
        left, done := left - {k}, done + {k};
        assert done == due - left;
      }
      assert done == due;
    }

    lemma NamesAre()
      requires Valid()
      ensures names == accounts.Keys
    {
    }

    /** committee_worker_create_request. */
    method CreateRequest(creator: Name, worker: Name, url: nat, duration: int, least: nat, most: nat, fee: int)
      returns (ok: bool)
      requires Valid() && fee >= 0
      modifies this`accounts, this`committeeFund, this`requests, this`requestCount
      ensures Valid()
      ensures ok == (&& creator in names && worker in names && old(accounts)[creator].balance >= fee
                     && !Repeats(old(requests), creator, url, now))
      ensures accounts == if ok then Credit(old(accounts), creator, -fee) else old(accounts)
      ensures committeeFund == old(committeeFund) + if ok then fee else 0
      ensures requestCount == old(requestCount) + if ok then 1 else 0
      ensures requests == if ok then old(requests)[requestCount :=
                            NewRequest(creator, worker, url, duration, least, most)]
                          else old(requests)
    {
      hide Held, AllShares, EscrowTotal, InviteTotal, AllFields, AllMatched, RecordsSound, Backed;
      if worker !in names || Repeats(requests, creator, url, now) {
        return false;
      }
      ok := PayFee(creator, fee);
      if ok {
        requestCount := requestCount + 1;
        RequestsChange(names, Records(), requestCount, NewRequest(creator, worker, url, duration, least, most));
        requests := requests[requestCount := NewRequest(creator, worker, url, duration, least, most)];
      }
    }

    function NewRequest(creator: Name, worker: Name, url: nat, duration: int, least: nat, most: nat): Request
      reads this
    {
      Request(creator, worker, url, now, now + duration, 0, least, most, 0, 0, map[], 0)
    }

    /** committee_vote_request: a vote on an open request, or a change of it. */
    method VoteRequest(voter: Name, id: nat, percent: int) returns (ok: bool)
      requires Valid() && -10000 <= percent <= 10000
      modifies this`requests
      ensures Valid()
      ensures ok == (&& voter in names && id in old(requests) && old(requests)[id].status == 0
                     && (voter in old(requests)[id].votes ==> old(requests)[id].votes[voter] != percent))
      ensures requests == if !ok then old(requests)
                          else var r := old(requests)[id]; old(requests)[id := r.(votes := r.votes[voter := percent])]
    {
      hide Held, AllShares, EscrowTotal, InviteTotal, AllFields, AllMatched, RecordsSound, Backed;
      if voter !in names || id !in requests || requests[id].status != 0 {
        return false;
      }
      if voter in requests[id].votes && requests[id].votes[voter] == percent {
        return false;
      }
      RequestFacts(names, Records(), id);
      ChangeRequest(id, requests[id].(votes := requests[id].votes[voter := percent]));
      return true;
    }

    method ChangeRequest(id: nat, r: Request)
      requires Valid() && RequestSound(names, r)
      modifies this`requests
      ensures Valid() && requests == old(requests)[id := r]
    {
      hide Held, AllShares, EscrowTotal, InviteTotal, AllFields, AllMatched, RecordsSound, Backed;
      RequestsChange(names, Records(), id, r);
      requests := requests[id := r];
    }

    /** committee_worker_cancel_request. */
    method CancelRequest(creator: Name, id: nat) returns (ok: bool)
      requires Valid()
      modifies this`requests
      ensures Valid()
      ensures ok == (creator in names && id in old(requests) && old(requests)[id].creator == creator &&
              old(requests)[id].status == 0)
      ensures requests == if ok then old(requests)[id := old(requests)[id].(status := 1, concluded := now)]
                          else old(requests)
    {
      hide Held, AllShares, EscrowTotal, InviteTotal, AllFields, AllMatched, RecordsSound, Backed;
      if creator !in names || id !in requests || requests[id].creator != creator || requests[id].status != 0 {
        return false;
      }
      RequestFacts(names, Records(), id);
      ChangeRequest(id, requests[id].(status := 1, concluded := now));
      return true;
    }

    /**
     The first part of committee_processing, for one request: its votes decide it once its time is
     over; `sway` gives the effective shares of the voters.
     */
    method ConcludeRequest(id: nat, sway: nat -> nat, minPercent: nat)
      requires Valid()
      modifies this`requests
      ensures Valid()
      ensures if id in old(requests) && old(requests)[id].status == 0 && old(requests)[id].end <= now then
                && Committee.GoodVotes(old(requests)[id].votes)
                && requests == old(requests)[id := Concluded(old(requests)[id], sway, vestingShares, minPercent, now)]
                && Decided(old(requests)[id], requests[id], sway, vestingShares, minPercent, now)
              else requests == old(requests)
    {
      hide Held, EscrowTotal, InviteTotal, AllFields, AllMatched, RecordsSound, Decided;
      if id in requests && requests[id].status == 0 && requests[id].end <= now {
        var r := requests[id];
        RequestFacts(names, Records(), id);
        var all, support := Committee.Tally(r.votes, sway);
        Committee.SupportAtMost(r.votes, sway);
        ConcludedDecides(r, sway, vestingShares, minPercent, now);
        Committee.ApprovedWithin(all, support, r.least, r.most, vestingShares, minPercent);
        var next := match Committee.Conclude(all, support, r.least, r.most, vestingShares, minPercent)
          case TooFewVotes => r.(status := 2, concluded := now)
          case Refused(_) => r.(status := 3, concluded := now)
          case Approved(payout) => r.(status := 4, concluded := now, remain := payout, paid := 0);
        ChangeRequest(id, next);
      }
    }

    /**
     clear_closed_committee_requests: what was cancelled or turned down is forgotten with its
     votes, so that the same can be asked for again; what was approved stays.
     */
    method ClearClosedRequests(before: int)
      requires Valid()
      modifies this`requests
      ensures Valid()
      ensures requests == map k | k in old(requests) && !Closed(old(requests)[k], before) :: old(requests)[k]
    {
      hide Held, AllShares, EscrowTotal, InviteTotal, AllFields, AllMatched, RecordsSound, Backed;
      var keys := set k | k in requests && Closed(requests[k], before);
      ghost var all, was := keys, requests;
      while keys != {}
        invariant Valid() && keys <= all
        invariant requests == was - (all - keys)
        decreases keys
      {
        var k :| k in keys;
        RequestsDrop(names, Records(), k);
        requests := requests - {k};
        keys := keys - {k};
      }
    }

    method PayRequest(k: nat, most: int)
      requires Valid() && k in requests && 0 <= most <= committeeFund
      modifies this`accounts, this`requests, this`committeeFund
      ensures Valid() && old(requests)[k].worker in names
      ensures var r := old(requests)[k];
              && requests == old(requests)[k := PaidRequest(r, most)]
              && accounts == Credit(old(accounts), r.worker, Payment(r, most))
              && committeeFund == old(committeeFund) - Payment(r, most)
    {
      hide Held, AllShares, EscrowTotal, InviteTotal, AllFields, AllMatched, RecordsSound, Backed;
      var r := requests[k];
      RequestFacts(names, Records(), k);
      RequestsChange(names, Records(), k, PaidRequest(r, most));
      AdjustBalance(r.worker, Payment(r, most));
      committeeFund := committeeFund - Payment(r, most);
      requests := requests[k := PaidRequest(r, most)];
    }

    /** The payments of committee_processing: an equal part of the fund is kept back, so it is never overdrawn. */
    method PayRequests()
      requires Valid()
      modifies this`accounts, this`requests, this`committeeFund
      ensures Valid()
      ensures var due := Payable(old(requests));
              var most := EqualPart(old(committeeFund), |due| + 1);
              && committeeFund >= most && PaidOut(old(accounts), accounts, names, old(requests), requests, due, most)
              && Instalments(old(accounts), accounts, names, old(requests), requests, most)
    {
      hide Conserved, Stakes, RecordsSound, PaidOut, Credit, EqualPart, Covers, PaidRequest, Instalments;
      RemainsKnown();
      var left := Payable(requests);
      var most := EqualPart(committeeFund, |left| + 1);
      CoversFirst(committeeFund, |left|);
      ghost var due, done, was, book := left, {}, accounts, requests;
      NamesAre();
      PaidOutNone(accounts, names, requests, most);
      while left != {}
        invariant Valid() && left <= due <= book.Keys && done == due - left
        invariant Covers(committeeFund, |left|, most)
        invariant PaidOut(was, accounts, names, book, requests, done, most)
        decreases left
      {
        var k :| k in left;
        ghost var n, fund := |left|, committeeFund;
        CoversOne(fund, n, most);
        WorkerKnown(k, was, book, done, most);
        PaidOutStep(was, accounts, names, book, requests, done, most, k);
        PayRequest(k, most);
        left, done := left - {k}, done + {k};
        assert done == due - left;
        CoversNext(fund, n, most, committeeFund, |left|);
      }
      CoversOne(committeeFund, |left|, most);
      assert done == due;
      InstalmentsPaid(was, accounts, names, book, requests, most);
    }

    lemma RemainsKnown()
      requires Valid()
      ensures forall k :: k in requests ==> requests[k].remain >= 0
    {
    }

    lemma WorkerKnown(k: nat, was: Accounts, book: map<nat, Request>, done: set<nat>, most: int)
      requires Valid() && PaidOut(was, accounts, names, book, requests, done, most) && k in book && k !in done
      ensures k in requests && book[k].worker in accounts
    {
      hide AllPaid, PaidRequest;
      assert requests[k] == book[k];
      RequestFacts(names, Records(), k);
    }

    /** Take everything an account has, as tokens. */
    method CashIn(a: Name) returns (tokens: int)
      requires Stakes() && a in names
      modifies this`accounts, this`vestingFund, this`vestingShares
      ensures Stakes() && accounts == Emptied(old(accounts), a) && GaveUp(old(accounts), accounts, a)
      ensures var v, s := old(accounts)[a], Positive(old(accounts)[a].shares);
              var t := TokensFor(old(vestingFund), old(vestingShares), s);
              && tokens == Positive(v.balance) + t && tokens >= 0
              && vestingFund == old(vestingFund) - t && vestingShares == old(vestingShares) - s
              && Held(accounts) == Held(old(accounts)) - Positive(v.balance)
      ensures ValueKept()
      ensures vestingShares <= old(vestingShares)
    {
      hide Held, AllShares, AllFields, AllMatched, Backed, NotCheaper, GaveUp;
      var b, s := Positive(accounts[a].balance), Positive(accounts[a].shares);
      AtMostAllShares(accounts, names, a);
      EmptiedGaveUp(accounts, a);
      WithdrawKeeps(vestingFund, vestingShares, s);
      var t := TokensFor(vestingFund, vestingShares, s);
      AdjustBalance(a, -b);
      GrantKeeps(accounts, names, a, -s);
      accounts := Grant(accounts, a, -s);
      vestingFund, vestingShares := vestingFund - t, vestingShares - s;
      return b + t;
    }

    /** clear_null_account_balance and clear_anonymous_account_balance. */
    method Burn(a: Name)
      requires Valid() && a in names
      modifies this`accounts, this`vestingFund, this`vestingShares, this`supply
      ensures Valid() && accounts == Emptied(old(accounts), a) && GaveUp(old(accounts), accounts, a)
      ensures vestingFund == old(vestingFund) - TokensFor(old(vestingFund), old(vestingShares),
              Positive(old(accounts)[a].shares))
      ensures supply == old(supply) - Positive(old(accounts)[a].balance) - (old(vestingFund) - vestingFund)
      ensures ValueKept() && vestingShares <= old(vestingShares)
    {
      hide Held, AllShares, EscrowTotal, InviteTotal, AllFields, AllMatched, RecordsSound, NotCheaper, GaveUp;
      var tokens := CashIn(a);
      supply := supply - tokens;
    }

    /** claim_committee_account_balance. */
    method ClaimCommittee()
      requires Valid()
      modifies this`accounts, this`vestingFund, this`vestingShares, this`committeeFund
      ensures Valid() && accounts == Emptied(old(accounts), committee) && GaveUp(old(accounts), accounts, committee)
      ensures vestingFund == old(vestingFund) - TokensFor(old(vestingFund), old(vestingShares),
              Positive(old(accounts)[committee].shares))
      ensures committeeFund ==
              old(committeeFund) + Positive(old(accounts)[committee].balance) + (old(vestingFund) - vestingFund)
      ensures ValueKept() && vestingShares <= old(vestingShares)
    {
      hide Held, AllShares, EscrowTotal, InviteTotal, AllFields, AllMatched, RecordsSound, NotCheaper, GaveUp;
      var tokens := CashIn(committee);
      committeeFund := committeeFund + tokens;
    }

    method ClearSpecial()
      requires Valid()
      modifies this`accounts, this`vestingFund, this`vestingShares, this`supply, this`committeeFund
      ensures Valid() && ValueKept()
      ensures forall a :: a in {nullAccount, anonymous, committee} ==>
                a in accounts && accounts[a].shares == 0 && accounts[a].balance <= 0
      ensures forall a :: a in old(accounts) && a !in {nullAccount, anonymous, committee} ==>
                a in accounts && accounts[a] == old(accounts)[a]
    {
      hide Conserved, RecordsSound, Emptied, AllGood, AllShares, NotCheaper, Backed;
      ghost var f0, v0 := vestingFund, vestingShares;
      Burn(nullAccount);
      ghost var f1, v1 := vestingFund, vestingShares;
      Burn(anonymous);
      FallingValue(f0, v0, f1, v1, vestingFund, vestingShares);
      ghost var f2, v2 := vestingFund, vestingShares;
      ClaimCommittee();
      FallingValue(f0, v0, f2, v2, vestingFund, vestingShares);
    }

    /** process_funds: 1000 units for each block, to the witness, the committee and the reward fund. */
    method ProcessFunds(producer: Name, witnessPercent: nat, committeeRatio: nat)
      requires Valid() && producer in names && witnessPercent <= 10000 && committeeRatio <= 10000
      modifies this`accounts, this`vestingFund, this`vestingShares, this`committeeFund, this`rewardFund, this`supply
      ensures Valid() && supply == old(supply) + 1000
      ensures var w := 1000 * witnessPercent / 10000;
              && accounts == Grant(old(accounts), producer, SharesFor(old(vestingFund), old(vestingShares), w)) &&
                  vestingFund == old(vestingFund) + w
              && committeeFund == old(committeeFund) + (1000 - w) * committeeRatio / 10000
      ensures rewardFund + committeeFund + vestingFund == old(rewardFund + committeeFund + vestingFund) + 1000
      ensures ValueKept()
    {
      hide Held, AllShares, EscrowTotal, InviteTotal, AllFields, AllMatched, RecordsSound, NotCheaper;
      var w := 1000 * witnessPercent / 10000;
      var c := (1000 - w) * committeeRatio / 10000;
      PartAtMost(1000, witnessPercent, 10000);
      PartAtMost(1000 - w, committeeRatio, 10000);
      committeeFund := committeeFund + c;
      rewardFund := rewardFund + (1000 - w - c);
      supply := supply + 1000;
      CreateVesting(producer, w);
    }

    // ----- Withdrawing vesting shares -----

    /** withdraw_vesting; `delegated` is what the account has lent to others. */
    method WithdrawVesting(a: Name, amount: int, delegated: int, intervals: int) returns (ok: bool)
      requires Valid() && amount >= 0 && intervals > 0
      modifies this`downs
      ensures Valid()
      ensures ok == (a in names && accounts[a].shares - delegated >= amount &&
                     var rate := DownOf(old(downs), a).rate;
                     if amount == 0 then rate != 0 else rate != NewRate(accounts[a].shares - delegated, intervals))
      ensures downs == if !ok then old(downs)
                       else if amount == 0 then old(downs)[a := Idle]
                       else old(downs)[a := Withdrawal(NewRate(accounts[a].shares - delegated, intervals),
                           Some(now + INTERVAL), amount, 0)]
    {
      hide Held, AllShares, EscrowTotal, InviteTotal, AllFields, AllMatched, RecordsSound;
      if a !in names || accounts[a].shares - delegated < amount {
        return false;
      }
      var w, rate := DownOf(downs, a), NewRate(accounts[a].shares - delegated, intervals);
      if (if amount == 0 then w.rate == 0 else w.rate == rate) {
        return false;
      }
      var next := if amount == 0 then Idle else Withdrawal(rate, Some(now + INTERVAL), amount, 0);
      DownsChange(names, Records(), a, next);
      downs := downs[a := next];
      return true;
    }

    /** set_withdraw_vesting_route; the sixteen-bit total of the percentages is the true one. */
    method SetRoute(from: Name, to: Name, percent: nat, autoVest: bool) returns (ok: bool)
      requires Valid() && percent <= 10000
      modifies this`routes
      ensures Valid()
      ensures ok == (&& from in names && to in names &&
              WithRoute(RoutesOf(old(routes), from), to, percent, autoVest).Some?
                     && Percent(WithRoute(RoutesOf(old(routes), from), to, percent, autoVest).value) <= 10000)
      ensures routes == if ok then old(routes)[from :=
                          WithRoute(RoutesOf(old(routes), from), to, percent, autoVest).value]
                        else old(routes)
    {
      hide Held, AllShares, EscrowTotal, InviteTotal, AllFields, AllMatched, RecordsSound, GoodRoutes, Percent;
      if from !in names || to !in names {
        return false;
      }
      DownFacts(names, Records(), from);
      var rs := RoutesOf(routes, from);
      var r := WithRoute(rs, to, percent, autoVest);
      if r.None? {
        return false;
      }
      WithRoutePercent(rs, to, percent, autoVest);
      WithRouteNames(rs, to, percent, autoVest, names);
      PercentNonNegative(r.value);
      var total := TotalPercent(r.value);
      if total > 10000 {
        return false;
      }
      RoutesChange(names, Records(), from, r.value);
      routes := routes[from := r.value];
      return true;
    }

    method DepositRoutes(rs: Routes, amount: nat) returns (total: int)
      requires AllGood(accounts, names) && rs.Keys <= names
      modifies this`accounts
      ensures AllGood(accounts, names) && total == Routed(rs, amount, true)
      ensures Differ(old(accounts), accounts, 0, total)
      ensures accounts == DepositAll(old(accounts), rs, amount, Active(rs).Keys)
    {
      hide Held, AllShares, AllFields, AllMatched, Part, PartOf;
      total := 0;
      var left := Active(rs).Keys;
      ghost var all, was := left, accounts;
      while left != {}
        invariant AllGood(accounts, names) && left <= all && Differ(was, accounts, 0, total)
        invariant total + Sum(left, PartOf(rs, amount, true)) == Routed(rs, amount, true)
        invariant DepositAll(accounts, rs, amount, left) == DepositAll(was, rs, amount, all)
        decreases left
      {
        var to := Least(left);
        var part := KindPart(rs, amount, to, true);
        PartIs(rs, amount, to, true);
        RoutedLeft(rs, amount, left, to, true);
        AtMostAllShares(accounts, names, to);
        GrantKeeps(accounts, names, to, part);
        accounts := Grant(accounts, to, part);
        total, left := total + part, left - {to};
      }
    }

    lemma SameNames()
      requires AllGood(accounts, names)
      ensures accounts.Keys == names
    {
    }

    /** Shares leave the total, and the tokens behind them go to `a`. */
    method PayShares(a: Name, shares: int)
      requires AllGood(accounts, names) && a in names && Backed(vestingFund, vestingShares) &&
               0 <= shares <= vestingShares
      modifies this`accounts, this`vestingFund, this`vestingShares
      ensures AllGood(accounts, names) && accounts.Keys == names && Backed(vestingFund, vestingShares)
      ensures Vested() == Unvest(old(Vested()), a, shares) && vestingShares == old(vestingShares) - shares
      ensures Differ(old(accounts), accounts, old(vestingFund) - vestingFund, 0)
      ensures ValueKept()
    {
      hide Held, AllShares, AllFields, AllMatched, NotCheaper;
      WithdrawKeeps(vestingFund, vestingShares, shares);
      var tokens := TokensFor(vestingFund, vestingShares, shares);
      CreditKeeps(accounts, names, a, tokens);
      accounts := Credit(accounts, a, tokens);
      vestingFund, vestingShares := vestingFund - tokens, vestingShares - shares;
    }

    method PayRoutes(rs: Routes, amount: nat) returns (total: int)
      requires AllGood(accounts, names) && rs.Keys <= names && Backed(vestingFund, vestingShares)
      requires vestingShares >= Routed(rs, amount, false)
      modifies this`accounts, this`vestingFund, this`vestingShares
      ensures AllGood(accounts, names) && Backed(vestingFund, vestingShares) && total == Routed(rs, amount, false)
      ensures Differ(old(accounts), accounts, old(vestingFund) - vestingFund, 0) &&
              vestingShares == old(vestingShares) - total
      ensures ValueKept()
      ensures Vested() == PayAll(old(Vested()), rs, amount, Active(rs).Keys)
    {
      hide Held, AllShares, AllGood, Backed, Part, PartOf, Unvest, NotCheaper;
      total := 0;
      var left := Active(rs).Keys;
      ghost var all, was, f0, v0 := left, Vested(), vestingFund, vestingShares;
      NotCheaperSelf(f0, v0);
      SameNames();
      while left != {}
        invariant AllGood(accounts, names) && accounts.Keys == names && Backed(vestingFund, vestingShares) &&
                  left <= all
        invariant Differ(was.accs, accounts, f0 - vestingFund, 0) && vestingShares == v0 - total
        invariant total + Sum(left, PartOf(rs, amount, false)) == Routed(rs, amount, false)
        invariant NotCheaper(f0, v0, vestingFund, vestingShares)
        invariant PayAll(Vested(), rs, amount, left) == PayAll(was, rs, amount, all)
        decreases left
      {
        var to := Least(left);
        var part := KindPart(rs, amount, to, false);
        PartIs(rs, amount, to, false);
        RoutedLeft(rs, amount, left, to, false);
        ghost var f, v := vestingFund, vestingShares;
        PayShares(to, part);
        NotCheaperThen(f0, v0, f, v, vestingFund, vestingShares);
        total, left := total + part, left - {to};
      }
    }

    /** Whether an interval of the withdrawal of `a` has passed. */
    predicate WithdrawalDue(a: Name)
      reads this
    {
      a in downs && downs[a].next.Some? && downs[a].next.value <= now
    }

    /** The account steps down by `amount`, of which routes have taken some already. */
    method FinishWithdrawal(a: Name, amount: nat, rest: int)
      requires AllGood(accounts, names) && a in names && Backed(vestingFund, vestingShares)
      requires 0 <= rest <= vestingShares && amount <= accounts[a].shares
      modifies this`accounts, this`vestingFund, this`vestingShares
      ensures AllGood(accounts, names) && Backed(vestingFund, vestingShares) &&
              vestingShares == old(vestingShares) - rest
      ensures Differ(old(accounts), accounts, old(vestingFund) - vestingFund, 0 - amount)
      ensures ValueKept()
      ensures Vested() == Unvest(old(Vested()).(accs := Grant(old(accounts), a, 0 - amount)), a, rest)
    {
      hide Held, AllShares, AllFields, AllMatched, NotCheaper, Unvest;
      GrantKeeps(accounts, names, a, 0 - amount);
      accounts := Grant(accounts, a, 0 - amount);
      PayShares(a, rest);
    }

    /** The routes take their parts, first as shares, then as tokens. */
    method ServeRoutes(a: Name, rs: Routes, amount: nat) returns (asShares: int, asTokens: int)
      requires AllGood(accounts, names) && a in names && rs.Keys <= names && Backed(vestingFund, vestingShares)
      requires vestingShares >= Routed(rs, amount, false)
      modifies this`accounts, this`vestingFund, this`vestingShares
      ensures AllGood(accounts, names) && accounts.Keys == names && Backed(vestingFund, vestingShares)
      ensures asShares == Routed(rs, amount, true) && asTokens == Routed(rs, amount, false)
      ensures Differ(old(accounts), accounts, old(vestingFund) - vestingFund, asShares) &&
              vestingShares == old(vestingShares) - asTokens
      ensures accounts[a].shares >= old(accounts)[a].shares
      ensures ValueKept()
      ensures Vested() == PayAll(old(Vested()).(accs := DepositAll(old(accounts), rs, amount, Active(rs).Keys)), rs,
              amount, Active(rs).Keys)
    {
      hide Held, AllShares, AllFields, AllMatched, NotCheaper, Backed, Routed, PayAll, DepositAll;
      ghost var was := accounts;
      asShares := DepositRoutes(rs, amount);
      DepositAllAt(was, rs, amount, Active(rs).Keys, a);
      PayAllShares(Vested(), rs, amount, Active(rs).Keys, a);
      asTokens := PayRoutes(rs, amount);
    }

    /** The shares an account gives up at once, through all its routes. */
    method StepDown(a: Name, rs: Routes, amount: nat)
      requires Stakes() && a in names && rs.Keys <= names && GoodRoutes(rs) && amount <= accounts[a].shares
      modifies this`accounts, this`vestingFund, this`vestingShares
      ensures Stakes() && Held(accounts) + vestingFund == old(Held(accounts) + vestingFund)
      ensures Vested() == Withdrawn(old(Vested()), a, rs, amount)
      ensures AllSteppedDown(old(Vested()), Vested(), a, rs, amount)
      ensures ValueKept()
      ensures vestingShares <= old(vestingShares)
    {
      hide Held, AllShares, AllFields, AllMatched, NotCheaper, Backed, Unvest, Routed, PayAll, DepositAll, Percent,
          Grant, AllSteppedDown;
      ghost var was := Vested();
      ghost var f0, v0 := vestingFund, vestingShares;
      AtMostAllShares(accounts, names, a);
      RoutedAtMost(rs, amount);
      var asShares, asTokens := ServeRoutes(a, rs, amount);
      ghost var f1, v1 := vestingFund, vestingShares;
      var rest := amount - asTokens - asShares;
      if rest < 0 {
        assert false;
      }
      AllWithdrawnAt(was, a, rs, amount);
      FinishWithdrawal(a, amount, rest);
      NotCheaperThen(f0, v0, f1, v1, vestingFund, vestingShares);
    }

    /** process_vesting_withdrawals, for one account. */
    method ProcessWithdrawal(a: Name)
      requires Valid() && WithdrawalDue(a)
      modifies this`accounts, this`vestingFund, this`vestingShares, this`downs
      ensures Valid() && a in names && RoutesOf(routes, a).Keys <= names && old(downs)[a].rate > 0
      ensures var w := old(downs)[a];
              var amount := Due(w, old(accounts)[a].shares);
              && Vested() == Withdrawn(old(Vested()), a, RoutesOf(routes, a), amount)
              && AllSteppedDown(old(Vested()), Vested(), a, RoutesOf(routes, a), amount)
              && downs == old(downs)[a := After(w, amount, accounts[a].shares)]
      ensures ValueKept()
      ensures vestingShares <= old(vestingShares)
    {
      hide Held, AllShares, EscrowTotal, InviteTotal, AllFields, AllMatched, RecordsSound, Backed, NotCheaper,
          Withdrawn, GoodRoutes, AllSteppedDown;
      DownFacts(names, Records(), a);
      AtMostAllShares(accounts, names, a);
      var w := downs[a];
      var amount := Due(w, accounts[a].shares);
      StepDown(a, RoutesOf(routes, a), amount);
      DownsChange(names, Records(), a, After(w, amount, accounts[a].shares));
      downs := downs[a := After(w, amount, accounts[a].shares)];
    }

    /** process_vesting_withdrawals: accounts come up in some order, and are served if they are due. */
    method ProcessWithdrawals(order: seq<Name>)
      requires Valid()
      modifies this`accounts, this`vestingFund, this`vestingShares, this`downs
      ensures Valid()
      ensures forall a {:trigger DownOf(downs, a)} :: a !in order ==> DownOf(downs, a) == DownOf(old(downs), a)
      ensures ValueKept() && vestingShares <= old(vestingShares)
    {
      hide Conserved, RecordsSound, Withdrawn, AllGood, AllShares, NotCheaper, Backed;
      ghost var f0, v0 := vestingFund, vestingShares;
      NotCheaperSelf(f0, v0);
      for i := 0 to |order|
        invariant Valid() && NotCheaper(f0, v0, vestingFund, vestingShares) && vestingShares <= v0
        invariant forall a {:trigger DownOf(downs, a)} :: a !in order ==> DownOf(downs, a) == DownOf(old(downs), a)
      {
        if WithdrawalDue(order[i]) {
          ghost var was, f1, v1 := downs, vestingFund, vestingShares;
          ProcessWithdrawal(order[i]);
          FallingValue(f0, v0, f1, v1, vestingFund, vestingShares);
          forall a | a !in order ensures DownOf(downs, a) == DownOf(old(downs), a) {
            assert DownOf(downs, a) == DownOf(was, a);
          }
        }
      }
    }

    method Tick(time: int)
      requires Valid()
      modifies this`now
      ensures Valid() && now == time
    {
      hide Held, AllShares, EscrowTotal, InviteTotal, AllFields, AllMatched, RecordsSound, Backed;
      now := time;
    }

    // ----- Paid subscriptions -----

    /** set_paid_subscription: the first offer of an account costs a fee. */
    method SetPlan(a: Name, plan: Plan, fee: int) returns (ok: bool)
      requires Valid() && fee >= 0
      modifies this`accounts, this`committeeFund, this`plans
      ensures Valid()
      ensures ok == (a in names && (a !in old(plans) ==> old(accounts)[a].balance >= fee))
      ensures accounts == if ok && a !in old(plans) then Credit(old(accounts), a, -fee) else old(accounts)
      ensures committeeFund == old(committeeFund) + if ok && a !in old(plans) then fee else 0
      ensures plans == if ok then old(plans)[a := plan] else old(plans)
    {
      hide Held, AllShares, EscrowTotal, InviteTotal, AllFields, AllMatched, RecordsSound, Backed;
      if a !in names {
        return false;
      }
      ok := true;
      if a !in plans {
        ok := PayFee(a, fee);
      }
      if ok {
        plans := plans[a := plan];
      }
    }

    /** A subscription takes the offer as it is; one that stays the same has to change its renewal. */
    predicate MaySubscribe(subscriber: Name, creator: Name, level: nat, price: int, period: Days, renews: bool)
      reads this
    {
      && subscriber in names && creator in names && creator in plans && subscriber in accounts
      && 0 < level <= plans[creator].levels && period == plans[creator].period && price == plans[creator].amount
      && var s := Standing(subscriptions, (subscriber, creator));
         if s.Some? && SameModel(s.value, level, price, period) then s.value.renews != renews
         else price * level > 0 && accounts[subscriber].balance >= Terms(s, price * level, period, now).cost
    }

    /** paid_subscribe: a new subscription, a change of an active one, or just of its renewal. */
    method Subscribe(subscriber: Name, creator: Name, level: nat, price: int, period: Days, renews: bool)
      returns (ok: bool)
      requires Valid() && price > 0
      modifies this`accounts, this`subscriptions
      ensures Valid()
      ensures ok == old(MaySubscribe(subscriber, creator, level, price, period, renews))
      ensures !ok ==> accounts == old(accounts) && subscriptions == old(subscriptions)
      ensures ok ==> var k := (subscriber, creator);
                     var s := Standing(old(subscriptions), k);
                     if s.Some? && SameModel(s.value, level, price, period) then
                       && accounts == old(accounts) && s.value.renews != renews
                       && subscriptions == old(subscriptions)[k := s.value.(renews := renews)]
                     else
                       level > 0 && price * level > 0 &&
                       var c := Terms(s, price * level, period, now);
                       && accounts == Moved(old(accounts), subscriber, creator, c.cost)
                       && subscriptions == old(subscriptions)[k := 
                           Subscription(level, price, period, now + c.seconds, true, renews)]
    {
      hide Held, AllShares, EscrowTotal, InviteTotal, AllFields, AllMatched, RecordsSound, Backed, Terms;
      if subscriber !in names || creator !in names || creator !in plans {
        return false;
      }
      var plan, k := plans[creator], (subscriber, creator);
      if level == 0 || plan.levels < level || plan.period != period || plan.amount != price {
        return false;
      }
      var s := Standing(subscriptions, k);
      if s.Some? && SameModel(s.value, level, price, period) {
        if s.value.renews == renews {
          return false;
        }
        subscriptions := subscriptions[k := s.value.(renews := renews)];
        return true;
      }
      MulMono(1, level, price);
      var c := Terms(s, price * level, period, now);
      ok := Pay(subscriber, creator, c.cost);
      if ok {
        subscriptions := subscriptions[k := Subscription(level, price, period, now + c.seconds, true, renews)];
      }
    }

    /** paid_subscribe_processing: what is due is renewed, or closed. */
    method RenewSubscriptions(due: seq<(Name, Name)>)
      requires Valid()
      modifies this`accounts, this`subscriptions
      ensures Valid() && subscriptions.Keys == old(subscriptions).Keys
      ensures forall k :: k in subscriptions && k in due && subscriptions[k].active ==> subscriptions[k].next > now
      ensures forall k :: k in subscriptions && k !in due ==> subscriptions[k] == old(subscriptions)[k]
    {
      hide Conserved, Stakes, RecordsSound, RenewalPrice, Renewable, Moved;
      for i := 0 to |due|
        invariant Valid() && subscriptions.Keys == old(subscriptions).Keys
        invariant forall k :: k in subscriptions && k in due[..i] && subscriptions[k].active ==>
            subscriptions[k].next > now
        invariant forall k :: k in subscriptions && k !in due[..i] ==> subscriptions[k] == old(subscriptions)[k]
      {
        if due[i] in subscriptions && subscriptions[due[i]].active && subscriptions[due[i]].next <= now {
          RenewSubscription(due[i]);
        }
      }
    }

    /** A subscription that is not renewed is closed; its times no longer matter. */
    method RenewSubscription(k: (Name, Name))
      requires Valid() && k in subscriptions
      modifies this`accounts, this`subscriptions
      ensures Valid()
      ensures var s := old(subscriptions)[k];
              var price := if k.1 in plans then RenewalPrice(s, plans[k.1]) else None;
              if price.Some? && k.0 in names && k.1 in names && old(accounts)[k.0].balance >= price.value then
                && accounts == Moved(old(accounts), k.0, k.1, price.value)
                && subscriptions == old(subscriptions)[k := Renewed(s, plans[k.1], now)]
              else
                accounts == old(accounts) &&
                subscriptions == old(subscriptions)[k := s.(active := false, renews := false)]
      ensures var s, s' := old(subscriptions)[k], subscriptions[k];
              && (s'.active ==> k.1 in plans && RenewedAs(s, s', plans[k.1], now)
                                && accounts == Moved(old(accounts), k.0, k.1, s'.amount * s'.level))
              && (s.active && !s'.active ==> accounts == old(accounts))
              && (s.active && !s'.active && k.1 in plans && k.0 in names && k.1 in names ==>
                    !Renewable(s, plans[k.1], old(accounts)[k.0].balance))
    {
      hide Held, AllShares, EscrowTotal, InviteTotal, AllFields, AllMatched, RecordsSound, Backed, RenewalPrice;
      var s := subscriptions[k];
      if k.1 in plans {
        RenewalIs(s, plans[k.1], now);
      }
      hide RenewedAs, Renewable, Renewed;
      var price := if k.1 in plans then RenewalPrice(s, plans[k.1]) else None;
      var ok := false;
      if price.Some? {
        ok := Pay(k.0, k.1, price.value);
      }
      subscriptions := subscriptions[k := if ok then Renewed(s, plans[k.1], now)
                                          else s.(active := false, renews := false)];
    }

    // ----- Whole runs -----

    /**
     One operation or one step at the end of a block; a step that names accounts which do not exist
     is passed over.
     */
    method Apply(op: Op) returns (ghost claim: nat)
      requires Valid() && Validated(op)
      modifies this
      ensures Valid() && ValueKept()
      ensures claim == old(ClaimOf(op)) && minted == old(minted) + Excess(op, claim)
    {
      NotCheaperSelf(vestingFund, vestingShares);
      hide NotCheaper, Valid, Endowed, Grant, Credit, SharesFor, OpeningSuffices, Excess, ClaimOf;
      NoClaim(op);
      claim := 0;
      var ok := true;
      if op.CreateAccountOp? {
        ok := CreateAccount(op.creator, op.a, op.fee, op.opening, op.ratio, op.leastFee);
      } else if op.TransferOp? {
        ok := Transfer(op.from, op.to, op.amount, op.memo, op.fee);
      } else if op.TransferToVestingOp? {
        ok := TransferToVesting(op.from, op.to, op.amount);
      } else if op.PayFeeOp? {
        ok := PayFee(op.a, op.fee);
      } else {
        claim := ApplyEscrow(op);
      }
    }

    /** Operations on escrows. */
    method ApplyEscrow(op: Op) returns (ghost claim: nat)
      requires Valid() && Validated(op)
      modifies this
      ensures Valid() && ValueKept()
      ensures claim == old(ClaimOf(op)) && minted == old(minted) + Excess(op, claim)
    {
      NotCheaperSelf(vestingFund, vestingShares);
      hide NotCheaper, Valid, Excess, ClaimOf, Credit, WithApproval, MayRelease;
      NoClaim(op);
      claim := 0;
      var ok := true;
      if op.EscrowTransferOp? {
        ok := EscrowTransfer(op.from, op.to, op.agent, op.id, op.tokens, op.fee, op.deadline, op.expiration);
      } else if op.EscrowApproveOp? {
        ok := EscrowApprove(op.from, op.to, op.agent, op.who, op.id, op.approve);
      } else if op.EscrowDisputeOp? {
        ok := EscrowDispute(op.from, op.to, op.agent, op.id);
      } else if op.EscrowReleaseOp? {
        ok := EscrowRelease(op.from, op.to, op.agent, op.who, op.receiver, op.id, op.amount);
      } else {
        claim := ApplyAward(op);
      }
    }

    /** Operations on invites and awards. */
    method ApplyAward(op: Op) returns (ghost claim: nat)
      requires Valid() && Validated(op)
      modifies this
      ensures Valid() && ValueKept()
      ensures claim == old(ClaimOf(op)) && minted == old(minted) + Excess(op, claim)
    {
      NotCheaperSelf(vestingFund, vestingShares);
      hide NotCheaper, Valid, Vested, SharedOut, Known, Awards.Award, Grant, Credit, SharesFor, AllVested,
          AwardPayments;
      NoClaim(op);
      claim := 0;
      var ok := true;
      if op.CreateInviteOp? {
        ok := CreateInvite(op.creator, op.key, op.amount, op.least);
      } else if op.ClaimInviteOp? {
        ok := ClaimInvite(op.initiator, op.receiver, op.key);
      } else if op.VestInviteOp? {
        ok := VestInvite(op.initiator, op.receiver, op.key);
      } else if op.RegisterByInviteOp? {
        ok := RegisterByInvite(op.initiator, op.a, op.key);
      } else if op.AwardOp? {
        ok := Award(op.initiator, op.receiver, op.energy, op.used, op.borrowed, op.threshold, op.bens);
      } else if op.FixedAwardOp? {
        ok, claim := FixedAward(op.initiator, op.receiver, op.reward, op.energy, op.limit, op.borrowed,
            op.threshold, op.bens);
      } else {
        ApplySale(op);
      }
    }

    /** Operations on sales. */
    method ApplySale(op: Op)
      requires Valid() && Validated(op)
      modifies this
      ensures Valid() && minted == old(minted) && ValueKept()
    {
      NotCheaperSelf(vestingFund, vestingShares);
      hide NotCheaper, Valid, Vested, Endowed, Offering, Purchased, Pledge, Refunded, PutSale, Grant, Credit,
          SharesFor, LeastBid;
      var ok := true;
      if op.SetAccountPriceOp? {
        ok := SetAccountPrice(op.a, op.seller, op.price, op.onSale, op.fee);
      } else if op.TargetAccountSaleOp? {
        ok := TargetAccountSale(op.a, op.seller, op.target, op.price, op.onSale, op.fee);
      } else if op.BuyAccountOp? {
        ok := Bid(op.buyer, op.a, op.price, op.tokens, op.fee, op.clock);
        if !ok {
          ok := BuyNow(op.buyer, op.a, op.price, op.tokens, op.fee);
        }
      } else if op.BuySubaccountOp? {
        ok := BuySubaccount(op.buyer, op.parent, op.a, op.price, op.tokens, op.fee);
      } else {
        ApplyOwner(op);
      }
    }

    /** Operations on recovery, subaccounts and withdrawals. */
    method ApplyOwner(op: Op)
      requires Valid() && Validated(op)
      modifies this
      ensures Valid() && minted == old(minted) && ValueKept()
    {
      NotCheaperSelf(vestingFund, vestingShares);
      hide NotCheaper, Valid, Credit, PutSale, WithRoute, Percent, NewRate;
      var ok := true;
      if op.RequestRecoveryOp? {
        RequestRecovery(op.a, op.request);
      } else if op.RecordMasterOp? {
        RecordMaster(op.a, op.master, op.recent);
      } else if op.RecoverAccountOp? {
        ok := RecoverAccount(op.a, op.master, op.former);
      } else if op.SetSubaccountPriceOp? {
        ok := SetSubaccountPrice(op.a, op.seller, op.price, op.onSale, op.fee);
      } else if op.WithdrawVestingOp? {
        ok := WithdrawVesting(op.a, op.amount, op.delegated, op.intervals);
      } else if op.SetRouteOp? {
        ok := SetRoute(op.from, op.to, op.percent, op.autoVest);
      } else {
        ApplyFund(op);
      }
    }

    /** Operations on requests and subscriptions. */
    method ApplyFund(op: Op)
      requires Valid() && Validated(op)
      modifies this
      ensures Valid() && minted == old(minted) && ValueKept()
    {
      NotCheaperSelf(vestingFund, vestingShares);
      hide NotCheaper, Valid, Credit, Moved, MaySubscribe, Terms, Standing, SameModel, Repeats, NewRequest;
      var ok := true;
      if op.SetPlanOp? {
        ok := SetPlan(op.a, op.plan, op.fee);
      } else if op.SubscribeOp? {
        ok := Subscribe(op.subscriber, op.creator, op.level, op.price, op.period, op.renews);
      } else if op.CreateRequestOp? {
        ok := CreateRequest(op.creator, op.worker, op.url, op.duration, op.min, op.most, op.fee);
      } else if op.VoteRequestOp? {
        ok := VoteRequest(op.voter, op.id, op.share);
      } else if op.CancelRequestOp? {
        ok := CancelRequest(op.creator, op.id);
      } else {
        ApplyStep(op);
      }
    }

    /** The steps at the end of a block. */
    method ApplyStep(op: Op)
      requires Valid() && Validated(op)
      modifies this
      ensures Valid() && minted == old(minted) && ValueKept()
    {
      NotCheaperSelf(vestingFund, vestingShares);
      hide NotCheaper, Valid, Vested, Endowed, SharedOut, Offering, Withdrawn, Purchased, Emptied, PaidOut, AllPaid,
          Instalments, AllSettled, AllVested, AllSteppedDown;
      if op.TickStep? {
        Tick(op.time);
      } else if op.RenewStep? {
        RenewSubscriptions(op.due);
      } else if op.ExpireAwardsStep? {
        ExpireAwards();
      } else if op.ProcessFundsStep? {
        if op.producer in names {
          ProcessFunds(op.producer, op.witnessPercent, op.committeeRatio);
        }
      } else if op.ProcessWithdrawalsStep? {
        ProcessWithdrawals(op.order);
      } else if op.ExpireEscrowsStep? {
        ExpireEscrows();
      } else if op.ExpireAuctionsStep? {
        ExpireAuctions();
      } else if op.ClearSpecialStep? {
        ClearSpecial();
      } else if op.ConcludeRequestStep? {
        ConcludeRequest(op.id, op.sway, op.minPercent);
      } else if op.PayRequestsStep? {
        PayRequests();
      } else if op.ClearUsedInvitesStep? {
        ClearUsedInvites(op.before);
      } else if op.ClearClosedRequestsStep? {
        ClearClosedRequests(op.before);
      }
    }

    /** What the operation claims from the reward fund, if it is a fixed award that is accepted. */
    ghost function ClaimOf(op: Op): nat
      reads this
    {
      if !op.FixedAwardOp? || op.reward == 0 then 0
      else
        var f := FixedShares(op.initiator, op.receiver, op.reward, op.energy, op.limit, op.borrowed, op.threshold,
            op.bens);
        if f.None? || f.value.rshares == 0 then 0
        else Awards.Award(rewardFund, rewardShares, f.value.rshares)
    }

    lemma NoClaim(op: Op)
      ensures !op.FixedAwardOp? ==> ClaimOf(op) == 0
      ensures Excess(op, 0) == 0
    {
      hide Parts, FixedShares, Awards.Award;
      if op.FixedAwardOp? {
        PartsOfNothing(op.bens);
      }
    }

    /**
     Along any run no token appears or disappears, except what fixed awards pay beyond their
     reward: with the claims of the accepted ones in `claims`, exactly the sum of their excesses
     is created, and nothing if and only if none overpays.  Shares keep their value as long as
     there are any; `totals` are their numbers after each step.
     */
    method Run(ops: seq<Op>) returns (ghost claims: seq<nat>, ghost totals: seq<int>)
      requires Valid() && forall i :: 0 <= i < |ops| ==> Validated(ops[i])
      modifies this
      ensures Valid() && |claims| == |ops| == |totals|
      ensures minted == old(minted) + TotalExcess(ops, claims)
      ensures minted == old(minted) <==> forall i :: 0 <= i < |ops| ==> !Overpays(ops[i], claims[i])
      ensures AllPositive(totals) ==> ValueKept()
    {
      hide Conserved, AllGood, AllShares, RecordsSound, Validated, NotCheaper, ClaimOf, Excess, Overpays,
          Awards.SumRecords;
      claims, totals := [], [];
      ghost var f0, v0 := vestingFund, vestingShares;
      NotCheaperSelf(f0, v0);
      assert ops[..0] == [];
      for i := 0 to |ops|
        invariant Valid() && |claims| == i == |totals| && minted == old(minted) + TotalExcess(ops[..i], claims)
        invariant vestingShares == if i == 0 then v0 else totals[i - 1]
        invariant AllPositive(totals) ==> NotCheaper(f0, v0, vestingFund, vestingShares)
      {
        ghost var f1, v1 := vestingFund, vestingShares;
        ghost var claim := Apply(ops[i]);
        ExcessNext(ops, claims, i, claim);
        PositiveBefore(totals, vestingShares);
        if AllPositive(totals) {
          NotCheaperThen(f0, v0, f1, v1, vestingFund, vestingShares);
        }
        claims, totals := claims + [claim], totals + [vestingShares];
      }
      assert ops[..|ops|] == ops;
      NothingCreated(ops, claims);
    }

    /** From an empty ledger a fixed award comes to create tokens. */
    method FixedAwardRun() returns (l: Ledger)
      ensures fresh(l) && l.Valid() && l.minted == 100 && l.supply == 1100
    {
      hide Valid, NotCheaper, SharedOut, Parts, Weights, VestAll, Awards.Award, Awards.Alive, AllVested, AwardPayments;
      hide Awards.FixedShares, Awards.Sway, Awards.UsedEnergy, Awards.RsharesFor;
      FixedAwardCreates();
      SmallAwards();
      l := new Ledger(1, 2, 3, 4, 100);
      var ok := l.TransferToVesting(4, NOBODY, 100);
      assert ok && l.accounts[4].shares == 100000;
      ok := l.Award(4, 4, 10000, 1, 0, 0, []);
      assert ok && l.awards == [Awards.Record(l.now + REGENERATION, 10)];
      OneRecord(l.awards[0]);
      assert l.rewardShares == 10 && l.rewardFund == 0 && l.accounts[4].shares == 100000;
      l.ProcessFunds(4, 0, 0);
      assert l.rewardFund == 1000 && l.accounts[4].shares == 100000;
      ghost var claim;
      ghost var bens := [Beneficiary(1, 10000)];
      assert Known(bens, l.names);
      assert l.FixedShares(4, 4, 400, 10000, 1, 0, 0, bens) == Some(Awards.Fixed(1, 10));
      ok, claim := l.FixedAward(4, 4, 400, 10000, 1, 0, 0, [Beneficiary(1, 10000)]);
      assert ok && claim == 500 && Parts(bens, claim) == 500;
    }

    /** An account is offered, and another one has the money for it. */
    method FirstOffer() returns (l: Ledger)
      ensures fresh(l) && l.Valid() && {3, 4} <= l.names && 3 in l.accounts && 4 in l.accounts && l.minted == 0
      ensures l.accounts[4].sale == Offered(NoSale, 4, 100, true, 0)
      ensures l.now == 0 && l.recovering == map[] && l.lastRecovery == map[]
    {
      hide Valid, Credit, Offering, FeePaid, PutSale, Offered, Endowed, SharesFor, NotCheaper;
      l := new Ledger(1, 2, 3, 4, 200);
      l.HasAccount(3);
      ghost var accs := l.accounts;
      var ok := l.Transfer(4, 3, 100, None, 0);
      CreditKeepsSale(accs, 4, -100, 4);
      CreditKeepsSale(Credit(accs, 4, -100), 3, 100, 4);
      accs := l.accounts;
      ok := l.SetAccountPrice(4, 4, 100, true, 0);
      FeePaidSale(accs, 4, 0);
      OfferingSale(FeePaid(accs, 4, 0), 4, Offered(NoSale, 4, 100, true, 0));
    }

    /** A bid can outlive its sale: an offer, a bid on it, and the recovery of the account. */
    method BidOutlivesSale() returns (l: Ledger)
      ensures fresh(l) && l.Valid() && 4 in l.accounts && l.minted == 0
      ensures var s := l.accounts[4].sale; s.bidder == 3 && s.bid == 100 && s.onAuction && !s.onSale && s.start <= l.now
    {
      hide Valid, Credit, Pledge, PutSale, Refunded, Offered, WithBid, Recovered, Beats, BidMade, BidIs;
      FirstSale();
      l := FirstOffer();
      ghost var accs := l.accounts;
      var ok := l.Bid(3, 4, 100, 100, 0, 0);
      PledgeSale(accs, 4, WithBid(accs[4].sale, 3, 100, 0), 3, -100);
      l.RequestRecovery(4, Some(8));
      l.RecordMaster(4, 7, true);
      accs := l.accounts;
      ok := l.RecoverAccount(4, 8, 7);
      PutSaleAt(accs, 4, Recovered(accs[4].sale));
    }

    lemma HasAccount(x: Name)
      requires Valid() && x in names
      ensures x in accounts
    {
    }
  }

  lemma FeePaidSale(accs: Accounts, a: Name, fee: int)
    requires a in accs
    ensures FeePaid(accs, a, fee)[a].sale == accs[a].sale
  {
  }

  lemma OfferingSale(accs: Accounts, a: Name, s: Sale)
    requires a in accs
    ensures Offering(accs, a, false, s)[a].sale == s
  {
  }

  lemma PutSaleAt(accs: Accounts, a: Name, s: Sale)
    requires a in accs
    ensures PutSale(accs, a, s)[a].sale == s
  {
  }

  lemma PledgeSale(accs: Accounts, a: Name, s: Sale, buyer: Name, delta: int)
    requires a in accs && s.bidder == buyer && buyer in accs
    ensures Credit(Pledge(accs, a, s), buyer, delta)[a].sale == s
  {
  }

  lemma CreditKeepsSale(accs: Accounts, a: Name, delta: int, b: Name)
    requires a in accs && b in accs
    ensures Credit(accs, a, delta)[b].sale == accs[b].sale
    ensures b == a ==> Credit(accs, a, delta)[b].balance == accs[b].balance + delta
    ensures b != a ==> Credit(accs, a, delta)[b] == accs[b]
  {
  }

  lemma FirstSale()
    ensures var s := Offered(NoSale, 4, 100, true, 0);
            && s.onSale && s.bidder == s.target == NOBODY && s.start > 0 && Beats(s, 100)
            && WithBid(s, 3, 100, 0).bidder == 3
            && var r := Recovered(WithBid(s, 3, 100, 0));
               r.bidder == 3 && r.bid == 100 && r.onAuction && !r.onSale && r.start == 0
  {
  }

  lemma OneRecord(r: Awards.Record)
    ensures Awards.SumRecords([r]) == r.rshares
  {
    assert [r][..0] == [];
  }

  lemma SmallAwards()
    ensures Awards.Sway(100000, 1) == 10 && Awards.Award(0, 0, 10) == 0 && Weights([]) == 0
  {
  }
}
