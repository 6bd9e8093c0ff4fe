# Verified model of the chain's ledger, votes, authorities and blocks

This project models the consensus core of the VIZ node and proves what its operations keep.
Code that the node changes in place is modelled by classes and methods with loops; each is
proved against a specification, and the properties are proved of that specification.

| file | content |
|---|---|
| `ProxyVotes.dfy` | the cached tally of proxied votes, and the definition it must agree with |
| `SignState.dfy` | threshold authorities: the memoising check, and two pure rules that frame it |
| `Auctions.dfy`, `AccountTable.dfy`, `Vesting.dfy`, `PowerDown.dfy`, `Committee.dfy`, `Subscriptions.dfy` | the parts of the ledger: sales, balances and bids, share prices, withdrawals, requests, subscriptions |
| `Ledger.dfy` | all operations and end-of-block steps that move tokens, and whole runs of them |
| `Awards.dfy`, `Delegations.dfy` | the award curve; delegations, their counters, and that nobody lends what it does not have |
| `WitnessSchedule.dfy` | virtual-time scheduling over wrapping 128-bit numbers |
| `ForkDatabase.dfy`, `ForkSwitch.dfy` | the tree of recent blocks; pushing a block and switching forks |
| `Irreversibility.dfy`, `BlockLog.dfy` | finality, and the byte files it is written to |
| `Merkle.dfy` | the in-place Merkle reduction |
| `Sums.dfy`, `Arithmetic.dfy`, `Options.dfy` | sums over sets and maps, division, optional results |

`dafny verify dfyconfig.toml` checks everything.

Results that contradict what the code seems to be meant to do:

- `fixed_award` pays beneficiaries their part of the whole claim, but takes only the requested
  reward as the basis of the rest. When the parts exceed the requested reward the difference
  is created. `FixedAwardRun` is a run from an empty ledger that creates 100 tokens in this way;
  along any run exactly the sum of these excesses is created, so the supply is conserved if and
  only if no fixed award pays its beneficiaries more than the reward it was made for (`Ledger.Run`).
- `fixed_award` uses one unit of energy more than its limit exactly when it needs all the reward
  shares of that limit, and leaves an energy below zero exactly when that limit is all the account
  has (`EnergyOverLimit`); `EnergyBelowZero` is such an award.
- The last irreversible block number can fall: it is restored by the undo sessions, so popping a
  block, throwing away a pending session and restarting lower it again exactly when what is undone
  had raised it (`Finality.Take`; `FallingRun` is a run where it falls from 1 to 0). What does not
  fall is the committed number, up to which nothing can be undone; the head never drops below it.
- A switch of forks leaves the head of the fork database below the chain head. A validation that
  makes a block above it final then fails to find that block, if an abandoned one has the same
  number; the message is not undone, so that the number is ahead of the block log (`StallRun`).
  `Finality.Stalls` is the exact condition.
- A refused block stays the head of the fork database. When a block that is stored already is pushed
  again meanwhile, it is taken for the one to apply, and given up; that destroys the way down to the
  irreversible block exactly when the block lies on it (`PushAgain`, `HeadForgotten`).
- Opening the block log with a part of its index does not always restore the index: a cut
  inside a word can be taken for a complete index (`BrokenIndexKept`).
  `OpenRestoresIndex` says exactly when.
- After `recover_account` a standing bid survives the end of its sale, so one of the branches
  of `account_on_auction_expiration` marked as impossible is reached; the others are not.
  `BidOutlivesSale` is a run of accepted operations that ends so. A bid stands without a sale
  exactly from such a recovery to the next offer or the end of the auction (`Auctions.Sound`).
- The loop that walks the proxy chain keeps a reference into a temporary copy
  (libraries/chain/chain_evaluator.cpp:1104-1111); it is modelled by what it is evidently meant to read.

## Model

| member | source | states |
|---|---|---|
| `ProxyVotes.ReachableExact` | libraries/chain/chain_evaluator.cpp:1082-1151 | in every state reached from nothing, with special accounts cleared at any time, the proxy graph is acyclic and every cached level is the stake that many hops below; special accounts never have a proxy |
| `ProxyVotes.StepExact` | libraries/chain/database.cpp:1781-1828 | every accepted operation (stake change, proxy set, changed or cleared, vote, clearing) keeps that |
| `ProxyVotes.ExactIsUnique` | libraries/chain/include/graphene/chain/account_object.hpp:100-112 | proxies and shares determine the whole of a state with an exact tally |
| `ProxyVotes.AdjustArrayAbove` | libraries/chain/database.cpp:1781-1809 | the array routine adds each entry of the delta, shifted by the distance, to the account that many hops up, cut off at the depth bound |
| `ProxyVotes.AdjustArrayElsewhere` | libraries/chain/database.cpp:1781-1809 | and leaves every other account alone |
| `ProxyVotes.AdjustScalarAt` | libraries/chain/database.cpp:1811-1828 | the scalar routine adds the delta at the level of the distance, and nowhere else |
| `ProxyVotes.LinkExact` | libraries/chain/chain_evaluator.cpp:1117-1125 | adding the moved stakes along the new chain makes the tally exact for the new graph |
| `ProxyVotes.UnlinkExact` | libraries/chain/chain_evaluator.cpp:1089-1095 | taking them off the old chain makes it exact for the graph without that link |
| `ProxyVotes.ChainFreeExact` | libraries/chain/chain_evaluator.cpp:1103-1112 | the loop check accepts a proxy exactly when its chain is short enough and does not lead back to the account |
| `ProxyVotes.ClearingExact` | libraries/chain/database.cpp:1919-1931 | zeroing the shares of an account without propagation keeps the tally if and only if it has no proxy or no shares |
| `ProxyVotes.AccountIndex.ClearShares` | libraries/chain/database.cpp:1919-1931 | clearing a special account, in place, takes its shares and nothing else, and the tally stays exact |
| `SignStates.KeylessUnderivable` | libraries/chain/database.cpp:3060-3111 | nothing satisfies the authorities that the special accounts get at genesis, so they cannot name a proxy |
| `ProxyVotes.AccountIndex.ChangeProxy` | libraries/chain/chain_evaluator.cpp:1082-1130 | in place: accepted exactly for an ordinary account that names another proxy than it has, nobody or an account whose chain is short and avoids it; then its proxy is that one, all other proxies and all shares are as before, and the tally is exact |
| `ProxyVotes.AccountIndex.ClearProxy` | libraries/chain/chain_evaluator.cpp:1132-1151 | voting for a witness takes the account its proxy and nothing else; the tally stays exact |
| `ProxyVotes.AccountIndex.AddVests` | libraries/chain/database.cpp:1282-1292 | a change of stake changes the shares of one account by that much and no proxy; the tally stays exact |
| `SignStates.SignState.CheckAuthority` | libraries/protocol/sign_state.cpp:20-59 | true whenever the depth-bounded rule holds (weights that fit 32 bits); only true when the authority is derivable without bound, and from the signatures marked as used alone; marks never vanish, and only keys of authorities within reach are marked |
| `SignStates.SignState.CountKeys` | libraries/protocol/sign_state.cpp:24-31 | the loop over the keys marks exactly the signed ones it looks at, and stops once the threshold is reached |
| `SignStates.SignState.SignedBy` | libraries/protocol/sign_state.cpp:6-17 | accepts supplied and available keys, and marks them as used |
| `SignStates.DerivableIsFixpoint` | libraries/protocol/sign_state.cpp:20-59 | the unbounded rule: an authority is derivable exactly when its keys and derivable accounts reach the threshold |
| `SignStates.DerivableIsLeast` | libraries/protocol/sign_state.cpp:20-59 | and it is the least such rule |
| `SignStates.SatisfiedMonotone` | libraries/protocol/sign_state.cpp:20-59 | more approvals or more depth accept more |
| `SignStates.VerifyAuthority` | libraries/protocol/transaction.cpp:93-222 | an accepted transaction has all required authorities derivable, each master from the approvals and the masters required before it, has no signature of a key outside the authorities within reach, and no approval entered in vain; a signature is called unused only if a proper subset of them authorises too; one that is authorised within the depth bound, with no signature to spare, is accepted exactly when no approval is entered in vain |
| `SignStates.SignState.RemoveUnusedSignatures` | libraries/protocol/sign_state.cpp:61-80 | the used and the unused signatures are listed, each once, and exactly the unused ones erased |
| `SignStates.SignState.FilterUnusedApprovals` | libraries/protocol/sign_state.cpp:82-92 | exactly the unused approvals are listed |
| `SignStates.AssertNothingUnused` | libraries/protocol/transaction.cpp:76-91 | accepts exactly when every signature and every approval was of use |
| `Ledger.Ledger.Run` | libraries/chain/database.cpp:3570-3596 | along any sequence of operations and end-of-block steps, balances, reserved bids, escrows, invites and the three funds together hold the supply plus exactly the excesses of the fixed awards, which is nothing if and only if none overpays; shares add up to their total and keep their value while there are any; all auctions stay sound |
| `Ledger.Ledger.Apply` | libraries/chain/database.cpp:3570-3596 | every single one of them keeps this, and creates exactly the excess of a fixed award that is accepted |
| `Ledger.Ledger.CreateVesting` | libraries/chain/database.cpp:1261-1294 | new shares at the price before; shares and fund move together and a share does not lose value |
| `Ledger.Ledger.CreateAccount` | libraries/chain/chain_evaluator.cpp:52-141 | accepted when fee and delegation suffice; the fee becomes the stake of the new account |
| `Ledger.Ledger.Transfer` | libraries/chain/chain_evaluator.cpp:857-950 | moves the amount; to the anonymous account with a memo it becomes the stake of a new account |
| `Ledger.Ledger.TransferToVesting` | libraries/chain/chain_evaluator.cpp:952-967 | turns balance into stake |
| `Ledger.Ledger.EscrowTransfer` | libraries/chain/chain_evaluator.cpp:688-729 | locks amount and fee |
| `Ledger.Ledger.EscrowApprove` | libraries/chain/chain_evaluator.cpp:731-780 | who has approved, and that the second approval, and no other, pays the fee to the agent; a rejection returns everything |
| `Ledger.Ledger.EscrowDispute` | libraries/chain/chain_evaluator.cpp:782-803 | only an approved escrow before its expiration |
| `Ledger.Ledger.EscrowRelease` | libraries/chain/chain_evaluator.cpp:805-855 | who may release to whom: the agent to either side in a dispute, before the expiration each side to the other only, later also to itself; an emptied escrow is removed and no fee is lost with it |
| `Ledger.Ledger.ExpireEscrows` | libraries/chain/database.cpp:2583-2602 | exactly the unratified escrows end, and each payer gets the sum of its own back |
| `Ledger.Ledger.Award` | libraries/chain/chain_evaluator.cpp:305-395 | accepted when the energy suffices; each account gets the shares that its percentage of what the reward fund pays buys in its turn, the receiver those for what is left, and nobody anything else |
| `Ledger.SharedOutAt` | libraries/chain/chain_evaluator.cpp:366-392 | an award is paid as one deposit for each beneficiary, for its percentage of the tokens, and one for the receiver |
| `Ledger.GainedAtMost` | libraries/chain/database.cpp:1261-1294 | in a series of deposits nobody gets more shares than all it is paid buys at the first price |
| `Ledger.Ledger.FixedAward` | libraries/chain/chain_evaluator.cpp:397-548 | accepted exactly when the computed shares are affordable and earn the reward; exact new state, and exactly how much is created: what the beneficiaries get beyond the requested reward |
| `Ledger.FixedAwardCreates` | libraries/chain/chain_evaluator.cpp:430-537 | with the shares computed from reward and energy, a claim of 500 for a requested 400 pays out 600 |
| `Ledger.Ledger.FixedAwardRun` | libraries/chain/chain_evaluator.cpp:397-548 | operations from an empty ledger lead to an accepted fixed award that creates 100 tokens |
| `Ledger.NothingCreated` | libraries/chain/chain_evaluator.cpp:505-537 | a run creates nothing exactly when no fixed award overpays |
| `Awards.EnergyOverLimit` | libraries/chain/chain_evaluator.cpp:420-492 | an accepted fixed award uses more energy than its limit, by one unit, exactly when it needs all the shares of that limit; the energy left is below zero exactly when moreover the limit is all there is |
| `Awards.EnergyBelowZero` | libraries/chain/chain_evaluator.cpp:465-492 | an account with one unit of energy is accepted and uses two |
| `Ledger.PartsAtMost` | libraries/chain/chain_evaluator.cpp:366-383 | beneficiaries with at most 100 percent get at most the award |
| `Ledger.SoleBeneficiary` | libraries/chain/chain_evaluator.cpp:518-518 | a beneficiary of 100 percent gets all of the claim |
| `Ledger.Ledger.CreateInvite` | libraries/chain/invite_evaluator.cpp:10-38 | locks the balance |
| `Ledger.Ledger.ClaimInvite` | libraries/chain/invite_evaluator.cpp:40-72 | once only, to a balance |
| `Ledger.Ledger.RegisterByInvite` | libraries/chain/invite_evaluator.cpp:74-124 | once only, to the stake of a new account |
| `Ledger.Ledger.VestInvite` | libraries/chain/invite_evaluator.cpp:126-161 | once only, to a stake |
| `Ledger.Ledger.ClearUsedInvites` | libraries/chain/database.cpp:4251-4262 | removes exactly the old used invites, which hold nothing |
| `Ledger.Ledger.PayFee` | libraries/chain/chain_properties_evaluators.cpp:20-28 | a fee moves from the balance to the committee fund |
| `Ledger.Ledger.CreateRequest` | libraries/chain/committee_evaluator.cpp:8-66 | not twice for the same link, nor twice in a day; a fee to the committee fund, an open request |
| `Ledger.Ledger.CancelRequest` | libraries/chain/committee_evaluator.cpp:68-88 | only by the creator, while open |
| `Ledger.Ledger.VoteRequest` | libraries/chain/committee_evaluator.cpp:90-130 | a vote, or a changed one, on an open request |
| `Ledger.Ledger.ConcludeRequest` | libraries/chain/database.cpp:1381-1454 | the verdict of its votes once its time is over: too few, or a payout that is to the most asked for as the support to all shares that voted, up to two roundings, and approved only if it reaches the least |
| `Ledger.Ledger.ClearClosedRequests` | libraries/chain/database.cpp:4264-4288 | exactly the requests cancelled or turned down before the limit go, with their votes; approved ones stay |
| `Committee.ApprovedWithin` | libraries/chain/database.cpp:1403-1440 | an approved payout lies between the two amounts asked for, with positive support and enough shares voting |
| `Committee.ConcludedFairly` | libraries/chain/database.cpp:1403-1440 | each verdict with what it says of turnout, support and payout |
| `Committee.SupportAtMost` | libraries/chain/database.cpp:1393-1402 | the weighed support never exceeds the shares that voted, with division towards zero |
| `Committee.SupportIs` | libraries/chain/database.cpp:1393-1402 | the weighed support is the sum of shares times percentages, up to a rounding for each vote |
| `Committee.Tally` | libraries/chain/database.cpp:1391-1402 | the loop computes both sums |
| `Ledger.Ledger.PayRequests` | libraries/chain/database.cpp:1455-1493 | each request gets a full equal part of the fund or is paid off, each worker the sum of what its requests got, and one equal part always stays in the fund |
| `Ledger.Ledger.SetPlan` | libraries/chain/paid_subscription_evaluator.cpp:10-49 | the first offer costs a fee |
| `Ledger.Ledger.Subscribe` | libraries/chain/paid_subscription_evaluator.cpp:51-151 | when a subscription is accepted, what is paid and how long it lasts |
| `Subscriptions.ChangeIsFair` | libraries/chain/paid_subscription_evaluator.cpp:97-138 | the value left plus the payment buys exactly the time granted at the new price, up to the price of a second |
| `Ledger.Ledger.RenewSubscription` | libraries/chain/database.cpp:1315-1379 | a renewal has the amount of the offer, as many levels as there still are, and its period, for no more money than before, and is paid; a subscription is closed exactly when its owner or the offer does not allow that or the balance does not suffice |
| `Ledger.Ledger.RenewSubscriptions` | libraries/chain/database.cpp:1315-1379 | of those that are due none stays active without a later time; all others stay as they are |
| `Ledger.Ledger.Burn` | libraries/chain/database.cpp:1910-1970 | what the null and the anonymous account hold leaves the supply, shares at their price |
| `Ledger.Ledger.ClaimCommittee` | libraries/chain/database.cpp:1972-2003 | what the committee account holds moves to the committee fund |
| `Ledger.Ledger.ProcessFunds` | libraries/chain/database.cpp:2341-2360 | 1000 units for each block, all of them distributed |
| `Ledger.Ledger.ReservedIsBids` | libraries/chain/chain_evaluator.cpp:2109-2168 | in every such state the reserved balance of an account is the sum of its standing bids, and every sale is sound |
| `Ledger.Ledger.SetAccountPrice` | libraries/chain/chain_evaluator.cpp:1780-1871 | the fee is due while there is no seller; a standing bid is kept exactly when the sale goes on and it covers the price, and otherwise its bidder has it back; no other account is touched |
| `Ledger.Ledger.TargetAccountSale` | libraries/chain/chain_evaluator.cpp:1905-2057 | the same, and the bidder has to be the target |
| `Ledger.Ledger.SetSubaccountPrice` | libraries/chain/chain_evaluator.cpp:2059-2085 | the fee and the new offer |
| `Ledger.Ledger.Bid` | libraries/chain/chain_evaluator.cpp:2109-2172 | accepted exactly when it reaches the price and beats the standing bid by a tenth of the price and by as much as that beat its predecessor; it is reserved from the balance of the bidder, and the previous one is refunded |
| `Auctions.BeatsIs` | libraries/chain/chain_evaluator.cpp:2118-2131 | the least bid that the code computes is exactly that |
| `Ledger.Ledger.BuyNow` | libraries/chain/chain_evaluator.cpp:2173-2222 | a direct purchase, only without a bid: the buyer pays price and stake, the seller gets the price, the account the shares, and the sale is over |
| `Ledger.Ledger.BuySubaccount` | libraries/chain/chain_evaluator.cpp:2277-2340 | pays the seller and creates the account with a stake |
| `Ledger.Ledger.RecoverAccount` | libraries/chain/chain_evaluator.cpp:1609-1655 | needs an open request for the authority, a recent one, and an hour since the last; ends the sale and keeps the bid |
| `Ledger.Ledger.Settle` | libraries/chain/database.cpp:2604-2872 | one ended auction never fails: a sold account brings its seller the bid, in any other case the bidder has it back, and either way it is reserved no longer; the branches for no bidder, a bid below the price and a bidder who is not the target cannot be reached, and the one for a bid without a sale only after a recovery |
| `Ledger.Ledger.ExpireAuctions` | libraries/chain/database.cpp:2604-2872 | exactly the auctions that are over are settled: each account receives the sum of the bids on what it sold and of its own bids that failed, and has as much less reserved as it had bid; exactly the accounts sold lose their subaccount offer |
| `Auctions.OfferSound` | libraries/chain/chain_evaluator.cpp:1800-1871 | a price change keeps the bid at or above the price |
| `Auctions.TargetSound` | libraries/chain/chain_evaluator.cpp:1924-2057 | and with a target the bidder is the target |
| `Auctions.BidSound` | libraries/chain/chain_evaluator.cpp:2118-2157 | a bid beats the standing one by a tenth of the price and by the last increase |
| `Auctions.SettledSound` | libraries/chain/database.cpp:2604-2872 | no bid stands after an auction is settled |
| `Ledger.Ledger.BidOutlivesSale` | libraries/chain/chain_evaluator.cpp:1609-1655 | accepted operations, an offer, a bid and a recovery, lead to a standing bid without a sale |
| `Auctions.RecoveredSound` | libraries/chain/chain_evaluator.cpp:1645-1654 | a recovery keeps the sale sound: a bid without a sale stands exactly where a recovery left it |
| `AccountTable.BidMoves` | libraries/chain/chain_evaluator.cpp:2132-2167 | placing or releasing a bid keeps reserved balances equal to the sums of bids for all accounts |
| `AccountTable.SettledKeeps` | libraries/chain/database.cpp:2640-2680 | settling keeps them too, and the total of all balances |
| `AccountTable.SettledPays` | libraries/chain/database.cpp:2640-2680 | who is paid when an auction is over, by case, and that nobody else is |
| `AccountTable.AtMostAllShares` | libraries/chain/database.cpp:1919-1925 | no account holds more shares than the total |
| `Vesting.DepositKeeps` | libraries/protocol/asset.cpp:156-173 | a deposit does not lower the value of a share, and fund and shares are zero together |
| `Vesting.WithdrawKeeps` | libraries/protocol/asset.cpp:156-173 | nor does a withdrawal, which never exceeds the fund |
| `Vesting.DepositThenWithdraw` | libraries/chain/database.cpp:1261-1294 | a deposit and the withdrawal of its shares never gain tokens |
| `Vesting.WithdrawThenDeposit` | libraries/chain/database.cpp:2125-2128 | a partial withdrawal and the deposit of its tokens never gain shares |
| `Vesting.NotCheaperThen` | libraries/chain/database.cpp:2040-2163 | the value is kept over several conversions |
| `PowerDown.PaysExactly` | libraries/chain/database.cpp:2059-2147 | an undisturbed withdrawal pays exactly the total in exactly that many intervals, rounded up, and then ends |
| `PowerDown.WithRoutePercent` | libraries/chain/chain_evaluator.cpp:1035-1076 | changing one route cannot make the 16-bit total wrap, so the percentages stay within 100 |
| `PowerDown.TotalPercent` | libraries/chain/chain_evaluator.cpp:1067-1074 | the loop computes the 16-bit total of the routes it sees |
| `PowerDown.RoutedAtMost` | libraries/chain/database.cpp:2083-2137 | all routes together take at most the amount |
| `Ledger.Ledger.WithdrawVesting` | libraries/chain/chain_evaluator.cpp:969-1022 | a positive rate, or the end of the withdrawal |
| `Ledger.Ledger.SetRoute` | libraries/chain/chain_evaluator.cpp:1024-1080 | accepted exactly while the true total is at most 100 percent |
| `Ledger.Ledger.ProcessWithdrawal` | libraries/chain/database.cpp:2047-2162 | never divides by a zero rate; each route brings its account its percentage, as shares or as tokens, no fewer than the shares are worth before, the rest comes to the account as tokens, the clamp at zero is never used, and a share does not lose value |
| `Ledger.DepositAllAt` | libraries/chain/database.cpp:2083-2104 | every destination of a route that deposits shares gets exactly its percentage of the amount, and no other does |
| `Ledger.PayAllAt` | libraries/chain/database.cpp:2102-2130 | every destination of a route that pays tokens gets its percentage at the price when its turn comes, and no other does |
| `Ledger.WithdrawnAt` | libraries/chain/database.cpp:2073-2160 | what one interval brings to each account and takes from the one that withdraws |
| `Awards.SplitClaims` | libraries/chain/database.cpp:2455-2482 | n claims in a row pay at most one claim of their sum, and at most n - 1 units less |
| `Awards.RsharesInvertAward` | libraries/chain/database.cpp:2504-2527 | the computed shares earn at most the reward, one share more at least the reward |
| `Ledger.Ledger.ClaimAward` | libraries/chain/database.cpp:2455-2482 | pays by the curve, never more than the fund, and the total stays the sum of the records |
| `Ledger.Ledger.ExpireAwards` | libraries/chain/database.cpp:2529-2544 | exactly the expired records go, and the total stays the sum of the others |
| `Awards.DropExpired` | libraries/chain/database.cpp:2529-2544 | the loop that does so |
| `Delegations.ReachableCounted` | libraries/chain/chain_evaluator.cpp:1691-1778 | in every reachable state both counters equal the recomputation from the records |
| `Delegations.ReachableSolvent` | libraries/chain/include/graphene/chain/account_object.hpp:113-121 | in every reachable state an account has all the shares that it has lent, waits to get back or is withdrawing, so that its effective shares are never negative |
| `Delegations.IntervalSolvent` | libraries/chain/database.cpp:2059-2155 | an interval of a withdrawal takes what is due, and never shares that are lent |
| `Delegations.DelegateCounted` | libraries/chain/chain_evaluator.cpp:1691-1778 | delegating, reducing and revoking keep that |
| `Delegations.CreateCounted` | libraries/chain/chain_evaluator.cpp:103-137 | so does creating an account with a delegation |
| `Delegations.ReturnCounted` | libraries/chain/database.cpp:4234-4249 | so does the return of expired delegations |
| `Delegations.DelegationIndex.DelegateShares` | libraries/chain/chain_evaluator.cpp:1691-1778 | the evaluator, in place: accepted exactly when the shares are free, the energy is not negative and the amount is not too small; the record, the receiver at once, and the delegator at once or with a new record that returns the difference in time |
| `Delegations.DelegationIndex.RefreshCounters` | libraries/chain/database.cpp:5128-5164 | the migration recomputes the counters from the records |
| `WitnessSchedule.RunInTime` | libraries/chain/database.cpp:1540-1584 | in every reachable state each witness was updated no later than now and is scheduled no earlier |
| `WitnessSchedule.NextInTime` | libraries/chain/database.cpp:1856-1891 | every vote change, schedule update and reset keeps that, and time goes back only at a restart |
| `WitnessSchedule.AdvancedValid` | libraries/chain/database.cpp:1540-1584 | one round keeps the clocks in order, with overflow detected |
| `WitnessSchedule.LapsTakeTime` | libraries/chain/database.cpp:1540-1584 | a witness looked at in k rounds has k of its laps of virtual time behind it |
| `WitnessSchedule.TurnsTakeTime` | libraries/chain/database.cpp:1540-1584 | a witness with k turns has at least k times its lap time behind it, whatever the others do |
| `WitnessSchedule.TopAreMostVoted` | libraries/chain/database.cpp:1522-1536 | no witness with a key is left out of the top for one with fewer counted votes |
| `WitnessSchedule.ScanFinds` | libraries/chain/database.cpp:1508-1539 | the scan stops early only when it has found what it needs |
| `WitnessSchedule.Scheduler.UpdateSchedule` | libraries/chain/database.cpp:1496-1584 | the code in place does that round: top and support witnesses have keys, are all different and are those looked at; exactly the witnesses looked at start a new lap, or all of them at an overflow |
| `WitnessSchedule.Scheduler.ScheduleRound` | libraries/chain/database.cpp:1496-1690 | a whole round fills at most 21 slots with different witnesses that have keys, every top witness among them |
| `WitnessSchedule.Scheduler.AdjustWitnessVote` | libraries/chain/database.cpp:1856-1891 | the vote change in place: the votes move by the change, the position by the time passed at the votes before, and the next turn accordingly |
| `WitnessSchedule.Scheduler.ResetVirtualTime` | libraries/chain/database.cpp:4378-4393 | and that restart |
| `WitnessSchedule.Interleave` | libraries/chain/database.cpp:1655-1677 | every producer keeps its slots, and the two lists alternate while both last |
| `WitnessSchedule.OneSlotEach` | libraries/chain/database.cpp:1655-1690 | no witness fills two slots |
| `ForkDatabase.ForkDb.FetchBranchFrom` | libraries/chain/fork_database.cpp:168-210 | two shortest parent-linked ways down to a common parent; it fails exactly when there is none |
| `ForkDatabase.BranchesDisjoint` | libraries/chain/fork_database.cpp:168-210 | the branches share at most their last block, and only when one block is an ancestor of the other |
| `ForkDatabase.AncestorsShareLast` | libraries/chain/fork_database.cpp:168-210 | and then they do share it |
| `ForkDatabase.MostRecentCommonAncestor` | libraries/chain/fork_database.cpp:168-210 | no other common parent is higher |
| `ForkDatabase.ForkDb.PushBlock` | libraries/chain/fork_database.cpp:47-71 | when a block is accepted, and when it becomes the head |
| `ForkDatabase.ForkDb.SetMaxSize` | libraries/chain/fork_database.cpp:92-124 | forgets exactly the blocks too far below the head |
| `ForkDatabase.ForkDb.WalkMainBranchToNum` | libraries/chain/fork_database.cpp:212-222 | the ancestor of the head at that height |
| `ForkDatabase.AncestorNum` | libraries/protocol/block.cpp:10-21 | links go down by exactly one |
| `ForkSwitch.Database.PushBlock` | libraries/chain/database.cpp:847-925 | extends, switches, stores or refuses; a refused block leaves the chain state as it was |
| `ForkSwitch.Database.SwitchFork` | libraries/chain/database.cpp:858-906 | all or nothing: every block of the new branch applied in order from the fork point, or the state before, with the failing block and its successors gone from the fork database |
| `ForkSwitch.Database.SwitchBack` | libraries/chain/database.cpp:882-903 | after a failure the chain, its undo history and its blocks are what they were, and so is what the index holds below the head |
| `ForkSwitch.Database.Push` | libraries/chain/database.cpp:847-925 | a new block that does not contradict the irreversible one always finds what a switch needs, and leaves enough for the next push |
| `ForkSwitch.Database.PushAgain` | libraries/chain/database.cpp:847-925 | a block that is stored already never changes the chain; it is given up exactly behind a refused block, and enough is kept if and only if it is not given up from the way down to the irreversible block |
| `ForkSwitch.HeadForgotten` | libraries/chain/database.cpp:912-921 | a refused block and the head block once more, and the fork database has forgotten the head block |
| `ForkSwitch.Database.PushRetains` | libraries/chain/database.cpp:858-906 | undo history and fork items back to the irreversible block suffice for every switch and for switching back |
| `ForkSwitch.Database.Commit` | libraries/chain/database.cpp:4182-4220 | committing and pruning the fork database to head minus irreversible number plus one keeps enough |
| `ForkSwitch.Database.PopBlock` | libraries/chain/database.cpp:1126-1142 | undoes one block and steps the fork head down its own branch |
| `Irreversibility.CandidateIsLargest` | libraries/chain/database.cpp:4150-4169 | the candidate is the largest number that at least the quorum of the scheduled witnesses, counted one by one, support |
| `Irreversibility.AdvanceExact` | libraries/chain/database.cpp:3885-3947 | one pass over the validations ends at the last number up to which every block is validated |
| `Irreversibility.CountMarks` | libraries/chain/database.cpp:3889-3896 | the loop counts the witnesses of a record that have validated it |
| `Irreversibility.QuorumsAgree` | libraries/chain/database.cpp:3897-3897 | enough validations, with the producer, are as many witnesses as the other quorum |
| `Irreversibility.Finality.UpdateLastIrreversible` | libraries/chain/database.cpp:4140-4220 | the number goes to the candidate if that is higher and is committed; it fails exactly where the main branch lacks a block up to there, and then the number stays raised |
| `Irreversibility.Finality.CheckValidations` | libraries/chain/database.cpp:3877-3951 | the pass above, in place, with commits, log and fork database following: the number rises over a block exactly when there is a record with three quarters of the scheduled witnesses marked for it and for every block before; a failure leaves what was raised |
| `Irreversibility.Finality.ApplyValidation` | libraries/chain/database.cpp:3956-4042 | one message marks one record and moves the number on by at most one, exactly when that record is of the next block and three quarters of the scheduled witnesses are then marked in it; it fails exactly when the main branch has a gap there |
| `Irreversibility.Finality.CreateValidation` | libraries/chain/database.cpp:4075-4121 | final records go, of the others only the oldest when there would be more than twenty, and every scheduled witness but the producer is asked |
| `Irreversibility.Finality.ExtendLog` | libraries/chain/database.cpp:4187-4203 | blocks of the main branch are appended without a gap; it fails exactly where the main branch lacks one |
| `Irreversibility.Finality.ApplyBlock` | libraries/chain/database.cpp:912-919 | a block in its own session: where it leads, why it can fail, and which states can be undone to afterwards; a failure is undone unless the block committed itself |
| `Irreversibility.Finality.Discard` | libraries/chain/database.cpp:1146-1149 | clearing pending transactions restores the state before them, with whatever messages have changed since |
| `Irreversibility.Finality.Pop` | libraries/chain/database.cpp:1126-1142 | popping a block restores number, head and records of before, and steps the fork head down |
| `Irreversibility.Finality.Restart` | libraries/chain/database.cpp:232-257 | undoing everything leads exactly to the committed block; the node starts if and only if the log has it |
| `Irreversibility.Finality.Take` | libraries/chain/database.cpp:3956-4042 | in every step the committed number and the log only grow; the last irreversible number falls if and only if the step undoes a state that had raised it; the log falls behind exactly in a step that stalls |
| `Irreversibility.Finality.Run` | libraries/chain/database.cpp:3877-3951 | along any run of blocks pushed, applied, undone and given up, messages, pending sessions and restarts the last irreversible number is at most the committed one, and that is at most the head; the log reaches the number unless a step stalled, and is a chain unless it strayed |
| `Irreversibility.FallingRun` | libraries/chain/database.cpp:951-952 | a message raises the number to 1 in a pending session, and the next block takes it back to 0 |
| `Irreversibility.StallRun` | libraries/chain/database.cpp:3989-4015 | after a switch two messages take the number to 2 and the log to 1 |
| `Irreversibility.AppendedLinked` | libraries/chain/database.cpp:4187-4203 | blocks appended on the way down from the fork head continue the chain of the log |
| `BlockLog.LogFile.Append` | libraries/chain/block_log.cpp:195-219 | accepts exactly the next number; both files are then those of the longer sequence |
| `BlockLog.LogFile.ReadBlockByNum` | libraries/chain/block_log.cpp:270-285 | block n is the n-th appended, and nothing is read for other numbers |
| `BlockLog.ReadsBack` | libraries/chain/block_log.cpp:73-88 | from the start of a block it is read, and the reader is at the start of the next |
| `BlockLog.ReadsHead` | libraries/chain/block_log.cpp:90-95 | the head is the last block |
| `BlockLog.WalkVisitsAll` | libraries/chain/block_log.cpp:115-132 | a walk from position 0 visits exactly all blocks |
| `BlockLog.LogFile.ConstructIndex` | libraries/chain/block_log.cpp:115-132 | rebuilding gives the index of incremental appends, within the bounds of the file |
| `BlockLog.LogFile.Open` | libraries/chain/block_log.cpp:134-193 | what opening makes of any index file |
| `BlockLog.OpenRestoresIndex` | libraries/chain/block_log.cpp:163-185 | opening with the first n bytes of an index restores it, if and only if the cut is between words or the bytes before it do not spell the last position |
| `BlockLog.OpenRestoresLog` | libraries/chain/block_log.cpp:163-185 | the same for the index of any log |
| `BlockLog.BrokenIndexKept` | libraries/chain/block_log.cpp:172-180 | fifteen bytes of the index of three blocks are taken for the whole |
| `BlockLog.StraddledValue` | libraries/chain/block_log.cpp:53-62 | what bytes straddling two entries spell |
| `BlockLog.WordRoundTrip` | libraries/chain/block_log.cpp:42-62 | 64-bit words read back |
| `Merkle.CalculateMerkleRoot` | libraries/protocol/block.cpp:35-64 | the loop that overwrites the array it reads computes the level-by-level reduction |
| `Merkle.ReduceIsTreeHash` | libraries/protocol/block.cpp:35-64 | which is the hash of a tree with all leaves in order and of least height |
| `Merkle.HalveInPlace` | libraries/protocol/block.cpp:44-60 | one pass in place is one level, with an odd element carried up |

## Left out

- Witness vote totals: the truncating split and the clamp at zero make them inexact; only the proxied tally is modelled.
- Content, votes on content, curation and cashout: deprecated since hardfork 4.
- Hardfork migrations, genesis and snapshots, except the delegation recomputation that serves as a specification.
- Storage, locks, signals and virtual operations; undo sessions inside a ledger operation: a failed one leaves the ledger as it was. What undo sessions do to finality is modelled, also what a failed message leaves behind.
- Cryptography, serialisation and account names: signatures, digests and packing are parameters; accounts in the ledger are numbered in the order of their creation, with 0 for the empty name.
- Integer widths, except where named: 32-bit weights, 16-bit percentages, 128-bit virtual time and 64-bit log positions are modelled, other amounts are unbounded.
- Regenerated energy, delegated and received shares and consensus parameters are arguments of the ledger operations, not state; effective shares below zero, which `Delegations.ReachableSolvent` excludes, count as zero.
- Authorities: the lookup of an account's authority is a total function, so the exception for a missing account is not modelled.
- Non-negative balances: not claimed, since a bid does not check the balance of the bidder.
- Ledger.Ledger.ProcessWithdrawals: the order in which due accounts are visited is an argument, because it depends on how the index moves under the iterator; the claims hold for every order.
- Ledger.Ledger.RenewSubscriptions: the same holds for subscriptions; and a subscription that has run out counts as having no time left.
- Delegations.ReachableSolvent: energy, fees, routes to other accounts and the signatures of special accounts are arguments of the operations or left out; that nobody can sign for those is `SignStates.KeylessUnderivable`.
- Ledger.Ledger.ConcludeRequest: the effective shares of the voters are an argument.
- Ledger.Ledger.RequestRecovery: who may ask for a recovery is not modelled; the history of master authorities is kept by `RecordMaster`, and which one an account has now is not state.
- Ledger.Ledger.RegisterByInvite: the secret that opens an invite is not modelled; the key is an argument.
- ForkDatabase.ForkDb.PopBlock: an item's link to its parent is resolved through the index, where the code keeps a weak pointer to it.
- ForkSwitch.Database.PushBlock: stated for any index and undo history that retain what a switch needs, otherwise the code throws half-way; `Push` shows that this is retained for new blocks that lead down to the irreversible block.
- ForkSwitch.Database.Push: a block that makes the chain switch to a branch not leading down to the irreversible block, for which the code throws half-way, is not covered; blocks that are stored already are, by `PushAgain`.
- ForkSwitch.Database.SwitchFork: what apply_block commits is the separate `Commit`; skip flags that differ between blocks are not modelled; ids of different blocks are taken to differ.
- Irreversibility.Finality.ApplyBlock: whether a block fails for other reasons is an argument, and the witnesses' support of blocks, which undoing restores too, is one as well.
- Irreversibility.Finality.Pop: the head block is taken to be found in the fork database or the log.
- Irreversibility.Finality.Restart: the ids of the chain head and of its block in the log are taken to agree; an empty chain starts with an empty fork database.
- Messages and blocks are handled one at a time, though the message handler takes no lock.
- Irreversibility.Candidate: nth_element is taken by its specification, the element of that rank.
