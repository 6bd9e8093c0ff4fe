/**
 The account table of the ledger, the ways in which operations change it, and what every
 one of these ways keeps.
 */
module AccountTable {
  import opened Sums
  import opened Auctions

  datatype Account = Account(balance: int, reserved: int, shares: int, sale: Sale)

  const NewAccount := Account(0, 0, 0, NoSale)

  type Accounts = map<Name, Account>

  // ----- Totals -----

  ghost function HeldBy(): Account -> int { (v: Account) => v.balance + v.reserved }
  ghost function SharesBy(): Account -> int { (v: Account) => v.shares }
  ghost function BidBy(x: Name): Account -> int { (v: Account) => if v.sale.bidder == x then v.sale.bid else 0 }

  /** All balances and reserved balances. */
  ghost function Held(accs: Accounts): int { SumMap(accs, HeldBy()) }

  /** All vesting shares. */
  ghost function AllShares(accs: Accounts): int { SumMap(accs, SharesBy()) }

  /** The standing bids of `x`. */
  ghost function BidsOf(accs: Accounts, x: Name): int { SumMap(accs, BidBy(x)) }

  // ----- What is true of every account -----

  ghost predicate Fields(v: Account, names: set<Name>)
  {
    Sound(v.sale, names) && v.shares >= 0
  }

  ghost predicate FieldsAt(accs: Accounts, names: set<Name>, x: Name)
  {
    x in accs && Fields(accs[x], names)
  }

  /** What an account has reserved is what it has bid. */
  ghost predicate Matched(accs: Accounts, x: Name)
  {
    x in accs && accs[x].reserved == BidsOf(accs, x)
  }

  ghost predicate AllMatched(accs: Accounts, names: set<Name>)
  {
    forall x {:trigger Matched(accs, x)} :: x in names ==> Matched(accs, x)
  }

  ghost predicate AllFields(accs: Accounts, names: set<Name>)
  {
    forall x {:trigger FieldsAt(accs, names, x)} :: x in names ==> FieldsAt(accs, names, x)
  }

  ghost predicate AllGood(accs: Accounts, names: set<Name>)
  {
    NOBODY !in names && accs.Keys == names && AllFields(accs, names) && AllMatched(accs, names)
  }

  /** Two tables hold the same names, and the totals differ by so much. */
  ghost predicate Differ(accs: Accounts, accs': Accounts, held: int, shares: int)
  {
    Held(accs') == Held(accs) + held && AllShares(accs') == AllShares(accs) + shares
  }

  // ----- Ways to change the table -----

  function Put(accs: Accounts, a: Name, v: Account): Accounts { accs[a := v] }

  lemma PutDiffers(accs: Accounts, a: Name, v: Account)
    requires a in accs
    ensures Differ(accs, Put(accs, a, v), v.balance + v.reserved - accs[a].balance - accs[a].reserved,
            v.shares - accs[a].shares)
  {
    SumMapUpdate(accs, HeldBy(), a, v);
    SumMapUpdate(accs, SharesBy(), a, v);
  }

  lemma PutBids(accs: Accounts, a: Name, v: Account, x: Name)
    requires a in accs
    ensures BidsOf(Put(accs, a, v), x) == BidsOf(accs, x) - BidBy(x)(accs[a]) + BidBy(x)(v)
  {
    SumMapUpdate(accs, BidBy(x), a, v);
  }

  lemma PutFields(accs: Accounts, names: set<Name>, a: Name, v: Account)
    requires AllFields(accs, names) && Fields(v, names)
    ensures AllFields(Put(accs, a, v), names)
  {
    forall x | x in names ensures FieldsAt(Put(accs, a, v), names, x) {
      assert FieldsAt(accs, names, x);
    }
  }

  lemma MatchedStays(accs: Accounts, a: Name, v: Account, x: Name)
    requires a in accs && Matched(accs, x)
    requires v.reserved == accs[a].reserved && v.sale.bidder == accs[a].sale.bidder && v.sale.bid == accs[a].sale.bid
    ensures Matched(Put(accs, a, v), x)
  {
    PutBids(accs, a, v, x);
  }

  /** Changes that leave the bid of the account and what it has reserved alone. */
  lemma PutGood(accs: Accounts, names: set<Name>, a: Name, v: Account)
    requires AllGood(accs, names) && a in names && Fields(v, names)
    requires v.reserved == accs[a].reserved && v.sale.bidder == accs[a].sale.bidder && v.sale.bid == accs[a].sale.bid
    ensures AllGood(Put(accs, a, v), names)
  {
    PutFields(accs, names, a, v);
    forall x | x in names ensures Matched(Put(accs, a, v), x) {
      assert Matched(accs, x);
      MatchedStays(accs, a, v, x);
    }
  }

  /** adjust_balance. */
  function Credit(accs: Accounts, a: Name, delta: int): (r: Accounts)
    requires a in accs
    ensures r.Keys == accs.Keys
  {
    Put(accs, a, accs[a].(balance := accs[a].balance + delta))
  }

  lemma CreditKeeps(accs: Accounts, names: set<Name>, a: Name, delta: int)
    requires AllGood(accs, names) && a in names
    ensures AllGood(Credit(accs, a, delta), names) && Differ(accs, Credit(accs, a, delta), delta, 0)
  {
    assert FieldsAt(accs, names, a);
    PutGood(accs, names, a, accs[a].(balance := accs[a].balance + delta));
    PutDiffers(accs, a, accs[a].(balance := accs[a].balance + delta));
  }

  function Grant(accs: Accounts, a: Name, delta: int): (r: Accounts)
    requires a in accs
    ensures r.Keys == accs.Keys
  {
    Put(accs, a, accs[a].(shares := accs[a].shares + delta))
  }

  lemma GrantKeeps(accs: Accounts, names: set<Name>, a: Name, delta: int)
    requires AllGood(accs, names) && a in names && accs[a].shares + delta >= 0
    ensures AllGood(Grant(accs, a, delta), names) && Differ(accs, Grant(accs, a, delta), 0, delta)
  {
    assert FieldsAt(accs, names, a);
    PutGood(accs, names, a, accs[a].(shares := accs[a].shares + delta));
    PutDiffers(accs, a, accs[a].(shares := accs[a].shares + delta));
  }

  /** The sale changes, but not the standing bid. */
  function PutSale(accs: Accounts, a: Name, s: Sale): (r: Accounts)
    requires a in accs
    ensures r.Keys == accs.Keys
  {
    Put(accs, a, accs[a].(sale := s))
  }

  lemma PutSaleKeeps(accs: Accounts, names: set<Name>, a: Name, s: Sale)
    requires AllGood(accs, names) && a in names && Sound(s, names)
    requires s.bidder == accs[a].sale.bidder && s.bid == accs[a].sale.bid
    ensures AllGood(PutSale(accs, a, s), names) && Differ(accs, PutSale(accs, a, s), 0, 0)
  {
    assert FieldsAt(accs, names, a);
    PutGood(accs, names, a, accs[a].(sale := s));
    PutDiffers(accs, a, accs[a].(sale := s));
  }

  function Reserve(accs: Accounts, x: Name, delta: int): (r: Accounts)
    requires x in accs
    ensures r.Keys == accs.Keys
  {
    Put(accs, x, accs[x].(reserved := accs[x].reserved + delta))
  }

  /** The standing bid on `a` is released: it is reserved no longer, and belongs to nobody yet. */
  function Release(accs: Accounts, a: Name): (r: Accounts)
    requires a in accs && accs[a].sale.bidder in accs
    ensures r.Keys == accs.Keys
  {
    var s := accs[a].sale;
    PutSale(Reserve(accs, s.bidder, -s.bid), a, WithoutBid(s))
  }

  lemma MatchedMoves(accs: Accounts, a: Name, x: Name, delta: int, s: Sale, y: Name)
    requires a in accs && x in accs && Matched(accs, y)
    requires BidBy(y)(accs[a].(sale := s)) - BidBy(y)(accs[a]) == if y == x then delta else 0
    ensures Matched(PutSale(Reserve(accs, x, delta), a, s), y)
  {
    var mid := Reserve(accs, x, delta);
    PutBids(accs, x, accs[x].(reserved := accs[x].reserved + delta), y);
    PutBids(mid, a, mid[a].(sale := s), y);
  }

  /** `x` is the only account whose bids change, and what it has reserved changes with them. */
  ghost predicate OnlyMoves(s: Sale, s': Sale, x: Name, delta: int)
  {
    forall y {:trigger BidBy(y)} :: y != NOBODY ==>
      (if s'.bidder == y then s'.bid else 0) - (if s.bidder == y then s.bid else 0) == if y == x then delta else 0
  }

  lemma BidMovesFields(accs: Accounts, names: set<Name>, a: Name, x: Name, delta: int, s: Sale)
    requires AllFields(accs, names) && a in names && x in names && a in accs && x in accs && Sound(s, names)
    ensures AllFields(PutSale(Reserve(accs, x, delta), a, s), names)
  {
    var v, mid := accs[x].(reserved := accs[x].reserved + delta), Reserve(accs, x, delta);
    assert FieldsAt(accs, names, x);
    PutFields(accs, names, x, v);
    assert FieldsAt(mid, names, a);
    PutFields(mid, names, a, mid[a].(sale := s));
  }

  lemma BidMovesMatched(accs: Accounts, names: set<Name>, a: Name, x: Name, delta: int, s: Sale)
    requires NOBODY !in names && AllMatched(accs, names) && a in accs && x in accs &&
             OnlyMoves(accs[a].sale, s, x, delta)
    ensures AllMatched(PutSale(Reserve(accs, x, delta), a, s), names)
  {
    forall y | y in names ensures Matched(PutSale(Reserve(accs, x, delta), a, s), y) {
      assert Matched(accs, y);
      assert BidBy(y) == BidBy(y);
      MatchedMoves(accs, a, x, delta, s, y);
    }
  }

  lemma BidMoves(accs: Accounts, names: set<Name>, a: Name, x: Name, delta: int, s: Sale)
    requires AllGood(accs, names) && a in names && x in names && Sound(s, names) && OnlyMoves(accs[a].sale, s, x, delta)
    ensures var r := PutSale(Reserve(accs, x, delta), a, s);
            AllGood(r, names) && Differ(accs, r, delta, 0) && r[a].sale == s
  {
    var mid := Reserve(accs, x, delta);
    PutDiffers(accs, x, accs[x].(reserved := accs[x].reserved + delta));
    PutDiffers(mid, a, mid[a].(sale := s));
    BidMovesFields(accs, names, a, x, delta, s);
    BidMovesMatched(accs, names, a, x, delta, s);
  }

  lemma ReleaseKeeps(accs: Accounts, names: set<Name>, a: Name)
    requires AllGood(accs, names) && a in names && accs[a].sale.bidder != NOBODY
    ensures accs[a].sale.bidder in names
    ensures AllGood(Release(accs, a), names) && Differ(accs, Release(accs, a), -accs[a].sale.bid, 0)
    ensures Release(accs, a)[a].sale == WithoutBid(accs[a].sale)
  {
    assert FieldsAt(accs, names, a);
    var s := accs[a].sale;
    BidMoves(accs, names, a, s.bidder, -s.bid, WithoutBid(s));
  }

  /** A bid is placed on `a`, where none stands. */
  function Pledge(accs: Accounts, a: Name, s: Sale): (r: Accounts)
    requires a in accs && s.bidder in accs
    ensures r.Keys == accs.Keys
  {
    PutSale(Reserve(accs, s.bidder, s.bid), a, s)
  }

  lemma PledgeKeeps(accs: Accounts, names: set<Name>, a: Name, s: Sale)
    requires AllGood(accs, names) && a in names && accs[a].sale.bidder == NOBODY && s.bidder in names && Sound(s, names)
    ensures AllGood(Pledge(accs, a, s), names) && Differ(accs, Pledge(accs, a, s), s.bid, 0)
  {
    BidMoves(accs, names, a, s.bidder, s.bid, s);
  }

  lemma AddFields(accs: Accounts, names: set<Name>, a: Name)
    requires AllFields(accs, names)
    ensures AllFields(Put(accs, a, NewAccount), names + {a})
  {
    forall x | x in names + {a} ensures FieldsAt(Put(accs, a, NewAccount), names + {a}, x) {
      assert x in names ==> FieldsAt(accs, names, x);
    }
  }

  lemma AddMatched(accs: Accounts, a: Name, x: Name)
    requires a !in accs && x != NOBODY && (x == a || Matched(accs, x)) && (x == a ==> BidsOf(accs, a) == 0)
    ensures Matched(Put(accs, a, NewAccount), x)
  {
    SumMapUpdate(accs, BidBy(x), a, NewAccount);
  }

  lemma AddDiffers(accs: Accounts, a: Name)
    requires a !in accs
    ensures Differ(accs, Put(accs, a, NewAccount), 0, 0)
  {
    SumMapUpdate(accs, HeldBy(), a, NewAccount);
    SumMapUpdate(accs, SharesBy(), a, NewAccount);
  }

  /** A new account. */
  lemma AddKeeps(accs: Accounts, names: set<Name>, a: Name)
    requires AllGood(accs, names) && a !in names && a != NOBODY
    ensures AllGood(Put(accs, a, NewAccount), names + {a}) && Differ(accs, Put(accs, a, NewAccount), 0, 0)
  {
    AddDiffers(accs, a);
    AddFields(accs, names, a);
    NoBids(accs, names, a);
    forall x | x in names + {a} ensures Matched(Put(accs, a, NewAccount), x) {
      assert x in names ==> Matched(accs, x);
      AddMatched(accs, a, x);
    }
  }

  lemma NoBids(accs: Accounts, names: set<Name>, x: Name)
    requires AllGood(accs, names) && x !in names && x != NOBODY
    ensures BidsOf(accs, x) == 0
  {
    forall a | a in accs.Keys ensures At(accs, BidBy(x))(a) == 0 {
      assert FieldsAt(accs, names, a);
    }
    SumZero(accs.Keys, At(accs, BidBy(x)));
  }

  lemma {:induction false} SharesNonNegative(accs: Accounts, names: set<Name>, s: set<Name>)
    requires AllGood(accs, names) && s <= names
    ensures Sum(s, At(accs, SharesBy())) >= 0
    decreases s
  {
    if s != {} {
      var x :| x in s;
      SumSplit(s, At(accs, SharesBy()), x);
      assert FieldsAt(accs, names, x);
      SharesNonNegative(accs, names, s - {x});
    }
  }

  /** No account holds more than all shares. */
  lemma AtMostAllShares(accs: Accounts, names: set<Name>, a: Name)
    requires AllGood(accs, names) && a in names
    ensures 0 <= accs[a].shares <= AllShares(accs)
  {
    assert FieldsAt(accs, names, a);
    SumSplit(accs.Keys, At(accs, SharesBy()), a);
    SharesNonNegative(accs, names, accs.Keys - {a});
  }

  // ----- Auctions -----

  /** The standing bid on `a`, if any, goes back to its bidder. */
  function Refunded(accs: Accounts, a: Name): (r: Accounts)
    requires a in accs && accs[a].sale.bidder in accs
    ensures r.Keys == accs.Keys
  {
    Credit(Release(accs, a), accs[a].sale.bidder, accs[a].sale.bid)
  }

  lemma RefundedKeeps(accs: Accounts, names: set<Name>, a: Name)
    requires AllGood(accs, names) && a in names && accs[a].sale.bidder != NOBODY
    ensures accs[a].sale.bidder in names
    ensures AllGood(Refunded(accs, a), names) && Differ(accs, Refunded(accs, a), 0, 0)
    ensures Refunded(accs, a)[a].sale == WithoutBid(accs[a].sale)
  {
    hide AllFields, AllMatched, Held, AllShares;
    ReleaseKeeps(accs, names, a);
    CreditKeeps(Release(accs, a), names, accs[a].sale.bidder, accs[a].sale.bid);
  }

  lemma SaleFacts(accs: Accounts, names: set<Name>, a: Name)
    requires AllGood(accs, names) && a in names
    ensures a in accs && Sound(accs[a].sale, names)
  {
    assert FieldsAt(accs, names, a);
  }

  /** Who gets the bid when the auction is over: the seller, unless the account is not sold after all. */
  function Payee(s: Sale, recovering: bool): Name
  {
    if s.onSale && !recovering then s.seller else s.bidder
  }

  function SettledTable(accs: Accounts, a: Name, recovering: bool): (r: Accounts)
    requires a in accs && accs[a].sale.bidder in accs && Payee(accs[a].sale, recovering) in accs
    ensures r.Keys == accs.Keys
  {
    var s := accs[a].sale;
    PutSale(Credit(Release(accs, a), Payee(s, recovering), s.bid), a, Settled(s, recovering))
  }

  lemma SettledIs(accs: Accounts, a: Name, recovering: bool, payee: Name, after: Sale)
    requires a in accs && accs[a].sale.bidder in accs && Payee(accs[a].sale, recovering) in accs
    requires payee == Payee(accs[a].sale, recovering) && after == Settled(accs[a].sale, recovering)
    ensures SettledTable(accs, a, recovering) ==
            PutSale(Credit(Release(accs, a), payee, accs[a].sale.bid), a, after)
  {
  }

  lemma SettledKeeps(accs: Accounts, names: set<Name>, a: Name, recovering: bool)
    requires AllGood(accs, names) && a in names && accs[a].sale.onAuction
    ensures accs[a].sale.bidder in names && Payee(accs[a].sale, recovering) in names
    ensures AllGood(SettledTable(accs, a, recovering), names) && Differ(accs, SettledTable(accs, a, recovering), 0, 0)
  {
    hide AllFields, AllMatched, Held, AllShares;
    SaleFacts(accs, names, a);
    var s := accs[a].sale;
    ReleaseKeeps(accs, names, a);
    var free := Release(accs, a);
    CreditKeeps(free, names, Payee(s, recovering), s.bid);
    SettledSound(s, recovering, names);
    PutSaleKeeps(Credit(free, Payee(s, recovering), s.bid), names, a, Settled(s, recovering));
  }

  // What one operation brings to each account.

  /** `x` has so much more than before, and nothing else but its sale may have changed. */
  ghost predicate Gets(accs: Accounts, accs': Accounts, x: Name, tokens: int, reserved: int, shares: int)
  {
    && x in accs && x in accs'
    && accs'[x].balance == accs[x].balance + tokens
    && accs'[x].reserved == accs[x].reserved + reserved
    && accs'[x].shares == accs[x].shares + shares
  }

  /** No other account is put on sale, or taken off. */
  ghost predicate OneSale(accs: Accounts, accs': Accounts, a: Name)
  {
    accs'.Keys == accs.Keys && forall x :: x in accs && x != a ==> accs'[x].sale == accs[x].sale
  }

  /** A new offer for `a`; it costs a fee while there is no seller, and a bid that does not stay is given back. */
  ghost predicate OfferMade(accs: Accounts, accs': Accounts, a: Name, fee: int, back: bool)
  {
    && a in accs && OneSale(accs, accs', a)
    && forall x {:trigger accs'[x]} :: x in accs ==>
         var bid := if back && x == accs[a].sale.bidder then accs[a].sale.bid else 0;
         Gets(accs, accs', x, bid - (if x == a && accs[a].sale.seller == NOBODY then fee else 0), -bid, 0)
  }

  /** A bid: the money of the bidder is reserved, and the bidder before has its own back. */
  ghost predicate BidMade(accs: Accounts, accs': Accounts, a: Name, buyer: Name, amount: int)
  {
    && a in accs && OneSale(accs, accs', a)
    && forall x {:trigger accs'[x]} :: x in accs ==>
         var bid := if accs[a].sale.bidder != NOBODY && x == accs[a].sale.bidder then accs[a].sale.bid else 0;
         var own := if x == buyer then amount else 0;
         Gets(accs, accs', x, bid - own, own - bid, 0)
  }

  /** A direct purchase: the seller gets the price, and the account a stake. */
  ghost predicate PurchaseMade(accs: Accounts, accs': Accounts, a: Name, buyer: Name, price: int, tokens: int,
                               shares: int)
  {
    && a in accs && OneSale(accs, accs', a)
    && forall x {:trigger accs'[x]} :: x in accs ==>
         Gets(accs, accs', x,
              (if x == accs[a].sale.seller then price else 0) - (if x == buyer then price + tokens else 0), 0,
              if x == a then shares else 0)
  }

  lemma RefundedAt(accs: Accounts, a: Name, x: Name)
    requires a in accs && accs[a].sale.bidder in accs && x in accs
    ensures var s := accs[a].sale;
            var bid := if x == s.bidder then s.bid else 0;
            Refunded(accs, a)[x] == accs[x].(balance := accs[x].balance + bid, reserved := accs[x].reserved - bid,
                                             sale := if x == a then WithoutBid(s) else accs[x].sale)
  {
  }

  lemma PledgedAt(accs: Accounts, a: Name, s: Sale, x: Name)
    requires a in accs && s.bidder in accs && x in accs
    ensures var own := if x == s.bidder then s.bid else 0;
            Credit(Pledge(accs, a, s), s.bidder, -s.bid)[x] ==
            accs[x].(balance := accs[x].balance - own, reserved := accs[x].reserved + own,
                     sale := if x == a then s else accs[x].sale)
  {
  }

  lemma BidPlaced(accs: Accounts, a: Name, s: Sale)
    requires a in accs && s.bidder in accs && (accs[a].sale.bidder != NOBODY ==> accs[a].sale.bidder in accs)
    ensures var before := if accs[a].sale.bidder != NOBODY then Refunded(accs, a) else accs;
            var r := Credit(Pledge(before, a, s), s.bidder, -s.bid);
            BidMade(accs, r, a, s.bidder, s.bid) && r[a].sale == s
  {
    hide WithoutBid, Refunded, Pledge, Credit;
    var before := if accs[a].sale.bidder != NOBODY then Refunded(accs, a) else accs;
    forall x | x in accs
      ensures var own := if x == s.bidder then s.bid else 0;
              Credit(Pledge(before, a, s), s.bidder, -s.bid)[x] ==
              before[x].(balance := before[x].balance - own, reserved := before[x].reserved + own,
                         sale := if x == a then s else before[x].sale)
      ensures var bid := if accs[a].sale.bidder != NOBODY && x == accs[a].sale.bidder then accs[a].sale.bid else 0;
              before[x] == accs[x].(balance := accs[x].balance + bid, reserved := accs[x].reserved - bid,
                                    sale := before[x].sale) && (x != a ==> before[x].sale == accs[x].sale)
    {
      PledgedAt(before, a, s, x);
      if accs[a].sale.bidder != NOBODY {
        RefundedAt(accs, a, x);
      }
    }
  }

  /** The account has changed hands: the auction ended while it was for sale and nobody was recovering it. */
  predicate IsSold(s: Sale, recovering: bool) { s.onSale && !recovering }

  /** A sold account pays its seller the bid that the bidder had reserved. */
  ghost predicate SellerPaid(accs: Accounts, accs': Accounts, s: Sale)
  {
    && s.seller in accs && s.bidder in accs && s.seller in accs' && s.bidder in accs'
    && accs'[s.seller].balance == accs[s.seller].balance + s.bid
    && (s.bidder != s.seller ==> accs'[s.bidder].balance == accs[s.bidder].balance)
    && accs'[s.bidder].reserved == accs[s.bidder].reserved - s.bid
  }

  /** Any other auction gives it back. */
  ghost predicate BidderRefunded(accs: Accounts, accs': Accounts, s: Sale)
  {
    && s.bidder in accs && s.bidder in accs'
    && accs'[s.bidder].balance == accs[s.bidder].balance + s.bid
    && accs'[s.bidder].reserved == accs[s.bidder].reserved - s.bid
    && (s.seller in accs && s.seller != s.bidder ==>
          s.seller in accs' && accs'[s.seller].balance == accs[s.seller].balance)
  }

  /** No bid stands any more; a sold account is not for sale, one called off keeps its seller. */
  predicate SaleOver(s: Sale, s': Sale, recovering: bool)
  {
    if !s.onSale then s' == s.(onAuction := false, bid := 0, bidder := NOBODY, lastBid := 0, recovered := false)
    else s' == NoSale.(seller := if recovering then s.seller else NOBODY)
  }

  /** Everybody else keeps what they have. */
  ghost predicate OthersKeep(accs: Accounts, accs': Accounts, a: Name, s: Sale)
  {
    && accs'.Keys == accs.Keys
    && forall x {:trigger accs'[x]} :: x in accs ==>
         && accs'[x].shares == accs[x].shares && (x != a ==> accs'[x].sale == accs[x].sale)
         && (x != s.bidder ==> accs'[x].reserved == accs[x].reserved)
         && (x != s.bidder && x != s.seller ==> accs'[x].balance == accs[x].balance)
  }

  /** The end of the auction of `a`: who is paid, what becomes of the sale, and that nothing else changes. */
  ghost predicate AuctionOver(accs: Accounts, accs': Accounts, a: Name, recovering: bool)
  {
    && a in accs && a in accs'
    && var s := accs[a].sale;
       && (IsSold(s, recovering) ==> SellerPaid(accs, accs', s))
       && (!IsSold(s, recovering) ==> BidderRefunded(accs, accs', s))
       && SaleOver(s, accs'[a].sale, recovering) && OthersKeep(accs, accs', a, s)
  }

  lemma SettledPays(accs: Accounts, a: Name, recovering: bool)
    requires a in accs && accs[a].sale.bidder in accs && Payee(accs[a].sale, recovering) in accs
    ensures AuctionOver(accs, SettledTable(accs, a, recovering), a, recovering)
  {
    hide SettledTable, Settled;
    var s, accs' := accs[a].sale, SettledTable(accs, a, recovering);
    SettledSale(s, recovering);
    forall x | x in accs
      ensures accs'[x].balance == accs[x].balance + if x == Payee(s, recovering) then s.bid else 0
      ensures accs'[x].reserved == accs[x].reserved - if x == s.bidder then s.bid else 0
      ensures accs'[x].shares == accs[x].shares
      ensures accs'[x].sale == if x == a then Settled(s, recovering) else accs[x].sale
    {
      SettledAt(accs, a, recovering, x);
    }
  }

  lemma SettledSale(s: Sale, recovering: bool)
    ensures SaleOver(s, Settled(s, recovering), recovering)
  {
  }

  lemma SettledAt(accs: Accounts, a: Name, recovering: bool, x: Name)
    requires a in accs && x in accs && accs[a].sale.bidder in accs && Payee(accs[a].sale, recovering) in accs
    ensures var s, r := accs[a].sale, SettledTable(accs, a, recovering)[x];
            && r.balance == accs[x].balance + (if x == Payee(s, recovering) then s.bid else 0)
            && r.reserved == accs[x].reserved - (if x == s.bidder then s.bid else 0)
            && r.shares == accs[x].shares
            && r.sale == if x == a then Settled(s, recovering) else accs[x].sale
  {
    hide Settled;
  }

  // What the auctions of accounts bring to `x`.

  /** The bids on what `x` sells. */
  ghost function SoldBy(accs: Accounts, recovering: set<Name>, x: Name): Name -> int
  {
    a => if a in accs && IsSold(accs[a].sale, a in recovering) && accs[a].sale.seller == x then accs[a].sale.bid else 0
  }

  /** The bids of `x` that come back. */
  ghost function RefundedTo(accs: Accounts, recovering: set<Name>, x: Name): Name -> int
  {
    a => if a in accs && !IsSold(accs[a].sale, a in recovering) && accs[a].sale.bidder == x then accs[a].sale.bid else 0
  }

  /** The bids of `x` in all. */
  ghost function ReservedFor(accs: Accounts, x: Name): Name -> int
  {
    a => if a in accs && accs[a].sale.bidder == x then accs[a].sale.bid else 0
  }

  /** How the auctions of `done` leave the account `x`, when `accs` is the table before. */
  ghost predicate SettledFor(accs: Accounts, accs': Accounts, done: set<Name>, recovering: set<Name>, x: Name)
  {
    && x in accs && x in accs' && accs'[x].shares == accs[x].shares
    && (if x in done then SaleOver(accs[x].sale, accs'[x].sale, x in recovering) else accs'[x].sale == accs[x].sale)
    && accs'[x].balance ==
       accs[x].balance + Sum(done, SoldBy(accs, recovering, x)) + Sum(done, RefundedTo(accs, recovering, x))
    && accs'[x].reserved == accs[x].reserved - Sum(done, ReservedFor(accs, x))
  }

  lemma SettledForStep(accs: Accounts, accs': Accounts, done: set<Name>, recovering: set<Name>, a: Name, x: Name)
    requires SettledFor(accs, accs', done, recovering, x) && SettledFor(accs, accs', done, recovering, a) && a !in done
    requires accs'[a].sale.bidder in accs' && Payee(accs'[a].sale, a in recovering) in accs'
    ensures SettledFor(accs, SettledTable(accs', a, a in recovering), done + {a}, recovering, x)
  {
    SettledAt(accs', a, a in recovering, x);
    SettledSale(accs'[a].sale, a in recovering);
    hide SettledTable, SaleOver, Settled, Sum;
    SumMore(done, SoldBy(accs, recovering, x), a);
    SumMore(done, RefundedTo(accs, recovering, x), a);
    SumMore(done, ReservedFor(accs, x), a);
  }

  lemma SettledForNone(accs: Accounts, recovering: set<Name>, x: Name)
    requires x in accs
    ensures SettledFor(accs, accs, {}, recovering, x)
  {
  }

  // ----- Paying many -----

  ghost function ShareOf<K(!new)>(whom: K -> Name, amount: K -> int, x: Name): K -> int
  {
    k => if whom(k) == x then amount(k) else 0
  }

  /** For each record in `done` the account `whom` was paid `amount`, and nothing else changed. */
  ghost predicate PaidFor<K(!new)>(accs: Accounts, accs': Accounts, done: set<K>, whom: K -> Name, amount: K -> int,
                            x: Name)
  {
    && x in accs && x in accs'
    && accs'[x] == accs[x].(balance := accs[x].balance + Sum(done, ShareOf(whom, amount, x)))
  }

  lemma PaidForNone<K(!new)>(accs: Accounts, whom: K -> Name, amount: K -> int, x: Name)
    requires x in accs
    ensures PaidFor(accs, accs, {}, whom, amount, x)
  {
  }

  lemma PaidForStep<K(!new)>(accs: Accounts, accs': Accounts, done: set<K>, whom: K -> Name, amount: K -> int,
                      x: Name, k: K)
    requires PaidFor(accs, accs', done, whom, amount, x) && k !in done && whom(k) in accs'
    ensures PaidFor(accs, Credit(accs', whom(k), amount(k)), done + {k}, whom, amount, x)
  {
    SumSplit(done + {k}, ShareOf(whom, amount, x), k);
    assert done + {k} - {k} == done;
  }

  ghost predicate AllPaid<K(!new)>(accs: Accounts, accs': Accounts, names: set<Name>, done: set<K>, whom: K -> Name,
                            amount: K -> int)
  {
    forall x {:trigger PaidFor(accs, accs', done, whom, amount, x)} :: x in names ==>
        PaidFor(accs, accs', done, whom, amount, x)
  }

  lemma AllPaidNone<K(!new)>(accs: Accounts, names: set<Name>, whom: K -> Name, amount: K -> int)
    requires names <= accs.Keys
    ensures AllPaid(accs, accs, names, {}, whom, amount)
  {
    forall x | x in names ensures PaidFor(accs, accs, {}, whom, amount, x) {
      PaidForNone(accs, whom, amount, x);
    }
  }

  lemma AllPaidStep<K(!new)>(accs: Accounts, accs': Accounts, names: set<Name>, done: set<K>, whom: K -> Name,
                      amount: K -> int, k: K)
    requires AllPaid(accs, accs', names, done, whom, amount) && k !in done && whom(k) in accs'
    ensures AllPaid(accs, Credit(accs', whom(k), amount(k)), names, done + {k}, whom, amount)
  {
    forall x | x in names ensures PaidFor(accs, Credit(accs', whom(k), amount(k)), done + {k}, whom, amount, x) {
      assert PaidFor(accs, accs', done, whom, amount, x);
      PaidForStep(accs, accs', done, whom, amount, x, k);
    }
  }

  ghost predicate AllSettled(accs: Accounts, accs': Accounts, names: set<Name>, done: set<Name>, recovering: set<Name>)
  {
    forall x {:trigger SettledFor(accs, accs', done, recovering, x)} :: x in names ==>
        SettledFor(accs, accs', done, recovering, x)
  }

  lemma AllSettledNone(accs: Accounts, names: set<Name>, recovering: set<Name>)
    requires names <= accs.Keys
    ensures AllSettled(accs, accs, names, {}, recovering)
  {
    forall x | x in names ensures SettledFor(accs, accs, {}, recovering, x) {
      SettledForNone(accs, recovering, x);
    }
  }

  lemma AllSettledSale(accs: Accounts, accs': Accounts, names: set<Name>, done: set<Name>, recovering: set<Name>,
                       a: Name)
    requires AllSettled(accs, accs', names, done, recovering) && a in names && a !in done
    ensures a in accs && a in accs' && accs'[a].sale == accs[a].sale
  {
    assert SettledFor(accs, accs', done, recovering, a);
  }

  lemma AllSettledStep(accs: Accounts, accs': Accounts, names: set<Name>, done: set<Name>, recovering: set<Name>,
                       a: Name)
    requires AllSettled(accs, accs', names, done, recovering) && a in names && a !in done
    requires a in accs' && accs'[a].sale.bidder in accs' && Payee(accs'[a].sale, a in recovering) in accs'
    ensures AllSettled(accs, SettledTable(accs', a, a in recovering), names, done + {a}, recovering)
  {
    forall x | x in names ensures SettledFor(accs, SettledTable(accs', a, a in recovering), done + {a}, recovering, x) {
      assert SettledFor(accs, accs', done, recovering, x) && SettledFor(accs, accs', done, recovering, a);
      SettledForStep(accs, accs', done, recovering, a, x);
    }
  }
}
