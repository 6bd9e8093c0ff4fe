/**
 The sale of accounts by auction: what each operation does to the fields of the account
 that is for sale, and what is true of them in every state.
 */
module Auctions {
  import opened Arithmetic

  /** Accounts in the order of their creation; `NOBODY` is the empty name. */
  type Name = nat
  const NOBODY: Name := 0

  const SALE_DELAY: int := 604800             // CHAIN_ACCOUNT_ON_SALE_DELAY, seven days
  const EXTENSION: int := 300                 // CHAIN_ACCOUNT_AUCTION_EXTENSION_TIME, five minutes

  /**
   The last field is not one of the account: it remembers that the account was recovered under a
   standing bid, and neither a new offer nor the end of the auction has come since.
   */
  datatype Sale = Sale(seller: Name, price: int, onSale: bool, start: int,
                       onAuction: bool, bid: int, bidder: Name, lastBid: int, target: Name, recovered: bool)

  const NoSale := Sale(NOBODY, 0, false, 0, false, 0, NOBODY, 0, NOBODY, false)

  /** No bid stands. */
  function WithoutBid(s: Sale): Sale
  {
    s.(onAuction := false, bid := 0, bidder := NOBODY, lastBid := 0, recovered := false)
  }

  function Offered(s: Sale, seller: Name, price: int, onSale: bool, now: int): Sale
  {
    s.(seller := seller, price := price, onSale := onSale,
       start := if !onSale then 0 else if !s.onSale then now + SALE_DELAY else s.start, recovered := false)
  }

  /** set_account_price returns the bid when the sale ends or a higher price exceeds it. */
  predicate PriceDropsBid(s: Sale, price: int, onSale: bool)
  {
    s.bidder != NOBODY && (!onSale || (s.price < price && s.bid < price))
  }

  /** target_account_sale also does when the bidder is not the buyer aimed at. */
  predicate TargetDropsBid(s: Sale, price: int, onSale: bool, target: Name)
  {
    s.bidder != NOBODY && (!onSale || s.bidder != target || (s.price < price && s.bid < price))
  }

  /** The least the next bidder has to offer. */
  function LeastBid(s: Sale): int
  {
    var step := s.price * (CHAIN_100_PERCENT / 10) / CHAIN_100_PERCENT;
    if s.bid == 0 then s.price
    else if s.lastBid != 0 && s.bid - s.lastBid > step then s.bid + (s.bid - s.lastBid)
    else s.bid + step
  }

  function WithBid(s: Sale, buyer: Name, amount: int, clock: int): Sale
  {
    s.(lastBid := if s.bidder != NOBODY && s.bidder != buyer then s.bid else s.lastBid,
       bid := amount, bidder := buyer, onAuction := true,
       start := if s.start < clock + EXTENSION then clock + EXTENSION else s.start)
  }

  /** recover_account: the sale ends, but a standing bid and the target stay. */
  function Recovered(s: Sale): Sale
  {
    s.(seller := NOBODY, price := 0, onSale := false, start := 0, recovered := s.bidder != NOBODY)
  }

  /** A direct purchase: the target stays here too. */
  function Bought(s: Sale): Sale
  {
    s.(seller := NOBODY, price := 0, onSale := false, start := 0)
  }

  /** The bid has won. */
  function Sold(s: Sale): Sale
  {
    WithoutBid(s).(seller := NOBODY, price := 0, onSale := false, start := 0, target := NOBODY)
  }

  /** The account is being recovered, so the sale is called off. */
  function CalledOff(s: Sale): Sale
  {
    WithoutBid(s).(price := 0, onSale := false, start := 0, target := NOBODY)
  }

  /** What an ended auction does to the account: the last case happens after a recovery only. */
  function Settled(s: Sale, recovering: bool): Sale
  {
    if !s.onSale then WithoutBid(s)
    else if recovering then CalledOff(s)
    else Sold(s)
  }

  // ----- What always holds -----

  predicate Sound(s: Sale, names: set<Name>)
  {
    && s.price >= 0 && s.lastBid >= 0
    && (s.onAuction <==> s.bidder != NOBODY)
    && (s.bidder == NOBODY ==> s.bid == 0 && s.lastBid == 0)
    && (s.bidder != NOBODY ==> s.bidder in names && s.bid >= s.price && s.bid > 0 && s.lastBid <= s.bid)
    && (s.bidder != NOBODY && s.target != NOBODY ==> s.bidder == s.target)
    && (s.onSale ==> s.seller in names && s.price > 0)
    && (s.bidder != NOBODY && !s.onSale <==> s.recovered)
  }

  lemma OfferSound(s: Sale, seller: Name, price: int, onSale: bool, now: int, names: set<Name>)
    requires Sound(s, names) && seller in names && price > 0
    ensures Sound(Offered(if PriceDropsBid(s, price, onSale) then WithoutBid(s) else s, seller, price, onSale, now),
            names)
  {
  }

  lemma TargetSound(s: Sale, seller: Name, price: int, onSale: bool, target: Name, now: int, names: set<Name>)
    requires Sound(s, names) && seller in names && price > 0 && target in names
    ensures var kept := if TargetDropsBid(s, price, onSale, target) then WithoutBid(s) else s;
            Sound(Offered(kept, seller, price, onSale, now).(target := if onSale then target else NOBODY), names)
  {
  }

  /**
   A higher bid has to beat the standing one by a tenth of the price, and by as much as that one
   beat its predecessor.
   */
  lemma BidSound(s: Sale, buyer: Name, amount: int, clock: int, names: set<Name>)
    requires Sound(s, names) && s.onSale && buyer in names && buyer != NOBODY
    requires s.target == NOBODY || s.target == buyer
    requires amount >= LeastBid(s) && amount > 0
    ensures var r := WithBid(s, buyer, amount, clock);
            && Sound(r, names) && r.start >= s.start && r.recovered == s.recovered
            && (s.bidder != NOBODY ==>
                amount >= s.bid + s.price / 10 && (s.lastBid == 0 || amount - s.bid >= s.bid - s.lastBid))
  {
  }

  /**
   What a bidder has to offer: the price, and once there is a bid as much again as that one beat
   its predecessor, but no less than a tenth of the price.
   */
  predicate Beats(s: Sale, amount: int)
  {
    && amount >= s.price
    && (s.bidder != NOBODY ==> amount - s.bid >= s.price / 10)
    && (s.bidder != NOBODY && s.lastBid > 0 ==> amount - s.bid >= s.bid - s.lastBid)
  }

  lemma Tenth(price: int)
    ensures price * (CHAIN_100_PERCENT / 10) / CHAIN_100_PERCENT == price / 10
  {
    DivBounds(price, 10);
    assert CHAIN_100_PERCENT / 10 == 1000;
    DivUnique(price * 1000, 10000, price / 10);
  }

  lemma BeatsIs(s: Sale, amount: int, names: set<Name>)
    requires Sound(s, names)
    ensures amount >= LeastBid(s) <==> Beats(s, amount)
  {
    Tenth(s.price);
    var step := s.price / 10;
    LeastBidIs(s, step);
    hide LeastBid;
  }

  lemma LeastBidIs(s: Sale, step: int)
    requires step == s.price * (CHAIN_100_PERCENT / 10) / CHAIN_100_PERCENT
    ensures LeastBid(s) == if s.bid == 0 then s.price
                           else s.bid + if s.lastBid != 0 && s.bid - s.lastBid > step then s.bid - s.lastBid else step
  {
  }

  /** Under either kind of offer a bid stays as long as it is for sale, for this bidder, and covers the price. */
  predicate Stays(s: Sale, price: int, onSale: bool, target: Name)
  {
    onSale && s.bid >= price && (target == NOBODY || target == s.bidder)
  }

  lemma DropsIs(s: Sale, price: int, onSale: bool, target: Name, names: set<Name>)
    requires Sound(s, names)
    ensures PriceDropsBid(s, price, onSale) <==> s.bidder != NOBODY && !Stays(s, price, onSale, NOBODY)
    ensures target != NOBODY ==>
              (TargetDropsBid(s, price, onSale, target) <==> s.bidder != NOBODY && !Stays(s, price, onSale, target))
  {
  }

  /** The new offer, and the bid that stands on it. */
  predicate OfferIs(s: Sale, s': Sale, seller: Name, price: int, onSale: bool, target: Name, back: bool, now: int)
  {
    && s'.seller == seller && s'.price == price && s'.onSale == onSale && s'.target == target && !s'.recovered
    && s'.start == (if !onSale then 0 else if s.onSale then s.start else now + SALE_DELAY)
    && if back then !s'.onAuction && s'.bid == 0 && s'.bidder == NOBODY && s'.lastBid == 0
       else s'.onAuction == s.onAuction && s'.bid == s.bid && s'.bidder == s.bidder && s'.lastBid == s.lastBid
  }

  lemma OfferedIs(s: Sale, seller: Name, price: int, onSale: bool, target: Name, back: bool, now: int)
    ensures OfferIs(s, Offered(if back then WithoutBid(s) else s, seller, price, onSale, now).(target := target),
                    seller, price, onSale, target, back, now)
  {
  }

  /** The bid, its bidder, and the bid it has beaten; it leaves five minutes for the next one. */
  predicate BidIs(s: Sale, s': Sale, buyer: Name, amount: int, clock: int)
  {
    && s' == s.(bid := amount, bidder := buyer, onAuction := true, lastBid := s'.lastBid, start := s'.start)
    && s'.lastBid == (if s.bidder in {NOBODY, buyer} then s.lastBid else s.bid)
    && s'.start >= s.start && s'.start >= clock + EXTENSION && s'.start in {s.start, clock + EXTENSION}
  }

  lemma WithBidIs(s: Sale, buyer: Name, amount: int, clock: int)
    ensures BidIs(s, WithBid(s, buyer, amount, clock), buyer, amount, clock)
  {
  }

  lemma RecoveredSound(s: Sale, names: set<Name>)
    requires Sound(s, names)
    ensures Sound(Recovered(s), names)
  {
  }

  lemma BoughtSound(s: Sale, names: set<Name>)
    requires Sound(s, names) && s.bidder == NOBODY
    ensures Sound(Bought(s), names)
  {
  }

  lemma SettledSound(s: Sale, recovering: bool, names: set<Name>)
    requires Sound(s, names)
    ensures Sound(Settled(s, recovering), names) && Settled(s, recovering).bidder == NOBODY
  {
  }
}
