/** The entities of the in-memory auction store: products (auctions), their
    bid logs, users with their bid history and standing bids, and voice
    sessions. Every entity is a value; the store that holds them and updates
    them in place is the class in module AuctionHouse. */
module AuctionData {

  /** Instants and durations, in microseconds (the resolution of the
      timestamps the store keeps). */
  type Time = int

  /** Bid amounts and prices. The source keeps them as floating-point numbers;
      here they are exact reals. */
  type Money = real

  const MICROS_PER_SECOND: int := 1_000_000
  const MICROS_PER_MINUTE: int := 60 * MICROS_PER_SECOND

  /** The fixed minimum amount by which a new bid must exceed the leader. */
  const MIN_INCREMENT: Money := 50.0

  /** The two values the store ever gives an auction's status field. */
  datatype Status = Active | Ended

  /** One accepted bid in an auction's log. */
  datatype Bid = Bid(bidId: string, bidderId: string, amount: Money, timestamp: Time)

  /** An auction. `highestBidder` is the empty string when nobody leads. */
  datatype Product = Product(
    id: string,
    name: string,
    description: string,
    startingPrice: Money,
    currentHighestBid: Money,
    highestBidder: string,
    auctionEndTime: Time,
    biddingHistory: seq<Bid>,
    totalBids: int,
    status: Status,
    category: string,
    imageUrl: string)

  /** The standing a user's bid is recorded with. */
  datatype Standing = Winning | Outbid

  /** An entry of a user's append-only bid history. */
  datatype HistoryEntry = HistoryEntry(productId: string, productName: string, amount: Money, timestamp: Time, status: Standing)

  /** A user's current standing bid on one auction. */
  datatype ActiveBid = ActiveBid(productId: string, productName: string, amount: Money, status: Standing)

  datatype User = User(
    id: string,
    name: string,
    phone: string,
    biddingHistory: seq<HistoryEntry>,
    totalSpent: Money,
    activeBids: seq<ActiveBid>)

  /** A registered voice session and the user its bids are attributed to. */
  datatype Session = Session(userId: string, phoneNumber: string, startTime: Time, lastActivity: Time)

  /** What `float(...)` made of the request's amount field: a finite number,
      one of the non-finite values Python's parser accepts ("nan", "inf",
      "-inf"), or a parse failure (ValueError or TypeError). */
  datatype RawAmount = Number(value: real) | NotANumber | Infinite(negative: bool) | Unparsable

  /** The bid count equals the log's length, the leader amount is the last
      logged amount, and each logged bid beats the one before it by at least
      the minimum increment. */
  ghost predicate BidLogConsistent(p: Product) {
    var log := p.biddingHistory;
    && p.totalBids == |log|
    && (|log| > 0 ==> p.currentHighestBid == log[|log| - 1].amount)
    && forall i :: 0 < i < |log| ==> log[i - 1].amount + MIN_INCREMENT <= log[i].amount
  }

  /** At most one standing bid per auction. */
  ghost predicate OneBidPerProduct(bids: seq<ActiveBid>) {
    forall i, j :: 0 <= i < j < |bids| ==> bids[i].productId != bids[j].productId
  }

  /** Every standing bid of user `u` names a stored auction, and it is
      "winning" exactly when `u` leads that auction. */
  ghost predicate StandingsOf(products: map<string, Product>, u: string, bids: seq<ActiveBid>) {
    forall i :: 0 <= i < |bids| ==>
      bids[i].productId in products && (bids[i].status == Winning <==> products[bids[i].productId].highestBidder == u)
  }

  /** Every user's standing bids follow the auctions' leaders. */
  ghost predicate StandingsFollowLeaders(products: map<string, Product>, users: map<string, User>) {
    forall u :: u in users ==> StandingsOf(products, u, users[u].activeBids)
  }

  /** No element occurs twice (the keys of a Python dict, in their order). */
  ghost predicate Distinct<T>(s: seq<T>) {
    forall i, j :: 0 <= i < j < |s| ==> s[i] != s[j]
  }

  /** Three runs of a sequence, regrouped. */
  lemma Regrouped<T>(a: seq<T>, b: seq<T>, c: seq<T>)
    ensures a + b + c == a + (b + c)
  {
  }
}
