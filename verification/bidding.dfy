/** Bid acceptance: the ordered validation of a bid request, and the update
    an accepted bid makes to its auction, to the bidder's history and
    standing bids, and to the previous leader's standing bids, with the
    events it announces. The store in module AuctionHouse applies these. */
module Bidding {
  import opened Outcomes
  import opened AuctionData
  import Clock
  import Notification

  /** The error responses of the two bid endpoints. */
  datatype BidError =
    | MissingField(field: string)
    | MissingBidInfo
    | InvalidSession
    | ProductNotFound
    | InvalidAmount
    | AuctionEnded
    | BidTooLow(currentBid: Money, minimumBid: Money)
    | IncrementTooSmall(minimumBid: Money)

  /** The fields of a voice bid request; `None` is a missing field. */
  datatype VoiceBidRequest = VoiceBidRequest(productId: Option<string>, amount: Option<RawAmount>, sessionId: Option<string>)

  /** A bid that passed every check, attributed to its bidder. */
  datatype AcceptedBid = AcceptedBid(productId: string, bidderId: string, amount: Money)

  /** What a successful voice bid reports back. */
  datatype BidReceipt = BidReceipt(
    bidId: string,
    amount: Money,
    productName: string,
    newHighestBid: Money,
    previousHighestBid: Money,
    totalBids: int,
    minutesRemaining: nat)

  /** The least amount the next bid may have. */
  function MinimumNextBid(current: Money): (m: Money)
    ensures m > current
  {
    current + MIN_INCREMENT
  }

  /** The checks that follow the product lookup, in the source's order:
      the amount must parse, the auction must be running, the bid must beat
      the leader, and by at least the minimum increment. Only a finite
      number is an amount (see the README's findings for what the source
      does with "nan" and "inf"). */
  function AuctionRules(p: Product, raw: RawAmount, now: Time): (r: Result<Money, BidError>)
    ensures r.Success? <==>
      raw.Number? && p.status == Active && now < p.auctionEndTime
      && raw.value >= p.currentHighestBid + MIN_INCREMENT
    ensures r.Success? ==> r.value == raw.value
    ensures r == Failure(InvalidAmount) <==> !raw.Number?
    ensures r == Failure(AuctionEnded) <==> raw.Number? && (now >= p.auctionEndTime || p.status != Active)
    ensures raw.Number? && p.status == Active && now < p.auctionEndTime && raw.value <= p.currentHighestBid
      ==> r == Failure(BidTooLow(p.currentHighestBid, p.currentHighestBid + MIN_INCREMENT))
    ensures r.Failure? && r.error.IncrementTooSmall? ==>
      p.currentHighestBid < raw.value < p.currentHighestBid + MIN_INCREMENT
    ensures raw.Number? && p.status == Active && now < p.auctionEndTime
      && p.currentHighestBid < raw.value < p.currentHighestBid + MIN_INCREMENT
      ==> r == Failure(IncrementTooSmall(p.currentHighestBid + MIN_INCREMENT))
  {
    match raw
    case Number(amount) =>
      var minimum := MinimumNextBid(p.currentHighestBid);
      if now >= p.auctionEndTime || p.status != Active then Failure(AuctionEnded)
      else if amount <= p.currentHighestBid then Failure(BidTooLow(p.currentHighestBid, minimum))
      else if amount < minimum then Failure(IncrementTooSmall(minimum))
      else Success(amount)
    case _ => Failure(InvalidAmount)
  }

  /** True when the request carries all three fields and names a registered
      session: from that point on the session's last activity is updated,
      whatever the rest of the checks decide. */
  predicate ResolvesSession(sessions: map<string, Session>, req: VoiceBidRequest) {
    req.productId.Some? && req.amount.Some? && req.sessionId.Some? && req.sessionId.value in sessions
  }

  /** Validation of a voice bid: missing fields (product_id, amount,
      session_id, in that order), unknown session, unknown product, then the
      auction's own rules. The bidder is the user of the session. */
  function CheckVoiceBid(products: map<string, Product>, sessions: map<string, Session>, req: VoiceBidRequest, now: Time)
    : (r: Result<AcceptedBid, BidError>)
    ensures r.Success? <==>
      ResolvesSession(sessions, req) && req.productId.value in products
      && AuctionRules(products[req.productId.value], req.amount.value, now).Success?
    ensures r.Success? ==> ResolvesSession(sessions, req) && req.productId.value in products
    ensures r.Success? ==>
      var p := products[req.productId.value];
      && r.value.productId == req.productId.value
      && r.value.bidderId == sessions[req.sessionId.value].userId
      && p.status == Active && now < p.auctionEndTime
      && r.value.amount >= p.currentHighestBid + MIN_INCREMENT
    ensures r.Success? ==> req.amount.value.Number? && r.value.amount == req.amount.value.value
    ensures r == Failure(InvalidSession) <==>
      req.productId.Some? && req.amount.Some? && req.sessionId.Some? && req.sessionId.value !in sessions
    ensures r == Failure(ProductNotFound) <==> ResolvesSession(sessions, req) && req.productId.value !in products
    ensures req.productId.None? ==> r == Failure(MissingField("product_id"))
    ensures req.productId.Some? && req.amount.None? ==> r == Failure(MissingField("amount"))
    ensures req.productId.Some? && req.amount.Some? && req.sessionId.None? ==> r == Failure(MissingField("session_id"))
    ensures ResolvesSession(sessions, req) && req.productId.value in products
      && AuctionRules(products[req.productId.value], req.amount.value, now).Failure?
      ==> r == Failure(AuctionRules(products[req.productId.value], req.amount.value, now).error)
  {
    if req.productId.None? then Failure(MissingField("product_id"))
    else if req.amount.None? then Failure(MissingField("amount"))
    else if req.sessionId.None? then Failure(MissingField("session_id"))
    else if req.sessionId.value !in sessions then Failure(InvalidSession)
    else if req.productId.value !in products then Failure(ProductNotFound)
    else
      match AuctionRules(products[req.productId.value], req.amount.value, now)
      case Success(amount) => Success(AcceptedBid(req.productId.value, sessions[req.sessionId.value].userId, amount))
      case Failure(e) => Failure(e)
  }

  /** Validation on the original bid endpoint: unknown product first, then a
      missing amount or bidder id, then the same auction rules. */
  function CheckDirectBid(products: map<string, Product>, productId: string, amount: Option<RawAmount>, bidderId: Option<string>, now: Time)
    : (r: Result<AcceptedBid, BidError>)
    ensures productId !in products ==> r == Failure(ProductNotFound)
    ensures r.Success? <==>
      productId in products && amount.Some? && bidderId.Some?
      && AuctionRules(products[productId], amount.value, now).Success?
    ensures r.Success? ==> r.value == AcceptedBid(productId, bidderId.value, amount.value.value)
    ensures productId in products && (amount.None? || bidderId.None?) ==> r == Failure(MissingBidInfo)
    ensures productId in products && amount.Some? && bidderId.Some?
      && AuctionRules(products[productId], amount.value, now).Failure?
      ==> r == Failure(AuctionRules(products[productId], amount.value, now).error)
  {
    if productId !in products then Failure(ProductNotFound)
    else if amount.None? || bidderId.None? then Failure(MissingBidInfo)
    else
      match AuctionRules(products[productId], amount.value, now)
      case Success(v) => Success(AcceptedBid(productId, bidderId.value, v))
      case Failure(e) => Failure(e)
  }

  /** The auction after accepting `bid`: new leader, bid appended to the log,
      one more bid counted. */
  function ProductAfterBid(p: Product, bid: Bid): Product {
    p.(currentHighestBid := bid.amount, highestBidder := bid.bidderId,
       biddingHistory := p.biddingHistory + [bid], totalBids := p.totalBids + 1)
  }

  /** An accepted bid keeps the log consistent (count equals length, leader
      amount equals the last logged amount, increments of at least the
      minimum), leaves the earlier log as it was, raises the leader amount by
      at least the minimum increment and makes its bidder the leader; the
      auction's identity, deadline and status do not change. */
  lemma AcceptedBidKeepsLogConsistent(p: Product, bid: Bid)
    requires BidLogConsistent(p)
    requires bid.amount >= p.currentHighestBid + MIN_INCREMENT
    ensures var q := ProductAfterBid(p, bid);
      && BidLogConsistent(q)
      && q.totalBids == p.totalBids + 1
      && q.biddingHistory[..|p.biddingHistory|] == p.biddingHistory
      && q.biddingHistory[|q.biddingHistory| - 1] == bid
      && q.currentHighestBid >= p.currentHighestBid + MIN_INCREMENT
      && q.highestBidder == q.biddingHistory[|q.biddingHistory| - 1].bidderId
      && q.id == p.id && q.name == p.name && q.status == p.status && q.auctionEndTime == p.auctionEndTime
  {
    var q := ProductAfterBid(p, bid);
    var log := q.biddingHistory;
    assert log[..|p.biddingHistory|] == p.biddingHistory;
    forall i | 0 < i < |log|
      ensures log[i - 1].amount + MIN_INCREMENT <= log[i].amount
    {
      if i == |log| - 1 {
        assert log[i - 1] == p.biddingHistory[|p.biddingHistory| - 1];
      } else {
        assert log[i - 1] == p.biddingHistory[i - 1] && log[i] == p.biddingHistory[i];
      }
    }
  }

  /** The standing bids left once those on `productId` are dropped (the
      list comprehension that precedes the append). */
  function WithoutProduct(bids: seq<ActiveBid>, productId: string): (r: seq<ActiveBid>)
    ensures |r| <= |bids|
    ensures forall b :: b in r <==> b in bids && b.productId != productId
    ensures OneBidPerProduct(bids) ==> OneBidPerProduct(r)
  {
    if bids == [] then []
    else
      var rest := WithoutProduct(bids[1..], productId);
      if bids[0].productId == productId then rest
      else
        assert OneBidPerProduct(bids) ==> forall b :: b in rest ==> b.productId != bids[0].productId by {
          if OneBidPerProduct(bids) {
            forall b | b in rest ensures b.productId != bids[0].productId {
              var k :| 0 <= k < |bids[1..]| && bids[1..][k] == b;
              assert bids[k + 1] == b;
            }
          }
        }
        [bids[0]] + rest
  }

  /** Dropping a product's entries twice is dropping them once. */
  lemma {:induction false} WithoutProductIdempotent(bids: seq<ActiveBid>, productId: string)
    ensures WithoutProduct(WithoutProduct(bids, productId), productId) == WithoutProduct(bids, productId)
  {
    if bids != [] {
      WithoutProductIdempotent(bids[1..], productId);
      var rest := WithoutProduct(bids[1..], productId);
      if bids[0].productId != productId {
        assert ([bids[0]] + rest)[1..] == rest;
      }
    }
  }

  /** Appending an entry for `productId` does not change what is left once
      that product's entries are dropped. */
  lemma {:induction false} WithoutProductAppend(bids: seq<ActiveBid>, b: ActiveBid, productId: string)
    requires b.productId == productId
    ensures WithoutProduct(bids + [b], productId) == WithoutProduct(bids, productId)
  {
    if bids == [] {
      assert WithoutProduct([b][1..], productId) == [];
    } else {
      assert (bids + [b])[1..] == bids[1..] + [b];
      WithoutProductAppend(bids[1..], b, productId);
    }
  }

  /** The bidder's record after an accepted bid: one "winning" history entry
      appended, and the standing bids on this product replaced by one
      "winning" entry at the end. */
  function RecordBid(u: User, productId: string, productName: string, amount: Money, now: Time): User {
    u.(biddingHistory := u.biddingHistory + [HistoryEntry(productId, productName, amount, now, Winning)],
       activeBids := WithoutProduct(u.activeBids, productId) + [ActiveBid(productId, productName, amount, Winning)])
  }

  /** The bidder's history gains exactly one "winning" entry; the standing
      bids on other products are the same entries in the same order; there is
      exactly one standing bid on this product, the last, "winning", at the
      bid amount; at most one standing bid per product is kept. */
  lemma RecordBidEffect(u: User, productId: string, productName: string, amount: Money, now: Time)
    ensures var v := RecordBid(u, productId, productName, amount, now);
      && |v.biddingHistory| == |u.biddingHistory| + 1
      && v.biddingHistory[..|u.biddingHistory|] == u.biddingHistory
      && v.biddingHistory[|u.biddingHistory|] == HistoryEntry(productId, productName, amount, now, Winning)
      && WithoutProduct(v.activeBids, productId) == WithoutProduct(u.activeBids, productId)
      && v.activeBids[|v.activeBids| - 1] == ActiveBid(productId, productName, amount, Winning)
      && (forall i :: 0 <= i < |v.activeBids| - 1 ==> v.activeBids[i].productId != productId)
      && (OneBidPerProduct(u.activeBids) ==> OneBidPerProduct(v.activeBids))
      && v.id == u.id && v.phone == u.phone
  {
    var v := RecordBid(u, productId, productName, amount, now);
    var kept := WithoutProduct(u.activeBids, productId);
    var entry := ActiveBid(productId, productName, amount, Winning);
    assert v.biddingHistory[..|u.biddingHistory|] == u.biddingHistory;
    WithoutProductAppend(kept, entry, productId);
    WithoutProductIdempotent(u.activeBids, productId);
    assert forall i :: 0 <= i < |kept| ==> kept[i] in kept;
    if OneBidPerProduct(u.activeBids) {
      AppendNewProduct(kept, entry);
    }
  }

  /** A standing bid on a product no kept bid is on can be appended without
      giving any product two standing bids. */
  lemma AppendNewProduct(kept: seq<ActiveBid>, entry: ActiveBid)
    requires OneBidPerProduct(kept)
    requires forall i :: 0 <= i < |kept| ==> kept[i].productId != entry.productId
    ensures OneBidPerProduct(kept + [entry])
  {
    var all := kept + [entry];
    forall i, j | 0 <= i < j < |all| ensures all[i].productId != all[j].productId {
      assert all[i] == kept[i];
      if j < |kept| {
        assert all[j] == kept[j];
      }
    }
  }

  /** One standing bid after the previous leader is outbid on `productId`. */
  function MarkedOutbid(b: ActiveBid, productId: string): ActiveBid {
    if b.productId == productId then b.(status := Outbid) else b
  }

  /** The previous leader's standing bids after being outbid on `productId`:
      position by position, entries on that product say "outbid". */
  function Demoted(bids: seq<ActiveBid>, productId: string): seq<ActiveBid> {
    seq(|bids|, i requires 0 <= i < |bids| => MarkedOutbid(bids[i], productId))
  }

  /** The loop that walks the previous leader's standing bids and flags
      those on this product as outbid. */
  method Demote(bids: seq<ActiveBid>, productId: string) returns (r: seq<ActiveBid>)
    ensures r == Demoted(bids, productId)
  {
    r := bids;
    var i := 0;
    while i < |r|
      invariant 0 <= i <= |r| == |bids|
      invariant forall j :: 0 <= j < i ==> r[j] == MarkedOutbid(bids[j], productId)
      invariant forall j :: i <= j < |r| ==> r[j] == bids[j]
    {
      if r[i].productId == productId {
        r := r[i := r[i].(status := Outbid)];
      }
      i := i + 1;
    }
  }

  /** Demotion touches only this product's entries, leaves the order and
      every amount alone, makes all of this product's entries "outbid", and
      keeps at most one standing bid per product. */
  lemma DemotionTouchesOnlyThisProduct(bids: seq<ActiveBid>, productId: string)
    ensures var d := Demoted(bids, productId);
      && |d| == |bids|
      && WithoutProduct(d, productId) == WithoutProduct(bids, productId)
      && (forall i :: 0 <= i < |d| ==> d[i].productId == bids[i].productId && d[i].amount == bids[i].amount)
      && (forall i :: 0 <= i < |d| && d[i].productId == productId ==> d[i].status == Outbid)
      && (OneBidPerProduct(bids) ==> OneBidPerProduct(d))
  {
    DemotedWithoutProduct(bids, productId);
  }

  lemma {:induction false} DemotedWithoutProduct(bids: seq<ActiveBid>, productId: string)
    ensures WithoutProduct(Demoted(bids, productId), productId) == WithoutProduct(bids, productId)
  {
    if bids != [] {
      DemotedWithoutProduct(bids[1..], productId);
      assert Demoted(bids, productId)[1..] == Demoted(bids[1..], productId);
    }
  }

  /** Whether a bid by `bidder` displaces a different, named leader. */
  predicate DisplacesLeader(previousBidder: string, bidder: string) {
    previousBidder != "" && previousBidder != bidder
  }

  /** The users after an accepted bid: the bidder's record, then, when a
      different named leader existed and is a known user, that user's
      standing bids on this product flagged outbid. */
  function UsersAfterBid(users: map<string, User>, a: AcceptedBid, productName: string, previousBidder: string, now: Time)
    : map<string, User>
    requires a.bidderId in users
  {
    var withBidder := users[a.bidderId := RecordBid(users[a.bidderId], a.productId, productName, a.amount, now)];
    if DisplacesLeader(previousBidder, a.bidderId) && previousBidder in withBidder then
      withBidder[previousBidder := withBidder[previousBidder].(activeBids := Demoted(withBidder[previousBidder].activeBids, a.productId))]
    else withBidder
  }

  /** Only the bidder and the displaced leader change. The bidder's record
      is updated by RecordBid; when a different named leader is a known user,
      that user's standing bids are demoted on this product and nothing else
      of theirs changes; no user is added or removed. */
  lemma UsersAfterBidEffect(users: map<string, User>, a: AcceptedBid, productName: string, previousBidder: string, now: Time)
    requires a.bidderId in users
    ensures var r := UsersAfterBid(users, a, productName, previousBidder, now);
      && r.Keys == users.Keys
      && (forall u :: u in users && u != a.bidderId && u != previousBidder ==> r[u] == users[u])
      && r[a.bidderId] == RecordBid(users[a.bidderId], a.productId, productName, a.amount, now)
      && (DisplacesLeader(previousBidder, a.bidderId) && previousBidder in users ==>
            r[previousBidder] == users[previousBidder].(activeBids := Demoted(users[previousBidder].activeBids, a.productId)))
      && (!DisplacesLeader(previousBidder, a.bidderId) && previousBidder in users && previousBidder != a.bidderId ==>
            r[previousBidder] == users[previousBidder])
  {
  }

  /** `after` is `before` with `leader` leading `productId` and every other
      auction's leader kept. */
  ghost predicate LeaderChanged(before: map<string, Product>, after: map<string, Product>, productId: string, leader: string) {
    && after.Keys == before.Keys && productId in after && after[productId].highestBidder == leader
    && forall k :: k in after && k != productId ==> after[k].highestBidder == before[k].highestBidder
  }

  /** The new leader's standing bids: its other entries keep following
      their leaders, and the new entry is "winning". */
  lemma BidderStandings(before: map<string, Product>, after: map<string, Product>, productId: string, bidder: string,
                        bids: seq<ActiveBid>, productName: string, amount: Money)
    requires LeaderChanged(before, after, productId, bidder) && StandingsOf(before, bidder, bids)
    ensures StandingsOf(after, bidder, WithoutProduct(bids, productId) + [ActiveBid(productId, productName, amount, Winning)])
  {
    var kept := WithoutProduct(bids, productId);
    var r := kept + [ActiveBid(productId, productName, amount, Winning)];
    forall i | 0 <= i < |r|
      ensures r[i].productId in after && (r[i].status == Winning <==> after[r[i].productId].highestBidder == bidder)
    {
      if i < |kept| {
        assert r[i] in kept;
        var j :| 0 <= j < |bids| && bids[j] == r[i];
      }
    }
  }

  /** A displaced leader's standing bids, once demoted on that auction. */
  lemma DemotedStandings(before: map<string, Product>, after: map<string, Product>, productId: string, leader: string,
                         u: string, bids: seq<ActiveBid>)
    requires LeaderChanged(before, after, productId, leader) && u != leader && StandingsOf(before, u, bids)
    ensures StandingsOf(after, u, Demoted(bids, productId))
  {
    var d := Demoted(bids, productId);
    forall i | 0 <= i < |d|
      ensures d[i].productId in after && (d[i].status == Winning <==> after[d[i].productId].highestBidder == u)
    {
      assert d[i] == MarkedOutbid(bids[i], productId);
    }
  }

  /** The standing bids of a user who neither led nor leads: an entry on
      the auction said "outbid" and still does. */
  lemma BystanderStandings(before: map<string, Product>, after: map<string, Product>, productId: string, leader: string,
                           u: string, bids: seq<ActiveBid>)
    requires LeaderChanged(before, after, productId, leader) && StandingsOf(before, u, bids)
    requires u != leader && u != before[productId].highestBidder
    ensures StandingsOf(after, u, bids)
  {
  }

  /** After an accepted bid the standing bids still follow the leaders: the
      bidder's new entry is "winning" and the bidder leads; the displaced
      leader's entries on this auction say "outbid"; every other user's
      entry on it already said "outbid" and its user still does not lead.
      A user named by the empty string would break this, as the empty
      leader is never displaced. */
  lemma AcceptedBidKeepsStandings(products: map<string, Product>, users: map<string, User>,
                                  a: AcceptedBid, productName: string, bidId: string, now: Time)
    requires StandingsFollowLeaders(products, users) && "" !in users
    requires a.productId in products && a.bidderId in users
    ensures var p := products[a.productId];
      StandingsFollowLeaders(products[a.productId := ProductAfterBid(p, Bid(bidId, a.bidderId, a.amount, now))],
                             UsersAfterBid(users, a, productName, p.highestBidder, now))
  {
    var previous := products[a.productId].highestBidder;
    var after := products[a.productId := ProductAfterBid(products[a.productId], Bid(bidId, a.bidderId, a.amount, now))];
    var r := UsersAfterBid(users, a, productName, previous, now);
    assert LeaderChanged(products, after, a.productId, a.bidderId);
    UsersAfterBidEffect(users, a, productName, previous, now);
    forall u | u in r ensures StandingsOf(after, u, r[u].activeBids) {
      if u == a.bidderId {
        BidderStandings(products, after, a.productId, u, users[u].activeBids, productName, a.amount);
      } else if DisplacesLeader(previous, a.bidderId) && u == previous {
        DemotedStandings(products, after, a.productId, a.bidderId, u, users[u].activeBids);
      } else {
        BystanderStandings(products, after, a.productId, a.bidderId, u, users[u].activeBids);
      }
    }
  }

  /** After an accepted bid every user still has at most one standing bid
      per product. */
  lemma UsersAfterBidKeepOneBidPerProduct(users: map<string, User>, a: AcceptedBid, productName: string, previousBidder: string, now: Time)
    requires a.bidderId in users
    requires forall u :: u in users ==> OneBidPerProduct(users[u].activeBids)
    ensures var r := UsersAfterBid(users, a, productName, previousBidder, now);
      forall u :: u in r ==> OneBidPerProduct(r[u].activeBids)
  {
    var r := UsersAfterBid(users, a, productName, previousBidder, now);
    UsersAfterBidEffect(users, a, productName, previousBidder, now);
    RecordBidEffect(users[a.bidderId], a.productId, productName, a.amount, now);
    forall u | u in r ensures OneBidPerProduct(r[u].activeBids) {
      if u == a.bidderId {
      } else if u == previousBidder && DisplacesLeader(previousBidder, a.bidderId) {
        DemotionTouchesOnlyThisProduct(users[u].activeBids, a.productId);
      }
    }
  }

  /** The events an accepted bid announces: "outbid" to the displaced
      leader first, when there is one, then "new bid". */
  function BidEvents(p: Product, a: AcceptedBid): (r: seq<Notification.Event>)
    ensures |r| >= 1
    ensures r[|r| - 1] == Notification.NewBidEvent(a.productId, p.name, a.amount, a.bidderId, p.currentHighestBid)
    ensures |r| == 2 <==> DisplacesLeader(p.highestBidder, a.bidderId)
    ensures |r| == 2 ==> r[0] == Notification.OutbidEvent(a.productId, p.name, a.amount, p.highestBidder)
  {
    var newBid := Notification.NewBidEvent(a.productId, p.name, a.amount, a.bidderId, p.currentHighestBid);
    if DisplacesLeader(p.highestBidder, a.bidderId) then
      [Notification.OutbidEvent(a.productId, p.name, a.amount, p.highestBidder), newBid]
    else [newBid]
  }

  /** An auction that has ended accepts no bid, on either endpoint. */
  lemma EndedAuctionAcceptsNoBid(products: map<string, Product>, sessions: map<string, Session>, req: VoiceBidRequest, now: Time)
    requires req.productId.Some? && req.productId.value in products
    requires products[req.productId.value].status == Ended || now >= products[req.productId.value].auctionEndTime
    ensures CheckVoiceBid(products, sessions, req, now).Failure?
    ensures forall amount, bidder :: CheckDirectBid(products, req.productId.value, amount, bidder, now).Failure?
  {
  }

  /** The minimum next bid the read side quotes is exactly the threshold:
      on a running auction a bid at that amount passes the auction's rules
      and any bid below it is refused as too low or too small an increment. */
  lemma MinimumNextBidIsExact(p: Product, now: Time, amount: Money)
    requires p.status == Active && now < p.auctionEndTime
    ensures AuctionRules(p, Number(MinimumNextBid(p.currentHighestBid)), now).Success?
    ensures amount < MinimumNextBid(p.currentHighestBid) ==>
      AuctionRules(p, Number(amount), now).Failure?
      && (AuctionRules(p, Number(amount), now).error.BidTooLow?
          || AuctionRules(p, Number(amount), now).error.IncrementTooSmall?)
  {
  }
}
